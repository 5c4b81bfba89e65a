/** The decision rules of the Streamlit front end (app.py): navigation by
    role, the knowledge-base gate and the chat turn, the status selector,
    the ticket card's normalisation, the sidebar upload dispatch and the
    landlord panel's ticket filter. Rendering is not modelled. */
module App {
  import opened Wrappers
  import opened Text
  import opened Ranking
  import opened Db
  import opened Users
  import opened Tickets
  import opened HouseKb
  import opened Embeddings

  const ChatPage: string := "\U{1F4AC} Chat"
  const SubmitTicketPage: string := "\U{1F6E0} Submit Ticket"
  const MyTicketsPage: string := "\U{1F4CB} My Tickets"
  const LandlordPanelPage: string := "\U{1F3E0} Landlord Panel"

  /** The sidebar's pages for the logged-in user, if any. */
  function NavOptions(user: Option<User>): (r: seq<string>)
    ensures |r| >= 1 && r[0] == ChatPage
    ensures SubmitTicketPage in r <==> user.Some? && user.value.role == "tenant"
    ensures MyTicketsPage in r <==> user.Some? && user.value.role == "tenant"
    ensures LandlordPanelPage in r <==> user.Some? && user.value.role == "landlord"
    ensures r == [ChatPage] <==> user.None? || user.value.role !in Roles
  {
    if user.None? then [ChatPage]
    else if user.value.role == "tenant" then [ChatPage, SubmitTicketPage, MyTicketsPage]
    else if user.value.role == "landlord" then [ChatPage, LandlordPanelPage]
    else [ChatPage]
  }

  /** `u.get("tenant_house_id")` is truthy: present and not 0. */
  predicate BoundHouse(u: User) {
    u.tenantHouseId.Some? && u.tenantHouseId.value != 0
  }

  /** `any(has_house_kb(h["id"]) for h in houses)`. */
  function AnyHasKb(houses: seq<House>, docs: seq<HouseDoc>): (r: bool)
    ensures r <==> exists h :: h in houses && HasHouseKb(docs, h.id)
  {
    if houses == [] then false
    else HasHouseKb(docs, houses[0].id) || AnyHasKb(houses[1..], docs)
  }

  /** The knowledge-base gate: a user document is indexed, or the tenant's
      bound house has a KB document, or one of the landlord's houses has. */
  function KbAvailable(u: User, userDocIndexed: bool, houses: seq<House>, docs: seq<HouseDoc>): (r: bool)
    ensures r <==> || userDocIndexed
                   || (u.role == "tenant" && BoundHouse(u) && HasHouseKb(docs, u.tenantHouseId.value))
                   || (u.role == "landlord" && exists h :: h in houses && h.landlordId == u.id && HasHouseKb(docs, h.id))
  {
    ListHousesSpec(houses, u.id);
    var tenantKb := u.role == "tenant" && BoundHouse(u) && HasHouseKb(docs, u.tenantHouseId.value);
    var landlordKb := u.role == "landlord" && AnyHasKb(ListHouses(houses, u.id), docs);
    userDocIndexed || tenantKb || landlordKb
  }

  /** The six English phrases that turn a prompt into a ticket draft. */
  const TicketKeywords: seq<string> :=
    ["create ticket", "maintenance issue", "report problem", "repair request", "fix", "broken"]

  function ContainsAny(s: string, keys: seq<string>): (r: bool)
    ensures r <==> exists i :: 0 <= i < |keys| && Contains(s, keys[i])
  {
    if keys == [] then false else Contains(s, keys[0]) || ContainsAny(s, keys[1..])
  }

  /** A prompt is a ticket request iff its lowercase form contains one of
      the keywords. */
  function IsTicketIntent(prompt: string): (r: bool)
    ensures r <==> exists i :: 0 <= i < |TicketKeywords| && Contains(Lower(prompt), TicketKeywords[i])
  {
    ContainsAny(Lower(prompt), TicketKeywords)
  }

  datatype ChatMessage = ChatMessage(role: string, content: string)
  datatype Draft = Draft(title: string, description: string, priority: string)

  /** The assistant's reply: the answer of `query_rag(prompt, top_k=3)`, or
      the text of the exception it raised. */
  function Answer(prompt: string, queryRag: (string, nat) -> Result<string, string>): (r: string)
    ensures queryRag(prompt, 3).Success? ==> r == queryRag(prompt, 3).value
    ensures queryRag(prompt, 3).Failure? ==> r == "Error during query: " + queryRag(prompt, 3).error
  {
    match queryRag(prompt, 3)
    case Success(a) => a
    case Failure(e) => "Error during query: " + e
  }

  /** The session state the chat page reads and updates. */
  class ChatSession {
    var currentUser: Option<User>
    var messages: seq<ChatMessage>
    var ticketDraft: Option<Draft>

    constructor (user: User)
      ensures currentUser == Some(user) && messages == [] && ticketDraft == None
    {
      currentUser := Some(user);
      messages := [];
      ticketDraft := None;
    }

    /** One run of the chat page for a logged-in user. A tenant with a bound
        house first reloads that house's KB into the pipeline; then the gate
        stops the page when no KB is available; otherwise a submitted prompt
        is recorded and either opens a ticket draft or is answered. */
    method ChatTurn(kb: HouseStore, textStore: TextStore, prompt: Option<string>,
                    queryRag: (string, nat) -> Result<string, string>) returns (stopped: bool)
      requires currentUser.Some? && kb.Valid()
      modifies this, kb
      ensures kb.Valid() && kb.houses == old(kb.houses) && kb.docs == old(kb.docs) && kb.disk == old(kb.disk)
      ensures var u := old(currentUser).value;
        && (u.role == "tenant" && BoundHouse(u) ==>
              kb.ingested == old(kb.ingested) + Reingest(FilePaths(GetHouseDocs(kb.docs, u.tenantHouseId.value)), kb.disk))
        && (!(u.role == "tenant" && BoundHouse(u)) ==> kb.ingested == old(kb.ingested))
        && (stopped <==> !KbAvailable(u, textStore.IsFitted(), kb.houses, kb.docs))
      ensures currentUser == old(currentUser)
      ensures stopped || prompt.None? ==> messages == old(messages) && ticketDraft == old(ticketDraft)
      ensures !stopped && prompt.Some? && IsTicketIntent(prompt.value) ==>
                messages == old(messages) + [ChatMessage("user", prompt.value)]
                && ticketDraft == Some(Draft("New Maintenance Request", prompt.value, "Normal"))
      ensures !stopped && prompt.Some? && !IsTicketIntent(prompt.value) ==>
                messages == old(messages) + [ChatMessage("user", prompt.value),
                                             ChatMessage("assistant", Answer(prompt.value, queryRag))]
                && ticketDraft == old(ticketDraft)
    {
      var u := currentUser.value;
      if u.role == "tenant" && BoundHouse(u) {
        var loaded, msg := kb.LoadHouseKbIntoRag(u.tenantHouseId.value);
      }
      assert kb.Valid();
      var available := KbAvailable(u, textStore.IsFitted(), kb.houses, kb.docs);
      stopped := Converse(available, prompt, queryRag);
    }

    /** The part of the chat page after the reload: the gate stops the page
        when no KB is available; otherwise a submitted prompt is recorded
        and either opens a ticket draft or is answered. */
    method Converse(available: bool, prompt: Option<string>, queryRag: (string, nat) -> Result<string, string>)
      returns (stopped: bool)
      modifies this
      ensures stopped <==> !available
      ensures currentUser == old(currentUser)
      ensures stopped || prompt.None? ==> messages == old(messages) && ticketDraft == old(ticketDraft)
      ensures !stopped && prompt.Some? && IsTicketIntent(prompt.value) ==>
                messages == old(messages) + [ChatMessage("user", prompt.value)]
                && ticketDraft == Some(Draft("New Maintenance Request", prompt.value, "Normal"))
      ensures !stopped && prompt.Some? && !IsTicketIntent(prompt.value) ==>
                messages == old(messages) + [ChatMessage("user", prompt.value),
                                             ChatMessage("assistant", Answer(prompt.value, queryRag))]
                && ticketDraft == old(ticketDraft)
    {
      if !available {
        return true;
      }
      stopped := false;
      if prompt.Some? {
        var p := prompt.value;
        messages := messages + [ChatMessage("user", p)];
        if IsTicketIntent(p) {
          ticketDraft := Some(Draft("New Maintenance Request", p, "Normal"));
        } else {
          var answer := Answer(p, queryRag);
          messages := messages + [ChatMessage("assistant", answer)];
        }
      }
    }

    /** Submitting the ticket draft form: only a tenant creates the ticket,
        as its creator, after which the draft is discarded. */
    method SubmitDraft(tickets: TicketTable, title: string, category: string, priority: string, description: string,
                       attachment: Option<seq<bv8>>, attachmentName: Option<string>, stamp: string, now: Timestamp)
      returns (tid: Option<int>)
      requires currentUser.Some? && ticketDraft.Some? && tickets.Valid()
      modifies this, tickets
      ensures tickets.Valid() && currentUser == old(currentUser) && messages == old(messages)
      ensures tid.Some? <==> currentUser.value.role == "tenant"
      ensures tid.None? ==> tickets.rows == old(tickets.rows) && tickets.nextId == old(tickets.nextId)
                            && ticketDraft == old(ticketDraft)
      ensures tid.Some? ==> ticketDraft == None && tid.value == old(tickets.nextId)
                            && tickets.rows == old(tickets.rows) + [Ticket(tid.value, title, description, category, priority,
                                 DefaultTicketStatus, currentUser.value.username, "tenant",
                                 StampedPath(attachment, attachmentName, "", stamp), None, None, now, now)]
    {
      var u := currentUser.value;
      if u.role != "tenant" {
        return None;
      }
      var id := tickets.CreateTicket(title, description, category, priority, u.username, u.role,
                                     attachment, attachmentName, stamp, now);
      ticketDraft := None;
      return Some(id);
    }
  }

  /** How the sidebar hands an upload to the pipeline. */
  datatype IndexRequest = PdfUpload(name: string) | TextUpload(text: string)

  /** `bytes.decode("latin-1")`: each byte is the code point of its value. */
  function Latin1(bytes: seq<bv8>): (r: string)
    ensures |r| == |bytes|
    ensures forall i :: 0 <= i < |bytes| ==> r[i] as int == bytes[i] as int
  {
    seq(|bytes|, i requires 0 <= i < |bytes| => bytes[i] as int as char)
  }

  /** The sidebar upload: a name ending in ".pdf" (any case) goes in pdf
      mode; anything else is decoded as UTF-8, or as Latin-1 when that
      fails, and goes in as text. `utf8` is the UTF-8 decoder. */
  function UploadDispatch(name: string, content: seq<bv8>, utf8: seq<bv8> -> Option<string>): (r: IndexRequest)
    ensures r.PdfUpload? <==> ModeFor(name) == PdfMode
    ensures r.PdfUpload? ==> r.name == name
    ensures r.TextUpload? && utf8(content).Some? ==> r.text == utf8(content).value
    ensures r.TextUpload? && utf8(content).None? ==> r.text == Latin1(content)
  {
    if ModeFor(name) == PdfMode then PdfUpload(name)
    else match utf8(content)
      case Some(t) => TextUpload(t)
      case None => TextUpload(Latin1(content))
  }

  /** `SELECT username FROM users WHERE landlord_id=?`; with no landlord id
      the comparison with NULL matches nothing. */
  function TenantNames(users: seq<User>, landlordId: Option<int>): (r: seq<string>)
    ensures forall n :: n in r <==> exists i :: 0 <= i < |users| && users[i].username == n
                                                && landlordId.Some? && users[i].landlordId == landlordId
  {
    if users == [] then []
    else
      var init := TenantNames(users[..|users| - 1], landlordId);
      var last := users[|users| - 1];
      assert forall i :: 0 <= i < |users| - 1 ==> users[..|users| - 1][i] == users[i];
      if landlordId.Some? && last.landlordId == landlordId then init + [last.username] else init
  }

  function CreatedBy(tickets: seq<Ticket>, names: seq<string>): (r: seq<Ticket>)
    ensures forall t :: t in r <==> t in tickets && t.creator in names
    ensures multiset(r) <= multiset(tickets)
  {
    if tickets == [] then []
    else
      var init := CreatedBy(tickets[..|tickets| - 1], names);
      var last := tickets[|tickets| - 1];
      assert tickets == tickets[..|tickets| - 1] + [last];
      if last.creator in names then init + [last] else init
  }

  /** Each ticket of a listed creator is shown as often as it is stored. */
  lemma {:induction false} CreatedByCounts(tickets: seq<Ticket>, names: seq<string>)
    ensures forall t :: multiset(CreatedBy(tickets, names))[t] == if t.creator in names then multiset(tickets)[t] else 0
  {
    if tickets != [] {
      var init, last := tickets[..|tickets| - 1], tickets[|tickets| - 1];
      assert tickets == init + [last];
      CreatedByCounts(init, names);
    }
  }

  /** What the landlord panel's ticket section shows. */
  datatype TicketPanel = NoTenants | NoTickets | TenantTickets(tickets: seq<Ticket>)

  /** The landlord panel: the landlord's id by name, its tenants, and the
      tickets they created (`creator IN (...)`), newest first. */
  function LandlordPanel(users: seq<User>, tickets: seq<Ticket>, landlordName: string): (r: TicketPanel)
    ensures var names := TenantNames(users, GetUserIdByName(users, landlordName));
      && (r == NoTenants <==> names == [])
      && (r == NoTickets <==> names != [] && CreatedBy(tickets, names) == [])
      && (r.TenantTickets? ==> r.tickets != [])
  {
    var names := TenantNames(users, GetUserIdByName(users, landlordName));
    if names == [] then NoTenants
    else
      var shown := CreatedBy(tickets, names);
      assert |SortDesc(shown, CreatedKey)| == |shown| by { SortDescSpec(shown, CreatedKey); }
      if shown == [] then NoTickets else TenantTickets(SortDesc(shown, CreatedKey))
  }

  /** The panel shows exactly the tickets created by one of the landlord's
      tenants, each as often as it is stored, ordered by `created_at`
      descending. */
  lemma LandlordPanelSpec(users: seq<User>, tickets: seq<Ticket>, landlordName: string)
    requires LandlordPanel(users, tickets, landlordName).TenantTickets?
    ensures var shown := LandlordPanel(users, tickets, landlordName).tickets;
      var lid := GetUserIdByName(users, landlordName);
      && (forall t :: t in shown <==>
            (t in tickets && lid.Some?
             && exists i :: 0 <= i < |users| && users[i].username == t.creator && users[i].landlordId == lid))
      && (forall t :: multiset(shown)[t] ==
            if t.creator in TenantNames(users, lid) then multiset(tickets)[t] else 0)
      && SortedDesc(shown, CreatedKey)
  {
    var names := TenantNames(users, GetUserIdByName(users, landlordName));
    var shown := CreatedBy(tickets, names);
    assert LandlordPanel(users, tickets, landlordName).tickets == SortDesc(shown, CreatedKey);
    SortDescSpec(shown, CreatedKey);
    CreatedByCounts(tickets, names);
  }
}
