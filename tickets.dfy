/** backend/tickets.py: the tickets table. Writing attachment bytes to disk
    is not modelled; `stamp` is the `%Y%m%d%H%M%S` rendering of the clock and
    `now` the `created_at`/`updated_at` value, both parameters. */
module Tickets {
  import opened Wrappers
  import opened Text
  import opened Ranking
  import opened Db

  /** `os.path.join(os.path.dirname(__file__), "../data/ticket_uploads")`,
      taken relative to the application root. */
  const TicketUploadDir: string := "data/ticket_uploads"

  datatype Ticket = Ticket(
    id: int,
    title: string,
    description: string,
    category: string,
    priority: string,
    status: string,
    creator: string,
    creatorRole: string,
    attachmentPath: Option<string>,
    landlordResponse: Option<string>,
    landlordAttachment: Option<string>,
    createdAt: Timestamp,
    updatedAt: Timestamp)

  /** A value bound to a `?` placeholder. */
  datatype SqlValue = SqlText(text: string) | SqlInt(n: int) | SqlNull

  /** Python truthiness of optional bytes and of an optional string. */
  predicate HasBytes(b: Option<seq<bv8>>) { b.Some? && b.value != [] }
  predicate HasText(s: Option<string>) { s.Some? && s.value != "" }

  /** The path an uploaded attachment is written to: a path under the
      ticket upload directory ending in `prefix + stamp + "_" + name`, made
      only when both the bytes and the name are truthy. */
  function StampedPath(bytes: Option<seq<bv8>>, name: Option<string>, prefix: string, stamp: string): (r: Option<string>)
    ensures r.Some? <==> HasBytes(bytes) && HasText(name)
    ensures r.Some? ==> EndsWith(r.value, prefix + stamp + "_" + name.value)
  {
    if HasBytes(bytes) && HasText(name) then Some(PathJoin(TicketUploadDir, prefix + stamp + "_" + name.value))
    else None
  }

  /** AUTOINCREMENT ids: positive, below the counter, increasing in table order. */
  ghost predicate TicketsValid(rows: seq<Ticket>, nextId: int) {
    && nextId >= 1
    && (forall i :: 0 <= i < |rows| ==> 1 <= rows[i].id < nextId)
    && (forall i, j :: 0 <= i < j < |rows| ==> rows[i].id < rows[j].id)
  }

  /** `get_ticket`: `SELECT * FROM tickets WHERE id=?`, first row or None. */
  function GetTicket(rows: seq<Ticket>, ticketId: int): (r: Option<Ticket>)
    ensures r.None? <==> forall i :: 0 <= i < |rows| ==> rows[i].id != ticketId
    ensures r.Some? ==> r.value in rows && r.value.id == ticketId
  {
    if rows == [] then None
    else if rows[0].id == ticketId then Some(rows[0])
    else GetTicket(rows[1..], ticketId)
  }

  /** The value of a named column, None for a name that is not a column. */
  function Column(t: Ticket, name: string): Option<SqlValue> {
    var opt := (o: Option<string>) => if o.Some? then SqlText(o.value) else SqlNull;
    match name
    case "id" => Some(SqlInt(t.id))
    case "title" => Some(SqlText(t.title))
    case "description" => Some(SqlText(t.description))
    case "category" => Some(SqlText(t.category))
    case "priority" => Some(SqlText(t.priority))
    case "status" => Some(SqlText(t.status))
    case "creator" => Some(SqlText(t.creator))
    case "creator_role" => Some(SqlText(t.creatorRole))
    case "attachment_path" => Some(opt(t.attachmentPath))
    case "landlord_response" => Some(opt(t.landlordResponse))
    case "landlord_attachment" => Some(opt(t.landlordAttachment))
    case "created_at" => Some(SqlInt(t.createdAt))
    case "updated_at" => Some(SqlInt(t.updatedAt))
    case _ => None
  }

  /** The WHERE clauses `list_tickets` emits, one `k=?` per filter key, and
      the parameters bound to them, in the filter's (insertion) order. */
  function Clauses(filter: seq<(string, SqlValue)>): (r: seq<string>)
    ensures |r| == |filter|
  {
    seq(|filter|, i requires 0 <= i < |filter| => filter[i].0 + "=?")
  }

  function Values(filter: seq<(string, SqlValue)>): (r: seq<SqlValue>)
    ensures |r| == |filter|
  {
    seq(|filter|, i requires 0 <= i < |filter| => filter[i].1)
  }

  const SelectAll: string := "SELECT * FROM tickets"
  const OrderByNewest: string := " ORDER BY created_at DESC"

  predicate NoPlaceholderInKeys(filter: seq<(string, SqlValue)>) {
    forall i :: 0 <= i < |filter| ==> forall j :: 0 <= j < |filter[i].0| ==> filter[i].0[j] != '?'
  }

  /** The statement and parameters `list_tickets` hands to SQLite. With no
      (or an empty) filter it selects everything, newest first; otherwise one
      `k=?` per key joined by " AND ", with the values in the same order, so
      there is one placeholder per parameter. */
  method ListTicketsQuery(filter: seq<(string, SqlValue)>) returns (q: string, params: seq<SqlValue>)
    ensures params == Values(filter)
    ensures filter == [] ==> q == SelectAll + OrderByNewest
    ensures filter != [] ==> q == SelectAll + " WHERE " + Join(Clauses(filter), " AND ") + OrderByNewest
    ensures NoPlaceholderInKeys(filter) ==> CountChar(q, '?') == |params|
  {
    q := SelectAll;
    params := [];
    if filter != [] {
      var clauses: seq<string> := [];
      for i := 0 to |filter|
        invariant |clauses| == i && |params| == i
        invariant forall j :: 0 <= j < i ==> clauses[j] == filter[j].0 + "=?" && params[j] == filter[j].1
      {
        clauses := clauses + [filter[i].0 + "=?"];
        params := params + [filter[i].1];
      }
      assert clauses == Clauses(filter);
      q := q + " WHERE " + Join(clauses, " AND ");
    }
    q := q + OrderByNewest;
    assert params == Values(filter);
    if NoPlaceholderInKeys(filter) {
      QueryPlaceholders(filter);
    }
  }

  /** Each `k=?` clause holds exactly one placeholder when `k` holds none. */
  lemma ClausePlaceholder(k: string)
    requires forall j :: 0 <= j < |k| ==> k[j] != '?'
    ensures CountChar(k + "=?", '?') == 1
  {
    CountCharAppend(k, "=?", '?');
    CountCharAbsent(k, '?');
    assert CountChar("=?", '?') == CountChar("=", '?') + 1 by {
      assert "=?"[..1] == "=";
    }
  }

  lemma {:induction false} JoinPlaceholders(cs: seq<string>, sep: string)
    requires forall j :: 0 <= j < |sep| ==> sep[j] != '?'
    requires forall i :: 0 <= i < |cs| ==> CountChar(cs[i], '?') == 1
    ensures CountChar(Join(cs, sep), '?') == |cs|
  {
    if |cs| == 1 {
    } else if |cs| > 1 {
      var init := cs[..|cs| - 1];
      JoinPlaceholders(init, sep);
      CountCharAppend(Join(init, sep) + sep, cs[|cs| - 1], '?');
      CountCharAppend(Join(init, sep), sep, '?');
      CountCharAbsent(sep, '?');
    }
  }

  lemma QueryPlaceholders(filter: seq<(string, SqlValue)>)
    requires NoPlaceholderInKeys(filter)
    ensures CountChar(SelectAll + OrderByNewest, '?') == 0
    ensures filter != [] ==>
      CountChar(SelectAll + " WHERE " + Join(Clauses(filter), " AND ") + OrderByNewest, '?') == |filter|
  {
    CountCharAbsent(SelectAll + OrderByNewest, '?');
    if filter != [] {
      var cs := Clauses(filter);
      forall i | 0 <= i < |cs| ensures CountChar(cs[i], '?') == 1 {
        ClausePlaceholder(filter[i].0);
      }
      JoinPlaceholders(cs, " AND ");
      var head := SelectAll + " WHERE ";
      CountCharAbsent(head, '?');
      CountCharAbsent(OrderByNewest, '?');
      CountCharAppend(head, Join(cs, " AND "), '?');
      CountCharAppend(head + Join(cs, " AND "), OrderByNewest, '?');
    }
  }

  /** What SQLite answers for the `list_tickets` statement. */
  datatype QueryError = NoSuchColumn(name: string)

  /** A row satisfies `k=?` when column `k` equals the bound value;
      `= NULL` is never true in SQL. */
  predicate Matches(t: Ticket, filter: seq<(string, SqlValue)>) {
    forall i :: 0 <= i < |filter| ==> filter[i].1 != SqlNull && Column(t, filter[i].0) == Some(filter[i].1)
  }

  function UnknownColumn(filter: seq<(string, SqlValue)>): (r: Option<string>)
    ensures r.None? <==> forall i :: 0 <= i < |filter| ==> Column(Ticket(0, "", "", "", "", "", "", "", None, None, None, 0, 0), filter[i].0).Some?
  {
    if filter == [] then None
    else if Column(Ticket(0, "", "", "", "", "", "", "", None, None, None, 0, 0), filter[0].0).None? then Some(filter[0].0)
    else UnknownColumn(filter[1..])
  }

  function MatchingRows(rows: seq<Ticket>, filter: seq<(string, SqlValue)>): (r: seq<Ticket>)
    ensures forall t :: t in r <==> t in rows && Matches(t, filter)
    ensures multiset(r) <= multiset(rows)
  {
    if rows == [] then []
    else
      var init := MatchingRows(rows[..|rows| - 1], filter);
      var last := rows[|rows| - 1];
      assert rows == rows[..|rows| - 1] + [last];
      if Matches(last, filter) then init + [last] else init
  }

  /** Each matching row is answered as often as it is stored, and no other. */
  lemma {:induction false} MatchingRowsCounts(rows: seq<Ticket>, filter: seq<(string, SqlValue)>)
    ensures forall t :: multiset(MatchingRows(rows, filter))[t] == if Matches(t, filter) then multiset(rows)[t] else 0
  {
    if rows != [] {
      var init, last := rows[..|rows| - 1], rows[|rows| - 1];
      assert rows == init + [last];
      MatchingRowsCounts(init, filter);
    }
  }

  function CreatedKey(t: Ticket): real { t.createdAt as real }

  /** The rows the `list_tickets` statement returns: the matching rows, newest
      first (ties between equal `created_at` values are left in table order). */
  function Select(rows: seq<Ticket>, filter: seq<(string, SqlValue)>): (r: Result<seq<Ticket>, QueryError>)
    ensures r.Failure? <==> UnknownColumn(filter).Some?
  {
    match UnknownColumn(filter)
    case Some(k) => Failure(NoSuchColumn(k))
    case None => Success(SortDesc(MatchingRows(rows, filter), CreatedKey))
  }

  /** `list_tickets` answers exactly the rows satisfying every filter pair,
      each as often as it is stored, ordered by `created_at` descending. */
  lemma SelectSpec(rows: seq<Ticket>, filter: seq<(string, SqlValue)>)
    requires UnknownColumn(filter).None?
    ensures var r := Select(rows, filter).value;
      && (forall t :: t in r <==> t in rows && Matches(t, filter))
      && (forall t :: multiset(r)[t] == if Matches(t, filter) then multiset(rows)[t] else 0)
      && SortedDesc(r, CreatedKey)
  {
    SortDescSpec(MatchingRows(rows, filter), CreatedKey);
    MatchingRowsCounts(rows, filter);
  }

  /** With no filter every row is listed. */
  lemma SelectUnfiltered(rows: seq<Ticket>)
    ensures Select(rows, []).Success?
    ensures multiset(Select(rows, []).value) == multiset(rows)
  {
    MatchingAll(rows);
    SortDescSpec(MatchingRows(rows, []), CreatedKey);
  }

  lemma {:induction false} MatchingAll(rows: seq<Ticket>)
    ensures MatchingRows(rows, []) == rows
  {
    if rows != [] {
      MatchingAll(rows[..|rows| - 1]);
      assert rows == rows[..|rows| - 1] + [rows[|rows| - 1]];
    }
  }

  /** The assignments `update_ticket_response` makes, in the order it
      builds them, before `updated_at`. */
  function Assignments(response: Option<string>, attPath: Option<string>, newStatus: Option<string>): (r: seq<(string, SqlValue)>)
    ensures |r| <= 3
    ensures r == [] <==> response.None? && attPath.None? && !HasText(newStatus)
  {
    (if response.Some? then [("landlord_response", SqlText(response.value))] else [])
    + (if attPath.Some? then [("landlord_attachment", SqlText(attPath.value))] else [])
    + (if HasText(newStatus) then [("status", SqlText(newStatus.value))] else [])
  }

  /** A ticket after a landlord's response: each field given is set, the
      status only when truthy, `updated_at` always; nothing else moves. */
  function Responded(t: Ticket, response: Option<string>, attPath: Option<string>, newStatus: Option<string>, now: Timestamp): (r: Ticket)
    ensures r.id == t.id && r.createdAt == t.createdAt && r.updatedAt == now
    ensures r.landlordResponse == (if response.Some? then response else t.landlordResponse)
    ensures r.landlordAttachment == (if attPath.Some? then attPath else t.landlordAttachment)
    ensures r.status == (if HasText(newStatus) then newStatus.value else t.status)
    ensures r.(landlordResponse := t.landlordResponse, landlordAttachment := t.landlordAttachment,
               status := t.status, updatedAt := t.updatedAt) == t
  {
    t.(landlordResponse := if response.Some? then response else t.landlordResponse,
       landlordAttachment := if attPath.Some? then attPath else t.landlordAttachment,
       status := if HasText(newStatus) then newStatus.value else t.status,
       updatedAt := now)
  }

  /** How `update_ticket_response` builds its assignments: the response
      when given (even empty), the attachment path when one was stored, the
      status when truthy. */
  method CollectAssignments(response: Option<string>, att: Option<string>, newStatus: Option<string>)
    returns (updates: seq<(string, SqlValue)>)
    ensures updates == Assignments(response, att, newStatus)
  {
    updates := [];
    if response.Some? {
      updates := updates + [("landlord_response", SqlText(response.value))];
    }
    if att.Some? {
      updates := updates + [("landlord_attachment", SqlText(att.value))];
    }
    if HasText(newStatus) {
      updates := updates + [("status", SqlText(newStatus.value))];
    }
  }

  /** The UPDATE statement for a list of assignments and its parameters,
      the ticket id last: one parameter per placeholder. */
  method UpdateStatement(a: seq<(string, SqlValue)>, ticketId: int) returns (q: string, params: seq<SqlValue>)
    requires NoPlaceholderInKeys(a)
    ensures q == "UPDATE tickets SET " + Join(Clauses(a), ", ") + " WHERE id=?"
    ensures params == Values(a) + [SqlInt(ticketId)]
    ensures CountChar(q, '?') == |params|
  {
    q := "UPDATE tickets SET " + Join(Clauses(a), ", ") + " WHERE id=?";
    params := Values(a) + [SqlInt(ticketId)];
    UpdatePlaceholders(a);
  }

  class TicketTable {
    var rows: seq<Ticket>
    var nextId: int

    ghost predicate Valid()
      reads this
    {
      TicketsValid(rows, nextId)
    }

    constructor ()
      ensures rows == [] && nextId == 1 && Valid()
    {
      rows := [];
      nextId := 1;
    }

    /** `create_ticket`: one new row with status 'open', the attachment
        path only when bytes and name are both given, and
        `created_at == updated_at`; returns the new id. */
    method CreateTicket(title: string, description: string, category: string, priority: string,
                        creator: string, creatorRole: string,
                        attachment: Option<seq<bv8>>, attachmentName: Option<string>,
                        stamp: string, now: Timestamp) returns (tid: int)
      requires Valid()
      modifies this
      ensures Valid()
      ensures tid == old(nextId) && nextId == old(nextId) + 1
      ensures rows == old(rows) + [Ticket(tid, title, description, category, priority, DefaultTicketStatus,
                                          creator, creatorRole, StampedPath(attachment, attachmentName, "", stamp),
                                          None, None, now, now)]
      ensures GetTicket(rows, tid) == Some(rows[|rows| - 1])
    {
      var att := StampedPath(attachment, attachmentName, "", stamp);
      var t := Ticket(nextId, title, description, category, priority, DefaultTicketStatus,
                      creator, creatorRole, att, None, None, now, now);
      GetTicketAfterAppend(rows, nextId, t);
      rows := rows + [t];
      tid := nextId;
      nextId := nextId + 1;
    }

    /** `update_ticket_response`. With nothing to set it answers False and
        changes nothing; otherwise it issues the UPDATE (which touches the
        row with that id, if any) and answers True. */
    method UpdateTicketResponse(ticketId: int, response: Option<string>,
                                attachment: Option<seq<bv8>>, attachmentName: Option<string>,
                                newStatus: Option<string>, stamp: string, now: Timestamp)
      returns (updated: bool, q: string, params: seq<SqlValue>)
      requires Valid()
      modifies this
      ensures Valid() && nextId == old(nextId)
      ensures var att := StampedPath(attachment, attachmentName, "resp_", stamp);
        && (updated <==> response.Some? || att.Some? || HasText(newStatus))
        && (!updated ==> rows == old(rows))
        && (updated ==> |rows| == |old(rows)|)
        && (updated ==> forall i :: 0 <= i < |rows| ==>
              rows[i] == if old(rows[i]).id == ticketId then Responded(old(rows[i]), response, att, newStatus, now)
                         else old(rows[i]))
        && (updated ==> var a := Assignments(response, att, newStatus) + [("updated_at", SqlInt(now))];
             && q == "UPDATE tickets SET " + Join(Clauses(a), ", ") + " WHERE id=?"
             && params == Values(a) + [SqlInt(ticketId)]
             && CountChar(q, '?') == |params|)
    {
      var att := StampedPath(attachment, attachmentName, "resp_", stamp);
      var updates := CollectAssignments(response, att, newStatus);
      if updates == [] {
        return false, "", [];
      }
      updates := updates + [("updated_at", SqlInt(now))];
      AssignmentKeys(response, att, newStatus, now);
      q, params := UpdateStatement(updates, ticketId);
      ApplyResponse(ticketId, response, att, newStatus, now);
      updated := true;
    }

    /** The effect of the UPDATE statement: the rows with that id become
        `Responded`, every other row is kept. */
    method ApplyResponse(ticketId: int, response: Option<string>, att: Option<string>,
                         newStatus: Option<string>, now: Timestamp)
      requires Valid()
      modifies this
      ensures Valid() && nextId == old(nextId)
      ensures |rows| == |old(rows)|
      ensures forall i :: 0 <= i < |rows| ==>
                rows[i] == if old(rows[i]).id == ticketId then Responded(old(rows[i]), response, att, newStatus, now)
                           else old(rows[i])
    {
      var old_rows := rows;
      rows := seq(|old_rows|, i requires 0 <= i < |old_rows| =>
                if old_rows[i].id == ticketId then Responded(old_rows[i], response, att, newStatus, now) else old_rows[i]);
    }
  }

  lemma AssignmentKeys(response: Option<string>, attPath: Option<string>, newStatus: Option<string>, now: Timestamp)
    ensures NoPlaceholderInKeys(Assignments(response, attPath, newStatus) + [("updated_at", SqlInt(now))])
  {
    var a := Assignments(response, attPath, newStatus) + [("updated_at", SqlInt(now))];
    forall i | 0 <= i < |a| ensures forall j :: 0 <= j < |a[i].0| ==> a[i].0[j] != '?' {
      assert a[i].0 in {"landlord_response", "landlord_attachment", "status", "updated_at"};
    }
  }

  lemma UpdatePlaceholders(a: seq<(string, SqlValue)>)
    requires NoPlaceholderInKeys(a)
    ensures CountChar("UPDATE tickets SET " + Join(Clauses(a), ", ") + " WHERE id=?", '?') == |a| + 1
  {
    var cs := Clauses(a);
    forall i | 0 <= i < |cs| ensures CountChar(cs[i], '?') == 1 {
      ClausePlaceholder(a[i].0);
    }
    JoinPlaceholders(cs, ", ");
    var head := "UPDATE tickets SET ";
    CountCharAbsent(head, '?');
    CountCharAppend(head, Join(cs, ", "), '?');
    CountCharAppend(" WHERE id=", "?", '?');
    CountCharAbsent(" WHERE id=", '?');
    assert CountChar("?", '?') == 1 by { assert "?"[..0] == ""; }
    assert " WHERE id=?" == " WHERE id=" + "?";
    CountCharAppend(head + Join(cs, ", "), " WHERE id=?", '?');
  }

  /** A row appended under the next id is what `get_ticket` finds for it. */
  lemma {:induction false} GetTicketAfterAppend(rows: seq<Ticket>, nextId: int, t: Ticket)
    requires TicketsValid(rows, nextId) && t.id == nextId
    ensures TicketsValid(rows + [t], nextId + 1)
    ensures GetTicket(rows + [t], nextId) == Some(t)
    ensures forall id :: id != nextId ==> GetTicket(rows + [t], id) == GetTicket(rows, id)
  {
    GetTicketAppend(rows, t, nextId);
    forall id | id != nextId ensures GetTicket(rows + [t], id) == GetTicket(rows, id) {
      GetTicketAppend(rows, t, id);
    }
  }

  /** Looking an id up in a table with one more row at the end: the old
      answer if there was one, otherwise the new row if it has that id. */
  lemma {:induction false} GetTicketAppend(rows: seq<Ticket>, t: Ticket, id: int)
    ensures GetTicket(rows + [t], id) ==
              if GetTicket(rows, id).Some? then GetTicket(rows, id) else if t.id == id then Some(t) else None
  {
    if rows == [] {
      assert [] + [t] == [t];
      assert [t][1..] == [];
    } else {
      assert (rows + [t])[1..] == rows[1..] + [t];
      GetTicketAppend(rows[1..], t, id);
    }
  }

  /** `get_ticket` after an update sees the responded row. */
  lemma {:induction false} GetTicketAfterResponse(rows: seq<Ticket>, updatedRows: seq<Ticket>, ticketId: int, response: Option<string>,
                                                 att: Option<string>, newStatus: Option<string>, now: Timestamp)
    requires |updatedRows| == |rows|
    requires forall i :: 0 <= i < |rows| ==>
               updatedRows[i] == if rows[i].id == ticketId then Responded(rows[i], response, att, newStatus, now) else rows[i]
    ensures GetTicket(updatedRows, ticketId) ==
              if GetTicket(rows, ticketId).Some? then Some(Responded(GetTicket(rows, ticketId).value, response, att, newStatus, now))
              else None
  {
    if rows != [] {
      GetTicketAfterResponse(rows[1..], updatedRows[1..], ticketId, response, att, newStatus, now);
    }
  }
}
