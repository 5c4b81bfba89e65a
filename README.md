# rag-rentbot core in Dafny

This project models the decision logic of rag-rentbot. rag-rentbot is a rental assistant:
tenants and landlords log in, upload documents into a retrieval-augmented chat, and file
and answer maintenance tickets. Each backend file becomes one module:

- `VectorStore` (vectorstore.dfy): `SimpleVectorStore`, a flat inner-product index with a
  parallel metadata list. `add` normalises rows behind a zero-norm guard. `search` normalises
  the query, takes the top `k` hits of the flat index and drops hits outside the metadata list.
  Persistence is a ghost snapshot of both parts.
- `Embeddings` (embeddings.dfy): the module-global text store. `build_embeddings` replaces
  it, `clear_index` empties it, and `is_fitted` and `get_embeddings` are gated on it.
- `DocumentParser` (document_parser.dfy): extension routing with `os.path.splitext`
  semantics, the PDF page/OCR assembly loop and the DOCX paragraph filter. The extraction
  libraries are oracles.
- `UploadApi` (main_api.dfy): the `/upload` flow with its empty-text guard, and the
  `/list_docs` per-document chunk counter.
- `Db`, `Users` (db.py, users.py): the users table. It covers the unique-username and
  role constraints, `ensure_user` get-or-create, registration with a landlord lookup, and
  login against an opaque password hash.
- `Tickets` (tickets.py): the tickets table. It covers creation, the `list_tickets` query
  and parameter builder with its result rows, lookup, and the partial update of a
  landlord response.
- `HouseKb` (house_kb.py): houses and their knowledge-base documents, plus re-ingestion of
  a house's files. Each ingestion call is recorded as an `Ingest(path, mode)` request.
- `App`, `TicketCard` (app.py): the rules the Streamlit script applies. These are navigation
  by role, the knowledge-base gate, the chat turn with its ticket-intent test, the ticket
  draft submission, the upload dispatch, the landlord ticket panel and the ticket card's
  colour, status class and status index.
- Helpers: `Wrappers` (Option/Result), `Text` (ASCII case mapping, `str.join`, `strip`,
  `os.path.join`, substring tests, character counts) and `Ranking` (a stable descending
  insertion sort, used for `ORDER BY created_at DESC` and for the flat index's ranking).

SQLite tables are sequences of records with an AUTOINCREMENT counter. Timestamps are natural
numbers: ISO-8601 strings from `utcnow().isoformat()` sort as the instants they name. Several
things are parameters: the file-name stamps from `strftime`, uuids, the password hash, the
vector norm, the vectoriser and the `query_rag` call.

## Model

| member | source | states |
|---|---|---|
| VectorStore.Divisor | backend/vectorstore.py:43-44 | the divisor is positive; it is 1 for a zero norm and the norm otherwise |
| VectorStore.NormalizeRow | backend/vectorstore.py:43-45 | width is kept and each entry times the divisor gives back the stored entry; a zero-norm row is stored unchanged; an all-zero row stays all zero |
| VectorStore.NormalizeRows | backend/vectorstore.py:41-45 | one row per input row, of the same width; each entry times its row's divisor gives back the input entry, and a row of norm zero is stored unchanged |
| VectorStore.NormalizeQuery | backend/vectorstore.py:53 | the query keeps its width and each entry is divided by norm + 1e-12 |
| VectorStore.FlatSearch | backend/vectorstore.py:54 | the flat index answers exactly `k` slots |
| VectorStore.RankedSpec | backend/vectorstore.py:28 | the flat index ranks every stored position exactly once, by descending inner product |
| VectorStore.FlatSearchSlots | backend/vectorstore.py:54 | slot j holds the j-th ranked position and its score while positions remain, then -1 |
| VectorStore.FlatSearchIsTopK | backend/vectorstore.py:54 | real hits are in range and in descending score order; no position left out scores above a returned hit |
| VectorStore.KeepInRange | backend/vectorstore.py:55-59 | the kept results are never more than the hits |
| VectorStore.KeepInRangeAppend | backend/vectorstore.py:55-59 | the filter works hit by hit, so it distributes over concatenation |
| VectorStore.ResultsComeFromValidHits | backend/vectorstore.py:56-59 | every result is `(metadata[idx], score)` for a hit with 0 <= idx < len(metadata) |
| VectorStore.KeepInRangeAllValid | backend/vectorstore.py:56-59 | when all hits are in range, every hit is returned in order as `(metadata[idx], score)` |
| VectorStore.KeepInRangeNoneValid | backend/vectorstore.py:56-58 | negative (padding) hits are all skipped |
| VectorStore.SearchEmptyStore | backend/vectorstore.py:55-60 | with no metadata, search returns nothing |
| VectorStore.KeepInRangePrefix | backend/vectorstore.py:56-59 | in-range hits followed by padding give exactly the in-range prefix |
| VectorStore.SearchAligned | backend/vectorstore.py:50-60 | on an aligned store, search returns min(k, n) results: the top-ranked metadata in descending score order |
| VectorStore.SimpleVectorStore.constructor | backend/vectorstore.py:18-33 | loads the index and metadata from their files if present; with neither file the store is an empty index of width `dim`, empty metadata, aligned |
| VectorStore.SimpleVectorStore.Add | backend/vectorstore.py:40-48 | on success, normalised rows and metadata are appended after the old contents, alignment is kept for equal lengths, and both files hold the new state; a rejected add changes nothing |
| VectorStore.SimpleVectorStore.Search | backend/vectorstore.py:50-60 | fails only on a wrong width or k < 1; otherwise returns the in-range top-k hits as `(metadata, score)`, at most k of them |
| Embeddings.TextStore.constructor | backend/embeddings.py:22 | the store starts empty and unfitted |
| Embeddings.TextStore.IsFitted | backend/embeddings.py:63-65 | fitted iff the store holds at least one text |
| Embeddings.TextStore.GetTexts | backend/embeddings.py:58-60 | the texts last stored |
| Embeddings.TextStore.BuildEmbeddings | backend/embeddings.py:24-44 | the store is replaced by the given texts, not appended to; it is fitted iff they are non-empty |
| Embeddings.TextStore.ClearIndex | backend/embeddings.py:68-72 | the store is empty and unfitted |
| Embeddings.TextStore.GetEmbeddings | backend/embeddings.py:47-55 | fails with "no documents indexed" iff the store is empty; otherwise one 1024-wide row per input text, in order |
| DocumentParser.LastIndexOf | backend/document_parser.py:47 | the result is the last position of the character, or -1 when it is absent |
| DocumentParser.SplitExt | backend/document_parser.py:47 | root + extension is the path; an extension exists iff some dot after the last slash follows a non-dot character of the last component, and it is then the text from the last dot on; it contains no other dot or slash |
| DocumentParser.RouteExt | backend/document_parser.py:48-53 | the PDF parser iff ".pdf", the DOCX parser iff ".docx" or ".doc", the image parser iff one of the five image extensions; plain text otherwise |
| DocumentParser.Route | backend/document_parser.py:46-53 | a lower-cased name without an extension is read as plain text |
| DocumentParser.RoutePdfIff | backend/document_parser.py:47-49 | the PDF parser is chosen iff the lower-cased name ends in ".pdf" with a non-dot character before it in the last component |
| DocumentParser.PdfExtensionIff | backend/document_parser.py:47 | `splitext` gives ".pdf" iff the path ends in ".pdf" with a non-dot character before it in the last component |
| DocumentParser.ExtensionHasStem | backend/document_parser.py:47 | a non-empty extension is a suffix of the path and has a non-dot character before it after the last slash |
| DocumentParser.StemMakesPdfExtension | backend/document_parser.py:47 | a name ending in ".pdf" with a non-dot character before it after the last slash has extension ".pdf" |
| DocumentParser.PdfExtensionIsSuffix | backend/document_parser.py:47-48 | an extension of ".pdf" implies the name ends in ".pdf" |
| DocumentParser.PdfSuffixIsExtension | backend/document_parser.py:47-48 | a name ending in ".pdf" after a non-dot, non-slash character has extension ".pdf" |
| DocumentParser.NoDotNoExtension | backend/document_parser.py:47 | a name without a dot has no extension ("readme") |
| DocumentParser.LeadingDotNoExtension | backend/document_parser.py:47 | a single leading dot is not an extension (".pdf") |
| DocumentParser.RoutePdfNeedsSuffix | backend/document_parser.py:47-49 | the PDF parser is chosen only for names whose lower case ends in ".pdf" |
| DocumentParser.RoutePdfBySuffix | backend/document_parser.py:47-49 | a lower-case name ending in ".pdf" after a non-dot, non-slash character is routed to the PDF parser |
| DocumentParser.KeepNonBlank | backend/document_parser.py:39 | only non-blank paragraphs are kept, every non-blank one is kept, never more often than it occurs; empty iff all were blank |
| DocumentParser.KeepNonBlankCounts | backend/document_parser.py:39 | each non-blank paragraph is kept exactly as often as it occurs, a blank one never |
| DocumentParser.KeepNonBlankAppend | backend/document_parser.py:39 | the filter works paragraph by paragraph, so it keeps their order |
| DocumentParser.KeepNonBlankOne | backend/document_parser.py:39 | a single paragraph is kept iff it is not blank |
| DocumentParser.JoinNonBlankNotEmpty | backend/document_parser.py:40 | a join starting with a non-blank paragraph is not empty |
| DocumentParser.ParseDocx | backend/document_parser.py:35-40 | the DOCX text is empty iff every paragraph is blank |
| DocumentParser.PdfParts | backend/document_parser.py:19-33 | never more parts than pages |
| DocumentParser.ParsePdf | backend/document_parser.py:18-33 | an unreadable PDF fails; otherwise the per-page parts joined by "\n" |
| DocumentParser.PdfPartsCount | backend/document_parser.py:19-33 | there are at most as many parts as pages, and exactly one per page, in order, when every page contributes |
| DocumentParser.PdfPartsFromPages | backend/document_parser.py:21-32 | every part is the text or OCR text of some page |
| DocumentParser.PdfPartsAppend | backend/document_parser.py:21-32 | the loop works page by page, so parts keep the page order |
| DocumentParser.PdfPartsOne | backend/document_parser.py:21-32 | one page gives its text, its OCR text, or nothing when OCR fails |
| DocumentParser.PdfTextPagesOnly | backend/document_parser.py:21-24 | when every page has extracted text, the parts are those texts in page order |
| DocumentParser.ParseFile | backend/document_parser.py:46-59 | parsing fails iff the routed extractor raises; otherwise a PDF gives its page parts joined by newlines, a DOCX its non-blank paragraphs, an image its OCR text, and any other extension its UTF-8 text or "" |
| UploadApi.UploadFile | backend/main.py:20-33 | a parser failure propagates; blank text is rejected before anything is saved; otherwise the doc id is the given one or a fresh one, the file path is `UPLOAD_DIR/doc_id_filename`, and the chunk count is the store's |
| UploadApi.ListDocs | backend/main.py:40-48 | the keys are exactly the doc ids present, each mapped to its positive number of chunks |
| UploadApi.CountsSumToLength | backend/main.py:43-48 | the per-document counts sum to the number of metadata entries |
| Text.PathJoin | backend/main.py:29 | `os.path.join` ends with its last component, and an absolute component replaces the prefix |
| Text.StripEmptyIffBlank | backend/main.py:24 | `strip()` is empty iff the text is all whitespace |
| Ranking.SortDescSpec | backend/tickets.py:42 | ORDER BY ... DESC returns a permutation of the rows, sorted by descending key |
| Db.FindByName | backend/db.py:52-53 | None iff no row has that username; otherwise a row with that name |
| Db.FindByNameUnique | backend/db.py:22 | on a table with unique usernames, the lookup finds the one row with that name |
| Db.UserTable.constructor | backend/db.py:19-26 | an empty users table whose ids start at 1 |
| Db.UserTable.Insert | backend/db.py:21-23 | a duplicate username or an unknown role fails and changes nothing; otherwise one row with the next id is appended |
| Db.UserTable.EnsureUser | backend/db.py:48-58 | get-or-create as specified by `EnsureUserSpec`, keeping the table's invariants |
| Db.FindByNameAppend | backend/db.py:52-53 | appending a row changes a name's lookup only when the name was absent |
| Db.EnsureUserIdempotent | backend/db.py:48-58 | ensure_user adds at most one row, keeps the old rows, and a second call returns the same id and adds nothing |
| Db.EnsureUserKeepsExisting | backend/db.py:52-55 | an existing user's id is returned, nothing is inserted and the role is not changed |
| Users.FindLandlord | backend/users.py:15-17 | None iff no landlord-role user has that name |
| Users.LoginUser | backend/users.py:36-48 | "user not found" iff the name is absent; success only with the row whose stored password is the hash; otherwise a row with a different stored password |
| Users.GetUserIdByName | backend/users.py:50-59 | None iff the name is absent; otherwise the id of a row with that name |
| Users.LoginAfterInsert | backend/users.py:27-48 | a newly inserted user logs in with the password whose hash was stored |
| Users.EnsuredUserCannotLogIn | backend/users.py:46-47 | a row created without a password never passes the hash check |
| Users.RegisterUser | backend/users.py:9-33 | an unknown landlord changes nothing; otherwise one row with the hashed password, the landlord's id only for a tenant naming one, and the house id as given; failures keep the table and say "Error: ..."; a registered user can then log in |
| Tickets.StampedPath | backend/tickets.py:13-15 | a path exists iff bytes and name are both truthy, and it ends with the stamped name |
| Tickets.GetTicket | backend/tickets.py:48-54 | None iff no row has that id; otherwise that row |
| Tickets.UnknownColumn | backend/tickets.py:39-43 | None iff every filter key names a tickets column |
| Tickets.MatchingRows | backend/tickets.py:37-43 | exactly the rows that satisfy every clause, never more often than stored |
| Tickets.MatchingRowsCounts | backend/tickets.py:37-43 | each matching row is answered exactly as often as it is stored, any other row never |
| Tickets.Select | backend/tickets.py:43-46 | the query fails iff a filter key is not a column |
| Tickets.SelectSpec | backend/tickets.py:34-46 | a valid query returns exactly the matching rows, each as often as it is stored, newest first |
| Tickets.SelectUnfiltered | backend/tickets.py:34-46 | with no filter, all rows are returned |
| Tickets.MatchingAll | backend/tickets.py:36 | the empty filter matches every row |
| Tickets.ListTicketsQuery | backend/tickets.py:30-42 | the parameters are the filter values in order; the query is the bare SELECT ... ORDER BY created_at DESC when unfiltered, else one "k=?" per key joined by " AND "; placeholders match parameters |
| Tickets.QueryPlaceholders | backend/tickets.py:34-42 | the unfiltered query has no placeholder and the filtered one has one per key |
| Tickets.JoinPlaceholders | backend/tickets.py:41 | joining one-placeholder clauses by a placeholder-free separator gives one placeholder per clause |
| Tickets.ClausePlaceholder | backend/tickets.py:39 | a clause "k=?" holds exactly one placeholder |
| Tickets.Assignments | backend/tickets.py:67-79 | at most three assignments, none iff the response is None, there is no attachment and the status is falsy |
| Tickets.Responded | backend/tickets.py:69-86 | the response is set iff given (even empty), the attachment iff stored, the status iff truthy, updated_at always; every other column is kept |
| Tickets.AssignmentKeys | backend/tickets.py:70-80 | the update's column names contain no placeholder |
| Tickets.UpdatePlaceholders | backend/tickets.py:83 | the UPDATE statement has one placeholder per assignment plus one for the id |
| Tickets.GetTicketAfterAppend | backend/tickets.py:21-26 | a created ticket is found under its new id, and other ids look up as before |
| Tickets.GetTicketAppend | backend/tickets.py:48-54 | with a row appended, an id answers as before if it was found, otherwise the new row when it has that id, otherwise None |
| Tickets.GetTicketAfterResponse | backend/tickets.py:84 | after an update, looking up the id gives the responded row, or None if it was absent |
| Tickets.TicketTable.constructor | backend/db.py:28-44 | an empty tickets table whose ids start at 1 |
| Tickets.TicketTable.CreateTicket | backend/tickets.py:10-28 | one row is appended with the next id, status 'open', the attachment path only for a truthy file and name, and created_at == updated_at; it is then found by id |
| Tickets.TicketTable.UpdateTicketResponse | backend/tickets.py:56-87 | false and unchanged when there is nothing to set; otherwise only the rows with that id become `Responded`, by a statement whose placeholders match its parameters |
| Tickets.TicketTable.ApplyResponse | backend/tickets.py:83-85 | the rows with that id become `Responded` and every other row is kept; ids and their order stay valid |
| Tickets.UpdateStatement | backend/tickets.py:79-84 | the UPDATE statement lists the assignments and ends with "WHERE id=?"; it has exactly one placeholder per parameter, the ticket id last |
| HouseKb.ModeFor | backend/house_kb.py:59-61 | PDF mode iff the lower-case name ends in ".pdf" |
| HouseKb.SavePath | backend/house_kb.py:51-52 | the save path ends with "_" + filename |
| HouseKb.SavedPathKeepsMode | backend/house_kb.py:51-61 | a saved file is re-ingested in the same mode as at upload |
| HouseKb.OwnedBy | backend/house_kb.py:35 | exactly the houses of that landlord, without duplication |
| HouseKb.OwnedByAppend | backend/house_kb.py:17-35 | a new house joins only its own landlord's list |
| HouseKb.ListHouses | backend/house_kb.py:31-39 | a permutation of the landlord's houses, newest first |
| HouseKb.ListHousesSpec | backend/house_kb.py:31-39 | exactly the landlord's houses, newest first |
| HouseKb.ListHousesAfterCreate | backend/house_kb.py:13-39 | after create_house the landlord's list gains that house, and other landlords' lists are unchanged |
| HouseKb.GetHouseDocs | backend/house_kb.py:91-99 | exactly the documents registered for that house, never more often than registered |
| HouseKb.GetHouseDocsAppend | backend/house_kb.py:91-99 | the list keeps table order: a new row is appended to its own house's list only |
| HouseKb.HasHouseKb | backend/house_kb.py:101-108 | true iff some document is registered for that house |
| HouseKb.CountMatches | backend/house_kb.py:105-108 | the COUNT(*) equals the number of the house's documents |
| HouseKb.HasHouseKbIffDocs | backend/house_kb.py:91-108 | has_house_kb holds iff get_house_docs is non-empty |
| HouseKb.FilePaths | backend/house_kb.py:119 | one file path per document, in table order |
| HouseKb.Reingest | backend/house_kb.py:125-135 | never more ingestion requests than listed files |
| HouseKb.ReingestCounts | backend/house_kb.py:125-135 | a file on disk is ingested in the mode its name selects exactly as often as it is listed; no other request is issued |
| HouseKb.ReingestOnlyOnDisk | backend/house_kb.py:125-135 | every ingestion is of a listed file that exists, in the mode its name selects |
| HouseKb.ReingestAllOnDisk | backend/house_kb.py:125-133 | when every file exists, each is ingested once, in order, in its mode |
| HouseKb.IngestEach | backend/house_kb.py:125-135 | the loop issues exactly the ingestion calls `Reingest` describes |
| HouseKb.LoadIngestsEveryFile | backend/house_kb.py:111-137 | with every registered file on disk, loading ingests each of the house's files once, in order |
| HouseKb.HouseStore.constructor | backend/house_kb.py:7-8 | empty tables, empty upload directory, nothing ingested |
| HouseKb.HouseStore.CreateHouse | backend/house_kb.py:13-25 | one house row with the next id; nothing else changes; list_houses gains it for its landlord only |
| HouseKb.HouseStore.UploadHouseDocument | backend/house_kb.py:45-85 | the file is saved, ingested in its mode and registered under the house, even if ingestion fails; the save path is returned and the house then has a KB |
| HouseKb.HouseStore.SaveAndIngest | backend/house_kb.py:51-74 | the file joins the disk and one ingestion request is recorded; the tables are unchanged and stay valid |
| HouseKb.HouseStore.RegisterDocument | backend/house_kb.py:76-83 | one `house_documents` row with the next id is appended for a file on disk; the house then has a KB |
| HouseKb.HouseStore.LoadHouseKbIntoRag | backend/house_kb.py:111-137 | "No KB files found." and no ingestion for a house without files; otherwise each file on disk is ingested, failures are skipped, and "Loaded KB into RAG." is returned; loaded iff has_house_kb |
| App.NavOptions | app.py:456-471 | Chat always comes first; tenants also get Submit Ticket and My Tickets, landlords get Landlord Panel, anyone else gets only Chat |
| App.AnyHasKb | app.py:523-524 | true iff one of the houses has a KB |
| App.KbAvailable | app.py:512-527 | true iff a user document is indexed, or the tenant's bound house has a KB, or the landlord owns a house with a KB |
| App.ContainsAny | app.py:546 | true iff one of the keywords is a substring |
| App.IsTicketIntent | app.py:545-546 | true iff the lower-case prompt contains one of the six keywords |
| App.Answer | app.py:555-559 | the `query_rag` answer with top_k 3, or "Error during query: " plus the error |
| App.ChatSession.constructor | app.py:31-33 | a logged-in session with no messages and no draft |
| App.ChatSession.ChatTurn | app.py:485-562 | a tenant with a house reloads its KB; the other tables are unchanged; the turn stops iff no KB is available, and the rest of the turn is `Converse` |
| App.ChatSession.Converse | app.py:512-562 | the turn stops iff no KB is available; a ticket-intent prompt is logged and drafted, any other prompt is logged with its answer; a stopped turn or no prompt changes nothing |
| App.ChatSession.SubmitDraft | app.py:565-602 | only a tenant creates the ticket, as themself, and the draft is then cleared; otherwise nothing changes |
| App.Latin1 | app.py:403 | one character per byte with the same code |
| App.UploadDispatch | app.py:394-404 | PDF mode iff the lower-case name ends in ".pdf"; otherwise the UTF-8 text, or the Latin-1 text when decoding fails |
| App.TenantNames | app.py:820-823 | exactly the usernames whose landlord is the given landlord id |
| App.CreatedBy | app.py:830-836 | exactly the tickets created by one of the names, never more often than stored |
| App.CreatedByCounts | app.py:830-836 | each ticket of a listed creator is shown exactly as often as it is stored, any other never |
| App.LandlordPanel | app.py:820-841 | "no tenants" iff the landlord has none; "no tickets" iff none of them filed one; otherwise a non-empty list |
| App.LandlordPanelSpec | app.py:820-836 | the panel shows exactly the tickets whose creator is one of the landlord's tenants, each as often as it is stored, newest first |
| TicketCard.StatusIndex | app.py:857-858 | the index lies in 0..2, points at the status when it is an option, and is 0 otherwise |
| TicketCard.Capitalize | app.py:728 | the priority keeps its length and its letters up to case; the first character is upper case and the rest lower case |
| TicketCard.CapitalizeIgnoresCase | app.py:728 | priorities differing only in case capitalise alike |
| TicketCard.PriorityColor | app.py:720-735 | an unknown priority gets the default "#f0f0f0" |
| TicketCard.CardColorIgnoresCase | app.py:728-735 | the card colour does not depend on the priority's case |
| TicketCard.RemoveChar | app.py:729 | `replace(c, "")` leaves no c and removes exactly as many characters as there are c's, so a string without c is kept |
| TicketCard.RemoveCharAppend | app.py:729 | removal distributes over concatenation |
| TicketCard.StatusClass | app.py:729 | the class is lower case and space-free, never longer than the status |
| TicketCard.StatusClassAppend | app.py:729 | the class of a status is the classes of its pieces joined |
| TicketCard.StatusClassOne | app.py:729 | character by character, a space is dropped and anything else is lower-cased |
| TicketCard.PlainStatusClass | app.py:729 | an already lower-case, space-free status is its own class |
| TicketCard.StatusClassMissesInProgress | app.py:729 | as written, the status "in_progress" yields a class no stylesheet defines |
| TicketCard.StatusBadgeClass | app.py:729 | the corrected class has no space and no underscore |
| TicketCard.StatusBadgeClassAppend | app.py:729 | the corrected class of a status is the corrected classes of its pieces joined |
| TicketCard.StatusBadgeClassOne | app.py:729 | character by character, a space or underscore is dropped and anything else is lower-cased |
| TicketCard.InProgressBadge | app.py:729 | "in_progress" gets the corrected class "inprogress" |
| TicketCard.StatusBadgeClassCovers | app.py:708-735 | every selectable status gets a class the stylesheets define |

## Left out

- FAISS internals, numpy and all floating-point arithmetic. Scores are exact reals and the norm is a parameter. The `+1e-12` in the query divisor is a constant (`Epsilon`), but float32 rounding is not modelled.
- VectorStore.NormalizeRow: does not state that a non-zero row gets unit length, because the norm is an uninterpreted parameter.
- The index and metadata file formats (pickle, FAISS files). Persistence is a ghost snapshot written together on each add; a corrupt file is not modelled.
- sklearn's `HashingVectorizer` (tokenising, hashing, stop words). It is the `vectorize` parameter, whose rows are 1024 wide.
- pdfplumber, python-docx, PIL and pytesseract. Their output for given bytes is the `Extractors` record (None when the library raises).
- backend/rag_pipeline.py is not part of this model. `add_document_from_file` is recorded as an `Ingest` request. `add_document_to_store` and `query_rag` are parameters. The per-file exceptions of re-ingestion are not distinguished from success, which matches how the source ignores them.
- HouseKb: the ingestion exception caught at backend/house_kb.py:72-73 is not modelled separately; the document row is registered either way, as in the source.
- Reading a file that is registered but missing from disk raises in `open`; re-ingestion skips it, as the source's `except` does. A failed write in an upload is not modelled.
- sha256, `datetime.utcnow()`, `strftime` stamps and `uuid4()` are parameters.
- SQLite itself: connections, type affinity, and the connection left open at backend/tickets.py:78-79. Tables are record sequences; the row order used for ties in `ORDER BY created_at DESC` is table order.
- Tickets.TicketTable.UpdateTicketResponse: also returns the UPDATE statement and its parameters. The source only returns the boolean; the extra outputs let the placeholder count be stated.
- Tickets.Select: models `= NULL` in a WHERE clause as never matching, and a filter key that is not a column as a query error. Column names are matched exactly: SQLite's case-insensitive names and the `rowid` alias of `id` are not modelled. The only caller, app.py:646, passes the key "creator".
- Schema drift: backend/db.py:19-44 creates neither `houses` nor `house_documents`, nor the users columns `password`, `landlord_id` and `tenant_house_id`. The model has the columns the code reads and writes.
- Text.Lower, TicketCard.Capitalize: ASCII case mapping only; Python's full Unicode case mapping is not modelled.
- App.ChatSession.ChatTurn, App.ChatSession.SubmitDraft: require a logged-in user. The login gate at app.py:47-158 stops the script before any page runs without one.
- App.ChatSession.SubmitDraft: the `HAVE_TICKETS` import fallback (app.py:26-28, 570-571) is not modelled; the ticket backend is assumed importable.
- App.ChatSession.ChatTurn: app.py:4 and 21 import `is_fitted` from backend.rag_pipeline, which is not part of this model. The model identifies it with the embeddings text store's `IsFitted`; the KB reload issues `Ingest` requests and leaves that store unchanged.
- The `doc_uploaded` session flag is not modelled: the knowledge-base gate reads `is_fitted()`, not the flag.
- All Streamlit rendering, the HTML and CSS, `st.rerun`, the pages My Tickets and Submit Ticket beyond the ticket operations they call, and FastAPI serving.
- validate_rag.py, an evaluation script over external scorers.

## Findings

| source | as written | input that shows it | evidently intended | confidence | as-written member | corrected member |
|---|---|---|---|---|---|---|
| app.py:729 | the badge class is the status lower-cased with spaces removed, so "in_progress" keeps its underscore | a ticket whose status is "in_progress", which the landlord panel offers (app.py:857); its badge gets class `status-in_progress`, but the stylesheets define only `.status-inprogress` (app.py:330, 709) | strip underscores too, giving "inprogress" | medium, not executed | TicketCard.StatusClassMissesInProgress | TicketCard.StatusBadgeClassCovers |
