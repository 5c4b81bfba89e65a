/** backend/house_kb.py: a landlord's houses and the knowledge-base files
    attached to each house. The retrieval pipeline's `add_document_from_file`
    is not part of this model: each call to it is recorded as an `Ingest`
    request, and whether it raised makes no difference to these functions,
    which swallow its exceptions. The disk is the set of paths written. */
module HouseKb {
  import opened Text
  import opened Ranking
  import opened Db

  /** `os.path.join(os.path.dirname(__file__), "../data/house_kb")`, taken
      relative to the application root. */
  const HouseUploadDir: string := "data/house_kb"

  datatype House = House(id: int, landlordId: int, houseName: string, address: string, createdAt: Timestamp)
  datatype HouseDoc = HouseDoc(id: int, houseId: int, filePath: string, uploadedAt: Timestamp)

  /** How a file is handed to `add_document_from_file`: opened in binary
      with `file_type="pdf"`, or read as UTF-8 text with `file_type="txt"`. */
  datatype FileMode = PdfMode | TextMode
  datatype Ingest = Ingest(path: string, mode: FileMode)

  /** A name whose lowercase form ends in ".pdf" is ingested as a PDF. */
  function ModeFor(name: string): (m: FileMode)
    ensures m == PdfMode <==> EndsWith(Lower(name), ".pdf")
  {
    if EndsWith(Lower(name), ".pdf") then PdfMode else TextMode
  }

  /** The path an upload is saved to. */
  function SavePath(filename: string, stamp: string): (r: string)
    ensures EndsWith(r, "_" + filename)
  {
    assert EndsWith(PathJoin(HouseUploadDir, stamp + "_" + filename), stamp + "_" + filename);
    PathJoin(HouseUploadDir, stamp + "_" + filename)
  }

  function HouseCreatedKey(h: House): real { h.createdAt as real }

  function OwnedBy(houses: seq<House>, landlordId: int): (r: seq<House>)
    ensures forall h :: h in r <==> h in houses && h.landlordId == landlordId
    ensures multiset(r) <= multiset(houses)
  {
    if houses == [] then []
    else
      var init := OwnedBy(houses[..|houses| - 1], landlordId);
      var last := houses[|houses| - 1];
      assert houses == houses[..|houses| - 1] + [last];
      if last.landlordId == landlordId then init + [last] else init
  }

  /** `list_houses`: `SELECT * FROM houses WHERE landlord_id=? ORDER BY
      created_at DESC` (ties left in table order). */
  function ListHouses(houses: seq<House>, landlordId: int): (r: seq<House>)
    ensures multiset(r) == multiset(OwnedBy(houses, landlordId))
    ensures SortedDesc(r, HouseCreatedKey)
  {
    SortDescSpec(OwnedBy(houses, landlordId), HouseCreatedKey);
    SortDesc(OwnedBy(houses, landlordId), HouseCreatedKey)
  }

  lemma OwnedByAppend(houses: seq<House>, h: House, landlordId: int)
    ensures OwnedBy(houses + [h], landlordId) ==
              OwnedBy(houses, landlordId) + (if h.landlordId == landlordId then [h] else [])
  {
    assert (houses + [h])[..|houses|] == houses;
  }

  /** A new house shows up in its landlord's listing and nowhere else. */
  lemma ListHousesAfterCreate(houses: seq<House>, h: House)
    ensures forall x :: x in ListHouses(houses + [h], h.landlordId) <==> x in ListHouses(houses, h.landlordId) || x == h
    ensures forall l :: l != h.landlordId ==> ListHouses(houses + [h], l) == ListHouses(houses, l)
  {
    ListHousesSpec(houses, h.landlordId);
    ListHousesSpec(houses + [h], h.landlordId);
    forall l | l != h.landlordId ensures ListHouses(houses + [h], l) == ListHouses(houses, l) {
      OwnedByAppend(houses, h, l);
    }
  }

  /** `list_houses` answers exactly the landlord's houses, newest first. */
  lemma ListHousesSpec(houses: seq<House>, landlordId: int)
    ensures forall h :: h in ListHouses(houses, landlordId) <==> h in houses && h.landlordId == landlordId
    ensures multiset(ListHouses(houses, landlordId)) == multiset(OwnedBy(houses, landlordId))
    ensures SortedDesc(ListHouses(houses, landlordId), HouseCreatedKey)
  {
    SortDescSpec(OwnedBy(houses, landlordId), HouseCreatedKey);
  }

  /** `get_house_docs`: the rows of that house, in table order. */
  function GetHouseDocs(docs: seq<HouseDoc>, houseId: int): (r: seq<HouseDoc>)
    ensures forall d :: d in r <==> d in docs && d.houseId == houseId
    ensures multiset(r) <= multiset(docs)
  {
    if docs == [] then []
    else
      var init := GetHouseDocs(docs[..|docs| - 1], houseId);
      var last := docs[|docs| - 1];
      assert docs == docs[..|docs| - 1] + [last];
      if last.houseId == houseId then init + [last] else init
  }

  /** `get_house_docs` keeps table order: a new row joins only its own
      house's list, at the end. */
  lemma GetHouseDocsAppend(docs: seq<HouseDoc>, d: HouseDoc, houseId: int)
    ensures GetHouseDocs(docs + [d], houseId) ==
              GetHouseDocs(docs, houseId) + (if d.houseId == houseId then [d] else [])
  {
    assert (docs + [d])[..|docs|] == docs;
  }

  /** `SELECT COUNT(*) FROM house_documents WHERE house_id=?`. */
  function CountDocs(docs: seq<HouseDoc>, houseId: int): nat {
    if docs == [] then 0
    else CountDocs(docs[..|docs| - 1], houseId) + (if docs[|docs| - 1].houseId == houseId then 1 else 0)
  }

  /** `has_house_kb`: the count is positive. */
  function HasHouseKb(docs: seq<HouseDoc>, houseId: int): (r: bool)
    ensures r <==> exists i :: 0 <= i < |docs| && docs[i].houseId == houseId
  {
    CountMatches(docs, houseId);
    CountDocs(docs, houseId) > 0
  }

  lemma {:induction false} CountMatches(docs: seq<HouseDoc>, houseId: int)
    ensures CountDocs(docs, houseId) == |GetHouseDocs(docs, houseId)|
    ensures CountDocs(docs, houseId) > 0 <==> exists i :: 0 <= i < |docs| && docs[i].houseId == houseId
  {
    if docs != [] {
      var init := docs[..|docs| - 1];
      CountMatches(init, houseId);
      if exists i :: 0 <= i < |init| && init[i].houseId == houseId {
        var i :| 0 <= i < |init| && init[i].houseId == houseId;
        assert docs[i] == init[i];
      }
      if exists i :: 0 <= i < |docs| && docs[i].houseId == houseId {
        var i :| 0 <= i < |docs| && docs[i].houseId == houseId;
        if i < |init| { assert init[i] == docs[i]; }
      }
    }
  }

  /** `has_house_kb` and `get_house_docs` agree. */
  lemma HasHouseKbIffDocs(docs: seq<HouseDoc>, houseId: int)
    ensures HasHouseKb(docs, houseId) <==> GetHouseDocs(docs, houseId) != []
  {
    CountMatches(docs, houseId);
  }

  function FilePaths(docs: seq<HouseDoc>): (r: seq<string>)
    ensures |r| == |docs| && forall i :: 0 <= i < |docs| ==> r[i] == docs[i].filePath
  {
    seq(|docs|, i requires 0 <= i < |docs| => docs[i].filePath)
  }

  /** The calls `load_house_kb_into_rag` makes for `paths`, in order: one
      per path, except for a file that is no longer on disk, whose `open`
      raises before the call. */
  function Reingest(paths: seq<string>, disk: set<string>): (r: seq<Ingest>)
    ensures |r| <= |paths|
  {
    if paths == [] then []
    else
      var init := Reingest(paths[..|paths| - 1], disk);
      var p := paths[|paths| - 1];
      if p in disk then init + [Ingest(p, ModeFor(p))] else init
  }

  /** Each file on disk is ingested, in its mode, exactly as often as it is
      listed, and nothing else is ingested. */
  lemma {:induction false} ReingestCounts(paths: seq<string>, disk: set<string>)
    ensures forall c :: multiset(Reingest(paths, disk))[c] ==
              if c.path in disk && c.mode == ModeFor(c.path) then multiset(paths)[c.path] else 0
  {
    if paths != [] {
      var init, p := paths[..|paths| - 1], paths[|paths| - 1];
      assert paths == init + [p];
      ReingestCounts(init, disk);
    }
  }

  /** Helper: one more path at the end is handled on its own. */
  lemma ReingestSnoc(paths: seq<string>, p: string, disk: set<string>)
    ensures Reingest(paths + [p], disk) == Reingest(paths, disk) + (if p in disk then [Ingest(p, ModeFor(p))] else [])
  {
    assert (paths + [p])[..|paths|] == paths;
  }

  /** Only files on disk are ingested, each in the mode its path calls for. */
  lemma {:induction false} ReingestOnlyOnDisk(paths: seq<string>, disk: set<string>)
    ensures forall k :: 0 <= k < |Reingest(paths, disk)| ==>
              var c := Reingest(paths, disk)[k]; c.path in paths && c.path in disk && c.mode == ModeFor(c.path)
  {
    if paths != [] {
      ReingestOnlyOnDisk(paths[..|paths| - 1], disk);
    }
  }

  /** When every path is on disk each is ingested once, in order. */
  lemma {:induction false} ReingestAllOnDisk(paths: seq<string>, disk: set<string>)
    requires forall i :: 0 <= i < |paths| ==> paths[i] in disk
    ensures |Reingest(paths, disk)| == |paths|
    ensures forall i :: 0 <= i < |paths| ==> Reingest(paths, disk)[i] == Ingest(paths[i], ModeFor(paths[i]))
  {
    if paths != [] {
      var init, p := paths[..|paths| - 1], paths[|paths| - 1];
      ReingestAllOnDisk(init, disk);
      assert paths == init + [p];
      ReingestSnoc(init, p, disk);
      forall i | 0 <= i < |paths|
        ensures Reingest(paths, disk)[i] == Ingest(paths[i], ModeFor(paths[i]))
      {
        if i < |init| { assert paths[i] == init[i]; }
      }
    }
  }

  /** Lower-casing keeps a suffix relation. */
  lemma LowerKeepsSuffix(p: string, t: string)
    requires EndsWith(p, t)
    ensures EndsWith(Lower(p), Lower(t))
  {
    var off := |p| - |t|;
    forall j | 0 <= j < |t| ensures Lower(p)[off..][j] == Lower(t)[j] {
      assert p[off..][j] == t[j];
    }
  }

  /** A name behind an '_' ends in ".pdf" exactly when the whole path does. */
  lemma PdfSuffixBehindUnderscore(x: string, y: string)
    requires EndsWith(x, "_" + y)
    ensures EndsWith(x, ".pdf") <==> EndsWith(y, ".pdf")
  {
    var off := |x| - |y|;
    assert x[off - 1] == '_' by { assert x[off - 1..][0] == ("_" + y)[0]; }
    forall j | off <= j < |x| ensures x[j] == y[j - off] {
      assert x[off - 1..][j - off + 1] == ("_" + y)[j - off + 1];
    }
    if |y| >= 4 {
      assert x[|x| - 4..] == y[|y| - 4..];
    } else if EndsWith(x, ".pdf") {
      assert false;
    }
  }

  /** A saved upload is reloaded in the mode it was first ingested in:
      the '_' before the name keeps a short name from borrowing ".pdf". */
  lemma SavedPathKeepsMode(filename: string, stamp: string)
    ensures ModeFor(SavePath(filename, stamp)) == ModeFor(filename)
  {
    var p := SavePath(filename, stamp);
    LowerKeepsSuffix(p, "_" + filename);
    assert Lower("_" + filename) == "_" + Lower(filename);
    PdfSuffixBehindUnderscore(Lower(p), Lower(filename));
  }

  /** The loop of `load_house_kb_into_rag`: for each path in order, open
      it (which raises for a file not on disk, and the error is swallowed)
      and hand it to the pipeline in the mode its name calls for. */
  method IngestEach(files: seq<string>, onDisk: set<string>) returns (calls: seq<Ingest>)
    ensures calls == Reingest(files, onDisk)
  {
    calls := [];
    for i := 0 to |files|
      invariant calls == Reingest(files[..i], onDisk)
    {
      assert files[..i + 1][..i] == files[..i];
      var fpath := files[i];
      if fpath in onDisk {
        calls := calls + [Ingest(fpath, ModeFor(fpath))];
      }
    }
    assert files[..|files|] == files;
  }

  /** The documents table: AUTOINCREMENT ids, and every file on disk. */
  ghost predicate DocsValid(docs: seq<HouseDoc>, nextDocId: int, disk: set<string>) {
    && nextDocId >= 1
    && (forall i :: 0 <= i < |docs| ==> 1 <= docs[i].id < nextDocId)
    && (forall i, j :: 0 <= i < j < |docs| ==> docs[i].id < docs[j].id)
    && (forall i :: 0 <= i < |docs| ==> docs[i].filePath in disk)
  }

  /** Registering a file already on disk under the next id keeps the
      documents table valid. */
  lemma RegisterKeepsDocsValid(docs: seq<HouseDoc>, d: HouseDoc, nextDocId: int, disk: set<string>)
    requires DocsValid(docs, nextDocId, disk)
    requires d.id == nextDocId && d.filePath in disk
    ensures DocsValid(docs + [d], nextDocId + 1, disk)
  {
  }

  /** Writing a file keeps the documents table valid. */
  lemma DiskGrowthKeepsDocsValid(docs: seq<HouseDoc>, nextDocId: int, disk: set<string>, path: string)
    requires DocsValid(docs, nextDocId, disk)
    ensures DocsValid(docs, nextDocId, disk + {path})
  {
  }

  class HouseStore {
    var houses: seq<House>
    var nextHouseId: int
    var docs: seq<HouseDoc>
    var nextDocId: int
    var disk: set<string>
    var ingested: seq<Ingest>

    /** Ids follow AUTOINCREMENT and every registered file was written first. */
    ghost predicate Valid()
      reads this
    {
      && nextHouseId >= 1
      && (forall i :: 0 <= i < |houses| ==> 1 <= houses[i].id < nextHouseId)
      && (forall i, j :: 0 <= i < j < |houses| ==> houses[i].id < houses[j].id)
      && DocsValid(docs, nextDocId, disk)
    }

    constructor ()
      ensures Valid()
      ensures houses == [] && docs == [] && disk == {} && ingested == []
    {
      houses := [];
      nextHouseId := 1;
      docs := [];
      nextDocId := 1;
      disk := {};
      ingested := [];
    }

    /** `create_house`: one new row, its id returned; the landlord's listing
        gains it and every other landlord's listing is unchanged. */
    method CreateHouse(landlordId: int, houseName: string, address: string, now: Timestamp) returns (hid: int)
      requires Valid()
      modifies this
      ensures Valid()
      ensures hid == old(nextHouseId) && nextHouseId == old(nextHouseId) + 1
      ensures houses == old(houses) + [House(hid, landlordId, houseName, address, now)]
      ensures docs == old(docs) && disk == old(disk) && ingested == old(ingested) && nextDocId == old(nextDocId)
      ensures forall h :: h in ListHouses(houses, landlordId) <==>
                h in ListHouses(old(houses), landlordId) || h == House(hid, landlordId, houseName, address, now)
      ensures forall l :: l != landlordId ==> ListHouses(houses, l) == ListHouses(old(houses), l)
    {
      var h := House(nextHouseId, landlordId, houseName, address, now);
      ListHousesAfterCreate(houses, h);
      houses := houses + [h];
      hid := nextHouseId;
      nextHouseId := nextHouseId + 1;
    }

    /** `upload_house_document`: write the bytes under a stamped name, ask
        the pipeline to ingest that file (pdf mode by the name's suffix),
        register it for the house whatever the ingestion did, and return
        the saved path. */
    method UploadHouseDocument(houseId: int, fileBytes: seq<bv8>, filename: string, stamp: string, now: Timestamp)
      returns (savePath: string)
      requires Valid()
      modifies this
      ensures Valid()
      ensures savePath == SavePath(filename, stamp)
      ensures disk == old(disk) + {savePath}
      ensures ingested == old(ingested) + [Ingest(savePath, ModeFor(filename))]
      ensures docs == old(docs) + [HouseDoc(old(nextDocId), houseId, savePath, now)] && nextDocId == old(nextDocId) + 1
      ensures houses == old(houses) && nextHouseId == old(nextHouseId)
      ensures HasHouseKb(docs, houseId)
    {
      savePath := SavePath(filename, stamp);
      SaveAndIngest(savePath, ModeFor(filename));
      RegisterDocument(houseId, savePath, now);
    }

    /** Steps 1 and 2 of the upload: write the file, then hand it to the
        pipeline in the given mode. */
    method SaveAndIngest(path: string, mode: FileMode)
      requires Valid()
      modifies this
      ensures Valid()
      ensures disk == old(disk) + {path}
      ensures ingested == old(ingested) + [Ingest(path, mode)]
      ensures docs == old(docs) && nextDocId == old(nextDocId)
      ensures houses == old(houses) && nextHouseId == old(nextHouseId)
    {
      DiskGrowthKeepsDocsValid(docs, nextDocId, disk, path);
      disk := disk + {path};
      ingested := ingested + [Ingest(path, mode)];
    }

    /** Step 3 of the upload: the `house_documents` row for a saved file. */
    method RegisterDocument(houseId: int, path: string, now: Timestamp)
      requires Valid() && path in disk
      modifies this
      ensures Valid()
      ensures docs == old(docs) + [HouseDoc(old(nextDocId), houseId, path, now)] && nextDocId == old(nextDocId) + 1
      ensures disk == old(disk) && ingested == old(ingested)
      ensures houses == old(houses) && nextHouseId == old(nextHouseId)
      ensures HasHouseKb(docs, houseId)
    {
      var d := HouseDoc(nextDocId, houseId, path, now);
      RegisterKeepsDocsValid(docs, d, nextDocId, disk);
      docs := docs + [d];
      nextDocId := nextDocId + 1;
      assert HasHouseKb(docs, houseId) by { assert docs[|docs| - 1].houseId == houseId; }
    }

    /** `load_house_kb_into_rag`: with no registered file for the house it
        answers (False, "No KB files found.") and ingests nothing; otherwise
        it ingests each registered file in table order, skipping failures,
        and answers (True, "Loaded KB into RAG.") even when all failed. */
    method LoadHouseKbIntoRag(houseId: int) returns (loaded: bool, msg: string)
      requires Valid()
      modifies this
      ensures Valid()
      ensures houses == old(houses) && docs == old(docs) && disk == old(disk)
      ensures nextHouseId == old(nextHouseId) && nextDocId == old(nextDocId)
      ensures var files := FilePaths(GetHouseDocs(docs, houseId));
        && (loaded <==> files != [])
        && msg == (if loaded then "Loaded KB into RAG." else "No KB files found.")
        && ingested == old(ingested) + Reingest(files, disk)
      ensures loaded <==> HasHouseKb(docs, houseId)
    {
      var files := FilePaths(GetHouseDocs(docs, houseId));
      HasHouseKbIffDocs(docs, houseId);
      assert files == [] <==> !HasHouseKb(docs, houseId);
      if files == [] {
        return false, "No KB files found.";
      }
      var calls := IngestEach(files, disk);
      ingested := ingested + calls;
      return true, "Loaded KB into RAG.";
    }
  }

  /** Every registered file of a house is on disk in a valid store, so
      loading re-ingests each of them exactly once, in table order, in the
      mode its path calls for. */
  lemma LoadIngestsEveryFile(docs: seq<HouseDoc>, disk: set<string>, houseId: int)
    requires forall i :: 0 <= i < |docs| ==> docs[i].filePath in disk
    ensures var files := FilePaths(GetHouseDocs(docs, houseId));
      && |Reingest(files, disk)| == |files|
      && forall i :: 0 <= i < |files| ==> Reingest(files, disk)[i] == Ingest(files[i], ModeFor(files[i]))
  {
    var hd := GetHouseDocs(docs, houseId);
    var files := FilePaths(hd);
    forall i | 0 <= i < |files| ensures files[i] in disk {
      assert hd[i] in docs;
    }
    ReingestAllOnDisk(files, disk);
  }
}
