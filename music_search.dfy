/** The Archive.org music search page (src/pages/MusicPlayer.tsx): the query URL,
    the page counter with its Prev/Next buttons, the search handler, and the
    prefetch that fills the per-item file map. */
module MusicSearch {
  import opened Text
  import opened Seqs
  import opened Audio

  /** `PAGE_SIZE`: results per page. */
  const PageSize: nat := 20

  datatype ArchiveItem = ArchiveItem(identifier: string, title: string, creator: Option<string>)

  /** How one search request ended: a parsed body (its `response.docs` and
      `response.numFound`, each possibly absent), a non-OK status, or an exception
      with its `name` and `message`. */
  datatype SearchResponse =
    | Fetched(docs: Option<seq<ArchiveItem>>, numFound: Option<nat>)
    | BadStatus(status: nat)
    | Threw(name: string, message: string)

  /** How one metadata request ended: a parsed body with its `files` (possibly
      absent), or an exception from the request or from parsing. */
  datatype MetaResponse = Meta(files: Option<seq<FileEntry>>) | MetaFailed

  /** A `fileMap` entry: the item's audio files, or "error". */
  datatype FileSlot = Files(files: seq<FileEntry>) | Failed

  const SearchEndpoint := "https://archive.org/advancedsearch.php?q="

  /** The fixed part after the search terms: audio items only, the fields listed, most
      downloaded first. */
  const ResultFields := "+AND+mediatype:(audio)&fl[]=identifier&fl[]=title&fl[]=creator&fl[]=downloads&fl[]=publicdate&sort[]=downloads+desc"

  /** `buildQuery`: the trimmed terms, encoded by `encode` (standing for
      `encodeURIComponent`) and matched against titles or creators, and `PAGE_SIZE`
      rows; the page number is appended later. */
  function BuildQuery(q: string, encode: string -> string): string {
    var e := encode(Trim(q));
    SearchEndpoint + "(title:(\"" + e + "\")+OR+creator:(\"" + e + "\"))" + ResultFields + "&rows=" + Decimal(PageSize) + "&page="
  }

  lemma EndsWithAppend(a: string, b: string)
    ensures EndsWith(a + b, b)
  {
    assert (a + b)[|a + b| - |b|..] == b;
  }

  /** Surrounding white space in the typed query makes no difference. */
  lemma BuildQueryTrimmed(q: string, encode: string -> string)
    ensures BuildQuery(q, encode) == BuildQuery(Trim(q), encode)
  {
    TrimIdempotent(q);
  }

  /** A prefix stays a prefix when text is appended. */
  lemma StartsGrows(a: string, p: string, x: string)
    requires StartsWith(a, p)
    ensures StartsWith(a + x, p)
  {
    assert (a + x)[..|p|] == a[..|p|];
  }

  /** A suffix followed by more text is a suffix of the longer text. */
  lemma EndsGrows(a: string, p: string, x: string)
    requires EndsWith(a, p)
    ensures EndsWith(a + x, p + x)
  {
    assert (a + x)[|a + x| - |p + x|..] == a[|a| - |p|..] + x;
  }

  /** Where the pieces of a URL built by concatenation sit in it. */
  lemma Pieces10(p1: string, p2: string, e: string, p4: string, p5: string, p6: string, p7: string, p8: string, p9: string, p10: string)
    ensures StartsWith(p1 + p2 + e + p4 + p5 + p6 + p7 + p8 + p9 + p10, p1)
    ensures EndsWith(p1 + p2 + e + p4 + p5 + p6 + p7 + p8 + p9 + p10, p8 + p9 + p10)
    ensures Contains(p1 + p2 + e + p4 + p5 + p6 + p7 + p8 + p9 + p10, e)
  {
    var front := p1 + p2 + e;
    var r := front + p4 + p5 + p6 + p7 + p8 + p9 + p10;
    assert StartsWith(front, front);
    StartsGrows(front, front, p4);
    StartsGrows(front + p4, front, p5);
    StartsGrows(front + p4 + p5, front, p6);
    StartsGrows(front + p4 + p5 + p6, front, p7);
    StartsGrows(front + p4 + p5 + p6 + p7, front, p8);
    StartsGrows(front + p4 + p5 + p6 + p7 + p8, front, p9);
    StartsGrows(front + p4 + p5 + p6 + p7 + p8 + p9, front, p10);
    assert r[..|p1|] == front[..|p1|] == p1;
    assert r[|p1 + p2|..|front|] == front[|p1 + p2|..] == e;
    ContainsAt(r, e, |p1 + p2|);
    EndsWithAppend(front + p4 + p5 + p6 + p7, p8);
    EndsGrows(front + p4 + p5 + p6 + p7 + p8, p8, p9);
    EndsGrows(front + p4 + p5 + p6 + p7 + p8 + p9, p8 + p9, p10);
  }

  /** The URL goes to the advanced-search endpoint, holds the encoded terms and asks
      for twenty rows. */
  lemma BuildQueryShape(q: string, encode: string -> string)
    ensures StartsWith(BuildQuery(q, encode), SearchEndpoint)
    ensures Contains(BuildQuery(q, encode), encode(Trim(q)))
    ensures EndsWith(BuildQuery(q, encode), "&rows=20&page=")
  {
    var e := encode(Trim(q));
    Pieces10(SearchEndpoint, "(title:(\"", e, "\")+OR+creator:(\"", e, "\"))", ResultFields, "&rows=", Decimal(PageSize), "&page=");
    RowsPart();
  }

  /** The page size written out. */
  lemma RowsPart()
    ensures "&rows=" + Decimal(PageSize) + "&page=" == "&rows=20&page="
  {
    assert Decimal(PageSize) == "20";
  }

  /** The URL one search requests: the query, the page number and the output format. */
  function SearchUrl(q: string, page: nat, encode: string -> string): string {
    BuildQuery(q, encode) + Decimal(page) + "&output=json"
  }

  /** `totalPages`: `max(1, ceil(numFound / PAGE_SIZE))`. */
  function TotalPages(numFound: nat): (r: nat)
    ensures r >= 1
    ensures numFound == 0 ==> r == 1
    ensures numFound > 0 ==> (r - 1) * PageSize < numFound <= r * PageSize
  {
    var c := (numFound + PageSize - 1) / PageSize;
    if c >= 1 then c else 1
  }

  /** `canPrev` */
  predicate CanPrev(page: int) {
    page > 1
  }

  /** `canNext` */
  predicate CanNext(page: int, numFound: nat) {
    page * PageSize < numFound
  }

  /** From any page at or after the first, Next is enabled exactly before the last page. */
  lemma CanNextIff(page: int, numFound: nat)
    requires page >= 1
    ensures CanNext(page, numFound) <==> page < TotalPages(numFound)
  {
    var t := TotalPages(numFound);
    if page < t {
      assert page * PageSize <= (t - 1) * PageSize;
    } else if numFound > 0 {
      assert t * PageSize <= page * PageSize;
    }
  }

  /** The identifiers of the results that have no `fileMap` entry yet, in result order.
      Every entry the page stores is a list or "error", both truthy, so `!fileMap[id]`
      means no entry. */
  function PendingIds(items: seq<ArchiveItem>, fileMap: map<string, FileSlot>): (r: seq<string>)
    ensures |r| <= |items|
  {
    if items == [] then []
    else (if items[0].identifier in fileMap then [] else [items[0].identifier]) + PendingIds(items[1..], fileMap)
  }

  /** An identifier is requested exactly when some result has it and the map does not. */
  lemma {:induction false} PendingIdsIff(items: seq<ArchiveItem>, fileMap: map<string, FileSlot>, id: string)
    ensures id in PendingIds(items, fileMap) <==> id !in fileMap && exists i :: 0 <= i < |items| && items[i].identifier == id
  {
    if items != [] {
      PendingIdsIff(items[1..], fileMap, id);
      if exists i :: 0 <= i < |items| && items[i].identifier == id {
        var i :| 0 <= i < |items| && items[i].identifier == id;
        if i > 0 {
          assert items[1..][i - 1].identifier == id;
        }
      }
      if exists i :: 0 <= i < |items[1..]| && items[1..][i].identifier == id {
        var i :| 0 <= i < |items[1..]| && items[1..][i].identifier == id;
        assert items[i + 1].identifier == id;
      }
    }
  }

  /** The entry a finished metadata request stores: its audio files (none when the body
      has no `files`), or "error". */
  function Slot(m: MetaResponse): FileSlot {
    match m
    case Meta(files) => Files(AudioTracks(files))
    case MetaFailed => Failed
  }

  class SearchPanel {
    var query: string
    var page: int
    var loading: bool
    var error: Option<string>
    var results: seq<ArchiveItem>
    var numFound: nat
    var fileMap: map<string, FileSlot>

    ghost predicate Valid()
      reads this
    {
      page >= 1
    }

    constructor ()
      ensures Valid()
      ensures query == [] && page == 1 && !loading && error == None
      ensures results == [] && numFound == 0 && fileMap == map[]
    {
      query := [];
      page := 1;
      loading := false;
      error := None;
      results := [];
      numFound := 0;
      fileMap := map[];
    }

    /** Typing in the search box. Only the query changes: the page effect depends on
        `page` alone, so typing runs no search. */
    method SetQuery(q: string)
      requires Valid()
      modifies this`query
      ensures Valid() && query == q
      ensures unchanged(this`page, this`loading, this`error, this`results, this`numFound, this`fileMap)
    {
      query := q;
    }

    /** The Prev button: one page back, never below the first. When the page changes,
        the page effect runs; on page 1 the page stays the same and nothing runs. */
    method PrevPage(encode: string -> string, response: SearchResponse) returns (url: Option<string>)
      requires Valid()
      modifies this`page, this`loading, this`error, this`results, this`numFound
      ensures Valid()
      ensures CanPrev(old(page)) ==> page == old(page) - 1
      ensures !CanPrev(old(page)) ==>
        page == 1 && url == None && unchanged(this`loading, this`error, this`results, this`numFound)
      ensures CanPrev(old(page)) && Trim(query) == [] ==> url == None && results == [] && numFound == 0
      ensures CanPrev(old(page)) && Trim(query) != [] ==> url == Some(SearchUrl(query, page as nat, encode))
      ensures CanPrev(old(page)) && Trim(query) != [] && response.Fetched? ==>
        results == response.docs.GetOr([]) && numFound == response.numFound.GetOr(0) && error == None
    {
      var next := if page - 1 >= 1 then page - 1 else 1;
      if next == page {
        return None;
      }
      page := next;
      url := PageChanged(encode, response);
    }

    /** The Next button: one page on, and the page effect runs for the new page. */
    method NextPage(encode: string -> string, response: SearchResponse) returns (url: Option<string>)
      requires Valid()
      modifies this`page, this`loading, this`error, this`results, this`numFound
      ensures Valid() && page == old(page) + 1
      ensures CanNext(old(page), old(numFound)) ==> page <= TotalPages(old(numFound))
      ensures Trim(query) == [] ==> url == None && results == [] && numFound == 0
      ensures Trim(query) != [] ==> url == Some(SearchUrl(query, page as nat, encode))
      ensures Trim(query) != [] && response.Fetched? ==>
        results == response.docs.GetOr([]) && numFound == response.numFound.GetOr(0) && error == None
    {
      CanNextIff(page, numFound);
      page := page + 1;
      url := PageChanged(encode, response);
    }

    /** `search(resetPage)`: a reset goes back to page 1 and queries it, otherwise the
        current page is queried; the response replaces the results or sets the error,
        except that an aborted request leaves the error cleared. Returns the URL requested. */
    method Search(resetPage: bool, encode: string -> string, response: SearchResponse) returns (url: string)
      requires Valid()
      modifies this`page, this`loading, this`error, this`results, this`numFound
      ensures Valid()
      ensures page == if resetPage then 1 else old(page)
      ensures url == SearchUrl(query, page as nat, encode)
      ensures !loading
      ensures response.Fetched? ==> results == response.docs.GetOr([]) && numFound == response.numFound.GetOr(0) && error == None
      ensures response.BadStatus? ==>
        (error == Some("Search failed: " + Decimal(response.status)) && unchanged(this`results, this`numFound))
      ensures response.Threw? ==>
        (&& unchanged(this`results, this`numFound)
         && error == (if response.name == "AbortError" then None
                      else if response.message != [] then Some(response.message) else Some("Search failed")))
    {
      if resetPage {
        page := 1;
      }
      var searchPage: nat := if resetPage then 1 else page;
      loading := true;
      error := None;
      url := SearchUrl(query, searchPage, encode);
      match response {
        case Fetched(docs, n) =>
          results := docs.GetOr([]);
          numFound := n.GetOr(0);
        case BadStatus(status) =>
          error := Some("Search failed: " + Decimal(status));
        case Threw(name, message) =>
          if name != "AbortError" {
            error := Some(if message != [] then message else "Search failed");
          }
      }
      loading := false;
    }

    /** The effect on `page`: a blank query clears the results, otherwise the current page is searched. */
    method PageChanged(encode: string -> string, response: SearchResponse) returns (url: Option<string>)
      requires Valid()
      modifies this`page, this`loading, this`error, this`results, this`numFound
      ensures Valid() && page == old(page)
      ensures Trim(query) == [] ==> url == None && results == [] && numFound == 0
      ensures Trim(query) != [] ==> url == Some(SearchUrl(query, page as nat, encode))
      ensures Trim(query) != [] && response.Fetched? ==>
        results == response.docs.GetOr([]) && numFound == response.numFound.GetOr(0) && error == None
    {
      if Trim(query) == [] {
        results := [];
        numFound := 0;
        url := None;
      } else {
        var u := Search(false, encode, response);
        url := Some(u);
      }
    }

    /** `onSubmit`: nothing for a blank query, otherwise a search from page 1. */
    method Submit(encode: string -> string, response: SearchResponse) returns (url: Option<string>)
      requires Valid()
      modifies this`page, this`loading, this`error, this`results, this`numFound
      ensures Valid()
      ensures Trim(query) == [] ==> url == None && unchanged(this`page, this`results, this`numFound, this`error)
      ensures Trim(query) != [] ==> page == 1 && url == Some(SearchUrl(query, 1, encode))
    {
      if Trim(query) == [] {
        return None;
      }
      var u := Search(true, encode, response);
      url := Some(u);
    }

    /** `prefetchAll`: requests the metadata of every result without an entry and stores
        each outcome under its identifier; entries already present are left alone. */
    method Prefetch(meta: string -> MetaResponse)
      requires Valid()
      modifies this`fileMap
      ensures Valid()
      ensures forall id :: id in fileMap <==> id in old(fileMap) || id in PendingIds(results, old(fileMap))
      ensures forall id :: id in old(fileMap) ==> fileMap[id] == old(fileMap)[id]
      ensures forall id :: id in PendingIds(results, old(fileMap)) ==> fileMap[id] == Slot(meta(id))
    {
      var ids := PendingIds(results, fileMap);
      forall id | id in ids
        ensures id !in fileMap
      {
        PendingIdsIff(results, fileMap, id);
      }
      var i := 0;
      while i < |ids|
        invariant 0 <= i <= |ids|
        invariant forall id :: id in fileMap <==> id in old(fileMap) || id in ids[..i]
        invariant forall id :: id in old(fileMap) ==> fileMap[id] == old(fileMap)[id]
        invariant forall id :: id in ids[..i] ==> fileMap[id] == Slot(meta(id))
      {
        assert ids[..i + 1] == ids[..i] + [ids[i]];
        fileMap := fileMap[ids[i] := Slot(meta(ids[i]))];
        i := i + 1;
      }
      assert ids[..i] == ids;
    }
  }
}
