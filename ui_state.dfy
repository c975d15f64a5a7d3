/** The state `mount` in docs/doc-engine.js keeps between events: the set of
    open folders, the page on screen, and the search dropdown (its hits, the
    active hit and whether it is open), with the event handlers that change
    them. Rendering, focus, scrolling and the saving of the open folders are
    not part of this model. */
module UiState {
  import opened Wrappers
  import opened Json
  import opened Sorting
  import opened NavTree
  import opened Search

  // ---------------------------------------------------------------------------
  // Pure parts of the transitions

  /** The index `ddMove` settles on: `next` pushed back into `[0, count - 1]`. */
  function Clamp(next: int, count: int): (r: int)
    requires count > 0
    ensures 0 <= r < count
    ensures 0 <= next < count ==> r == next
    ensures next < 0 ==> r == 0
    ensures next >= count ==> r == count - 1
  {
    if next < 0 then 0 else if next >= count then count - 1 else next
  }

  /** Clicking a folder's toggle: an open folder closes, a closed one opens. */
  function Toggle(open: set<string>, key: string): (r: set<string>)
    ensures key in r <==> key !in open
    ensures forall k :: k != key ==> (k in r <==> k in open)
  {
    if key in open then open - {key} else open + {key}
  }

  /** Toggling twice restores the set of open folders. */
  lemma ToggleTwice(open: set<string>, key: string)
    ensures Toggle(Toggle(open, key), key) == open
  {
  }

  /** The key of the folder of every non-empty prefix of a path, shortest
      first. */
  function PrefixKeys(path: seq<string>): (r: seq<string>)
    ensures |r| == |path|
  {
    if path == [] then [] else PrefixKeys(path[..|path| - 1]) + [FolderKeyFromPath(path)]
  }

  lemma SameKey(a: seq<string>, b: seq<string>)
    requires a == b
    ensures FolderKeyFromPath(a) == FolderKeyFromPath(b)
  {
  }

  lemma {:induction false} PrefixKeysIndex(path: seq<string>, i: nat)
    requires i < |path|
    ensures PrefixKeys(path)[i] == FolderKeyFromPath(path[..i + 1])
  {
    var init := path[..|path| - 1];
    if i == |path| - 1 {
      SameKey(path[..i + 1], path);
    } else {
      PrefixKeysIndex(init, i);
      SameKey(init[..i + 1], path[..i + 1]);
    }
  }

  lemma AncestorKeysStep(path: seq<string>, i: nat)
    requires i < |path|
    ensures var key := FolderKeyFromPath(path[..i + 1]);
            AncestorKeys(path[..i + 1]) == AncestorKeys(path[..i]) + (if key != "" then {key} else {})
  {
    PrefixKeysSnoc(path, i);
    NonEmptyKeysSnoc(PrefixKeys(path[..i]), FolderKeyFromPath(path[..i + 1]));
  }

  lemma OpenStep(before: set<string>, open: set<string>, path: seq<string>, i: nat)
    requires i < |path| && open == before + AncestorKeys(path[..i])
    ensures var key := FolderKeyFromPath(path[..i + 1]);
            (if key != "" then open + {key} else open) == before + AncestorKeys(path[..i + 1])
  {
    AncestorKeysStep(path, i);
  }

  lemma WholePath(path: seq<string>)
    ensures AncestorKeys(path[..|path|]) == AncestorKeys(path)
  {
    assert path[..|path|] == path;
  }

  lemma PrefixKeysSnoc(path: seq<string>, i: nat)
    requires i < |path|
    ensures PrefixKeys(path[..i + 1]) == PrefixKeys(path[..i]) + [FolderKeyFromPath(path[..i + 1])]
  {
    assert path[..i + 1][..i] == path[..i];
  }

  /** The keys among `keys` that are not empty: `if (key)` in the loop of
      `renderPageById`. */
  function NonEmptyKeys(keys: seq<string>): set<string> {
    set k | k in keys && k != ""
  }

  lemma NonEmptyKeysSnoc(keys: seq<string>, key: string)
    ensures NonEmptyKeys(keys + [key]) == NonEmptyKeys(keys) + (if key != "" then {key} else {})
  {
  }

  /** The folders `renderPageById` opens for a page whose path is `path`. */
  function AncestorKeys(path: seq<string>): set<string> {
    NonEmptyKeys(PrefixKeys(path))
  }

  /** The folder a page's path leads to is among the folders opened for it,
      unless it is the root. */
  lemma OwnFolderOpened(path: seq<string>)
    ensures FolderKeyFromPath(path) == "" || FolderKeyFromPath(path) in AncestorKeys(path)
  {
    if path == [] {
      RootKey(path);
    } else {
      var keys := PrefixKeys(path);
      assert keys[|keys| - 1] == FolderKeyFromPath(path);
    }
  }

  lemma RootKey(path: seq<string>)
    requires path == []
    ensures FolderKeyFromPath(path) == ""
  {
    assert SlugAll(path) == [];
  }

  /** Every folder opened for a path is the folder of one of its non-empty
      prefixes, so the page's own folder or one of its ancestors. */
  lemma AncestorKeysArePrefixes(path: seq<string>, key: string)
    requires key in AncestorKeys(path)
    ensures exists i :: 0 < i <= |path| && key == FolderKeyFromPath(path[..i])
  {
    var keys := PrefixKeys(path);
    var j :| 0 <= j < |keys| && keys[j] == key;
    PrefixKeysIndex(path, j);
  }

  /** The page `handleRoute` redirects to when the hash names no page: the
      first page in `sortPages` order, if there is any. */
  function DefaultPage(pages: seq<Page>, collate: (string, string) -> bool): Option<Page> {
    var sorted := SortPages(pages, collate);
    if sorted == [] then None else Some(sorted[0])
  }

  /** The default page is one of the pages, and no page has a lower order;
      there is one exactly when there are pages. */
  lemma DefaultPageFirst(pages: seq<Page>, collate: (string, string) -> bool)
    requires TotalPreorder(collate)
    ensures DefaultPage(pages, collate).Some? <==> pages != []
    ensures DefaultPage(pages, collate).Some? ==>
              && DefaultPage(pages, collate).value in pages
              && forall p :: p in pages ==> OrderOf(DefaultPage(pages, collate).value) <= OrderOf(p)
  {
    var sorted := SortPages(pages, collate);
    SortPagesOrdered(pages, collate);
    if sorted != [] {
      assert sorted[0] in multiset(pages);
    }
  }

  /** The input handler searches for the normalised query, which gives the
      same results as the query itself. */
  lemma ResultsOfNormalized(index: seq<IndexEntry>, value: string, limit: Option<int>)
    ensures SearchResults(index, NormalizeQuery(value), limit) == SearchResults(index, value, limit)
  {
    NormalizeQueryIdempotent(value);
  }

  /** The page `openPageById(hit.id)` sets the hash to: none for a falsy
      id. */
  function TargetOf(hit: Hit): Option<Json> {
    if Truthy(hit.id) then Some(hit.id) else None
  }

  // ---------------------------------------------------------------------------
  // The state

  /** The page the first of `hits` leads to: none when there are no hits. */
  function FirstTarget(hits: seq<Hit>): Option<Json>
  {
    if hits == [] then None else TargetOf(hits[0])
  }

  class MountState {
    /** `state.searchIndex` and `options.searchLimit`, fixed once loaded. */
    var searchIndex: seq<IndexEntry>
    var searchLimit: Option<int>

    var openFolders: set<string>
    var currentPageId: Option<string>
    var ddHits: seq<Hit>
    var ddActive: int
    var ddOpen: bool

    /** The dropdown is open exactly when it has hits; with no hits the
        active index is -1, otherwise it points at one of them. */
    predicate DropdownValid()
      reads this
    {
      && ddOpen == (|ddHits| > 0)
      && (if ddHits == [] then ddActive == -1 else 0 <= ddActive < |ddHits|)
    }

    constructor (index: seq<IndexEntry>, limit: Option<int>)
      ensures searchIndex == index && searchLimit == limit
      ensures openFolders == {} && currentPageId == None
      ensures ddHits == [] && ddActive == -1 && !ddOpen
      ensures DropdownValid()
    {
      searchIndex := index;
      searchLimit := limit;
      openFolders := {};
      currentPageId := None;
      ddHits := [];
      ddActive := -1;
      ddOpen := false;
    }

    /** `ddClose`. */
    method DdClose()
      modifies this`ddHits, this`ddActive, this`ddOpen
      ensures ddHits == [] && ddActive == -1 && !ddOpen
      ensures DropdownValid()
    {
      ddOpen := false;
      ddHits := [];
      ddActive := -1;
    }

    /** `ddOpenWithHits(hits)`: the first hit is active, and the dropdown is
        open only when there is one. */
    method DdOpenWithHits(hits: seq<Hit>)
      modifies this`ddHits, this`ddActive, this`ddOpen
      ensures ddHits == hits
      ensures ddActive == (if hits != [] then 0 else -1)
      ensures ddOpen == (hits != [])
      ensures DropdownValid()
    {
      ddHits := hits;
      ddActive := if |ddHits| > 0 then 0 else -1;
      ddOpen := |ddHits| > 0;
    }

    /** `ddMove(delta)`: with an open dropdown that has hits, the active
        index moves by `delta` and stays on a hit; otherwise nothing changes. */
    method DdMove(delta: int)
      modifies this`ddActive
      ensures ddActive == (if old(ddOpen) && old(ddHits) != [] then Clamp(old(ddActive) + delta, |old(ddHits)|)
                           else old(ddActive))
      ensures old(DropdownValid()) ==> DropdownValid()
    {
      if !ddOpen || |ddHits| == 0 {
        return;
      }
      var next := ddActive + delta;
      if next < 0 {
        next := 0;
      }
      if next >= |ddHits| {
        next := |ddHits| - 1;
      }
      ddActive := next;
    }

    /** `ddSelectActive`: the active hit (the first one when none is active)
        is opened and the dropdown closes. `target` is the page id the hash
        is set to, absent when the hit's id is falsy. */
    method DdSelectActive() returns (selected: bool, target: Option<Json>)
      modifies this`ddHits, this`ddActive, this`ddOpen
      ensures var idx := if old(ddActive) >= 0 then old(ddActive) else 0;
              selected == (idx < |old(ddHits)|)
      ensures var idx := if old(ddActive) >= 0 then old(ddActive) else 0;
              selected ==> && target == (TargetOf(old(ddHits)[idx]))
                           && ddHits == [] && ddActive == -1 && !ddOpen
      ensures !selected ==> target == None && ddHits == old(ddHits) && ddActive == old(ddActive) && ddOpen == old(ddOpen)
      ensures old(DropdownValid()) ==> (selected <==> old(ddHits) != [])
      ensures old(DropdownValid()) && selected ==> target == (TargetOf(old(ddHits)[old(ddActive)]))
      ensures old(DropdownValid()) ==> DropdownValid()
    {
      if |ddHits| == 0 {
        return false, None;
      }
      var idx := if ddActive >= 0 then ddActive else 0;
      if idx >= |ddHits| {
        return false, None;
      }
      var hit := ddHits[idx];
      target := TargetOf(hit);
      DdClose();
      selected := true;
    }

    /** A mouse press on the dropdown item at `idx`: a valid index becomes the
        active one and is opened; any other press does nothing. */
    method DdPressItem(idx: int) returns (selected: bool, target: Option<Json>)
      modifies this`ddHits, this`ddActive, this`ddOpen
      ensures selected == (0 <= idx < |old(ddHits)|)
      ensures selected ==> && target == (TargetOf(old(ddHits)[idx]))
                           && ddHits == [] && ddActive == -1 && !ddOpen
      ensures !selected ==> target == None && ddHits == old(ddHits) && ddActive == old(ddActive) && ddOpen == old(ddOpen)
      ensures old(DropdownValid()) ==> DropdownValid()
    {
      selected, target := false, None;
      if 0 <= idx < |ddHits| {
        ddActive := idx;
        selected, target := DdSelectActive();
      }
    }

    /** The search box's `input` event: a query without terms closes the
        dropdown, any other opens it on `computeSearchResults`. */
    method OnSearchInput(value: string)
      modifies this`ddHits, this`ddActive, this`ddOpen
      requires DropdownValid()
      ensures QueryTerms(value) == [] ==> ddHits == [] && !ddOpen
      ensures QueryTerms(value) != [] ==> ddHits == SearchResults(searchIndex, value, searchLimit)
      ensures ddOpen == (ddHits != [])
      ensures DropdownValid()
    {
      if QueryTerms(value) == [] {
        DdClose();
      } else {
        var hits := ComputeSearchResults(searchIndex, NormalizeQuery(value), searchLimit);
        ResultsOfNormalized(searchIndex, value, searchLimit);
        DdOpenWithHits(hits);
      }
    }

    /** ArrowDown in the search box holding `value`: a closed dropdown opens
        on `computeSearchResults(value)`, an open one moves down a hit. */
    method OnArrowDown(value: string)
      modifies this`ddHits, this`ddActive, this`ddOpen
      requires DropdownValid()
      ensures !old(ddOpen) ==> ddHits == SearchResults(searchIndex, value, searchLimit)
      ensures old(ddOpen) ==> ddHits == old(ddHits) && ddActive == Clamp(old(ddActive) + 1, |ddHits|)
      ensures DropdownValid()
    {
      if !ddOpen {
        var hits := ComputeSearchResults(searchIndex, value, searchLimit);
        DdOpenWithHits(hits);
      } else {
        DdMove(1);
      }
    }

    /** ArrowUp: an open dropdown moves up a hit. */
    method OnArrowUp()
      modifies this`ddActive
      requires DropdownValid()
      ensures ddActive == (if ddOpen then Clamp(old(ddActive) - 1, |ddHits|) else old(ddActive))
      ensures DropdownValid()
    {
      if ddOpen {
        DdMove(-1);
      }
    }

    /** Enter on a closed dropdown with the results `hits`: the dropdown is
        opened on them and its first hit opened at once, if there is one. */
    method OpenFirstHit(hits: seq<Hit>) returns (target: Option<Json>)
      modifies this`ddHits, this`ddActive, this`ddOpen
      requires DropdownValid()
      ensures target == FirstTarget(hits)
      ensures hits == [] ==> ddHits == old(ddHits) && ddActive == old(ddActive) && ddOpen == old(ddOpen)
      ensures hits != [] ==> ddHits == [] && ddActive == -1 && !ddOpen
      ensures DropdownValid()
    {
      target := None;
      if |hits| > 0 {
        DdOpenWithHits(hits);
        var _, t := DdSelectActive();
        target := t;
      }
    }

    /** Enter in the search box holding `value`: with an open dropdown the
        active hit is opened; otherwise the dropdown is opened on
        `computeSearchResults(value)` and its first hit opened, if there is
        one. `target` is the page the hash is set to. */
    method OnEnter(value: string) returns (target: Option<Json>)
      modifies this`ddHits, this`ddActive, this`ddOpen
      requires DropdownValid()
      ensures old(ddOpen) ==> target == TargetOf(old(ddHits)[old(ddActive)])
      ensures !old(ddOpen) ==> target == FirstTarget(SearchResults(searchIndex, value, searchLimit))
      ensures ddHits == [] && ddActive == -1 && !ddOpen
    {
      if ddOpen && |ddHits| > 0 {
        var _, t := DdSelectActive();
        target := t;
      } else {
        var hits := ComputeSearchResults(searchIndex, value, searchLimit);
        target := OpenFirstHit(hits);
      }
    }

    /** A click on a folder's toggle with the `data-folder` key `key`: an
        empty key does nothing. */
    method ToggleFolder(key: string)
      modifies this`openFolders
      ensures openFolders == (if key == "" then old(openFolders) else Toggle(old(openFolders), key))
    {
      if key == "" {
        return;
      }
      if key in openFolders {
        openFolders := openFolders - {key};
      } else {
        openFolders := openFolders + {key};
      }
    }

    /** The loop of `renderPageById` that opens the folder of every prefix of
        the page's path. */
    method OpenAncestors(path: seq<string>)
      modifies this`openFolders
      ensures openFolders == old(openFolders) + AncestorKeys(path)
    {
      for i := 0 to |path|
        invariant openFolders == old(openFolders) + AncestorKeys(path[..i])
      {
        var key := FolderKeyFromPath(path[..i + 1]);
        OpenStep(old(openFolders), openFolders, path, i);
        if key != "" {
          openFolders := openFolders + {key};
        }
      }
      WholePath(path);
    }

    /** `renderPageById(id)` with `page`, what `pagesById` holds for `id`: a
        missing page clears the current page (`renderNotFound`); a found one
        becomes current and the folders along its path are opened, its own
        folder among them. */
    method RenderPageById(id: string, page: Option<Page>)
      modifies this`currentPageId, this`openFolders
      ensures page.None? ==> currentPageId == None && openFolders == old(openFolders)
      ensures page.Some? ==>
                && currentPageId == Some(id)
                && openFolders == old(openFolders) + AncestorKeys(NormalizePath(Field(page.value, "path")))
                && (PageFolderKey(page.value) == "" || PageFolderKey(page.value) in openFolders)
    {
      if page.None? {
        currentPageId := None;
        return;
      }
      currentPageId := Some(id);
      var path := NormalizePath(Field(page.value, "path"));
      OpenAncestors(path);
      OwnFolderOpened(path);
    }
  }
}
