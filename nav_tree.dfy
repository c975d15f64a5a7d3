/** Pages, their paths and the navigation tree of folders
    (`sortPages`, `normalizePath`, `folderKeyFromPath` and `buildTree` in
    docs/doc-engine.js). */
module NavTree {
  import opened Text
  import opened Json
  import opened Sorting
  import opened EngineHelpers

  /** A page object: its own fields. */
  type Page = map<string, Json>

  function Field(p: Page, name: string): Json {
    if name in p then p[name] else Undefined
  }

  /** The order of a page without a numeric `order`. */
  const DefaultOrder: int := 999999

  function OrderOf(p: Page): int {
    if Field(p, "order").Num? then Field(p, "order").n else DefaultOrder
  }

  /** The title `sortPages` compares: the title, or `""` when it is falsy. */
  function SortTitle(p: Page): string {
    if Truthy(Field(p, "title")) then ToJsString(Field(p, "title")) else ""
  }

  // ---------------------------------------------------------------------------
  // sortPages

  /** The comparator of `sortPages` as "`a` may precede `b`": by order, then by
      title under `collate`, which stands for `localeCompare(…, "ru") <= 0`. */
  function PageLe(collate: (string, string) -> bool): (Page, Page) -> bool {
    (a: Page, b: Page) =>
      OrderOf(a) < OrderOf(b) || (OrderOf(a) == OrderOf(b) && collate(SortTitle(a), SortTitle(b)))
  }

  lemma PageLeTotal(collate: (string, string) -> bool)
    requires TotalPreorder(collate)
    ensures TotalPreorder(PageLe(collate))
  {
    var le := PageLe(collate);
    forall a, b, c | le(a, b) && le(b, c) ensures le(a, c) {
      if OrderOf(a) == OrderOf(b) == OrderOf(c) {
        assert collate(SortTitle(a), SortTitle(b)) && collate(SortTitle(b), SortTitle(c));
      }
    }
    forall a, b ensures le(a, b) || le(b, a) {
      assert collate(SortTitle(a), SortTitle(b)) || collate(SortTitle(b), SortTitle(a));
    }
  }

  /** `sortPages`: a sorted copy. */
  function SortPages(pages: seq<Page>, collate: (string, string) -> bool): seq<Page> {
    SortBy(pages, PageLe(collate))
  }

  /** The sorted pages are a permutation of the input, in ascending order,
      ties on order broken by title; the first one has the least order. */
  lemma SortPagesOrdered(pages: seq<Page>, collate: (string, string) -> bool)
    requires TotalPreorder(collate)
    ensures var r := SortPages(pages, collate);
            && multiset(r) == multiset(pages)
            && (forall i, j :: 0 <= i < j < |r| ==> OrderOf(r[i]) <= OrderOf(r[j]))
            && (forall i, j :: 0 <= i < j < |r| && OrderOf(r[i]) == OrderOf(r[j]) ==>
                  collate(SortTitle(r[i]), SortTitle(r[j])))
            && (pages != [] ==> forall p :: p in pages ==> OrderOf(r[0]) <= OrderOf(p))
  {
    var r := SortPages(pages, collate);
    PageLeTotal(collate);
    SortBySorted(pages, PageLe(collate));
    if pages != [] {
      forall p | p in pages ensures OrderOf(r[0]) <= OrderOf(p) {
        assert p in multiset(r);
        var k :| 0 <= k < |r| && r[k] == p;
        if k > 0 {
          assert PageLe(collate)(r[0], r[k]);
        }
      }
    }
  }

  /** Pages with the same order and titles that collate equal keep their
      relative order. */
  lemma SortPagesStable(pages: seq<Page>, z: Page, collate: (string, string) -> bool)
    requires TotalPreorder(collate)
    ensures EquivalentTo(SortPages(pages, collate), z, PageLe(collate))
            == EquivalentTo(pages, z, PageLe(collate))
  {
    PageLeTotal(collate);
    SortByStable(pages, z, PageLe(collate));
  }

  // ---------------------------------------------------------------------------
  // normalizePath and folderKeyFromPath

  /** `map(String).filter(Boolean)`. */
  function NonEmptyStrings(items: seq<Json>): (r: seq<string>)
    ensures forall k :: 0 <= k < |r| ==> r[k] != ""
  {
    if items == [] then []
    else
      var s := ToJsString(items[0]);
      (if s != "" then [s] else []) + NonEmptyStrings(items[1..])
  }

  lemma TruthyStringNonEmpty(j: Json)
    requires Truthy(j) && !j.Arr?
    ensures ToJsString(j) != ""
  {
    match j
    case Num(n) =>
      if n < 0 {
        assert |NatToString(-n)| >= 1;
      } else {
        assert |NatToString(n)| >= 1;
      }
    case Str(_) =>
    case Bool(_) =>
    case Obj(_) =>
  }

  /** `normalizePath`: no path for a falsy value, the non-empty strings of an
      array, otherwise the value as one segment. */
  function NormalizePath(p: Json): (r: seq<string>)
    ensures forall k :: 0 <= k < |r| ==> r[k] != ""
  {
    if !Truthy(p) then []
    else if p.Arr? then NonEmptyStrings(p.items)
    else
      TruthyStringNonEmpty(p);
      [ToJsString(p)]
  }

  /** A path as JSON, an array of strings. */
  function PathJson(path: seq<string>): Json {
    Arr(seq(|path|, i requires 0 <= i < |path| => Str(path[i])))
  }

  lemma {:induction false} NonEmptyStringsOfStrings(path: seq<string>)
    requires forall k :: 0 <= k < |path| ==> path[k] != ""
    ensures NonEmptyStrings(PathJson(path).items) == path
  {
    if path != [] {
      NonEmptyStringsOfStrings(path[1..]);
      assert PathJson(path).items[1..] == PathJson(path[1..]).items;
    }
  }

  /** Normalising a normalised path, stored back as an array, gives it back. */
  lemma NormalizePathStable(p: Json)
    ensures NormalizePath(PathJson(NormalizePath(p))) == NormalizePath(p)
  {
    NonEmptyStringsOfStrings(NormalizePath(p));
  }

  /** Applies `f` to every element, in order. */
  function MapSeq<A, B>(f: A -> B, xs: seq<A>): (r: seq<B>)
    ensures |r| == |xs|
  {
    if xs == [] then [] else [f(xs[0])] + MapSeq(f, xs[1..])
  }

  lemma {:induction false} MapSeqIndex<A, B>(f: A -> B, xs: seq<A>, k: nat)
    requires k < |xs|
    ensures MapSeq(f, xs)[k] == f(xs[k])
  {
    if k > 0 {
      MapSeqIndex(f, xs[1..], k - 1);
    }
  }

  lemma {:induction false} MapSeqSnoc<A, B>(f: A -> B, xs: seq<A>, x: A)
    ensures MapSeq(f, xs + [x]) == MapSeq(f, xs) + [f(x)]
  {
    if xs != [] {
      assert (xs + [x])[1..] == xs[1..] + [x];
      MapSeqSnoc(f, xs[1..], x);
    }
  }

  /** The slug of every segment of a path. */
  function SlugAll(path: seq<string>): (r: seq<string>)
    ensures |r| == |path|
  {
    MapSeq(Slugify, path)
  }

  /** `folderKeyFromPath`: the slugs of the segments joined with `/`. */
  function FolderKeyFromPath(path: seq<string>): string {
    Join(SlugAll(path), "/")
  }

  lemma {:induction false} JoinSnoc(parts: seq<string>, x: string, sep: string)
    ensures Join(parts + [x], sep) == if parts == [] then x else Join(parts, sep) + sep + x
  {
    if |parts| == 1 {
      assert (parts + [x])[1..] == [x];
    } else if |parts| > 1 {
      assert (parts + [x])[1..] == parts[1..] + [x];
      JoinSnoc(parts[1..], x, sep);
    }
  }

  /** The key of a folder extends the key of its parent folder by one slug. */
  lemma FolderKeyExtend(path: seq<string>, x: string)
    ensures FolderKeyFromPath(path + [x])
            == if path == [] then Slugify(x) else FolderKeyFromPath(path) + "/" + Slugify(x)
  {
    MapSeqSnoc(Slugify, path, x);
    JoinSnoc(SlugAll(path), Slugify(x), "/");
  }

  /** Along a path, each folder key is longer than the one before, except
      that the first may be empty like the root's. */
  lemma FolderKeyGrows(path: seq<string>, i: nat)
    requires i < |path|
    ensures || (i == 0 && FolderKeyFromPath(path[..i]) == "")
            || |FolderKeyFromPath(path[..i])| < |FolderKeyFromPath(path[..i + 1])|
  {
    assert path[..i + 1] == path[..i] + [path[i]];
    FolderKeyExtend(path[..i], path[i]);
    if i == 0 {
      assert SlugAll(path[..0]) == [];
    }
  }

  /** A folder key splits back into the slugs of its path: keys of different
      slug sequences differ. */
  lemma FolderKeySplits(path: seq<string>)
    requires path != []
    ensures SplitOn(FolderKeyFromPath(path), '/') == SlugAll(path)
  {
    forall k | 0 <= k < |path| ensures '/' !in SlugAll(path)[k] {
      MapSeqIndex(Slugify, path, k);
      SlugifyIsSlug(path[k]);
    }
    JoinSplit(SlugAll(path), '/');
  }

  // ---------------------------------------------------------------------------
  // buildTree

  /** A child of a folder: a sub-folder (its key and title) or a page. */
  datatype Child = Sub(key: string, title: string) | Leaf(page: Page)

  datatype Folder = Folder(title: string, key: string, children: seq<Child>)

  /** The folder names along a page's `path`. */
  function PathOf(p: Page): seq<string> {
    NormalizePath(Field(p, "path"))
  }

  /** The key of the folder a page is placed in. */
  function PageFolderKey(p: Page): string {
    FolderKeyFromPath(PathOf(p))
  }

  /** The folder key of every page. */
  function PageKeys(pages: seq<Page>): (r: seq<string>)
    ensures |r| == |pages|
  {
    MapSeq(PageFolderKey, pages)
  }

  /** The elements, in order, whose key in `keys` is `key`. */
  function Keyed<T>(xs: seq<T>, keys: seq<string>, key: string): seq<T>
    requires |keys| == |xs|
  {
    if xs == [] then []
    else Keyed(xs[..|xs| - 1], keys[..|xs| - 1], key)
         + (if keys[|xs| - 1] == key then [xs[|xs| - 1]] else [])
  }

  lemma PageFolderKeyOf(page: Page, path: seq<string>)
    requires path == NormalizePath(Field(page, "path"))
    ensures PageFolderKey(page) == FolderKeyFromPath(path)
  {
  }

  /** The pages, in order, whose folder is `key`. */
  function PagesIn(pages: seq<Page>, key: string): seq<Page> {
    Keyed(pages, PageKeys(pages), key)
  }

  /** The pages among some children, in order. */
  function LeavesOf(children: seq<Child>): seq<Page> {
    if children == [] then []
    else LeavesOf(children[..|children| - 1])
         + (if children[|children| - 1].Leaf? then [children[|children| - 1].page] else [])
  }

  /** The name `buildTree` compares pages by: `String(title || id)`. */
  function PageName(p: Page): string {
    ToJsString(Or(Field(p, "title"), Field(p, "id")))
  }

  /** The comparator of `sortNode`: folders before pages, folders by title,
      pages by order and then by name. */
  function ChildLe(collate: (string, string) -> bool): (Child, Child) -> bool {
    (a: Child, b: Child) =>
      match (a, b)
      case (Sub(_, ta), Sub(_, tb)) => collate(ta, tb)
      case (Sub(_, _), Leaf(_)) => true
      case (Leaf(_), Sub(_, _)) => false
      case (Leaf(pa), Leaf(pb)) =>
        OrderOf(pa) < OrderOf(pb) || (OrderOf(pa) == OrderOf(pb) && collate(PageName(pa), PageName(pb)))
  }

  lemma ChildLeTotal(collate: (string, string) -> bool)
    requires TotalPreorder(collate)
    ensures TotalPreorder(ChildLe(collate))
  {
    var le := ChildLe(collate);
    forall a, b, c | le(a, b) && le(b, c) ensures le(a, c) {
      if a.Sub? && b.Sub? && c.Sub? {
        assert collate(a.title, b.title) && collate(b.title, c.title);
      } else if a.Leaf? && b.Leaf? && c.Leaf? {
        if OrderOf(a.page) == OrderOf(b.page) == OrderOf(c.page) {
          assert collate(PageName(a.page), PageName(b.page)) && collate(PageName(b.page), PageName(c.page));
        }
      }
    }
    forall a, b ensures le(a, b) || le(b, a) {
      if a.Sub? && b.Sub? {
        assert collate(a.title, b.title) || collate(b.title, a.title);
      } else if a.Leaf? && b.Leaf? {
        assert collate(PageName(a.page), PageName(b.page)) || collate(PageName(b.page), PageName(a.page));
      }
    }
  }

  /** Every folder but the root is listed, under its own key and title, among
      the children of a folder with a shorter key. */
  ghost predicate HasParent(folders: map<string, Folder>, k: string)
    requires k in folders
  {
    exists pk :: pk in folders && |pk| < |k| && Sub(k, folders[k].title) in folders[pk].children
  }

  /** Every sub-folder entry names a stored folder, with its title, whose key
      is longer than the key of the folder that lists it. */
  ghost predicate SubsResolve(folders: map<string, Folder>) {
    forall k, c :: k in folders && c in folders[k].children && c.Sub? ==>
      c.key in folders && folders[c.key].title == c.title && |k| < |c.key|
  }

  ghost predicate AllHaveParents(folders: map<string, Folder>) {
    forall k :: k in folders && k != "" ==> HasParent(folders, k)
  }

  /** The shape `buildTree` keeps: a root with key `""`, every folder stored
      under its own key, sub-folder entries that resolve, and every folder but
      the root reachable from a parent. */
  ghost predicate WellLinked(folders: map<string, Folder>) {
    && "" in folders
    && (forall k :: k in folders ==> folders[k].key == k)
    && SubsResolve(folders)
    && AllHaveParents(folders)
  }

  /** The same folders with their children rearranged or extended: every
      child listed before is still listed. */
  ghost predicate Grows(before: map<string, Folder>, after: map<string, Folder>) {
    && (forall k :: k in before ==> k in after)
    && (forall k :: k in before ==> after[k].key == before[k].key && after[k].title == before[k].title)
    && (forall k, c :: k in before && c in before[k].children ==> c in after[k].children)
  }

  lemma ParentsKept(before: map<string, Folder>, after: map<string, Folder>)
    requires AllHaveParents(before) && Grows(before, after)
    ensures forall k :: k in before && k != "" ==> HasParent(after, k)
  {
    forall k | k in before && k != "" ensures HasParent(after, k) {
      var pk :| pk in before && |pk| < |k| && Sub(k, before[k].title) in before[pk].children;
      assert Sub(k, after[k].title) in after[pk].children;
    }
  }

  lemma {:induction false} KeyedSnoc<T>(xs: seq<T>, keys: seq<string>, x: T, kx: string, key: string)
    requires |keys| == |xs|
    ensures Keyed(xs + [x], keys + [kx], key) == Keyed(xs, keys, key) + (if kx == key then [x] else [])
  {
    assert (xs + [x])[..|xs|] == xs;
    assert (keys + [kx])[..|xs|] == keys;
  }

  lemma {:induction false} KeyedAbsent<T>(xs: seq<T>, keys: seq<string>, key: string)
    requires |keys| == |xs|
    requires key !in keys
    ensures Keyed(xs, keys, key) == []
  {
    if xs != [] {
      assert key !in keys[..|xs| - 1];
      KeyedAbsent(xs[..|xs| - 1], keys[..|xs| - 1], key);
    }
  }

  lemma PageKeysSnoc(pages: seq<Page>, p: Page)
    ensures PageKeys(pages + [p]) == PageKeys(pages) + [PageFolderKey(p)]
  {
    MapSeqSnoc(PageFolderKey, pages, p);
  }

  lemma {:induction false} LeavesOfSnoc(children: seq<Child>, c: Child)
    ensures LeavesOf(children + [c]) == LeavesOf(children) + (if c.Leaf? then [c.page] else [])
  {
    assert (children + [c])[..|children|] == children;
  }

  /** How often a page occurs among the leaves: as often as its leaf child. */
  lemma {:induction false} LeavesOfCount(children: seq<Child>, p: Page)
    ensures multiset(LeavesOf(children))[p] == multiset(children)[Leaf(p)]
  {
    if children != [] {
      var init, last := children[..|children| - 1], children[|children| - 1];
      assert children == init + [last];
      LeavesOfCount(init, p);
    }
  }

  lemma LeavesOfPermutation(xs: seq<Child>, ys: seq<Child>)
    requires multiset(xs) == multiset(ys)
    ensures multiset(LeavesOf(xs)) == multiset(LeavesOf(ys))
  {
    forall p ensures multiset(LeavesOf(xs))[p] == multiset(LeavesOf(ys))[p] {
      LeavesOfCount(xs, p);
      LeavesOfCount(ys, p);
    }
  }

  /** `ensureFolder(parentKey, title, fullKey)`: adds the folder under its
      parent unless it is already there. */
  method EnsureFolder(folders: map<string, Folder>, parentKey: string, title: string, fullKey: string,
                      ghost done: seq<Page>, ghost keys: seq<string>)
    returns (r: map<string, Folder>)
    requires Placed(folders, done, keys)
    requires parentKey in folders && (fullKey in folders || |parentKey| < |fullKey|)
    ensures fullKey in folders ==> r == folders
    ensures fullKey !in folders ==>
              && (forall k :: k in r <==> k in folders || k == fullKey)
              && r[fullKey] == Folder(title, fullKey, [])
              && r[parentKey] == folders[parentKey].(children := folders[parentKey].children + [Sub(fullKey, title)])
              && forall k :: k in folders && k != parentKey ==> r[k] == folders[k]
    ensures Placed(r, done, keys) && fullKey in r
  {
    if fullKey in folders {
      return folders;
    }
    r := folders[fullKey := Folder(title, fullKey, [])];
    var parent := r[parentKey];
    assert parent == folders[parentKey];
    r := r[parentKey := parent.(children := parent.children + [Sub(fullKey, title)])];
    EnsureFolderPlaced(folders, r, parentKey, title, fullKey, done, keys);
  }

  lemma EnsureFolderPlaced(folders: map<string, Folder>, r: map<string, Folder>, parentKey: string, title: string,
                           fullKey: string, done: seq<Page>, keys: seq<string>)
    requires Placed(folders, done, keys)
    requires parentKey in folders && fullKey !in folders && |parentKey| < |fullKey|
    requires r == folders[fullKey := Folder(title, fullKey, [])]
                         [parentKey := folders[parentKey].(children := folders[parentKey].children + [Sub(fullKey, title)])]
    ensures forall k :: k in r <==> k in folders || k == fullKey
    ensures r[fullKey] == Folder(title, fullKey, [])
    ensures r[parentKey] == folders[parentKey].(children := folders[parentKey].children + [Sub(fullKey, title)])
    ensures forall k :: k in folders && k != parentKey ==> r[k] == folders[k]
    ensures Placed(r, done, keys)
  {
    NewFolderMap(folders, r, parentKey, title, fullKey);
    EnsureFolderLinked(folders, r, parentKey, title, fullKey);
    EnsureFolderLeaves(folders, r, parentKey, title, fullKey, done, keys);
    forall j | 0 <= j < |keys| ensures keys[j] in r {
      assert keys[j] in folders;
    }
  }

  /** The folder map after `ensureFolder` adds a folder: the new key, the
      parent with one more child, every other folder as it was. */
  lemma NewFolderMap(folders: map<string, Folder>, r: map<string, Folder>, parentKey: string, title: string,
                     fullKey: string)
    requires parentKey in folders && fullKey !in folders
    requires r == folders[fullKey := Folder(title, fullKey, [])]
                         [parentKey := folders[parentKey].(children := folders[parentKey].children + [Sub(fullKey, title)])]
    ensures forall k :: k in r <==> k in folders || k == fullKey
    ensures r[fullKey] == Folder(title, fullKey, [])
    ensures r[parentKey] == folders[parentKey].(children := folders[parentKey].children + [Sub(fullKey, title)])
    ensures forall k :: k in folders && k != parentKey ==> r[k] == folders[k]
  {
  }

  /** Adding a folder keeps the tree well linked. */
  lemma EnsureFolderLinked(folders: map<string, Folder>, r: map<string, Folder>, parentKey: string,
                           title: string, fullKey: string)
    requires WellLinked(folders) && parentKey in folders && |parentKey| < |fullKey|
    requires fullKey !in folders
    requires (forall k :: k in r <==> k in folders || k == fullKey)
    requires r[fullKey] == Folder(title, fullKey, [])
    requires r[parentKey] == folders[parentKey].(children := folders[parentKey].children + [Sub(fullKey, title)])
    requires forall k :: k in folders && k != parentKey ==> r[k] == folders[k]
    ensures WellLinked(r)
  {
    NewFolderSubsResolve(folders, r, parentKey, title, fullKey);
    NewFolderGrows(folders, r, parentKey, title, fullKey);
    NewFolderHasParents(folders, r, parentKey, title, fullKey);
  }

  lemma NewFolderSubsResolve(folders: map<string, Folder>, r: map<string, Folder>, parentKey: string,
                           title: string, fullKey: string)
    requires parentKey in folders && |parentKey| < |fullKey|
    requires fullKey !in folders
    requires (forall k :: k in r <==> k in folders || k == fullKey)
    requires r[fullKey] == Folder(title, fullKey, [])
    requires r[parentKey] == folders[parentKey].(children := folders[parentKey].children + [Sub(fullKey, title)])
    requires forall k :: k in folders && k != parentKey ==> r[k] == folders[k]
    requires SubsResolve(folders)
    ensures SubsResolve(r)
  {
    forall k, c | k in r && c in r[k].children && c.Sub?
      ensures c.key in r && r[c.key].title == c.title && |k| < |c.key|
    {
      if k == parentKey && c !in folders[parentKey].children {
        assert c == Sub(fullKey, title);
      } else if k != fullKey {
        assert c in folders[k].children;
      }
    }
  }

  lemma NewFolderGrows(folders: map<string, Folder>, r: map<string, Folder>, parentKey: string,
                           title: string, fullKey: string)
    requires parentKey in folders && |parentKey| < |fullKey|
    requires fullKey !in folders
    requires (forall k :: k in r <==> k in folders || k == fullKey)
    requires r[fullKey] == Folder(title, fullKey, [])
    requires r[parentKey] == folders[parentKey].(children := folders[parentKey].children + [Sub(fullKey, title)])
    requires forall k :: k in folders && k != parentKey ==> r[k] == folders[k]
    ensures Grows(folders, r)
  {
    forall k, c | k in folders && c in folders[k].children ensures c in r[k].children {
      if k == parentKey {
        assert r[k].children == folders[k].children + [Sub(fullKey, title)];
      }
    }
  }

  lemma NewFolderHasParents(folders: map<string, Folder>, r: map<string, Folder>, parentKey: string,
                           title: string, fullKey: string)
    requires parentKey in folders && |parentKey| < |fullKey|
    requires fullKey !in folders
    requires (forall k :: k in r <==> k in folders || k == fullKey)
    requires r[fullKey] == Folder(title, fullKey, [])
    requires r[parentKey] == folders[parentKey].(children := folders[parentKey].children + [Sub(fullKey, title)])
    requires forall k :: k in folders && k != parentKey ==> r[k] == folders[k]
    requires AllHaveParents(folders) && Grows(folders, r)
    ensures AllHaveParents(r)
  {
    ParentsKept(folders, r);
    forall k | k in r && k != "" ensures HasParent(r, k) {
      if k == fullKey {
        assert Sub(fullKey, r[fullKey].title) in r[parentKey].children;
      } else {
        assert k in folders;
      }
    }
  }

  /** Adding a folder, which holds no page yet, leaves the pages where they were. */
  lemma EnsureFolderLeaves(folders: map<string, Folder>, r: map<string, Folder>, parentKey: string,
                           title: string, fullKey: string, done: seq<Page>, keys: seq<string>)
    requires |keys| == |done|
    requires parentKey in folders && fullKey !in folders
    requires (forall k :: k in r <==> k in folders || k == fullKey)
    requires r[fullKey] == Folder(title, fullKey, [])
    requires r[parentKey] == folders[parentKey].(children := folders[parentKey].children + [Sub(fullKey, title)])
    requires forall k :: k in folders && k != parentKey ==> r[k] == folders[k]
    requires forall j :: 0 <= j < |keys| ==> keys[j] in folders
    requires forall k :: k in folders ==> LeavesOf(folders[k].children) == Keyed(done, keys, k)
    ensures forall k :: k in r ==> LeavesOf(r[k].children) == Keyed(done, keys, k)
  {
    forall k | k in r ensures LeavesOf(r[k].children) == Keyed(done, keys, k) {
      if k == fullKey {
        KeyedAbsent(done, keys, fullKey);
        assert LeavesOf([]) == [];
      } else if k == parentKey {
        LeavesOfSub(folders[parentKey].children, fullKey, title);
        assert r[k].children == folders[parentKey].children + [Sub(fullKey, title)];
      } else {
        assert r[k] == folders[k];
      }
    }
  }

  /** A sub-folder entry adds no page. */
  lemma LeavesOfSub(children: seq<Child>, key: string, title: string)
    ensures LeavesOf(children + [Sub(key, title)]) == LeavesOf(children)
  {
    LeavesOfSnoc(children, Sub(key, title));
    assert LeavesOf(children) + [] == LeavesOf(children);
  }

  /** Placing a page in its folder keeps the tree well linked. */
  lemma AddLeafLinked(folders: map<string, Folder>, key: string, page: Page)
    requires WellLinked(folders) && key in folders
    ensures WellLinked(folders[key := folders[key].(children := folders[key].children + [Leaf(page)])])
  {
    var r := folders[key := folders[key].(children := folders[key].children + [Leaf(page)])];
    forall k | k in r ensures k in folders && r[k].key == folders[k].key && r[k].title == folders[k].title {
    }
    forall k, c | k in folders && c in folders[k].children ensures c in r[k].children {
      if k == key {
        assert r[k].children == folders[k].children + [Leaf(page)];
      }
    }
    forall k, c | k in r && c in r[k].children && c.Sub?
      ensures c.key in r && r[c.key].title == c.title && |k| < |c.key|
    {
      if k == key {
        assert r[k].children == folders[k].children + [Leaf(page)];
      }
      assert c in folders[k].children;
    }
    assert Grows(folders, r);
    ParentsKept(folders, r);
    assert SubsResolve(r);
    assert AllHaveParents(r) by {
      forall k | k in r && k != "" ensures HasParent(r, k) {
        assert k in folders;
      }
    }
  }

  /** Placing a page in the folder of its path adds it to that folder's pages. */
  lemma AddLeafLeaves(folders: map<string, Folder>, key: string, page: Page, done: seq<Page>, keys: seq<string>)
    requires |keys| == |done| && key in folders
    requires forall k :: k in folders ==> LeavesOf(folders[k].children) == Keyed(done, keys, k)
    ensures var r := folders[key := folders[key].(children := folders[key].children + [Leaf(page)])];
            forall k :: k in r ==> LeavesOf(r[k].children) == Keyed(done + [page], keys + [key], k)
  {
    forall k | k in folders {
      KeyedSnoc(done, keys, page, key, k);
    }
    LeavesOfSnoc(folders[key].children, Leaf(page));
  }

  /** What `buildTree` keeps while it places pages: a well-linked tree in
      which each folder lists, in order, the placed pages whose key is its
      own, and every placed page's folder exists. */
  ghost predicate Placed(folders: map<string, Folder>, done: seq<Page>, keys: seq<string>) {
    && |keys| == |done|
    && WellLinked(folders)
    && (forall j :: 0 <= j < |keys| ==> keys[j] in folders)
    && (forall k :: k in folders ==> LeavesOf(folders[k].children) == Keyed(done, keys, k))
  }

  /** Appending a page to a folder records it as placed under that key. */
  lemma AddLeafPlaced(folders: map<string, Folder>, key: string, page: Page, done: seq<Page>, keys: seq<string>,
                      r: map<string, Folder>)
    requires Placed(folders, done, keys) && key in folders
    requires r == folders[key := folders[key].(children := folders[key].children + [Leaf(page)])]
    ensures Placed(r, done + [page], keys + [key])
  {
    AddLeafLinked(folders, key, page);
    assert WellLinked(r);
    AddLeafLeaves(folders, key, page, done, keys);
    assert forall k :: k in r ==> LeavesOf(r[k].children) == Keyed(done + [page], keys + [key], k);
    forall j | 0 <= j < |keys| + 1 ensures (keys + [key])[j] in r {
      if j < |keys| {
        assert keys[j] in folders;
      }
    }
  }

  /** The key of the folder step `i` along `path` leads to. */
  function StepKey(path: seq<string>, i: int): string
    requires 0 <= i < |path|
  {
    FolderKeyFromPath(path[..i + 1])
  }

  /** Folder `k` is the one step `i` along `path` leads to: its key is that of
      the first `i + 1` names, its title the `i`-th name, and it is listed
      among the children of the folder of the first `i` names. */
  ghost predicate OpenedBy(folders: map<string, Folder>, path: seq<string>, i: int, k: string) {
    && 0 <= i < |path|
    && k == StepKey(path, i)
    && k in folders && folders[k].title == path[i]
    && FolderKeyFromPath(path[..i]) in folders
    && Sub(k, path[i]) in folders[FolderKeyFromPath(path[..i])].children
  }

  /** Every folder but the root was opened by a step along some page's path. */
  ghost predicate FoldersFromPaths(folders: map<string, Folder>, pages: seq<Page>) {
    forall k :: k in folders && k != "" ==>
      exists j, i :: 0 <= j < |pages| && OpenedBy(folders, PathOf(pages[j]), i, k)
  }

  /** Every step along every page's path has its folder. */
  ghost predicate PathsHaveFolders(folders: map<string, Folder>, pages: seq<Page>) {
    forall j, i :: 0 <= j < |pages| && 0 <= i < |PathOf(pages[j])| ==>
      StepKey(PathOf(pages[j]), i) in folders
  }

  /** Growing the folders keeps every folder opened where it was. */
  lemma OpenedKept(before: map<string, Folder>, after: map<string, Folder>, path: seq<string>, i: int, k: string)
    requires Grows(before, after) && OpenedBy(before, path, i, k)
    ensures OpenedBy(after, path, i, k)
  {
  }

  /** Growing the folders, without adding any, keeps where they came from. */
  lemma FoldersFromPathsKept(before: map<string, Folder>, after: map<string, Folder>, pages: seq<Page>)
    requires Grows(before, after) && (forall k :: k in after ==> k in before)
    requires FoldersFromPaths(before, pages)
    ensures FoldersFromPaths(after, pages)
  {
    forall k | k in after && k != "" ensures exists j, i :: 0 <= j < |pages| && OpenedBy(after, PathOf(pages[j]), i, k) {
      var j, i :| 0 <= j < |pages| && OpenedBy(before, PathOf(pages[j]), i, k);
      OpenedKept(before, after, PathOf(pages[j]), i, k);
    }
  }

  lemma PathsHaveFoldersKept(before: map<string, Folder>, after: map<string, Folder>, pages: seq<Page>)
    requires (forall k :: k in before ==> k in after) && PathsHaveFolders(before, pages)
    ensures PathsHaveFolders(after, pages)
  {
  }

  /** `ensureFolder` at step `i` of the current page's path: the folders of
      the steps so far exist, and a folder it adds was opened by this step. */
  lemma EnsureFolderOpens(before: map<string, Folder>, r: map<string, Folder>, path: seq<string>, i: nat,
                          parentKey: string, fullKey: string, done: seq<Page>, page: Page)
    requires path == PathOf(page) && i < |path|
    requires parentKey == FolderKeyFromPath(path[..i]) && fullKey == FolderKeyFromPath(path[..i + 1])
    requires parentKey in before && (fullKey in before || |parentKey| < |fullKey|)
    requires fullKey in before ==> r == before
    requires fullKey !in before ==>
               && (forall k :: k in r <==> k in before || k == fullKey)
               && r[fullKey] == Folder(path[i], fullKey, [])
               && r[parentKey] == before[parentKey].(children := before[parentKey].children + [Sub(fullKey, path[i])])
               && forall k :: k in before && k != parentKey ==> r[k] == before[k]
    requires PathsHaveFolders(before, done) && FoldersFromPaths(before, done + [page])
    requires forall i' :: 0 <= i' < i ==> StepKey(path, i') in before
    ensures PathsHaveFolders(r, done) && FoldersFromPaths(r, done + [page])
    ensures forall i' :: 0 <= i' < i + 1 ==> StepKey(path, i') in r
  {
    if fullKey !in before {
      NewFolderGrows(before, r, parentKey, path[i], fullKey);
      PathsHaveFoldersKept(before, r, done);
      var pages := done + [page];
      forall k | k in r && k != "" ensures exists j, i :: 0 <= j < |pages| && OpenedBy(r, PathOf(pages[j]), i, k) {
        if k == fullKey {
          assert PathOf(pages[|done|]) == path;
          assert OpenedBy(r, PathOf(pages[|done|]), i, k);
        } else {
          var j, i :| 0 <= j < |pages| && OpenedBy(before, PathOf(pages[j]), i, k);
          OpenedKept(before, r, PathOf(pages[j]), i, k);
        }
      }
    }
  }

  /** Once the walk is over, every step of the page's path has its folder. */
  lemma PathsHaveFoldersSnoc(folders: map<string, Folder>, done: seq<Page>, page: Page)
    requires PathsHaveFolders(folders, done)
    requires forall i :: 0 <= i < |PathOf(page)| ==> StepKey(PathOf(page), i) in folders
    ensures PathsHaveFolders(folders, done + [page])
  {
    var pages := done + [page];
    forall j, i | 0 <= j < |pages| && 0 <= i < |PathOf(pages[j])|
      ensures StepKey(PathOf(pages[j]), i) in folders
    {
      if j < |done| {
        assert pages[j] == done[j];
      } else {
        assert pages[j] == page;
      }
    }
  }

  /** Placing a page in its folder keeps every folder where it came from. */
  lemma AddLeafHierarchy(folders: map<string, Folder>, key: string, page: Page, pages: seq<Page>,
                         r: map<string, Folder>)
    requires key in folders
    requires r == folders[key := folders[key].(children := folders[key].children + [Leaf(page)])]
    requires PathsHaveFolders(folders, pages) && FoldersFromPaths(folders, pages)
    ensures PathsHaveFolders(r, pages) && FoldersFromPaths(r, pages)
  {
    AddLeafGrows(folders, key, page, r);
    PathsHaveFoldersKept(folders, r, pages);
    FoldersFromPathsKept(folders, r, pages);
  }

  /** Appending a page to a folder adds no folder and keeps every child. */
  lemma AddLeafGrows(folders: map<string, Folder>, key: string, page: Page, r: map<string, Folder>)
    requires key in folders
    requires r == folders[key := folders[key].(children := folders[key].children + [Leaf(page)])]
    ensures Grows(folders, r) && (forall k :: k in r <==> k in folders)
  {
    forall k, c | k in folders && c in folders[k].children ensures c in r[k].children {
      if k == key {
        assert r[k].children == folders[k].children + [Leaf(page)];
      }
    }
  }

  /** The body of `pages.forEach` in `buildTree`: creates the folders along
      the page's path and appends the page to the last one. */
  method PlacePage(folders: map<string, Folder>, page: Page, ghost done: seq<Page>, ghost keys: seq<string>)
    returns (r: map<string, Folder>)
    requires Placed(folders, done, keys)
    requires PathsHaveFolders(folders, done) && FoldersFromPaths(folders, done)
    ensures Placed(r, done + [page], keys + [PageFolderKey(page)])
    ensures PathsHaveFolders(r, done + [page]) && FoldersFromPaths(r, done + [page])
  {
    r := folders;
    var path := NormalizePath(Field(page, "path"));
    var parentKey := "";
    var i := 0;
    PagesSnocFrom(folders, done, page);
    while i < |path|
      invariant 0 <= i <= |path|
      invariant parentKey == FolderKeyFromPath(path[..i]) && parentKey in r
      invariant Placed(r, done, keys)
      invariant PathsHaveFolders(r, done) && FoldersFromPaths(r, done + [page])
      invariant forall i' :: 0 <= i' < i ==> StepKey(path, i') in r
    {
      var fullKey := FolderKeyFromPath(path[..i + 1]);
      NextFolderKey(path, i, parentKey, fullKey, r);
      ghost var before := r;
      r := EnsureFolder(r, parentKey, path[i], fullKey, done, keys);
      EnsureFolderOpens(before, r, path, i, parentKey, fullKey, done, page);
      parentKey := fullKey;
      i := i + 1;
    }
    PathKeyDone(page, path, i, parentKey);
    PathsHaveFoldersSnoc(r, done, page);
    ghost var before := r;
    r := r[parentKey := r[parentKey].(children := r[parentKey].children + [Leaf(page)])];
    AddLeafPlaced(before, parentKey, page, done, keys, r);
    AddLeafHierarchy(before, parentKey, page, done + [page], r);
  }

  /** A folder opened along the path of a placed page is one opened along
      the path of a page placed so far. */
  lemma PagesSnocFrom(folders: map<string, Folder>, done: seq<Page>, page: Page)
    requires FoldersFromPaths(folders, done)
    ensures FoldersFromPaths(folders, done + [page])
  {
    var pages := done + [page];
    forall k | k in folders && k != "" ensures exists j, i :: 0 <= j < |pages| && OpenedBy(folders, PathOf(pages[j]), i, k) {
      var j, i :| 0 <= j < |done| && OpenedBy(folders, PathOf(done[j]), i, k);
      assert pages[j] == done[j];
    }
  }

  /** The next folder along the path is the root, or has a longer key than
      its parent. */
  lemma NextFolderKey(path: seq<string>, i: nat, parentKey: string, fullKey: string, r: map<string, Folder>)
    requires i < |path| && parentKey == FolderKeyFromPath(path[..i]) && fullKey == FolderKeyFromPath(path[..i + 1])
    requires "" in r
    ensures fullKey in r || |parentKey| < |fullKey|
  {
    FolderKeyGrows(path, i);
    if i == 0 && |fullKey| == 0 {
      assert fullKey == "";
    }
  }

  /** After the walk along the whole path, the parent is the page's folder. */
  lemma PathKeyDone(page: Page, path: seq<string>, i: nat, parentKey: string)
    requires path == NormalizePath(Field(page, "path")) && i == |path|
    requires parentKey == FolderKeyFromPath(path[..i])
    ensures parentKey == PageFolderKey(page)
  {
    assert path[..i] == path;
    PageFolderKeyOf(page, path);
  }

  /** The `pages.forEach` loop of `buildTree`: every page placed, in order,
      in the folder of its path. */
  method PlaceAll(pages: seq<Page>) returns (folders: map<string, Folder>)
    ensures Placed(folders, pages, PageKeys(pages))
    ensures PathsHaveFolders(folders, pages) && FoldersFromPaths(folders, pages)
  {
    folders := map["" := Folder("", "", [])];
    ghost var done: seq<Page> := [];
    ghost var keys: seq<string> := [];
    var n := 0;
    while n < |pages|
      invariant 0 <= n <= |pages|
      invariant done == pages[..n] && keys == PageKeys(done)
      invariant Placed(folders, done, keys)
      invariant PathsHaveFolders(folders, done) && FoldersFromPaths(folders, done)
    {
      folders := PlacePage(folders, pages[n], done, keys);
      ghost var done0, keys0 := done, keys;
      done, keys := done + [pages[n]], keys + [PageFolderKey(pages[n])];
      n := n + 1;
      PlaceAllStep(pages, n, done0, keys0, done, keys);
    }
    PlaceAllEnd(pages, n, done);
  }

  lemma PlaceAllStep(pages: seq<Page>, n: nat, done0: seq<Page>, keys0: seq<string>, done: seq<Page>, keys: seq<string>)
    requires 0 < n <= |pages| && done0 == pages[..n - 1] && keys0 == PageKeys(done0)
    requires done == done0 + [pages[n - 1]] && keys == keys0 + [PageFolderKey(pages[n - 1])]
    ensures done == pages[..n] && keys == PageKeys(done)
  {
    PageKeysSnoc(done0, pages[n - 1]);
    assert pages[..n] == done0 + [pages[n - 1]];
  }

  lemma PlaceAllEnd(pages: seq<Page>, n: nat, done: seq<Page>)
    requires n == |pages| && done == pages[..n]
    ensures done == pages
  {
  }

  /** `buildTree`: the folders by key, the root under `""`. Every page is
      placed in the folder of its path, each folder's children are sorted
      with folders first, and the folders form a tree. `collate` stands for
      `localeCompare(…, "ru") <= 0`. */
  method BuildTree(pages: seq<Page>, collate: (string, string) -> bool) returns (folders: map<string, Folder>)
    requires TotalPreorder(collate)
    ensures WellLinked(folders)
    ensures forall j :: 0 <= j < |pages| ==> PageFolderKey(pages[j]) in folders
    ensures forall k :: k in folders ==> multiset(LeavesOf(folders[k].children)) == multiset(PagesIn(pages, k))
    ensures ChildrenOrdered(folders, collate)
    ensures PathsHaveFolders(folders, pages) && FoldersFromPaths(folders, pages)
  {
    var built := PlaceAll(pages);
    folders := SortChildren(built, collate);
    SortedLinked(built, folders);
    RearrangedHierarchy(built, folders, pages);
    forall j | 0 <= j < |pages| ensures PageFolderKey(pages[j]) in folders {
      MapSeqIndex(PageFolderKey, pages, j);
    }
  }

  /** Every folder's children are sorted with `ChildLe(collate)`, so the
      subfolders come before the pages. */
  ghost predicate ChildrenOrdered(folders: map<string, Folder>, collate: (string, string) -> bool) {
    && (forall k :: k in folders ==> Sorted(folders[k].children, ChildLe(collate)))
    && (forall k, i, j :: k in folders && 0 <= i < j < |folders[k].children| && folders[k].children[j].Sub? ==>
          folders[k].children[i].Sub?)
  }

  /** The same folder keys, each folder holding the same pages. */
  ghost predicate SameLeaves(built: map<string, Folder>, folders: map<string, Folder>) {
    && (forall k :: k in folders <==> k in built)
    && (forall k :: k in folders ==> multiset(LeavesOf(folders[k].children)) == multiset(LeavesOf(built[k].children)))
  }

  /** The same folders, each with its children rearranged. */
  ghost predicate Rearranged(built: map<string, Folder>, folders: map<string, Folder>) {
    && (forall k :: k in folders <==> k in built)
    && (forall k :: k in folders ==>
          && folders[k].key == built[k].key && folders[k].title == built[k].title
          && multiset(folders[k].children) == multiset(built[k].children))
  }

  ghost predicate SortedOutside(folders: map<string, Folder>, todo: set<string>, le: (Child, Child) -> bool) {
    forall k :: k in folders && k !in todo ==> Sorted(folders[k].children, le)
  }

  /** The invariant of the loop over the folders: the folders still to sort
      are known, and every other folder is sorted. */
  ghost predicate SortingFolders(built: map<string, Folder>, folders: map<string, Folder>, todo: set<string>,
                          le: (Child, Child) -> bool) {
    && (forall k :: k in todo ==> k in folders)
    && Rearranged(built, folders) && SortedOutside(folders, todo, le)
  }

  /** Sorting the children of one more folder. */
  lemma SortOneStep(built: map<string, Folder>, folders: map<string, Folder>, todo: set<string>, k: string,
                    collate: (string, string) -> bool, r: map<string, Folder>, todo': set<string>)
    requires TotalPreorder(collate) && SortingFolders(built, folders, todo, ChildLe(collate)) && k in todo
    requires r == folders[k := folders[k].(children := SortBy(folders[k].children, ChildLe(collate)))]
    requires todo' == todo - {k}
    ensures SortingFolders(built, r, todo', ChildLe(collate))
    ensures |todo'| < |todo|
  {
    var le := ChildLe(collate);
    ChildLeTotal(collate);
    SortBySorted(folders[k].children, le);
    forall j | j in r ensures Sorted(r[j].children, le) || j in todo' {
      if j != k {
        assert r[j] == folders[j];
      }
    }
  }

  /** `sortNode` applied to every folder: each folder's children sorted with
      `ChildLe`; nothing else changes. */
  method SortChildren(built: map<string, Folder>, collate: (string, string) -> bool) returns (folders: map<string, Folder>)
    requires TotalPreorder(collate)
    ensures Rearranged(built, folders)
    ensures SameLeaves(built, folders)
    ensures ChildrenOrdered(folders, collate)
  {
    folders := built;
    var todo := built.Keys;
    while todo != {}
      invariant SortingFolders(built, folders, todo, ChildLe(collate))
      decreases |todo|
    {
      var k :| k in todo;
      ghost var before, todo0 := folders, todo;
      folders := folders[k := folders[k].(children := SortBy(folders[k].children, ChildLe(collate)))];
      todo := todo - {k};
      SortOneStep(built, before, todo0, k, collate, folders, todo);
    }
    SortedChildrenFacts(built, folders, collate);
  }

  /** What sorting every folder's children gives. */
  lemma SortedChildrenFacts(built: map<string, Folder>, folders: map<string, Folder>, collate: (string, string) -> bool)
    requires Rearranged(built, folders) && SortedOutside(folders, {}, ChildLe(collate))
    ensures SameLeaves(built, folders)
    ensures ChildrenOrdered(folders, collate)
  {
    forall k | k in folders ensures multiset(LeavesOf(folders[k].children)) == multiset(LeavesOf(built[k].children)) {
      LeavesOfPermutation(folders[k].children, built[k].children);
    }
    forall k | k in folders ensures Sorted(folders[k].children, ChildLe(collate)) {
      assert k !in {};
    }
    forall k, i, j | k in folders && 0 <= i < j < |folders[k].children| && folders[k].children[j].Sub?
      ensures folders[k].children[i].Sub?
    {
      assert k !in {};
      assert ChildLe(collate)(folders[k].children[i], folders[k].children[j]);
    }
  }

  /** Rearranging children keeps every folder where it came from. */
  lemma RearrangedHierarchy(built: map<string, Folder>, folders: map<string, Folder>, pages: seq<Page>)
    requires Rearranged(built, folders)
    requires PathsHaveFolders(built, pages) && FoldersFromPaths(built, pages)
    ensures PathsHaveFolders(folders, pages) && FoldersFromPaths(folders, pages)
  {
    forall k, c | k in built && c in built[k].children ensures c in folders[k].children {
      assert c in multiset(built[k].children);
    }
    assert Grows(built, folders);
    FoldersFromPathsKept(built, folders, pages);
  }

  /** Rearranging children keeps the tree well linked. */
  lemma SortedLinked(built: map<string, Folder>, folders: map<string, Folder>)
    requires WellLinked(built) && Rearranged(built, folders)
    ensures WellLinked(folders)
  {
    forall k, c | k in folders && c in folders[k].children && c.Sub?
      ensures c.key in folders && folders[c.key].title == c.title && |k| < |c.key|
    {
      assert c in multiset(folders[k].children);
      assert c in built[k].children;
    }
    forall k, c | k in built && c in built[k].children ensures c in folders[k].children {
      assert c in multiset(built[k].children);
    }
    assert Grows(built, folders);
    ParentsKept(built, folders);
    assert SubsResolve(folders);
    assert AllHaveParents(folders) by {
      forall k | k in folders && k != "" ensures HasParent(folders, k) {
        assert k in built;
      }
    }
  }
}
