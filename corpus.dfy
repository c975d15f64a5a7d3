/** Assembling the documentation set (`loadAllDocs` in docs/doc-engine.js):
    one JSON document, or a manifest and the files it lists merged into one
    list of pages with unique ids. Fetching is a parameter: `fetch(url)` is
    the parsed body, or `None` when `fetchJson` throws (network failure or a
    response that is not ok). */
module Corpus {
  import opened Text
  import opened Json
  import opened Wrappers
  import opened EngineHelpers
  import opened Manifest
  import opened PageIds
  import opened NavTree

  /** The site title when neither the options nor the files give one. */
  const DefaultSiteTitle: string := "Документация"

  /** The options `loadAllDocs` reads; `""` stands for an absent string option. */
  datatype Options = Options(jsonUrl: string, docsDir: string, docsIndexUrl: string, title: Json)

  /** What `loadAllDocs` resolves to. */
  datatype Docs = Docs(siteTitle: Json, pages: seq<Json>)

  /** Why `loadAllDocs` rejects: a fetch failed, the single document is
      `null` (reading its `siteTitle` throws), or the manifest is refused. */
  datatype LoadError = FetchFailed(url: string) | NullDocument | BadManifest(reason: ManifestError)

  // ---------------------------------------------------------------------------
  // One page

  /** `String(file).split("/").pop()`. */
  function LastSegment(file: string): (r: string)
    ensures '/' !in r
  {
    var parts := SplitOn(file, '/');
    parts[|parts| - 1]
  }

  /** `replace(/\.json$/i, "")`. */
  function StripJsonSuffix(s: string): string {
    if |s| >= 5 && ToLower(s[|s| - 5..]) == ".json" then s[..|s| - 5] else s
  }

  /** The namespace a file's pages get: the manifest's, or else the file's
      base name without `.json`. `""` stands for none. */
  function PageNamespace(e: Entry): string {
    if e.namespace.Some? && e.namespace.value != "" then e.namespace.value
    else StripJsonSuffix(LastSegment(e.file))
  }

  /** A page's own fields (`Object.assign({}, p)`). */
  function PageObject(p: Json): Page {
    if p.Obj? then p.fields else map[]
  }

  /** The page with the file's path prefix put in front of its path. */
  function WithPrefix(page: Page, e: Entry): Page {
    if e.pathPrefix.Some? && |e.pathPrefix.value| > 0
    then page["path" := PathJson(e.pathPrefix.value + NormalizePath(Field(page, "path")))]
    else page
  }

  /** `page.id || slugify(page.title || "")`, as `ensureUniquePageId` reads it. */
  function RawId(page: Page): string {
    if Truthy(Field(page, "id")) then ToJsString(Field(page, "id"))
    else Slugify(if Truthy(Field(page, "title")) then ToJsString(Field(page, "title")) else "")
  }

  /** The page with its unique id, and a title and an order filled in. */
  function Finish(page: Page, id: string): Page {
    var withId := page["id" := Str(id)];
    var withTitle := if Truthy(Field(withId, "title")) then withId else withId["title" := Str(id)];
    if Field(withTitle, "order").Num? then withTitle else withTitle["order" := Num(DefaultOrder)]
  }

  // ---------------------------------------------------------------------------
  // The merge, as functions

  /** The page items of a fetched document. */
  function PagesOfData(data: Json): seq<Json> {
    if Get(data, "pages").Arr? then Get(data, "pages").items else []
  }

  function PairAll(e: Entry, items: seq<Json>): seq<(Entry, Json)> {
    MapSeq((p: Json) => (e, p), items)
  }

  /** Every page item of the files, in order, with the entry of its file. */
  function Sources(docs: seq<(Entry, Json)>): seq<(Entry, Json)> {
    if docs == [] then []
    else Sources(docs[..|docs| - 1]) + PairAll(docs[|docs| - 1].0, PagesOfData(docs[|docs| - 1].1))
  }

  /** The merged pages and the ids taken. The `n`-th page's random fallback
      digits are `randomHex(n)`. */
  function Merged(sources: seq<(Entry, Json)>, randomHex: nat -> string): (r: (seq<Page>, set<string>))
    ensures |r.0| == |sources|
  {
    if sources == [] then ([], {})
    else
      var prev := Merged(sources[..|sources| - 1], randomHex);
      var e := sources[|sources| - 1].0;
      var page := WithPrefix(PageObject(sources[|sources| - 1].1), e);
      var id := AssignedId(prev.1, RawId(page), PageNamespace(e), randomHex(|sources| - 1));
      (prev.0 + [Finish(page, id)], prev.1 + {id})
  }

  function IdOf(p: Page): Json {
    Field(p, "id")
  }

  /** The site title after one file: a truthy `siteTitle` of the file
      replaces the title while it is still the initial one. */
  function TitleStep(title: Json, data: Json, initial: Json): Json {
    var t := Get(data, "siteTitle");
    var title1 := if !Truthy(title) && Truthy(t) then t else title;
    if Truthy(t) && title1 == initial then t else title1
  }

  function Datas(docs: seq<(Entry, Json)>): seq<Json> {
    MapSeq((d: (Entry, Json)) => d.1, docs)
  }

  /** The title fold over the fetched documents. */
  function SiteTitleFold(datas: seq<Json>, initial: Json): Json {
    if datas == [] then initial
    else TitleStep(SiteTitleFold(datas[..|datas| - 1], initial), datas[|datas| - 1], initial)
  }

  /** Whether a document names a site title other than the initial one. */
  predicate Overrides(data: Json, initial: Json) {
    Truthy(Get(data, "siteTitle")) && Get(data, "siteTitle") != initial
  }

  /** The first site title, in file order, that differs from the initial one. */
  function FirstOverride(datas: seq<Json>, initial: Json): (r: Option<Json>)
    ensures r.Some? <==> exists k :: 0 <= k < |datas| && Overrides(datas[k], initial)
    ensures r.Some? ==> Truthy(r.value) && r.value != initial
    ensures r.Some? ==> exists k :: 0 <= k < |datas| && Overrides(datas[k], initial) && r.value == Get(datas[k], "siteTitle")
                                    && forall j :: 0 <= j < k ==> !Overrides(datas[j], initial)
  {
    if datas == [] then None
    else if Overrides(datas[0], initial) then Some(Get(datas[0], "siteTitle"))
    else
      var r := FirstOverride(datas[1..], initial);
      assert forall k :: 1 <= k < |datas| ==> datas[k] == datas[1..][k - 1];
      r
  }

  // ---------------------------------------------------------------------------
  // Properties of the merge

  lemma {:induction false} FirstOverrideSnoc(datas: seq<Json>, d: Json, initial: Json)
    ensures FirstOverride(datas + [d], initial)
            == if FirstOverride(datas, initial).Some? then FirstOverride(datas, initial)
               else if Overrides(d, initial) then Some(Get(d, "siteTitle"))
               else None
  {
    if datas != [] {
      assert (datas + [d])[1..] == datas[1..] + [d];
      FirstOverrideSnoc(datas[1..], d, initial);
    }
  }

  /** The title fold ends with the first file-supplied site title that
      differs from the initial title (even an explicit `options.title` is
      overridden), and with the initial title when there is none. */
  lemma {:induction false} SiteTitleIsFirstOverride(datas: seq<Json>, initial: Json)
    requires Truthy(initial)
    ensures SiteTitleFold(datas, initial)
            == if FirstOverride(datas, initial).Some? then FirstOverride(datas, initial).value else initial
  {
    if datas != [] {
      var init, d := datas[..|datas| - 1], datas[|datas| - 1];
      assert datas == init + [d];
      SiteTitleIsFirstOverride(init, initial);
      FirstOverrideSnoc(init, d, initial);
      var before := SiteTitleFold(init, initial);
      assert SiteTitleFold(datas, initial) == TitleStep(before, d, initial);
      match FirstOverride(init, initial)
      case Some(t) =>
        assert before == t && Truthy(t) && t != initial;
      case None =>
        assert before == initial;
    }
  }

  /** Pages with distinct non-empty string ids, exactly the ids in `used`,
      each with a truthy title and a numeric order. */
  ghost predicate IdsRecorded(pages: seq<Page>, used: set<string>) {
    && (forall i :: 0 <= i < |pages| ==> IdOf(pages[i]).Str? && IdOf(pages[i]).s in used && IdOf(pages[i]).s != "")
    && (forall k :: k in used ==> exists i :: 0 <= i < |pages| && IdOf(pages[i]) == Str(k))
    && (forall i, j :: 0 <= i < j < |pages| ==> IdOf(pages[i]) != IdOf(pages[j]))
    && (forall i :: 0 <= i < |pages| ==> Truthy(Field(pages[i], "title")) && Field(pages[i], "order").Num?)
  }

  /** A finished page carries its id, a truthy title and a numeric order;
      a title or order it had is kept. */
  lemma FinishFacts(page: Page, id: string)
    requires id != ""
    ensures var r := Finish(page, id);
            && IdOf(r) == Str(id) && Truthy(Field(r, "title")) && Field(r, "order").Num?
            && (Truthy(Field(page, "title")) ==> Field(r, "title") == Field(page, "title"))
            && (Field(page, "order").Num? ==> Field(r, "order") == Field(page, "order"))
            && (forall k :: k in page && k != "id" && k != "title" && k != "order" ==> k in r && r[k] == page[k])
  {
  }

  lemma RecordStep(pages: seq<Page>, used: set<string>, page: Page, id: string)
    requires IdsRecorded(pages, used) && id !in used && id != ""
    ensures IdsRecorded(pages + [Finish(page, id)], used + {id})
  {
    FinishFacts(page, id);
    var f := Finish(page, id);
    var r := pages + [f];
    forall i | 0 <= i < |r|
      ensures IdOf(r[i]).Str? && IdOf(r[i]).s in used + {id} && IdOf(r[i]).s != ""
      ensures Truthy(Field(r[i], "title")) && Field(r[i], "order").Num?
    {
      if i < |pages| {
        assert r[i] == pages[i];
      }
    }
    forall i, j | 0 <= i < j < |r| ensures IdOf(r[i]) != IdOf(r[j]) {
      assert r[i] == pages[i];
      if j == |pages| {
        assert IdOf(pages[i]).s in used;
      } else {
        assert r[j] == pages[j];
      }
    }
    forall k | k in used + {id} ensures exists i :: 0 <= i < |r| && IdOf(r[i]) == Str(k) {
      if k == id {
        assert IdOf(r[|pages|]) == Str(k);
      } else {
        var i :| 0 <= i < |pages| && IdOf(pages[i]) == Str(k);
        assert IdOf(r[i]) == Str(k);
      }
    }
  }

  /** Merged pages have distinct string ids, exactly the ids taken, each a
      truthy title and a numeric order. */
  lemma {:induction false} MergedPagesWellFormed(sources: seq<(Entry, Json)>, randomHex: nat -> string)
    ensures IdsRecorded(Merged(sources, randomHex).0, Merged(sources, randomHex).1)
  {
    if sources != [] {
      var n := |sources| - 1;
      var prefix, x := sources[..n], sources[n];
      SplitLast(sources);
      MergedStep(prefix, x, randomHex);
      MergedPagesWellFormed(prefix, randomHex);
      var prev := Merged(prefix, randomHex);
      var page := WithPrefix(PageObject(x.1), x.0);
      var id := AssignedId(prev.1, RawId(page), PageNamespace(x.0), randomHex(n));
      RecordStep(prev.0, prev.1, page, id);
      assert Merged(sources, randomHex) == (prev.0 + [Finish(page, id)], prev.1 + {id});
    }
  }

  /** A page keeps its raw id, trimmed, when no earlier page took it. */
  lemma FreeIdKept(sources: seq<(Entry, Json)>, randomHex: nat -> string)
    requires sources != []
    ensures var n := |sources| - 1;
            var page := WithPrefix(PageObject(sources[n].1), sources[n].0);
            var taken := Merged(sources[..n], randomHex).1;
            Trim(RawId(page)) != "" && Trim(RawId(page)) !in taken ==>
              IdOf(Merged(sources, randomHex).0[n]) == Str(Trim(RawId(page)))
  {
    var n := |sources| - 1;
    var page := WithPrefix(PageObject(sources[n].1), sources[n].0);
    var prev := Merged(sources[..n], randomHex);
    var id := AssignedId(prev.1, RawId(page), PageNamespace(sources[n].0), randomHex(n));
    SplitLast(sources);
    MergedStep(sources[..n], sources[n], randomHex);
    assert Merged(sources, randomHex).0 == prev.0 + [Finish(page, id)];
    if Trim(RawId(page)) != "" && Trim(RawId(page)) !in prev.1 {
      assert id == Trim(RawId(page));
      FinishFacts(page, id);
    }
  }

  /** The un-namespaced branch of `ensureUniquePageId` is reached only for a
      file without a namespace whose base name is empty or is `.json` in
      some letter case. */
  lemma NoNamespaceOnlyForBareFile(e: Entry)
    requires PageNamespace(e) == ""
    ensures e.namespace.None? || e.namespace.value == ""
    ensures LastSegment(e.file) == "" || ToLower(LastSegment(e.file)) == ".json"
  {
    var b := LastSegment(e.file);
    if |b| >= 5 && ToLower(b[|b| - 5..]) == ".json" {
      assert b[|b| - 5..] == b;
    }
  }

  // ---------------------------------------------------------------------------
  // The merge loop

  lemma SourcesStep(docs: seq<(Entry, Json)>, i: nat, initial: Json)
    requires i < |docs|
    ensures Sources(docs[..i + 1]) == Sources(docs[..i]) + PairAll(docs[i].0, PagesOfData(docs[i].1))
    ensures SiteTitleFold(Datas(docs[..i + 1]), initial)
            == TitleStep(SiteTitleFold(Datas(docs[..i]), initial), docs[i].1, initial)
  {
    assert docs[..i + 1][..i] == docs[..i];
    assert docs[..i + 1] == docs[..i] + [docs[i]];
    MapSeqSnoc((d: (Entry, Json)) => d.1, docs[..i], docs[i]);
    assert Datas(docs[..i + 1])[..i] == Datas(docs[..i]);
  }

  lemma PairAllEmpty(e: Entry, items: seq<Json>, before: seq<(Entry, Json)>)
    ensures before + PairAll(e, items[..0]) == before
  {
    assert items[..0] == [];
  }

  lemma TakeAll<T>(s: seq<T>)
    ensures s[..|s|] == s
  {
  }

  lemma PairAllStep(e: Entry, items: seq<Json>, j: nat, before: seq<(Entry, Json)>)
    requires j < |items|
    ensures before + PairAll(e, items[..j + 1]) == (before + PairAll(e, items[..j])) + [(e, items[j])]
  {
    assert items[..j + 1] == items[..j] + [items[j]];
    MapSeqSnoc((p: Json) => (e, p), items[..j], items[j]);
  }

  lemma SplitLast<T>(s: seq<T>)
    requires s != []
    ensures s == s[..|s| - 1] + [s[|s| - 1]]
  {
  }

  lemma MergedStep(sources: seq<(Entry, Json)>, x: (Entry, Json), randomHex: nat -> string)
    ensures var prev := Merged(sources, randomHex);
            var page := WithPrefix(PageObject(x.1), x.0);
            var id := AssignedId(prev.1, RawId(page), PageNamespace(x.0), randomHex(|sources|));
            Merged(sources + [x], randomHex) == (prev.0 + [Finish(page, id)], prev.1 + {id})
  {
    var s := sources + [x];
    assert s[..|s| - 1] == sources;
    assert s[|s| - 1] == x;
  }

  /** The body of `pages.forEach` in `loadAllDocs`: one page item of a file
      copied, given the file's path prefix, a unique id, a title and an order. */
  method MergePage(usedIds: UsedIds, entry: Entry, item: Json, randomHex: string) returns (page: Page)
    modifies usedIds
    ensures var p := WithPrefix(PageObject(item), entry);
            var id := AssignedId(old(usedIds.ids), RawId(p), PageNamespace(entry), randomHex);
            page == Finish(p, id) && usedIds.ids == old(usedIds.ids) + {id}
  {
    page := PageObject(item);
    if entry.pathPrefix.Some? && |entry.pathPrefix.value| > 0 {
      page := page["path" := PathJson(entry.pathPrefix.value + NormalizePath(Field(page, "path")))];
    }
    var ns := if entry.namespace.Some? then entry.namespace.value else "";
    if ns == "" {
      ns := StripJsonSuffix(LastSegment(entry.file));
    }
    assert ns == PageNamespace(entry);
    assert page == WithPrefix(PageObject(item), entry);
    var id := usedIds.EnsureUniquePageId(RawId(page), ns, randomHex);
    page := FinishPage(page, id);
  }

  /** The end of the `pages.forEach` body: the id set, and a missing title or
      order filled in. */
  method FinishPage(page0: Page, id: string) returns (page: Page)
    ensures page == Finish(page0, id)
  {
    page := page0["id" := Str(id)];
    ghost var withId := page;
    if !Truthy(Field(page, "title")) {
      page := page["title" := Str(id)];
    }
    ghost var withTitle := page;
    assert withTitle == if Truthy(Field(withId, "title")) then withId else withId["title" := Str(id)];
    if !Field(page, "order").Num? {
      page := page["order" := Num(DefaultOrder)];
    }
  }

  /** The inner `pages.forEach` of `loadAllDocs`: the pages of one file
      merged after the ones before. */
  method MergeFile(usedIds: UsedIds, entry: Entry, items: seq<Json>, randomHex: nat -> string,
                   ghost done: seq<(Entry, Json)>, pages0: seq<Page>)
    returns (pages: seq<Page>)
    modifies usedIds
    requires (pages0, usedIds.ids) == Merged(done, randomHex)
    ensures (pages, usedIds.ids) == Merged(done + PairAll(entry, items), randomHex)
  {
    pages := pages0;
    ghost var src := done;
    PairAllEmpty(entry, items, done);
    var j := 0;
    while j < |items|
      invariant 0 <= j <= |items|
      invariant src == done + PairAll(entry, items[..j])
      invariant (pages, usedIds.ids) == Merged(src, randomHex)
    {
      PairAllStep(entry, items, j, done);
      MergedStep(src, (entry, items[j]), randomHex);
      var page := MergePage(usedIds, entry, items[j], randomHex(|pages|));
      pages := pages + [page];
      src := src + [(entry, items[j])];
      j := j + 1;
    }
    TakeAll(items);
  }

  /** The two `forEach` loops of `loadAllDocs` over the fetched files, each
      paired with its manifest entry: the merged pages and the site title. */
  method MergeDocs(docs: seq<(Entry, Json)>, initial: Json, randomHex: nat -> string)
    returns (siteTitle: Json, pages: seq<Page>)
    ensures siteTitle == SiteTitleFold(Datas(docs), initial)
    ensures pages == Merged(Sources(docs), randomHex).0
  {
    var usedIds := new UsedIds();
    siteTitle := initial;
    pages := [];
    var i := 0;
    while i < |docs|
      invariant 0 <= i <= |docs|
      invariant siteTitle == SiteTitleFold(Datas(docs[..i]), initial)
      invariant (pages, usedIds.ids) == Merged(Sources(docs[..i]), randomHex)
    {
      var entry := docs[i].0;
      var data := docs[i].1;
      SourcesStep(docs, i, initial);
      ghost var done := Sources(docs[..i]);
      if !Truthy(siteTitle) && Truthy(Get(data, "siteTitle")) {
        siteTitle := Get(data, "siteTitle");
      }
      if Truthy(Get(data, "siteTitle")) && siteTitle == initial {
        siteTitle := Get(data, "siteTitle");
      }
      pages := MergeFile(usedIds, entry, PagesOfData(data), randomHex, done, pages);
      i := i + 1;
    }
    TakeAll(docs);
  }

  // ---------------------------------------------------------------------------
  // loadAllDocs

  /** `Promise.all` over the files of the manifest: every file fetched, or
      the url of a file that failed. */
  function FetchAll(entries: seq<Entry>, docsDir: string, fetch: string -> Option<Json>)
    : (r: Result<seq<(Entry, Json)>, string>)
    ensures r.Ok? <==> forall k :: 0 <= k < |entries| ==> fetch(JoinUrl(docsDir, entries[k].file)).Some?
    ensures r.Ok? ==> |r.value| == |entries| && forall k :: 0 <= k < |entries| ==>
              r.value[k] == (entries[k], fetch(JoinUrl(docsDir, entries[k].file)).value)
    ensures r.Err? ==> exists k :: 0 <= k < |entries| && r.error == JoinUrl(docsDir, entries[k].file)
                                   && fetch(r.error).None?
  {
    if entries == [] then Ok([])
    else
      var url := JoinUrl(docsDir, entries[0].file);
      match fetch(url)
      case None => Err(url)
      case Some(data) =>
        match FetchAll(entries[1..], docsDir, fetch)
        case Err(u) => Err(u)
        case Ok(rest) => Ok([(entries[0], data)] + rest)
  }

  /** The url of the manifest. */
  function IndexUrl(options: Options): string {
    var docsDir := if options.docsDir != "" then options.docsDir else "./docs";
    if options.docsIndexUrl != "" then options.docsIndexUrl else JoinUrl(docsDir, "docs_index.json")
  }

  /** Whether a multi-file load succeeds: the manifest is fetched and
      accepted, and every file it lists is fetched. */
  predicate MultiLoads(options: Options, fetch: string -> Option<Json>) {
    var docsDir := if options.docsDir != "" then options.docsDir else "./docs";
    && fetch(IndexUrl(options)).Some?
    && ParseDocsIndex(fetch(IndexUrl(options)).value).Ok?
    && FetchAll(ParseDocsIndex(fetch(IndexUrl(options)).value).value, docsDir, fetch).Ok?
  }

  /** The files a successful multi-file load fetched, in manifest order. */
  function MultiDocs(options: Options, fetch: string -> Option<Json>): seq<(Entry, Json)>
    requires MultiLoads(options, fetch)
  {
    var docsDir := if options.docsDir != "" then options.docsDir else "./docs";
    FetchAll(ParseDocsIndex(fetch(IndexUrl(options)).value).value, docsDir, fetch).value
  }

  /** The pages as JSON objects. */
  function AsObjects(pages: seq<Page>): seq<Json> {
    MapSeq((p: Page) => Obj(p), pages)
  }

  /** Loaded pages: objects with distinct string ids, truthy titles and
      numeric orders. */
  ghost predicate LoadedPagesWellFormed(pages: seq<Json>) {
    && (forall i :: 0 <= i < |pages| ==>
          pages[i].Obj? && Get(pages[i], "id").Str? && Truthy(Get(pages[i], "title")) && Get(pages[i], "order").Num?)
    && (forall i, j :: 0 <= i < j < |pages| ==> Get(pages[i], "id") != Get(pages[j], "id"))
  }

  lemma AsObjectsWellFormed(pages: seq<Page>, used: set<string>)
    requires IdsRecorded(pages, used)
    ensures LoadedPagesWellFormed(AsObjects(pages))
  {
    var objects := AsObjects(pages);
    forall i | 0 <= i < |objects| ensures objects[i] == Obj(pages[i]) {
      MapSeqIndex((p: Page) => Obj(p), pages, i);
    }
  }

  /** `loadAllDocs(options)`. With `jsonUrl`, the one document's title and
      pages as they are; otherwise the manifest's files merged, every page
      with a unique string id, a title and an order, and the site title the
      first file-supplied one that differs from the initial title. */
  method LoadAllDocs(options: Options, fetch: string -> Option<Json>, randomHex: nat -> string)
    returns (r: Result<Docs, LoadError>)
    ensures options.jsonUrl != "" ==>
              (r.Ok? <==> fetch(options.jsonUrl).Some? && !fetch(options.jsonUrl).value.Null?)
    ensures options.jsonUrl != "" && r.Ok? ==>
              && r.value.pages == PagesOfData(fetch(options.jsonUrl).value)
              && r.value.siteTitle == Or(Or(Get(fetch(options.jsonUrl).value, "siteTitle"), options.title), Str(DefaultSiteTitle))
              && Truthy(r.value.siteTitle)
    ensures options.jsonUrl == "" ==> (r.Ok? <==> MultiLoads(options, fetch))
    ensures options.jsonUrl == "" && r.Ok? ==>
              && LoadedPagesWellFormed(r.value.pages)
              && r.value.pages == AsObjects(Merged(Sources(MultiDocs(options, fetch)), randomHex).0)
              && r.value.siteTitle == SiteTitleFold(Datas(MultiDocs(options, fetch)), Or(options.title, Str(DefaultSiteTitle)))
  {
    if options.jsonUrl != "" {
      var single := fetch(options.jsonUrl);
      if single.None? {
        return Err(FetchFailed(options.jsonUrl));
      }
      if single.value.Null? {
        return Err(NullDocument);
      }
      var title := Or(Or(Get(single.value, "siteTitle"), options.title), Str(DefaultSiteTitle));
      return Ok(Docs(title, PagesOfData(single.value)));
    }
    var docsDir := if options.docsDir != "" then options.docsDir else "./docs";
    var indexUrl := IndexUrl(options);
    var index := fetch(indexUrl);
    if index.None? {
      return Err(FetchFailed(indexUrl));
    }
    var entries := ParseDocsIndex(index.value);
    if entries.Err? {
      return Err(BadManifest(entries.error));
    }
    var fetched := FetchAll(entries.value, docsDir, fetch);
    if fetched.Err? {
      return Err(FetchFailed(fetched.error));
    }
    var siteTitle, pages := MergeDocs(fetched.value, Or(options.title, Str(DefaultSiteTitle)), randomHex);
    MergedPagesWellFormed(Sources(fetched.value), randomHex);
    AsObjectsWellFormed(pages, Merged(Sources(fetched.value), randomHex).1);
    return Ok(Docs(siteTitle, AsObjects(pages)));
  }
}
