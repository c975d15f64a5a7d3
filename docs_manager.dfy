/** The older documentation viewer of js/docs.js, `DocumentationManager`:
    sections gathered from a list of JSON files, a flat search index over
    their articles, a substring search over that index, and hash navigation
    between articles. The network is a parameter: the outcome of the request
    for the file list and, per URL, the parsed body of a file or nothing. */
module DocsManager {
  import opened Wrappers
  import opened Text
  import opened Json
  import opened Sorting

  /** `x.name` throws on exactly these two values. */
  predicate Nullish(j: Json) {
    j.Undefined? || j.Null?
  }

  // ---------------------------------------------------------------------------
  // extractTextContent

  /** One element as `Array.prototype.join` writes it: null and undefined as
      nothing, anything else as `String(x)`. */
  function JoinPiece(j: Json): string {
    if Nullish(j) then "" else ToJsString(j)
  }

  function JoinPieces(items: seq<Json>): (r: seq<string>)
    ensures |r| == |items|
    ensures forall i :: 0 <= i < |items| ==> r[i] == JoinPiece(items[i])
  {
    if items == [] then [] else [JoinPiece(items[0])] + JoinPieces(items[1..])
  }

  /** What the `map` callback of `extractTextContent` returns for one block:
      the text of a paragraph or heading, the items of a list joined by
      spaces, the code of a code block, and `""` for any other block. `None`
      where it throws: on a null block, and on a list whose `items` is not an
      array. */
  function BlockText(block: Json): Option<Json> {
    if Nullish(block) then None
    else
      var kind := Get(block, "type");
      if kind == Str("paragraph") || kind == Str("heading") then Some(Get(block, "text"))
      else if kind == Str("list") then
        var items := Get(block, "items");
        if items.Arr? then Some(Str(Join(JoinPieces(items.items), " "))) else None
      else if kind == Str("code") then Some(Get(block, "code"))
      else Some(Str(""))
  }

  /** The `map` over all blocks: `None` as soon as one block throws. */
  function BlockTexts(blocks: seq<Json>): Option<seq<Json>> {
    if blocks == [] then Some([])
    else
      match (BlockText(blocks[0]), BlockTexts(blocks[1..]))
      case (Some(t), Some(ts)) => Some([t] + ts)
      case _ => None
  }

  /** `extractTextContent(content)`: the block texts joined by spaces and
      lower-cased. `None` where it throws, which includes a `content` that is
      not an array. */
  function ExtractTextContent(content: Json): Option<string> {
    if !content.Arr? then None
    else
      match BlockTexts(content.items)
      case None => None
      case Some(texts) => Some(ToLower(Join(JoinPieces(texts), " ")))
  }

  /** The block texts exist exactly when no block throws, one per block. */
  lemma {:induction false} BlockTextsSpec(blocks: seq<Json>)
    ensures BlockTexts(blocks).Some? <==> forall i :: 0 <= i < |blocks| ==> BlockText(blocks[i]).Some?
    ensures BlockTexts(blocks).Some? ==>
              && |BlockTexts(blocks).value| == |blocks|
              && forall i :: 0 <= i < |blocks| ==> BlockTexts(blocks).value[i] == BlockText(blocks[i]).value
  {
    if blocks != [] {
      BlockTextsSpec(blocks[1..]);
      if BlockTexts(blocks).Some? {
        var ts := BlockTexts(blocks).value;
        forall i | 0 <= i < |blocks| ensures BlockText(blocks[i]).Some? && ts[i] == BlockText(blocks[i]).value {
          if i > 0 {
            assert blocks[1..][i - 1] == blocks[i];
          }
        }
      } else if BlockText(blocks[0]).Some? {
        var i :| 0 <= i < |blocks| - 1 && BlockText(blocks[1..][i]).None?;
        assert BlockText(blocks[i + 1]).None?;
      }
    }
  }

  /** Extraction fails exactly when the content is not an array or one of
      its blocks throws. */
  lemma ExtractFails(content: Json)
    ensures ExtractTextContent(content).None? <==>
              (!content.Arr? || exists i :: 0 <= i < |content.items| && BlockText(content.items[i]).None?)
  {
    if content.Arr? {
      BlockTextsSpec(content.items);
    }
  }

  /** Each part of a join occurs in it. */
  lemma {:induction false} JoinHolds(parts: seq<string>, sep: string, i: int)
    requires 0 <= i < |parts|
    ensures exists off :: MatchAt(Join(parts, sep), parts[i], off)
  {
    var j := Join(parts, sep);
    if |parts| == 1 {
      assert j[0..|parts[0]|] == parts[0];
      assert MatchAt(j, parts[i], 0);
    } else if i == 0 {
      assert j == parts[0] + (sep + Join(parts[1..], sep));
      assert j[0..|parts[0]|] == parts[0];
      assert MatchAt(j, parts[i], 0);
    } else {
      JoinHolds(parts[1..], sep, i - 1);
      var rest := Join(parts[1..], sep);
      var off :| MatchAt(rest, parts[1..][i - 1], off);
      var pre := parts[0] + sep;
      assert j == pre + rest;
      assert j[|pre| + off..|pre| + off + |parts[i]|] == rest[off..off + |parts[i]|];
      assert MatchAt(j, parts[i], |pre| + off);
    }
  }

  /** A match survives lower-casing both sides. */
  lemma MatchLowered(s: string, m: string, off: int)
    requires MatchAt(s, m, off)
    ensures MatchAt(ToLower(s), ToLower(m), off)
  {
    LowerOfSlice(s, off, off + |m|);
  }

  /** Every block's text, lower-cased, can be found in the extracted content:
      this is what makes an article searchable by the words of its blocks. */
  lemma ExtractHoldsBlock(blocks: seq<Json>, i: int)
    requires ExtractTextContent(Arr(blocks)).Some? && 0 <= i < |blocks|
    ensures BlockText(blocks[i]).Some?
    ensures Contains(ExtractTextContent(Arr(blocks)).value, ToLower(JoinPiece(BlockText(blocks[i]).value)))
  {
    BlockTextsSpec(blocks);
    var texts := BlockTexts(blocks).value;
    var pieces := JoinPieces(texts);
    var joined := Join(pieces, " ");
    assert pieces[i] == JoinPiece(BlockText(blocks[i]).value);
    JoinHolds(pieces, " ", i);
    var off :| MatchAt(joined, pieces[i], off);
    MatchLowered(joined, pieces[i], off);
    ContainsMeansMatch(ToLower(joined), ToLower(pieces[i]));
  }

  /** The extracted content is lower-case. */
  lemma ExtractIsLower(content: Json)
    requires ExtractTextContent(content).Some?
    ensures IsLower(ExtractTextContent(content).value)
  {
    var texts := BlockTexts(content.items).value;
    ToLowerIsLower(Join(JoinPieces(texts), " "));
  }

  // ---------------------------------------------------------------------------
  // loadDocumentation

  /** How the request for `./docs/index.json` ended: it threw (also when the
      body is not JSON), it answered with a status that is not ok, or it gave
      a parsed body. */
  datatype IndexFetch = IndexThrew | IndexNotOk | IndexOk(data: Json)

  /** The built-in file list used when the index request throws. */
  const FallbackFiles: seq<Json> := [
    Str("introduction.json"), Str("architecture.json"), Str("user-guide.json"),
    Str("api.json"), Str("pricing.json"), Str("support.json")
  ]

  /** `docFiles`: `indexData.files || indexData.documentation || []`, the
      built-in list when the request throws or the body is `null` (reading a
      field of it throws inside the same `try`), and an empty list for a
      response that is not ok. `None` when the list is not an array, where
      `docFiles.map` throws. */
  function DocFiles(index: IndexFetch): Option<seq<Json>> {
    match index
    case IndexThrew => Some(FallbackFiles)
    case IndexNotOk => Some([])
    case IndexOk(data) =>
      if data.Null? then Some(FallbackFiles)
      else
        var list := Or(Get(data, "files"), Or(Get(data, "documentation"), Arr([])));
        if list.Arr? then Some(list.items) else None
  }

  /** The body fetched for each file name, from `./docs/<name>`; `fetch`
      gives nothing where the response is not ok or the request throws. */
  function Bodies(files: seq<Json>, fetch: string -> Option<Json>): (r: seq<Option<Json>>)
    ensures |r| == |files|
  {
    if files == [] then [] else [fetch("./docs/" + ToJsString(files[0]))] + Bodies(files[1..], fetch)
  }

  /** The branch of the merge loop a file body takes. */
  datatype Shape = Throws | SectionArray(items: seq<Json>) | OneSection(section: Json) | WholeFile | Unknown

  function ShapeOf(data: Json): Shape {
    if Nullish(data) then Throws
    else if Get(data, "sections").Arr? then SectionArray(Get(data, "sections").items)
    else if Truthy(Get(data, "section")) then OneSection(Get(data, "section"))
    else if Truthy(Get(data, "id")) && Truthy(Get(data, "title")) then WholeFile
    else Unknown
  }

  /** The sections a file body adds. */
  function Contribution(data: Json): seq<Json> {
    match ShapeOf(data)
    case SectionArray(items) => items
    case OneSection(s) => [s]
    case WholeFile => [data]
    case _ => []
  }

  lemma ShapeContribution(data: Json)
    ensures ShapeOf(data).SectionArray? ==> Contribution(data) == ShapeOf(data).items && Recognised(data)
    ensures ShapeOf(data).OneSection? ==> Contribution(data) == [ShapeOf(data).section] && Recognised(data)
    ensures ShapeOf(data).WholeFile? ==> Contribution(data) == [data] && Recognised(data)
    ensures ShapeOf(data).Unknown? ==> Contribution(data) == [] && !Recognised(data)
  {
  }

  /** A body of one of the three known shapes, counted in `loadedFiles`. */
  predicate Recognised(data: Json) {
    ShapeOf(data).SectionArray? || ShapeOf(data).OneSection? || ShapeOf(data).WholeFile?
  }

  /** What the merge loop has gathered: the sections, the `loadedFiles`
      counter, and whether it is still running (`false` once a body threw). */
  datatype Gathered = Gathered(sections: seq<Json>, loaded: nat, ok: bool)

  /** The merge loop over the bodies, in file-list order. */
  function Gather(bodies: seq<Option<Json>>): Gathered {
    if bodies == [] then Gathered([], 0, true)
    else
      var prev := Gather(bodies[..|bodies| - 1]);
      var body := bodies[|bodies| - 1];
      if !prev.ok || body.None? then prev
      else if ShapeOf(body.value).Throws? then prev.(ok := false)
      else Gathered(prev.sections + Contribution(body.value),
                    prev.loaded + (if Recognised(body.value) then 1 else 0), true)
  }

  lemma GatherUnfold(bodies: seq<Option<Json>>, i: int)
    requires 0 <= i < |bodies|
    ensures var prev := Gather(bodies[..i]);
            Gather(bodies[..i + 1])
            == if !prev.ok || bodies[i].None? then prev
               else if ShapeOf(bodies[i].value).Throws? then prev.(ok := false)
               else Gathered(prev.sections + Contribution(bodies[i].value),
                             prev.loaded + (if Recognised(bodies[i].value) then 1 else 0), true)
  {
    assert bodies[..i + 1][..i] == bodies[..i];
  }

  /** One recognised or unknown body carries the merge loop's state from
      `i` to `i + 1`. */
  lemma GatherStep(bodies: seq<Option<Json>>, i: int, sections': seq<Json>, loaded': nat)
    requires 0 <= i < |bodies| && bodies[i].Some? && !ShapeOf(bodies[i].value).Throws?
    requires Gather(bodies[..i]).ok
    requires || sections' == Gather(bodies[..i]).sections + Contribution(bodies[i].value)
             || (Contribution(bodies[i].value) == [] && sections' == Gather(bodies[..i]).sections)
    requires loaded' == Gather(bodies[..i]).loaded + (if Recognised(bodies[i].value) then 1 else 0)
    ensures Gather(bodies[..i + 1]) == Gathered(sections', loaded', true)
  {
    GatherUnfold(bodies, i);
    assert Gather(bodies[..i]).sections + [] == Gather(bodies[..i]).sections;
  }

  /** Once a body has thrown, the later ones change nothing. */
  lemma {:induction false} GatherStuck(bodies: seq<Option<Json>>, i: int)
    requires 0 <= i <= |bodies| && !Gather(bodies[..i]).ok
    ensures Gather(bodies) == Gather(bodies[..i])
    decreases |bodies| - i
  {
    if i == |bodies| {
      assert bodies[..i] == bodies;
    } else {
      GatherUnfold(bodies, i);
      GatherStuck(bodies, i + 1);
    }
  }

  /** `loadedFiles` counts files, so it never exceeds their number. */
  lemma {:induction false} GatherLoaded(bodies: seq<Option<Json>>)
    ensures Gather(bodies).loaded <= |bodies|
  {
    if bodies != [] {
      GatherLoaded(bodies[..|bodies| - 1]);
    }
  }

  /** The merge completes exactly when no fetched body is `null`. */
  lemma {:induction false} GatherOk(bodies: seq<Option<Json>>)
    ensures Gather(bodies).ok <==>
              forall i :: 0 <= i < |bodies| && bodies[i].Some? ==> !ShapeOf(bodies[i].value).Throws?
  {
    if bodies != [] {
      var n := |bodies| - 1;
      GatherOk(bodies[..n]);
      if Gather(bodies).ok {
        forall i | 0 <= i < |bodies| && bodies[i].Some? ensures !ShapeOf(bodies[i].value).Throws? {
          if i < n {
            assert bodies[..n][i] == bodies[i];
          }
        }
      } else if Gather(bodies[..n]).ok {
        assert bodies[n].Some? && ShapeOf(bodies[n].value).Throws?;
      } else {
        var i :| 0 <= i < n && bodies[..n][i].Some? && ShapeOf(bodies[..n][i].value).Throws?;
        assert bodies[i] == bodies[..n][i];
      }
    }
  }

  /** Sections are only ever appended: what the first `i` files gave stays a
      prefix of the whole. */
  lemma {:induction false} GatherPrefix(bodies: seq<Option<Json>>, i: int)
    requires 0 <= i <= |bodies|
    ensures Gather(bodies[..i]).sections <= Gather(bodies).sections
    decreases |bodies| - i
  {
    if i == |bodies| {
      assert bodies[..i] == bodies;
    } else {
      GatherUnfold(bodies, i);
      GatherPrefix(bodies, i + 1);
    }
  }

  /** A completed merge keeps every file in file-list order: the sections of
      file `i` come right after those of the files before it. */
  lemma GatherOrder(bodies: seq<Option<Json>>, i: int)
    requires Gather(bodies).ok && 0 <= i < |bodies| && bodies[i].Some?
    ensures Gather(bodies[..i]).sections + Contribution(bodies[i].value) <= Gather(bodies).sections
  {
    GatherOkPrefix(bodies, i);
    GatherOkPrefix(bodies, i + 1);
    GatherUnfold(bodies, i);
    assert Gather(bodies[..i + 1]).sections == Gather(bodies[..i]).sections + Contribution(bodies[i].value);
    GatherPrefix(bodies, i + 1);
  }

  /** A merge that completed also completed on every prefix of the bodies. */
  lemma {:induction false} GatherOkPrefix(bodies: seq<Option<Json>>, i: int)
    requires 0 <= i <= |bodies|
    ensures Gather(bodies).ok ==> Gather(bodies[..i]).ok
    decreases |bodies| - i
  {
    if i == |bodies| {
      assert bodies[..i] == bodies;
    } else {
      GatherUnfold(bodies, i);
      GatherOkPrefix(bodies, i + 1);
    }
  }

  /** `(a.order || 999)`: a missing, zero or false order ranks 999. */
  function SectionRank(section: Json): int {
    var order := Get(section, "order");
    if !Truthy(order) then 999
    else if order.Num? then order.n
    else if order == Bool(true) then 1
    else 999
  }

  /** The comparator `(a, b) => rank(a) - rank(b)`. */
  function SectionLe(a: Json, b: Json): bool {
    SectionRank(a) <= SectionRank(b)
  }

  /** The sort calls the comparator on every element once there are two of
      them, and reading `order` of a `null` section throws. */
  predicate SortThrows(sections: seq<Json>) {
    |sections| >= 2 && exists i :: 0 <= i < |sections| && sections[i].Null?
  }

  /** What `loadDocumentation` leaves in `docsData.sections`, the
      `loadedFiles` counter, and whether it returned without throwing. */
  datatype Loaded = Loaded(sections: seq<Json>, loaded: nat, ok: bool)

  function Load(index: IndexFetch, fetch: string -> Option<Json>): Loaded {
    match DocFiles(index)
    case None => Loaded([], 0, false)
    case Some(files) =>
      var g := Gather(Bodies(files, fetch));
      if !g.ok || g.sections == [] || SortThrows(g.sections) then Loaded(g.sections, g.loaded, false)
      else Loaded(SortBy(g.sections, SectionLe), g.loaded, true)
  }

  /** `Load` once the file list is known to be an array. */
  lemma LoadGathered(index: IndexFetch, fetch: string -> Option<Json>, files: seq<Json>, bodies: seq<Option<Json>>)
    requires DocFiles(index) == Some(files) && bodies == Bodies(files, fetch)
    ensures var g := Gather(bodies[..|bodies|]);
            Load(index, fetch)
            == if !g.ok || g.sections == [] || SortThrows(g.sections) then Loaded(g.sections, g.loaded, false)
               else Loaded(SortBy(g.sections, SectionLe), g.loaded, true)
  {
    assert bodies[..|bodies|] == bodies;
  }

  lemma SectionLeTotal()
    ensures TotalPreorder(SectionLe)
  {
  }

  /** A successful load holds at least one section, the gathered sections
      reordered by ascending rank, the files' counter bounded by their
      number. */
  lemma LoadOk(index: IndexFetch, fetch: string -> Option<Json>)
    requires Load(index, fetch).ok
    ensures var files := DocFiles(index).value;
            var g := Gather(Bodies(files, fetch));
            && Load(index, fetch).sections != []
            && multiset(Load(index, fetch).sections) == multiset(g.sections)
            && Sorted(Load(index, fetch).sections, SectionLe)
            && Load(index, fetch).loaded <= |files|
  {
    var files := DocFiles(index).value;
    var g := Gather(Bodies(files, fetch));
    SectionLeTotal();
    SortBySorted(g.sections, SectionLe);
    GatherLoaded(Bodies(files, fetch));
  }

  /** An index response that is not ok gives an empty file list, and so the
      load fails; the built-in list is used only when the request throws. */
  lemma NotOkIndexFails(fetch: string -> Option<Json>)
    ensures !Load(IndexNotOk, fetch).ok
    ensures DocFiles(IndexThrew) == Some(FallbackFiles)
  {
    assert Bodies([], fetch) == [];
  }

  // ---------------------------------------------------------------------------
  // buildSearchIndex

  /** One entry of `searchIndex`. */
  datatype SearchEntry = SearchEntry(id: Json, title: Json, description: Json, section: Json,
                                     content: string, url: string)

  /** `#<section id>/<article id>`. */
  function ArticleUrl(section: Json, article: Json): string {
    "#" + ToJsString(Get(section, "id")) + "/" + ToJsString(Get(article, "id"))
  }

  /** The entry pushed for one article; `None` where building it throws. */
  function EntryOf(section: Json, article: Json): Option<SearchEntry> {
    if Nullish(article) then None
    else
      match ExtractTextContent(Get(article, "content"))
      case None => None
      case Some(text) =>
        Some(SearchEntry(Get(article, "id"), Get(article, "title"), Get(article, "description"),
                         Get(section, "title"), text, ArticleUrl(section, article)))
  }

  /** Entries pushed so far and whether the loop is still running. */
  datatype Indexed = Indexed(entries: seq<SearchEntry>, ok: bool)

  /** The inner `forEach` over the articles of one section. */
  function IndexArticles(section: Json, articles: seq<Json>): Indexed {
    if articles == [] then Indexed([], true)
    else
      var prev := IndexArticles(section, articles[..|articles| - 1]);
      if !prev.ok then prev
      else
        match EntryOf(section, articles[|articles| - 1])
        case None => prev.(ok := false)
        case Some(e) => Indexed(prev.entries + [e], true)
  }

  /** The outer `forEach` over the sections: a null section, or one whose
      `articles` is not an array, throws. */
  function IndexSections(sections: seq<Json>): Indexed {
    if sections == [] then Indexed([], true)
    else
      var prev := IndexSections(sections[..|sections| - 1]);
      var section := sections[|sections| - 1];
      if !prev.ok then prev
      else if Nullish(section) || !Get(section, "articles").Arr? then prev.(ok := false)
      else
        var run := IndexArticles(section, Get(section, "articles").items);
        Indexed(prev.entries + run.entries, run.ok)
  }

  lemma IndexArticlesUnfold(section: Json, articles: seq<Json>, j: int)
    requires 0 <= j < |articles|
    ensures var prev := IndexArticles(section, articles[..j]);
            IndexArticles(section, articles[..j + 1])
            == if !prev.ok then prev
               else match EntryOf(section, articles[j])
                    case None => prev.(ok := false)
                    case Some(e) => Indexed(prev.entries + [e], true)
  {
    assert articles[..j + 1][..j] == articles[..j];
  }

  lemma {:induction false} IndexArticlesStuck(section: Json, articles: seq<Json>, j: int)
    requires 0 <= j <= |articles| && !IndexArticles(section, articles[..j]).ok
    ensures IndexArticles(section, articles) == IndexArticles(section, articles[..j])
    decreases |articles| - j
  {
    if j == |articles| {
      assert articles[..j] == articles;
    } else {
      IndexArticlesUnfold(section, articles, j);
      IndexArticlesStuck(section, articles, j + 1);
    }
  }

  lemma IndexSectionsUnfold(sections: seq<Json>, i: int)
    requires 0 <= i < |sections|
    ensures var prev := IndexSections(sections[..i]);
            var section := sections[i];
            IndexSections(sections[..i + 1])
            == if !prev.ok then prev
               else if Nullish(section) || !Get(section, "articles").Arr? then prev.(ok := false)
               else
                 var run := IndexArticles(section, Get(section, "articles").items);
                 Indexed(prev.entries + run.entries, run.ok)
  {
    assert sections[..i + 1][..i] == sections[..i];
  }

  lemma {:induction false} IndexSectionsStuck(sections: seq<Json>, i: int)
    requires 0 <= i <= |sections| && !IndexSections(sections[..i]).ok
    ensures IndexSections(sections) == IndexSections(sections[..i])
    decreases |sections| - i
  {
    if i == |sections| {
      assert sections[..i] == sections;
    } else {
      IndexSectionsUnfold(sections, i);
      IndexSectionsStuck(sections, i + 1);
    }
  }

  /** One more article's entry pushed by the inner loop of `buildSearchIndex`. */
  lemma ArticleStep(section: Json, articles: seq<Json>, j: int, before: seq<SearchEntry>,
                    index: seq<SearchEntry>, e: SearchEntry, index': seq<SearchEntry>)
    requires 0 <= j < |articles| && IndexArticles(section, articles[..j]).ok
    requires index == before + IndexArticles(section, articles[..j]).entries
    requires EntryOf(section, articles[j]) == Some(e) && index' == index + [e]
    ensures IndexArticles(section, articles[..j + 1]).ok
    ensures index' == before + IndexArticles(section, articles[..j + 1]).entries
  {
    IndexArticlesUnfold(section, articles, j);
  }

  /** An article whose entry throws ends `buildSearchIndex` with the entries
      pushed before it. */
  lemma ArticleThrows(sections: seq<Json>, i: int, j: int, index: seq<SearchEntry>)
    requires 0 <= i < |sections| && IndexSections(sections[..i]).ok
    requires !Nullish(sections[i]) && Get(sections[i], "articles").Arr?
    requires var articles := Get(sections[i], "articles").items;
             && 0 <= j < |articles| && IndexArticles(sections[i], articles[..j]).ok
             && index == IndexSections(sections[..i]).entries + IndexArticles(sections[i], articles[..j]).entries
             && EntryOf(sections[i], articles[j]).None?
    ensures IndexSections(sections) == Indexed(index, false)
  {
    var articles := Get(sections[i], "articles").items;
    IndexArticlesUnfold(sections[i], articles, j);
    IndexArticlesStuck(sections[i], articles, j + 1);
    IndexSectionsUnfold(sections, i);
    IndexSectionsStuck(sections, i + 1);
  }

  /** A null section, or one whose `articles` is not an array, ends
      `buildSearchIndex` with the entries pushed before it. */
  lemma SectionThrows(sections: seq<Json>, i: int, index: seq<SearchEntry>)
    requires 0 <= i < |sections| && IndexSections(sections[..i]).ok
    requires index == IndexSections(sections[..i]).entries
    requires Nullish(sections[i]) || !Get(sections[i], "articles").Arr?
    ensures IndexSections(sections) == Indexed(index, false)
  {
    IndexSectionsUnfold(sections, i);
    IndexSectionsStuck(sections, i + 1);
  }

  /** A section whose articles all gave entries. */
  lemma SectionDone(sections: seq<Json>, i: int, index: seq<SearchEntry>)
    requires 0 <= i < |sections| && IndexSections(sections[..i]).ok
    requires !Nullish(sections[i]) && Get(sections[i], "articles").Arr?
    requires var articles := Get(sections[i], "articles").items;
             && IndexArticles(sections[i], articles[..|articles|]).ok
             && index == IndexSections(sections[..i]).entries + IndexArticles(sections[i], articles[..|articles|]).entries
    ensures IndexSections(sections[..i + 1]) == Indexed(index, true)
  {
    var articles := Get(sections[i], "articles").items;
    assert articles[..|articles|] == articles;
    IndexSectionsUnfold(sections, i);
  }

  lemma SectionsDone(sections: seq<Json>, index: seq<SearchEntry>)
    requires IndexSections(sections[..|sections|]).ok && index == IndexSections(sections[..|sections|]).entries
    ensures IndexSections(sections) == Indexed(index, true)
  {
    assert sections[..|sections|] == sections;
  }

  /** A section's articles are all indexed exactly when none of their
      entries throws, and then there is one entry per article, in order. */
  lemma {:induction false} IndexArticlesSpec(section: Json, articles: seq<Json>)
    ensures IndexArticles(section, articles).ok <==>
              forall j :: 0 <= j < |articles| ==> EntryOf(section, articles[j]).Some?
    ensures IndexArticles(section, articles).ok ==>
              && |IndexArticles(section, articles).entries| == |articles|
              && forall j :: 0 <= j < |articles| ==>
                   IndexArticles(section, articles).entries[j] == EntryOf(section, articles[j]).value
  {
    if articles != [] {
      var n := |articles| - 1;
      var init := articles[..n];
      IndexArticlesSpec(section, init);
      var r := IndexArticles(section, articles);
      if r.ok {
        IndexArticlesOkStep(section, articles);
      } else if IndexArticles(section, init).ok {
        assert EntryOf(section, articles[n]).None?;
      } else {
        var j :| 0 <= j < n && EntryOf(section, init[j]).None?;
        assert init[j] == articles[j];
      }
    }
  }

  lemma IndexArticlesOkStep(section: Json, articles: seq<Json>)
    requires articles != [] && IndexArticles(section, articles).ok
    requires var init := articles[..|articles| - 1];
             && IndexArticles(section, init).ok
             && |IndexArticles(section, init).entries| == |init|
             && forall j :: 0 <= j < |init| ==>
                  EntryOf(section, init[j]).Some? && IndexArticles(section, init).entries[j] == EntryOf(section, init[j]).value
    ensures |IndexArticles(section, articles).entries| == |articles|
    ensures forall j :: 0 <= j < |articles| ==> EntryOf(section, articles[j]).Some?
    ensures forall j :: 0 <= j < |articles| ==>
              IndexArticles(section, articles).entries[j] == EntryOf(section, articles[j]).value
  {
    var n := |articles| - 1;
    var init := articles[..n];
    var prev := IndexArticles(section, init).entries;
    forall j | 0 <= j < n ensures EntryOf(section, articles[j]).Some? && prev[j] == EntryOf(section, articles[j]).value {
      assert init[j] == articles[j];
    }
    assert articles[|articles| - 1] == articles[n];
    var e := EntryOf(section, articles[n]);
    assert e.Some?;
    EntriesAppend(section, articles, prev, e.value, IndexArticles(section, articles).entries);
  }

  /** Entries that match the articles before the last, followed by the last
      article's entry, match all the articles. */
  lemma EntriesAppend(section: Json, articles: seq<Json>, prev: seq<SearchEntry>, e: SearchEntry, es: seq<SearchEntry>)
    requires articles != [] && |prev| == |articles| - 1
    requires forall j :: 0 <= j < |articles| - 1 ==>
               EntryOf(section, articles[j]).Some? && prev[j] == EntryOf(section, articles[j]).value
    requires EntryOf(section, articles[|articles| - 1]) == Some(e) && es == prev + [e]
    ensures |es| == |articles|
    ensures forall j :: 0 <= j < |articles| ==> EntryOf(section, articles[j]).Some? && es[j] == EntryOf(section, articles[j]).value
  {
    forall j | 0 <= j < |articles| ensures EntryOf(section, articles[j]).Some? && es[j] == EntryOf(section, articles[j]).value {
      if j < |prev| { assert es[j] == prev[j]; }
    }
  }

  /** The number of articles of sections whose `articles` are arrays. */
  function ArticleCount(sections: seq<Json>): nat {
    if sections == [] then 0
    else
      var section := sections[|sections| - 1];
      ArticleCount(sections[..|sections| - 1])
      + (if Get(section, "articles").Arr? then |Get(section, "articles").items| else 0)
  }

  /** A completed index has exactly one entry per article. */
  lemma {:induction false} IndexSectionsCount(sections: seq<Json>)
    requires IndexSections(sections).ok
    ensures |IndexSections(sections).entries| == ArticleCount(sections)
  {
    if sections != [] {
      var section := sections[|sections| - 1];
      IndexSectionsCount(sections[..|sections| - 1]);
      IndexArticlesSpec(section, Get(section, "articles").items);
    }
  }

  // ---------------------------------------------------------------------------
  // performSearch

  /** The text `performSearch` looks in: title, description and content,
      each written as a template literal writes it. */
  function SearchText(e: SearchEntry): string {
    ToJsString(e.title) + " " + ToJsString(e.description) + " " + e.content
  }

  predicate EntryMatches(e: SearchEntry, queryLower: string) {
    Contains(ToLower(SearchText(e)), queryLower)
  }

  /** `Array.prototype.filter`: the elements that pass `p`, in order. */
  function Filter<T>(xs: seq<T>, p: T -> bool): seq<T> {
    if xs == [] then [] else (if p(xs[0]) then [xs[0]] else []) + Filter(xs[1..], p)
  }

  /** The positions of the elements that pass `p`, ascending. */
  ghost function Positions<T>(xs: seq<T>, p: T -> bool): (ps: seq<int>)
    ensures |ps| <= |xs| && forall k :: 0 <= k < |ps| ==> 0 <= ps[k] < |xs|
  {
    if xs == [] then []
    else
      var n := |xs| - 1;
      Positions(xs[..n], p) + (if p(xs[n]) then [n] else [])
  }

  lemma {:induction false} FilterSpec<T>(xs: seq<T>, p: T -> bool)
    ensures forall e :: e in Filter(xs, p) <==> e in xs && p(e)
    ensures |Filter(xs, p)| <= |xs|
  {
    if xs != [] {
      FilterSpec(xs[1..], p);
      assert xs == [xs[0]] + xs[1..];
    }
  }

  lemma {:induction false} FilterConcat<T>(a: seq<T>, b: seq<T>, p: T -> bool)
    ensures Filter(a + b, p) == Filter(a, p) + Filter(b, p)
  {
    if a != [] {
      var ab := a + b;
      assert ab[0] == a[0];
      assert ab[1..] == a[1..] + b;
      FilterConcat(a[1..], b, p);
    } else {
      assert a + b == b;
    }
  }

  /** The positions are ascending and are exactly those of the elements that
      pass `p`. */
  lemma {:induction false} PositionsSpec<T>(xs: seq<T>, p: T -> bool)
    ensures forall k :: 0 <= k < |Positions(xs, p)| ==> p(xs[Positions(xs, p)[k]])
    ensures forall k, m :: 0 <= k < m < |Positions(xs, p)| ==> Positions(xs, p)[k] < Positions(xs, p)[m]
    ensures forall i :: 0 <= i < |xs| && p(xs[i]) ==> i in Positions(xs, p)
  {
    if xs != [] {
      var n := |xs| - 1;
      var init := xs[..n];
      PositionsSpec(init, p);
      var rest := Positions(init, p);
      var ps := rest + (if p(xs[n]) then [n] else []);
      assert Positions(xs, p) == ps;
      forall k | 0 <= k < |ps| ensures p(xs[ps[k]]) {
        if k < |rest| {
          assert ps[k] == rest[k] && xs[rest[k]] == init[rest[k]];
        } else {
          assert ps[k] == n;
        }
      }
      forall i | 0 <= i < |xs| && p(xs[i]) ensures i in ps {
        if i < n { assert init[i] == xs[i]; assert i in rest; } else { assert ps[|ps| - 1] == n; }
      }
    }
  }

  /** The filter's result is the input read at the passing positions. */
  lemma {:induction false} FilterAtPositions<T>(xs: seq<T>, p: T -> bool)
    ensures var ps := Positions(xs, p);
            && |Filter(xs, p)| == |ps|
            && forall k :: 0 <= k < |ps| ==> Filter(xs, p)[k] == xs[ps[k]]
  {
    if xs != [] {
      var n := |xs| - 1;
      var init, last := xs[..n], xs[n];
      assert xs == init + [last];
      FilterAtPositions(init, p);
      FilterConcat(init, [last], p);
      assert Filter([last], p) == if p(last) then [last] else [];
      var ps, rest := Positions(xs, p), Positions(init, p);
      forall k | 0 <= k < |ps| ensures Filter(xs, p)[k] == xs[ps[k]] {
        if k < |rest| {
          assert xs[rest[k]] == init[rest[k]];
        }
      }
    }
  }

  function MatchesQuery(queryLower: string): SearchEntry -> bool {
    e => EntryMatches(e, queryLower)
  }

  /** `filter` with the match test, in index order. */
  function Matching(index: seq<SearchEntry>, queryLower: string): seq<SearchEntry> {
    Filter(index, MatchesQuery(queryLower))
  }

  /** `performSearch(query)`: nothing for a blank query, otherwise the first
      five entries whose text holds the query, compared lower-cased. */
  function PerformSearch(index: seq<SearchEntry>, query: string): seq<SearchEntry> {
    if Trim(query) == "" then []
    else
      var hits := Matching(index, ToLower(query));
      if |hits| <= 5 then hits else hits[..5]
  }

  lemma MatchingSpec(index: seq<SearchEntry>, queryLower: string)
    ensures forall e :: e in Matching(index, queryLower) <==> e in index && EntryMatches(e, queryLower)
    ensures |Matching(index, queryLower)| <= |index|
  {
    FilterSpec(index, MatchesQuery(queryLower));
  }

  /** The filter keeps index order: matches of a concatenation are the
      matches of each part, one after the other. */
  lemma MatchingConcat(a: seq<SearchEntry>, b: seq<SearchEntry>, queryLower: string)
    ensures Matching(a + b, queryLower) == Matching(a, queryLower) + Matching(b, queryLower)
  {
    FilterConcat(a, b, MatchesQuery(queryLower));
  }

  /** The positions of the index entries that hold the query, ascending. */
  ghost function MatchPositions(index: seq<SearchEntry>, queryLower: string): seq<int> {
    Positions(index, MatchesQuery(queryLower))
  }

  /** The matching positions are in range, ascending, and are exactly the
      positions of the entries that hold the query. */
  lemma MatchPositionsSpec(index: seq<SearchEntry>, queryLower: string)
    ensures forall k :: 0 <= k < |MatchPositions(index, queryLower)| ==>
              0 <= MatchPositions(index, queryLower)[k] < |index|
              && EntryMatches(index[MatchPositions(index, queryLower)[k]], queryLower)
    ensures forall k, m :: 0 <= k < m < |MatchPositions(index, queryLower)| ==>
              MatchPositions(index, queryLower)[k] < MatchPositions(index, queryLower)[m]
    ensures forall i :: 0 <= i < |index| && EntryMatches(index[i], queryLower) ==> i in MatchPositions(index, queryLower)
  {
    var p := MatchesQuery(queryLower);
    PositionsSpec(index, p);
    var ps := MatchPositions(index, queryLower);
    forall k | 0 <= k < |ps| ensures EntryMatches(index[ps[k]], queryLower) {
      assert p(index[ps[k]]);
    }
  }

  /** A search gives at most five entries of the index, each holding the
      query; with fewer than five, every entry holding the query is among
      them; a blank query gives none. */
  lemma PerformSearchSpec(index: seq<SearchEntry>, query: string)
    ensures Trim(query) == "" ==> PerformSearch(index, query) == []
    ensures |PerformSearch(index, query)| <= 5
    ensures forall e :: e in PerformSearch(index, query) ==> e in index && EntryMatches(e, ToLower(query))
    ensures Trim(query) != "" && |PerformSearch(index, query)| < 5 ==>
              forall e :: e in index && EntryMatches(e, ToLower(query)) ==> e in PerformSearch(index, query)
  {
    var hits := Matching(index, ToLower(query));
    MatchingSpec(index, ToLower(query));
    if Trim(query) != "" && |hits| > 5 {
      forall e | e in hits[..5] ensures e in hits {
      }
    }
  }

  /** The entries a search gives are the first matching ones, in index
      order: the `k`-th is the entry at the `k`-th matching position, and
      there are five of them unless fewer entries match. */
  lemma PerformSearchFirstMatches(index: seq<SearchEntry>, query: string)
    ensures Trim(query) != "" ==> |PerformSearch(index, query)| == Min(5, |MatchPositions(index, ToLower(query))|)
    ensures Trim(query) != "" ==> forall k :: 0 <= k < |PerformSearch(index, query)| ==>
              PerformSearch(index, query)[k] == index[MatchPositions(index, ToLower(query))[k]]
  {
    if Trim(query) != "" {
      FilterAtPositions(index, MatchesQuery(ToLower(query)));
    }
  }

  // ---------------------------------------------------------------------------
  // renderArticleNavigation

  /** `articles.findIndex(a => a.id === id)`. */
  function FindIndex(articles: seq<Json>, id: Json): (r: int)
    ensures -1 <= r < |articles|
  {
    if articles == [] then -1
    else if Get(articles[0], "id") == id then 0
    else
      var k := FindIndex(articles[1..], id);
      if k == -1 then -1 else k + 1
  }

  lemma {:induction false} FindIndexSpec(articles: seq<Json>, id: Json)
    ensures FindIndex(articles, id) == -1 <==> forall j :: 0 <= j < |articles| ==> Get(articles[j], "id") != id
    ensures FindIndex(articles, id) != -1 ==>
              && Get(articles[FindIndex(articles, id)], "id") == id
              && forall j :: 0 <= j < FindIndex(articles, id) ==> Get(articles[j], "id") != id
  {
    if articles != [] {
      FindIndexSpec(articles[1..], id);
      if Get(articles[0], "id") != id {
        forall j | 1 <= j < |articles| ensures articles[1..][j - 1] == articles[j] {
        }
      }
    }
  }

  /** The links under an article: the neighbours a link is drawn for. */
  datatype NavLinks = NavLinks(prev: Option<Json>, next: Option<Json>)

  /** `renderArticleNavigation`: the articles before and after the current
      one, a link only for a truthy neighbour. */
  function ArticleNavigation(articles: seq<Json>, current: Json): NavLinks {
    var i := FindIndex(articles, Get(current, "id"));
    var prev := if i > 0 then articles[i - 1] else Null;
    var next := if i < |articles| - 1 then articles[i + 1] else Null;
    NavLinks(if Truthy(prev) then Some(prev) else None, if Truthy(next) then Some(next) else None)
  }

  /** For the current article at its first position `k`, the previous link is
      the article before it and the next link the one after it, when they
      exist and are truthy. */
  lemma NavigationAround(articles: seq<Json>, current: Json, k: int)
    requires 0 <= k < |articles| && Get(articles[k], "id") == Get(current, "id")
    requires forall j :: 0 <= j < k ==> Get(articles[j], "id") != Get(current, "id")
    ensures var links := ArticleNavigation(articles, current);
            && links.prev == (if k > 0 && Truthy(articles[k - 1]) then Some(articles[k - 1]) else None)
            && links.next == (if k + 1 < |articles| && Truthy(articles[k + 1]) then Some(articles[k + 1]) else None)
  {
    FindIndexSpec(articles, Get(current, "id"));
  }

  /** An article not found among them gets no previous link, and the first
      article as its next one. */
  lemma NavigationWhenMissing(articles: seq<Json>, current: Json)
    requires forall j :: 0 <= j < |articles| ==> Get(articles[j], "id") != Get(current, "id")
    ensures ArticleNavigation(articles, current).prev == None
    ensures ArticleNavigation(articles, current).next
            == if articles != [] && Truthy(articles[0]) then Some(articles[0]) else None
  {
    FindIndexSpec(articles, Get(current, "id"));
  }

  // ---------------------------------------------------------------------------
  // handleNavigation and showArticle

  /** The section and article ids `handleNavigation(hash)` passes to
      `showArticle`: the first two pieces of the hash split on `/`, when both
      are non-empty. */
  function HashTarget(hash: string): Option<(string, string)> {
    if hash == "" then None
    else
      var parts := SplitOn(hash, '/');
      if |parts| >= 2 && parts[0] != "" && parts[1] != "" then Some((parts[0], parts[1])) else None
  }

  /** The link of an article, without its `#`, leads back to that section and
      article when their ids are non-empty strings without `/`. */
  lemma HashTargetOfLink(sectionId: string, articleId: string)
    requires sectionId != "" && articleId != "" && '/' !in sectionId && '/' !in articleId
    ensures HashTarget(sectionId + "/" + articleId) == Some((sectionId, articleId))
  {
    SplitOnConcat(sectionId, articleId, '/');
    SplitOnAbsent(sectionId, '/');
    SplitOnAbsent(articleId, '/');
  }

  /** Conversely, a hash leads to a section and an article only when it
      starts with their ids joined by `/`. */
  lemma HashTargetShape(hash: string)
    requires HashTarget(hash).Some?
    ensures var t := HashTarget(hash).value;
            t.0 != "" && t.1 != "" && '/' !in t.0 && '/' !in t.1 && t.0 + "/" + t.1 <= hash
  {
    var parts := SplitOn(hash, '/');
    SplitJoin(hash, '/');
    var rest := Join(parts[2..], "/");
    if |parts| == 2 {
      assert Join(parts, "/") == parts[0] + "/" + parts[1];
    } else {
      assert Join(parts[1..], "/") == parts[1] + "/" + rest;
      assert Join(parts, "/") == parts[0] + "/" + (parts[1] + "/" + rest);
      assert parts[0] + "/" + (parts[1] + "/" + rest) == (parts[0] + "/" + parts[1]) + ("/" + rest);
    }
  }

  /** The search entry of an article links to that article's section and
      article ids. */
  lemma EntryLinksBack(section: Json, article: Json, sectionId: string, articleId: string)
    requires EntryOf(section, article).Some?
    requires Get(section, "id") == Str(sectionId) && Get(article, "id") == Str(articleId)
    requires sectionId != "" && articleId != "" && '/' !in sectionId && '/' !in articleId
    ensures var url := EntryOf(section, article).value.url;
            url != "" && url[0] == '#' && HashTarget(url[1..]) == Some((sectionId, articleId))
  {
    var url := EntryOf(section, article).value.url;
    assert url == "#" + (sectionId + "/" + articleId);
    assert url[1..] == sectionId + "/" + articleId;
    HashTargetOfLink(sectionId, articleId);
  }

  /** The outcome of `items.find(x => x.id === id)`. */
  datatype Lookup = Found(item: Json) | Missing | Threw

  /** `find` by id: reading the id of a null item before a match throws. */
  function FindById(items: seq<Json>, id: string): Lookup {
    if items == [] then Missing
    else if Nullish(items[0]) then Threw
    else if Get(items[0], "id") == Str(id) then Found(items[0])
    else FindById(items[1..], id)
  }

  lemma {:induction false} FindByIdSpec(items: seq<Json>, id: string)
    ensures FindById(items, id).Found? ==>
              exists k :: 0 <= k < |items| && items[k] == FindById(items, id).item && Get(items[k], "id") == Str(id)
                          && forall j :: 0 <= j < k ==> !Nullish(items[j]) && Get(items[j], "id") != Str(id)
    ensures FindById(items, id).Missing? <==>
              forall j :: 0 <= j < |items| ==> !Nullish(items[j]) && Get(items[j], "id") != Str(id)
  {
    if items != [] && !Nullish(items[0]) && Get(items[0], "id") != Str(id) {
      FindByIdSpec(items[1..], id);
      var r := FindById(items, id);
      if r.Found? {
        var k :| 0 <= k < |items| - 1 && items[1..][k] == r.item && Get(items[1..][k], "id") == Str(id)
                 && forall j :: 0 <= j < k ==> !Nullish(items[1..][j]) && Get(items[1..][j], "id") != Str(id);
        assert items[k + 1] == r.item;
        forall j | 0 <= j < k + 1 ensures !Nullish(items[j]) && Get(items[j], "id") != Str(id) {
          if j > 0 {
            assert items[1..][j - 1] == items[j];
          }
        }
      }
      forall j | 0 <= j < |items| - 1 ensures items[1..][j] == items[j + 1] {
      }
    }
  }

  /** `showArticle`'s two lookups: the section by id among the sections, then
      the article by id among that section's articles. */
  function ArticleLookup(sections: seq<Json>, sectionId: string, articleId: string): Lookup {
    match FindById(sections, sectionId)
    case Threw => Threw
    case Missing => Missing
    case Found(section) =>
      var articles := Get(section, "articles");
      if articles.Arr? then FindById(articles.items, articleId) else Threw
  }

  // ---------------------------------------------------------------------------
  // slugify

  /** The characters of `\w`. */
  predicate IsWordChar(c: char) {
    ('a' <= c <= 'z') || ('A' <= c <= 'Z') || ('0' <= c <= '9') || c == '_'
  }

  /** The characters `[\w\s-]` matches. */
  predicate IsKept(c: char) {
    IsWordChar(c) || IsSpace(c) || c == '-'
  }

  /** `replace(/[^\w\s-]/g, '')`. */
  function KeepChars(s: string): (r: string)
    ensures forall i :: 0 <= i < |r| ==> IsKept(r[i]) && r[i] in s
  {
    if s == [] then []
    else
      var rest := KeepChars(s[1..]);
      assert forall c :: c in rest ==> c in s[1..];
      (if IsKept(s[0]) then [s[0]] else []) + rest
  }

  /** `slugify(text)`: lower-case, drop what is not a word character,
      whitespace or `-`, then turn whitespace runs into `-`. */
  function DocSlugify(s: string): string {
    ReplaceSpaceRuns(KeepChars(ToLower(s)), '-')
  }

  /** The characters a slug is made of. */
  predicate IsDocSlug(s: string) {
    forall i :: 0 <= i < |s| ==> ('a' <= s[i] <= 'z') || ('0' <= s[i] <= '9') || s[i] == '_' || s[i] == '-'
  }

  lemma KeptLower(c: char)
    ensures IsKept(ToLowerChar(c)) <==> IsKept(c)
    ensures IsKept(ToLowerChar(c)) ==> ('a' <= ToLowerChar(c) <= 'z') || ('0' <= ToLowerChar(c) <= '9')
                                       || ToLowerChar(c) == '_' || ToLowerChar(c) == '-' || IsSpace(ToLowerChar(c))
  {
    ToLowerCharFacts(c);
  }

  /** A slug holds only lower-case ASCII letters, digits, `_` and `-`. */
  lemma DocSlugifyIsSlug(s: string)
    ensures IsDocSlug(DocSlugify(s))
  {
    var low := ToLower(s);
    var kept := KeepChars(low);
    forall c | c in kept && !IsSpace(c)
      ensures ('a' <= c <= 'z') || ('0' <= c <= '9') || c == '_' || c == '-'
    {
      var k :| 0 <= k < |low| && low[k] == c;
      KeptLower(s[k]);
    }
    ReplaceSpaceRunsWithin(kept, '-');
    ReplaceSpaceRunsChars(kept, '-');
  }

  lemma {:induction false} KeepCharsAll(s: string)
    requires forall i :: 0 <= i < |s| ==> IsKept(s[i])
    ensures KeepChars(s) == s
  {
    if s != [] {
      KeepCharsAll(s[1..]);
    }
  }

  lemma {:induction false} KeepCharsNone(s: string)
    requires forall i :: 0 <= i < |s| ==> !IsKept(s[i])
    ensures KeepChars(s) == []
  {
    if s != [] {
      KeepCharsNone(s[1..]);
    }
  }

  /** Slugifying a slug changes nothing. */
  lemma DocSlugifyIdempotent(s: string)
    ensures DocSlugify(DocSlugify(s)) == DocSlugify(s)
  {
    var g := DocSlugify(s);
    DocSlugifyIsSlug(s);
    LowerIsFixed(g);
    KeepCharsAll(g);
    ReplaceSpaceRunsNoSpace(g, '-');
  }

  /** Text with no ASCII letter, digit, `_`, `-` or whitespace, such as a
      Cyrillic heading, slugifies to the empty string. */
  lemma DocSlugifyDropsOthers(s: string)
    requires forall i :: 0 <= i < |s| ==> !IsKept(s[i])
    ensures DocSlugify(s) == ""
  {
    var low := ToLower(s);
    forall i | 0 <= i < |low| ensures !IsKept(low[i]) {
      KeptLower(s[i]);
    }
    KeepCharsNone(low);
  }

  // ---------------------------------------------------------------------------
  // DocumentationManager

  /** `docsData` once loading has started. */
  datatype DocsData = DocsData(title: string, version: string, sections: seq<Json>)

  const DocsTitle: string := "VulneraAI Documentation"
  const DocsVersion: string := "1.0.0"

  class DocumentationManager {
    var docsData: Option<DocsData>
    var currentArticle: Option<Json>
    var searchIndex: seq<SearchEntry>
    var isLoading: bool

    constructor()
      ensures docsData == None && currentArticle == None && searchIndex == [] && !isLoading
    {
      docsData := None;
      currentArticle := None;
      searchIndex := [];
      isLoading := false;
    }

    /** `loadDocumentation`: `docsData` is reset to an empty document before
        the files are read, their sections are appended in file-list order
        and, when there is at least one, sorted by rank. `ok` is false where
        the source throws; `docsData` then holds what was appended before. */
    method LoadDocumentation(index: IndexFetch, fetch: string -> Option<Json>) returns (ok: bool, loadedFiles: nat)
      modifies this`docsData
      ensures var l := Load(index, fetch);
              && docsData == Some(DocsData(DocsTitle, DocsVersion, l.sections))
              && ok == l.ok && loadedFiles == l.loaded
    {
      var files := DocFiles(index);
      docsData := Some(DocsData(DocsTitle, DocsVersion, []));
      if files.None? {
        return false, 0;
      }
      var bodies := Bodies(files.value, fetch);
      loadedFiles := 0;
      for i := 0 to |bodies|
        invariant Gather(bodies[..i]).ok
        invariant docsData == Some(DocsData(DocsTitle, DocsVersion, Gather(bodies[..i]).sections))
        invariant loadedFiles == Gather(bodies[..i]).loaded
      {
        if bodies[i].None? {
          GatherUnfold(bodies, i);
          continue;
        }
        var data := bodies[i].value;
        ShapeContribution(data);
        match ShapeOf(data) {
          case Throws =>
            GatherUnfold(bodies, i);
            GatherStuck(bodies, i + 1);
            return false, loadedFiles;
          case SectionArray(items) =>
            docsData := Some(docsData.value.(sections := docsData.value.sections + items));
            loadedFiles := loadedFiles + 1;
          case OneSection(section) =>
            docsData := Some(docsData.value.(sections := docsData.value.sections + [section]));
            loadedFiles := loadedFiles + 1;
          case WholeFile =>
            docsData := Some(docsData.value.(sections := docsData.value.sections + [data]));
            loadedFiles := loadedFiles + 1;
          case Unknown =>
        }
        GatherStep(bodies, i, docsData.value.sections, loadedFiles);
      }
      LoadGathered(index, fetch, files.value, bodies);
      var sections := docsData.value.sections;
      if |sections| == 0 || SortThrows(sections) {
        return false, loadedFiles;
      }
      docsData := Some(docsData.value.(sections := SortBy(sections, SectionLe)));
      ok := true;
    }

    /** `buildSearchIndex`: one entry per article, section by section. `ok` is
        false where the source throws; `searchIndex` then holds the entries
        pushed before. */
    method BuildSearchIndex() returns (ok: bool)
      modifies this`searchIndex
      requires docsData.Some?
      ensures searchIndex == IndexSections(docsData.value.sections).entries
      ensures ok == IndexSections(docsData.value.sections).ok
    {
      var sections := docsData.value.sections;
      searchIndex := [];
      for i := 0 to |sections|
        invariant IndexSections(sections[..i]).ok
        invariant searchIndex == IndexSections(sections[..i]).entries
      {
        var section := sections[i];
        var articles := Get(section, "articles");
        if Nullish(section) || !articles.Arr? {
          SectionThrows(sections, i, searchIndex);
          return false;
        }
        var before := searchIndex;
        for j := 0 to |articles.items|
          invariant IndexArticles(section, articles.items[..j]).ok
          invariant searchIndex == before + IndexArticles(section, articles.items[..j]).entries
        {
          var entry := EntryOf(section, articles.items[j]);
          if entry.None? {
            ArticleThrows(sections, i, j, searchIndex);
            return false;
          }
          ghost var index0 := searchIndex;
          searchIndex := searchIndex + [entry.value];
          ArticleStep(section, articles.items, j, before, index0, entry.value, searchIndex);
        }
        SectionDone(sections, i, searchIndex);
      }
      SectionsDone(sections, searchIndex);
      ok := true;
    }

    /** `showArticle(sectionId, articleId)`: a found article becomes the
        current one; a missing section or article changes nothing. `threw` is
        where a lookup throws. */
    method ShowArticle(sectionId: string, articleId: string) returns (threw: bool)
      modifies this`currentArticle
      requires docsData.Some?
      ensures var found := ArticleLookup(docsData.value.sections, sectionId, articleId);
              && threw == found.Threw?
              && currentArticle == (if found.Found? then Some(found.item) else old(currentArticle))
    {
      var section := FindById(docsData.value.sections, sectionId);
      if section.Threw? {
        return true;
      }
      if !section.Found? {
        return false;
      }
      var articles := Get(section.item, "articles");
      if !articles.Arr? {
        return true;
      }
      var article := FindById(articles.items, articleId);
      if article.Threw? {
        return true;
      }
      if !article.Found? {
        return false;
      }
      currentArticle := Some(article.item);
      threw := false;
    }

    /** `handleNavigation(hash)`: an empty hash shows the welcome page; a hash
        whose first two `/`-pieces are non-empty shows that article. */
    method HandleNavigation(hash: string) returns (welcome: bool, threw: bool)
      modifies this`currentArticle
      requires docsData.Some?
      ensures welcome == (hash == "")
      ensures HashTarget(hash).None? ==> currentArticle == old(currentArticle) && !threw
      ensures HashTarget(hash).Some? ==>
                var found := ArticleLookup(docsData.value.sections, HashTarget(hash).value.0, HashTarget(hash).value.1);
                && threw == found.Threw?
                && currentArticle == (if found.Found? then Some(found.item) else old(currentArticle))
    {
      welcome, threw := hash == "", false;
      if hash == "" {
        return;
      }
      var parts := SplitOn(hash, '/');
      if parts[0] != "" && |parts| >= 2 && parts[1] != "" {
        threw := ShowArticle(parts[0], parts[1]);
      }
    }
  }
}
