/** The manifest of a multi-file documentation set (`parseDocsIndex` in
    docs/doc-engine.js): a list of files, each optionally with a path prefix
    and a namespace for its page ids. */
module Manifest {
  import opened Text
  import opened Json
  import opened Wrappers

  /** One manifest entry. `None` stands for the `null` (or absent) prefix and
      namespace the engine stores. */
  datatype Entry = Entry(file: string, pathPrefix: Option<seq<string>>, namespace: Option<string>)

  /** Why a manifest is refused: it is not a list and has no `files` or
      `docs` list, or one of its items is neither a string nor an object with
      a string `file`. */
  datatype ManifestError = BadFormat | BadEntry

  /** The list of items: a bare array first, then `files`, then `docs`. */
  function ItemsOf(index: Json): Option<seq<Json>> {
    if index.Arr? then Some(index.items)
    else if Truthy(index) && Get(index, "files").Arr? then Some(Get(index, "files").items)
    else if Truthy(index) && Get(index, "docs").Arr? then Some(Get(index, "docs").items)
    else None
  }

  /** `String` applied to every element of a path prefix. */
  function PrefixStrings(items: seq<Json>): (r: seq<string>)
    ensures |r| == |items|
  {
    seq(|items|, i requires 0 <= i < |items| => ToJsString(items[i]))
  }

  /** One item: a string names a file; an object needs a string `file`
      (arrays have no such field). A namespace is kept trimmed, and only when
      it is a string that is not blank. */
  function ParseEntry(item: Json): Result<Entry, ManifestError> {
    if item.Str? then Ok(Entry(item.s, None, None))
    else if item.Obj? && Get(item, "file").Str? then
      var prefix := Get(item, "pathPrefix");
      var ns := Get(item, "namespace");
      Ok(Entry(Get(item, "file").s,
               if prefix.Arr? then Some(PrefixStrings(prefix.items)) else None,
               if ns.Str? && Trim(ns.s) != "" then Some(Trim(ns.s)) else None))
    else Err(BadEntry)
  }

  /** `list.map(parseItem)`: the first bad item makes the whole list fail. */
  function ParseEntries(items: seq<Json>): (r: Result<seq<Entry>, ManifestError>)
    ensures r.Ok? <==> forall k :: 0 <= k < |items| ==> ParseEntry(items[k]).Ok?
    ensures r.Err? ==> r.error == BadEntry
    ensures r.Ok? ==> |r.value| == |items|
                      && forall k :: 0 <= k < |items| ==> r.value[k] == ParseEntry(items[k]).value
  {
    if items == [] then Ok([])
    else
      match ParseEntry(items[0])
      case Err(e) => Err(e)
      case Ok(first) =>
        match ParseEntries(items[1..])
        case Err(e) => Err(e)
        case Ok(rest) => Ok([first] + rest)
  }

  /** `parseDocsIndex`. */
  function ParseDocsIndex(index: Json): (r: Result<seq<Entry>, ManifestError>)
    ensures r == Err(BadFormat) <==> ItemsOf(index).None?
    ensures r.Ok? ==> |r.value| == |ItemsOf(index).value|
  {
    match ItemsOf(index)
    case None => Err(BadFormat)
    case Some(items) => ParseEntries(items)
  }

  // ---------------------------------------------------------------------------
  // Writing a manifest, and reading it back

  /** An entry as `parseDocsIndex` produces it: a namespace is trimmed and
      not blank. */
  predicate Normalised(e: Entry) {
    e.namespace.Some? ==> e.namespace.value != "" && Trimmed(e.namespace.value)
  }

  /** The object form of an entry. */
  function EncodeEntry(e: Entry): Json {
    var withFile := map["file" := Str(e.file)];
    var withPrefix :=
      if e.pathPrefix.Some?
      then withFile["pathPrefix" := Arr(seq(|e.pathPrefix.value|, i requires 0 <= i < |e.pathPrefix.value| => Str(e.pathPrefix.value[i])))]
      else withFile;
    Obj(if e.namespace.Some? then withPrefix["namespace" := Str(e.namespace.value)] else withPrefix)
  }

  /** A manifest of the `{files: [...]}` form. */
  function EncodeIndex(entries: seq<Entry>): Json {
    Obj(map["files" := Arr(seq(|entries|, i requires 0 <= i < |entries| => EncodeEntry(entries[i])))])
  }

  lemma PrefixStringsOfStrings(p: seq<string>)
    ensures PrefixStrings(seq(|p|, i requires 0 <= i < |p| => Str(p[i]))) == p
  {
    var items := seq(|p|, i requires 0 <= i < |p| => Str(p[i]));
    var r := PrefixStrings(items);
    forall k | 0 <= k < |p| ensures r[k] == p[k] {
      assert items[k] == Str(p[k]);
    }
  }

  lemma ParseEncodedEntry(e: Entry)
    requires Normalised(e)
    ensures ParseEntry(EncodeEntry(e)) == Ok(e)
  {
    var j := EncodeEntry(e);
    assert j.Obj? && Get(j, "file") == Str(e.file);
    var prefix := Get(j, "pathPrefix");
    var ns := Get(j, "namespace");
    if e.pathPrefix.Some? {
      var p := e.pathPrefix.value;
      assert prefix == Arr(seq(|p|, i requires 0 <= i < |p| => Str(p[i])));
      PrefixStringsOfStrings(p);
    } else {
      assert prefix == Undefined;
    }
    if e.namespace.Some? {
      assert ns == Str(e.namespace.value);
      TrimOfTrimmed(e.namespace.value);
    } else {
      assert ns == Undefined;
    }
  }

  /** Every manifest written from normalised entries reads back as those
      entries, in order. */
  lemma ParseEncodedIndex(entries: seq<Entry>)
    requires forall k :: 0 <= k < |entries| ==> Normalised(entries[k])
    ensures ParseDocsIndex(EncodeIndex(entries)) == Ok(entries)
  {
    var items := seq(|entries|, i requires 0 <= i < |entries| => EncodeEntry(entries[i]));
    assert ItemsOf(EncodeIndex(entries)) == Some(items);
    forall k | 0 <= k < |items| ensures ParseEntry(items[k]) == Ok(entries[k]) {
      ParseEncodedEntry(entries[k]);
    }
    var r := ParseEntries(items);
    assert r.Ok?;
    assert r.value == entries;
  }

  /** A bare list of file names is the simplest manifest: one entry per name,
      with no prefix and no namespace. */
  lemma ParseFileNameList(names: seq<string>)
    ensures ParseDocsIndex(Arr(seq(|names|, i requires 0 <= i < |names| => Str(names[i]))))
            == Ok(seq(|names|, i requires 0 <= i < |names| => Entry(names[i], None, None)))
  {
    var items := seq(|names|, i requires 0 <= i < |names| => Str(names[i]));
    var want := seq(|names|, i requires 0 <= i < |names| => Entry(names[i], None, None));
    forall k | 0 <= k < |items| ensures ParseEntry(items[k]) == Ok(want[k]) {
    }
    var r := ParseEntries(items);
    assert r.Ok?;
    assert r.value == want;
  }
}
