/**
 * The links endpoint's side of a save: the JSON body the page posts, the one
 * validation the server performs before overwriting the links file, and the
 * page's reading of the stored document on the next load.
 */
module Server {
  import opened Wrappers
  import opened Document

  /** A JSON value. Numbers are kept as integers: no links field is a number. */
  datatype Json =
    | JNull
    | JBool(b: bool)
    | JNumber(n: int)
    | JString(s: string)
    | JArray(items: seq<Json>)
    | JObject(fields: map<string, Json>)

  /** What `request.get_json()` gave: a parsed body, or an exception (wrong content type, malformed JSON). */
  datatype Request = Unparseable | Parsed(body: Json)

  /** How writing the links file went; a failed write may leave a truncated, unreadable file (`None`). */
  datatype WriteOutcome = Written | WriteFailed(leftover: Option<Json>)

  const SectionsKey: string := "sections"

  const StatusOk: int := 200
  const StatusBadRequest: int := 400
  const StatusServerError: int := 500

  /** `p` occurs in `s` starting at index `i`. */
  predicate OccursAt(p: string, s: string, i: int) {
    0 <= i <= |s| - |p| && s[i..i + |p|] == p
  }

  /** `p` occurs in `s` at some position. */
  predicate IsSubstring(p: string, s: string) {
    exists i :: 0 <= i <= |s| && OccursAt(p, s, i)
  }

  /**
   * Python's `'sections' in new_data`: a key test on an object, an element
   * test on an array, a substring test on a string; on any other value Python
   * raises TypeError, given here as `None`.
   */
  function ContainsSections(j: Json): (r: Option<bool>)
    ensures r.None? <==> !(j.JObject? || j.JArray? || j.JString?)
    ensures j.JObject? ==> r == Some(SectionsKey in j.fields)
  {
    match j
    case JObject(m) => Some(SectionsKey in m)
    case JArray(xs) => Some(JString(SectionsKey) in xs)
    case JString(s) => Some(IsSubstring(SectionsKey, s))
    case _ => None
  }

  // ---------------------------------------------------------------------------
  // the page's encoding of a document (`JSON.stringify({ sections })`) and its reading back

  /** A link as `{ name, url }`; the page reads it back as the same link. */
  function EncodeLink(l: Link): (j: Json)
    ensures DecodeLink(j) == Some(l)
  {
    var j := JObject(map["name" := JString(l.name), "url" := JString(l.url)]);
    assert StringField(j, "name") == Some(l.name) && StringField(j, "url") == Some(l.url);
    j
  }

  /** A link list as a JSON array, element by element; the page reads it back as the same list, in order. */
  function EncodeLinks(ls: seq<Link>): (js: seq<Json>)
    ensures |js| == |ls|
    ensures DecodeLinks(js) == Some(ls)
  {
    if ls == [] then []
    else
      var js := [EncodeLink(ls[0])] + EncodeLinks(ls[1..]);
      assert js[1..] == EncodeLinks(ls[1..]);
      assert [ls[0]] + ls[1..] == ls;
      js
  }

  /** A section as `{ title, links }`; the page reads it back as the same section. */
  function EncodeSection(x: Section): (j: Json)
    ensures DecodeSection(j) == Some(x)
  {
    var j := JObject(map["title" := JString(x.title), "links" := JArray(EncodeLinks(x.links))]);
    assert StringField(j, "title") == Some(x.title);
    assert ArrayField(j, "links") == Some(EncodeLinks(x.links));
    j
  }

  /** The sections as a JSON array, element by element; the page reads them back as the same sections, in order. */
  function EncodeSections(ss: seq<Section>): (js: seq<Json>)
    ensures |js| == |ss|
    ensures DecodeSections(js) == Some(ss)
  {
    if ss == [] then []
    else
      var js := [EncodeSection(ss[0])] + EncodeSections(ss[1..]);
      assert js[1..] == EncodeSections(ss[1..]);
      assert [ss[0]] + ss[1..] == ss;
      js
  }

  /**
   * The body the page posts on save, `JSON.stringify({ sections })`: it always
   * passes the server's key test, and reading it back gives the posted
   * document, contents and order kept.
   */
  function EncodeDoc(d: Doc): (j: Json)
    ensures ContainsSections(j) == Some(true)
    ensures DecodeDoc(j) == Some(d)
  {
    var j := JObject(map[SectionsKey := JArray(EncodeSections(d.sections))]);
    assert ArrayField(j, SectionsKey) == Some(EncodeSections(d.sections));
    j
  }

  /** A string-valued field of an object. */
  function StringField(j: Json, key: string): Option<string> {
    if j.JObject? && key in j.fields && j.fields[key].JString? then Some(j.fields[key].s) else None
  }

  /** An array-valued field of an object. */
  function ArrayField(j: Json, key: string): Option<seq<Json>> {
    if j.JObject? && key in j.fields && j.fields[key].JArray? then Some(j.fields[key].items) else None
  }

  /** A link is read from an object whose `name` and `url` are strings, and from nothing else. */
  function DecodeLink(j: Json): (r: Option<Link>)
    ensures r.Some? <==> StringField(j, "name").Some? && StringField(j, "url").Some?
    ensures r.Some? ==> Some(r.value.name) == StringField(j, "name") && Some(r.value.url) == StringField(j, "url")
  {
    var name := StringField(j, "name");
    var url := StringField(j, "url");
    if name.Some? && url.Some? then Some(Link(name.value, url.value)) else None
  }

  /** A link list is read element by element, and not at all when any element is not a link. */
  function DecodeLinks(js: seq<Json>): (r: Option<seq<Link>>)
    ensures r.Some? <==> forall i :: 0 <= i < |js| ==> DecodeLink(js[i]).Some?
    ensures r.Some? ==> |r.value| == |js| && forall i :: 0 <= i < |js| ==> DecodeLink(js[i]) == Some(r.value[i])
  {
    if js == [] then Some([])
    else
      var l := DecodeLink(js[0]);
      var rest := DecodeLinks(js[1..]);
      assert forall i :: 1 <= i < |js| ==> js[i] == js[1..][i - 1];
      if l.Some? && rest.Some? then Some([l.value] + rest.value) else None
  }

  /** A section is read from an object with a string `title` and an array of links `links`. */
  function DecodeSection(j: Json): (r: Option<Section>)
    ensures r.Some? <==>
      StringField(j, "title").Some? && ArrayField(j, "links").Some? && DecodeLinks(ArrayField(j, "links").value).Some?
    ensures r.Some? ==> StringField(j, "title") == Some(r.value.title)
    ensures r.Some? ==> DecodeLinks(ArrayField(j, "links").value) == Some(r.value.links)
  {
    var title := StringField(j, "title");
    var links := ArrayField(j, "links");
    if title.Some? && links.Some? then
      var ls := DecodeLinks(links.value);
      if ls.Some? then Some(Section(title.value, ls.value)) else None
    else None
  }

  /** The sections are read element by element, and not at all when any element is not a section. */
  function DecodeSections(js: seq<Json>): (r: Option<seq<Section>>)
    ensures r.Some? <==> forall i :: 0 <= i < |js| ==> DecodeSection(js[i]).Some?
    ensures r.Some? ==> |r.value| == |js| && forall i :: 0 <= i < |js| ==> DecodeSection(js[i]) == Some(r.value[i])
  {
    if js == [] then Some([])
    else
      var s := DecodeSection(js[0]);
      var rest := DecodeSections(js[1..]);
      assert forall i :: 1 <= i < |js| ==> js[i] == js[1..][i - 1];
      if s.Some? && rest.Some? then Some([s.value] + rest.value) else None
  }

  /**
   * The page's reading of a loaded document: `data.sections`, each with
   * `title` and `links`. It fails when `sections` is not an array or any
   * element of it is not a section; otherwise it has one section per element.
   */
  function DecodeDoc(j: Json): (r: Option<Doc>)
    ensures r.Some? <==> ArrayField(j, SectionsKey).Some? && DecodeSections(ArrayField(j, SectionsKey).value).Some?
    ensures r.Some? ==> |r.value.sections| == |ArrayField(j, SectionsKey).value|
  {
    var sections := ArrayField(j, SectionsKey);
    if sections.Some? then
      var ss := DecodeSections(sections.value);
      if ss.Some? then Some(Doc(ss.value)) else None
    else None
  }

  // ---------------------------------------------------------------------------
  // the links file and `save_links`

  class LinkStore {
    /** The links file: a JSON document, or `None` when it cannot be read back as JSON. */
    var file: Option<Json>

    constructor (initial: Option<Json>)
      ensures file == initial
    {
      file := initial;
    }

    /**
     * `save_links`: a body that cannot be parsed, or on which the key test
     * raises, gives 500; a body without a `sections` key gives 400; in either
     * case nothing is written. Otherwise the body replaces the file: 200 on a
     * good write, 500 when the write fails part-way.
     */
    method SaveLinks(request: Request, write: WriteOutcome) returns (status: int)
      modifies this
      ensures request.Unparseable? ==> status == StatusServerError && file == old(file)
      ensures request.Parsed? && ContainsSections(request.body).None? ==>
        status == StatusServerError && file == old(file)
      ensures request.Parsed? && ContainsSections(request.body) == Some(false) ==>
        status == StatusBadRequest && file == old(file)
      ensures request.Parsed? && ContainsSections(request.body) == Some(true) ==>
        if write.Written? then status == StatusOk && file == Some(request.body)
        else status == StatusServerError && file == write.leftover
    {
      if request.Unparseable? {
        return StatusServerError;
      }
      var hasSections := ContainsSections(request.body);
      if hasSections.None? {
        return StatusServerError;
      }
      if !hasSections.value {
        return StatusBadRequest;
      }
      match write
      case Written =>
        file := Some(request.body);
        status := StatusOk;
      case WriteFailed(leftover) =>
        file := leftover;
        status := StatusServerError;
    }
  }

  /**
   * The page posts a document and reloads: the body always passes the server's
   * check, and after a 200 the reload reads back exactly the posted document.
   */
  method PostAndReload(store: LinkStore, d: Doc, write: WriteOutcome) returns (status: int, reloaded: Option<Doc>)
    modifies store
    ensures status == StatusOk || status == StatusServerError
    ensures status == StatusOk <==> write.Written?
    ensures status == StatusOk ==> reloaded == Some(d)
  {
    status := store.SaveLinks(Parsed(EncodeDoc(d)), write);
    reloaded := if store.file.Some? then DecodeDoc(store.file.value) else None;
  }
}
