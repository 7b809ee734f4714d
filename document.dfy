/** Small wrapper types shared by the other modules. */
module Wrappers {
  datatype Option<+T> = None | Some(value: T)
}

/**
 * The links document the dashboard loads, edits and saves back:
 * `{ sections: [ { title, links: [ { name, url } ] } ] }`.
 * Order of sections and of the links inside a section is meaningful.
 */
module Document {

  /** One bookmark: the text shown and the address it opens. */
  datatype Link = Link(name: string, url: string)

  /** A titled, ordered group of links. Titles are free text and need not be unique. */
  datatype Section = Section(title: string, links: seq<Link>)

  /** The whole links document. */
  datatype Doc = Doc(sections: seq<Section>)

  /** A link that an edit-mode save keeps: both fields non-empty. */
  predicate Complete(l: Link) {
    l.name != "" && l.url != ""
  }

  /** Every link of every section is complete. */
  predicate AllComplete(d: Doc) {
    forall s :: s in d.sections ==> forall l :: l in s.links ==> Complete(l)
  }

  /** The complete links of `ls`, in their original order. */
  function CompleteLinks(ls: seq<Link>): (r: seq<Link>)
    ensures |r| <= |ls|
    ensures forall l :: l in r <==> l in ls && Complete(l)
  {
    if ls == [] then []
    else if Complete(ls[0]) then [ls[0]] + CompleteLinks(ls[1..])
    else CompleteLinks(ls[1..])
  }

  /** The sections of `ss` with every incomplete link taken out; titles and section order are kept. */
  function CleanSections(ss: seq<Section>): seq<Section> {
    seq(|ss|, i requires 0 <= i < |ss| => Section(ss[i].title, CompleteLinks(ss[i].links)))
  }

  /** The document with every incomplete link taken out. */
  function Cleaned(d: Doc): Doc {
    Doc(CleanSections(d.sections))
  }

  /** Filtering leaves a link list alone exactly when every link in it is already complete. */
  lemma {:induction false} CompleteLinksIdentity(ls: seq<Link>)
    ensures CompleteLinks(ls) == ls <==> forall l :: l in ls ==> Complete(l)
  {
    if ls != [] {
      var rest := ls[1..];
      CompleteLinksIdentity(rest);
      if Complete(ls[0]) {
        assert ls == [ls[0]] + rest;
        assert forall l :: l in ls <==> l == ls[0] || l in rest;
      } else {
        assert ls[0] in ls;
        assert |CompleteLinks(ls)| <= |rest| < |ls|;
      }
    }
  }

  /** Filtering distributes over concatenation: the kept links stay in their original order. */
  lemma {:induction false} CompleteLinksAppend(a: seq<Link>, b: seq<Link>)
    ensures CompleteLinks(a + b) == CompleteLinks(a) + CompleteLinks(b)
  {
    if a == [] {
      assert a + b == b;
    } else {
      assert (a + b)[1..] == a[1..] + b;
      CompleteLinksAppend(a[1..], b);
    }
  }

  /** Cleaning a document changes nothing exactly when it holds no incomplete link. */
  lemma CleanedIdentity(d: Doc)
    ensures Cleaned(d) == d <==> AllComplete(d)
  {
    var ss := d.sections;
    if AllComplete(d) {
      forall i | 0 <= i < |ss| ensures CleanSections(ss)[i] == ss[i] {
        assert ss[i] in ss;
        CompleteLinksIdentity(ss[i].links);
      }
    }
    if Cleaned(d) == d {
      forall s | s in ss ensures forall l :: l in s.links ==> Complete(l) {
        var i :| 0 <= i < |ss| && ss[i] == s;
        assert CleanSections(ss)[i] == s;
        CompleteLinksIdentity(s.links);
      }
    }
  }

  /** A cleaned document holds only complete links, and cleaning it again changes nothing. */
  lemma CleanedIsClean(d: Doc)
    ensures AllComplete(Cleaned(d))
    ensures Cleaned(Cleaned(d)) == Cleaned(d)
  {
    var ss := CleanSections(d.sections);
    forall s | s in ss ensures forall l :: l in s.links ==> Complete(l) {
      var i :| 0 <= i < |ss| && ss[i] == s;
    }
    CleanedIdentity(Cleaned(d));
  }
}
