/**
 * The links container's DOM, abstracted to what the save step reads back.
 * The container holds a sequence of `div.section` boxes; a box may carry a
 * `.section-title-input` and holds its `li.link-item` rows in order; a row may
 * carry a `.link-name-input` and a `.link-url-input`. Buttons, headings and
 * anchors are not recorded: reconciliation never looks at them.
 *
 * This module gives the pure meaning of the editor: what `render` builds from
 * a document, what each click handler does to the boxes, and what the save
 * step rebuilds from them.
 */
module EditView {
  import opened Wrappers
  import opened Document

  /** One `li.link-item`: the value of its name input and of its URL input, when present. */
  datatype Row = Row(nameInput: Option<string>, urlInput: Option<string>)

  /** One `div.section`: the value of its title input, when present, and its link rows. */
  datatype Box = Box(titleInput: Option<string>, rows: seq<Row>)

  /** The section boxes of the links container, in DOM order. */
  type View = seq<Box>

  /** The title the Add Section handler writes into a new box's title input. */
  const NewSectionTitle: string := "New Section"

  /** The row the Add Link handler appends: both inputs present, neither with a value. */
  const BlankRow: Row := Row(Some(""), Some(""))

  /** The box the Add Section handler inserts: a title input holding "New Section" and no rows. */
  const NewSectionBox: Box := Box(Some(NewSectionTitle), [])

  // ---------------------------------------------------------------------------
  // render

  /**
   * A link rendered as a row: with inputs seeded from its fields in edit mode,
   * as an anchor (no input) otherwise. An edit-mode row is kept by a save
   * exactly when its link is complete, and then reads back as that link.
   */
  function RenderRow(l: Link, editMode: bool): (r: Row)
    ensures editMode ==> r.nameInput == Some(l.name) && r.urlInput == Some(l.url)
    ensures !editMode ==> r.nameInput.None? && r.urlInput.None?
    ensures Kept(r) <==> editMode && Complete(l)
    ensures Kept(r) ==> RowLink(r) == l
  {
    if editMode then Row(Some(l.name), Some(l.url)) else Row(None, None)
  }

  /** A section rendered as a box: a title input in edit mode, a heading otherwise; one row per link. */
  function RenderBox(s: Section, editMode: bool): (b: Box)
    ensures b.titleInput == (if editMode then Some(s.title) else None)
    ensures |b.rows| == |s.links|
    ensures forall j :: 0 <= j < |s.links| ==> b.rows[j] == RenderRow(s.links[j], editMode)
  {
    Box(if editMode then Some(s.title) else None,
        seq(|s.links|, j requires 0 <= j < |s.links| => RenderRow(s.links[j], editMode)))
  }

  /**
   * What `render` leaves in the links container: one box per section, in
   * document order. In edit mode box `i` carries section `i`'s title and row
   * `j` of it carries link `j`'s name and URL; in display mode no box and no
   * row carries an input.
   */
  function RenderView(d: Doc, editMode: bool): (v: View)
    ensures |v| == |d.sections|
    ensures forall i :: 0 <= i < |v| ==> |v[i].rows| == |d.sections[i].links|
    ensures editMode ==> forall i :: 0 <= i < |v| ==> v[i].titleInput == Some(d.sections[i].title)
    ensures editMode ==> forall i, j :: 0 <= i < |v| && 0 <= j < |v[i].rows| ==>
      v[i].rows[j] == Row(Some(d.sections[i].links[j].name), Some(d.sections[i].links[j].url))
    ensures !editMode ==> forall i :: 0 <= i < |v| ==> v[i].titleInput.None?
    ensures !editMode ==> forall i, j :: 0 <= i < |v| && 0 <= j < |v[i].rows| ==> v[i].rows[j] == Row(None, None)
  {
    seq(|d.sections|, i requires 0 <= i < |d.sections| => RenderBox(d.sections[i], editMode))
  }

  /** Every box has a title input and every row has both inputs: what edit mode produces. */
  predicate EditShaped(v: View) {
    forall i :: 0 <= i < |v| ==>
      v[i].titleInput.Some? &&
      forall j :: 0 <= j < |v[i].rows| ==> v[i].rows[j].nameInput.Some? && v[i].rows[j].urlInput.Some?
  }

  /** Rendering in edit mode yields an edit-shaped view with one box per section and one row per link. */
  lemma RenderEditShaped(d: Doc)
    ensures EditShaped(RenderView(d, true))
    ensures |RenderView(d, true)| == |d.sections|
    ensures forall i :: 0 <= i < |d.sections| ==> |RenderView(d, true)[i].rows| == |d.sections[i].links|
  {
  }

  // ---------------------------------------------------------------------------
  // the save step (reconciliation)

  /**
   * A row whose name and URL inputs both exist and both hold a non-empty value:
   * exactly the rows that hold the inputs of some complete link.
   */
  predicate Kept(r: Row): (k: bool)
    ensures k <==> exists l: Link :: Complete(l) && r == Row(Some(l.name), Some(l.url))
  {
    var k := r.nameInput.Some? && r.urlInput.Some? && r.nameInput.value != "" && r.urlInput.value != "";
    assert k ==> var l := Link(r.nameInput.value, r.urlInput.value); Complete(l) && r == Row(Some(l.name), Some(l.url));
    k
  }

  /** The link a kept row reads back as. */
  function RowLink(r: Row): (l: Link)
    requires Kept(r)
    ensures Complete(l)
  {
    Link(r.nameInput.value, r.urlInput.value)
  }

  /** The links read back from a box's rows: the kept rows, in row order. */
  function ReconcileRows(rows: seq<Row>): (ls: seq<Link>)
    ensures |ls| <= |rows|
    ensures forall l :: l in ls ==> Complete(l)
  {
    if rows == [] then []
    else if Kept(rows[0]) then [RowLink(rows[0])] + ReconcileRows(rows[1..])
    else ReconcileRows(rows[1..])
  }

  /** The section read back from a box that has a title input: its title verbatim, even when empty. */
  function ReconcileBox(b: Box): (s: Section)
    requires b.titleInput.Some?
    ensures s.title == b.titleInput.value
    ensures forall l :: l in s.links ==> Complete(l)
  {
    Section(b.titleInput.value, ReconcileRows(b.rows))
  }

  /** The sections read back from the container: boxes without a title input are skipped. */
  function ReconcileView(v: View): (ss: seq<Section>)
    ensures |ss| <= |v|
    ensures forall s :: s in ss ==> forall l :: l in s.links ==> Complete(l)
  {
    if v == [] then []
    else if v[0].titleInput.Some? then [ReconcileBox(v[0])] + ReconcileView(v[1..])
    else ReconcileView(v[1..])
  }

  /**
   * The document the save step posts: never more sections than boxes, and no
   * incomplete link, so cleaning it changes nothing.
   */
  function Reconciled(v: View): (d: Doc)
    ensures |d.sections| <= |v|
    ensures AllComplete(d)
    ensures Cleaned(d) == d
  {
    var d := Doc(ReconcileView(v));
    CleanedIdentity(d);
    d
  }

  /** Reading back rows distributes over concatenation: row order is kept. */
  lemma {:induction false} ReconcileRowsAppend(a: seq<Row>, b: seq<Row>)
    ensures ReconcileRows(a + b) == ReconcileRows(a) + ReconcileRows(b)
  {
    if a == [] {
      assert a + b == b;
    } else {
      assert (a + b)[1..] == a[1..] + b;
      ReconcileRowsAppend(a[1..], b);
    }
  }

  /** Reading back boxes distributes over concatenation: section order is kept. */
  lemma {:induction false} ReconcileViewAppend(a: View, b: View)
    ensures ReconcileView(a + b) == ReconcileView(a) + ReconcileView(b)
  {
    if a == [] {
      assert a + b == b;
    } else {
      assert (a + b)[1..] == a[1..] + b;
      ReconcileViewAppend(a[1..], b);
    }
  }

  /**
   * Wherever a row sits, it contributes its link exactly when both inputs exist
   * and are non-empty; a row with a blank or missing field contributes nothing.
   */
  lemma RowFilter(a: seq<Row>, r: Row, b: seq<Row>)
    ensures Kept(r) ==> ReconcileRows(a + [r] + b) == ReconcileRows(a) + [RowLink(r)] + ReconcileRows(b)
    ensures !Kept(r) ==> ReconcileRows(a + [r] + b) == ReconcileRows(a + b)
  {
    ReconcileRowsAppend(a + [r], b);
    ReconcileRowsAppend(a, [r]);
    ReconcileRowsAppend(a, b);
  }

  /**
   * Wherever a box sits, it contributes exactly one section when it has a title
   * input (even if none of its rows is kept), and nothing when it has none.
   */
  lemma BoxFilter(a: View, b: Box, c: View)
    ensures b.titleInput.Some? ==>
      ReconcileView(a + [b] + c) == ReconcileView(a) + [Section(b.titleInput.value, ReconcileRows(b.rows))] + ReconcileView(c)
    ensures b.titleInput.None? ==> ReconcileView(a + [b] + c) == ReconcileView(a + c)
  {
    ReconcileViewAppend(a + [b], c);
    ReconcileViewAppend(a, [b]);
    ReconcileViewAppend(a, c);
    assert ReconcileView([b]) == (if b.titleInput.Some? then [ReconcileBox(b)] else []) + ReconcileView([b][1..]);
  }

  /** A link is read back from a row list exactly when some kept row holds it. */
  lemma {:induction false} ReconcileRowsMembers(rows: seq<Row>, l: Link)
    ensures l in ReconcileRows(rows) <==> exists r :: r in rows && Kept(r) && RowLink(r) == l
  {
    if rows != [] {
      ReconcileRowsMembers(rows[1..], l);
      assert forall r :: r in rows <==> r == rows[0] || r in rows[1..];
    }
  }

  /** On an edit-shaped view every box yields a section, at the same index. */
  lemma {:induction false} EditShapedReconcile(v: View)
    requires EditShaped(v)
    ensures |ReconcileView(v)| == |v|
    ensures forall i :: 0 <= i < |v| ==> ReconcileView(v)[i] == ReconcileBox(v[i])
  {
    if v != [] {
      assert EditShaped(v[1..]) by {
        forall i | 0 <= i < |v[1..]| ensures v[1..][i] == v[i + 1] { }
      }
      EditShapedReconcile(v[1..]);
    }
  }

  /** Rows rendered in edit mode read back as the complete links of the section, in order. */
  lemma {:induction false} RenderRowsRoundTrip(ls: seq<Link>)
    ensures ReconcileRows(RenderBox(Section("", ls), true).rows) == CompleteLinks(ls)
  {
    var rows := RenderBox(Section("", ls), true).rows;
    if ls != [] {
      assert rows[1..] == RenderBox(Section("", ls[1..]), true).rows;
      RenderRowsRoundTrip(ls[1..]);
    }
  }

  /**
   * Round trip: rendering a document in edit mode and saving with no edits
   * posts the document minus its incomplete links.
   */
  lemma RenderReconcileRoundTrip(d: Doc)
    ensures Reconciled(RenderView(d, true)) == Cleaned(d)
  {
    var v := RenderView(d, true);
    RenderEditShaped(d);
    EditShapedReconcile(v);
    forall i | 0 <= i < |v| ensures ReconcileView(v)[i] == CleanSections(d.sections)[i] {
      var s := d.sections[i];
      assert v[i].rows == RenderBox(Section("", s.links), true).rows;
      RenderRowsRoundTrip(s.links);
    }
  }

  /** With no incomplete link in the document, the round trip is the identity. */
  lemma RenderReconcileIdentity(d: Doc)
    requires AllComplete(d)
    ensures Reconciled(RenderView(d, true)) == d
  {
    RenderReconcileRoundTrip(d);
    CleanedIdentity(d);
  }

  /**
   * A container still holding a display-mode rendering has no inputs at all,
   * so the save step reads it back as a document with no sections.
   */
  lemma {:induction false} DisplayViewReconcilesEmpty(d: Doc)
    ensures Reconciled(RenderView(d, false)) == Doc([])
  {
    var v := RenderView(d, false);
    var k := 0;
    while k < |v|
      invariant 0 <= k <= |v|
      invariant ReconcileView(v[..k]) == []
    {
      assert v[..k + 1] == v[..k] + [v[k]];
      ReconcileViewAppend(v[..k], [v[k]]);
      k := k + 1;
    }
    assert v[..|v|] == v;
  }

  // ---------------------------------------------------------------------------
  // the click handlers, one run per click

  /** Remove Link: the row at index `l` of box `s` is removed; nothing else changes. */
  function WithoutRow(v: View, s: nat, l: nat): (w: View)
    requires s < |v| && l < |v[s].rows|
    ensures |w| == |v|
    ensures forall i :: 0 <= i < |v| && i != s ==> w[i] == v[i]
    ensures w[s].titleInput == v[s].titleInput
    ensures w[s].rows == v[s].rows[..l] + v[s].rows[l + 1..]
  {
    v[s := Box(v[s].titleInput, v[s].rows[..l] + v[s].rows[l + 1..])]
  }

  /** Remove Section: box `s` is removed; the others keep their contents and order. */
  function WithoutBox(v: View, s: nat): (w: View)
    requires s < |v|
    ensures |w| == |v| - 1
    ensures forall i :: 0 <= i < s ==> w[i] == v[i]
    ensures forall i :: s <= i < |w| ==> w[i] == v[i + 1]
  {
    v[..s] + v[s + 1..]
  }

  /** Add Link: a blank row is appended to box `s`; nothing else changes. */
  function WithBlankRow(v: View, s: nat): (w: View)
    requires s < |v|
    ensures |w| == |v|
    ensures forall i :: 0 <= i < |v| && i != s ==> w[i] == v[i]
    ensures w[s].titleInput == v[s].titleInput
    ensures w[s].rows == v[s].rows + [BlankRow]
  {
    v[s := Box(v[s].titleInput, v[s].rows + [BlankRow])]
  }

  /** Add Section: a "New Section" box with no rows is inserted after every existing box. */
  function WithNewSection(v: View): (w: View)
    ensures |w| == |v| + 1
    ensures w[..|v|] == v && w[|v|] == NewSectionBox
  {
    v + [NewSectionBox]
  }

  /** Typing into the title input of box `s`: its value becomes `t`. */
  function WithTitle(v: View, s: nat, t: string): (w: View)
    requires s < |v| && v[s].titleInput.Some?
    ensures |w| == |v|
    ensures forall i :: 0 <= i < |v| && i != s ==> w[i] == v[i]
    ensures w[s].titleInput == Some(t) && w[s].rows == v[s].rows
  {
    v[s := Box(Some(t), v[s].rows)]
  }

  /** Typing into the name input of row `l` of box `s`: its value becomes `t`. */
  function WithName(v: View, s: nat, l: nat, t: string): (w: View)
    requires s < |v| && l < |v[s].rows| && v[s].rows[l].nameInput.Some?
    ensures |w| == |v|
    ensures forall i :: 0 <= i < |v| && i != s ==> w[i] == v[i]
    ensures w[s].titleInput == v[s].titleInput && |w[s].rows| == |v[s].rows|
    ensures forall j :: 0 <= j < |v[s].rows| && j != l ==> w[s].rows[j] == v[s].rows[j]
    ensures w[s].rows[l] == Row(Some(t), v[s].rows[l].urlInput)
  {
    v[s := Box(v[s].titleInput, v[s].rows[l := Row(Some(t), v[s].rows[l].urlInput)])]
  }

  /** Typing into the URL input of row `l` of box `s`: its value becomes `t`. */
  function WithUrl(v: View, s: nat, l: nat, t: string): (w: View)
    requires s < |v| && l < |v[s].rows| && v[s].rows[l].urlInput.Some?
    ensures |w| == |v|
    ensures forall i :: 0 <= i < |v| && i != s ==> w[i] == v[i]
    ensures w[s].titleInput == v[s].titleInput && |w[s].rows| == |v[s].rows|
    ensures forall j :: 0 <= j < |v[s].rows| && j != l ==> w[s].rows[j] == v[s].rows[j]
    ensures w[s].rows[l] == Row(v[s].rows[l].nameInput, Some(t))
  {
    v[s := Box(v[s].titleInput, v[s].rows[l := Row(v[s].rows[l].nameInput, Some(t))])]
  }

  /** A typed title is saved verbatim, in its box's place, whatever it is (the empty string included). */
  lemma TypeTitleSaves(v: View, s: nat, t: string)
    requires s < |v| && v[s].titleInput.Some?
    ensures ReconcileView(WithTitle(v, s, t)) ==
      ReconcileView(v[..s]) + [Section(t, ReconcileRows(v[s].rows))] + ReconcileView(v[s + 1..])
  {
    var b := Box(Some(t), v[s].rows);
    assert WithTitle(v, s, t) == v[s := b];
    ReplaceBox(v, s, b);
    assert [b][1..] == [];
  }

  /**
   * After typing into a row's name input, that row contributes the link made
   * of the typed name and its URL exactly when both are non-empty; the other
   * rows of the box contribute what they did before.
   */
  lemma TypeNameSaves(rows: seq<Row>, l: nat, t: string)
    requires l < |rows| && rows[l].nameInput.Some?
    ensures var r := Row(Some(t), rows[l].urlInput);
      ReconcileRows(rows[l := r]) ==
        ReconcileRows(rows[..l]) +
        (if t != "" && r.urlInput.Some? && r.urlInput.value != "" then [Link(t, r.urlInput.value)] else []) +
        ReconcileRows(rows[l + 1..])
  {
    var r := Row(Some(t), rows[l].urlInput);
    assert rows[l := r] == rows[..l] + [r] + rows[l + 1..];
    RowFilter(rows[..l], r, rows[l + 1..]);
    if Kept(r) {
      assert RowLink(r) == Link(t, r.urlInput.value);
    } else {
      ReconcileRowsAppend(rows[..l], rows[l + 1..]);
    }
  }

  /** Every handler keeps an edit-shaped view edit-shaped. */
  lemma HandlersKeepEditShape(v: View, s: nat, l: nat)
    requires EditShaped(v)
    ensures s < |v| && l < |v[s].rows| ==> EditShaped(WithoutRow(v, s, l))
    ensures s < |v| ==> EditShaped(WithoutBox(v, s))
    ensures s < |v| ==> EditShaped(WithBlankRow(v, s))
    ensures EditShaped(WithNewSection(v))
    ensures forall t :: s < |v| ==> EditShaped(WithTitle(v, s, t))
  {
    if s < |v| && l < |v[s].rows| {
      var rows := v[s].rows;
      var w := WithoutRow(v, s, l);
      forall j | 0 <= j < |w[s].rows| ensures w[s].rows[j] == rows[if j < l then j else j + 1] { }
    }
  }

  /** Reading back a view in which one box was replaced: only that box's contribution changes. */
  lemma ReplaceBox(v: View, s: nat, b: Box)
    requires s < |v|
    ensures ReconcileView(v) == ReconcileView(v[..s]) + ReconcileView([v[s]]) + ReconcileView(v[s + 1..])
    ensures ReconcileView(v[s := b]) == ReconcileView(v[..s]) + ReconcileView([b]) + ReconcileView(v[s + 1..])
  {
    assert v == v[..s] + [v[s]] + v[s + 1..];
    assert v[s := b] == v[..s] + [b] + v[s + 1..];
    ReconcileViewAppend(v[..s] + [v[s]], v[s + 1..]);
    ReconcileViewAppend(v[..s], [v[s]]);
    ReconcileViewAppend(v[..s] + [b], v[s + 1..]);
    ReconcileViewAppend(v[..s], [b]);
  }

  /** Add Link never changes what is saved: the appended row is blank, so it is dropped. */
  lemma AddLinkSavesSame(v: View, s: nat)
    requires s < |v|
    ensures Reconciled(WithBlankRow(v, s)) == Reconciled(v)
  {
    var b := Box(v[s].titleInput, v[s].rows + [BlankRow]);
    assert ReconcileRows([BlankRow]) == [];
    ReconcileRowsAppend(v[s].rows, [BlankRow]);
    assert ReconcileRows(b.rows) == ReconcileRows(v[s].rows);
    assert [b][1..] == [] && [v[s]][1..] == [];
    if b.titleInput.Some? {
      assert ReconcileBox(b) == ReconcileBox(v[s]);
    }
    assert ReconcileView([b]) == ReconcileView([v[s]]);
    ReplaceBox(v, s, b);
    assert WithBlankRow(v, s) == v[s := b];
  }

  /** Any number of Add Link clicks, on any boxes, leave the saved document unchanged. */
  lemma {:induction false} AddLinksSaveSame(v: View, targets: seq<nat>)
    requires forall k :: 0 <= k < |targets| ==> targets[k] < |v|
    ensures Reconciled(AddLinks(v, targets)) == Reconciled(v)
    decreases |targets|
  {
    if targets != [] {
      AddLinkSavesSame(v, targets[0]);
      AddLinksSaveSame(WithBlankRow(v, targets[0]), targets[1..]);
    }
  }

  /** The view after Add Link has been clicked on each of `targets` in turn. */
  function AddLinks(v: View, targets: seq<nat>): (w: View)
    requires forall k :: 0 <= k < |targets| ==> targets[k] < |v|
    ensures |w| == |v|
    decreases |targets|
  {
    if targets == [] then v else AddLinks(WithBlankRow(v, targets[0]), targets[1..])
  }

  /** Clicking Add Link once more, on box `t`, after the clicks `ts`. */
  lemma {:induction false} AddLinksSnoc(v: View, ts: seq<nat>, t: nat)
    requires forall k :: 0 <= k < |ts| ==> ts[k] < |v|
    requires t < |v|
    ensures AddLinks(v, ts + [t]) == WithBlankRow(AddLinks(v, ts), t)
    decreases |ts|
  {
    if ts == [] {
      assert ts + [t] == [t];
    } else {
      assert (ts + [t])[1..] == ts[1..] + [t];
      AddLinksSnoc(WithBlankRow(v, ts[0]), ts[1..], t);
    }
  }

  /** Add Section makes the save step post one more section, "New Section" with no links, at the end. */
  lemma AddSectionSavesNewSection(v: View)
    ensures Reconciled(WithNewSection(v)).sections == Reconciled(v).sections + [Section(NewSectionTitle, [])]
  {
    ReconcileViewAppend(v, [NewSectionBox]);
  }

  /** Remove Section drops exactly what box `s` contributed; the sections before and after keep their order. */
  lemma RemoveSectionSaves(v: View, s: nat)
    requires s < |v|
    ensures ReconcileView(v) == ReconcileView(v[..s]) + ReconcileView([v[s]]) + ReconcileView(v[s + 1..])
    ensures ReconcileView(WithoutBox(v, s)) == ReconcileView(v[..s]) + ReconcileView(v[s + 1..])
  {
    ReplaceBox(v, s, v[s]);
    ReconcileViewAppend(v[..s], v[s + 1..]);
  }

  /** On an edit-shaped view, Remove Section drops exactly the saved section at index `s`. */
  lemma RemoveSectionSavesAt(v: View, s: nat)
    requires EditShaped(v) && s < |v|
    ensures |Reconciled(v).sections| == |v|
    ensures Reconciled(WithoutBox(v, s)).sections == Reconciled(v).sections[..s] + Reconciled(v).sections[s + 1..]
  {
    HandlersKeepEditShape(v, s, 0);
    EditShapedReconcile(v);
    EditShapedReconcile(WithoutBox(v, s));
  }

  /** A sequence is its prefix before `l`, its element at `l` and its suffix after `l`. */
  lemma SplitAt<T>(s: seq<T>, l: nat)
    requires l < |s|
    ensures s == s[..l] + [s[l]] + s[l + 1..]
  {
    assert s[l..] == [s[l]] + s[l + 1..];
    assert s == s[..l] + s[l..];
  }

  /**
   * Remove Link drops exactly what row `l` contributed to its box: its link when
   * it was kept, nothing otherwise; the box's other links keep their order.
   */
  lemma RemoveLinkSaves(rows: seq<Row>, l: nat)
    requires l < |rows|
    ensures Kept(rows[l]) ==>
      ReconcileRows(rows) == ReconcileRows(rows[..l]) + [RowLink(rows[l])] + ReconcileRows(rows[l + 1..])
    ensures ReconcileRows(rows[..l] + rows[l + 1..]) == ReconcileRows(rows[..l]) + ReconcileRows(rows[l + 1..])
    ensures !Kept(rows[l]) ==> ReconcileRows(rows[..l] + rows[l + 1..]) == ReconcileRows(rows)
  {
    SplitAt(rows, l);
    RowFilter(rows[..l], rows[l], rows[l + 1..]);
    ReconcileRowsAppend(rows[..l], rows[l + 1..]);
  }

  /** Remove Link changes only the saved section of its own box, and leaves the whole save alone when the row was not kept. */
  lemma RemoveLinkSavesView(v: View, s: nat, l: nat)
    requires s < |v| && l < |v[s].rows|
    ensures ReconcileView(WithoutRow(v, s, l)) ==
      ReconcileView(v[..s]) + ReconcileView([WithoutRow(v, s, l)[s]]) + ReconcileView(v[s + 1..])
    ensures !Kept(v[s].rows[l]) ==> Reconciled(WithoutRow(v, s, l)) == Reconciled(v)
  {
    var b := Box(v[s].titleInput, v[s].rows[..l] + v[s].rows[l + 1..]);
    assert WithoutRow(v, s, l) == v[s := b];
    ReplaceBox(v, s, b);
    RemoveLinkSaves(v[s].rows, l);
  }
}
