/**
 * The page's edit session: the mutable `isEditMode` flag and the links
 * container that `render` fills and the click handlers edit in place.
 * Network results (the fetched document, the save response) are parameters.
 */
module Editor {
  import opened Wrappers
  import opened Document
  import opened EditView

  /** What the `fetch` of a save produced: a transport failure, or an HTTP response. */
  datatype SaveResponse = TransportFailure | Response(status: int) {
    /** `response.ok`: an HTTP response whose status is a 2xx code (a transport failure is never ok). */
    predicate Ok(): (o: bool)
      ensures o <==> Response? && status / 100 == 2
      ensures o ==> status != 400 && status != 500
    {
      Response? && 200 <= status <= 299
    }
  }

  class LinksContainer {
    /** Whether the page is in edit mode. */
    var isEditMode: bool
    /** The section boxes currently in the links container. */
    var view: View

    /** The page as the load handler finds it: display mode, nothing rendered yet. */
    constructor ()
      ensures !isEditMode && view == []
    {
      isEditMode := false;
      view := [];
    }

    /** `render`: clears the container and appends one box per section, in the current mode. */
    method Render(d: Doc)
      modifies this
      ensures isEditMode == old(isEditMode)
      ensures view == RenderView(d, isEditMode)
    {
      view := [];
      var i := 0;
      while i < |d.sections|
        invariant 0 <= i <= |d.sections|
        invariant isEditMode == old(isEditMode)
        invariant |view| == i
        invariant forall k :: 0 <= k < i ==> view[k] == RenderBox(d.sections[k], isEditMode)
      {
        var section := d.sections[i];
        var rows: seq<Row> := [];
        var j := 0;
        while j < |section.links|
          invariant 0 <= j <= |section.links|
          invariant |rows| == j
          invariant forall k :: 0 <= k < j ==> rows[k] == RenderRow(section.links[k], isEditMode)
        {
          var link := section.links[j];
          var row := if isEditMode then Row(Some(link.name), Some(link.url)) else Row(None, None);
          rows := rows + [row];
          j := j + 1;
        }
        var title := if isEditMode then Some(section.title) else None;
        view := view + [Box(title, rows)];
        i := i + 1;
      }
    }

    /**
     * `fetchAndRenderLinks`: on a fetched document, render it; on a failed
     * fetch, the container holds only an error message, so no section box.
     */
    method FetchAndRender(fetched: Option<Doc>)
      modifies this
      ensures isEditMode == old(isEditMode)
      ensures fetched.Some? ==> view == RenderView(fetched.value, isEditMode)
      ensures fetched.None? ==> view == []
    {
      if fetched.Some? {
        Render(fetched.value);
      } else {
        view := [];
      }
    }

    /**
     * The Edit button. It is hidden (`display: none`) while the page is in
     * edit mode, so it can only be clicked in display mode; it runs
     * `toggleEditMode`, which enters edit mode.
     */
    method ClickEdit(fetched: Option<Doc>)
      requires !isEditMode
      modifies this
      ensures isEditMode
      ensures fetched.Some? ==> view == RenderView(fetched.value, true)
      ensures fetched.None? ==> view == []
    {
      ToggleEditMode(fetched);
    }

    /** `toggleEditMode`: flips the mode, then fetches and re-renders in the new mode. */
    method ToggleEditMode(fetched: Option<Doc>)
      modifies this
      ensures isEditMode == !old(isEditMode)
      ensures fetched.Some? ==> view == RenderView(fetched.value, isEditMode)
      ensures fetched.None? ==> view == []
    {
      isEditMode := !isEditMode;
      FetchAndRender(fetched);
    }

    /**
     * The reading part of `saveChanges`: walk the boxes in DOM order, skip a
     * box without a title input, and keep a row only when both of its inputs
     * exist and hold non-empty values.
     */
    method Reconcile() returns (d: Doc)
      ensures d == Reconciled(view)
    {
      var sections: seq<Section> := [];
      var i := 0;
      while i < |view|
        invariant 0 <= i <= |view|
        invariant sections == ReconcileView(view[..i])
      {
        var box := view[i];
        assert view[..i + 1] == view[..i] + [box];
        ReconcileViewAppend(view[..i], [box]);
        assert [box][1..] == [];
        if box.titleInput.Some? {
          var links: seq<Link> := [];
          var j := 0;
          while j < |box.rows|
            invariant 0 <= j <= |box.rows|
            invariant links == ReconcileRows(box.rows[..j])
          {
            var row := box.rows[j];
            assert box.rows[..j + 1] == box.rows[..j] + [row];
            ReconcileRowsAppend(box.rows[..j], [row]);
            assert [row][1..] == [];
            if row.nameInput.Some? && row.urlInput.Some? && row.nameInput.value != "" && row.urlInput.value != "" {
              links := links + [Link(row.nameInput.value, row.urlInput.value)];
            }
            j := j + 1;
          }
          assert box.rows[..|box.rows|] == box.rows;
          sections := sections + [Section(box.titleInput.value, links)];
        }
        i := i + 1;
      }
      assert view[..|view|] == view;
      d := Doc(sections);
    }

    /**
     * `saveChanges`, run by the Save button, which is hidden outside edit
     * mode: post the reconciled document; on an ok response leave edit mode
     * (and re-render from `refetched` in display mode), otherwise change
     * nothing.
     */
    method SaveChanges(response: SaveResponse, refetched: Option<Doc>) returns (posted: Doc)
      requires isEditMode
      modifies this
      ensures posted == Reconciled(old(view))
      ensures response.Ok() ==> !isEditMode
      ensures response.Ok() && refetched.Some? ==> view == RenderView(refetched.value, false)
      ensures response.Ok() && refetched.None? ==> view == []
      ensures !response.Ok() ==> isEditMode == old(isEditMode) && view == old(view)
    {
      posted := Reconcile();
      if response.Ok() {
        ToggleEditMode(refetched);
      }
    }

    /** Remove Link clicked on row `l` of box `s`: that row leaves the DOM. */
    method RemoveLink(s: nat, l: nat)
      requires s < |view| && l < |view[s].rows|
      modifies this
      ensures isEditMode == old(isEditMode)
      ensures view == WithoutRow(old(view), s, l)
    {
      var box := view[s];
      view := view[s := Box(box.titleInput, box.rows[..l] + box.rows[l + 1..])];
    }

    /** Remove Section clicked in box `s`: that box leaves the DOM. */
    method RemoveSection(s: nat)
      requires s < |view|
      modifies this
      ensures isEditMode == old(isEditMode)
      ensures view == WithoutBox(old(view), s)
    {
      view := view[..s] + view[s + 1..];
    }

    /** Add Link clicked in box `s`: a row with two empty inputs is appended to its list. */
    method AddLink(s: nat)
      requires s < |view|
      modifies this
      ensures isEditMode == old(isEditMode)
      ensures view == WithBlankRow(old(view), s)
    {
      var box := view[s];
      view := view[s := Box(box.titleInput, box.rows + [BlankRow])];
    }

    /** The user types `t` into the title input of box `s`. */
    method TypeTitle(s: nat, t: string)
      requires s < |view| && view[s].titleInput.Some?
      modifies this
      ensures isEditMode == old(isEditMode)
      ensures view == WithTitle(old(view), s, t)
    {
      view := view[s := Box(Some(t), view[s].rows)];
    }

    /** The user types `t` into the name input of row `l` of box `s`. */
    method TypeName(s: nat, l: nat, t: string)
      requires s < |view| && l < |view[s].rows| && view[s].rows[l].nameInput.Some?
      modifies this
      ensures isEditMode == old(isEditMode)
      ensures view == WithName(old(view), s, l, t)
    {
      var box := view[s];
      view := view[s := Box(box.titleInput, box.rows[l := Row(Some(t), box.rows[l].urlInput)])];
    }

    /** The user types `t` into the URL input of row `l` of box `s`. */
    method TypeUrl(s: nat, l: nat, t: string)
      requires s < |view| && l < |view[s].rows| && view[s].rows[l].urlInput.Some?
      modifies this
      ensures isEditMode == old(isEditMode)
      ensures view == WithUrl(old(view), s, l, t)
    {
      var box := view[s];
      view := view[s := Box(box.titleInput, box.rows[l := Row(box.rows[l].nameInput, Some(t))])];
    }

    /** Add Section clicked: a "New Section" box is inserted before the button, after every box. */
    method AddSection()
      modifies this
      ensures isEditMode == old(isEditMode)
      ensures view == WithNewSection(old(view))
    {
      view := view + [NewSectionBox];
    }
  }

  /**
   * An edit session from a loaded page: enter edit mode with `d` fetched,
   * click Add Link on each of `targets`, then save. Whatever the response,
   * the posted document is `d` without its incomplete links.
   */
  method EditAddLinksAndSave(d: Doc, targets: seq<nat>, response: SaveResponse, refetched: Option<Doc>)
    returns (posted: Doc, editModeAfter: bool)
    requires forall k :: 0 <= k < |targets| ==> targets[k] < |d.sections|
    ensures posted == Cleaned(d)
    ensures editModeAfter == !response.Ok()
  {
    var page := new LinksContainer();
    page.FetchAndRender(Some(d));
    page.ClickEdit(Some(d));
    RenderEditShaped(d);
    var i := 0;
    while i < |targets|
      invariant 0 <= i <= |targets|
      invariant page.isEditMode
      invariant page.view == AddLinks(RenderView(d, true), targets[..i])
      invariant |page.view| == |d.sections|
    {
      AddLinksSnoc(RenderView(d, true), targets[..i], targets[i]);
      assert targets[..i + 1] == targets[..i] + [targets[i]];
      page.AddLink(targets[i]);
      i := i + 1;
    }
    assert targets[..i] == targets;
    AddLinksSaveSame(RenderView(d, true), targets);
    RenderReconcileRoundTrip(d);
    posted := page.SaveChanges(response, refetched);
    editModeAfter := page.isEditMode;
  }

  /**
   * Edit clicked while the links cannot be fetched: the container is left
   * with an error message and no section box, so a Save posts a document with
   * no sections, which the server accepts as a whole-file replacement.
   */
  method SaveAfterFailedEditLoad(response: SaveResponse, refetched: Option<Doc>) returns (posted: Doc)
    ensures posted == Doc([])
  {
    var page := new LinksContainer();
    page.ClickEdit(None);
    posted := page.SaveChanges(response, refetched);
  }
}
