# Homepage link editor: a Dafny model of the edit session

The dashboard keeps its bookmarks in one links document,
`{ sections: [ { title, links: [ { name, url } ] } ] }`. The page script
(the `DEFAULT_JS` string in `main.py`) shows the document read-only. After the
user clicks Edit, it re-renders every title, name and URL as a text input and
adds Remove/Add buttons. On Save it rebuilds a whole document from the inputs
and posts it to `/api/links`. The server replaces the links file with it once
it has checked that the body carries a `sections` key.

This project models that edit session and proves what it does to the
document.

- `document.dfy`: the document (`Link`, `Section`, `Doc`) and "cleaning", which
  removes every link whose name or URL is empty.
- `view.dfy` (module `EditView`): the links container's DOM, abstracted to what
  the save step reads.
  - A box stands for one `div.section`. It has an optional title-input value
    and a sequence of rows.
  - A row stands for one `li.link-item`. It has an optional name-input value
    and an optional URL-input value.
  - The module also holds what `render` builds in either mode, what each click
    handler and each typed value does to the boxes, and the reconciliation
    (`ReconcileRows`, `ReconcileView`) with its lemmas.
- `editor.dfy` (module `Editor`): the page as a class `LinksContainer`.
  - Its fields are the mutable `isEditMode` flag and the current boxes.
  - Its methods are `render` (nested loops), `fetchAndRenderLinks`, the Edit
    button and `toggleEditMode`, the loop-based reconciliation of
    `saveChanges`, `saveChanges` itself and the four click handlers.
  - Network results are parameters: the fetched document (or a failed fetch)
    and the save response.
- `server.dfy` (module `Server`): the JSON body the page posts, the
  `'sections' in new_data` test with Python's semantics, `save_links` over a
  links file, and the page reading the stored document back.
- `findings.dfy`: the click handler as the page actually registers it (see
  Findings).

What is proved, in the source's terms:
- A save keeps a row exactly when both of its inputs exist and hold non-empty
  values. Blank rows are dropped wherever they sit.
- A box without a title input is skipped. Every other box yields exactly one
  section, with its title copied verbatim. That section is kept even when no
  row survives.
- A save keeps section order and row order. Reconciliation distributes over
  concatenation.
- Rendering in edit mode and saving without edits posts the document minus its
  incomplete links. It posts the document itself when there are none.
- Add Link never changes what is saved, however often it is clicked.
- Add Section adds exactly one trailing "New Section" with no links.
- Remove Section and Remove Link drop exactly their own contribution and keep
  the order of everything else.
- A successful save flips the mode flag. A failed one changes neither the flag
  nor the boxes.
- The page's body always has a `sections` key, so the server never answers 400
  to it. After a 200, reloading reads back the posted document.

Two consequences are proved as well:
- A container that still holds a display-mode rendering has no inputs, so a
  save of it would post `{sections: []}`. This can happen while the re-render
  that follows Edit is still in flight.
- If the fetch fails when Edit is clicked, the container holds only an error
  message. Save then posts `{sections: []}`, and the server accepts it as a
  whole-file replacement.

Points where this version of the page is narrower than a full editor; the
model follows the code:
- Inputs are not trimmed. A name of one space is kept.
- There is no discard action. Edit mode is left only by a successful save.
- There is no drag-and-drop reordering, no quick-add by dropping a URL, no
  search, no settings and no notes. None of these is in `main.py`.

## Model

| member | source | states |
|---|---|---|
| `Document.CompleteLinks` | main.py:238-247 | the links kept from a list are exactly its members whose name and URL are both non-empty (both directions), never more than the input |
| `Document.CompleteLinksIdentity` | main.py:238-247 | filtering blank links leaves a link list unchanged exactly when every link in it is complete |
| `Document.CompleteLinksAppend` | main.py:238-247 | filtering blank links distributes over concatenation, so the kept links stay in their original order |
| `Document.CleanedIdentity` | main.py:238-248 | removing incomplete links changes a document exactly when it holds one |
| `Document.CleanedIsClean` | main.py:238-248 | a cleaned document holds only complete links and cleaning it again changes nothing |
| `EditView.RenderRow` | main.py:183-194 | an edit-mode row carries the link's name and URL as input values, a display-mode row no input; the row is kept by a save exactly when it is an edit-mode row of a complete link, and then reads back as that link |
| `EditView.RenderBox` | main.py:167-205 | the box has a title input holding the section's title exactly in edit mode, and one row per link, row j rendered from link j |
| `EditView.RenderView` | main.py:164-207 | one box per section in document order; in edit mode box i holds section i's title and row j holds link j's name and URL; in display mode no box or row holds an input |
| `EditView.Kept` | main.py:239-241 | a row passes the save's guard exactly when it holds the name and URL inputs of some link with both fields non-empty |
| `EditView.RenderEditShaped` | main.py:164-207 | the edit-mode render gives every section a title input and every link both inputs, with one box per section and one row per link |
| `EditView.RowLink` | main.py:241-245 | a kept row reads back as a link whose name and URL are both non-empty |
| `EditView.ReconcileRows` | main.py:238-247 | the links read back from a box are never more than its rows, and all are complete |
| `EditView.ReconcileBox` | main.py:230-236 | a box with a title input yields a section whose title is the input's value verbatim, holding only complete links |
| `EditView.ReconcileView` | main.py:229-249 | the sections read back are never more than the boxes, and every link in them is complete |
| `EditView.Reconciled` | main.py:228-255 | the posted `{ sections }` has no more sections than the container has boxes and no link with an empty field, so cleaning it changes nothing |
| `EditView.ReconcileRowsAppend` | main.py:238-247 | reading back rows distributes over concatenation, so row order is kept |
| `EditView.ReconcileViewAppend` | main.py:229-249 | reading back boxes distributes over concatenation, so section order is kept |
| `EditView.RowFilter` | main.py:238-246 | wherever a row sits, it adds its link at its own place when both inputs exist and are non-empty, and nothing otherwise |
| `EditView.BoxFilter` | main.py:229-248 | wherever a box sits, it adds exactly one section with its title verbatim when it has a title input (even when no row is kept), and nothing otherwise |
| `EditView.ReconcileRowsMembers` | main.py:239-246 | a link is saved from a box exactly when some row of that box with both inputs non-empty holds it |
| `EditView.EditShapedReconcile` | main.py:229-236 | when every box has a title input, the save yields one section per box, at the same index |
| `EditView.RenderRowsRoundTrip` | main.py:182-190 | rows rendered in edit mode read back as the section's complete links, in order |
| `EditView.RenderReconcileRoundTrip` | main.py:170-249 | rendering a document in edit mode and saving with no edits posts the document minus its links with an empty name or URL |
| `EditView.RenderReconcileIdentity` | main.py:170-249 | when no link has an empty field, the edit-mode render followed by a save posts the document unchanged |
| `EditView.DisplayViewReconcilesEmpty` | main.py:229-231 | a container holding a display-mode render has no title inputs, so a save of it posts no sections |
| `EditView.WithoutRow` | main.py:268-270 | Remove Link deletes exactly the targeted row; other rows and all other boxes are unchanged and keep their order |
| `EditView.WithoutBox` | main.py:271-273 | Remove Section deletes exactly the targeted box; the others keep their contents and order |
| `EditView.WithBlankRow` | main.py:274-285 | Add Link appends one row with empty name and URL inputs to the end of its box; nothing else changes |
| `EditView.WithNewSection` | main.py:286-299 | Add Section leaves every existing box in place and adds one box titled "New Section" with no rows after them |
| `EditView.WithTitle` | main.py:230-234 | typing into a title input changes that input's value only |
| `EditView.WithName` | main.py:239-243 | typing into a name input changes that input's value only |
| `EditView.WithUrl` | main.py:240-244 | typing into a URL input changes that input's value only |
| `EditView.TypeTitleSaves` | main.py:230-236 | a typed title is saved verbatim (the empty string included) in its box's place |
| `EditView.TypeNameSaves` | main.py:239-246 | after typing a name, the row adds the link made of that name and its URL exactly when both are non-empty, and the other rows add what they did before |
| `EditView.HandlersKeepEditShape` | main.py:268-299 | every handler, and typing a title, keeps "every box has a title input and every row both inputs" |
| `EditView.AddLinkSavesSame` | main.py:274-285 | one Add Link click leaves the saved document unchanged |
| `EditView.AddLinksSaveSame` | main.py:274-285 | any number of Add Link clicks, on any boxes, leave the saved document unchanged |
| `EditView.AddSectionSavesNewSection` | main.py:286-299 | after Add Section the save posts the previous sections plus one "New Section" with no links at the end |
| `EditView.RemoveSectionSaves` | main.py:271-273 | Remove Section drops exactly what the removed box contributed; the sections before and after keep their order |
| `EditView.RemoveSectionSavesAt` | main.py:271-273 | in an edit-mode view, Remove Section drops exactly the saved section at that index |
| `EditView.RemoveLinkSaves` | main.py:268-270 | Remove Link drops the row's link when it was kept and nothing otherwise; the box's other links keep their order |
| `EditView.RemoveLinkSavesView` | main.py:268-270 | Remove Link changes only its own box's saved section, and nothing at all when the row was not kept |
| `Editor.LinksContainer.constructor` | main.py:146-150 | the page starts in display mode with an empty container |
| `Editor.LinksContainer.Render` | main.py:164-214 | the container is cleared and then holds one box per section of the document, rendered in the current mode; the mode is unchanged |
| `Editor.LinksContainer.FetchAndRender` | main.py:152-162 | a fetched document is rendered; a failed fetch leaves no section box; the mode is unchanged |
| `Editor.LinksContainer.ClickEdit` | main.py:219-225 | the Edit button (registered at main.py:303), clickable only in display mode since it is hidden in edit mode (main.py:76-78, 222), enters edit mode and re-renders the fetched document with inputs, or leaves no section box when the fetch fails |
| `Editor.LinksContainer.ToggleEditMode` | main.py:219-225 | the mode flag flips and the container is re-rendered from the fetch in the new mode |
| `Editor.LinksContainer.Reconcile` | main.py:227-249 | the nested loops build exactly the reconciled document of the current boxes |
| `Editor.LinksContainer.SaveChanges` | main.py:227-263 | run from the Save button (registered at main.py:304), which is visible only in edit mode (main.py:223): the posted document is the reconciliation of the boxes; an ok response leaves edit mode and re-renders in display mode; a failure changes neither mode nor boxes |
| `Editor.SaveResponse.Ok` | main.py:257 | `response.ok` holds exactly for an HTTP response with a 2xx status, so never for a transport failure, a 400 or a 500 |
| `Editor.LinksContainer.RemoveLink` | main.py:268-270 | the container becomes WithoutRow of its old boxes; the mode is unchanged |
| `Editor.LinksContainer.RemoveSection` | main.py:271-273 | the container becomes WithoutBox of its old boxes; the mode is unchanged |
| `Editor.LinksContainer.AddLink` | main.py:274-285 | the container becomes WithBlankRow of its old boxes; the mode is unchanged |
| `Editor.LinksContainer.AddSection` | main.py:286-299 | the container becomes WithNewSection of its old boxes: one new box per click; the mode is unchanged |
| `Editor.LinksContainer.TypeTitle` | main.py:233-234 | the container becomes WithTitle of its old boxes |
| `Editor.LinksContainer.TypeName` | main.py:239-243 | the container becomes WithName of its old boxes |
| `Editor.LinksContainer.TypeUrl` | main.py:240-244 | the container becomes WithUrl of its old boxes |
| `Editor.EditAddLinksAndSave` | main.py:219-285 | load, Edit, any number of Add Link clicks, Save: the posted document is the loaded one minus incomplete links, and edit mode is left exactly when the response is ok |
| `Editor.SaveAfterFailedEditLoad` | main.py:152-249 | if the fetch fails when Edit is clicked, Save posts a document with no sections |
| `Server.ContainsSections` | main.py:390-391 | the key test is defined for objects, arrays and strings and raises for every other JSON value; on an object it is key membership |
| `Server.EncodeLink` | main.py:242-245 | a link encoded as `{ name, url }` reads back as the same link |
| `Server.EncodeLinks` | main.py:238-247 | a link list encodes to an array of the same length that reads back as the same list, in order |
| `Server.EncodeSection` | main.py:233-236 | a section encoded as `{ title, links }` reads back as the same section |
| `Server.EncodeSections` | main.py:252-256 | the sections encode to an array of the same length that reads back as the same sections, in order |
| `Server.EncodeDoc` | main.py:252-256 | the body the page posts always passes the server's `sections` test, and reading it back gives the posted document, order and contents kept |
| `Server.DecodeLink` | main.py:182-194 | a link is read exactly from an object whose `name` and `url` are strings, with those values |
| `Server.DecodeLinks` | main.py:182 | a link array is read exactly when every element is a link, one link per element in order |
| `Server.DecodeSection` | main.py:166-182 | a section is read exactly from an object with a string `title` and a readable `links` array, with those values |
| `Server.DecodeSections` | main.py:166 | a section array is read exactly when every element is a section, one section per element in order |
| `Server.DecodeDoc` | main.py:155-166 | a loaded body is read exactly when its `sections` field is an array of readable sections, with one section per element |
| `Server.LinkStore.SaveLinks` | main.py:386-396 | an unparseable body or one the key test raises on gives 500; a body without `sections` gives 400; in both cases the file is not written; otherwise the body replaces the file with 200, or 500 when the write fails |
| `Server.PostAndReload` | main.py:251-258 | the page's post is never answered 400, it is answered 200 exactly when the write succeeds, and after a 200 the reload reads back the posted document |
| `Findings.ClickAsWritten` | main.py:265-300 | with n listeners, one Add Section click adds n "New Section" boxes and one Add Link click adds n blank rows |
| `Findings.AddSectionAfterEnteringEditMode` | main.py:216 | after the load render and the Edit render, one Add Section click adds two boxes and the save posts two new sections |
| `Findings.OneListenerIsOneRun` | main.py:267-299 | with exactly one listener, a click runs its handler once, as the Editor class methods model |

## Left out

- HTTP routing, static file serving, reading the links file in `get_links`, and
  creating directories and default files in `initialize_app` (main.py:332-383).
  These are I/O. Only the `save_links` decision and its effect on the file are
  modelled.
- The embedded HTML and CSS, the display-mode anchor markup, the
  `data-section-index`/`data-link-index` attributes, and the `edit-mode` class
  on the body (main.py:221). They are presentation only, and reconciliation
  never reads them. The `hidden` toggles on the two buttons (main.py:222-223)
  are not presentation only: they decide which button can be clicked. The
  model keeps that as preconditions: `ClickEdit` requires display mode and
  `SaveChanges` requires edit mode.
- `fetch`, `async`, `alert` and `console`. A fetch result and a save response
  are parameters. `alert` and `console` only report.
- `Editor.LinksContainer.ToggleEditMode`: the fetch and re-render that follow
  the flag flip are applied at once. The window in which the flag and the
  container disagree is not modelled, except for the lemma that a display-mode
  container saves as an empty document.
- Field values are treated as round-tripping verbatim through
  `value="${...}"`, which the real page does not guarantee. It interpolates
  titles, names and URLs into markup without escaping. So a `"` cuts the value
  short. A character reference such as `&amp;` is decoded by the HTML parser
  and reads back as `&`. A text input also strips line breaks from its value.
- A fetched body that is not a links document is given to the model as a
  failed fetch. `render` would throw on it part-way, and the catch in
  `fetchAndRenderLinks` shows the error message (main.py:158-159).
- `Server.DecodeDoc`: it accepts only documents whose fields are strings. The
  page's template coercion of other values (a missing title shows as
  `undefined`) is not modelled.
- Listener accumulation is modelled only in `findings.dfy`. The `Editor` class
  runs one handler per click, which is the corrected behaviour.
- JSON numbers are integers. Floating point plays no part in the links
  document.

## Findings

| source | as written | input that shows it | evidently intended | confidence | as-written member | corrected member |
|---|---|---|---|---|---|---|
| main.py:216 | every `render` calls `addEventListeners`, which adds one more click listener to the same container, so one click runs the handler once per render so far | load the page (first render), click Edit (second render), then click Add Section once: two "New Section" boxes appear and Save posts both | one click adds one section (or one row) | high, not executed | `Findings.AddSectionAfterEnteringEditMode` | `Editor.LinksContainer.AddSection` |
