# pdfme template editor: schema bookkeeping

This project models the template editor of pdfme's UI. Rendering and the DOM are taken away, and what remains is a small state machine over plain data:

- `schemas`: one list of fields ("schemas") per PDF page;
- `pageCursor`: the page being edited;
- `past` and `future`: one pair of undo/redo snapshot stacks, shared by all pages;
- `copiedSchemas`: the clipboard;
- `activeIds`: the ids of the selected elements;
- `pageSizes`: the page sizes.

It also models the side panel's key-status classification of each field and the change records the edit panel emits.

Modules:

- `Schemas`: the data.
  - `Schema` is a record. JavaScript's `type` property is named `schemaType`.
  - `Env` holds the utilities the editor calls but whose code is not part of this model: `Number(string)`, `String(number)`, `round(v, 2)`, `getSampleByType`, `getKeepRaitoHeightByWidth` and `getInitialSchema()`. All but the last are fields of arrow type, so nothing about their behaviour is assumed. `getInitialSchema()` is one fixed `Schema` field, `initialSchema`, so every call is taken to give the same schema with the same id.
  - `Env.RoundTrips(v)` says `Number(String(v)) == v` for one number `v`. JavaScript gives this for every finite double. A contract that needs it asks it only of the number at hand, as a hypothesis of the clause that needs it.
- `History`: `commitSchemas` and `timeTavel` (undo and redo) as functions on the history state, with their laws.
- `Edits`: the computations that produce a new page list:
  - `fmtValue`;
  - the reduce of `changeSchema`, which can throw;
  - the filters of `removeSchemas` and `getActiveSchemas`;
  - `getLastActiveSchema`;
  - the keyboard `move` and `paste`;
  - the page normalisation done by `updateTemplate`.
- `Sidebar`: `status`, `getTitle`, the item's class name, and the change list of every edit-panel input.
- `Editor`: the class `TemplateEditor`, whose fields are the editor's state. It has one method per modelled callback or shortcut, and each method's postcondition ties the new state to the functions above.

Numbers are `real`. NaN and the infinities are not modelled.
Page sizes (from `getPdfPageSizes`), the sorted page lists (from `sortSchemas`) and the fresh ids (from `uuid()`) are parameters of the methods that use them.

## Model

| member | source | states |
|---|---|---|
| Schemas.IdsOf | src/components/Editor/index.tsx:137 | the ids of a list, in order, one per schema |
| History.Commit | src/components/Editor/index.tsx:221-227 | `future` is emptied, `past` grows by exactly a snapshot of the current page, only the current page's list is replaced (by the new list), every other page and the cursor are unchanged |
| History.TimeTravel | src/components/Editor/index.tsx:93-100 | with an empty stack for the mode nothing changes; otherwise the combined height of `past` and `future` is preserved, the current page becomes the popped top, the other stack grows by the old current page, and other pages are unchanged |
| History.TimeTravelRoundTrip | src/components/Editor/index.tsx:93-100 | undo then redo (or redo then undo) restores the page lists and both stacks |
| History.UndoAfterCommit | src/components/Editor/index.tsx:93-100 | undo right after a commit restores the page lists and `past`, leaving the committed list as the only redo snapshot |
| History.RedoAfterCommitIsNoop | src/components/Editor/index.tsx:221-227 | nothing can be redone after a commit |
| History.UndoCrossesPages | src/components/Editor/index.tsx:93-100 | the stacks are shared: after a commit on one page and a change of page, undo writes the first page's old list into the new page |
| History.Repeat | src/components/Editor/index.tsx:161-162 | repeated undos or redos keep the cursor and the page count |
| History.RepeatStackLength | src/components/Editor/index.tsx:95-98 | each of `n` time travels pops one snapshot while there is one |
| History.RepeatPeel | src/components/Editor/index.tsx:161-162 | `n + 1` steps are one step followed by `n` steps |
| History.StepThenRepeatBack | src/components/Editor/index.tsx:93-100 | one step followed by `n` steps the other way equals `n - 1` steps the other way |
| History.RepeatedRoundTrip | src/components/Editor/index.tsx:93-100 | `n` undos followed by `n` redos (or the reverse) restore the whole history, for any `n` up to the stack height |
| History.CommitAll | src/components/Editor/index.tsx:221-227 | successive commits keep the cursor and the page count |
| History.Reversed | src/components/Editor/index.tsx:96 | the elements in reverse order: element `i` of the result is element `n - 1 - i` of the input of length n |
| History.UndoAfterCommitWithFuture | src/components/Editor/index.tsx:93-100 | undo after a commit whose redo stack later became `f` restores the history with the committed list pushed on `f` |
| History.UndoAllCommits | src/components/Editor/index.tsx:93-100 | after `k` commits, `k` undos restore the page lists and `past`, and `future` holds the committed lists in reverse order |
| Edits.FmtValue | src/components/Editor/index.tsx:27-30 | skip-list keys keep the string unchanged; every other key becomes `Number(value)` with negatives replaced by 0, so it is never negative |
| Edits.FmtValueIdempotent | src/components/Editor/index.tsx:27-30 | normalising an already normalised value (shown with `String`) changes nothing, whenever the stored number survives `String` and `Number` |
| Edits.SetField | src/components/Editor/index.tsx:207 | `set` writes the value into exactly the named field (the skip-list paths take a string, the numeric paths a number) and keeps every other field; any other path leaves the schema unchanged |
| Edits.Edit | src/components/Editor/index.tsx:207-215 | a key other than `type` is written with the `fmtValue` of its value; a `type` change sets the type, resets `data` to `'text'` or the type's sample, recomputes `height` from `width` for types other than text and image, and changes nothing else |
| Edits.IndexOfId | src/components/Editor/index.tsx:205 | `find` by id: the first schema with the id, or none when no schema has it |
| Edits.ApplyChange | src/components/Editor/index.tsx:204-216 | one reduce step throws exactly when a `type` change to a non-text, non-image type has no target; otherwise it edits the first target, keeps every other schema and keeps the length |
| Edits.ApplyChanges | src/components/Editor/index.tsx:204-217 | the reduce keeps the page length |
| Edits.ApplyChangeList | src/components/Editor/index.tsx:203-217 | the in-place loop over a copy of the page computes exactly the reduce, stopping at the first throw |
| Edits.ApplyChangesInOrder | src/components/Editor/index.tsx:204 | the changes apply in order: a list is its prefix followed by its suffix |
| Edits.ApplyChangesUntargeted | src/components/Editor/index.tsx:204-217 | a schema no change targets is unchanged |
| Edits.ApplyChangesWithoutTypeSucceed | src/components/Editor/index.tsx:205-213 | a change list without a `type` change never throws |
| Edits.EditedByUntargeted | src/components/Editor/index.tsx:204-217 | a schema no change targets is left as it is |
| Edits.ApplyChangesPerSchema | src/components/Editor/index.tsx:204-217 | on a page with unique ids, changes that touch neither `id` nor `type` succeed, and each schema receives exactly the changes aimed at it, in order |
| Edits.Filter | src/components/Editor/index.tsx:198-201 | a filter keeps exactly the elements the predicate accepts, each as often as before |
| Edits.FilterIsSubsequence | src/components/Editor/index.tsx:198-201 | a filter keeps the relative order |
| Edits.FilterUniqueIds | src/components/Editor/index.tsx:91 | a filter of a page with unique ids has unique ids |
| Edits.Remaining | src/components/Editor/index.tsx:198-201 | `removeSchemas` leaves exactly the schemas whose id is not in `ids`, with their multiplicities, in their original relative order |
| Edits.ActiveSchemas | src/components/Editor/index.tsx:89-92 | exactly the page's schemas whose id is active, each as often as on the page, in page order, with unique ids when the page has them |
| Edits.LastActiveSchema | src/components/Editor/index.tsx:281-285 | the initial schema without a selection or without a schema with the last active id; otherwise the first schema with that id |
| Edits.Step | src/components/Editor/index.tsx:108 | the step is 0.1 with Shift and 1 without, always positive |
| Edits.Nudged | src/components/Editor/index.tsx:110-127 | up and left give `round(coordinate - step, 2)`, down and right `round(coordinate + step, 2)`, on `y` for up and down and on `x` otherwise |
| Edits.Bound | src/components/Editor/index.tsx:128-132 | the cap is `pageHeight - height` for vertical moves and `pageWidth - width` otherwise |
| Edits.MoveTarget | src/components/Editor/index.tsx:110-132 | the rounded, shifted coordinate, capped at `pageWidth - width` (or `pageHeight - height`) |
| Edits.MoveChange | src/components/Editor/index.tsx:133 | the record targets the schema's id, has the key `position.x` or `position.y`, and carries `String` of the capped coordinate |
| Edits.MoveChanges | src/components/Editor/index.tsx:105-134 | one record per active schema, in order |
| Edits.Moved | src/components/Editor/index.tsx:102-135 | only the moved coordinate changes, to what `fmtValue` stores for the record's value, which is never negative; when the capped value survives `String` and `Number`, the coordinate is that value, or 0 when it is negative, so it is at most the page bound when the schema fits the page |
| Edits.MoveEditIsMoved | src/components/Editor/index.tsx:133 | the record `move` builds, once stored through `fmtValue`, yields exactly `Moved`, for every environment |
| Edits.EditedByMoveChanges | src/components/Editor/index.tsx:102-135 | an active schema receives exactly its own move and every other schema none, for every environment |
| Edits.MoveEffect | src/components/Editor/index.tsx:102-135 | on a page with unique ids the move never throws; each active schema becomes `Moved` and every other schema is unchanged, for every environment |
| Edits.MoveChangesPerSchema | src/components/Editor/index.tsx:135 | the move's changes are applied schema by schema |
| Edits.MoveChangesKeys | src/components/Editor/index.tsx:133 | every record `move` builds has the key `position.x` or `position.y`, so it never touches `id` or `type` |
| Edits.MoveOneSchema | src/components/Editor/index.tsx:102-135 | each schema of a page with unique ids after the move: `Moved` when active, unchanged otherwise |
| Edits.PasteOne | src/components/Editor/index.tsx:147-155 | a copy has the fresh id, the key with `' copy'` appended, the position moved by 10 on both axes capped at the page bounds, and every other field kept |
| Edits.PasteCopies | src/components/Editor/index.tsx:147-156 | one copy per copied schema, in order, with exactly the given fresh ids |
| Edits.PasteTwice | src/components/Editor/index.tsx:144-160 | pasting the pasted copies again offsets by 20 and appends `' copy'` twice, away from the bounds |
| Edits.PasteKeepsIdsUnique | src/components/Editor/index.tsx:153-157 | with distinct fresh ids, the page keeps unique ids after a paste |
| Edits.FitToPageAsWritten | src/components/Editor/index.tsx:252-264 | as written: only the position changes; an axis that fits keeps its coordinate, a schema that fits is untouched, and an overflowing edge is moved by the overflow further out, ending twice as far past the page |
| Edits.FitAsWrittenPushesOut | src/components/Editor/index.tsx:256-259 | a 20 wide schema at x = 90 on a 100 wide page ends at x = 100, off the page |
| Edits.FitToPage | src/components/Editor/index.tsx:252-264 | corrected: the right and bottom edges lie within the page, only the position changes, a fitting axis is kept, and an overflowing edge lands on the page edge |
| Edits.Padded | src/components/Editor/index.tsx:247-250 | one list per PDF page: the loaded list where there is one, an empty list past its end, the rest dropped |
| Edits.LoadPagesSchema | src/components/Editor/index.tsx:252-264 | after a load each schema changes only in position, is untouched when it fitted, and an overflowing edge ends twice as far past the page |
| Edits.LoadPagesPushesOut | src/components/Editor/index.tsx:256-259 | loading a one-page template with a 20 wide schema at x = 90 on a 100 wide page stores x = 100, off the page |
| Edits.LoadPagesCorrected | src/components/Editor/index.tsx:247-266 | the corrected load: the same padding, each schema passed through `FitToPage` |
| Edits.FitToPageKeepsFitting | src/components/Editor/index.tsx:256-263 | a schema that fits is untouched |
| Edits.LoadPages | src/components/Editor/index.tsx:247-266 | as written: one list per PDF page, padded with empty lists or truncated; each kept list keeps its length and each of its schemas is the as-written adjustment of the loaded one for that page |
| Edits.LoadPagesInBounds | src/components/Editor/index.tsx:247-266 | corrected load: every schema's right and bottom edges lie within its page, only its position may change, and a schema that fitted is untouched |
| Edits.NormalizePages | src/components/Editor/index.tsx:247-266 | the padding, the truncation and the in-place loop that adds the overflow compute exactly `LoadPages` |
| Sidebar.FindConflict | src/components/Editor/Sidebar/index.tsx:491 | the `find` returns a schema of the list with the same non-empty key and another id, or none exists |
| Sidebar.Status | src/components/Editor/Sidebar/index.tsx:487-493 | `'is-warning'` exactly for an empty key; `'is-danger'` exactly when another id has the same non-empty key; `''` exactly when the non-empty key is unique among the other schemas |
| Sidebar.NeverConflictsWithItself | src/components/Editor/Sidebar/index.tsx:491 | adding a schema with the same id does not change the status; a schema alone is never in danger |
| Sidebar.DangerIsSymmetric | src/components/Editor/Sidebar/index.tsx:491 | when A conflicts with B, both are `'is-danger'` |
| Sidebar.Title | src/components/Editor/Sidebar/index.tsx:497-505 | warning gives `plsInputName`, danger `fieldMustUniq`, anything else `edit` |
| Sidebar.TitleTellsStatus | src/components/Editor/Sidebar/index.tsx:497-519 | the title and the class name are each a one-to-one function of the status |
| Sidebar.ClassName | src/components/Editor/Sidebar/index.tsx:519 | the button's class is `''`, `'is-warning'` or `'is-danger'` exactly for no issue, warning and danger |
| Sidebar.PanelKey | src/components/Editor/Sidebar/index.tsx:117-436 | each input edits a modelled property; exactly the position and size inputs edit `position.x`, `position.y`, `width` or `height`; exactly the type select edits `type`; the clear buttons edit `fontColor`, `backgroundColor` or `data` |
| Sidebar.PanelChanges | src/components/Editor/Sidebar/index.tsx:117-436 | every panel input sends a single record for the active id with its key; position and size send `String(+value)`, clear buttons the empty string, every other input its value |
| Sidebar.PanelGeometryEdit | src/components/Editor/Sidebar/index.tsx:167-231 | a typed position or size ends up on the active schema as `Number(String(Number(value)))` raised to 0, which is `Number(value)` raised to 0 when that number survives `String`; every other schema is unchanged |
| Sidebar.PanelTypeEdit | src/components/Editor/Sidebar/index.tsx:117-124 | choosing a type sets it, resets `data`, and recomputes `height` for types other than text and image |
| Editor.TemplateEditor.constructor | src/components/Editor/index.tsx:175-177 | the mounted editor holds `LoadPages` of the template (the load as written), empty stacks and no clipboard or selection |
| Editor.TemplateEditor.UpdateTemplate | src/components/Editor/index.tsx:242-270 | the pages become `LoadPages` of the new template (the load as written); cursor 0; selection cleared; stacks and clipboard kept |
| Editor.TemplateEditor.CommitSchemas | src/components/Editor/index.tsx:221-227 | the history becomes `Commit` of the old one; selection and clipboard are kept |
| Editor.TemplateEditor.TimeTravel | src/components/Editor/index.tsx:93-100 | the history becomes `TimeTravel` of the old one; the selection is cleared only when something was popped |
| Editor.TemplateEditor.ChangeSchema | src/components/Editor/index.tsx:203-219 | a throw leaves the state as it was; otherwise the reduce's result is committed |
| Editor.TemplateEditor.RemoveSchemas | src/components/Editor/index.tsx:198-201 | commits `Remaining` and clears the selection |
| Editor.TemplateEditor.Move | src/components/Editor/index.tsx:102-136 | the move's change list never throws and its result is committed; on a page with unique ids each active schema is `Moved` and the others are unchanged |
| Editor.TemplateEditor.Remove | src/components/Editor/index.tsx:137 | commits the page without the active schemas and clears the selection |
| Editor.TemplateEditor.OnEditEnd | src/components/Editor/index.tsx:236 | `esc` and `onEditEnd` clear the selection |
| Editor.TemplateEditor.OnEdit | src/components/Editor/index.tsx:234 | selects exactly the one id |
| Editor.TemplateEditor.Copy | src/components/Editor/index.tsx:139-143 | the active schemas become the clipboard, unless there are none |
| Editor.TemplateEditor.Paste | src/components/Editor/index.tsx:144-160 | without a clipboard nothing changes; otherwise the current page with the copies appended is committed, the copies are selected and become the clipboard |
| Editor.TemplateEditor.ScrollTo | src/components/Editor/index.tsx:82-84 | a new page cursor clears the selection; the same cursor keeps it |
| Editor.TemplateEditor.ActiveOnPage | src/components/Editor/index.tsx:89-92 | exactly the current page's schemas whose id is active, each as often as on the page, in page order |
| Editor.TemplateEditor.ActiveSchema | src/components/Editor/index.tsx:281-287 | the initial schema without a selection or without a schema with the last active id; otherwise the first schema of the current page with that id |
| Editor.TemplateEditor.PanelEdit | src/components/Editor/Sidebar/index.tsx:117-436 | a panel input runs `changeSchema` on its change list for the active schema |
| Editor.TemplateEditor.PanelRemove | src/components/Editor/Sidebar/index.tsx:104-106 | the delete button removes the active schema and clears the selection |

## Left out

- React rendering, the JSX tree, the hook plumbing and the side panel's open/close flag: these are UI.
- DOM access (`document.getElementById`, `getBoundingClientRect`, scroll listeners, `wrapRef.current.scroll`): selected elements are modelled by their ids, so `activeElements` is `activeIds`.
- The scroll geometry of `onScroll` (src/components/Editor/index.tsx:60-81) depends on floating-point zoom and scale products and DOM geometry. Only the cursor update it ends with is modelled (`ScrollTo`, which takes the computed page as a parameter).
- `addSchema` places the new field by DOM geometry and labels it through i18n, so it is not modelled; `onSortEnd` calls `arrayMove`, whose code is not part of this model.
- `save`, `saveTemplateWithProcessing`, `readFiles`, `b64toBlob`, `getPdfPageSizes`, `debounce` and `setTimeout` are I/O and timing. The page sizes and the file contents they yield are parameters.
- `onMouseEnter`/`onMouseLeave` and `focusElementId` only affect rendering.
- i18n: message ids are plain strings.
- `sortSchemas`, `cloneDeep`, `set`, `round`, `uuid`, `getSampleByType`, `getKeepRaitoHeightByWidth` and `getInitialSchema` are not part of this model. `round`, `getSampleByType` and `getKeepRaitoHeightByWidth` are uninterpreted arrow fields of `Env`; `getInitialSchema` is the fixed schema `Env.initialSchema`. `sortSchemas` and `uuid` results are parameters. `cloneDeep` is implicit, since Dafny values cannot alias. `set` is modelled on the named fields (`SetField`).
- Edits.SetField: a key outside the modelled fields (and the other optional schema properties) leaves the schema unchanged, since the model keeps only the fields the editor names.
- Edits.ApplyChange: `set(undefined, …)` is taken to do nothing, as lodash's does. Only the `width` read of a missing target throws.
- Edits.FmtValue: `Number` of a non-numeric string gives NaN, which is not modelled.
- Editor.TemplateEditor.Move: the page sizes used by `move` and `paste` are those given to the last `UpdateTemplate`; the separate `useUiPreProcessor` hook that provides them is not modelled.
- Editor.TemplateEditor.Paste: `paste` selects the copies by looking up their elements by id (`document.getElementById`, src/components/Editor/index.tsx:158); the model keeps the ids.
- Editor.TemplateEditor.constructor: a PDF without pages is excluded (`requires |sizes| > 0`), because the editor then has no current page: `updateTemplate` stores an empty page list with cursor 0, and the side panel reads the length of the missing current page.
- Editor.TemplateEditor.UpdateTemplate: a PDF without pages is excluded (`requires |sizes| > 0`) for the same reason; `Edits.LoadPages` itself covers it and gives the empty page list.
- Editor.TemplateEditor.ActiveSchema: `getInitialSchema()` is modelled as one fixed schema, `Env.initialSchema`, not a fresh schema with a new uuid on each call. With nothing selected, the model's `ActiveSchema` is that schema, and `PanelEdit` and `PanelRemove` then target its id, which the model does not keep apart from the ids on the page; a fresh uuid would match no page schema.
- Edits.MoveEffect: a page on which two schemas share an id is not covered; `find` then edits only the first of them, and the move's result on such a page is left unstated.
- packages/ui/src/Form.tsx and packages/ui/src/Viewer.tsx are thin wrappers around a base class that is not part of this model.

## Findings

| source | as written | input that shows it | evidently intended | confidence | as-written member | corrected member |
|---|---|---|---|---|---|---|
| src/components/Editor/index.tsx:256-263 | a schema whose right (or bottom) edge passes the page edge gets `position += diff`, where `diff` is the overflow, so it moves further off the page and the overflow doubles | a 20 wide schema at x = 90 on a 100 wide page: `xEdge` = 110, `diff` = 10, x becomes 100 and the schema ends at 120 | `position -= diff`, which puts the overflowing edge on the page edge, so the right and bottom edges lie within the page | high, not executed | Edits.LoadPagesPushesOut | Edits.LoadPagesInBounds |

The editor class keeps the load as written (`Edits.LoadPages`, computed by `Edits.NormalizePages`). The corrected load is `Edits.LoadPagesCorrected`.
