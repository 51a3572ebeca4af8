/**
 * The template editor as a state machine: the per-page schema lists, the
 * page cursor, the shared undo/redo stacks, the clipboard of copied schemas
 * and the ids of the active (selected) elements. Its methods are the
 * editor's callbacks and keyboard shortcuts.
 */
module Editor {
  import opened Schemas
  import opened History
  import opened Edits
  import Sidebar

  class TemplateEditor {
    /** The utilities the editor calls. */
    const env: Env

    var schemas: seq<seq<Schema>>
    var pageCursor: nat
    var past: seq<seq<Schema>>
    var future: seq<seq<Schema>>
    var copiedSchemas: Option<seq<Schema>>
    var activeIds: seq<string>
    /** The size of each PDF page. */
    var pageSizes: seq<Size>

    ghost predicate Valid()
      reads this
    {
      pageCursor < |schemas| && |pageSizes| == |schemas|
    }

    /** The history part of the state. */
    function Timeline(): EditorHistory
      reads this
    {
      EditorHistory(schemas, pageCursor, past, future)
    }

    function CurrentPage(): seq<Schema>
      reads this
      requires Valid()
    {
      schemas[pageCursor]
    }

    /** `getActiveSchemas`. */
    function ActiveOnPage(): (r: seq<Schema>)
      reads this
      requires Valid()
      ensures forall s :: s in r <==> s in schemas[pageCursor] && s.id in activeIds
      ensures forall s :: multiset(r)[s] == if s.id in activeIds then multiset(schemas[pageCursor])[s] else 0
      ensures IsSubsequence(r, schemas[pageCursor])
    {
      ActiveSchemas(schemas[pageCursor], activeIds)
    }

    /** `activeSchema`, the schema the edit panel shows. */
    function ActiveSchema(): (r: Schema)
      reads this
      requires Valid()
      ensures activeIds == [] ==> r == env.initialSchema
      ensures activeIds != [] && (exists j :: 0 <= j < |schemas[pageCursor]| &&
                                   schemas[pageCursor][j].id == activeIds[|activeIds| - 1]) ==>
                exists k :: 0 <= k < |schemas[pageCursor]| && schemas[pageCursor][k] == r
                            && r.id == activeIds[|activeIds| - 1]
                            && forall j :: 0 <= j < k ==> schemas[pageCursor][j].id != r.id
      ensures activeIds != [] && (forall j :: 0 <= j < |schemas[pageCursor]| ==>
                                   schemas[pageCursor][j].id != activeIds[|activeIds| - 1]) ==>
                r == env.initialSchema
    {
      LastActiveSchema(schemas[pageCursor], activeIds, env.initialSchema)
    }

    /** The editor after mounting: the template is loaded with `updateTemplate`. */
    constructor (env: Env, sorted: seq<seq<Schema>>, sizes: seq<Size>)
      requires |sizes| > 0
      ensures Valid() && this.env == env
      ensures schemas == LoadPages(sorted, sizes) && pageSizes == sizes && pageCursor == 0
      ensures past == [] && future == [] && copiedSchemas == None && activeIds == []
    {
      this.env := env;
      var pages := NormalizePages(sorted, sizes);
      schemas := pages;
      pageSizes := sizes;
      pageCursor := 0;
      past := [];
      future := [];
      copiedSchemas := None;
      activeIds := [];
    }

    /**
     * `updateTemplate`: one list per PDF page, each schema passed through the
     * bound adjustment as written (an overflowing edge moves further out),
     * cursor and selection reset. The undo/redo stacks are kept.
     */
    method UpdateTemplate(sorted: seq<seq<Schema>>, sizes: seq<Size>)
      requires |sizes| > 0
      modifies this
      ensures Valid()
      ensures schemas == LoadPages(sorted, sizes) && pageSizes == sizes
      ensures pageCursor == 0 && activeIds == []
      ensures past == old(past) && future == old(future) && copiedSchemas == old(copiedSchemas)
    {
      var pages := NormalizePages(sorted, sizes);
      schemas := pages;
      pageSizes := sizes;
      activeIds := [];
      pageCursor := 0;
    }

    /** `commitSchemas`. */
    method CommitSchemas(newSchemas: seq<Schema>)
      requires Valid()
      modifies this
      ensures Valid() && Timeline() == Commit(old(Timeline()), newSchemas)
      ensures pageSizes == old(pageSizes) && activeIds == old(activeIds) && copiedSchemas == old(copiedSchemas)
    {
      future := [];
      past := past + [schemas[pageCursor]];
      schemas := schemas[pageCursor := newSchemas];
    }

    /** `timeTavel(mode)`, bound to the undo and redo shortcuts. */
    method TimeTravel(mode: Mode)
      requires Valid()
      modifies this
      ensures Valid() && Timeline() == History.TimeTravel(old(Timeline()), mode)
      ensures activeIds == if |Stack(old(Timeline()), mode)| == 0 then old(activeIds) else []
      ensures pageSizes == old(pageSizes) && copiedSchemas == old(copiedSchemas)
    {
      if mode == Undo {
        if |past| <= 0 {
          return;
        }
        future := future + [schemas[pageCursor]];
        var top := past[|past| - 1];
        past := past[..|past| - 1];
        schemas := schemas[pageCursor := top];
      } else {
        if |future| <= 0 {
          return;
        }
        past := past + [schemas[pageCursor]];
        var top := future[|future| - 1];
        future := future[..|future| - 1];
        schemas := schemas[pageCursor := top];
      }
      activeIds := [];
    }

    /**
     * `changeSchema`. When a change throws, nothing is committed and the
     * state stays as it was.
     */
    method ChangeSchema(changes: seq<Change>) returns (thrown: bool)
      requires Valid()
      modifies this
      ensures Valid()
      ensures thrown == ApplyChanges(env, old(CurrentPage()), changes).Fail?
      ensures thrown ==> Timeline() == old(Timeline())
      ensures !thrown ==> Timeline() == Commit(old(Timeline()), ApplyChanges(env, old(CurrentPage()), changes).value)
      ensures pageSizes == old(pageSizes) && activeIds == old(activeIds) && copiedSchemas == old(copiedSchemas)
    {
      var r := ApplyChangeList(env, schemas[pageCursor], changes);
      if r.Fail? {
        return true;
      }
      CommitSchemas(r.value);
      thrown := false;
    }

    /** `removeSchemas(ids)`. */
    method RemoveSchemas(ids: seq<string>)
      requires Valid()
      modifies this
      ensures Valid() && Timeline() == Commit(old(Timeline()), Remaining(old(CurrentPage()), ids))
      ensures activeIds == [] && pageSizes == old(pageSizes) && copiedSchemas == old(copiedSchemas)
    {
      CommitSchemas(Remaining(schemas[pageCursor], ids));
      activeIds := [];
    }

    /**
     * The `move` shortcut: every active schema moves along one axis, capped
     * at the page bound and, through `fmtValue`, at 0.
     */
    method Move(d: Direction, isShift: bool)
      requires Valid()
      modifies this
      ensures Valid()
      ensures Timeline() == Commit(old(Timeline()), CurrentPage())
      ensures ApplyChanges(env, old(CurrentPage()),
                           MoveChanges(env, old(ActiveOnPage()), d, isShift, pageSizes[pageCursor]))
              == Ok(CurrentPage())
      ensures UniqueIds(old(CurrentPage())) ==>
        MovedPage(env, old(CurrentPage()), CurrentPage(), activeIds, d, isShift, pageSizes[pageCursor])
      ensures pageSizes == old(pageSizes) && activeIds == old(activeIds) && copiedSchemas == old(copiedSchemas)
    {
      var ps := pageSizes[pageCursor];
      var page := schemas[pageCursor];
      var arg := MoveChanges(env, ActiveSchemas(page, activeIds), d, isShift, ps);
      ApplyChangesWithoutTypeSucceed(env, page, arg);
      if UniqueIds(page) {
        MoveEffect(env, page, activeIds, d, isShift, ps);
      }
      var thrown := ChangeSchema(arg);
    }

    /** The `remove` shortcut: remove the active schemas. */
    method Remove()
      requires Valid()
      modifies this
      ensures Valid()
      ensures Timeline() == Commit(old(Timeline()), Remaining(old(CurrentPage()), IdsOf(old(ActiveOnPage()))))
      ensures activeIds == [] && pageSizes == old(pageSizes) && copiedSchemas == old(copiedSchemas)
    {
      RemoveSchemas(IdsOf(ActiveSchemas(schemas[pageCursor], activeIds)));
    }

    /** `onEditEnd`, also the `esc` shortcut: clear the selection. */
    method OnEditEnd()
      modifies this`activeIds
      ensures activeIds == []
    {
      activeIds := [];
    }

    /** `onEdit(id)`: select one schema. */
    method OnEdit(id: string)
      modifies this`activeIds
      ensures activeIds == [id]
    {
      activeIds := [id];
    }

    /** The `copy` shortcut: the active schemas become the clipboard, when there are any. */
    method Copy()
      requires Valid()
      modifies this`copiedSchemas
      ensures copiedSchemas == if old(ActiveOnPage()) == [] then old(copiedSchemas) else Some(old(ActiveOnPage()))
    {
      var activeSchemas := ActiveSchemas(schemas[pageCursor], activeIds);
      if |activeSchemas| == 0 {
        return;
      }
      copiedSchemas := Some(activeSchemas);
    }

    /**
     * The `paste` shortcut with the fresh ids `uuid()` gives: the copies are
     * appended to the page in one commit, selected, and become the clipboard.
     */
    method Paste(newIds: seq<string>)
      requires Valid()
      requires copiedSchemas.Some? ==> |newIds| == |copiedSchemas.value|
      modifies this
      ensures Valid()
      ensures old(copiedSchemas).None? || old(copiedSchemas).value == [] ==>
        Timeline() == old(Timeline()) && copiedSchemas == old(copiedSchemas) && activeIds == old(activeIds)
      ensures old(copiedSchemas).Some? && old(copiedSchemas).value != [] ==>
        var copies := PasteCopies(old(copiedSchemas).value, newIds, old(pageSizes[pageCursor]));
        && Timeline() == Commit(old(Timeline()), old(CurrentPage()) + copies)
        && copiedSchemas == Some(copies)
        && activeIds == newIds
      ensures pageSizes == old(pageSizes)
    {
      if copiedSchemas.None? || |copiedSchemas.value| == 0 {
        return;
      }
      var ps := pageSizes[pageCursor];
      var copies := PasteCopies(copiedSchemas.value, newIds, ps);
      CommitSchemas(schemas[pageCursor] + copies);
      activeIds := IdsOf(copies);
      copiedSchemas := Some(copies);
    }

    /**
     * The cursor change done by the scroll handler, given the page it
     * computed: a new page clears the selection.
     */
    method ScrollTo(cursor: nat)
      requires Valid() && cursor < |schemas|
      modifies this`pageCursor, this`activeIds
      ensures Valid() && pageCursor == cursor
      ensures activeIds == if cursor == old(pageCursor) then old(activeIds) else []
    {
      if cursor != pageCursor {
        pageCursor := cursor;
        activeIds := [];
      }
    }

    /** An input event of the edit panel, sent for the active schema. */
    method PanelEdit(e: Sidebar.PanelInput) returns (thrown: bool)
      requires Valid()
      modifies this
      ensures Valid()
      ensures var r := ApplyChanges(env, old(CurrentPage()), Sidebar.PanelChanges(env, e, old(ActiveSchema()).id));
        && thrown == r.Fail?
        && (thrown ==> Timeline() == old(Timeline()))
        && (!thrown ==> Timeline() == Commit(old(Timeline()), r.value))
      ensures pageSizes == old(pageSizes) && activeIds == old(activeIds) && copiedSchemas == old(copiedSchemas)
    {
      thrown := ChangeSchema(Sidebar.PanelChanges(env, e, ActiveSchema().id));
    }

    /** The panel's delete button: remove the active schema. */
    method PanelRemove()
      requires Valid()
      modifies this
      ensures Valid() && Timeline() == Commit(old(Timeline()), Remaining(old(CurrentPage()), [old(ActiveSchema()).id]))
      ensures activeIds == [] && pageSizes == old(pageSizes) && copiedSchemas == old(copiedSchemas)
    {
      RemoveSchemas([ActiveSchema().id]);
    }
  }
}
