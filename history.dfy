/**
 * The editor's undo/redo history: one pair of snapshot stacks, `past` and
 * `future`, shared by all pages, over the per-page lists of schemas.
 */
module History {
  import opened Schemas

  datatype Mode = Undo | Redo

  /** The history-relevant part of the editor's state. */
  datatype EditorHistory = EditorHistory(
    schemas: seq<seq<Schema>>,
    pageCursor: nat,
    past: seq<seq<Schema>>,
    future: seq<seq<Schema>>)
  {
    predicate Valid() {
      pageCursor < |schemas|
    }

    /** The schema list of the page under the cursor. */
    function Current(): seq<Schema>
      requires Valid()
    {
      schemas[pageCursor]
    }
  }

  /** The stack a time travel in mode `m` pops from. */
  function Stack(h: EditorHistory, m: Mode): seq<seq<Schema>> {
    if m == Undo then h.past else h.future
  }

  function Opposite(m: Mode): Mode {
    if m == Undo then Redo else Undo
  }

  /** True when pages other than `cursor` are the same in both lists. */
  predicate OtherPagesUnchanged(a: seq<seq<Schema>>, b: seq<seq<Schema>>, cursor: nat) {
    |a| == |b| && forall i :: 0 <= i < |a| && i != cursor ==> a[i] == b[i]
  }

  /**
   * `commitSchemas`: empty the redo stack, push a snapshot of the current
   * page, and replace the current page's list.
   */
  function Commit(h: EditorHistory, newSchemas: seq<Schema>): (r: EditorHistory)
    requires h.Valid()
    ensures r.Valid() && r.pageCursor == h.pageCursor
    ensures r.future == []
    ensures r.past == h.past + [h.Current()]
    ensures r.Current() == newSchemas
    ensures OtherPagesUnchanged(r.schemas, h.schemas, h.pageCursor)
  {
    h.(future := [],
       past := h.past + [h.Current()],
       schemas := h.schemas[h.pageCursor := newSchemas])
  }

  /**
   * `timeTavel(mode)`: when the stack of `mode` is empty nothing happens;
   * otherwise the current page is pushed on the other stack and replaced by
   * the top of the stack of `mode`.
   */
  function TimeTravel(h: EditorHistory, m: Mode): (r: EditorHistory)
    requires h.Valid()
    ensures r.Valid() && r.pageCursor == h.pageCursor
    ensures |Stack(h, m)| == 0 ==> r == h
    ensures |Stack(h, m)| > 0 ==>
      && |r.past| + |r.future| == |h.past| + |h.future|
      && r.Current() == Stack(h, m)[|Stack(h, m)| - 1]
      && Stack(r, m) == Stack(h, m)[..|Stack(h, m)| - 1]
      && Stack(r, Opposite(m)) == Stack(h, Opposite(m)) + [h.Current()]
    ensures OtherPagesUnchanged(r.schemas, h.schemas, h.pageCursor)
  {
    var from := Stack(h, m);
    if |from| == 0 then h
    else
      var top := from[|from| - 1];
      var s := h.schemas[h.pageCursor := top];
      if m == Undo then
        h.(schemas := s, past := from[..|from| - 1], future := h.future + [h.Current()])
      else
        h.(schemas := s, future := from[..|from| - 1], past := h.past + [h.Current()])
  }

  /** A redo undoes an undo and an undo undoes a redo. */
  lemma TimeTravelRoundTrip(h: EditorHistory, m: Mode)
    requires h.Valid() && |Stack(h, m)| > 0
    ensures TimeTravel(TimeTravel(h, m), Opposite(m)) == h
  {
    var from := Stack(h, m);
    assert from[..|from| - 1] + [from[|from| - 1]] == from;
    assert h.schemas[h.pageCursor := from[|from| - 1]][h.pageCursor := h.Current()] == h.schemas;
  }

  /** Undo right after a commit gives back the page list and the undo stack. */
  lemma UndoAfterCommit(h: EditorHistory, newSchemas: seq<Schema>)
    requires h.Valid()
    ensures TimeTravel(Commit(h, newSchemas), Undo) == h.(future := [newSchemas])
  {
    assert h.schemas[h.pageCursor := newSchemas][h.pageCursor := h.Current()] == h.schemas;
    assert (h.past + [h.Current()])[..|h.past|] == h.past;
  }

  /** Nothing can be redone right after a commit. */
  lemma RedoAfterCommitIsNoop(h: EditorHistory, newSchemas: seq<Schema>)
    requires h.Valid()
    ensures TimeTravel(Commit(h, newSchemas), Redo) == Commit(h, newSchemas)
  {
  }

  /**
   * The stacks are shared by all pages: after a commit on one page and a
   * move of the cursor to another page, undo writes the first page's old
   * list into the second page.
   */
  lemma UndoCrossesPages(h: EditorHistory, newSchemas: seq<Schema>, cursor: nat)
    requires h.Valid() && cursor < |h.schemas| && cursor != h.pageCursor
    ensures TimeTravel(Commit(h, newSchemas).(pageCursor := cursor), Undo).schemas[cursor]
            == h.schemas[h.pageCursor]
  {
  }

  /** `n` time travels in the same mode. */
  function Repeat(h: EditorHistory, m: Mode, n: nat): (r: EditorHistory)
    requires h.Valid()
    ensures r.Valid() && r.pageCursor == h.pageCursor && |r.schemas| == |h.schemas|
    decreases n
  {
    if n == 0 then h else TimeTravel(Repeat(h, m, n - 1), m)
  }

  /** Each of `n` time travels pops one snapshot while there is one. */
  lemma {:induction false} RepeatStackLength(h: EditorHistory, m: Mode, n: nat)
    requires h.Valid() && n <= |Stack(h, m)|
    ensures |Stack(Repeat(h, m, n), m)| == |Stack(h, m)| - n
  {
    if n > 0 {
      RepeatStackLength(h, m, n - 1);
    }
  }

  /** Repeating `n + 1` times is one step followed by `n` steps. */
  lemma {:induction false} RepeatPeel(h: EditorHistory, m: Mode, n: nat)
    requires h.Valid()
    ensures Repeat(h, m, n + 1) == Repeat(TimeTravel(h, m), m, n)
  {
    if n > 0 {
      RepeatPeel(h, m, n - 1);
    }
  }

  /** A step of mode `m` followed by `n` steps the other way is `n - 1` steps the other way. */
  lemma StepThenRepeatBack(y: EditorHistory, m: Mode, n: nat)
    requires y.Valid() && |Stack(y, m)| > 0 && n > 0
    ensures Repeat(TimeTravel(y, m), Opposite(m), n) == Repeat(y, Opposite(m), n - 1)
  {
    RepeatPeel(TimeTravel(y, m), Opposite(m), n - 1);
    TimeTravelRoundTrip(y, m);
  }

  /** `n` undos followed by `n` redos (or the other way round) restore the whole history. */
  lemma {:induction false} RepeatedRoundTrip(h: EditorHistory, m: Mode, n: nat)
    requires h.Valid() && n <= |Stack(h, m)|
    ensures Repeat(Repeat(h, m, n), Opposite(m), n) == h
  {
    if n > 0 {
      var y := Repeat(h, m, n - 1);
      RepeatStackLength(h, m, n - 1);
      StepThenRepeatBack(y, m, n);
      RepeatedRoundTrip(h, m, n - 1);
    }
  }

  /** Commits of the lists `ls`, in order, on the current page. */
  function CommitAll(h: EditorHistory, ls: seq<seq<Schema>>): (r: EditorHistory)
    requires h.Valid()
    ensures r.Valid() && r.pageCursor == h.pageCursor && |r.schemas| == |h.schemas|
    decreases |ls|
  {
    if ls == [] then h else CommitAll(Commit(h, ls[0]), ls[1..])
  }

  /** The redo stack's order after undoing a run of commits: the last commit at the bottom. */
  function Reversed<T>(s: seq<T>): (r: seq<T>)
    ensures |r| == |s|
    ensures forall i :: 0 <= i < |s| ==> r[i] == s[|s| - 1 - i]
  {
    if s == [] then [] else Reversed(s[1..]) + [s[0]]
  }

  /** An undo after a commit on a history whose redo stack is `f`. */
  lemma UndoAfterCommitWithFuture(h: EditorHistory, l: seq<Schema>, f: seq<seq<Schema>>)
    requires h.Valid()
    ensures TimeTravel(Commit(h, l).(future := f), Undo) == h.(future := f + [l])
  {
    assert h.schemas[h.pageCursor := l][h.pageCursor := h.Current()] == h.schemas;
    assert (h.past + [h.Current()])[..|h.past|] == h.past;
  }

  /**
   * Undoing as many times as lists were committed restores the page lists
   * and the undo stack; the redo stack then holds the committed lists,
   * the last one at the bottom.
   */
  lemma {:induction false} UndoAllCommits(h: EditorHistory, ls: seq<seq<Schema>>)
    requires h.Valid() && |ls| > 0
    ensures Repeat(CommitAll(h, ls), Undo, |ls|) == h.(future := Reversed(ls))
    decreases |ls|
  {
    var h' := Commit(h, ls[0]);
    var rest := ls[1..];
    if rest == [] {
      assert Repeat(CommitAll(h, ls), Undo, |ls|) == TimeTravel(h', Undo);
      UndoAfterCommit(h, ls[0]);
    } else {
      UndoAllCommits(h', rest);
      calc {
        Repeat(CommitAll(h, ls), Undo, |ls|);
        TimeTravel(Repeat(CommitAll(h', rest), Undo, |rest|), Undo);
        TimeTravel(h'.(future := Reversed(rest)), Undo);
        { UndoAfterCommitWithFuture(h, ls[0], Reversed(rest)); }
        h.(future := Reversed(rest) + [ls[0]]);
      }
    }
  }
}
