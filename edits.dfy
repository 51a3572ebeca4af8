/**
 * The edit operations of the template editor that compute a new schema
 * list for the current page: `fmtValue` and `changeSchema`, the filter of
 * `removeSchemas`, the keyboard `move` and `paste` shortcuts, and the page
 * count normalisation done when a template is loaded.
 */
module Edits {
  import opened Schemas

  // ---------------------------------------------------------------------
  // fmtValue

  /** The keys whose values `fmtValue` keeps as the given string. */
  const Skip: seq<string> := ["id", "key", "type", "data", "alignment", "fontColor", "backgroundColor"]

  /**
   * `fmtValue(key, value)`: skip-list keys keep the string; every other key
   * stores `Number(value)`, with negative numbers replaced by 0.
   */
  function FmtValue(toNumber: string -> real, key: string, value: string): (r: Value)
    ensures key in Skip ==> r == Str(value)
    ensures key !in Skip ==> r.Num? && r.n >= 0.0
    ensures key !in Skip && toNumber(value) >= 0.0 ==> r == Num(toNumber(value))
    ensures key !in Skip && toNumber(value) < 0.0 ==> r == Num(0.0)
  {
    if key in Skip then Str(value)
    else if toNumber(value) < 0.0 then Num(0.0)
    else Num(toNumber(value))
  }

  /** The string a stored value is shown as again (`String(v)` for numbers). */
  function Render(env: Env, v: Value): string {
    match v
    case Str(s) => s
    case Num(n) => env.numberToString(n)
  }

  /**
   * Normalising a value that `fmtValue` already normalised changes nothing,
   * provided `Number(String(n)) == n` for the number it stored.
   */
  lemma FmtValueIdempotent(env: Env, key: string, value: string)
    requires key !in Skip ==> env.RoundTrips(FmtValue(env.toNumber, key, value).n)
    ensures FmtValue(env.toNumber, key, Render(env, FmtValue(env.toNumber, key, value)))
            == FmtValue(env.toNumber, key, value)
  {
    var v := FmtValue(env.toNumber, key, value);
    if key !in Skip {
      assert env.RoundTrips(v.n);
    }
  }

  // ---------------------------------------------------------------------
  // changeSchema

  /** The numeric properties `set` writes; the string ones are exactly `Skip`. */
  const NumberPaths: seq<string> :=
    ["position.x", "position.y", "width", "height", "fontSize", "characterSpacing", "lineHeight"]

  /**
   * `set(tgt, key, v)` on the properties this model has. A key outside them
   * names a property the model does not keep, so the schema is unchanged.
   */
  function SetField(s: Schema, path: string, v: Value): (r: Schema)
    ensures path != "id" ==> r.id == s.id
    ensures v.Str? && path == "id" ==> r == s.(id := v.s)
    ensures v.Str? && path == "key" ==> r == s.(key := v.s)
    ensures v.Str? && path == "type" ==> r == s.(schemaType := v.s)
    ensures v.Str? && path == "data" ==> r == s.(data := v.s)
    ensures v.Str? && path == "alignment" ==> r == s.(alignment := v.s)
    ensures v.Str? && path == "fontColor" ==> r == s.(fontColor := v.s)
    ensures v.Str? && path == "backgroundColor" ==> r == s.(backgroundColor := v.s)
    ensures v.Num? && path == "position.x" ==> r == s.(position := s.position.(x := v.n))
    ensures v.Num? && path == "position.y" ==> r == s.(position := s.position.(y := v.n))
    ensures v.Num? && path == "width" ==> r == s.(width := v.n)
    ensures v.Num? && path == "height" ==> r == s.(height := v.n)
    ensures v.Num? && path == "fontSize" ==> r == s.(fontSize := v.n)
    ensures v.Num? && path == "characterSpacing" ==> r == s.(characterSpacing := v.n)
    ensures v.Num? && path == "lineHeight" ==> r == s.(lineHeight := v.n)
    ensures (v.Str? && path !in Skip) || (v.Num? && path !in NumberPaths) ==> r == s
  {
    match v
    case Str(t) =>
      if path == "id" then s.(id := t)
      else if path == "key" then s.(key := t)
      else if path == "type" then s.(schemaType := t)
      else if path == "data" then s.(data := t)
      else if path == "alignment" then s.(alignment := t)
      else if path == "fontColor" then s.(fontColor := t)
      else if path == "backgroundColor" then s.(backgroundColor := t)
      else s
    case Num(n) =>
      if path == "position.x" then s.(position := s.position.(x := n))
      else if path == "position.y" then s.(position := s.position.(y := n))
      else if path == "width" then s.(width := n)
      else if path == "height" then s.(height := n)
      else if path == "fontSize" then s.(fontSize := n)
      else if path == "characterSpacing" then s.(characterSpacing := n)
      else if path == "lineHeight" then s.(lineHeight := n)
      else s
  }

  /**
   * One change applied to its target schema. Setting `type` also resets
   * `data` (`'text'` for text, the type's sample otherwise) and, for types
   * other than text and image, recomputes `height` from `width`.
   */
  function Edit(env: Env, tgt: Schema, c: Change): (r: Schema)
    ensures c.key != "id" ==> r.id == tgt.id
    ensures c.key != "type" ==> r == SetField(tgt, c.key, FmtValue(env.toNumber, c.key, c.value))
    ensures c.key == "type" ==> r.schemaType == c.value
    ensures c.key == "type" ==> r.data == (if c.value == "text" then "text" else env.sampleByType(c.value))
    ensures c.key == "type" && c.value != "text" && c.value != "image" ==>
              r.height == env.keepRatioHeight(c.value, tgt.width)
    ensures c.key == "type" && (c.value == "text" || c.value == "image") ==> r.height == tgt.height
    ensures c.key == "type" ==> r.(schemaType := tgt.schemaType, data := tgt.data, height := tgt.height) == tgt
  {
    var written := SetField(tgt, c.key, FmtValue(env.toNumber, c.key, c.value));
    if c.key != "type" then written
    else
      var withData := written.(data := if c.value == "text" then "text" else env.sampleByType(c.value));
      if c.value != "text" && c.value != "image" then
        withData.(height := env.keepRatioHeight(c.value, withData.width))
      else withData
  }

  /** `acc.find((s) => s.id === id)`, as the index of the first schema with that id. */
  function IndexOfId(page: seq<Schema>, id: string): (r: Option<nat>)
    ensures r.Some? ==> r.value < |page| && page[r.value].id == id
    ensures r.Some? ==> forall j :: 0 <= j < r.value ==> page[j].id != id
    ensures r.None? ==> forall j :: 0 <= j < |page| ==> page[j].id != id
  {
    if page == [] then None
    else if page[0].id == id then Some(0)
    else match IndexOfId(page[1..], id)
      case None => None
      case Some(i) => Some(i + 1)
  }

  /** True when `c` reads the width of a schema that is not there. */
  predicate ReadsMissingTarget(acc: seq<Schema>, c: Change) {
    IndexOfId(acc, c.schemaId).None? && c.key == "type" && c.value != "text" && c.value != "image"
  }

  /**
   * One step of the reduce in `changeSchema`. The first schema with the
   * target id is edited; when there is none, `set` does nothing, except that
   * a `type` change to a type other than text and image reads the missing
   * target's width and throws.
   */
  function ApplyChange(env: Env, acc: seq<Schema>, c: Change): (r: Result<seq<Schema>>)
    ensures r.Fail? <==> ReadsMissingTarget(acc, c)
    ensures r.Ok? ==> |r.value| == |acc|
    ensures r.Ok? ==> forall j :: 0 <= j < |acc| && acc[j].id != c.schemaId ==> r.value[j] == acc[j]
    ensures r.Ok? && IndexOfId(acc, c.schemaId).Some? ==>
      var i := IndexOfId(acc, c.schemaId).value;
      r.value[i] == Edit(env, acc[i], c) && forall j :: 0 <= j < |acc| && j != i ==> r.value[j] == acc[j]
  {
    match IndexOfId(acc, c.schemaId)
    case None =>
      if c.key == "type" && c.value != "text" && c.value != "image" then
        Fail("TypeError: cannot read 'width' of undefined")
      else Ok(acc)
    case Some(i) => Ok(acc[i := Edit(env, acc[i], c)])
  }

  /** The whole reduce of `changeSchema`: the changes in order, stopping at the first throw. */
  function ApplyChanges(env: Env, acc: seq<Schema>, cs: seq<Change>): (r: Result<seq<Schema>>)
    ensures r.Ok? ==> |r.value| == |acc|
    decreases |cs|
  {
    if cs == [] then Ok(acc)
    else match ApplyChange(env, acc, cs[0])
      case Fail(e) => Fail(e)
      case Ok(next) => ApplyChanges(env, next, cs[1..])
  }

  /**
   * The reduce of `changeSchema` as a loop over a copy of the current page
   * whose schemas are overwritten one change at a time.
   */
  method ApplyChangeList(env: Env, page: seq<Schema>, cs: seq<Change>) returns (r: Result<seq<Schema>>)
    ensures r == ApplyChanges(env, page, cs)
  {
    var acc := page;
    var i := 0;
    while i < |cs|
      invariant 0 <= i <= |cs|
      invariant ApplyChanges(env, acc, cs[i..]) == ApplyChanges(env, page, cs)
    {
      var c := cs[i];
      assert cs[i..][0] == c && cs[i..][1..] == cs[i + 1..];
      var tgt := IndexOfId(acc, c.schemaId);
      if tgt.None? && c.key == "type" && c.value != "text" && c.value != "image" {
        return Fail("TypeError: cannot read 'width' of undefined");
      }
      if tgt.Some? {
        acc := acc[tgt.value := Edit(env, acc[tgt.value], c)];
      }
      i := i + 1;
    }
    assert cs[i..] == [];
    r := Ok(acc);
  }

  function AndThen(env: Env, r: Result<seq<Schema>>, cs: seq<Change>): Result<seq<Schema>> {
    match r
    case Fail(e) => Fail(e)
    case Ok(p) => ApplyChanges(env, p, cs)
  }

  /** The changes are applied in order: a list of changes is its prefix followed by its suffix. */
  lemma {:induction false} ApplyChangesInOrder(env: Env, page: seq<Schema>, a: seq<Change>, b: seq<Change>)
    ensures ApplyChanges(env, page, a + b) == AndThen(env, ApplyChanges(env, page, a), b)
    decreases |a|
  {
    if a == [] {
      assert a + b == b;
    } else {
      assert (a + b)[0] == a[0];
      assert (a + b)[1..] == a[1..] + b;
      match ApplyChange(env, page, a[0])
      case Fail(_) =>
      case Ok(next) => ApplyChangesInOrder(env, next, a[1..], b);
    }
  }

  /** A schema whose id no change targets keeps its place and its contents. */
  lemma {:induction false} ApplyChangesUntargeted(env: Env, page: seq<Schema>, cs: seq<Change>, j: nat)
    requires ApplyChanges(env, page, cs).Ok? && j < |page|
    requires forall k :: 0 <= k < |cs| ==> cs[k].schemaId != page[j].id
    ensures ApplyChanges(env, page, cs).value[j] == page[j]
    decreases |cs|
  {
    if cs != [] {
      var next := ApplyChange(env, page, cs[0]).value;
      ApplyChangesUntargeted(env, next, cs[1..], j);
    }
  }

  /** Only a `type` change can throw, so a list without one always yields a page. */
  lemma {:induction false} ApplyChangesWithoutTypeSucceed(env: Env, page: seq<Schema>, cs: seq<Change>)
    requires forall k :: 0 <= k < |cs| ==> cs[k].key != "type"
    ensures ApplyChanges(env, page, cs).Ok?
    decreases |cs|
  {
    if cs != [] {
      ApplyChangesWithoutTypeSucceed(env, ApplyChange(env, page, cs[0]).value, cs[1..]);
    }
  }

  /** The changes in `cs` that reach schema `s`, applied in order to `s` alone. */
  function EditedBy(env: Env, s: Schema, cs: seq<Change>): Schema
    decreases |cs|
  {
    if cs == [] then s
    else EditedBy(env, if cs[0].schemaId == s.id then Edit(env, s, cs[0]) else s, cs[1..])
  }

  /** Changes none of which targets `s` leave `s` as it is. */
  lemma {:induction false} EditedByUntargeted(env: Env, s: Schema, cs: seq<Change>)
    requires forall k :: 0 <= k < |cs| ==> cs[k].schemaId != s.id
    ensures EditedBy(env, s, cs) == s
    decreases |cs|
  {
    if cs != [] {
      EditedByUntargeted(env, s, cs[1..]);
    }
  }

  /**
   * On a page with unique ids, changes that touch neither `id` nor `type`
   * never throw, and each schema receives exactly the changes aimed at it.
   */
  lemma {:induction false} ApplyChangesPerSchema(env: Env, page: seq<Schema>, cs: seq<Change>)
    requires UniqueIds(page)
    requires forall k :: 0 <= k < |cs| ==> cs[k].key != "id" && cs[k].key != "type"
    ensures ApplyChanges(env, page, cs)
            == Ok(seq(|page|, j requires 0 <= j < |page| => EditedBy(env, page[j], cs)))
    decreases |cs|
  {
    if cs == [] {
      assert seq(|page|, j requires 0 <= j < |page| => EditedBy(env, page[j], cs)) == page;
    } else {
      var c := cs[0];
      var next := seq(|page|, j requires 0 <= j < |page| =>
                        if page[j].id == c.schemaId then Edit(env, page[j], c) else page[j]);
      match IndexOfId(page, c.schemaId) {
        case None =>
          assert next == page;
        case Some(i) =>
          assert page[i := Edit(env, page[i], c)] == next;
      }
      assert ApplyChange(env, page, c) == Ok(next);
      assert forall j :: 0 <= j < |page| ==> next[j].id == page[j].id;
      ApplyChangesPerSchema(env, next, cs[1..]);
      assert seq(|next|, j requires 0 <= j < |next| => EditedBy(env, next[j], cs[1..]))
          == seq(|page|, j requires 0 <= j < |page| => EditedBy(env, page[j], cs));
    }
  }

  // ---------------------------------------------------------------------
  // Filters: removeSchemas and getActiveSchemas

  /** `xs.filter(keep)`. */
  function Filter<T(==, !new)>(xs: seq<T>, keep: T -> bool): (r: seq<T>)
    ensures |r| <= |xs|
    ensures forall x :: x in r <==> x in xs && keep(x)
    ensures forall x :: multiset(r)[x] == if keep(x) then multiset(xs)[x] else 0
  {
    if xs == [] then []
    else if keep(xs[0]) then
      assert xs == [xs[0]] + xs[1..];
      [xs[0]] + Filter(xs[1..], keep)
    else
      assert xs == [xs[0]] + xs[1..];
      Filter(xs[1..], keep)
  }

  /** `a` is `b` with some elements left out, the rest in their order. */
  predicate IsSubsequence<T(==)>(a: seq<T>, b: seq<T>)
    decreases |b|
  {
    if a == [] then true
    else if b == [] then false
    else if a[0] == b[0] then IsSubsequence(a[1..], b[1..])
    else IsSubsequence(a, b[1..])
  }

  /** A filter keeps the relative order of what it keeps. */
  lemma {:induction false} FilterIsSubsequence<T(!new)>(xs: seq<T>, keep: T -> bool)
    ensures IsSubsequence(Filter(xs, keep), xs)
    decreases |xs|
  {
    if xs != [] {
      FilterIsSubsequence(xs[1..], keep);
      var rest := Filter(xs[1..], keep);
      if !keep(xs[0]) && rest != [] {
        assert rest[0] in rest;
      }
    }
  }

  /** A filter of a page with unique ids has unique ids. */
  lemma {:induction false} FilterUniqueIds(page: seq<Schema>, keep: Schema -> bool)
    requires UniqueIds(page)
    ensures UniqueIds(Filter(page, keep))
    decreases |page|
  {
    if page != [] {
      FilterUniqueIds(page[1..], keep);
      var rest := Filter(page[1..], keep);
      forall k | 0 <= k < |rest| ensures rest[k].id != page[0].id {
        assert rest[k] in page[1..];
      }
    }
  }

  /**
   * The list `removeSchemas(ids)` commits: exactly the schemas whose id is
   * not in `ids`, each as often as before, in their original order.
   */
  function Remaining(page: seq<Schema>, ids: seq<string>): (r: seq<Schema>)
    ensures forall s :: s in r <==> s in page && s.id !in ids
    ensures forall s :: multiset(r)[s] == if s.id in ids then 0 else multiset(page)[s]
    ensures IsSubsequence(r, page)
  {
    FilterIsSubsequence(page, (s: Schema) => s.id !in ids);
    Filter(page, (s: Schema) => s.id !in ids)
  }

  /** `getActiveSchemas`: the schemas of the page whose id is active, in page order. */
  function ActiveSchemas(page: seq<Schema>, activeIds: seq<string>): (r: seq<Schema>)
    ensures forall s :: s in r <==> s in page && s.id in activeIds
    ensures forall s :: multiset(r)[s] == if s.id in activeIds then multiset(page)[s] else 0
    ensures IsSubsequence(r, page)
    ensures UniqueIds(page) ==> UniqueIds(r)
  {
    FilterIsSubsequence(page, (s: Schema) => s.id in activeIds);
    if UniqueIds(page) then FilterUniqueIds(page, (s: Schema) => s.id in activeIds); Filter(page, (s: Schema) => s.id in activeIds)
    else Filter(page, (s: Schema) => s.id in activeIds)
  }

  /**
   * `getLastActiveSchema`: the first schema of the page with the id of the
   * last active element, or the initial schema when there is none.
   */
  function LastActiveSchema(page: seq<Schema>, activeIds: seq<string>, initial: Schema): (r: Schema)
    ensures activeIds == [] ==> r == initial
    ensures activeIds != [] && (forall j :: 0 <= j < |page| ==> page[j].id != activeIds[|activeIds| - 1]) ==>
              r == initial
    ensures activeIds != [] && (exists j :: 0 <= j < |page| && page[j].id == activeIds[|activeIds| - 1]) ==>
              exists k :: 0 <= k < |page| && page[k] == r && r.id == activeIds[|activeIds| - 1]
                          && forall j :: 0 <= j < k ==> page[j].id != r.id
  {
    if activeIds == [] then initial
    else match IndexOfId(page, activeIds[|activeIds| - 1])
      case None => initial
      case Some(k) => page[k]
  }

  // ---------------------------------------------------------------------
  // Keyboard move

  datatype Direction = Up | Down | Left | Right

  predicate Vertical(d: Direction) {
    d == Up || d == Down
  }

  /** 1 per key press, 0.1 with Shift. */
  function Step(isShift: bool): (r: real)
    ensures r > 0.0
    ensures isShift ==> r == 0.1
    ensures !isShift ==> r == 1.0
  {
    if isShift then 0.1 else 1.0
  }

  /** The coordinate a move changes. */
  function Coord(s: Schema, d: Direction): real {
    if Vertical(d) then s.position.y else s.position.x
  }

  /** `round(position ± num, 2)` before the page bound is applied. */
  function Nudged(env: Env, s: Schema, d: Direction, isShift: bool): (r: real)
    ensures d == Up || d == Left ==> r == env.round2(Coord(s, d) - Step(isShift))
    ensures d == Down || d == Right ==> r == env.round2(Coord(s, d) + Step(isShift))
  {
    match d
    case Up => env.round2(s.position.y - Step(isShift))
    case Down => env.round2(s.position.y + Step(isShift))
    case Left => env.round2(s.position.x - Step(isShift))
    case Right => env.round2(s.position.x + Step(isShift))
  }

  /** The largest coordinate that keeps the schema's far edge on the page. */
  function Bound(s: Schema, d: Direction, ps: Size): (r: real)
    ensures Vertical(d) ==> r + s.height == ps.height
    ensures !Vertical(d) ==> r + s.width == ps.width
  {
    if Vertical(d) then ps.height - s.height else ps.width - s.width
  }

  /** The value `move` computes: the nudged coordinate, capped at the page bound. */
  function MoveTarget(env: Env, s: Schema, d: Direction, isShift: bool, ps: Size): (v: real)
    ensures v <= Bound(s, d, ps)
    ensures Nudged(env, s, d, isShift) <= Bound(s, d, ps) ==> v == Nudged(env, s, d, isShift)
    ensures Nudged(env, s, d, isShift) > Bound(s, d, ps) ==> v == Bound(s, d, ps)
  {
    var n := Nudged(env, s, d, isShift);
    if n > Bound(s, d, ps) then Bound(s, d, ps) else n
  }

  /** The change record `move` builds for one active schema. */
  function MoveChange(env: Env, s: Schema, d: Direction, isShift: bool, ps: Size): (c: Change)
    ensures c.schemaId == s.id
    ensures c.key == if Vertical(d) then "position.y" else "position.x"
    ensures c.value == env.numberToString(MoveTarget(env, s, d, isShift, ps))
  {
    Change(if Vertical(d) then "position.y" else "position.x",
           env.numberToString(MoveTarget(env, s, d, isShift, ps)),
           s.id)
  }

  function MoveChanges(env: Env, active: seq<Schema>, d: Direction, isShift: bool, ps: Size): (cs: seq<Change>)
    ensures |cs| == |active|
    ensures forall i :: 0 <= i < |active| ==> cs[i] == MoveChange(env, active[i], d, isShift, ps)
  {
    seq(|active|, i requires 0 <= i < |active| => MoveChange(env, active[i], d, isShift, ps))
  }

  /**
   * A schema after a keyboard move: only the moved coordinate changes, to
   * what `fmtValue` stores for the record's `String(value)`, which is never
   * negative. When `Number(String(v)) == v` for the capped value `v`, the
   * coordinate is `v` raised to 0, so it is also at most the page bound
   * whenever the schema fits the page.
   */
  function Moved(env: Env, s: Schema, d: Direction, isShift: bool, ps: Size): (r: Schema)
    ensures Vertical(d) ==> r == s.(position := s.position.(y := r.position.y))
    ensures !Vertical(d) ==> r == s.(position := s.position.(x := r.position.x))
    ensures var c := MoveChange(env, s, d, isShift, ps);
            Coord(r, d) == FmtValue(env.toNumber, c.key, c.value).n
    ensures 0.0 <= Coord(r, d)
    ensures var v := MoveTarget(env, s, d, isShift, ps);
      env.RoundTrips(v) ==>
        && (v >= 0.0 ==> Coord(r, d) == v)
        && (v < 0.0 ==> Coord(r, d) == 0.0)
        && (Bound(s, d, ps) >= 0.0 ==> Coord(r, d) <= Bound(s, d, ps))
  {
    var n := env.toNumber(env.numberToString(MoveTarget(env, s, d, isShift, ps)));
    var stored := if n < 0.0 then 0.0 else n;
    if Vertical(d) then s.(position := s.position.(y := stored))
    else s.(position := s.position.(x := stored))
  }

  /** The change `move` builds, once applied through `fmtValue`, gives `Moved`. */
  lemma MoveEditIsMoved(env: Env, s: Schema, d: Direction, isShift: bool, ps: Size)
    ensures Edit(env, s, MoveChange(env, s, d, isShift, ps)) == Moved(env, s, d, isShift, ps)
  {
    var c := MoveChange(env, s, d, isShift, ps);
    assert c.key !in Skip;
  }

  lemma {:induction false} EditedByMoveChanges(env: Env, s: Schema, active: seq<Schema>, d: Direction, isShift: bool, ps: Size)
    requires UniqueIds(active)
    requires forall a :: a in active && a.id == s.id ==> a == s
    ensures EditedBy(env, s, MoveChanges(env, active, d, isShift, ps))
            == if s in active then Moved(env, s, d, isShift, ps) else s
    decreases |active|
  {
    var cs := MoveChanges(env, active, d, isShift, ps);
    if active != [] {
      var a := active[0];
      var rest := active[1..];
      assert cs[1..] == MoveChanges(env, rest, d, isShift, ps);
      if a.id == s.id {
        MoveEditIsMoved(env, s, d, isShift, ps);
        var m := Moved(env, s, d, isShift, ps);
        forall k | 0 <= k < |cs[1..]| ensures cs[1..][k].schemaId != m.id {
          assert active[k + 1] == rest[k];
        }
        EditedByUntargeted(env, m, cs[1..]);
      } else {
        assert forall i, j :: 0 <= i < j < |rest| ==> rest[i] == active[i + 1] && rest[j] == active[j + 1];
        EditedByMoveChanges(env, s, rest, d, isShift, ps);
        assert s in active <==> s in rest;
      }
    }
  }

  /**
   * `after` is `before` with every schema whose id is in `activeIds` moved
   * and every other schema left as it was.
   */
  predicate MovedPage(env: Env, before: seq<Schema>, after: seq<Schema>, activeIds: seq<string>,
                      d: Direction, isShift: bool, ps: Size)
  {
    && |after| == |before|
    && forall j :: 0 <= j < |before| ==>
         after[j] == if before[j].id in activeIds then Moved(env, before[j], d, isShift, ps) else before[j]
  }

  /**
   * The keyboard move on a page with unique ids never throws: every active
   * schema is `Moved` along one axis and every other schema is unchanged.
   */
  lemma MoveEffect(env: Env, page: seq<Schema>, activeIds: seq<string>, d: Direction, isShift: bool, ps: Size)
    requires UniqueIds(page)
    ensures var r := ApplyChanges(env, page, MoveChanges(env, ActiveSchemas(page, activeIds), d, isShift, ps));
      r.Ok? && MovedPage(env, page, r.value, activeIds, d, isShift, ps)
  {
    var active := ActiveSchemas(page, activeIds);
    MoveChangesPerSchema(env, page, active, d, isShift, ps);
    forall j | 0 <= j < |page|
      ensures EditedBy(env, page[j], MoveChanges(env, active, d, isShift, ps))
              == if page[j].id in activeIds then Moved(env, page[j], d, isShift, ps) else page[j]
    {
      MoveOneSchema(env, page, activeIds, j, d, isShift, ps);
    }
  }

  lemma MoveChangesPerSchema(env: Env, page: seq<Schema>, active: seq<Schema>, d: Direction, isShift: bool, ps: Size)
    requires UniqueIds(page)
    ensures ApplyChanges(env, page, MoveChanges(env, active, d, isShift, ps))
            == Ok(seq(|page|, j requires 0 <= j < |page| => EditedBy(env, page[j], MoveChanges(env, active, d, isShift, ps))))
  {
    MoveChangesKeys(env, active, d, isShift, ps);
    ApplyChangesPerSchema(env, page, MoveChanges(env, active, d, isShift, ps));
  }

  /** The records `move` builds only ever write a position. */
  lemma MoveChangesKeys(env: Env, active: seq<Schema>, d: Direction, isShift: bool, ps: Size)
    ensures forall k :: 0 <= k < |active| ==>
              MoveChanges(env, active, d, isShift, ps)[k].key in ["position.x", "position.y"]
    ensures var cs := MoveChanges(env, active, d, isShift, ps);
            forall k :: 0 <= k < |cs| ==> cs[k].key != "id" && cs[k].key != "type"
  {
  }

  lemma MoveOneSchema(env: Env, page: seq<Schema>, activeIds: seq<string>, j: nat, d: Direction, isShift: bool, ps: Size)
    requires UniqueIds(page) && j < |page|
    ensures EditedBy(env, page[j], MoveChanges(env, ActiveSchemas(page, activeIds), d, isShift, ps))
            == if page[j].id in activeIds then Moved(env, page[j], d, isShift, ps) else page[j]
  {
    var active := ActiveSchemas(page, activeIds);
    forall a | a in active && a.id == page[j].id ensures a == page[j] {
      var i :| 0 <= i < |page| && page[i] == a;
    }
    EditedByMoveChanges(env, page[j], active, d, isShift, ps);
    assert page[j] in active <==> page[j].id in activeIds;
  }

  // ---------------------------------------------------------------------
  // Paste

  /**
   * One pasted copy: a fresh id, `' copy'` appended to the key, and the
   * position moved by 10 on both axes, capped at the page bounds.
   */
  function PasteOne(cs: Schema, id: string, ps: Size): (r: Schema)
    ensures r.id == id && r.key == cs.key + " copy"
    ensures r.position.x <= ps.width - cs.width && r.position.y <= ps.height - cs.height
    ensures cs.position.x + 10.0 <= ps.width - cs.width ==> r.position.x == cs.position.x + 10.0
    ensures cs.position.x + 10.0 > ps.width - cs.width ==> r.position.x == ps.width - cs.width
    ensures cs.position.y + 10.0 <= ps.height - cs.height ==> r.position.y == cs.position.y + 10.0
    ensures cs.position.y + 10.0 > ps.height - cs.height ==> r.position.y == ps.height - cs.height
    ensures r.(id := cs.id, key := cs.key, position := cs.position) == cs
  {
    var p := cs.position;
    var position := Position(
      if p.x + 10.0 > ps.width - cs.width then ps.width - cs.width else p.x + 10.0,
      if p.y + 10.0 > ps.height - cs.height then ps.height - cs.height else p.y + 10.0);
    var schema := cs.(id := id, position := position);
    schema.(key := schema.key + " copy")
  }

  /** The copies `paste` makes of the copied schemas, with the fresh ids `ids`. */
  function PasteCopies(copied: seq<Schema>, ids: seq<string>, ps: Size): (r: seq<Schema>)
    requires |ids| == |copied|
    ensures |r| == |copied|
    ensures forall i :: 0 <= i < |r| ==> r[i] == PasteOne(copied[i], ids[i], ps)
    ensures IdsOf(r) == ids
  {
    seq(|copied|, i requires 0 <= i < |copied| => PasteOne(copied[i], ids[i], ps))
  }

  /** Pasting the copies again offsets them by 20 on both axes and appends `' copy'` twice. */
  lemma PasteTwice(cs: Schema, id1: string, id2: string, ps: Size)
    requires cs.position.x + 20.0 <= ps.width - cs.width
    requires cs.position.y + 20.0 <= ps.height - cs.height
    ensures PasteOne(PasteOne(cs, id1, ps), id2, ps)
            == cs.(id := id2, key := cs.key + " copy copy",
                   position := Position(cs.position.x + 20.0, cs.position.y + 20.0))
  {
    var once := PasteOne(cs, id1, ps);
    assert once.key + " copy" == cs.key + " copy copy";
  }

  /** With distinct fresh ids, a page with unique ids keeps them after a paste. */
  lemma PasteKeepsIdsUnique(page: seq<Schema>, copied: seq<Schema>, ids: seq<string>, ps: Size)
    requires |ids| == |copied| && UniqueIds(page)
    requires forall i, j :: 0 <= i < j < |ids| ==> ids[i] != ids[j]
    requires forall i, j :: 0 <= i < |ids| && 0 <= j < |page| ==> ids[i] != page[j].id
    ensures UniqueIds(page + PasteCopies(copied, ids, ps))
  {
    var all := page + PasteCopies(copied, ids, ps);
    forall i, j | 0 <= i < j < |all| ensures all[i].id != all[j].id {
      if j >= |page| && i >= |page| {
        assert all[i].id == ids[i - |page|] && all[j].id == ids[j - |page|];
      } else if j >= |page| {
        assert all[j].id == ids[j - |page|];
      }
    }
  }

  // ---------------------------------------------------------------------
  // Template load: page count and page bounds

  /** The schema's right and bottom edges lie within the page. */
  predicate Fits(s: Schema, size: Size) {
    s.position.x + s.width <= size.width && s.position.y + s.height <= size.height
  }

  /**
   * The bound adjustment of `updateTemplate` as written: an edge past the
   * page moves the schema by the overflow in the same direction, further out.
   */
  function FitToPageAsWritten(s: Schema, size: Size): (r: Schema)
    ensures Fits(s, size) ==> r == s
    ensures r == s.(position := r.position)
    ensures s.position.x + s.width <= size.width ==> r.position.x == s.position.x
    ensures s.position.y + s.height <= size.height ==> r.position.y == s.position.y
    ensures size.width < s.position.x + s.width ==>
              r.position.x + r.width - size.width == 2.0 * (s.position.x + s.width - size.width)
    ensures size.height < s.position.y + s.height ==>
              r.position.y + r.height - size.height == 2.0 * (s.position.y + s.height - size.height)
  {
    var xEdge := s.position.x + s.width;
    var yEdge := s.position.y + s.height;
    var x := if size.width < xEdge then s.position.x + (xEdge - size.width) else s.position.x;
    var y := if size.height < yEdge then s.position.y + (yEdge - size.height) else s.position.y;
    s.(position := Position(x, y))
  }

  /** An input that shows it: a 20 wide schema at x = 90 on a 100 wide page ends at 120. */
  lemma FitAsWrittenPushesOut()
    ensures var s := Schema("a", "a", "text", "", Position(90.0, 0.0), 20.0, 10.0,
                            "left", 10.0, "", "", 0.0, 1.0);
            var r := FitToPageAsWritten(s, Size(100.0, 100.0));
            r.position.x == 100.0 && !Fits(r, Size(100.0, 100.0))
  {
  }

  /**
   * The evidently intended adjustment: an edge past the page moves the
   * schema back by the overflow, so that edge lands on the page's edge.
   * Only the right and bottom edges are bounded: a schema wider than the
   * page ends up with a negative coordinate.
   */
  function FitToPage(s: Schema, size: Size): (r: Schema)
    ensures Fits(r, size)
    ensures r == s.(position := r.position)
    ensures s.position.x + s.width <= size.width ==> r.position.x == s.position.x
    ensures s.position.y + s.height <= size.height ==> r.position.y == s.position.y
    ensures size.width < s.position.x + s.width ==> r.position.x + r.width == size.width
    ensures size.height < s.position.y + s.height ==> r.position.y + r.height == size.height
  {
    var xEdge := s.position.x + s.width;
    var yEdge := s.position.y + s.height;
    var x := if size.width < xEdge then s.position.x - (xEdge - size.width) else s.position.x;
    var y := if size.height < yEdge then s.position.y - (yEdge - size.height) else s.position.y;
    s.(position := Position(x, y))
  }

  /** Schemas that already fit are left exactly as they are. */
  lemma FitToPageKeepsFitting(s: Schema, size: Size)
    requires Fits(s, size)
    ensures FitToPage(s, size) == s
  {
  }

  /** Every schema of a page passed through the bound adjustment as written. */
  function FitPageAsWritten(page: seq<Schema>, size: Size): seq<Schema> {
    seq(|page|, j requires 0 <= j < |page| => FitToPageAsWritten(page[j], size))
  }

  /** Every schema of a page passed through the corrected adjustment. */
  function FitPage(page: seq<Schema>, size: Size): seq<Schema> {
    seq(|page|, j requires 0 <= j < |page| => FitToPage(page[j], size))
  }

  /** The padded or truncated list of `updateTemplate`: one entry per PDF page. */
  function Padded(sorted: seq<seq<Schema>>, n: nat): (r: seq<seq<Schema>>)
    ensures |r| == n
    ensures forall i :: 0 <= i < n ==> r[i] == if i < |sorted| then sorted[i] else []
  {
    if |sorted| < n then sorted + seq(n - |sorted|, _ => []) else sorted[..n]
  }

  /**
   * The page lists after a template load, as `updateTemplate` computes them:
   * one list per PDF page (padded with empty lists or truncated), each
   * schema passed through the bound adjustment as written.
   */
  function LoadPages(sorted: seq<seq<Schema>>, sizes: seq<Size>): (r: seq<seq<Schema>>)
    ensures |r| == |sizes|
    ensures forall i :: |sorted| <= i < |sizes| ==> r[i] == []
    ensures forall i :: 0 <= i < |sizes| && i < |sorted| ==> |r[i]| == |sorted[i]|
    ensures forall i, j :: 0 <= i < |sizes| && i < |sorted| && 0 <= j < |sorted[i]| ==>
              r[i][j] == FitToPageAsWritten(sorted[i][j], sizes[i])
  {
    var padded := Padded(sorted, |sizes|);
    seq(|sizes|, i requires 0 <= i < |sizes| => FitPageAsWritten(padded[i], sizes[i]))
  }

  /**
   * What a load promises of each schema: only its position may change, it
   * is untouched when it already fitted, and an overflowing edge ends twice
   * as far past the page.
   */
  lemma LoadPagesSchema(sorted: seq<seq<Schema>>, sizes: seq<Size>, i: nat, j: nat)
    requires i < |sizes| && i < |sorted| && j < |sorted[i]|
    ensures var s, size, r := sorted[i][j], sizes[i], LoadPages(sorted, sizes)[i][j];
      && r == s.(position := r.position)
      && (Fits(s, size) ==> r == s)
      && (size.width < s.position.x + s.width ==>
            r.position.x + r.width - size.width == 2.0 * (s.position.x + s.width - size.width))
      && (size.height < s.position.y + s.height ==>
            r.position.y + r.height - size.height == 2.0 * (s.position.y + s.height - size.height))
  {
    assert LoadPages(sorted, sizes)[i][j] == FitToPageAsWritten(sorted[i][j], sizes[i]);
  }

  /** Loading a one-page template whose schema overflows stores that schema further off the page. */
  lemma LoadPagesPushesOut()
    ensures var s := Schema("a", "a", "text", "", Position(90.0, 0.0), 20.0, 10.0,
                            "left", 10.0, "", "", 0.0, 1.0);
            var r := LoadPages([[s]], [Size(100.0, 100.0)]);
            r == [[s.(position := Position(100.0, 0.0))]] && !Fits(r[0][0], Size(100.0, 100.0))
  {
    var s := Schema("a", "a", "text", "", Position(90.0, 0.0), 20.0, 10.0, "left", 10.0, "", "", 0.0, 1.0);
    var r := LoadPages([[s]], [Size(100.0, 100.0)]);
    assert r[0][0] == FitToPageAsWritten(s, Size(100.0, 100.0));
    assert |r| == 1 && |r[0]| == 1;
    assert r[0] == [r[0][0]];
  }

  /** The evidently intended load: the padding as before, each schema passed through `FitToPage`. */
  function LoadPagesCorrected(sorted: seq<seq<Schema>>, sizes: seq<Size>): (r: seq<seq<Schema>>)
    ensures |r| == |sizes|
    ensures forall i :: |sorted| <= i < |sizes| ==> r[i] == []
    ensures forall i :: 0 <= i < |sizes| && i < |sorted| ==> |r[i]| == |sorted[i]|
    ensures forall i, j :: 0 <= i < |sizes| && i < |sorted| && 0 <= j < |sorted[i]| ==>
              r[i][j] == FitToPage(sorted[i][j], sizes[i])
  {
    var padded := Padded(sorted, |sizes|);
    seq(|sizes|, i requires 0 <= i < |sizes| => FitPage(padded[i], sizes[i]))
  }

  /**
   * After the corrected load every schema's right and bottom edges lie
   * within its page, only its position may change, and a schema that fitted
   * is untouched.
   */
  lemma LoadPagesInBounds(sorted: seq<seq<Schema>>, sizes: seq<Size>, i: nat, j: nat)
    requires i < |sizes| && i < |sorted| && j < |sorted[i]|
    ensures Fits(LoadPagesCorrected(sorted, sizes)[i][j], sizes[i])
    ensures LoadPagesCorrected(sorted, sizes)[i][j]
            == sorted[i][j].(position := LoadPagesCorrected(sorted, sizes)[i][j].position)
    ensures Fits(sorted[i][j], sizes[i]) ==> LoadPagesCorrected(sorted, sizes)[i][j] == sorted[i][j]
  {
    assert LoadPagesCorrected(sorted, sizes)[i][j] == FitToPage(sorted[i][j], sizes[i]);
  }

  /**
   * `updateTemplate`'s page normalisation as a loop: pad or truncate to the
   * page count, then adjust each schema of each page in place, adding the
   * overflow to the position as `updateTemplate` does.
   */
  method NormalizePages(sorted: seq<seq<Schema>>, sizes: seq<Size>) returns (pages: seq<seq<Schema>>)
    ensures pages == LoadPages(sorted, sizes)
  {
    var padded: seq<seq<Schema>>;
    if |sorted| < |sizes| {
      padded := sorted + seq(|sizes| - |sorted|, _ => []);
    } else {
      padded := sorted[..|sizes|];
    }
    assert |padded| == |sizes|;
    assert forall i :: 0 <= i < |sizes| ==> padded[i] == if i < |sorted| then sorted[i] else [];
    pages := [];
    var i := 0;
    while i < |padded|
      invariant 0 <= i <= |padded|
      invariant |pages| == i
      invariant forall k :: 0 <= k < i ==> pages[k] == FitPageAsWritten(padded[k], sizes[k])
    {
      var page := padded[i];
      var size := sizes[i];
      var j := 0;
      while j < |page|
        invariant 0 <= j <= |page| == |padded[i]|
        invariant forall k :: 0 <= k < j ==> page[k] == FitToPageAsWritten(padded[i][k], size)
        invariant forall k :: j <= k < |page| ==> page[k] == padded[i][k]
      {
        var value := page[j];
        var xEdge := value.position.x + value.width;
        var yEdge := value.position.y + value.height;
        if size.width < xEdge {
          var diff := xEdge - size.width;
          value := value.(position := value.position.(x := value.position.x + diff));
        }
        if size.height < yEdge {
          var diff := yEdge - size.height;
          value := value.(position := value.position.(y := value.position.y + diff));
        }
        page := page[j := value];
        j := j + 1;
      }
      assert page == FitPageAsWritten(padded[i], size);
      pages := pages + [page];
      i := i + 1;
    }
    assert pages == LoadPages(sorted, sizes);
  }
}
