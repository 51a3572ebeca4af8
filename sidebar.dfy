/**
 * The side panel: the key status and title of each item of the field list,
 * and the change records the edit panel sends for the active schema.
 */
module Sidebar {
  import opened Schemas
  import opened Edits

  // ---------------------------------------------------------------------
  // Field list items

  /** The item's `status`: `''`, `'is-warning'` or `'is-danger'`. */
  datatype KeyStatus = NoIssue | IsWarning | IsDanger

  /** The class name the item's button carries. */
  function ClassName(st: KeyStatus): (r: string)
    ensures r == "" <==> st == NoIssue
    ensures r == "is-warning" <==> st == IsWarning
    ensures r == "is-danger" <==> st == IsDanger
  {
    match st
    case NoIssue => ""
    case IsWarning => "is-warning"
    case IsDanger => "is-danger"
  }

  /** The condition of the `find` in `SortableItem`: another schema with the same non-empty key. */
  predicate Conflicts(sc: Schema, s: Schema) {
    sc.key != "" && s.key == sc.key && s.id != sc.id
  }

  /** `schemas.find((s) => sc.key && s.key === sc.key && s.id !== sc.id)`. */
  function FindConflict(schemas: seq<Schema>, sc: Schema): (r: Option<Schema>)
    ensures r.Some? ==> r.value in schemas && Conflicts(sc, r.value)
    ensures r.None? ==> forall s :: s in schemas ==> !Conflicts(sc, s)
  {
    if schemas == [] then None
    else if Conflicts(sc, schemas[0]) then Some(schemas[0])
    else FindConflict(schemas[1..], sc)
  }

  /**
   * The status of the list item for `sc`: a warning when its key is empty,
   * danger when another schema (another id) has the same key, and no issue
   * when the key is non-empty and unique among the other schemas.
   */
  function Status(schemas: seq<Schema>, sc: Schema): (st: KeyStatus)
    ensures st == IsWarning <==> sc.key == ""
    ensures st == IsDanger <==> sc.key != "" && exists s :: s in schemas && s.key == sc.key && s.id != sc.id
    ensures st == NoIssue <==> sc.key != "" && forall s :: s in schemas && s.key == sc.key ==> s.id == sc.id
  {
    if sc.key == "" then IsWarning
    else if FindConflict(schemas, sc).Some? then IsDanger
    else NoIssue
  }

  /** A schema never conflicts with itself, nor with any schema that has its id. */
  lemma NeverConflictsWithItself(schemas: seq<Schema>, sc: Schema, t: Schema)
    requires t.id == sc.id
    ensures Status(schemas + [t], sc) == Status(schemas, sc)
    ensures Status([sc], sc) != IsDanger
  {
    assert forall s :: s in schemas + [t] <==> s in schemas || s == t;
  }

  /** Danger is symmetric: two schemas with the same non-empty key and different ids are both flagged. */
  lemma DangerIsSymmetric(schemas: seq<Schema>, a: Schema, b: Schema)
    requires a in schemas && b in schemas && Conflicts(a, b)
    ensures Status(schemas, a) == IsDanger && Status(schemas, b) == IsDanger
  {
    assert Conflicts(b, a);
  }

  /** `getTitle`: the message id of the item's title, a function of the status alone. */
  function Title(st: KeyStatus): (msg: string)
    ensures st == IsWarning ==> msg == "plsInputName"
    ensures st == IsDanger ==> msg == "fieldMustUniq"
    ensures st == NoIssue ==> msg == "edit"
  {
    if st == IsWarning then "plsInputName"
    else if st == IsDanger then "fieldMustUniq"
    else "edit"
  }

  /** Different statuses get different titles, so the title tells the status. */
  lemma TitleTellsStatus(a: KeyStatus, b: KeyStatus)
    ensures Title(a) == Title(b) <==> a == b
    ensures ClassName(a) == ClassName(b) <==> a == b
  {
  }

  // ---------------------------------------------------------------------
  // Edit panel

  /** One input event of the edit panel, with the input's string value. */
  datatype PanelInput =
    | TypeSelect(v: string)
    | KeyInput(v: string)
    | PositionX(v: string)
    | PositionY(v: string)
    | Width(v: string)
    | Height(v: string)
    | Alignment(v: string)
    | FontSize(v: string)
    | FontColor(v: string)
    | FontColorClear
    | CharacterSpacing(v: string)
    | LineHeight(v: string)
    | BackgroundColor(v: string)
    | BackgroundColorClear
    | DataInput(v: string)
    | ImageClear
    | ImageUpload(v: string)
  {
    /** The position and size inputs, which send `String(+value)`. */
    predicate IsGeometry() {
      PositionX? || PositionY? || Width? || Height?
    }

    /** The clear buttons, which send the empty string. */
    predicate IsClear() {
      FontColorClear? || BackgroundColorClear? || ImageClear?
    }
  }

  /** The change key each input edits. */
  function PanelKey(e: PanelInput): (r: string)
    ensures r in Skip || r in NumberPaths
    ensures e.IsGeometry() <==> r in ["position.x", "position.y", "width", "height"]
    ensures r == "type" <==> e.TypeSelect?
    ensures e.IsClear() ==> r in ["fontColor", "backgroundColor", "data"]
  {
    match e
    case TypeSelect(_) => "type"
    case KeyInput(_) => "key"
    case PositionX(_) => "position.x"
    case PositionY(_) => "position.y"
    case Width(_) => "width"
    case Height(_) => "height"
    case Alignment(_) => "alignment"
    case FontSize(_) => "fontSize"
    case FontColor(_) => "fontColor"
    case FontColorClear => "fontColor"
    case CharacterSpacing(_) => "characterSpacing"
    case LineHeight(_) => "lineHeight"
    case BackgroundColor(_) => "backgroundColor"
    case BackgroundColorClear => "backgroundColor"
    case DataInput(_) => "data"
    case ImageClear => "data"
    case ImageUpload(_) => "data"
  }

  /**
   * The change list an input event sends to `changeSchema`: a single record
   * for the active schema, with `String(+value)` for position and size.
   */
  function PanelChanges(env: Env, e: PanelInput, activeId: string): (cs: seq<Change>)
    ensures |cs| == 1 && cs[0].schemaId == activeId && cs[0].key == PanelKey(e)
    ensures e.IsGeometry() ==> cs[0].value == env.numberToString(env.toNumber(e.v))
    ensures e.IsClear() ==> cs[0].value == ""
    ensures !e.IsGeometry() && !e.IsClear() ==> cs[0].value == e.v
  {
    var value :=
      if e.IsGeometry() then env.numberToString(env.toNumber(e.v))
      else if e.IsClear() then ""
      else e.v;
    [Change(PanelKey(e), value, activeId)]
  }

  /** The position or size field an input edits. */
  function Geometry(s: Schema, e: PanelInput): real
    requires e.IsGeometry()
  {
    if e.PositionX? then s.position.x
    else if e.PositionY? then s.position.y
    else if e.Width? then s.width
    else s.height
  }

  /**
   * A position or size typed into the panel ends up, on the first schema
   * with the active id, as `Number(String(Number(value)))` raised to 0 when
   * negative, which is `Number(value)` raised to 0 whenever that number
   * survives `String`; all other schemas are unchanged.
   */
  lemma PanelGeometryEdit(env: Env, page: seq<Schema>, e: PanelInput, activeId: string, i: nat)
    requires e.IsGeometry()
    requires IndexOfId(page, activeId) == Some(i)
    ensures var r := ApplyChanges(env, page, PanelChanges(env, e, activeId));
      var n := env.toNumber(env.numberToString(env.toNumber(e.v)));
      && r.Ok? && |r.value| == |page|
      && Geometry(r.value[i], e) == (if n < 0.0 then 0.0 else n)
      && (env.RoundTrips(env.toNumber(e.v)) ==>
            Geometry(r.value[i], e) == (if env.toNumber(e.v) < 0.0 then 0.0 else env.toNumber(e.v)))
      && forall j :: 0 <= j < |page| && j != i ==> r.value[j] == page[j]
  {
    var cs := PanelChanges(env, e, activeId);
    assert cs[0].key !in Skip;
    assert ApplyChanges(env, page, cs) == ApplyChange(env, page, cs[0]);
  }

  /**
   * Choosing a type in the panel sets it on the active schema, resets its
   * data, and for types other than text and image recomputes its height.
   */
  lemma PanelTypeEdit(env: Env, page: seq<Schema>, t: string, activeId: string, i: nat)
    requires IndexOfId(page, activeId) == Some(i)
    ensures var r := ApplyChanges(env, page, PanelChanges(env, TypeSelect(t), activeId));
      && r.Ok? && |r.value| == |page|
      && r.value[i].schemaType == t
      && r.value[i].data == (if t == "text" then "text" else env.sampleByType(t))
      && r.value[i].height == (if t != "text" && t != "image" then env.keepRatioHeight(t, page[i].width) else page[i].height)
  {
    var cs := PanelChanges(env, TypeSelect(t), activeId);
    assert ApplyChanges(env, page, cs) == ApplyChange(env, page, cs[0]);
  }
}
