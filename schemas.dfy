/**
 * The template editor's plain data: a field ("schema") placed on a PDF page,
 * the page size, the change records that edit a schema, and the editor's
 * environment of utilities whose behaviour the model does not assume.
 */
module Schemas {

  datatype Option<T> = None | Some(value: T)

  /** The outcome of an edit that can throw in the editor. */
  datatype Result<T> = Ok(value: T) | Fail(error: string)

  datatype Position = Position(x: real, y: real)

  /**
   * One field of a template page. The property JavaScript calls `type`
   * is `schemaType` here (`type` is a Dafny keyword).
   */
  datatype Schema = Schema(
    id: string,
    key: string,
    schemaType: string,
    data: string,
    position: Position,
    width: real,
    height: real,
    alignment: string,
    fontSize: real,
    fontColor: string,
    backgroundColor: string,
    characterSpacing: real,
    lineHeight: real)

  datatype Size = Size(width: real, height: real)

  /** What `set` stores: a string for the keys `fmtValue` skips, a number otherwise. */
  datatype Value = Str(s: string) | Num(n: real)

  /** A change record `{ key, value, schemaId }` as passed to `changeSchema`. */
  datatype Change = Change(key: string, value: string, schemaId: string)

  /**
   * The utilities the editor calls but whose code is not part of this model:
   * JavaScript's `Number(string)` and `String(number)`, `round(v, 2)`,
   * `getSampleByType`, `getKeepRaitoHeightByWidth` and `getInitialSchema()`.
   * `getInitialSchema()` is one fixed schema: every call gives the same id.
   */
  datatype Env = Env(
    toNumber: string -> real,
    numberToString: real -> string,
    round2: real -> real,
    sampleByType: string -> string,
    keepRatioHeight: (string, real) -> real,
    initialSchema: Schema)
  {
    /**
     * `Number(String(v)) == v` for the one number `v`. JavaScript gives this
     * for every finite double; the model asks it only of the values at hand.
     */
    predicate RoundTrips(v: real) {
      toNumber(numberToString(v)) == v
    }
  }

  /** No two schemas of a page share an id. */
  predicate UniqueIds(page: seq<Schema>) {
    forall i, j :: 0 <= i < j < |page| ==> page[i].id != page[j].id
  }

  /** The ids of a list of schemas, in order. */
  function IdsOf(page: seq<Schema>): (ids: seq<string>)
    ensures |ids| == |page|
    ensures forall i :: 0 <= i < |page| ==> ids[i] == page[i].id
  {
    seq(|page|, i requires 0 <= i < |page| => page[i].id)
  }
}
