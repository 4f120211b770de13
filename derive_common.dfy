/**
 * What the derive macros share (bodega-macros/src): paths as segment
 * lists, the case conversions they borrow from heck, the error they
 * report, and the rule that maps a field to its iden-enum variant.
 */
module DeriveCommon {
  import opened Wrappers
  import opened Sql

  /** A Rust path, one string per segment: `bodega::Error` is ["bodega", "Error"]. */
  type Path = seq<string>

  /**
   * heck's `to_snake_case` and `to_upper_camel_case`. The model does not
   * re-implement case conversion: every property below holds whatever the
   * two conversions do, and examples state what they need of them.
   */
  datatype Casing = Casing(snake: string -> string, upperCamel: string -> string)

  /** A `syn::Error`: the message the macro reports at compile time. */
  datatype MacroError = MacroError(message: string)

  /**
   * The value a field of a derived struct holds at run time: a plain value,
   * or, for a field of `Option` type, an optional one.
   */
  datatype FieldValue = Plain(v: Value) | Optional(o: Option<Value>)

  /** A struct value, field by field. */
  type Record = map<string, FieldValue>

  /** `value.into()` as a query expression: a bound value, `None` binding NULL. */
  function IntoExpr(f: FieldValue): (e: SimpleExpr)
    ensures e.Val?
    ensures f.Plain? ==> e.v == f.v
    ensures f.Optional? ==> e.v == if f.o.Some? then f.o.value else Null
  {
    match f
    case Plain(v) => Val(v)
    case Optional(o) => Val(if o.Some? then o.value else Null)
  }

  /** `segments.push`: the path with one more segment at its end. */
  function Push(path: Path, segment: string): (q: Path)
    ensures |q| == |path| + 1 && q[..|path|] == path && q[|path|] == segment
  {
    path + [segment]
  }

  /**
   * The column a field of an `Insert` or `Update` struct writes: its
   * explicit `iden` when given, else the iden enum's variant named by the
   * UpperCamelCase of the field name.
   */
  function FieldIden(idenEnum: Path, explicit: Option<Path>, field: string, casing: Casing): (p: Path)
    ensures explicit.Some? ==> p == explicit.value
    ensures explicit.None? ==> |p| == |idenEnum| + 1 && p[..|idenEnum|] == idenEnum && p[|idenEnum|] == casing.upperCamel(field)
  {
    match explicit
    case Some(iden) => iden
    case None => Push(idenEnum, casing.upperCamel(field))
  }
}
