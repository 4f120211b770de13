/**
 * `#[derive(Insert)]` (bodega-macros/src/insert.rs): the column list and
 * the value list a create statement is built from, one entry per field.
 */
module InsertDerive {
  import opened Wrappers
  import opened Sql
  import opened DeriveCommon
  import CustomOptions
  import Postgres

  /** A field: its name, its `#[insert(iden = ...)]` override, whether it carries `#[insert(cust_opt)]`. */
  datatype InsertField = InsertField(ident: string, iden: Option<Path>, custOpt: bool)

  /** A generated value expression: `self.f.into()` or `bodega::CustomOption(self.f).into()`. */
  datatype InsertExpr = Into(field: string) | CustomOptionInto(field: string)

  /** The generated `impl Insert`: what `insert_cols` and `insert_vals` return. */
  datatype InsertImpl = InsertImpl(cols: seq<Path>, vals: seq<InsertExpr>)

  function ExprOf(f: InsertField): (e: InsertExpr)
    ensures e.field == f.ident && (e.CustomOptionInto? <==> f.custOpt)
  {
    if f.custOpt then CustomOptionInto(f.ident) else Into(f.ident)
  }

  /**
   * `implement_insert_trait`: walking the fields in order, push each
   * field's column onto the column list and its value expression onto the
   * value list; the two lists therefore pair up position by position.
   */
  method ImplementInsertTrait(idenEnum: Path, fields: seq<InsertField>, casing: Casing) returns (out: InsertImpl)
    ensures |out.cols| == |fields| && |out.vals| == |fields|
    ensures forall i :: 0 <= i < |fields| ==> out.cols[i] == FieldIden(idenEnum, fields[i].iden, fields[i].ident, casing)
    ensures forall i :: 0 <= i < |fields| ==> out.vals[i] == ExprOf(fields[i])
  {
    var idenFields: seq<Path> := [];
    var inserts: seq<InsertExpr> := [];
    for i := 0 to |fields|
      invariant |idenFields| == i && |inserts| == i
      invariant forall j :: 0 <= j < i ==> idenFields[j] == FieldIden(idenEnum, fields[j].iden, fields[j].ident, casing)
      invariant forall j :: 0 <= j < i ==> inserts[j] == ExprOf(fields[j])
    {
      var field := fields[i];
      if field.iden.Some? {
        idenFields := idenFields + [field.iden.value];
      } else {
        idenFields := idenFields + [Push(idenEnum, casing.upperCamel(field.ident))];
      }
      if field.custOpt {
        inserts := inserts + [CustomOptionInto(field.ident)];
      } else {
        inserts := inserts + [Into(field.ident)];
      }
    }
    out := InsertImpl(idenFields, inserts);
  }

  /** The compiler's demand: every field is present, and a `cust_opt` field has an `Option` type. */
  predicate WellTyped(fields: seq<InsertField>, record: Record) {
    forall i :: 0 <= i < |fields| ==> fields[i].ident in record && (fields[i].custOpt ==> record[fields[i].ident].Optional?)
  }

  /** What one generated expression evaluates to, given the struct value `insert_vals` consumes. */
  function Evaluate(e: InsertExpr, record: Record): SimpleExpr
    requires e.field in record
    requires e.CustomOptionInto? ==> record[e.field].Optional?
  {
    match e
    case Into(f) => IntoExpr(record[f])
    case CustomOptionInto(f) =>
      CustomOptions.ToSimpleExpr(CustomOptions.FromOption(record[f].o), (v: Value) => Val(v))
  }

  /** `insert_vals(self)`: the value list, evaluated. */
  function InsertVals(fields: seq<InsertField>, record: Record): (vals: seq<SimpleExpr>)
    requires WellTyped(fields, record)
  {
    seq(|fields|, i requires 0 <= i < |fields| && WellTyped(fields, record) => Evaluate(ExprOf(fields[i]), record))
  }

  /**
   * `cust_opt` changes only how an absent value is written: the raw NULL
   * fragment instead of a bound NULL. Either way the database stores the
   * same value, and a present value is bound as itself.
   */
  lemma CustOptStoresSameValue(ident: string, record: Record)
    requires ident in record && record[ident].Optional?
    ensures Postgres.Evaluable(Evaluate(CustomOptionInto(ident), record))
    ensures Postgres.ValueOf(Evaluate(CustomOptionInto(ident), record)) == Postgres.ValueOf(Evaluate(Into(ident), record))
    ensures record[ident].o.None? ==> Evaluate(CustomOptionInto(ident), record) == Custom("NULL")
  {
    CustomOptions.OptionToExpr(record[ident].o, (v: Value) => Val(v));
  }

  /**
   * The generated lists are what `create` needs: as many values as
   * columns, each one the database can evaluate, and the value at a
   * position is that of the field whose column sits at the same position.
   */
  lemma InsertListsPairUp(idenEnum: Path, fields: seq<InsertField>, casing: Casing, record: Record, out: InsertImpl)
    requires WellTyped(fields, record)
    requires |out.cols| == |fields| && |out.vals| == |fields|
    requires forall i :: 0 <= i < |fields| ==> out.cols[i] == FieldIden(idenEnum, fields[i].iden, fields[i].ident, casing)
    requires forall i :: 0 <= i < |fields| ==> out.vals[i] == ExprOf(fields[i])
    ensures |InsertVals(fields, record)| == |out.cols|
    ensures forall i :: 0 <= i < |fields| ==> Postgres.Evaluable(InsertVals(fields, record)[i])
    ensures forall i :: 0 <= i < |fields| ==>
      Postgres.ValueOf(InsertVals(fields, record)[i]) == Postgres.ValueOf(IntoExpr(record[fields[i].ident]))
  {
    forall i | 0 <= i < |fields|
      ensures Postgres.Evaluable(InsertVals(fields, record)[i])
      ensures Postgres.ValueOf(InsertVals(fields, record)[i]) == Postgres.ValueOf(IntoExpr(record[fields[i].ident]))
    {
      if fields[i].custOpt {
        CustOptStoresSameValue(fields[i].ident, record);
      }
    }
  }
}
