/**
 * `#[derive(Update)]` (bodega-macros/src/update.rs): the generated
 * `update_values`, whose emptiness is what makes `update` answer
 * EmptyUpdate.
 */
module UpdateDerive {
  import opened Wrappers
  import opened Sql
  import opened DeriveCommon
  import opened Base

  /** A field: its name, whether its type is an `Option`, its `#[update(iden = ...)]` override. */
  datatype UpdateField = UpdateField(ident: string, isOption: bool, iden: Option<Path>)

  /**
   * A generated statement of `update_values`' body: push the field's pair
   * only when the option holds a value, or push it always.
   */
  datatype PushStmt = PushIfSome(iden: Path, field: string) | PushAlways(iden: Path, field: string)

  function StmtOf(idenEnum: Path, f: UpdateField, casing: Casing): (s: PushStmt)
    ensures s.field == f.ident && s.iden == FieldIden(idenEnum, f.iden, f.ident, casing)
    ensures s.PushIfSome? <==> f.isOption
  {
    var iden := FieldIden(idenEnum, f.iden, f.ident, casing);
    if f.isOption then PushIfSome(iden, f.ident) else PushAlways(iden, f.ident)
  }

  /** `implement_update_trait`: one push statement per field, in declaration order. */
  method ImplementUpdateTrait(idenEnum: Path, fields: seq<UpdateField>, casing: Casing) returns (body: seq<PushStmt>)
    ensures |body| == |fields|
    ensures forall i :: 0 <= i < |fields| ==> body[i] == StmtOf(idenEnum, fields[i], casing)
  {
    body := [];
    for i := 0 to |fields|
      invariant |body| == i
      invariant forall j :: 0 <= j < i ==> body[j] == StmtOf(idenEnum, fields[j], casing)
    {
      var field := fields[i];
      var iden: Path;
      if field.iden.Some? {
        iden := field.iden.value;
      } else {
        iden := Push(idenEnum, casing.upperCamel(field.ident));
      }
      if field.isOption {
        body := body + [PushIfSome(iden, field.ident)];
      } else {
        body := body + [PushAlways(iden, field.ident)];
      }
    }
  }

  /** The compiler's demand on a struct value: every field present, holding an option exactly when its type is one. */
  predicate WellTyped(fields: seq<UpdateField>, record: Record) {
    forall i :: 0 <= i < |fields| ==> fields[i].ident in record && (record[fields[i].ident].Optional? <==> fields[i].isOption)
  }

  /** The statement contributes a pair: always, or when its option holds a value. */
  predicate Contributes(s: PushStmt, record: Record)
    requires s.field in record
  {
    s.PushAlways? || (record[s.field].Optional? && record[s.field].o.Some?)
  }

  /** The pair a contributing statement pushes. */
  function PairOf(s: PushStmt, record: Record): (Path, SimpleExpr)
    requires s.field in record
  {
    match record[s.field]
    case Plain(v) => (s.iden, Val(v))
    case Optional(o) => (s.iden, Val(if o.Some? then o.value else Null))
  }

  predicate Covers(body: seq<PushStmt>, record: Record) {
    forall i :: 0 <= i < |body| ==> body[i].field in record
  }

  /** The pairs the body pushes, in order. */
  function Pairs(body: seq<PushStmt>, record: Record): (pairs: seq<(Path, SimpleExpr)>)
    requires Covers(body, record)
    ensures |pairs| <= |body|
  {
    if |body| == 0 then []
    else (if Contributes(body[0], record) then [PairOf(body[0], record)] else []) + Pairs(body[1..], record)
  }

  /** One statement of the body: its pair, if it contributes, then the pairs of the rest. */
  lemma PairsStep(body: seq<PushStmt>, record: Record, i: int)
    requires Covers(body, record) && 0 <= i < |body|
    ensures Pairs(body[i..], record) ==
      (if Contributes(body[i], record) then [PairOf(body[i], record)] else []) + Pairs(body[i + 1..], record)
  {
    assert body[i..][1..] == body[i + 1..];
  }

  /** The generated `update_values(self)`: run the body's pushes in order on an empty vector. */
  method UpdateValues(body: seq<PushStmt>, record: Record) returns (out: seq<(Path, SimpleExpr)>)
    requires Covers(body, record)
    ensures out == Pairs(body, record)
  {
    out := [];
    for i := 0 to |body|
      invariant Pairs(body, record) == out + Pairs(body[i..], record)
    {
      PairsStep(body, record, i);
      ghost var prev := out;
      ghost var step := if Contributes(body[i], record) then [PairOf(body[i], record)] else [];
      match body[i] {
        case PushIfSome(iden, f) =>
          if record[f].Optional? && record[f].o.Some? {
            out := out + [(iden, Val(record[f].o.value))];
          }
        case PushAlways(iden, f) =>
          out := out + [PairOf(body[i], record)];
      }
      assert out == prev + step;
      assert Pairs(body, record) == prev + (step + Pairs(body[i + 1..], record)) == out + Pairs(body[i + 1..], record);
    }
    assert body[|body|..] == [];
  }

  /** No pair is pushed exactly when every statement is conditional and finds no value. */
  lemma {:induction false} PairsEmptyIff(body: seq<PushStmt>, record: Record)
    requires Covers(body, record)
    ensures |Pairs(body, record)| == 0 <==> forall i :: 0 <= i < |body| ==> !Contributes(body[i], record)
    decreases |body|
  {
    if |body| > 0 {
      PairsEmptyIff(body[1..], record);
      assert forall i :: 1 <= i < |body| ==> body[1..][i - 1] == body[i];
    }
  }

  /** Every contributing statement's pair is pushed. */
  lemma {:induction false} PairsFromContributors(body: seq<PushStmt>, record: Record, i: int)
    requires Covers(body, record) && 0 <= i < |body| && Contributes(body[i], record)
    ensures PairOf(body[i], record) in Pairs(body, record)
    decreases |body|
  {
    if i > 0 {
      PairsFromContributors(body[1..], record, i - 1);
    }
  }

  /** Every pair pushed is the pair of some contributing statement. */
  lemma {:induction false} PairsComeFromContributors(body: seq<PushStmt>, record: Record, p: (Path, SimpleExpr))
    requires Covers(body, record) && p in Pairs(body, record)
    ensures exists i :: 0 <= i < |body| && Contributes(body[i], record) && PairOf(body[i], record) == p
    decreases |body|
  {
    if Contributes(body[0], record) && p == PairOf(body[0], record) {
      assert 0 < |body|;
    } else {
      PairsComeFromContributors(body[1..], record, p);
      var k :| 0 <= k < |body[1..]| && Contributes(body[1..][k], record) && PairOf(body[1..][k], record) == p;
      assert body[k + 1] == body[1..][k];
    }
  }

  /**
   * `update_values()` is empty exactly when every field is an `Option` and
   * every one of them is `None`; a field that is not an `Option` always
   * contributes its pair.
   */
  lemma UpdateValuesEmptyIff(idenEnum: Path, fields: seq<UpdateField>, casing: Casing, record: Record, body: seq<PushStmt>)
    requires WellTyped(fields, record)
    requires |body| == |fields| && forall i :: 0 <= i < |fields| ==> body[i] == StmtOf(idenEnum, fields[i], casing)
    ensures Covers(body, record)
    ensures |Pairs(body, record)| == 0 <==>
      forall i :: 0 <= i < |fields| ==> fields[i].isOption && record[fields[i].ident].o.None?
    ensures forall i :: 0 <= i < |fields| && !fields[i].isOption ==>
      (FieldIden(idenEnum, fields[i].iden, fields[i].ident, casing), Val(record[fields[i].ident].v)) in Pairs(body, record)
  {
    PairsEmptyIff(body, record);
    forall i | 0 <= i < |fields| && !fields[i].isOption
      ensures (FieldIden(idenEnum, fields[i].iden, fields[i].ident, casing), Val(record[fields[i].ident].v)) in Pairs(body, record)
    {
      PairsFromContributors(body, record, i);
    }
  }

  /** The pairs as the engine receives them, each column path rendered to its name. */
  function Rendered(pairs: seq<(Path, SimpleExpr)>, render: Path -> Iden): (r: seq<(Iden, SimpleExpr)>)
    ensures |r| == |pairs|
    ensures forall i :: 0 <= i < |pairs| ==> r[i] == (render(pairs[i].0), pairs[i].1)
  {
    seq(|pairs|, i requires 0 <= i < |pairs| => (render(pairs[i].0), pairs[i].1))
  }

  /**
   * Through the engine: an update whose struct has every field an unset
   * `Option` is refused with EmptyUpdate, naming the entity and the id
   * (Store.Update states that nothing is then sent to the database).
   */
  lemma AllNoneIsEmptyUpdate<Id>(s: Postgres.Schema, rows: seq<Row>, mc: Controller<Id>, fields: seq<UpdateField>, record: Record,
                                 body: seq<PushStmt>, idenEnum: Path, casing: Casing, render: Path -> Iden, id: Id,
                                 returning: seq<Iden>, fault: Option<Errors.SqlxError>)
    requires WellTyped(fields, record)
    requires |body| == |fields| && forall i :: 0 <= i < |fields| ==> body[i] == StmtOf(idenEnum, fields[i], casing)
    requires forall i :: 0 <= i < |fields| ==> fields[i].isOption && record[fields[i].ident].o.None?
    ensures Covers(body, record)
    ensures UpdateResult(s, rows, mc, Rendered(Pairs(body, record), render), id, returning, fault)
      == Err(Domain(Errors.EmptyUpdate(mc.entity, mc.idString(id))))
  {
    UpdateValuesEmptyIff(idenEnum, fields, casing, record, body);
  }
}
