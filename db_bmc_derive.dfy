/**
 * `#[derive(DbBmc)]` (bodega-macros/src/db_bmc.rs): the names a model
 * controller gets (ENTITY, TABLE, the iden enum, the id column, the error
 * type) and which CRUD wrappers it is given, in which order.
 */
module DbBmcDerive {
  import opened Wrappers
  import opened DeriveCommon
  import opened Base

  /** The `methods(...)` argument: which wrappers to emit, with their data types. */
  datatype MethodArgs = MethodArgs(
    create: Option<Path>,
    get: bool,
    list: bool,
    listPaginated: Option<Path>,
    update: Option<Path>,
    delete: bool,
    count: bool)

  /** The `db_bmc(...)` attribute. */
  datatype BmcArgs = BmcArgs(
    model: Path,
    idType: Path,
    modelName: Option<string>,
    tableName: Option<string>,
    idenEnum: Option<Path>,
    idIden: Option<Path>,
    error: Option<Path>,
    privateMethods: bool,
    methods: MethodArgs)

  datatype ControllerInfo = ControllerInfo(modelName: string, tableName: string, idenEnum: Path)

  const ModelNameMissing: string :=
    "DbBmc: Failed to derive model name from model and was not provided a model_name as an argument."

  predicate EndsWithS(n: string) {
    |n| > 0 && n[|n| - 1] == 's'
  }

  /** The table-name rule: append "s" unless the name already ends in 's'. */
  function Pluralize(n: string): (t: string)
    ensures EndsWithS(t)
    ensures EndsWithS(n) ==> t == n
    ensures !EndsWithS(n) ==> |t| == |n| + 1 && t[..|n|] == n
  {
    if EndsWithS(n) then n else n + "s"
  }

  /** Pluralizing a table name twice changes nothing more. */
  lemma PluralizeIdempotent(n: string)
    ensures Pluralize(Pluralize(n)) == Pluralize(n)
  {
  }

  /** The path with its last segment suffixed "Iden" (a path without segments stays as it is). */
  function SuffixLast(p: Path, suffix: string): (q: Path)
    ensures |q| == |p|
    ensures |p| > 0 ==> q[..|p| - 1] == p[..|p| - 1] && q[|p| - 1] == p[|p| - 1] + suffix
    ensures |p| == 0 ==> q == p
  {
    if |p| == 0 then p else p[..|p| - 1] + [p[|p| - 1] + suffix]
  }

  /**
   * `ControllerInfo::new`: the model name is the explicit one, else the
   * snake case of the model path's last segment, else an error; the table
   * name is the explicit one or the model name, pluralized; the iden enum is
   * the explicit one, else the model path with "Iden" on its last segment.
   */
  function NewControllerInfo(args: BmcArgs, casing: Casing): (r: Result<ControllerInfo, MacroError>)
    ensures r.Err? <==> args.modelName.None? && |args.model| == 0
    ensures r.Err? ==> r.error == MacroError(ModelNameMissing)
    ensures r.Ok? && args.modelName.Some? ==> r.value.modelName == args.modelName.value
    ensures r.Ok? && args.modelName.None? ==> r.value.modelName == casing.snake(args.model[|args.model| - 1])
    ensures r.Ok? ==> EndsWithS(r.value.tableName)
    ensures r.Ok? && args.tableName.Some? ==> r.value.tableName == Pluralize(args.tableName.value)
    ensures r.Ok? && args.tableName.None? ==> r.value.tableName == Pluralize(r.value.modelName)
    ensures r.Ok? && args.idenEnum.Some? ==> r.value.idenEnum == args.idenEnum.value
    ensures r.Ok? && args.idenEnum.None? ==> r.value.idenEnum == SuffixLast(args.model, "Iden")
  {
    var modelName :=
      match args.modelName
      case Some(n) => Some(n)
      case None => if |args.model| == 0 then None else Some(casing.snake(args.model[|args.model| - 1]));
    match modelName
    case None => Err(MacroError(ModelNameMissing))
    case Some(m) =>
      var n := match args.tableName case Some(t) => t case None => m;
      var idenEnum := match args.idenEnum case Some(p) => p case None => SuffixLast(args.model, "Iden");
      Ok(ControllerInfo(m, Pluralize(n), idenEnum))
  }

  /** The error type both the trait impl and the wrappers name: the given one, else `bodega::Error`. */
  function ErrorPath(args: BmcArgs): (p: Path)
    ensures args.error.None? ==> p == ["bodega", "Error"]
    ensures args.error.Some? ==> p == args.error.value
  {
    match args.error
    case Some(e) => e
    case None => ["bodega", "Error"]
  }

  /** The generated `impl DbBmc`: ENTITY, TABLE, `type Error`, `type IdType`, and the path `id_column` returns. */
  datatype TraitImpl = TraitImpl(entity: string, table: string, error: Path, idType: Path, idColumn: Path)

  /** `trait_impl`; the id column defaults to the iden enum's `Id` variant. */
  function TraitImplOf(info: ControllerInfo, args: BmcArgs): (t: TraitImpl)
    ensures t.entity == info.modelName && t.table == info.tableName && t.idType == args.idType
    ensures t.error == ErrorPath(args)
    ensures args.idIden.Some? ==> t.idColumn == args.idIden.value
    ensures args.idIden.None? ==> t.idColumn == Push(info.idenEnum, "Id")
  {
    var idColumn := match args.idIden case Some(p) => p case None => Push(info.idenEnum, "Id");
    TraitImpl(info.modelName, info.tableName, ErrorPath(args), args.idType, idColumn)
  }

  /** `fn_info`: visibility and name of a wrapper. */
  datatype FnInfo = FnInfo(public: bool, name: string)

  function FnInfoOf(privateMethods: bool, basename: string): (f: FnInfo)
    ensures f.public <==> !privateMethods
    ensures privateMethods ==> |f.name| == |basename| + 1 && f.name[0] == '_' && f.name[1..] == basename
    ensures !privateMethods ==> f.name == basename
  {
    if privateMethods then FnInfo(false, "_" + basename) else FnInfo(true, basename)
  }

  /** The base name of each wrapper, the name of the engine function it delegates to. */
  function Basename(op: DbBmcOp): (n: string)
    ensures |n| > 0
  {
    match op
    case Create => "create"
    case Get => "get"
    case List => "list"
    case ListPaginated => "list_paginated"
    case Update => "update"
    case Delete => "delete"
    case Count => "count"
  }

  lemma BasenamesDistinct(a: DbBmcOp, b: DbBmcOp)
    ensures Basename(a) == Basename(b) <==> a == b
  {
  }

  /** The order `crud_methods` considers the wrappers in. */
  const EmissionOrder: seq<DbBmcOp> := [Create, Get, List, ListPaginated, Update, Delete, Count]

  /** The position of each operation in the emission order. */
  function Rank(op: DbBmcOp): nat {
    match op
    case Create => 0
    case Get => 1
    case List => 2
    case ListPaginated => 3
    case Update => 4
    case Delete => 5
    case Count => 6
  }

  /** Whether `methods(...)` asks for the wrapper: its flag is set or its data type given. */
  predicate Requested(m: MethodArgs, op: DbBmcOp) {
    match op
    case Create => m.create.Some?
    case Get => m.get
    case List => m.list
    case ListPaginated => m.listPaginated.Some?
    case Update => m.update.Some?
    case Delete => m.delete
    case Count => m.count
  }

  /** The data type a wrapper takes besides the executor (and the id): the create, filter or update type. */
  function DataType(m: MethodArgs, op: DbBmcOp): Option<Path> {
    match op
    case Create => m.create
    case ListPaginated => m.listPaginated
    case Update => m.update
    case _ => None
  }

  /** A generated wrapper: the engine operation it delegates to, its visibility and name, its data type and error type. */
  datatype Wrapper = Wrapper(op: DbBmcOp, public: bool, name: string, dataType: Option<Path>, error: Path)

  function WrapperFor(args: BmcArgs, op: DbBmcOp): (w: Wrapper)
    ensures w.op == op && w.error == ErrorPath(args) && w.dataType == DataType(args.methods, op)
    ensures FnInfo(w.public, w.name) == FnInfoOf(args.privateMethods, Basename(op))
  {
    var f := FnInfoOf(args.privateMethods, Basename(op));
    Wrapper(op, f.public, f.name, DataType(args.methods, op), ErrorPath(args))
  }

  /** The requested operations among `ops`, in their order there. */
  function Keep(ops: seq<DbBmcOp>, m: MethodArgs): seq<DbBmcOp> {
    if |ops| == 0 then []
    else (if Requested(m, ops[0]) then [ops[0]] else []) + Keep(ops[1..], m)
  }

  lemma {:induction false} KeepMembers(ops: seq<DbBmcOp>, m: MethodArgs)
    ensures |Keep(ops, m)| <= |ops|
    ensures forall op :: op in Keep(ops, m) <==> op in ops && Requested(m, op)
    decreases |ops|
  {
    if |ops| > 0 {
      KeepMembers(ops[1..], m);
      assert ops == [ops[0]] + ops[1..];
    }
  }

  /** Operations in strictly increasing emission rank. */
  predicate Ranked(s: seq<DbBmcOp>) {
    forall i, j :: 0 <= i < j < |s| ==> Rank(s[i]) < Rank(s[j])
  }

  /** The wrappers to emit, as operations. */
  function Selected(m: MethodArgs): seq<DbBmcOp> {
    Keep(EmissionOrder, m)
  }

  /** Keeping operations of strictly increasing rank keeps them so. */
  lemma {:induction false} KeepRanked(ops: seq<DbBmcOp>, m: MethodArgs)
    requires Ranked(ops)
    ensures Ranked(Keep(ops, m))
    decreases |ops|
  {
    if |ops| > 0 {
      RankedTail(ops);
      KeepRanked(ops[1..], m);
      if Requested(m, ops[0]) {
        HeadBelowKept(ops, m);
        RankedCons(ops[0], Keep(ops[1..], m));
      }
    }
  }

  lemma RankedTail(ops: seq<DbBmcOp>)
    requires Ranked(ops) && |ops| > 0
    ensures Ranked(ops[1..])
  {
    forall i, j | 0 <= i < j < |ops[1..]| ensures Rank(ops[1..][i]) < Rank(ops[1..][j]) {
      assert ops[1..][i] == ops[i + 1] && ops[1..][j] == ops[j + 1];
    }
  }

  lemma HeadBelowKept(ops: seq<DbBmcOp>, m: MethodArgs)
    requires Ranked(ops) && |ops| > 0
    ensures forall k :: 0 <= k < |Keep(ops[1..], m)| ==> Rank(ops[0]) < Rank(Keep(ops[1..], m)[k])
  {
    var rest := Keep(ops[1..], m);
    KeepMembers(ops[1..], m);
    forall k | 0 <= k < |rest| ensures Rank(ops[0]) < Rank(rest[k]) {
      assert rest[k] in ops[1..];
      var t :| 0 <= t < |ops[1..]| && ops[1..][t] == rest[k];
      assert ops[t + 1] == rest[k];
    }
  }

  lemma RankedCons(x: DbBmcOp, rest: seq<DbBmcOp>)
    requires Ranked(rest) && forall k :: 0 <= k < |rest| ==> Rank(x) < Rank(rest[k])
    ensures Ranked([x] + rest)
  {
    var kept := [x] + rest;
    forall i, j | 0 <= i < j < |kept| ensures Rank(kept[i]) < Rank(kept[j]) {
      assert kept[j] == rest[j - 1];
      if i > 0 {
        assert kept[i] == rest[i - 1];
      }
    }
  }

  /**
   * A wrapper is emitted exactly when requested, each at most once, in the
   * order create, get, list, list_paginated, update, delete, count.
   */
  lemma SelectedInOrder(m: MethodArgs)
    ensures forall op :: op in Selected(m) <==> Requested(m, op)
    ensures Ranked(Selected(m))
  {
    forall op ensures op in EmissionOrder {
      assert EmissionOrder[Rank(op)] == op;
    }
    assert forall i :: 0 <= i < |EmissionOrder| ==> Rank(EmissionOrder[i]) == i;
    KeepMembers(EmissionOrder, m);
    KeepRanked(EmissionOrder, m);
  }

  /** One step of `Keep`: the operation at `k`, if requested, then the rest. */
  lemma KeepStep(ops: seq<DbBmcOp>, m: MethodArgs, k: int)
    requires 0 <= k < |ops|
    ensures Keep(ops[k..], m) == (if Requested(m, ops[k]) then [ops[k]] else []) + Keep(ops[k + 1..], m)
  {
    assert ops[k..][1..] == ops[k + 1..];
  }

  /** The wrappers for `ops`, in order. */
  predicate Emits(args: BmcArgs, out: seq<Wrapper>, ops: seq<DbBmcOp>) {
    |out| == |ops| && forall i :: 0 <= i < |out| ==> out[i] == WrapperFor(args, ops[i])
  }

  /** Emitting one more wrapper after a matching prefix. */
  lemma EmitsAppend(args: BmcArgs, out: seq<Wrapper>, done: seq<DbBmcOp>, op: DbBmcOp)
    requires Emits(args, out, done)
    ensures Emits(args, out + [WrapperFor(args, op)], done + [op])
  {
  }

  /** Appending the wrapper for `op` when requested extends what is emitted. */
  method EmitIf(args: BmcArgs, order: seq<DbBmcOp>, out: seq<Wrapper>, ghost done: seq<DbBmcOp>, ghost target: seq<DbBmcOp>, k: nat)
    returns (out': seq<Wrapper>, ghost done': seq<DbBmcOp>)
    requires k < |order|
    requires Emits(args, out, done) && target == done + Keep(order[k..], args.methods)
    ensures Emits(args, out', done') && target == done' + Keep(order[k + 1..], args.methods)
  {
    var op := order[k];
    ghost var rest := Keep(order[k + 1..], args.methods);
    KeepStep(order, args.methods, k);
    if Requested(args.methods, op) {
      out', done' := out + [WrapperFor(args, op)], done + [op];
      EmitsAppend(args, out, done, op);
      assert target == done + ([op] + rest);
    } else {
      out', done' := out, done;
    }
  }

  /**
   * `crud_methods`: for create, get, list, list_paginated, update, delete
   * and count in turn, the wrapper is appended when requested.
   */
  method CrudMethods(args: BmcArgs) returns (out: seq<Wrapper>)
    ensures Emits(args, out, Selected(args.methods))
  {
    ghost var target := Selected(args.methods);
    out := [];
    ghost var done: seq<DbBmcOp> := [];
    assert EmissionOrder[0..] == EmissionOrder;
    out, done := EmitIf(args, EmissionOrder, out, done, target, 0);   // create
    out, done := EmitIf(args, EmissionOrder, out, done, target, 1);   // get
    out, done := EmitIf(args, EmissionOrder, out, done, target, 2);   // list
    out, done := EmitIf(args, EmissionOrder, out, done, target, 3);   // list_paginated
    out, done := EmitIf(args, EmissionOrder, out, done, target, 4);   // update
    out, done := EmitIf(args, EmissionOrder, out, done, target, 5);   // delete
    out, done := EmitIf(args, EmissionOrder, out, done, target, 6);   // count
    assert EmissionOrder[7..] == [];
    assert done == target;
  }

  /** Within one expansion, no two wrappers share a name. */
  lemma WrapperNamesDistinct(args: BmcArgs, i: int, j: int)
    requires 0 <= i < j < |Selected(args.methods)|
    ensures WrapperFor(args, Selected(args.methods)[i]).name != WrapperFor(args, Selected(args.methods)[j]).name
  {
    var a, b := Selected(args.methods)[i], Selected(args.methods)[j];
    SelectedInOrder(args.methods);
    BasenamesDistinct(a, b);
  }

  /** `db_bmc_impl`: the controller info, then the trait impl and the wrappers. */
  method DbBmcImpl(args: BmcArgs, casing: Casing) returns (r: Result<(TraitImpl, seq<Wrapper>), MacroError>)
    ensures r.Err? <==> args.modelName.None? && |args.model| == 0
    ensures r.Ok? ==> r.value.0 == TraitImplOf(NewControllerInfo(args, casing).value, args)
    ensures r.Ok? ==> Emits(args, r.value.1, Selected(args.methods))
  {
    var info := NewControllerInfo(args, casing);
    if info.Err? {
      return Err(info.error);
    }
    var methods := CrudMethods(args);
    r := Ok((TraitImplOf(info.value, args), methods));
  }

  /** The trait impl and every wrapper name the same error type. */
  lemma ErrorTypesAgree(args: BmcArgs, casing: Casing, op: DbBmcOp)
    requires NewControllerInfo(args, casing).Ok?
    ensures WrapperFor(args, op).error == TraitImplOf(NewControllerInfo(args, casing).value, args).error
  {
  }

  /**
   * The crate's documented example: `model = Book` with nothing else named
   * gives ENTITY "book", TABLE "books", id column `BookIden::Id` and
   * `bodega::Error`.
   */
  lemma BookNaming(casing: Casing, m: MethodArgs)
    requires casing.snake("Book") == "book"
    ensures var args := BmcArgs(["Book"], ["BookId"], None, None, None, None, None, false, m);
      var info := NewControllerInfo(args, casing);
      && info == Ok(ControllerInfo("book", "books", ["BookIden"]))
      && TraitImplOf(info.value, args) == TraitImpl("book", "books", ["bodega", "Error"], ["BookId"], ["BookIden", "Id"])
  {
    var args := BmcArgs(["Book"], ["BookId"], None, None, None, None, None, false, m);
    assert "Book" + "Iden" == "BookIden";
    assert SuffixLast(["Book"], "Iden") == [] + ["BookIden"];
    assert Pluralize("book") == "books";
  }
}
