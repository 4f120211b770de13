/**
 * `#[uuid_id]` (bodega-macros/src/uuid_id.rs): the newtype-over-uuid id
 * attribute. The expansion checks the struct's shape, adds the store
 * attributes and emits the impl blocks its flags leave on; the generated
 * impls wrap and unwrap the inner uuid.
 */
module UuidIdDerive {
  import opened Wrappers
  import opened Sql
  import opened DeriveCommon

  /** The attribute's flags; each one switches an impl block off. */
  datatype UuidArgs = UuidArgs(skipDefault: bool, skipConstruction: bool, skipDisplay: bool, skipRefs: bool, skipStore: bool)

  datatype StructFields = Unnamed(count: nat) | Named(count: nat) | Unit

  /** The struct the attribute is applied to: its name, its attributes (as written), its fields. */
  datatype ItemStruct = ItemStruct(ident: string, attrs: seq<string>, fields: StructFields)

  /** The impl blocks the expansion can emit. */
  datatype ImplBlock = DefaultImpl | Construction | Refs | DisplayImpl | StoreConversions

  const DeriveSqlxType: string := "#[derive(sqlx::Type)]"
  const SqlxTransparent: string := "#[sqlx(transparent)]"
  const ShapeError: string := "UuidId: Only newtypes in form Foo(Uuid) are supported."

  /** Whether a flag switches the block off. */
  predicate Skipped(args: UuidArgs, b: ImplBlock) {
    match b
    case DefaultImpl => args.skipDefault
    case Construction => args.skipConstruction
    case Refs => args.skipRefs
    case DisplayImpl => args.skipDisplay
    case StoreConversions => args.skipStore
  }

  /** The order the blocks are emitted in. */
  function Rank(b: ImplBlock): nat {
    match b
    case DefaultImpl => 0
    case Construction => 1
    case Refs => 2
    case DisplayImpl => 3
    case StoreConversions => 4
  }

  function IfEnabled(args: UuidArgs, b: ImplBlock): seq<ImplBlock> {
    if Skipped(args, b) then [] else [b]
  }

  /** The blocks a set of flags leaves on, in emission order. */
  function Enabled(args: UuidArgs): seq<ImplBlock> {
    IfEnabled(args, DefaultImpl) + IfEnabled(args, Construction) + IfEnabled(args, Refs)
      + IfEnabled(args, DisplayImpl) + IfEnabled(args, StoreConversions)
  }

  /** A block is emitted exactly when its flag is off, each at most once, in the order default, construction, refs, display, store. */
  lemma EnabledExactly(args: UuidArgs)
    ensures forall b :: b in Enabled(args) <==> !Skipped(args, b)
    ensures forall i, j :: 0 <= i < j < |Enabled(args)| ==> Rank(Enabled(args)[i]) < Rank(Enabled(args)[j])
  {
    var e := Enabled(args);
    forall i, j | 0 <= i < j < |e| ensures Rank(e[i]) < Rank(e[j]) {
      var d, c, r, s, t := IfEnabled(args, DefaultImpl), IfEnabled(args, Construction), IfEnabled(args, Refs),
                           IfEnabled(args, DisplayImpl), IfEnabled(args, StoreConversions);
      assert e == d + c + r + s + t;
      assert forall k :: 0 <= k < |e| ==> e[k] in d || e[k] in c || e[k] in r || e[k] in s || e[k] in t;
      assert forall k :: 0 <= k < |e| ==> (e[k] in d <==> k < |d|) && (e[k] in c <==> |d| <= k < |d| + |c|);
    }
  }

  /** The expansion: the (possibly extended) struct and the impl blocks after it. */
  datatype Expansion = Expansion(item: ItemStruct, impls: seq<ImplBlock>)

  /**
   * `uuid_id_impl`. Unless `skip_store`, the sqlx attributes are appended
   * to the struct first; then only a tuple struct of exactly one field is
   * accepted, and each block whose flag is off is emitted in turn.
   */
  method UuidIdImpl(args: UuidArgs, input: ItemStruct) returns (r: Result<Expansion, MacroError>)
    ensures r.Ok? <==> input.fields == Unnamed(1)
    ensures r.Err? ==> r.error == MacroError(ShapeError)
    ensures r.Ok? ==> r.value.item.ident == input.ident && r.value.item.fields == input.fields
    ensures r.Ok? && args.skipStore ==> r.value.item.attrs == input.attrs
    ensures r.Ok? && !args.skipStore ==> r.value.item.attrs == input.attrs + [DeriveSqlxType, SqlxTransparent]
    ensures r.Ok? ==> r.value.impls == Enabled(args)
  {
    var item := input;
    if !args.skipStore {
      item := item.(attrs := item.attrs + [DeriveSqlxType]);
      item := item.(attrs := item.attrs + [SqlxTransparent]);
    }
    if item.fields != Unnamed(1) {
      return Err(MacroError(ShapeError));
    }
    var out: seq<ImplBlock> := [];
    if !args.skipDefault {
      out := out + [DefaultImpl];
    }
    if !args.skipConstruction {
      out := out + [Construction];
    }
    if !args.skipRefs {
      out := out + [Refs];
    }
    if !args.skipDisplay {
      out := out + [DisplayImpl];
    }
    if !args.skipStore {
      out := out + [StoreConversions];
    }
    r := Ok(Expansion(item, out));
  }

  // ---- the generated impls ----

  /** A uuid, read as a 128-bit unsigned big-endian integer. */
  type Uuid = u: int | 0 <= u < 0x1_0000_0000_0000_0000_0000_0000_0000_0000

  /** The id newtype `Foo(Uuid)`. */
  datatype UuidId = UuidId(inner: Uuid)

  /** `new(uuid)`: wrap. */
  function New(u: Uuid): (id: UuidId)
    ensures id.inner == u
  {
    UuidId(u)
  }

  /** `From<Uuid>` and `From<&Uuid>`, both `new`. */
  function FromUuid(u: Uuid): UuidId {
    New(u)
  }

  /** `Deref` and `AsRef<Uuid>`: the inner uuid. */
  function Deref(id: UuidId): Uuid {
    id.inner
  }

  /** `Display`: the inner uuid's display, whatever the uuid crate renders. */
  function Display(id: UuidId, uuidDisplay: Uuid -> string): string {
    uuidDisplay(id.inner)
  }

  /** `From<Foo> for sea_query::Value` (and from `&Foo`): the inner uuid's value. */
  function ToValue(id: UuidId): (v: Value)
    ensures v.Int? && 0 <= v.i
  {
    Int(id.inner)
  }

  /** Wrapping and unwrapping are inverse, and `From` is `new`. */
  lemma WrapUnwrap(u: Uuid, id: UuidId)
    ensures Deref(New(u)) == u && New(Deref(id)) == id && FromUuid(u) == New(u)
  {
  }

  /** Displaying an id displays its uuid. */
  lemma DisplayIsInner(u: Uuid, uuidDisplay: Uuid -> string)
    ensures Display(New(u), uuidDisplay) == uuidDisplay(u)
  {
  }

  /**
   * Two ids are the same value in the store exactly when they are the same
   * id, and the store orders ids as the derived `Ord` does: by their uuid.
   */
  lemma ToValueFaithful(a: UuidId, b: UuidId)
    ensures ToValue(a) == ToValue(b) <==> a == b
    ensures Before(ToValue(a), ToValue(b)) <==> a.inner < b.inner
  {
  }
}
