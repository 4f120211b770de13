/**
 * `#[derive(Select)]` (bodega-macros/src/select.rs): the column list an
 * entity selects and the field that becomes its pagination cursor.
 */
module SelectDerive {
  import opened Wrappers
  import opened DeriveCommon

  /** A named field: its name, its type (as written) and whether it carries `#[select(cursor)]`. */
  datatype NamedField = NamedField(ident: string, ty: string, cursor: bool)

  datatype Fields = Named(named: seq<NamedField>) | Unnamed(count: nat) | Unit

  datatype Data = Struct(fields: Fields) | Enum | Union

  /** The item the derive is applied to. */
  datatype DeriveInput = DeriveInput(ident: string, data: Data)

  datatype CursorAttr = CursorAttr(ident: string, cursorIden: string, ty: string)

  datatype ModelType = ModelType(name: string, idenName: string, idenFields: seq<string>, cursor: Option<CursorAttr>)

  const UnnamedFieldsError: string := "Select: Structs with unnamed fields are not supported."
  const NotStructError: string := "Select: Only works with structs with named fields (non-tuple)."

  /** `extract_field_iden_idents`: the UpperCamelCase of every field name, in declaration order. */
  function ExtractFieldIdenIdents(fields: Fields, casing: Casing): (r: Result<seq<string>, MacroError>)
    ensures r.Ok? <==> fields.Named?
    ensures r.Err? ==> r.error == MacroError(UnnamedFieldsError)
    ensures r.Ok? ==> |r.value| == |fields.named|
    ensures r.Ok? ==> forall i :: 0 <= i < |r.value| ==> r.value[i] == casing.upperCamel(fields.named[i].ident)
  {
    match fields
    case Named(named) => Ok(seq(|named|, i requires 0 <= i < |named| => casing.upperCamel(named[i].ident)))
    case _ => Err(MacroError(UnnamedFieldsError))
  }

  /** The cursor a marked field makes: its name, the UpperCamelCase variant, its type. */
  function AttrOf(f: NamedField, casing: Casing): CursorAttr {
    CursorAttr(f.ident, casing.upperCamel(f.ident), f.ty)
  }

  /** `c` is the cursor of the last field marked as cursor. */
  predicate LastMarked(fields: seq<NamedField>, c: CursorAttr, casing: Casing) {
    exists k :: 0 <= k < |fields| && fields[k].cursor && c == AttrOf(fields[k], casing) && (forall j :: k < j < |fields| ==> !fields[j].cursor)
  }

  /**
   * The cursor choice in `ModelType::try_from`: every marked field
   * overwrites the cursor, so the last marked field wins, and there is no
   * cursor when no field is marked.
   */
  method ChooseCursor(fields: seq<NamedField>, casing: Casing) returns (cursor: Option<CursorAttr>)
    ensures cursor.None? <==> forall i :: 0 <= i < |fields| ==> !fields[i].cursor
    ensures cursor.Some? ==> LastMarked(fields, cursor.value, casing)
  {
    cursor := None;
    ghost var chosen := -1;
    for i := 0 to |fields|
      invariant cursor.None? <==> forall j :: 0 <= j < i ==> !fields[j].cursor
      invariant cursor.None? <==> chosen == -1
      invariant cursor.Some? ==> 0 <= chosen < i && fields[chosen].cursor && cursor.value == AttrOf(fields[chosen], casing)
      invariant forall j :: chosen < j < i ==> !fields[j].cursor
    {
      if fields[i].cursor {
        cursor := Some(AttrOf(fields[i], casing));
        chosen := i;
      }
    }
  }

  /** `ModelType::try_from`: only structs with named fields are accepted. */
  method TryFrom(input: DeriveInput, casing: Casing) returns (r: Result<ModelType, MacroError>)
    ensures r.Ok? <==> input.data.Struct? && input.data.fields.Named?
    ensures !input.data.Struct? ==> r == Err(MacroError(NotStructError))
    ensures input.data.Struct? && !input.data.fields.Named? ==> r == Err(MacroError(UnnamedFieldsError))
    ensures r.Ok? ==> var fields := input.data.fields.named;
      && r.value.name == input.ident
      && r.value.idenName == input.ident + "Iden"
      && r.value.idenFields == ExtractFieldIdenIdents(input.data.fields, casing).value
      && (r.value.cursor.None? <==> forall i :: 0 <= i < |fields| ==> !fields[i].cursor)
      && (r.value.cursor.Some? ==> LastMarked(fields, r.value.cursor.value, casing))
  {
    match input.data {
      case Struct(fields) =>
        var idenFields := ExtractFieldIdenIdents(fields, casing);
        if idenFields.Err? {
          return Err(idenFields.error);
        }
        var cursor := ChooseCursor(fields.named, casing);
        r := Ok(ModelType(input.ident, input.ident + "Iden", idenFields.value, cursor));
      case _ =>
        r := Err(MacroError(NotStructError));
    }
  }

  /** The generated `impl Cursored`: the cursor type, the field `cursor_value` clones, the path `cursor_column` returns. */
  datatype CursoredImpl = CursoredImpl(cursorType: string, field: string, column: Path)

  /** The generated `impl Select` (its `select_cols` paths) and, when there is a cursor, `impl Cursored`. */
  datatype SelectImpl = SelectImpl(selectCols: seq<Path>, cursored: Option<CursoredImpl>)

  /** `implement_select_trait`. */
  function ImplementSelectTrait(mt: ModelType): (out: SelectImpl)
    ensures |out.selectCols| == |mt.idenFields|
    ensures forall i :: 0 <= i < |out.selectCols| ==> out.selectCols[i] == [mt.idenName, mt.idenFields[i]]
    ensures out.cursored.Some? <==> mt.cursor.Some?
    ensures out.cursored.Some? ==>
      out.cursored.value == CursoredImpl(mt.cursor.value.ty, mt.cursor.value.ident, [mt.idenName, mt.cursor.value.cursorIden])
  {
    var cols := seq(|mt.idenFields|, i requires 0 <= i < |mt.idenFields| => [mt.idenName, mt.idenFields[i]]);
    match mt.cursor
    case None => SelectImpl(cols, None)
    case Some(c) => SelectImpl(cols, Some(CursoredImpl(c.ty, c.ident, [mt.idenName, c.cursorIden])))
  }

  /**
   * What the derive gives a struct with named fields: one selected column
   * per field, in order, each `<Name>Iden::<UpperCamel(field)>`; and when a
   * field is marked as cursor, a cursor column that is itself one of the
   * selected columns, so a page's rows always carry their cursor value.
   */
  lemma CursorColumnIsSelected(mt: ModelType, input: DeriveInput, casing: Casing)
    requires input.data.Struct? && input.data.fields.Named?
    requires mt.name == input.ident && mt.idenName == input.ident + "Iden"
    requires mt.idenFields == ExtractFieldIdenIdents(input.data.fields, casing).value
    requires mt.cursor.Some? ==> exists k :: 0 <= k < |input.data.fields.named| && mt.cursor.value == AttrOf(input.data.fields.named[k], casing)
    ensures var out := ImplementSelectTrait(mt);
      out.cursored.Some? ==> out.cursored.value.column in out.selectCols
  {
    var out := ImplementSelectTrait(mt);
    if out.cursored.Some? {
      var k :| 0 <= k < |input.data.fields.named| && mt.cursor.value == AttrOf(input.data.fields.named[k], casing);
      assert out.selectCols[k] == out.cursored.value.column;
    }
  }
}
