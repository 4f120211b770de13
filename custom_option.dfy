/**
 * `CustomOption` (bodega/src/custom_option.rs): an option wrapper whose
 * conversion to an expression turns a missing value into the literal NULL.
 */
module CustomOptions {
  import opened Wrappers
  import opened Sql

  datatype CustomOption<T> = CustomOption(inner: Option<T>)

  /** `From<Option<T>>`: wraps the option unchanged. */
  function FromOption<T>(value: Option<T>): (c: CustomOption<T>)
    ensures c.inner == value
  {
    CustomOption(value)
  }

  /**
   * `into_expr`: a present value becomes its own expression (`into`), an
   * absent one the raw fragment NULL.
   */
  function IntoExpr<T>(c: CustomOption<T>, into: T -> SimpleExpr): (e: SimpleExpr)
    ensures c.inner.Some? ==> e == into(c.inner.value)
    ensures c.inner.None? ==> e == Custom("NULL")
  {
    match c.inner
    case Some(v) => into(v)
    case None => Custom("NULL")
  }

  /** `From<CustomOption<T>> for SimpleExpr`. */
  function ToSimpleExpr<T>(c: CustomOption<T>, into: T -> SimpleExpr): SimpleExpr {
    IntoExpr(c, into)
  }

  /** Going through `From<Option<T>>` and then into an expression: `Some(v)` is `v`'s expression, `None` is NULL. */
  lemma OptionToExpr<T>(o: Option<T>, into: T -> SimpleExpr)
    ensures ToSimpleExpr(FromOption(o), into) == if o.Some? then into(o.value) else Custom("NULL")
  {
  }
}
