/**
  What the DLR hands a binder and what a binder hands back: the meta-objects
  describing a call site's operands, and a binding (a result expression
  guarded by a restriction) or a request to defer until values are known.
*/
module Binding {
  import opened Wrappers
  import opened HostTypes

  /**
    A `DynamicMetaObject`: the expression that produces the operand (named by
    a number), whether its value is known yet, whether that value is null,
    and its runtime (limit) type.
  */
  datatype MetaObject = MetaObject(expression: nat, hasValue: bool, isNull: bool, limitType: Ty)

  /** The runtime type the resolver sees for an operand: none for a null (or unknown) value. */
  function RuntimeType(m: MetaObject): (t: Option<Ty>)
    ensures t.Some? <==> m.hasValue && !m.isNull
  {
    if !m.hasValue || m.isNull then None else Some(m.limitType)
  }

  /** The guard under which a binding may be reused by the call site's cache. */
  datatype Restriction =
    | InstanceIsNull(target: nat)          // GetInstanceRestriction(target, null)
    | TypeIs(target: nat, ty: Ty)          // GetTypeRestriction(target, limitType)

  /** A binder's answer: defer until the operands have values, or a guarded result. */
  datatype Outcome<+R> = Defer | Bound(result: R, restriction: Restriction)
}
