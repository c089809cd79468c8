/**
  The argument converter: decides whether a value of one type may be passed
  where another is expected, and hands back the implicit converter when so.
*/
module ArgumentConverter {
  import opened Wrappers
  import opened HostTypes
  import ReflectionHelper

  /** The only converter there is: an implicit conversion in the expression tree. */
  datatype Converter = ImplicitConverter

  /**
    `GetConverter(from, to)`: a null target type is an error; a null source
    (a null value) converts only to reference types; otherwise assignability,
    then the implicit numeric conversions for primitive sources.
  */
  function GetConverter(h: Host, from: Option<Ty>, to: Option<Ty>): (r: Result<Option<Converter>>)
    ensures r.Err? <==> to.None?
    ensures r.Err? ==> r.error == ArgumentNull("to")
  {
    if to.None? then Err(ArgumentNull("to"))
    else if from.None? then
      Ok(if IsValueType(to.value) then None else Some(ImplicitConverter))
    else if IsAssignableFrom(h, to.value, from.value) then Ok(Some(ImplicitConverter))
    else if IsPrimitive(from.value) && WideningTargets(from.value.kind).Some? then
      Ok(if to.value in WideningTargets(from.value.kind).value then Some(ImplicitConverter) else None)
    else Ok(None)
  }

  /** `CanBeConverted(from, to)`: whether `GetConverter` finds a converter. */
  function CanBeConverted(h: Host, from: Option<Ty>, to: Option<Ty>): (r: Result<bool>)
    ensures r.Err? <==> to.None?
    ensures r.Ok? ==> (r.value <==> GetConverter(h, from, to).value.Some?)
  {
    var c :- GetConverter(h, from, to);
    Ok(c.Some?)
  }

  /** A null value converts to exactly the reference types. */
  lemma {:induction false} NullConvertsToReferenceTypes(h: Host, to: Ty)
    ensures CanBeConverted(h, None, Some(to)) == Ok(!IsValueType(to))
  {
  }

  /** Every type converts to itself and to object. */
  lemma {:induction false} ConvertsToItselfAndObject(h: Host, t: Ty)
    ensures CanBeConverted(h, Some(t), Some(t)) == Ok(true)
    ensures CanBeConverted(h, Some(t), Some(ObjectTy)) == Ok(true)
  {
  }

  /**
    The converter agrees with the resolver's conversion test everywhere except
    for a null value passed as a non-primitive value type (decimal, a struct,
    void): the resolver accepts it, the converter refuses it.
  */
  lemma {:induction false} AgreesWithResolver(h: Host, from: Option<Ty>, to: Ty)
    ensures from.Some? || IsPrimitive(to) || !IsValueType(to) ==>
      (CanBeConverted(h, from, Some(to)) == Ok(true) <==> ReflectionHelper.CanBeImplicitlyConverted(h, from, to))
    ensures from.None? && IsValueType(to) && !IsPrimitive(to) ==>
      CanBeConverted(h, from, Some(to)) == Ok(false) && ReflectionHelper.CanBeImplicitlyConverted(h, from, to)
  {
  }

  /** Outside assignability, a primitive source converts exactly along the widening table. */
  lemma {:induction false} PrimitiveWidening(h: Host, k: PrimKind, to: Ty)
    requires !IsAssignableFrom(h, to, Prim(k))
    ensures CanBeConverted(h, Some(Prim(k)), Some(to)) == Ok(InWideningTable(Prim(k), to))
  {
  }

  /** A concrete disagreement: a null decimal argument. */
  lemma {:induction false} NullDecimalDisagreement(h: Host)
    ensures CanBeConverted(h, None, Some(DecimalTy)) == Ok(false)
    ensures ReflectionHelper.CanBeImplicitlyConverted(h, None, DecimalTy)
  {
  }
}
