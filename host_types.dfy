/**
  The host type system that the binders consult instead of .NET reflection:
  a small universe of types, the host's table of base types and members, and
  the assignability relation (`Type.IsAssignableFrom`).
*/
module HostTypes {
  import opened Wrappers

  /** The primitive types of the CLR (those whose `Type.IsPrimitive` is true). */
  datatype PrimKind =
    | SByte | Byte | Int16 | UInt16 | Int32 | UInt32 | Int64 | UInt64
    | Char | Single | Double | Boolean

  /** A host type. Named types (structs, classes, interfaces) come from the host. */
  datatype Ty =
    | VoidTy
    | ObjectTy
    | StringTy
    | EnumerableTy          // System.Collections.IEnumerable
    | DecimalTy             // a value type that is not primitive
    | Prim(kind: PrimKind)
    | Struct(name: string)
    | Class(name: string)
    | Interface(name: string)
    | ArrayOf(elem: Ty)

  predicate IsPrimitive(t: Ty) { t.Prim? }

  /** `Type.IsValueType`: primitives, decimal, user structs and System.Void. */
  predicate IsValueType(t: Ty) { t.Prim? || t.DecimalTy? || t.Struct? || t.VoidTy? }

  predicate IsNamed(t: Ty) { t.Struct? || t.Class? || t.Interface? }

  /** A property; an indexer is a property with index parameters (named `Item`). */
  datatype PropertyInfo = PropertyInfo(name: string, ty: Ty, indexParams: seq<Ty>, declaringType: Ty)

  datatype FieldInfo = FieldInfo(name: string, ty: Ty, declaringType: Ty)

  /**
    A public instance method. The parameter list is split into the fixed
    parameters and, when the last parameter carries `ParamArrayAttribute`,
    the element type of that params array.
  */
  datatype MethodInfo = MethodInfo(
    name: string,
    fixedParams: seq<Ty>,
    paramsElem: Option<Ty>,
    returnType: Ty,
    isGeneric: bool,
    declaringType: Ty)

  /** One parameter as reflection reports it; `paramsElem` is set on a params array. */
  datatype ParameterInfo = ParameterInfo(ty: Ty, paramsElem: Option<Ty>)

  /** `MethodInfo.GetParameters()`. */
  function Parameters(m: MethodInfo): (ps: seq<ParameterInfo>)
    ensures |ps| == |m.fixedParams| + (if m.paramsElem.Some? then 1 else 0)
  {
    var fixed := seq(|m.fixedParams|, i requires 0 <= i < |m.fixedParams| => ParameterInfo(m.fixedParams[i], None));
    match m.paramsElem
    case None => fixed
    case Some(e) => fixed + [ParameterInfo(ArrayOf(e), Some(e))]
  }

  /** The fixed parameters carry no params marker; a params array comes last, typed as an array. */
  lemma {:induction false} ParametersShape(m: MethodInfo)
    ensures forall i | 0 <= i < |m.fixedParams| :: Parameters(m)[i] == ParameterInfo(m.fixedParams[i], None)
    ensures m.paramsElem.Some? ==>
      Parameters(m)[|Parameters(m)| - 1] == ParameterInfo(ArrayOf(m.paramsElem.value), m.paramsElem)
  {
  }

  /** The declared parameter types in order, params array included. */
  function ParameterTypes(m: MethodInfo): (ts: seq<Ty>)
    ensures |ts| == |Parameters(m)|
  {
    match m.paramsElem
    case None => m.fixedParams
    case Some(e) => m.fixedParams + [ArrayOf(e)]
  }

  /** `ParameterTypes` lists the type of each parameter `Parameters` reports. */
  lemma {:induction false} ParameterTypesAgree(m: MethodInfo)
    ensures forall i | 0 <= i < |ParameterTypes(m)| :: ParameterTypes(m)[i] == Parameters(m)[i].ty
  {
  }

  /** Public instance members of one host type, in reflection's order. */
  datatype TypeMembers = TypeMembers(
    methods: seq<MethodInfo>,
    properties: seq<PropertyInfo>,
    fields: seq<FieldInfo>)

  /**
    The host's type table: base-class and interface edges from any type (a
    primitive, string or array type may implement interfaces too) to a named
    class or interface, the named types that implement IEnumerable, and the
    members of each type.
  */
  datatype Host = Host(
    bases: set<(Ty, Ty)>,
    enumerables: set<string>,
    members: map<Ty, TypeMembers>)

  function MembersOf(h: Host, t: Ty): TypeMembers {
    if t in h.members then h.members[t] else TypeMembers([], [], [])
  }

  predicate IsReferenceType(t: Ty) { !IsValueType(t) }

  /**
    `to.IsAssignableFrom(from)`: identity, everything to object, IEnumerable
    from strings, arrays and the host's enumerable types, the host's base-type
    and interface edges, and array covariance over reference element types.
  */
  predicate IsAssignableFrom(h: Host, to: Ty, from: Ty)
    decreases from
  {
    || to == from
    || to.ObjectTy?
    || (to.EnumerableTy? && (from.StringTy? || from.ArrayOf? || (IsNamed(from) && from.name in h.enumerables)))
    || ((to.Class? || to.Interface?) && (from, to) in h.bases)
    || (to.ArrayOf? && from.ArrayOf? && IsReferenceType(from.elem) && IsAssignableFrom(h, to.elem, from.elem))
  }

  lemma {:induction false} AssignableReflexive(h: Host, t: Ty)
    ensures IsAssignableFrom(h, t, t)
  {
  }

  /** Nothing but itself is assignable to a value type: no host edge can reach one. */
  lemma {:induction false} AssignableToValueTypeOnlyFromItself(h: Host, to: Ty, from: Ty)
    requires IsValueType(to)
    ensures IsAssignableFrom(h, to, from) <==> to == from
  {
  }

  /**
    The implicit numeric conversions of section 6.1.2 of the C# 5.0 language
    specification: for each source type in the table, the types it widens to.
    Double, Boolean and decimal are not keys of the table.
  */
  function WideningTargets(p: PrimKind): Option<seq<Ty>> {
    match p
    case SByte => Some([Prim(Int16), Prim(Int32), Prim(Int64), Prim(Single), Prim(Double), DecimalTy])
    case Byte => Some([Prim(Int16), Prim(UInt16), Prim(Int32), Prim(UInt32), Prim(Int64), Prim(UInt64), Prim(Single), Prim(Double), DecimalTy])
    case Int16 => Some([Prim(Int32), Prim(Int64), Prim(Single), Prim(Double), DecimalTy])
    case UInt16 => Some([Prim(Int32), Prim(UInt32), Prim(Int64), Prim(UInt64), Prim(Single), Prim(Double), DecimalTy])
    case Int32 => Some([Prim(Int64), Prim(Single), Prim(Double), DecimalTy])
    case UInt32 => Some([Prim(Int64), Prim(UInt64), Prim(Single), Prim(Double), DecimalTy])
    case Int64 => Some([Prim(Single), Prim(Double), DecimalTy])
    case UInt64 => Some([Prim(Single), Prim(Double), DecimalTy])
    case Char => Some([Prim(UInt16), Prim(Int32), Prim(UInt32), Prim(Int64), Prim(UInt64), Prim(Single), Prim(Double), DecimalTy])
    case Single => Some([Prim(Double)])
    case Double => None
    case Boolean => None
  }

  /** `_implicitNumericConversions.TryGetValue(from, ...) && targets.Contains(to)`. */
  predicate InWideningTable(from: Ty, to: Ty) {
    from.Prim? && WideningTargets(from.kind).Some? && to in WideningTargets(from.kind).value
  }

  /** The table never widens to a narrower or equal type: it is irreflexive. */
  lemma {:induction false} WideningIrreflexive(t: Ty)
    ensures !InWideningTable(t, t)
  {
  }

  /** ASCII case folding, the part of OrdinalIgnoreCase comparison this model keeps. */
  function Lower(c: char): char {
    if 'A' <= c <= 'Z' then (c as int + 32) as char else c
  }

  function LowerString(s: string): (r: string)
    ensures |r| == |s|
    ensures forall i | 0 <= i < |s| :: r[i] == Lower(s[i])
  {
    seq(|s|, i requires 0 <= i < |s| => Lower(s[i]))
  }

  /** `string.Equals(a, b, StringComparison.OrdinalIgnoreCase)`. */
  predicate EqualsIgnoreCase(a: string, b: string) {
    LowerString(a) == LowerString(b)
  }

  /**
    `Char.IsWhiteSpace`: the space, the controls U+0009 to U+000D and U+0085,
    and the Unicode space, line and paragraph separators.
  */
  predicate IsWhiteSpace(c: char) {
    || c == ' ' || ('\t' <= c <= '\r') || c == '\U{0085}' || c == '\U{00A0}' || c == '\U{1680}'
    || ('\U{2000}' <= c <= '\U{200A}') || c == '\U{2028}' || c == '\U{2029}' || c == '\U{202F}'
    || c == '\U{205F}' || c == '\U{3000}'
  }

  /** The blanks number parsing skips around a number: the space and U+0009 to U+000D. */
  predicate IsNumberBlank(c: char) {
    c == ' ' || ('\t' <= c <= '\r')
  }

  /** `string.IsNullOrWhiteSpace`, with null as `None`. */
  predicate IsNullOrWhiteSpace(s: Option<string>) {
    s.None? || forall i | 0 <= i < |s.value| :: IsWhiteSpace(s.value[i])
  }

  /** A runtime value: null, an object of some runtime type, or an enumerable sequence. */
  datatype Value =
    | NullValue
    | Obj(runtimeType: Ty, id: int)
    | Items(runtimeType: Ty, elems: seq<Value>)
    | Text(s: string)

  /**
    What enumerating a value yields, when it is enumerable: the items of a
    collection, or the (boxed) characters of a string.
  */
  function Elements(v: Value): (r: Option<seq<Value>>)
    ensures r.Some? <==> v.Items? || v.Text?
  {
    match v
    case Items(_, elems) => Some(elems)
    case Text(s) => Some(seq(|s|, i requires 0 <= i < |s| => Obj(Prim(Char), s[i] as int)))
    case _ => None
  }
}
