/**
  The member-read binder: resolves `$target.Name` to a single public instance
  member of the target's runtime type, matching the name case-insensitively
  and falling back to an exact-case match when several members match.
*/
module GetMemberBinder {
  import opened Wrappers
  import opened HostTypes
  import opened Binding

  /** A public instance member as `Type.GetMember` reports it. */
  datatype MemberInfo =
    | MethodMember(methodInfo: MethodInfo)
    | PropertyMember(property: PropertyInfo)
    | FieldMember(field: FieldInfo)
  {
    function Name(): string {
      match this
      case MethodMember(m) => m.name
      case PropertyMember(p) => p.name
      case FieldMember(f) => f.name
    }

    function DeclaringType(): Ty {
      match this
      case MethodMember(m) => m.declaringType
      case PropertyMember(p) => p.declaringType
      case FieldMember(f) => f.declaringType
    }
  }

  /** The result expression of a member read. */
  datatype ReadResult =
    | Unresolvable                                  // no member of that name
    | Ambiguous                                     // several members even after the exact-case filter
    | MemberRead(member: MemberInfo, receiverType: Ty)  // (object)((receiverType)target).member

  /** Every member of a type, methods first, then properties, then fields. */
  function AllMembers(t: TypeMembers): (r: seq<MemberInfo>)
    ensures |r| == |t.methods| + |t.properties| + |t.fields|
    ensures forall i | 0 <= i < |t.methods| :: r[i] == MethodMember(t.methods[i])
  {
    seq(|t.methods|, i requires 0 <= i < |t.methods| => MethodMember(t.methods[i]))
    + seq(|t.properties|, i requires 0 <= i < |t.properties| => PropertyMember(t.properties[i]))
    + seq(|t.fields|, i requires 0 <= i < |t.fields| => FieldMember(t.fields[i]))
  }

  /** The members whose name equals `name` ignoring case (`BindingFlags.IgnoreCase`). */
  function NamedIgnoringCase(members: seq<MemberInfo>, name: string): (r: seq<MemberInfo>)
    ensures |r| <= |members|
    ensures forall x | x in r :: x in members && EqualsIgnoreCase(x.Name(), name)
    ensures forall x | x in members && EqualsIgnoreCase(x.Name(), name) :: x in r
  {
    if members == [] then []
    else
      var last := members[|members| - 1];
      NamedIgnoringCase(members[..|members| - 1], name) + (if EqualsIgnoreCase(last.Name(), name) then [last] else [])
  }

  /** The members whose name equals `name` exactly. */
  function NamedExactly(members: seq<MemberInfo>, name: string): (r: seq<MemberInfo>)
    ensures |r| <= |members|
    ensures forall x | x in r :: x in members && x.Name() == name
    ensures forall x | x in members && x.Name() == name :: x in r
  {
    if members == [] then []
    else
      var last := members[|members| - 1];
      NamedExactly(members[..|members| - 1], name) + (if last.Name() == name then [last] else [])
  }

  /** The candidate members after the exact-case filter that applies when several match. */
  function Candidates(t: TypeMembers, name: string): seq<MemberInfo> {
    var members := NamedIgnoringCase(AllMembers(t), name);
    if |members| > 1 then NamedExactly(members, name) else members
  }

  /**
    `FallbackGetMember(target)`. A method, or a property that takes index
    arguments, cannot be read as a member access: building that access fails.
  */
  function FallbackGetMember(h: Host, name: string, target: MetaObject): (r: Result<Outcome<ReadResult>>)
    ensures r.Ok? && r.value.Bound? ==> r.value.restriction == TypeIs(target.expression, target.limitType)
    ensures r.Err? ==> r.error.ArgumentError?
  {
    if !target.hasValue then Ok(Defer)
    else
      var members := Candidates(MembersOf(h, target.limitType), name);
      var restriction := TypeIs(target.expression, target.limitType);
      if |members| == 0 then Ok(Bound(Unresolvable, restriction))
      else if |members| > 1 then Ok(Bound(Ambiguous, restriction))
      else
        var member := members[0];
        if member.MethodMember? || (member.PropertyMember? && member.property.indexParams != []) then
          Err(ArgumentError("member must be a field or a property without index parameters"))
        else Ok(Bound(MemberRead(member, member.DeclaringType()), restriction))
  }

  /** A target without a value defers. */
  lemma {:induction false} DefersWithoutValue(h: Host, name: string, target: MetaObject)
    requires !target.hasValue
    ensures FallbackGetMember(h, name, target) == Ok(Defer)
  {
  }

  /** No member of that name, in any case, is unresolvable. */
  lemma {:induction false} NoMatchIsUnresolvable(h: Host, name: string, target: MetaObject)
    requires target.hasValue
    requires forall x | x in AllMembers(MembersOf(h, target.limitType)) :: !EqualsIgnoreCase(x.Name(), name)
    ensures FallbackGetMember(h, name, target) == Ok(Bound(Unresolvable, TypeIs(target.expression, target.limitType)))
  {
  }

  /** A field, or a property without index parameters: what a member access can read. */
  predicate Readable(m: MemberInfo) {
    m.FieldMember? || (m.PropertyMember? && m.property.indexParams == [])
  }

  /**
    A single case-insensitive match is read, whatever its case, when it is a
    field or a property without index parameters; a method or an indexed
    property fails to build the access.
  */
  lemma {:induction false} SingleMatchIsRead(h: Host, name: string, target: MetaObject, m: MemberInfo)
    requires target.hasValue
    requires NamedIgnoringCase(AllMembers(MembersOf(h, target.limitType)), name) == [m]
    ensures Readable(m) ==>
      FallbackGetMember(h, name, target) == Ok(Bound(MemberRead(m, m.DeclaringType()), TypeIs(target.expression, target.limitType)))
    ensures !Readable(m) ==> FallbackGetMember(h, name, target).Err?
  {
  }

  /**
    Among several case-insensitive matches, the exact-case ones decide: one
    is read (or fails when it cannot be read), none is unresolvable, several
    are ambiguous.
  */
  lemma {:induction false} SeveralMatchesNarrowToExactCase(h: Host, name: string, target: MetaObject)
    requires target.hasValue
    requires |NamedIgnoringCase(AllMembers(MembersOf(h, target.limitType)), name)| > 1
    ensures var exact := NamedExactly(NamedIgnoringCase(AllMembers(MembersOf(h, target.limitType)), name), name);
      var r := FallbackGetMember(h, name, target);
      && (exact == [] ==> r == Ok(Bound(Unresolvable, TypeIs(target.expression, target.limitType))))
      && (|exact| > 1 ==> r == Ok(Bound(Ambiguous, TypeIs(target.expression, target.limitType))))
      && (|exact| == 1 && Readable(exact[0]) ==>
            r == Ok(Bound(MemberRead(exact[0], exact[0].DeclaringType()), TypeIs(target.expression, target.limitType))))
      && (|exact| == 1 && !Readable(exact[0]) ==> r.Err?)
  {
  }

  /** A member read always names a member of the target's type whose name matches ignoring case. */
  lemma {:induction false} ReadMemberBelongsToType(h: Host, name: string, target: MetaObject)
    requires FallbackGetMember(h, name, target).Ok?
    requires FallbackGetMember(h, name, target).value.Bound?
    requires FallbackGetMember(h, name, target).value.result.MemberRead?
    ensures var m := FallbackGetMember(h, name, target).value.result.member;
      m in AllMembers(MembersOf(h, target.limitType)) && EqualsIgnoreCase(m.Name(), name)
      && (m.PropertyMember? || m.FieldMember?)
  {
    var members := NamedIgnoringCase(AllMembers(MembersOf(h, target.limitType)), name);
    var c := Candidates(MembersOf(h, target.limitType), name);
    assert c[0] in c;
  }

  /** A method named like the requested member makes the binding fail. */
  lemma {:induction false} MethodMatchFails(h: Host, name: string, target: MetaObject, m: MethodInfo)
    requires target.hasValue
    requires NamedIgnoringCase(AllMembers(MembersOf(h, target.limitType)), name) == [MethodMember(m)]
    ensures FallbackGetMember(h, name, target).Err?
  {
  }
}
