/**
  IronVelocity's overload-resolution helper: the implicit-conversion oracle,
  method applicability, the better-function-member comparison, elimination
  down to a best member, method resolution by name, and the property/field
  lookup behind member reads.
*/
module ReflectionHelper {
  import opened Wrappers
  import opened HostTypes
  import opened Elimination

  // ---------------------------------------------------------------------------
  // Implicit conversions

  /**
    Whether a value of type `from` (None: a null value) may be passed where
    `to` is expected. The target type is never null here; see
    `CanBeImplicitlyConvertedChecked` for the null-target guard.
  */
  function CanBeImplicitlyConverted(h: Host, from: Option<Ty>, to: Ty): (r: bool)
    ensures from == Some(to) ==> r
    ensures r && from.Some? && to.Prim? ==> from.value == to || InWideningTable(from.value, to)
  {
    AssignableReflexive(h, to);
    if from.None? then !IsPrimitive(to)
    else if IsAssignableFrom(h, to, from.value) then true
    else InWideningTable(from.value, to)
  }

  /** The public entry point, which rejects a null target type. */
  function CanBeImplicitlyConvertedChecked(h: Host, from: Option<Ty>, to: Option<Ty>): (r: Result<bool>)
    ensures r.Err? <==> to.None?
    ensures r.Err? ==> r.error == ArgumentNull("to")
    ensures r.Ok? && from.None? ==> (r.value <==> !IsPrimitive(to.value))
    ensures r.Ok? && from.Some? && from.value == to.value ==> r.value
  {
    if to.None? then Err(ArgumentNull("to")) else Ok(CanBeImplicitlyConverted(h, from, to.value))
  }

  /** A null source converts to every non-primitive target and to no primitive one. */
  lemma {:induction false} NullConvertsExactlyToNonPrimitives(h: Host, to: Ty)
    ensures CanBeImplicitlyConverted(h, None, to) <==> !to.Prim?
  {
  }

  /** Conversion is reflexive and includes every assignable pair. */
  lemma {:induction false} AssignableIsConvertible(h: Host, from: Ty, to: Ty)
    requires IsAssignableFrom(h, to, from)
    ensures CanBeImplicitlyConverted(h, Some(from), to)
    ensures CanBeImplicitlyConverted(h, Some(to), to)
  {
  }

  /** Outside assignability, a conversion exists exactly for the pairs of the widening table. */
  lemma {:induction false} ConversionOutsideAssignabilityIsTheTable(h: Host, from: Ty, to: Ty)
    requires !IsAssignableFrom(h, to, from)
    ensures CanBeImplicitlyConverted(h, Some(from), to) <==> InWideningTable(from, to)
  {
  }

  /** A primitive target is reached only from itself or through the widening table. */
  lemma {:induction false} PrimitiveTargetConversions(h: Host, from: Ty, k: PrimKind)
    ensures CanBeImplicitlyConverted(h, Some(from), Prim(k)) <==> from == Prim(k) || InWideningTable(from, Prim(k))
  {
  }

  /** int widens to long, but long does not narrow to int. */
  lemma {:induction false} IntWidensToLongOnly(h: Host)
    ensures CanBeImplicitlyConverted(h, Some(Prim(Int32)), Prim(Int64))
    ensures !CanBeImplicitlyConverted(h, Some(Prim(Int64)), Prim(Int32))
  {
  }

  /**
    Any type, a primitive, string or array type included, converts to an
    interface exactly when the host lists that interface for it: `int`
    passes as `IComparable` once the host says `int` implements it.
  */
  lemma {:induction false} InterfaceTargetIsHostEdge(h: Host, from: Ty, n: string)
    requires from != Interface(n)
    ensures CanBeImplicitlyConverted(h, Some(from), Interface(n)) <==> (from, Interface(n)) in h.bases
  {
  }

  // ---------------------------------------------------------------------------
  // Applicability

  /** `IsParamsArrayArgument`: the parameter exists and carries ParamArrayAttribute. */
  predicate IsParamsArrayArgument(p: Option<ParameterInfo>) {
    p.Some? && p.value.paramsElem.Some?
  }

  /** An argument fits a parameter directly, or fits the element type of a params array. */
  predicate IsArgumentCompatible(h: Host, runtimeType: Option<Ty>, p: ParameterInfo) {
    || CanBeImplicitlyConverted(h, runtimeType, p.ty)
    || (p.paramsElem.Some? && CanBeImplicitlyConverted(h, runtimeType, p.paramsElem.value))
  }

  /** The parameter an argument at position `i` is checked against. */
  function ParameterFor(m: MethodInfo, i: nat): ParameterInfo
    requires i < |Parameters(m)| || m.paramsElem.Some?
  {
    var ps := Parameters(m);
    if i < |ps| then ps[i] else ps[|ps| - 1]
  }

  /**
    Applicability as the resolver decides it: generic methods never apply;
    without a params array the counts agree; with one there are at least as
    many arguments as fixed parameters; every argument fits its parameter,
    extra ones the params array.
  */
  predicate Applicable(h: Host, m: MethodInfo, argTypes: seq<Option<Ty>>) {
    var ps := Parameters(m);
    && !m.isGeneric
    && (if m.paramsElem.None? then |argTypes| == |ps| else |argTypes| >= |ps| - 1)
    && forall i | 0 <= i < |argTypes| :: IsArgumentCompatible(h, argTypes[i], ParameterFor(m, i))
  }

  method IsMethodApplicable(h: Host, m: MethodInfo, argTypes: seq<Option<Ty>>) returns (ok: bool)
    ensures ok == Applicable(h, m, argTypes)
  {
    if m.isGeneric {
      return false;
    }
    var args := Parameters(m);
    ParametersShape(m);
    var lastArg: Option<ParameterInfo> := if |args| > 0 then Some(args[|args| - 1]) else None;
    var paramsArrayInfo: Option<ParameterInfo> := None;
    if lastArg.Some? && IsParamsArrayArgument(lastArg) {
      paramsArrayInfo := lastArg;
    }
    assert paramsArrayInfo.Some? <==> m.paramsElem.Some?;

    if paramsArrayInfo.None? && |args| != |argTypes| {
      return false;
    } else if |argTypes| < |args| - 1 {
      return false;
    }

    var i := 0;
    while i < |argTypes|
      invariant 0 <= i <= |argTypes|
      invariant forall j | 0 <= j < i :: IsArgumentCompatible(h, argTypes[j], ParameterFor(m, j))
    {
      var paramToValidateAgainst := if i >= |args| then paramsArrayInfo.value else args[i];
      assert paramToValidateAgainst == ParameterFor(m, i);
      if !IsArgumentCompatible(h, argTypes[i], paramToValidateAgainst) {
        return false;
      }
      i := i + 1;
    }
    return true;
  }

  /** Generic method definitions are never applicable. */
  lemma {:induction false} GenericNeverApplicable(h: Host, m: MethodInfo, argTypes: seq<Option<Ty>>)
    requires m.isGeneric
    ensures !Applicable(h, m, argTypes)
  {
  }

  /** The argument count an applicable method admits. */
  lemma {:induction false} ApplicableArity(h: Host, m: MethodInfo, argTypes: seq<Option<Ty>>)
    requires Applicable(h, m, argTypes)
    ensures m.paramsElem.None? ==> |argTypes| == |m.fixedParams|
    ensures m.paramsElem.Some? ==> |argTypes| >= |m.fixedParams|
  {
  }

  /**
    Each argument past the last parameter converts to the params element
    type, or to the params array type itself (the code accepts both).
  */
  lemma {:induction false} ExtraArgumentsFitParamsArray(h: Host, m: MethodInfo, argTypes: seq<Option<Ty>>, i: nat)
    requires Applicable(h, m, argTypes)
    requires |Parameters(m)| <= i < |argTypes|
    ensures m.paramsElem.Some?
    ensures CanBeImplicitlyConverted(h, argTypes[i], m.paramsElem.value)
         || CanBeImplicitlyConverted(h, argTypes[i], ArrayOf(m.paramsElem.value))
  {
  }

  /** An argument that fits only the array type is accepted in an extra position. */
  lemma {:induction false} ExtraArrayArgumentAccepted(h: Host)
    ensures Applicable(h, MethodInfo("f", [], Some(Prim(Int32)), VoidTy, false, Class("T")),
                       [Some(ArrayOf(Prim(Int32))), Some(ArrayOf(Prim(Int32)))])
    ensures !CanBeImplicitlyConverted(h, Some(ArrayOf(Prim(Int32))), Prim(Int32))
  {
    var m := MethodInfo("f", [], Some(Prim(Int32)), VoidTy, false, Class("T"));
    var args := [Some(ArrayOf(Prim(Int32))), Some(ArrayOf(Prim(Int32)))];
    assert ParameterFor(m, 0) == ParameterInfo(ArrayOf(Prim(Int32)), Some(Prim(Int32)));
    assert ParameterFor(m, 1) == ParameterInfo(ArrayOf(Prim(Int32)), Some(Prim(Int32)));
    assert forall i | 0 <= i < 2 :: IsArgumentCompatible(h, args[i], ParameterFor(m, i));
  }

  // ---------------------------------------------------------------------------
  // Better function member

  /**
    Whether, scanning the positions of two equally long parameter lists, some
    position holds different types and `a`'s type converts to `b`'s.
  */
  predicate MoreSpecificSomewhere(h: Host, a: seq<Ty>, b: seq<Ty>)
    requires |a| == |b|
  {
    a != [] &&
      var n := |a| - 1;
      (MoreSpecificSomewhere(h, a[..n], b[..n]) || (a[n] != b[n] && CanBeImplicitlyConverted(h, Some(a[n]), b[n])))
  }

  lemma {:induction false} MoreSpecificSomewhereStep(h: Host, a: seq<Ty>, b: seq<Ty>, i: nat)
    requires |a| == |b| && i < |a|
    ensures MoreSpecificSomewhere(h, a[..i + 1], b[..i + 1])
         == (MoreSpecificSomewhere(h, a[..i], b[..i]) || (a[i] != b[i] && CanBeImplicitlyConverted(h, Some(a[i]), b[i])))
  {
    assert a[..i + 1][..i] == a[..i] && b[..i + 1][..i] == b[..i];
  }

  /** The scan finds a position exactly when one exists. */
  lemma {:induction false} MoreSpecificSomewhereIff(h: Host, a: seq<Ty>, b: seq<Ty>)
    requires |a| == |b|
    ensures MoreSpecificSomewhere(h, a, b)
        <==> exists i | 0 <= i < |a| :: a[i] != b[i] && CanBeImplicitlyConverted(h, Some(a[i]), b[i])
  {
    if a != [] {
      var n := |a| - 1;
      MoreSpecificSomewhereIff(h, a[..n], b[..n]);
      if exists i | 0 <= i < |a| :: a[i] != b[i] && CanBeImplicitlyConverted(h, Some(a[i]), b[i]) {
        var i :| 0 <= i < |a| && a[i] != b[i] && CanBeImplicitlyConverted(h, Some(a[i]), b[i]);
        if i < n {
          assert a[..n][i] == a[i] && b[..n][i] == b[i];
        }
      }
    }
  }

  /**
    The comparison of two candidates: more parameters is better; with equal
    arity a side is better when some differing position converts its way and
    none converts the other way.
  */
  function Compare(h: Host, left: MethodInfo, right: MethodInfo): (c: Specificity)
    ensures |ParameterTypes(left)| > |ParameterTypes(right)| ==> c == Better
    ensures c == Incomparable ==> |ParameterTypes(left)| == |ParameterTypes(right)|
  {
    var l := ParameterTypes(left);
    var r := ParameterTypes(right);
    if |l| > |r| then Better
    else if |r| > |l| then Worse
    else
      var lm := MoreSpecificSomewhere(h, l, r);
      var rm := MoreSpecificSomewhere(h, r, l);
      if lm == rm then Incomparable else if lm then Better else Worse
  }

  method IsBetterFunctionMember(h: Host, left: MethodInfo, right: MethodInfo) returns (c: Specificity)
    ensures c == Compare(h, left, right)
  {
    var leftArgs := ParameterTypes(left);
    var rightArgs := ParameterTypes(right);

    if |leftArgs| > |rightArgs| {
      return Better;
    } else if |rightArgs| > |leftArgs| {
      return Worse;
    }

    var leftMoreSpecific := false;
    var rightMoreSpecific := false;
    for i := 0 to |leftArgs|
      invariant leftMoreSpecific == MoreSpecificSomewhere(h, leftArgs[..i], rightArgs[..i])
      invariant rightMoreSpecific == MoreSpecificSomewhere(h, rightArgs[..i], leftArgs[..i])
    {
      MoreSpecificSomewhereStep(h, leftArgs, rightArgs, i);
      MoreSpecificSomewhereStep(h, rightArgs, leftArgs, i);
      var leftType := leftArgs[i];
      var rightType := rightArgs[i];
      if leftType != rightType {
        leftMoreSpecific := leftMoreSpecific || CanBeImplicitlyConverted(h, Some(leftType), rightType);
        rightMoreSpecific := rightMoreSpecific || CanBeImplicitlyConverted(h, Some(rightType), leftType);
      }
    }

    assert leftArgs[..|leftArgs|] == leftArgs && rightArgs[..|rightArgs|] == rightArgs;
    if leftMoreSpecific == rightMoreSpecific {
      c := Incomparable;
    } else if leftMoreSpecific {
      c := Better;
    } else {
      c := Worse;
    }
  }

  /** More parameters always wins, fewer always loses. */
  lemma {:induction false} MoreParametersIsBetter(h: Host, left: MethodInfo, right: MethodInfo)
    requires |ParameterTypes(left)| > |ParameterTypes(right)|
    ensures Compare(h, left, right) == Better && Compare(h, right, left) == Worse
  {
  }

  /** The comparison is antisymmetric: Better one way is exactly Worse the other way. */
  lemma {:induction false} BetterIffReverseWorse(h: Host, left: MethodInfo, right: MethodInfo)
    ensures Compare(h, left, right) == Better <==> Compare(h, right, left) == Worse
    ensures Compare(h, left, right) == Incomparable <==> Compare(h, right, left) == Incomparable
  {
  }

  /**
    With equal arity, a candidate is better exactly when some differing
    position converts its way and no differing position converts back.
  */
  lemma {:induction false} EqualArityComparison(h: Host, left: MethodInfo, right: MethodInfo)
    requires |ParameterTypes(left)| == |ParameterTypes(right)|
    ensures var l, r := ParameterTypes(left), ParameterTypes(right);
      (Compare(h, left, right) == Better) <==>
        && (exists i | 0 <= i < |l| :: l[i] != r[i] && CanBeImplicitlyConverted(h, Some(l[i]), r[i]))
        && !(exists i | 0 <= i < |l| :: r[i] != l[i] && CanBeImplicitlyConverted(h, Some(r[i]), l[i]))
  {
    MoreSpecificSomewhereIff(h, ParameterTypes(left), ParameterTypes(right));
    MoreSpecificSomewhereIff(h, ParameterTypes(right), ParameterTypes(left));
  }

  /** Identical positions are ignored, so identical parameter lists are incomparable. */
  lemma {:induction false} IdenticalParametersIncomparable(h: Host, left: MethodInfo, right: MethodInfo)
    requires ParameterTypes(left) == ParameterTypes(right)
    ensures Compare(h, left, right) == Incomparable
  {
  }

  /** Two candidates that differ only at positions identical in type never beat one another. */
  lemma {:induction false} NoMemberBeatsItself(h: Host, m: MethodInfo)
    ensures Compare(h, m, m) == Incomparable
  {
  }

  // ---------------------------------------------------------------------------
  // Elimination to the best function member

  /** `Compare` on a fixed host, as a comparison of candidates. */
  function CompareOn(h: Host): Comparer<MethodInfo> {
    (a: MethodInfo, b: MethodInfo) => Compare(h, a, b)
  }

  /** The best member, or an ambiguity when elimination leaves more (or fewer) than one. */
  function BestFunctionMember(h: Host, candidates: seq<MethodInfo>): Result<MethodInfo> {
    var s := Survivors(CompareOn(h), candidates);
    if |s| == 1 then Ok(s[0]) else Err(AmbiguousMatch)
  }

  method GetBestFunctionMember(h: Host, applicableFunctionMembers: seq<MethodInfo>) returns (r: Result<MethodInfo>)
    ensures r == BestFunctionMember(h, applicableFunctionMembers)
  {
    var cmp := CompareOn(h);
    var best: seq<MethodInfo> := [];
    for n := 0 to |applicableFunctionMembers|
      invariant best == Survivors(cmp, applicableFunctionMembers[..n])
    {
      var candidate := applicableFunctionMembers[n];
      var kept, lessSpecific := EliminateBeaten(cmp, best, candidate);
      assert applicableFunctionMembers[..n + 1][..n] == applicableFunctionMembers[..n];
      assert EliminationStep(cmp, best, candidate) == Survivors(cmp, applicableFunctionMembers[..n + 1]);
      best := kept;
      if !lessSpecific {
        best := best + [candidate];
      }
    }
    assert applicableFunctionMembers[..|applicableFunctionMembers|] == applicableFunctionMembers;
    if |best| == 1 {
      r := Ok(best[0]);
    } else {
      r := Err(AmbiguousMatch);
    }
  }

  /** `Compare` mirrors Better and Worse, so `SurvivorsNonEmpty` applies to it. */
  lemma {:induction false} CompareOnMirrors(h: Host)
    ensures forall a, b :: CompareOn(h)(a, b) == Worse ==> CompareOn(h)(b, a) == Better
  {
    forall a, b ensures CompareOn(h)(a, b) == Worse ==> CompareOn(h)(b, a) == Better {
      BetterIffReverseWorse(h, b, a);
    }
  }

  /** With `Compare`, a candidate better than every other one is the best function member. */
  lemma {:induction false} DominantCandidateWins(h: Host, candidates: seq<MethodInfo>, j: nat)
    requires j < |candidates|
    requires forall k | 0 <= k < |candidates| && k != j :: Compare(h, candidates[j], candidates[k]) == Better
    ensures BestFunctionMember(h, candidates) == Ok(candidates[j])
  {
    forall k | 0 <= k < |candidates| && k != j
      ensures CompareOn(h)(candidates[j], candidates[k]) == Better && CompareOn(h)(candidates[k], candidates[j]) == Worse
    {
      BetterIffReverseWorse(h, candidates[j], candidates[k]);
    }
    DominantCandidateSurvives(CompareOn(h), candidates, j);
  }

  // ---------------------------------------------------------------------------
  // Method resolution

  /** The methods whose name matches case-insensitively and that apply to the arguments, in order. */
  function ApplicableCandidates(h: Host, methods: seq<MethodInfo>, name: string, argTypes: seq<Option<Ty>>): (r: seq<MethodInfo>)
    ensures |r| <= |methods|
  {
    if methods == [] then []
    else
      var last := methods[|methods| - 1];
      ApplicableCandidates(h, methods[..|methods| - 1], name, argTypes)
        + (if EqualsIgnoreCase(last.name, name) && Applicable(h, last, argTypes) then [last] else [])
  }

  /** The candidates are exactly the methods of that name that apply. */
  lemma {:induction false} ApplicableCandidatesMembers(h: Host, methods: seq<MethodInfo>, name: string, argTypes: seq<Option<Ty>>)
    ensures forall x | x in ApplicableCandidates(h, methods, name, argTypes) ::
      x in methods && EqualsIgnoreCase(x.name, name) && Applicable(h, x, argTypes)
    ensures forall x | x in methods && EqualsIgnoreCase(x.name, name) && Applicable(h, x, argTypes) ::
      x in ApplicableCandidates(h, methods, name, argTypes)
  {
    if methods != [] {
      var init := methods[..|methods| - 1];
      ApplicableCandidatesMembers(h, init, name, argTypes);
      assert methods == init + [methods[|methods| - 1]];
    }
  }

  lemma {:induction false} ApplicableCandidatesStep(h: Host, methods: seq<MethodInfo>, name: string, argTypes: seq<Option<Ty>>, i: nat)
    requires i < |methods|
    ensures var m := methods[i];
      ApplicableCandidates(h, methods[..i + 1], name, argTypes)
        == ApplicableCandidates(h, methods[..i], name, argTypes)
           + (if EqualsIgnoreCase(m.name, name) && Applicable(h, m, argTypes) then [m] else [])
  {
    assert methods[..i + 1][..i] == methods[..i];
  }

  /** What `ResolveMethod` returns: no method (None), a method, or an ambiguity. */
  function Resolution(h: Host, t: Ty, name: string, argTypes: seq<Option<Ty>>): (r: Result<Option<MethodInfo>>)
    ensures r.Err? ==> r.error == AmbiguousMatch && |ApplicableCandidates(h, MembersOf(h, t).methods, name, argTypes)| > 1
    ensures |ApplicableCandidates(h, MembersOf(h, t).methods, name, argTypes)| == 1 ==>
              r == Ok(Some(ApplicableCandidates(h, MembersOf(h, t).methods, name, argTypes)[0]))
  {
    var candidates := ApplicableCandidates(h, MembersOf(h, t).methods, name, argTypes);
    if |candidates| == 1 then Ok(Some(candidates[0]))
    else if candidates == [] then Ok(None)
    else
      match BestFunctionMember(h, candidates)
      case Ok(m) => Ok(Some(m))
      case Err(e) => Err(e)
  }

  method ResolveMethod(h: Host, t: Ty, name: string, argTypes: seq<Option<Ty>>) returns (r: Result<Option<MethodInfo>>)
    ensures r == Resolution(h, t, name, argTypes)
  {
    var methods := MembersOf(h, t).methods;
    var candidates: seq<MethodInfo> := [];
    for i := 0 to |methods|
      invariant candidates == ApplicableCandidates(h, methods[..i], name, argTypes)
    {
      var m := methods[i];
      ApplicableCandidatesStep(h, methods, name, argTypes, i);
      if EqualsIgnoreCase(m.name, name) {
        var ok := IsMethodApplicable(h, m, argTypes);
        if ok {
          candidates := candidates + [m];
        } else {
          assert candidates + [] == candidates;
        }
      } else {
        assert candidates + [] == candidates;
      }
    }
    assert methods[..|methods|] == methods;

    if |candidates| == 1 {
      return Ok(Some(candidates[0]));
    }
    if candidates == [] {
      return Ok(None);
    }
    var best := GetBestFunctionMember(h, candidates);
    match best
    case Ok(m) => r := Ok(Some(m));
    case Err(e) => r := Err(e);
  }

  /** Resolution yields no method exactly when no method of that name is applicable. */
  lemma {:induction false} ResolutionNoneIffNothingApplicable(h: Host, t: Ty, name: string, argTypes: seq<Option<Ty>>)
    ensures Resolution(h, t, name, argTypes) == Ok(None)
        <==> forall m | m in MembersOf(h, t).methods :: !(EqualsIgnoreCase(m.name, name) && Applicable(h, m, argTypes))
  {
    var candidates := ApplicableCandidates(h, MembersOf(h, t).methods, name, argTypes);
    ApplicableCandidatesMembers(h, MembersOf(h, t).methods, name, argTypes);
    if candidates != [] {
      assert candidates[0] in candidates;
      if |candidates| > 1 {
        CompareOnMirrors(h);
        SurvivorsNonEmpty(CompareOn(h), candidates);
      }
    }
  }

  /** A resolved method is a method of the type, matching the name and applicable to the arguments. */
  lemma {:induction false} ResolvedMethodIsApplicable(h: Host, t: Ty, name: string, argTypes: seq<Option<Ty>>)
    requires Resolution(h, t, name, argTypes).Ok? && Resolution(h, t, name, argTypes).value.Some?
    ensures var m := Resolution(h, t, name, argTypes).value.value;
      m in MembersOf(h, t).methods && EqualsIgnoreCase(m.name, name) && Applicable(h, m, argTypes)
  {
    var candidates := ApplicableCandidates(h, MembersOf(h, t).methods, name, argTypes);
    ApplicableCandidatesMembers(h, MembersOf(h, t).methods, name, argTypes);
    if |candidates| != 1 {
      SurvivorsAreCandidates(CompareOn(h), candidates);
      assert Survivors(CompareOn(h), candidates)[0] in Survivors(CompareOn(h), candidates);
    } else {
      assert candidates[0] in candidates;
    }
  }

  /** Several applicable candidates are resolved through elimination, or reported ambiguous. */
  lemma {:induction false} ResolutionOfSeveralCandidates(h: Host, t: Ty, name: string, argTypes: seq<Option<Ty>>)
    requires |ApplicableCandidates(h, MembersOf(h, t).methods, name, argTypes)| >= 2
    ensures var s := Survivors(CompareOn(h), ApplicableCandidates(h, MembersOf(h, t).methods, name, argTypes));
      && (|s| == 1 ==> Resolution(h, t, name, argTypes) == Ok(Some(s[0])))
      && (|s| != 1 ==> Resolution(h, t, name, argTypes) == Err(AmbiguousMatch))
  {
  }

  // ---------------------------------------------------------------------------
  // Worked overload-resolution cases

  function Method(fixedParams: seq<Ty>, paramsElem: Option<Ty>): MethodInfo {
    MethodInfo("f", fixedParams, paramsElem, VoidTy, false, Class("T"))
  }

  const Guid: Ty := Struct("Guid")

  /** string is more specific than object, and int than long, on every host. */
  lemma {:induction false} NarrowerParameterIsBetter(h: Host)
    ensures Compare(h, Method([StringTy], None), Method([ObjectTy], None)) == Better
    ensures Compare(h, Method([Prim(Int32)], None), Method([Prim(Int64)], None)) == Better
  {
    var s, o := [StringTy], [ObjectTy];
    assert MoreSpecificSomewhere(h, s, o) by { assert s[..0] == [] && o[..0] == []; }
    assert !MoreSpecificSomewhere(h, o, s) by { assert s[..0] == [] && o[..0] == []; }
    var i, l := [Prim(Int32)], [Prim(Int64)];
    assert MoreSpecificSomewhere(h, i, l) by { assert i[..0] == [] && l[..0] == []; }
    assert !MoreSpecificSomewhere(h, l, i) by { assert i[..0] == [] && l[..0] == []; }
  }

  /** `f(Guid, Guid)` beats `f(object, Guid)` and `f(params Guid[])`. */
  lemma {:induction false} GuidOverloadsCompared(h: Host)
    ensures Compare(h, Method([Guid, Guid], None), Method([ObjectTy, Guid], None)) == Better
    ensures Compare(h, Method([Guid, Guid], None), Method([], Some(Guid))) == Better
  {
    var g, o := [Guid, Guid], [ObjectTy, Guid];
    MoreSpecificSomewhereIff(h, g, o);
    MoreSpecificSomewhereIff(h, o, g);
    assert g[0] != o[0] && CanBeImplicitlyConverted(h, Some(g[0]), o[0]);
  }

  /** `f(object, string)` and `f(string, object)` are incomparable in both orders. */
  lemma {:induction false} CrossedOverloadsIncomparable(h: Host)
    ensures Compare(h, Method([ObjectTy, StringTy], None), Method([StringTy, ObjectTy], None)) == Incomparable
    ensures Compare(h, Method([StringTy, ObjectTy], None), Method([ObjectTy, StringTy], None)) == Incomparable
  {
    var a, b := [ObjectTy, StringTy], [StringTy, ObjectTy];
    MoreSpecificSomewhereIff(h, a, b);
    MoreSpecificSomewhereIff(h, b, a);
    assert a[1] != b[1] && CanBeImplicitlyConverted(h, Some(a[1]), b[1]);
    assert b[0] != a[0] && CanBeImplicitlyConverted(h, Some(b[0]), a[0]);
  }

  function HostWith(methods: seq<MethodInfo>): Host {
    Host({}, {}, map[Class("T") := TypeMembers(methods, [], [])])
  }

  /** Called with `(Guid, Guid)`, `f(Guid, Guid)` is chosen over `f(object, Guid)`. */
  lemma {:induction false} GuidCallResolvesToExactMatch()
    ensures var a, b := Method([Guid, Guid], None), Method([ObjectTy, Guid], None);
      Resolution(HostWith([a, b]), Class("T"), "f", [Some(Guid), Some(Guid)]) == Ok(Some(a))
  {
    var a, b := Method([Guid, Guid], None), Method([ObjectTy, Guid], None);
    var h := HostWith([a, b]);
    var args := [Some(Guid), Some(Guid)];
    assert Applicable(h, a, args) by {
      assert forall i | 0 <= i < 2 :: ParameterFor(a, i) == ParameterInfo(Guid, None);
    }
    assert Applicable(h, b, args) by {
      assert ParameterFor(b, 0) == ParameterInfo(ObjectTy, None);
      assert ParameterFor(b, 1) == ParameterInfo(Guid, None);
    }
    var methods := [a, b];
    assert methods[..1][..0] == [] && methods[..2][..1] == methods[..1] && methods[..2] == methods;
    assert ApplicableCandidates(h, methods, "f", args) == [a, b];
    GuidOverloadsCompared(h);
    BetterIffReverseWorse(h, a, b);
    DominantCandidateWins(h, [a, b], 0);
  }

  /**
    Called with `(string, string)`, `f(object, string)` and `f(string, object)`
    both apply and neither is better: the call is ambiguous.
  */
  lemma {:induction false} CrossedCallIsAmbiguous()
    ensures var a, b := Method([ObjectTy, StringTy], None), Method([StringTy, ObjectTy], None);
      Resolution(HostWith([a, b]), Class("T"), "f", [Some(StringTy), Some(StringTy)]) == Err(AmbiguousMatch)
  {
    var a, b := Method([ObjectTy, StringTy], None), Method([StringTy, ObjectTy], None);
    var h := HostWith([a, b]);
    var args := [Some(StringTy), Some(StringTy)];
    assert Applicable(h, a, args) by {
      assert ParameterFor(a, 0) == ParameterInfo(ObjectTy, None);
      assert ParameterFor(a, 1) == ParameterInfo(StringTy, None);
    }
    assert Applicable(h, b, args) by {
      assert ParameterFor(b, 0) == ParameterInfo(StringTy, None);
      assert ParameterFor(b, 1) == ParameterInfo(ObjectTy, None);
    }
    var methods := [a, b];
    assert methods[..1][..0] == [] && methods[..2][..1] == methods[..1] && methods[..2] == methods;
    assert ApplicableCandidates(h, methods, "f", args) == [a, b];
    CrossedOverloadsNoBest(h);
  }

  /** Between `f(object, string)` and `f(string, object)` no member is best. */
  lemma {:induction false} CrossedOverloadsNoBest(h: Host)
    ensures var a, b := Method([ObjectTy, StringTy], None), Method([StringTy, ObjectTy], None);
      BestFunctionMember(h, [a, b]) == Err(AmbiguousMatch)
  {
    var a, b := Method([ObjectTy, StringTy], None), Method([StringTy, ObjectTy], None);
    CrossedOverloadsIncomparable(h);
    var cmp := CompareOn(h);
    assert [a, b][..1] == [a] && [a][..0] == [];
    assert Survivors(cmp, [a]) == [a];
    assert Survivors(cmp, [a, b]) == EliminationStep(cmp, [a], b);
    assert NotBeatenBy(cmp, [a], b) == [a];
    assert !BeatenBySome(cmp, [a], b);
  }

  /**
    Called with `(string, object)`, only `f(string, object)` applies (an
    object argument does not convert to string), so it is chosen.
  */
  lemma {:induction false} CrossedCallWithObjectResolves()
    ensures var a, b := Method([ObjectTy, StringTy], None), Method([StringTy, ObjectTy], None);
      Resolution(HostWith([a, b]), Class("T"), "f", [Some(StringTy), Some(ObjectTy)]) == Ok(Some(b))
  {
    var a, b := Method([ObjectTy, StringTy], None), Method([StringTy, ObjectTy], None);
    var h := HostWith([a, b]);
    var args := [Some(StringTy), Some(ObjectTy)];
    assert !Applicable(h, a, args) by {
      assert ParameterFor(a, 1) == ParameterInfo(StringTy, None);
      assert !IsArgumentCompatible(h, args[1], ParameterFor(a, 1));
    }
    assert Applicable(h, b, args) by {
      assert ParameterFor(b, 0) == ParameterInfo(StringTy, None);
      assert ParameterFor(b, 1) == ParameterInfo(ObjectTy, None);
    }
    var methods := [a, b];
    assert methods[..1][..0] == [] && methods[..2][..1] == methods[..1] && methods[..2] == methods;
    assert ApplicableCandidates(h, methods, "f", args) == [b];
  }

  // ---------------------------------------------------------------------------
  // Property and field lookup for member reads

  predicate NameMatches(declared: string, requested: string, caseSensitive: bool) {
    if caseSensitive then declared == requested else EqualsIgnoreCase(declared, requested)
  }

  function MatchingProperties(props: seq<PropertyInfo>, name: string, caseSensitive: bool): (r: seq<PropertyInfo>)
    ensures forall p | p in r :: p in props && NameMatches(p.name, name, caseSensitive)
    ensures forall p | p in props && NameMatches(p.name, name, caseSensitive) :: p in r
  {
    if props == [] then []
    else
      var last := props[|props| - 1];
      MatchingProperties(props[..|props| - 1], name, caseSensitive)
        + (if NameMatches(last.name, name, caseSensitive) then [last] else [])
  }

  function MatchingFields(fields: seq<FieldInfo>, name: string, caseSensitive: bool): (r: seq<FieldInfo>)
    ensures forall f | f in r :: f in fields && NameMatches(f.name, name, caseSensitive)
    ensures forall f | f in fields && NameMatches(f.name, name, caseSensitive) :: f in r
  {
    if fields == [] then []
    else
      var last := fields[|fields| - 1];
      MatchingFields(fields[..|fields| - 1], name, caseSensitive)
        + (if NameMatches(last.name, name, caseSensitive) then [last] else [])
  }

  /** `Type.GetProperty(name, flags)`: the single match, none, or an ambiguity. */
  function GetProperty(t: TypeMembers, name: string, caseSensitive: bool): Result<Option<PropertyInfo>> {
    var ms := MatchingProperties(t.properties, name, caseSensitive);
    if ms == [] then Ok(None) else if |ms| == 1 then Ok(Some(ms[0])) else Err(AmbiguousMatch)
  }

  /** `Type.GetField(name, flags)`: the single match, none, or an ambiguity. */
  function GetField(t: TypeMembers, name: string, caseSensitive: bool): Result<Option<FieldInfo>> {
    var ms := MatchingFields(t.fields, name, caseSensitive);
    if ms == [] then Ok(None) else if |ms| == 1 then Ok(Some(ms[0])) else Err(AmbiguousMatch)
  }

  datatype DataMember = PropertyMember(property: PropertyInfo) | FieldMember(field: FieldInfo)

  /**
    `GetMember`: a case-sensitive property wins outright; otherwise a property
    and a field of the same name are ambiguous, and either one alone is the member.
  */
  function GetMember(t: TypeMembers, name: string, caseSensitive: bool): (r: Result<Option<DataMember>>)
    ensures caseSensitive && GetProperty(t, name, true).Ok? && GetProperty(t, name, true).value.Some?
            ==> r == Ok(Some(PropertyMember(GetProperty(t, name, true).value.value)))
    ensures GetProperty(t, name, caseSensitive).Ok? && GetProperty(t, name, caseSensitive).value.None?
            && GetField(t, name, caseSensitive).Ok?
            ==> r == Ok(if GetField(t, name, caseSensitive).value.Some?
                        then Some(FieldMember(GetField(t, name, caseSensitive).value.value)) else None)
  {
    match GetProperty(t, name, caseSensitive)
    case Err(e) => Err(e)
    case Ok(property) =>
      if caseSensitive && property.Some? then Ok(Some(PropertyMember(property.value)))
      else
        match GetField(t, name, caseSensitive)
        case Err(e) => Err(e)
        case Ok(field) =>
          if property.Some? && field.Some? then Err(AmbiguousMatch)
          else if property.Some? then Ok(Some(PropertyMember(property.value)))
          else if field.Some? then Ok(Some(FieldMember(field.value)))
          else Ok(None)
  }

  /** How a member read is compiled: a property, a field, the string indexer, or nothing. */
  datatype MemberAccess =
    | PropertyAccess(property: PropertyInfo)
    | FieldAccess(field: FieldInfo)
    | IndexerAccess(indexer: PropertyInfo, key: string)
    | NoAccess

  /** An `Item` indexer with one index parameter to which a string can be passed. */
  predicate TakesString(h: Host, p: PropertyInfo) {
    p.name == "Item" && |p.indexParams| == 1 && IsAssignableFrom(h, p.indexParams[0], StringTy)
  }

  /** The first `Item` indexer whose one index parameter a string can be passed to. */
  function FirstTakingString(h: Host, props: seq<PropertyInfo>): (r: Option<PropertyInfo>)
    ensures r.Some? ==> r.value in props && TakesString(h, r.value)
    ensures r.None? ==> forall p | p in props :: !TakesString(h, p)
  {
    if props == [] then None
    else if TakesString(h, props[0]) then Some(props[0])
    else
      var rest := FirstTakingString(h, props[1..]);
      assert forall p | p in props :: p == props[0] || p in props[1..];
      rest
  }

  /** The `Item` indexer taking exactly a string, if the type declares one. */
  function ExactStringIndexer(props: seq<PropertyInfo>): (r: Option<PropertyInfo>)
    ensures r.Some? ==> r.value in props && r.value.name == "Item" && r.value.indexParams == [StringTy]
    ensures r.None? ==> forall p | p in props :: !(p.name == "Item" && p.indexParams == [StringTy])
  {
    if props == [] then None
    else if props[0].name == "Item" && props[0].indexParams == [StringTy] then Some(props[0])
    else
      var rest := ExactStringIndexer(props[1..]);
      assert forall p | p in props :: p == props[0] || p in props[1..];
      rest
  }

  /**
    The indexer `GetProperty("Item", ..., new[] { typeof(string) })` selects:
    one taking exactly a string when the type has it, otherwise one whose
    single index parameter a string is assignable to (`this[object]`, say).
  */
  function StringIndexer(h: Host, props: seq<PropertyInfo>): (r: Option<PropertyInfo>)
    ensures r.Some? ==> r.value in props && TakesString(h, r.value)
    ensures r.None? <==> forall p | p in props :: !TakesString(h, p)
    ensures (exists p | p in props :: p.name == "Item" && p.indexParams == [StringTy]) ==>
              r.Some? && r.value.indexParams == [StringTy]
  {
    match ExactStringIndexer(props)
    case Some(p) =>
      AssignableReflexive(h, StringTy);
      Some(p)
    case None => FirstTakingString(h, props)
  }

  /** The member found by a case-insensitive lookup, retried case-sensitively on ambiguity. */
  function ResolvedDataMember(t: TypeMembers, name: string): Option<DataMember> {
    match GetMember(t, name, false)
    case Ok(m) => m
    case Err(_) =>
      match GetMember(t, name, true)
      case Ok(m) => m
      case Err(_) => None
  }

  /**
    `MemberExpression(name, target)`: the access a member read compiles to on
    the target's runtime type (None: a null target, which is rejected).
  */
  function MemberExpression(h: Host, name: string, target: Option<Ty>): (r: Result<MemberAccess>)
    ensures target.None? ==> r == Err(ArgumentNull("target"))
    ensures r.Err? && target.Some? ==>
              r.error.ArgumentError? && ResolvedDataMember(MembersOf(h, target.value), name).Some?
    ensures r.Ok? && r.value.PropertyAccess? ==> r.value.property.indexParams == []
  {
    if target.None? then Err(ArgumentNull("target"))
    else
      var t := MembersOf(h, target.value);
      match ResolvedDataMember(t, name)
      case None =>
        (match StringIndexer(h, t.properties)
         case None => Ok(NoAccess)
         case Some(indexer) => Ok(IndexerAccess(indexer, name)))
      case Some(PropertyMember(p)) =>
        if p.indexParams != [] then Err(ArgumentError("Incorrect number of arguments supplied for call to method"))
        else Ok(PropertyAccess(p))
      case Some(FieldMember(f)) => Ok(FieldAccess(f))
  }

  /** A property found by name that takes index parameters cannot be read without them. */
  lemma {:induction false} IndexedPropertyIsRefused(h: Host, name: string, target: Ty, p: PropertyInfo)
    requires ResolvedDataMember(MembersOf(h, target), name) == Some(PropertyMember(p))
    ensures MemberExpression(h, name, Some(target)).Err? <==> p.indexParams != []
    ensures p.indexParams == [] ==> MemberExpression(h, name, Some(target)) == Ok(PropertyAccess(p))
  {
  }

  /** A case-insensitive match on both a property and a field is an ambiguity. */
  lemma {:induction false} PropertyAndFieldAreAmbiguous(t: TypeMembers, name: string)
    requires |MatchingProperties(t.properties, name, false)| == 1
    requires |MatchingFields(t.fields, name, false)| == 1
    ensures GetMember(t, name, false) == Err(AmbiguousMatch)
  {
  }

  /** After that ambiguity the case-sensitive retry prefers an exactly named property. */
  lemma {:induction false} AmbiguityRetriedCaseSensitively(h: Host, name: string, target: Ty)
    requires GetMember(MembersOf(h, target), name, false).Err?
    requires |MatchingProperties(MembersOf(h, target).properties, name, true)| == 1
    requires MatchingProperties(MembersOf(h, target).properties, name, true)[0].indexParams == []
    ensures MemberExpression(h, name, Some(target))
         == Ok(PropertyAccess(MatchingProperties(MembersOf(h, target).properties, name, true)[0]))
  {
  }

  /** Nothing found, and no indexer a string can be passed to: the read compiles to nothing (null). */
  lemma {:induction false} NotFoundWithoutIndexer(h: Host, name: string, target: Ty)
    requires ResolvedDataMember(MembersOf(h, target), name).None?
    requires forall p | p in MembersOf(h, target).properties :: !TakesString(h, p)
    ensures MemberExpression(h, name, Some(target)) == Ok(NoAccess)
  {
    assert StringIndexer(h, MembersOf(h, target).properties).None?;
  }

  /**
    Nothing found, but an indexer a string can be passed to: the read becomes
    `target[name]`, through the exact string indexer when there is one.
  */
  lemma {:induction false} NotFoundFallsBackToIndexer(h: Host, name: string, target: Ty, q: PropertyInfo)
    requires ResolvedDataMember(MembersOf(h, target), name).None?
    requires q in MembersOf(h, target).properties && TakesString(h, q)
    ensures MemberExpression(h, name, Some(target)).Ok?
    ensures MemberExpression(h, name, Some(target)).value.IndexerAccess?
    ensures MemberExpression(h, name, Some(target)).value.key == name
    ensures TakesString(h, MemberExpression(h, name, Some(target)).value.indexer)
    ensures q.indexParams == [StringTy] ==> MemberExpression(h, name, Some(target)).value.indexer.indexParams == [StringTy]
  {
    assert StringIndexer(h, MembersOf(h, target).properties).Some?;
  }
}
