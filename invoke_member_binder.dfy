/**
  The method-call binder: resolves `$target.Name(args)` against the target's
  runtime type and builds the call, packing trailing arguments into a params
  array when the chosen method has one.
*/
module InvokeMemberBinder {
  import opened Wrappers
  import opened HostTypes
  import opened Binding
  import ReflectionHelper

  /** How one parameter of the chosen method receives its value. */
  datatype ArgPlan =
    | ConvertParameter(argument: nat, parameter: ParameterInfo)   // args[i] converted to the parameter's type
    | PackParams(elementType: Ty, arguments: seq<nat>)            // a new array of the element type holding these args

  /** The compiled call: the method, its arguments, and how the result is wrapped. */
  datatype Invocation = Invocation(
    callee: MethodInfo,
    arguments: seq<ArgPlan>,
    voidAsEmptyString: bool,   // a void call is followed by the constant ""
    boxed: bool)               // a value-type result is boxed to object

  /** The result expression of a member-call binding. */
  datatype CallResult = NullResult | UnresolvableResult | Call(invocation: Invocation)

  /** `FallbackInvoke`: invoking a member-less target is not supported. */
  function FallbackInvoke(): (r: Result<Outcome<CallResult>>)
    ensures r.Err? && r.error.NotImplemented?
  {
    Err(NotImplemented("static invocation"))
  }

  /** The runtime types of the arguments, null values mapped to no type. */
  function ArgTypes(args: seq<MetaObject>): (ts: seq<Option<Ty>>)
    ensures |ts| == |args|
    ensures forall i | 0 <= i < |args| :: ts[i] == RuntimeType(args[i])
  {
    seq(|args|, i requires 0 <= i < |args| => RuntimeType(args[i]))
  }

  /** Whether the last argument is the params array itself rather than its first element. */
  predicate PassesArrayDirectly(h: Host, m: MethodInfo, argTypes: seq<Option<Ty>>)
    requires m.paramsElem.Some?
  {
    var ps := Parameters(m);
    |argTypes| == |ps| && ReflectionHelper.CanBeImplicitlyConverted(h, argTypes[|argTypes| - 1], ps[|ps| - 1].ty)
  }

  /** The indices `from`, `from + 1`, ..., `to - 1`. */
  function Range(from: nat, to: nat): (r: seq<nat>)
    ensures |r| == if from <= to then to - from else 0
    ensures forall i | 0 <= i < |r| :: r[i] == from + i
  {
    if from < to then seq(to - from, i requires 0 <= i < to - from => from + i) else []
  }

  /**
    The argument plan for a chosen method: each fixed parameter takes its own
    argument; a params array takes the last argument as is when it already
    converts to the array type and the counts match, and otherwise a new
    array of all the remaining arguments.
  */
  function PlanArguments(h: Host, m: MethodInfo, argTypes: seq<Option<Ty>>): (plan: seq<ArgPlan>)
    requires |argTypes| >= |m.fixedParams|
    ensures |plan| == |Parameters(m)|
  {
    var ps := Parameters(m);
    var trivialParams := |m.fixedParams|;
    var fixed := seq(trivialParams, i requires 0 <= i < trivialParams => ConvertParameter(i, ps[i]));
    if m.paramsElem.None? then fixed
    else
      var lastIndex := |ps| - 1;
      if PassesArrayDirectly(h, m, argTypes) then fixed + [ConvertParameter(lastIndex, ps[lastIndex])]
      else fixed + [PackParams(m.paramsElem.value, Range(lastIndex, |argTypes|))]
  }

  /** The argument indices a plan reads, in order. */
  function UsedArguments(plan: seq<ArgPlan>): seq<nat> {
    if plan == [] then []
    else
      var last := plan[|plan| - 1];
      UsedArguments(plan[..|plan| - 1]) + (if last.ConvertParameter? then [last.argument] else last.arguments)
  }

  lemma {:induction false} UsedArgumentsOfConversions(ps: seq<ParameterInfo>, n: nat)
    requires n <= |ps|
    ensures UsedArguments(seq(n, i requires 0 <= i < n => ConvertParameter(i, ps[i]))) == Range(0, n)
  {
    var plan := seq(n, i requires 0 <= i < n => ConvertParameter(i, ps[i]));
    if n > 0 {
      UsedArgumentsOfConversions(ps, n - 1);
      assert plan[..n - 1] == seq(n - 1, i requires 0 <= i < n - 1 => ConvertParameter(i, ps[i]));
      assert Range(0, n) == Range(0, n - 1) + [n - 1];
    }
  }

  lemma {:induction false} UsedArgumentsAppendOne(plan: seq<ArgPlan>, last: ArgPlan)
    ensures UsedArguments(plan + [last])
         == UsedArguments(plan) + (if last.ConvertParameter? then [last.argument] else last.arguments)
  {
    assert (plan + [last])[..|plan|] == plan;
  }

  /**
    Every argument is consumed exactly once and in order: the plan for a
    method applicable to the arguments reads argument 0, 1, ..., n - 1.
  */
  lemma {:induction false} PlanUsesEachArgumentOnce(h: Host, m: MethodInfo, argTypes: seq<Option<Ty>>)
    requires ReflectionHelper.Applicable(h, m, argTypes)
    ensures UsedArguments(PlanArguments(h, m, argTypes)) == Range(0, |argTypes|)
  {
    var ps := Parameters(m);
    var n := |m.fixedParams|;
    var fixed := seq(n, i requires 0 <= i < n => ConvertParameter(i, ps[i]));
    UsedArgumentsOfConversions(ps, n);
    if m.paramsElem.Some? {
      var lastIndex := |ps| - 1;
      if PassesArrayDirectly(h, m, argTypes) {
        UsedArgumentsAppendOne(fixed, ConvertParameter(lastIndex, ps[lastIndex]));
        assert Range(0, |argTypes|) == Range(0, n) + [n];
      } else {
        UsedArgumentsAppendOne(fixed, PackParams(m.paramsElem.value, Range(lastIndex, |argTypes|)));
        assert Range(0, |argTypes|) == Range(0, n) + Range(n, |argTypes|);
      }
    }
  }

  /** The call for a resolved method. */
  function Invoke(h: Host, m: MethodInfo, argTypes: seq<Option<Ty>>): Invocation
    requires |argTypes| >= |m.fixedParams|
  {
    Invocation(m, PlanArguments(h, m, argTypes), m.returnType == VoidTy, m.returnType != VoidTy && IsValueType(m.returnType))
  }

  /** The method the binder calls, if resolution yields exactly one (an ambiguity counts as none). */
  function ChosenMethod(h: Host, t: Ty, name: string, argTypes: seq<Option<Ty>>): (r: Option<MethodInfo>)
    ensures r.Some? ==> ReflectionHelper.Applicable(h, r.value, argTypes)
    ensures r.Some? ==> |argTypes| >= |r.value.fixedParams|
  {
    var res := ReflectionHelper.Resolution(h, t, name, argTypes);
    if res.Ok? && res.value.Some? then
      ReflectionHelper.ResolvedMethodIsApplicable(h, t, name, argTypes);
      ReflectionHelper.ApplicableArity(h, res.value.value, argTypes);
      Some(res.value.value)
    else None
  }

  /** `FallbackInvokeMember(target, args)`, as the binding it returns. */
  function InvokeMemberBinding(h: Host, name: string, target: Option<MetaObject>, args: Option<seq<MetaObject>>)
    : Result<Outcome<CallResult>>
  {
    if target.None? then Err(ArgumentNull("target"))
    else if args.None? then Err(ArgumentNull("args"))
    else
      var t := target.value;
      if !t.hasValue then Ok(Defer)
      else if t.isNull then Ok(Bound(NullResult, InstanceIsNull(t.expression)))
      else
        var argTypes := ArgTypes(args.value);
        var result :=
          match ChosenMethod(h, t.limitType, name, argTypes)
          case None => UnresolvableResult
          case Some(m) => Call(Invoke(h, m, argTypes));
        Ok(Bound(result, TypeIs(t.expression, t.limitType)))
  }

  /** The argument expressions built for a resolved method: one per parameter, the last packing any extra arguments into a `params` array. */
  method PlanArgumentExpressions(h: Host, m: MethodInfo, argTypes: seq<Option<Ty>>) returns (plan: seq<ArgPlan>)
    requires |argTypes| >= |m.fixedParams|
    ensures plan == PlanArguments(h, m, argTypes)
  {
    var parameters := Parameters(m);
    var hasParamsArray := ReflectionHelper.IsParamsArrayArgument(
      if |parameters| > 0 then Some(parameters[|parameters| - 1]) else None);
    ParametersShape(m);
    assert hasParamsArray <==> m.paramsElem.Some?;
    var trivialParams := if hasParamsArray then |parameters| - 1 else |parameters|;

    var argExpressions := new ArgPlan[|parameters|](_ => PackParams(VoidTy, []));
    for i := 0 to trivialParams
      invariant forall j | 0 <= j < i :: argExpressions[j] == ConvertParameter(j, parameters[j])
    {
      argExpressions[i] := ConvertParameter(i, parameters[i]);
    }
    if hasParamsArray {
      var lastIndex := argExpressions.Length - 1;
      var lastParameter := parameters[lastIndex];
      if |argTypes| == |parameters|
         && ReflectionHelper.CanBeImplicitlyConverted(h, argTypes[|argTypes| - 1], lastParameter.ty) {
        argExpressions[lastIndex] := ConvertParameter(lastIndex, lastParameter);
      } else {
        var elementType := lastParameter.paramsElem.value;
        argExpressions[lastIndex] := PackParams(elementType, Range(lastIndex, |argTypes|));
      }
    }
    assert argExpressions[..] == PlanArguments(h, m, argTypes);
    plan := argExpressions[..];
  }

  method FallbackInvokeMember(h: Host, name: string, target: Option<MetaObject>, args: Option<seq<MetaObject>>)
    returns (r: Result<Outcome<CallResult>>)
    ensures r == InvokeMemberBinding(h, name, target, args)
  {
    if target.None? {
      return Err(ArgumentNull("target"));
    }
    if args.None? {
      return Err(ArgumentNull("args"));
    }
    var t := target.value;
    if !t.hasValue {
      return Ok(Defer);
    }
    if t.isNull {
      return Ok(Bound(NullResult, InstanceIsNull(t.expression)));
    }

    var argTypeArray := ArgTypes(args.value);
    var resolved := ReflectionHelper.ResolveMethod(h, t.limitType, name, argTypeArray);
    var resolvedMethod: Option<MethodInfo> := if resolved.Ok? then resolved.value else None;

    var result: CallResult;
    if resolvedMethod.None? {
      result := UnresolvableResult;
    } else {
      var m := resolvedMethod.value;
      ReflectionHelper.ResolvedMethodIsApplicable(h, t.limitType, name, argTypeArray);
      ReflectionHelper.ApplicableArity(h, m, argTypeArray);
      var argExpressions := PlanArgumentExpressions(h, m, argTypeArray);
      result := Call(Invocation(m, argExpressions, m.returnType == VoidTy,
                                m.returnType != VoidTy && IsValueType(m.returnType)));
    }
    r := Ok(Bound(result, TypeIs(t.expression, t.limitType)));
  }

  /** A target whose value is not yet known defers; a null target binds to null, guarded by that null. */
  lemma {:induction false} TargetWithoutValue(h: Host, name: string, t: MetaObject, args: seq<MetaObject>)
    ensures !t.hasValue ==> InvokeMemberBinding(h, name, Some(t), Some(args)) == Ok(Defer)
    ensures t.hasValue && t.isNull ==>
      InvokeMemberBinding(h, name, Some(t), Some(args)) == Ok(Bound(NullResult, InstanceIsNull(t.expression)))
  {
  }

  /** Every other binding is guarded by the target's runtime type. */
  lemma {:induction false} BindingGuardedByTargetType(h: Host, name: string, t: MetaObject, args: seq<MetaObject>)
    requires t.hasValue && !t.isNull
    ensures var r := InvokeMemberBinding(h, name, Some(t), Some(args));
      r.Ok? && r.value.Bound? && r.value.restriction == TypeIs(t.expression, t.limitType)
  {
  }

  /** No method found, or an ambiguity, binds to the unresolvable result rather than failing. */
  lemma {:induction false} UnresolvedCallIsUnresolvable(h: Host, name: string, t: MetaObject, args: seq<MetaObject>)
    requires t.hasValue && !t.isNull
    requires ReflectionHelper.Resolution(h, t.limitType, name, ArgTypes(args)) == Ok(None)
          || ReflectionHelper.Resolution(h, t.limitType, name, ArgTypes(args)) == Err(AmbiguousMatch)
    ensures InvokeMemberBinding(h, name, Some(t), Some(args))
         == Ok(Bound(UnresolvableResult, TypeIs(t.expression, t.limitType)))
  {
  }

  /**
    A resolved call passes every argument exactly once, in order, and has one
    argument expression per declared parameter; a void method yields "" and a
    value-type result is boxed.
  */
  lemma {:induction false} ResolvedCallShape(h: Host, name: string, t: MetaObject, args: seq<MetaObject>)
    requires t.hasValue && !t.isNull
    requires ReflectionHelper.Resolution(h, t.limitType, name, ArgTypes(args)).Ok?
    requires ReflectionHelper.Resolution(h, t.limitType, name, ArgTypes(args)).value.Some?
    ensures var m := ReflectionHelper.Resolution(h, t.limitType, name, ArgTypes(args)).value.value;
      var r := InvokeMemberBinding(h, name, Some(t), Some(args));
      && r.Ok? && r.value.Bound? && r.value.result.Call?
      && r.value.result.invocation.callee == m
      && |r.value.result.invocation.arguments| == |Parameters(m)|
      && UsedArguments(r.value.result.invocation.arguments) == Range(0, |args|)
      && (r.value.result.invocation.voidAsEmptyString <==> m.returnType == VoidTy)
      && (r.value.result.invocation.boxed <==> m.returnType.Prim? || m.returnType.DecimalTy? || m.returnType.Struct?)
  {
    var m := ReflectionHelper.Resolution(h, t.limitType, name, ArgTypes(args)).value.value;
    ReflectionHelper.ResolvedMethodIsApplicable(h, t.limitType, name, ArgTypes(args));
    PlanUsesEachArgumentOnce(h, m, ArgTypes(args));
  }

  /**
    A params method called with the array itself passes it through; called
    with loose elements (or none) it packs them into a new array.
  */
  lemma {:induction false} ParamsArrayPassing(h: Host, m: MethodInfo, argTypes: seq<Option<Ty>>)
    requires m.paramsElem.Some? && |argTypes| >= |m.fixedParams|
    ensures var plan := PlanArguments(h, m, argTypes);
      && (PassesArrayDirectly(h, m, argTypes) ==> plan[|plan| - 1] == ConvertParameter(|m.fixedParams|, ParameterInfo(ArrayOf(m.paramsElem.value), m.paramsElem)))
      && (!PassesArrayDirectly(h, m, argTypes) ==> plan[|plan| - 1] == PackParams(m.paramsElem.value, Range(|m.fixedParams|, |argTypes|)))
  {
    ParametersShape(m);
  }
}
