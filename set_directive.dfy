/**
  The `#set` directive: lowering `#set($left = right)` to a member store, an
  index store, a no-op, or a variable assignment, and the rule that a
  nullable right side is evaluated once and stored only when it is not null.
*/
module SetDirective {
  import opened Wrappers
  import opened HostTypes
  import opened ExpressionTree

  /** A set directive node: its left and right operands. */
  datatype SetNode = SetNode(left: Expr, right: Expr)

  /** What a set directive lowers to. */
  datatype Lowered =
    | SetMember(target: Expr, value: Expr, memberName: string)           // a dynamic member store
    | SetIndex(target: Expr, value: Expr, arguments: seq<Expr>, binderArity: nat)  // a dynamic index store
    | NoOp                                                                // the empty expression
    | Store(slot: Expr, value: Expr)                                      // slot := value
    | StoreIfNotNull(temp: Expr, slot: Expr, value: Expr)                 // if ((temp := value) != null) slot := temp

  /**
    `Update(left, right)`: the same node when both operands are unchanged;
    otherwise a new node, unless the new left side is a global variable.
  */
  function Update(node: SetNode, left: Expr, right: Expr): (r: Result<SetNode>)
    ensures node.left == left && node.right == right ==> r == Ok(node)
    ensures (node.left != left || node.right != right) && left.GlobalVariable? ==> r.Err? && r.error.NotSupported?
    ensures (node.left != left || node.right != right) && !left.GlobalVariable? ==> r == Ok(SetNode(left, right))
  {
    if node.left == left && node.right == right then Ok(node)
    else if left.GlobalVariable? then Err(NotSupported("Cannot assign to a global variable"))
    else Ok(SetNode(left, right))
  }

  /** `TypeHelper.IsNullableType`: whether a value of the type can be null. */
  predicate IsNullableType(t: Ty) { !IsValueType(t) }

  /** The left side after a reference has been reduced to what it refers to. */
  function ReducedLeft(left: Expr): Expr {
    if left.Reference? then left.reduced else left
  }

  /**
    How the right side is adapted to the left side's type: converted when the
    left accepts it, checked at run time with `as` when only the converse
    holds (an `as` to a value type cannot be built), otherwise not at all.
  */
  function AdaptRight(h: Host, slot: Expr, right: Expr): (r: Result<Option<Expr>>)
    ensures r.Ok? && r.value.Some? ==> TypeOf(r.value.value) == TypeOf(slot)
  {
    var lt := TypeOf(slot);
    var rt := TypeOf(right);
    if IsAssignableFrom(h, lt, rt) then Ok(Some(ConvertIfNeeded(right, lt)))
    else if IsAssignableFrom(h, rt, lt) then
      if IsValueType(lt) then Err(ArgumentError("TypeAs needs a reference or nullable type"))
      else Ok(Some(TypeAs(right, lt)))
    else Ok(None)
  }

  /** `Reduce()`: the assignment lowering. */
  function Reduce(h: Host, node: SetNode): (r: Result<Lowered>)
    ensures r.Err? ==> ReducedLeft(node.left).GlobalVariable? || r.error.ArgumentError?
  {
    var left := ReducedLeft(node.left);
    var right := node.right;
    if left.GlobalVariable? then Err(NotSupported("Cannot assign to a Global Variable"))
    else if left.PropertyAccess? then Ok(SetMember(left.target, right, left.name))
    else if left.IndexInvocation? then Ok(SetIndex(left.target, right, left.arguments, |left.arguments|))
    else if left.MethodInvocation? || left.MethodCall? || left.Const? then Ok(NoOp)
    else
      var adapted :- AdaptRight(h, left, right);
      match adapted
      case None => Ok(NoOp)
      case Some(value) =>
        if left.Variable? || !IsNullableType(TypeOf(right)) then Ok(Store(left, value))
        else Ok(StoreIfNotNull(Parameter("setDirectiveTemp", TypeOf(value)), left, value))
  }

  /** Whether a runtime value is an instance of a type (null is an instance of nothing). */
  predicate IsInstanceOf(h: Host, v: Value, t: Ty) {
    match v
    case NullValue => false
    case Obj(rt, _) => IsAssignableFrom(h, t, rt)
    case Items(rt, _) => IsAssignableFrom(h, t, rt)
    case Text(_) => IsAssignableFrom(h, t, StringTy)
  }

  /**
    The value a lowered right side yields when the right operand evaluates to
    `v`: an `as` check yields null for a value of another type; a conversion
    is taken to preserve the value.
  */
  function AdaptedValue(h: Host, value: Expr, v: Value): Value {
    if value.TypeAs? && !IsInstanceOf(h, v, value.ty) then NullValue else v
  }

  /**
    The slot's value after running a store, given the right operand's value
    `v` and the slot's value `current` before. Member and index stores act on
    another object and leave the slot alone. A variable is taken as a plain
    slot here; how the context stores null into one is not modelled.
  */
  function SlotAfter(h: Host, l: Lowered, v: Value, current: Value): Value {
    match l
    case Store(_, value) => AdaptedValue(h, value, v)
    case StoreIfNotNull(_, _, value) =>
      var stored := AdaptedValue(h, value, v);
      if stored == NullValue then current else stored
    case _ => current
  }

  /** A global variable cannot be assigned, whether named directly or through a reference. */
  lemma {:induction false} GlobalTargetRejected(h: Host, node: SetNode)
    requires ReducedLeft(node.left).GlobalVariable?
    ensures Reduce(h, node).Err? && Reduce(h, node).error.NotSupported?
  {
  }

  /** A property on the left becomes a member store on its target with that member's name. */
  lemma {:induction false} PropertyTargetBecomesSetMember(h: Host, node: SetNode)
    requires ReducedLeft(node.left).PropertyAccess?
    ensures var p := ReducedLeft(node.left);
      Reduce(h, node) == Ok(SetMember(p.target, node.right, p.name))
  {
  }

  /** An indexer on the left becomes an index store whose binder takes as many indices as were given. */
  lemma {:induction false} IndexerTargetBecomesSetIndex(h: Host, node: SetNode)
    requires ReducedLeft(node.left).IndexInvocation?
    ensures var ix := ReducedLeft(node.left);
      && Reduce(h, node).Ok? && Reduce(h, node).value.SetIndex?
      && Reduce(h, node).value.binderArity == |ix.arguments|
      && Reduce(h, node).value.arguments == ix.arguments
      && Reduce(h, node).value.target == ix.target
  {
  }

  /** A method invocation, a method call or a constant on the left is not assignable: a no-op. */
  lemma {:induction false} UnassignableTargetIsNoOp(h: Host, node: SetNode)
    requires var l := ReducedLeft(node.left); l.MethodInvocation? || l.MethodCall? || l.Const?
    ensures Reduce(h, node) == Ok(NoOp)
  {
  }

  /**
    For a variable or a parameter on the left, the type relation decides:
    unrelated types are a no-op, a narrowing gets a run-time `as` check, and
    an assignable right side is converted to the left side's type.
  */
  lemma {:induction false} TypeRelationDecides(h: Host, node: SetNode)
    requires var l := ReducedLeft(node.left); l.Variable? || l.Parameter?
    ensures var l := ReducedLeft(node.left);
      var lt := TypeOf(l);
      var rt := TypeOf(node.right);
      && (!IsAssignableFrom(h, lt, rt) && !IsAssignableFrom(h, rt, lt) ==> Reduce(h, node) == Ok(NoOp))
      && (!IsAssignableFrom(h, lt, rt) && IsAssignableFrom(h, rt, lt) && !IsValueType(lt) ==>
            Reduce(h, node).Ok? && Reduce(h, node).value.value == TypeAs(node.right, lt))
      && (!IsAssignableFrom(h, lt, rt) && IsAssignableFrom(h, rt, lt) && IsValueType(lt) ==>
            Reduce(h, node).Err? && Reduce(h, node).error.ArgumentError?)
      && (IsAssignableFrom(h, lt, rt) ==>
            Reduce(h, node).Ok? && Reduce(h, node).value.value == ConvertIfNeeded(node.right, lt))
  {
  }

  /**
    Variables, and right sides that cannot be null, are assigned
    unconditionally; anything else goes through a temporary and is stored only
    when it is not null.
  */
  lemma {:induction false} StoreKindFollowsNullability(h: Host, node: SetNode)
    requires var l := ReducedLeft(node.left); l.Variable? || l.Parameter?
    requires Reduce(h, node).Ok? && Reduce(h, node) != Ok(NoOp)
    ensures var l := ReducedLeft(node.left);
      && (l.Variable? || !IsNullableType(TypeOf(node.right)) ==> Reduce(h, node).value.Store?)
      && (l.Parameter? && IsNullableType(TypeOf(node.right)) ==>
            Reduce(h, node).value.StoreIfNotNull? && Reduce(h, node).value.slot == l
            && TypeOf(Reduce(h, node).value.temp) == TypeOf(Reduce(h, node).value.value))
  {
  }

  /**
    A guarded store never writes null: a null right value leaves the slot as
    it was, anything else is written.
  */
  lemma {:induction false} GuardedStoreSkipsNull(h: Host, node: SetNode, v: Value, current: Value)
    requires Reduce(h, node).Ok? && Reduce(h, node).value.StoreIfNotNull?
    ensures SlotAfter(h, Reduce(h, node).value, v, current) == NullValue ==> current == NullValue
    ensures var after := SlotAfter(h, Reduce(h, node).value, v, current);
      && (AdaptedValue(h, Reduce(h, node).value.value, v) == NullValue ==> after == current)
      && (AdaptedValue(h, Reduce(h, node).value.value, v) != NullValue ==> after == AdaptedValue(h, Reduce(h, node).value.value, v))
  {
  }

  /**
    A narrowed store whose right value is of the wrong type at run time leaves
    a non-variable slot untouched, and hands null to a variable's
    unconditional store (what the context then does with it is its own).
  */
  lemma {:induction false} NarrowingMismatch(h: Host, node: SetNode, v: Value, current: Value)
    requires var l := ReducedLeft(node.left); l.Variable? || l.Parameter?
    requires var l := ReducedLeft(node.left);
      !IsAssignableFrom(h, TypeOf(l), TypeOf(node.right)) && IsAssignableFrom(h, TypeOf(node.right), TypeOf(l))
      && !IsValueType(TypeOf(l))
    requires !IsInstanceOf(h, v, TypeOf(ReducedLeft(node.left)))
    ensures Reduce(h, node).Ok?
    ensures ReducedLeft(node.left).Variable? ==>
              Reduce(h, node).value.Store? && AdaptedValue(h, Reduce(h, node).value.value, v) == NullValue
    ensures ReducedLeft(node.left).Parameter? ==> SlotAfter(h, Reduce(h, node).value, v, current) == current
  {
    var l := ReducedLeft(node.left);
    assert IsNullableType(TypeOf(node.right)) by {
      if IsValueType(TypeOf(node.right)) {
        AssignableToValueTypeOnlyFromItself(h, TypeOf(node.right), TypeOf(l));
        AssignableReflexive(h, TypeOf(l));
      }
    }
  }
}
