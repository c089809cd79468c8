/**
  The older foreach loop node: like the current one, but the break label is
  required, a continue label is always created inside the reduction, and an
  enumerable that is not statically an `IEnumerable` is converted to one.
*/
module LegacyForeachExpression {
  import opened Wrappers
  import opened HostTypes
  import opened ExpressionTree
  import ForeachExpression

  datatype LegacyForeachNode = LegacyForeachNode(
    enumerable: Expr,
    body: Expr,
    currentItem: Expr,
    breakLabel: ForeachExpression.Label)

  /** The constructor: every operand, the break label included, is required (null is `None`). */
  function Create(enumerable: Option<Expr>, body: Option<Expr>, currentItem: Option<Expr>,
                  breakLabel: Option<ForeachExpression.Label>): (r: Result<LegacyForeachNode>)
    ensures r.Ok? <==> enumerable.Some? && body.Some? && currentItem.Some? && breakLabel.Some?
    ensures enumerable.None? ==> r == Err(ArgumentNull("enumerable"))
    ensures enumerable.Some? && body.None? ==> r == Err(ArgumentNull("body"))
    ensures enumerable.Some? && body.Some? && currentItem.None? ==> r == Err(ArgumentNull("currentItem"))
    ensures enumerable.Some? && body.Some? && currentItem.Some? && breakLabel.None? ==> r == Err(ArgumentNull("breakLabel"))
    ensures r.Ok? ==> r.value == LegacyForeachNode(enumerable.value, body.value, currentItem.value, breakLabel.value)
  {
    if enumerable.None? then Err(ArgumentNull("enumerable"))
    else if body.None? then Err(ArgumentNull("body"))
    else if currentItem.None? then Err(ArgumentNull("currentItem"))
    else if breakLabel.None? then Err(ArgumentNull("breakLabel"))
    else Ok(LegacyForeachNode(enumerable.value, body.value, currentItem.value, breakLabel.value))
  }

  /** The enumerable as the reduction uses it: converted to `IEnumerable` unless it already is one. */
  function EnumerableOperand(node: LegacyForeachNode): (r: Expr)
    ensures TypeOf(r) == EnumerableTy
    ensures TypeOf(node.enumerable) == EnumerableTy ==> r == node.enumerable
    ensures TypeOf(node.enumerable) != EnumerableTy ==> r == Convert(node.enumerable, EnumerableTy)
  {
    ConvertIfNeeded(node.enumerable, EnumerableTy)
  }

  /**
    `Reduce()` run on a value of the enumerable: a value that is not
    enumerable fails the conversion, a null one fails when its enumerator is
    requested, and otherwise the loop runs over its elements until they run out or
    the body breaks out.
  */
  method Execute<S>(node: LegacyForeachNode, enumerableValue: Value, body: ForeachExpression.Body<S>, item0: Value, s0: S)
    returns (r: Result<(Value, S)>)
    ensures enumerableValue == NullValue ==> r == Err(NullReference)
    ensures enumerableValue != NullValue && Elements(enumerableValue).None? ==> r == Err(InvalidCast)
    ensures Elements(enumerableValue).Some? ==>
      var elems := Elements(enumerableValue).value;
      var o := ForeachExpression.Iterate(body, elems, s0);
      r == Ok((if o.runs == 0 then item0 else elems[o.runs - 1], o.state))
  {
    if enumerableValue == NullValue {
      return Err(NullReference);
    }
    if Elements(enumerableValue).None? {
      return Err(InvalidCast);
    }
    var item, s, _, _ := ForeachExpression.RunLoop(Elements(enumerableValue).value, body, item0, s0);
    r := Ok((item, s));
  }
}
