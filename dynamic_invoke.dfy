/**
  A method call on a reference in the older compiler: the node's first token
  names the method, its later children are the arguments, and the reduction is
  a dynamic invoke-member operation over the target followed by the arguments.
*/
module DynamicInvoke {
  import opened Wrappers
  import opened HostTypes
  import opened ExpressionTree
  import opened NVelocityAst

  datatype DynamicInvokeNode = DynamicInvokeNode(target: Expr, name: string, arguments: seq<Expr>)

  /** Every child after the first converts to an operand. */
  predicate ArgumentsConvert(operand: Node -> Result<Expr>, children: seq<Node>) {
    forall i :: 1 <= i < |children| ==> operand(children[i]).Ok?
  }

  /**
    The constructor: the node and the target are required (null is `None`);
    the arguments are the operands of children 1 to the last, in order, and
    the first child whose operand conversion throws ends it with that
    exception. The argument list is created with capacity `ChildrenCount - 1`,
    which is rejected for a node without children.
  */
  method Create(node: Option<Node>, target: Option<Expr>, operand: Node -> Result<Expr>) returns (r: Result<DynamicInvokeNode>)
    ensures node.None? ==> r == Err(ArgumentNull("node"))
    ensures node.Some? && target.None? ==> r == Err(ArgumentNull("target"))
    ensures node.Some? && target.Some? && node.value.children == [] ==> r == Err(ArgumentOutOfRange("capacity"))
    ensures r.Ok? <==> node.Some? && target.Some? && node.value.children != [] && ArgumentsConvert(operand, node.value.children)
    ensures node.Some? && target.Some? && node.value.children != [] && r.Err? ==>
              exists i :: 1 <= i < |node.value.children| && operand(node.value.children[i]) == Err(r.error)
                && forall j :: 1 <= j < i ==> operand(node.value.children[j]).Ok?
    ensures r.Ok? ==> r.value.target == target.value && r.value.name == node.value.firstToken
    ensures r.Ok? ==> |r.value.arguments| == |node.value.children| - 1
    ensures r.Ok? ==> forall i :: 0 <= i < |r.value.arguments| ==> Ok(r.value.arguments[i]) == operand(node.value.children[i + 1])
  {
    if node.None? {
      return Err(ArgumentNull("node"));
    }
    if target.None? {
      return Err(ArgumentNull("target"));
    }
    var children := node.value.children;
    if |children| == 0 {
      return Err(ArgumentOutOfRange("capacity"));
    }
    var arguments: seq<Expr> := [];
    var i := 1;
    while i < |children|
      invariant 1 <= i <= |children|
      invariant |arguments| == i - 1
      invariant forall j :: 0 <= j < |arguments| ==> Ok(arguments[j]) == operand(children[j + 1])
    {
      var argument := operand(children[i]);
      if argument.Err? {
        assert forall j :: 1 <= j < i ==> operand(children[j]).Ok? by {
          forall j | 1 <= j < i
            ensures operand(children[j]).Ok?
          {
            assert Ok(arguments[j - 1]) == operand(children[j]);
          }
        }
        return Err(argument.error);
      }
      arguments := arguments + [argument.value];
      i := i + 1;
    }
    assert ArgumentsConvert(operand, children) by {
      forall j | 1 <= j < |children|
        ensures operand(children[j]).Ok?
      {
        assert Ok(arguments[j - 1]) == operand(children[j]);
      }
    }
    r := Ok(DynamicInvokeNode(target.value, node.value.firstToken, arguments));
  }

  /**
    `ReduceInternal`: fills an array with the target in slot 0 and argument
    `i` in slot `i + 1`, and hands it to an invoke-member binder for the name
    that is told the number of arguments.
  */
  method ReduceInternal(n: DynamicInvokeNode) returns (r: Expr)
    ensures r == DynamicInvoke(n.name, |n.arguments|, [n.target] + n.arguments)
    ensures TypeOf(r) == ObjectTy
  {
    var args := new Expr[|n.arguments| + 1](_ => Empty);
    args[0] := n.target;
    var i := 0;
    while i < |n.arguments|
      invariant 0 <= i <= |n.arguments|
      invariant args[0] == n.target
      invariant forall j :: 0 <= j < i ==> args[j + 1] == n.arguments[j]
    {
      args[i + 1] := n.arguments[i];
      i := i + 1;
    }
    assert args[..] == [n.target] + n.arguments;
    r := DynamicInvoke(n.name, |n.arguments|, args[..]);
  }

  /**
    The operands of the reduced call: the target comes first, and the i-th
    argument is the operand of the node's child `i + 1`.
  */
  lemma {:induction false} OperandsFollowChildren(node: Node, target: Expr, operand: Node -> Result<Expr>, n: DynamicInvokeNode, i: nat)
    requires n.target == target && |n.arguments| == |node.children| - 1
    requires forall j :: 0 <= j < |n.arguments| ==> Ok(n.arguments[j]) == operand(node.children[j + 1])
    requires 1 <= i < |node.children|
    ensures ([n.target] + n.arguments)[0] == target
    ensures Ok(([n.target] + n.arguments)[i]) == operand(node.children[i])
    ensures |[n.target] + n.arguments| == |node.children|
  {
    assert ([n.target] + n.arguments)[i] == n.arguments[i - 1];
  }
}
