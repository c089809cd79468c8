/**
  The NVelocity parse tree that the older compiler walks: a node has a kind,
  ordered children and the image of its first token.
*/
module NVelocityAst {
  import opened Wrappers
  import opened ExpressionTree

  datatype NodeKind = IfStatementNode | ElseStatementNode | ElseIfStatementNode | OtherNode(typeName: string)

  datatype Node = Node(kind: NodeKind, children: seq<Node>, firstToken: string)

  /** `GetChild(i)`: a child past the last one is an index error. */
  function GetChild(n: Node, i: nat): (r: Result<Node>)
    ensures r.Ok? <==> i < |n.children|
    ensures r.Ok? ==> r.value == n.children[i]
    ensures r.Err? ==> r.error == IndexOutOfRange
  {
    if i < |n.children| then Ok(n.children[i]) else Err(IndexOutOfRange)
  }

  /**
    The converter's two entry points, which turn a node into an operand or a
    block. Either may throw (a null node, a node of the wrong kind, a node type
    it does not support, or whatever the operand conversion throws), so each
    returns a `Result`.
  */
  datatype Converter = Converter(expr: Node -> Result<Expr>, block: Node -> Result<Expr>)
}
