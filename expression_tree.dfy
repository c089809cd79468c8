/**
  The expression-tree nodes that the template compiler builds: the node kinds
  of the velocity AST (variables, references, member and method invocations,
  directives) and the `System.Linq.Expressions` nodes the lowerings produce,
  each with the static type the tree gives it.
*/
module ExpressionTree {
  import opened Wrappers
  import opened HostTypes

  /** A constant's value; a floating-point literal keeps its text. */
  datatype Literal =
    | BoolLit(b: bool)
    | IntLit(i: int)
    | FloatLit(text: string)
    | StringLit(s: string)
    | NullLit(ty: Ty)

  datatype MathOp = Add | Subtract | Multiply | Divide | Modulo

  datatype ComparisonOp = LessThan | GreaterThan | LessThanOrEqual | GreaterThanOrEqual | Equal | NotEqual

  datatype Expr =
    | Empty                                                  // the empty (no-op) expression
    | Const(literal: Literal)
    | Variable(name: string, ty: Ty)                         // a template variable, by the type of its reduced slot
    | GlobalVariable(name: string, ty: Ty)                   // a global: read-only
    | Reference(reduced: Expr, raw: string, isSilent: bool, isFormal: bool)  // a reference, carrying what it reduces to
    | PropertyAccess(target: Expr, name: string)
    | MethodInvocation(target: Expr, name: string, arguments: seq<Expr>)
    | IndexInvocation(target: Expr, arguments: seq<Expr>)
    | MethodCall(callee: MethodInfo, arguments: seq<Expr>)   // a static call to a known method
    | Parameter(name: string, ty: Ty)                        // a local or temporary of the tree
    | TypeAs(operand: Expr, ty: Ty)
    | Convert(operand: Expr, ty: Ty)
    | CoerceToBoolean(operand: Expr)
    | Not(operand: Expr)
    | OrElse(left: Expr, right: Expr)
    | AndAlso(left: Expr, right: Expr)
    | Mathematical(left: Expr, right: Expr, mathOp: MathOp)
    | Comparison(left: Expr, right: Expr, comparisonOp: ComparisonOp)
    | IfThen(condition: Expr, ifTrue: Expr)
    | IfThenElse(condition: Expr, ifTrue: Expr, ifFalse: Expr)
    | RenderedBlock(children: seq<Expr>)
    | ObjectArray(elements: seq<Expr>)
    | IntegerRange(left: Expr, right: Expr)
    | Unrecognised(directiveName: string, text: string)
    | DirectiveWord(word: string)
    | Assignment(left: Expr, right: Expr)                    // a set directive before it is lowered
    | Directive(directiveName: string, arguments: seq<Expr>, body: Option<Expr>)  // built by a custom directive's handler
    | DynamicInvoke(memberName: string, argumentCount: nat, operands: seq<Expr>)  // a dynamic call: target, then arguments

  /** The static type of a node. Dynamic operations (member access, invocation, arithmetic) are typed object. */
  function TypeOf(e: Expr): Ty {
    match e
    case Empty => VoidTy
    case Const(l) =>
      (match l
       case BoolLit(_) => Prim(Boolean)
       case IntLit(_) => Prim(Int32)
       case FloatLit(_) => Prim(Single)
       case StringLit(_) => StringTy
       case NullLit(t) => t)
    case Variable(_, t) => t
    case GlobalVariable(_, t) => t
    case Reference(r, _, _, _) => TypeOf(r)
    case MethodCall(m, _) => m.returnType
    case Parameter(_, t) => t
    case TypeAs(_, t) => t
    case Convert(_, t) => t
    case CoerceToBoolean(_) => Prim(Boolean)
    case Not(_) => Prim(Boolean)
    case OrElse(_, _) => Prim(Boolean)
    case AndAlso(_, _) => Prim(Boolean)
    case IfThen(_, _) => VoidTy
    case IfThenElse(_, _, _) => VoidTy
    case ObjectArray(_) => ArrayOf(ObjectTy)
    case Unrecognised(_, _) => StringTy
    case Assignment(_, _) => VoidTy
    case _ => ObjectTy
  }

  /** `VelocityExpressions.ConvertIfNeeded`: a conversion node only when the types differ. */
  function ConvertIfNeeded(e: Expr, t: Ty): (r: Expr)
    ensures TypeOf(r) == t
    ensures TypeOf(e) == t ==> r == e
  {
    if TypeOf(e) == t then e else Convert(e, t)
  }
}
