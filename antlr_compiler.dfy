/**
  The visitor that turns the ANTLR parse tree of a template into expression
  nodes: blocks, text, references (a variable followed by property and method
  parts), literals, lists and ranges, `#set`, `#if`/`#elseif`/`#else`, the
  boolean, comparison and arithmetic operators, and custom directives.
*/
module AntlrCompiler {
  import opened Wrappers
  import opened HostTypes
  import opened ExpressionTree
  import opened Strings
  import UnrecognisedDirective
  import SetDirective

  /**
    An ANTLR token type, the integer `Symbol.Type` of a terminal node.  The
    generated parser's constants for the operator tokens are not part of
    this model; any distinct integers serve.
  */
  type Token = int

  const PLUS: Token := 1
  const MINUS: Token := 2
  const MULTIPLY: Token := 3
  const DIVIDE: Token := 4
  const MODULO: Token := 5
  const LESSTHAN: Token := 6
  const GREATERTHAN: Token := 7
  const LESSTHANOREQUAL: Token := 8
  const GREATERTHANOREQUAL: Token := 9
  const EQUAL: Token := 10
  const NOTEQUAL: Token := 11

  /** The parse-tree contexts, one constructor per grammar rule the visitor handles. */
  datatype Ctx =
    | TemplateCtx(block: Ctx)
    | BlockCtx(items: seq<Ctx>)
    | CommentCtx
    | BlockCommentCtx
    | TextCtx(text: string)
    | ReferenceCtx(body: Ctx, fullText: string, hasExclamation: bool, hasLeftCurley: bool)
    | ReferenceBodyCtx(variable: string, parts: seq<Ctx>)
    | VariableCtx(identifier: string)
    | PropertyInvocationCtx(identifier: string)
    | MethodInvocationCtx(identifier: string, arguments: seq<Ctx>)
    | PrimaryCtx(inner: Ctx)
    | IntegerCtx(text: string)
    | FloatCtx(text: string)
    | BooleanCtx(text: string)
    | StringCtx(text: string)
    | ListCtx(elements: seq<Ctx>)
    | RangeCtx(from: Ctx, to: Ctx)
    | SetDirectiveCtx(reference: Ctx, expression: Ctx)
    | IfBlockCtx(condition: Ctx, ifBlock: Ctx, elseIfs: seq<ElseIfBlock>, elseBlock: Option<Ctx>)
    | UnaryCtx(children: seq<Ctx>)
    | MathematicalCtx(children: seq<Ctx>)          // a multiplicative or additive expression
    | ComparisonCtx(children: seq<Ctx>)            // a relational or equality expression
    | OrCtx(left: Option<Ctx>, right: Ctx)         // `expression || and_expression`, or the and_expression alone
    | AndCtx(left: Option<Ctx>, right: Ctx)        // `and_expression && equality_expression`, or the latter alone
    | CustomDirectiveCtx(name: string, directiveText: string, directiveArguments: seq<Ctx>, hasBlock: bool, directiveBlock: seq<Ctx>)
    | DirectiveWordCtx(word: string)
    | ParenthesisedCtx(inner: Ctx)
    | TerminalNode(token: Token)

  datatype ElseIfBlock = ElseIfBlock(elseIfCondition: Ctx, elseIfBody: Ctx)

  /**
    A custom directive the compiler was given: its name, whether it takes a
    block, and its builder, which may throw (`Err`) or return null (`Ok(None)`).
  */
  datatype DirectiveHandler = DirectiveHandler(
    handlerName: string,
    isBlockDirective: bool,
    build: (seq<Expr>, Option<Expr>) -> Result<Option<Expr>>)

  /** The compiler's constructor: a null list of custom directives is an empty one. */
  function Compiler(customDirectives: Option<seq<DirectiveHandler>>): (handlers: seq<DirectiveHandler>)
    ensures customDirectives.None? ==> handlers == []
    ensures customDirectives.Some? ==> handlers == customDirectives.value
  {
    if customDirectives.None? then [] else customDirectives.value
  }

  /** `VisitBoolean`: exactly the texts `true` and `false` are booleans. */
  function VisitBoolean(text: string): (r: Result<Expr>)
    ensures r.Ok? <==> text == "true" || text == "false"
    ensures r.Ok? ==> r.value == Const(BoolLit(text == "true"))
    ensures r.Err? ==> r.error.InvalidOperation?
  {
    if text == "true" then Ok(Const(BoolLit(true)))
    else if text == "false" then Ok(Const(BoolLit(false)))
    else Err(InvalidOperation("'$" + text + "' is not a valid boolean expression"))
  }

  /** `VisitString`: the token text without its first and last character (empty when there are fewer than two). */
  function Unquote(text: string): (r: string)
    ensures |text| >= 2 ==> |r| == |text| - 2 && forall i | 0 <= i < |r| :: r[i] == text[i + 1]
    ensures |text| < 2 ==> r == []
  {
    if |text| < 2 then [] else text[1..|text| - 1]
  }

  /** Quoting then unquoting gives back the string, whatever the quote characters. */
  lemma {:induction false} UnquoteOfQuoted(open: char, s: string, close: char)
    ensures Unquote([open] + s + [close]) == s
  {
    var q := [open] + s + [close];
    assert q[1..|q| - 1] == s;
  }

  /** The arithmetic operator a token stands for. */
  function MathOperation(t: Token): (r: Result<MathOp>)
    ensures r.Err? ==> r.error == ArgumentOutOfRange("context")
  {
    if t == PLUS then Ok(Add)
    else if t == MINUS then Ok(Subtract)
    else if t == MULTIPLY then Ok(Multiply)
    else if t == DIVIDE then Ok(Divide)
    else if t == MODULO then Ok(Modulo)
    else Err(ArgumentOutOfRange("context"))
  }

  /** The comparison operator a token stands for. */
  function ComparisonOperation(t: Token): (r: Result<ComparisonOp>)
    ensures r.Err? ==> r.error == ArgumentOutOfRange("context")
  {
    if t == LESSTHAN then Ok(LessThan)
    else if t == GREATERTHAN then Ok(GreaterThan)
    else if t == LESSTHANOREQUAL then Ok(LessThanOrEqual)
    else if t == GREATERTHANOREQUAL then Ok(GreaterThanOrEqual)
    else if t == EQUAL then Ok(Equal)
    else if t == NOTEQUAL then Ok(NotEqual)
    else Err(ArgumentOutOfRange("context"))
  }

  /** The token that spells each arithmetic operator. */
  function MathToken(op: MathOp): Token {
    match op
    case Add => PLUS
    case Subtract => MINUS
    case Multiply => MULTIPLY
    case Divide => DIVIDE
    case Modulo => MODULO
  }

  /** The token that spells each comparison operator. */
  function ComparisonToken(op: ComparisonOp): Token {
    match op
    case LessThan => LESSTHAN
    case GreaterThan => GREATERTHAN
    case LessThanOrEqual => LESSTHANOREQUAL
    case GreaterThanOrEqual => GREATERTHANOREQUAL
    case Equal => EQUAL
    case NotEqual => NOTEQUAL
  }

  /**
    Each operator token maps to exactly one operation and back: the token
    maps to `op` exactly when it is the token spelling `op`.
  */
  lemma {:induction false} OperatorTokensAreExact(t: Token, m: MathOp, c: ComparisonOp)
    ensures MathOperation(t) == Ok(m) <==> t == MathToken(m)
    ensures ComparisonOperation(t) == Ok(c) <==> t == ComparisonToken(c)
    ensures MathOperation(t).Ok? ==> ComparisonOperation(t).Err?
  {
  }

  /** The custom directives registered under exactly this name. */
  function Matching(handlers: seq<DirectiveHandler>, name: string): (r: seq<DirectiveHandler>)
    ensures |r| <= |handlers|
    ensures forall i | 0 <= i < |r| :: r[i].handlerName == name && r[i] in handlers
    decreases |handlers|
  {
    if handlers == [] then []
    else
      var rest := Matching(handlers[1..], name);
      if handlers[0].handlerName == name then [handlers[0]] + rest else rest
  }

  /**
    The exceptions the visitor raises: unimplemented visits, invalid
    operations, bad operator contexts and casts, a missing block, and the
    failures of `int.Parse`; never an argument-null, ambiguity or other one.
  */
  predicate VisitorError(e: Exception) {
    e.NotImplemented? || e.InvalidOperation? || e.ArgumentOutOfRange? || e.InvalidCast?
    || e.NullReference? || e.Format? || e.Overflow?
  }

  /** An exception one of the registered builders throws for some arguments and body. */
  ghost predicate BuilderThrew(handlers: seq<DirectiveHandler>, e: Exception) {
    exists i, args, body :: 0 <= i < |handlers| && handlers[i].build(args, body) == Err(e)
  }

  /** What visiting a context yields. */
  function Visit(handlers: seq<DirectiveHandler>, ctx: Ctx): (r: Result<Expr>)
    ensures r.Err? ==> VisitorError(r.error) || BuilderThrew(handlers, r.error)
    ensures r.Ok? && ctx.BlockCtx? ==> r.value.RenderedBlock? && |r.value.children| == |ctx.items|
    ensures r.Ok? && ctx.ListCtx? ==> r.value.ObjectArray? && |r.value.elements| == |ctx.elements|
    decreases ctx, 1
  {
    match ctx
    case TemplateCtx(b) => Visit(handlers, b)
    case BlockCtx(items) =>
      var xs :- VisitAll(handlers, items);
      Ok(RenderedBlock(xs))
    case CommentCtx => Ok(Empty)
    case BlockCommentCtx => Ok(Empty)
    case TextCtx(t) => Ok(Const(StringLit(t)))
    case ReferenceCtx(body, fullText, ex, lc) =>
      var v :- Visit(handlers, body);
      Ok(Reference(v, fullText, ex, lc))
    case ReferenceBodyCtx(variable, parts) => FoldReferenceParts(handlers, Variable(variable, ObjectTy), parts)
    case VariableCtx(id) => Ok(Variable(id, ObjectTy))
    case PropertyInvocationCtx(_) => Err(NotImplemented("VisitProperty_invocation"))
    case MethodInvocationCtx(_, _) => Err(NotImplemented("VisitMethod_invocation"))
    case PrimaryCtx(inner) => Visit(handlers, inner)
    case IntegerCtx(text) =>
      var v :- ParseInt32(text);
      Ok(Const(IntLit(v)))
    case FloatCtx(text) => Ok(Const(FloatLit(text)))
    case BooleanCtx(text) => VisitBoolean(text)
    case StringCtx(text) => Ok(Const(StringLit(Unquote(text))))
    case ListCtx(elements) =>
      var xs :- VisitAll(handlers, elements);
      Ok(ObjectArray(xs))
    case RangeCtx(a, b) =>
      var l :- Visit(handlers, a);
      var r :- Visit(handlers, b);
      Ok(IntegerRange(l, r))
    case SetDirectiveCtx(_, _) => VisitAssignment(handlers, ctx)
    case IfBlockCtx(_, _, _, _) => IfBlock(handlers, ctx)
    case UnaryCtx(children) =>
      if |children| == 1 then Visit(handlers, children[0])
      else if children == [] then Err(NullReference)
      else
        var t :- Visit(handlers, children[|children| - 1]);
        Ok(Not(CoerceToBoolean(t)))
    case MathematicalCtx(children) =>
      if |children| == 1 then Visit(handlers, children[0])
      else if |children| != 3 then Err(ArgumentOutOfRange("context"))
      else if !children[1].TerminalNode? then Err(InvalidCast)
      else
        var op :- MathOperation(children[1].token);
        var l :- Visit(handlers, children[0]);
        var r :- Visit(handlers, children[2]);
        Ok(Mathematical(l, r, op))
    case ComparisonCtx(children) =>
      if |children| == 1 then Visit(handlers, children[0])
      else if |children| != 3 then Err(ArgumentOutOfRange("context"))
      else if !children[1].TerminalNode? then Err(InvalidCast)
      else
        var op :- ComparisonOperation(children[1].token);
        var l :- Visit(handlers, children[0]);
        var r :- Visit(handlers, children[2]);
        Ok(Comparison(l, r, op))
    case OrCtx(left, right) =>
      if left.None? then Visit(handlers, right)
      else
        var l :- Visit(handlers, left.value);
        var r :- Visit(handlers, right);
        Ok(OrElse(CoerceToBoolean(l), CoerceToBoolean(r)))
    case AndCtx(left, right) =>
      if left.None? then Visit(handlers, right)
      else
        var l :- Visit(handlers, left.value);
        var r :- Visit(handlers, right);
        Ok(AndAlso(CoerceToBoolean(l), CoerceToBoolean(r)))
    case CustomDirectiveCtx(_, _, _, _, _) => CustomDirective(handlers, ctx)
    case DirectiveWordCtx(word) => Ok(DirectiveWord(word))
    case ParenthesisedCtx(inner) => Visit(handlers, inner)
    case TerminalNode(_) => Err(InvalidOperation("Terminal nodes should not be visited directly"))
  }

  /** Visiting a list of contexts in order; the first failure is the result. */
  function VisitAll(handlers: seq<DirectiveHandler>, cs: seq<Ctx>): (r: Result<seq<Expr>>)
    ensures r.Err? ==> VisitorError(r.error) || BuilderThrew(handlers, r.error)
    ensures r.Ok? ==> |r.value| == |cs|
    decreases cs, 0
  {
    if cs == [] then Ok([])
    else
      var x :- Visit(handlers, cs[0]);
      var xs :- VisitAll(handlers, cs[1..]);
      Ok([x] + xs)
  }

  /** One part of a reference body applied to the chain so far: a property or a method; any other context leaves it unchanged. */
  function ApplyPart(handlers: seq<DirectiveHandler>, result: Expr, part: Ctx): (r: Result<Expr>)
    ensures r.Err? ==> VisitorError(r.error) || BuilderThrew(handlers, r.error)
    decreases part
  {
    match part
    case PropertyInvocationCtx(name) => Ok(PropertyAccess(result, name))
    case MethodInvocationCtx(name, arguments) =>
      var args :- VisitAll(handlers, arguments);
      Ok(MethodInvocation(result, name, args))
    case _ => Ok(result)
  }

  /** The reference body after the variable: its parts applied left to right. */
  function FoldReferenceParts(handlers: seq<DirectiveHandler>, result: Expr, parts: seq<Ctx>): (r: Result<Expr>)
    ensures r.Err? ==> VisitorError(r.error) || BuilderThrew(handlers, r.error)
    decreases parts, 0
  {
    if parts == [] then Ok(result)
    else
      var next :- ApplyPart(handlers, result, parts[0]);
      FoldReferenceParts(handlers, next, parts[1..])
  }

  /** `VisitAssignment`: a left side that visits to a method invocation is refused before the right side is visited. */
  function VisitAssignment(handlers: seq<DirectiveHandler>, ctx: Ctx): (r: Result<Expr>)
    requires ctx.SetDirectiveCtx?
    ensures r.Err? ==> VisitorError(r.error) || BuilderThrew(handlers, r.error)
    ensures r.Ok? ==> r.value.Assignment? && !r.value.left.MethodInvocation?
    ensures Visit(handlers, ctx.reference).Ok? && Visit(handlers, ctx.reference).value.MethodInvocation? ==>
              r == Err(InvalidOperation("Cannot assign to a method"))
    ensures Visit(handlers, ctx.reference).Ok? && !Visit(handlers, ctx.reference).value.MethodInvocation? ==>
              (r.Ok? <==> Visit(handlers, ctx.expression).Ok?)
    decreases ctx, 0
  {
    var left :- Visit(handlers, ctx.reference);
    if left.MethodInvocation? then Err(InvalidOperation("Cannot assign to a method"))
    else
      var right :- Visit(handlers, ctx.expression);
      Ok(Assignment(left, right))
  }

  /** The else-if blocks nested over the false content, the last one innermost (and visited first). */
  function ElseIfChain(handlers: seq<DirectiveHandler>, elseIfs: seq<ElseIfBlock>, falseContent: Expr): (r: Result<Expr>)
    ensures r.Err? ==> VisitorError(r.error) || BuilderThrew(handlers, r.error)
    ensures r.Ok? && elseIfs != [] ==> r.value.IfThenElse? && r.value.condition.CoerceToBoolean?
    ensures elseIfs == [] ==> r == Ok(falseContent)
    decreases elseIfs, 0
  {
    if elseIfs == [] then Ok(falseContent)
    else
      var rest :- ElseIfChain(handlers, elseIfs[1..], falseContent);
      VisitElseIf(handlers, elseIfs[0], rest)
  }

  /** One else-if block over the content built from the blocks after it: condition first, then body. */
  function VisitElseIf(handlers: seq<DirectiveHandler>, elseIf: ElseIfBlock, falseContent: Expr): (r: Result<Expr>)
    ensures r.Err? ==> VisitorError(r.error) || BuilderThrew(handlers, r.error)
    ensures r.Ok? ==> r.value.IfThenElse? && r.value.condition.CoerceToBoolean? && r.value.ifFalse == falseContent
    decreases elseIf, 0
  {
    var c :- Visit(handlers, elseIf.elseIfCondition);
    var b :- Visit(handlers, elseIf.elseIfBody);
    Ok(IfThenElse(CoerceToBoolean(c), b, falseContent))
  }

  /** `VisitIf_block`: the else block (or the empty expression), the else-ifs over it, then the condition and the true block. */
  function IfBlock(handlers: seq<DirectiveHandler>, ctx: Ctx): (r: Result<Expr>)
    requires ctx.IfBlockCtx?
    ensures r.Err? ==> VisitorError(r.error) || BuilderThrew(handlers, r.error)
    ensures r.Ok? ==> r.value.IfThenElse? && r.value.condition.CoerceToBoolean?
    ensures r.Ok? ==> Visit(handlers, ctx.condition) == Ok(r.value.condition.operand)
                      && Visit(handlers, ctx.ifBlock) == Ok(r.value.ifTrue)
    decreases ctx, 0
  {
    var falseContent :- if ctx.elseBlock.None? then Ok(Empty) else Visit(handlers, ctx.elseBlock.value);
    var chain :- ElseIfChain(handlers, ctx.elseIfs, falseContent);
    var c :- Visit(handlers, ctx.condition);
    var t :- Visit(handlers, ctx.ifBlock);
    Ok(IfThenElse(CoerceToBoolean(c), t, chain))
  }

  /**
    `VisitCustom_directive`: an unknown name gives an unrecognised directive
    carrying the directive's full text; two handlers of the name are an
    error; otherwise the arguments, and the block of a block directive, are
    visited and handed to the handler, whose null result fails.
  */
  function CustomDirective(handlers: seq<DirectiveHandler>, ctx: Ctx): (r: Result<Expr>)
    requires ctx.CustomDirectiveCtx?
    ensures r.Err? ==> VisitorError(r.error) || BuilderThrew(handlers, r.error)
    ensures Matching(handlers, ctx.name) == [] ==>
              r == UnrecognisedDirective.Create(Some(ctx.name), Some(ctx.directiveText))
    ensures |Matching(handlers, ctx.name)| > 1 ==>
              r == Err(InvalidOperation("Sequence contains more than one matching element"))
    ensures |Matching(handlers, ctx.name)| == 1 && VisitAll(handlers, ctx.directiveArguments).Err? ==>
              r == Err(VisitAll(handlers, ctx.directiveArguments).error)
    ensures var m := Matching(handlers, ctx.name);
            |m| == 1 && VisitAll(handlers, ctx.directiveArguments).Ok? && m[0].isBlockDirective && !ctx.hasBlock ==>
              r == Err(NullReference)
    ensures var m := Matching(handlers, ctx.name);
            |m| == 1 && VisitAll(handlers, ctx.directiveArguments).Ok? && !m[0].isBlockDirective ==>
              var built := m[0].build(VisitAll(handlers, ctx.directiveArguments).value, None);
              (r.Ok? <==> built.Ok? && built.value.Some?) && (built.Err? ==> r == Err(built.error))
    ensures r.Ok? && |Matching(handlers, ctx.name)| == 1 ==>
              exists args, body :: Matching(handlers, ctx.name)[0].build(args, body) == Ok(Some(r.value))
    decreases ctx, 0
  {
    var matches := Matching(handlers, ctx.name);
    if |matches| == 0 then UnrecognisedDirective.Create(Some(ctx.name), Some(ctx.directiveText))
    else if |matches| > 1 then Err(InvalidOperation("Sequence contains more than one matching element"))
    else
      var handler := matches[0];
      var args :- VisitAll(handlers, ctx.directiveArguments);
      var body :- if !handler.isBlockDirective then Ok(None)
                  else if !ctx.hasBlock then Err(NullReference)
                  else
                    var items :- VisitAll(handlers, ctx.directiveBlock);
                    Ok(Some(RenderedBlock(items)));
      var built :- handler.build(args, body);
      if built.None? then Err(InvalidOperation("Failed to visit")) else Ok(built.value)
  }

  // ---------------------------------------------------------------------
  // The visitor's loops
  // ---------------------------------------------------------------------

  /** `VisitMany`: a null or empty list gives no expressions; otherwise an array filled in order. */
  method VisitMany(handlers: seq<DirectiveHandler>, contexts: Option<seq<Ctx>>) returns (r: Result<seq<Expr>>)
    ensures contexts.None? ==> r == Ok([])
    ensures contexts.Some? ==> r == VisitAll(handlers, contexts.value)
  {
    if contexts.None? || |contexts.value| == 0 {
      return Ok([]);
    }
    var cs := contexts.value;
    var visited := new Expr[|cs|](_ => Empty);
    var i := 0;
    while i < |cs|
      invariant 0 <= i <= |cs|
      invariant forall k | 0 <= k < i :: Visit(handlers, cs[k]) == Ok(visited[k])
    {
      var v := Visit(handlers, cs[i]);
      if v.Err? {
        VisitAllFirstError(handlers, cs, i);
        return Err(v.error);
      }
      visited[i] := v.value;
      i := i + 1;
    }
    VisitAllPointwise(handlers, cs);
    assert VisitAll(handlers, cs).value == visited[..];
    r := Ok(visited[..]);
  }

  /** `VisitReference_body`: starts from the variable and applies each part in turn. */
  method VisitReferenceBody(handlers: seq<DirectiveHandler>, variable: string, further: seq<Ctx>) returns (r: Result<Expr>)
    ensures r == FoldReferenceParts(handlers, Variable(variable, ObjectTy), further)
  {
    var result := Variable(variable, ObjectTy);
    var i := 0;
    while i < |further|
      invariant 0 <= i <= |further|
      invariant FoldReferenceParts(handlers, result, further[i..]) == FoldReferenceParts(handlers, Variable(variable, ObjectTy), further)
    {
      var inner := further[i];
      assert further[i..][0] == inner && further[i..][1..] == further[i + 1..];
      if inner.PropertyInvocationCtx? {
        result := PropertyAccess(result, inner.identifier);
      } else if inner.MethodInvocationCtx? {
        var args := VisitMany(handlers, Some(inner.arguments));
        if args.Err? {
          return Err(args.error);
        }
        result := MethodInvocation(result, inner.identifier, args.value);
      }
      i := i + 1;
    }
    assert further[i..] == [];
    r := Ok(result);
  }

  /** `VisitIf_block`: the false content, then the else-ifs from the last to the first, then the condition and the true block. */
  method VisitIfBlock(handlers: seq<DirectiveHandler>, ctx: Ctx) returns (r: Result<Expr>)
    requires ctx.IfBlockCtx?
    ensures r == IfBlock(handlers, ctx)
  {
    var falseContent: Expr;
    if ctx.elseBlock.None? {
      falseContent := Empty;
    } else {
      var e := Visit(handlers, ctx.elseBlock.value);
      if e.Err? {
        return Err(e.error);
      }
      falseContent := e.value;
    }
    ghost var bottom := falseContent;
    var elseIfs := ctx.elseIfs;
    var i := |elseIfs|;
    assert elseIfs[i..] == [];
    while i > 0
      invariant 0 <= i <= |elseIfs|
      invariant ElseIfChain(handlers, elseIfs[i..], bottom) == Ok(falseContent)
    {
      i := i - 1;
      var elseIf := elseIfs[i];
      assert elseIfs[i..][0] == elseIf && elseIfs[i..][1..] == elseIfs[i + 1..];
      var c := Visit(handlers, elseIf.elseIfCondition);
      if c.Err? {
        ChainErrorPropagates(handlers, elseIfs, bottom, i);
        return Err(c.error);
      }
      var b := Visit(handlers, elseIf.elseIfBody);
      if b.Err? {
        ChainErrorPropagates(handlers, elseIfs, bottom, i);
        return Err(b.error);
      }
      falseContent := IfThenElse(CoerceToBoolean(c.value), b.value, falseContent);
    }
    assert elseIfs[i..] == elseIfs;
    var c := Visit(handlers, ctx.condition);
    if c.Err? {
      return Err(c.error);
    }
    var t := Visit(handlers, ctx.ifBlock);
    if t.Err? {
      return Err(t.error);
    }
    r := Ok(IfThenElse(CoerceToBoolean(c.value), t.value, falseContent));
  }

  /** A failure in the chain built from a suffix of the else-ifs is the failure of the whole chain. */
  lemma {:induction false} ChainErrorPropagates(handlers: seq<DirectiveHandler>, elseIfs: seq<ElseIfBlock>, bottom: Expr, k: nat)
    requires k <= |elseIfs|
    requires ElseIfChain(handlers, elseIfs[k..], bottom).Err?
    ensures ElseIfChain(handlers, elseIfs, bottom) == ElseIfChain(handlers, elseIfs[k..], bottom)
    decreases k
  {
    if k > 0 {
      assert elseIfs[1..][k - 1..] == elseIfs[k..];
      ChainErrorPropagates(handlers, elseIfs[1..], bottom, k - 1);
    }
  }

  /** `VisitMany` keeps length and order: it succeeds exactly when every context visits, and then holds their results in order. */
  lemma {:induction false} VisitAllPointwise(handlers: seq<DirectiveHandler>, cs: seq<Ctx>)
    ensures VisitAll(handlers, cs).Ok? <==> forall k | 0 <= k < |cs| :: Visit(handlers, cs[k]).Ok?
    ensures VisitAll(handlers, cs).Ok? ==>
      |VisitAll(handlers, cs).value| == |cs|
      && forall k | 0 <= k < |cs| :: VisitAll(handlers, cs).value[k] == Visit(handlers, cs[k]).value
    decreases |cs|
  {
    if cs != [] {
      VisitAllPointwise(handlers, cs[1..]);
      assert forall k | 1 <= k < |cs| :: cs[1..][k - 1] == cs[k];
      if VisitAll(handlers, cs).Ok? {
        var xs := VisitAll(handlers, cs).value;
        forall k | 0 <= k < |cs|
          ensures Visit(handlers, cs[k]).Ok? && xs[k] == Visit(handlers, cs[k]).value
        {
          if k > 0 {
            assert cs[1..][k - 1] == cs[k];
          }
        }
      } else if Visit(handlers, cs[0]).Ok? {
        assert VisitAll(handlers, cs[1..]).Err?;
        var k' :| 0 <= k' < |cs[1..]| && Visit(handlers, cs[1..][k']).Err?;
        assert Visit(handlers, cs[k' + 1]).Err?;
      }
    }
  }

  /** The first context that fails to visit decides `VisitMany`'s error. */
  lemma {:induction false} VisitAllFirstError(handlers: seq<DirectiveHandler>, cs: seq<Ctx>, i: nat)
    requires i < |cs| && Visit(handlers, cs[i]).Err?
    requires forall k | 0 <= k < i :: Visit(handlers, cs[k]).Ok?
    ensures VisitAll(handlers, cs) == Err(Visit(handlers, cs[i]).error)
    decreases i
  {
    if i > 0 {
      assert forall k | 0 <= k < i - 1 :: cs[1..][k] == cs[k + 1];
      VisitAllFirstError(handlers, cs[1..], i - 1);
    }
  }

  // ---------------------------------------------------------------------
  // Properties of the visitor
  // ---------------------------------------------------------------------

  /** No handler matches exactly when none is registered under the name. */
  lemma {:induction false} MatchingEmptyIff(handlers: seq<DirectiveHandler>, name: string)
    ensures Matching(handlers, name) == [] <==> forall i | 0 <= i < |handlers| :: handlers[i].handlerName != name
    decreases |handlers|
  {
    if handlers != [] {
      MatchingEmptyIff(handlers[1..], name);
      assert forall i | 1 <= i < |handlers| :: handlers[1..][i - 1] == handlers[i];
    }
  }

  /** The names along a reference chain: the variable, then each property or method name in order. */
  function ChainNames(e: Expr): seq<string> {
    match e
    case Variable(n, _) => [n]
    case PropertyAccess(t, n) => ChainNames(t) + [n]
    case MethodInvocation(t, n, _) => ChainNames(t) + [n]
    case _ => []
  }

  /** The names of the property and method parts among a reference body's contexts, in source order. */
  function PartNames(parts: seq<Ctx>): seq<string>
    decreases |parts|
  {
    if parts == [] then []
    else
      PartName(parts[0]) + PartNames(parts[1..])
  }

  /** The name a part adds to the chain: its identifier when it is a property or a method. */
  function PartName(part: Ctx): seq<string> {
    if part.PropertyInvocationCtx? || part.MethodInvocationCtx? then [part.identifier] else []
  }

  lemma {:induction false} ApplyPartNames(handlers: seq<DirectiveHandler>, start: Expr, part: Ctx)
    requires ApplyPart(handlers, start, part).Ok?
    ensures ChainNames(ApplyPart(handlers, start, part).value) == ChainNames(start) + PartName(part)
  {
  }

  lemma {:induction false} FoldReferenceStep(handlers: seq<DirectiveHandler>, start: Expr, parts: seq<Ctx>)
    requires parts != [] && FoldReferenceParts(handlers, start, parts).Ok?
    ensures ApplyPart(handlers, start, parts[0]).Ok?
    ensures FoldReferenceParts(handlers, start, parts)
         == FoldReferenceParts(handlers, ApplyPart(handlers, start, parts[0]).value, parts[1..])
    ensures PartNames(parts) == PartName(parts[0]) + PartNames(parts[1..])
  {
  }

  /** Folding a reference body keeps source order: the chain's names are the start's names followed by the parts' names. */
  lemma {:induction false} ReferencePartsKeepOrder(handlers: seq<DirectiveHandler>, start: Expr, parts: seq<Ctx>)
    requires FoldReferenceParts(handlers, start, parts).Ok?
    ensures ChainNames(FoldReferenceParts(handlers, start, parts).value) == ChainNames(start) + PartNames(parts)
    decreases |parts|
  {
    if parts != [] {
      FoldReferenceStep(handlers, start, parts);
      var next := ApplyPart(handlers, start, parts[0]).value;
      ApplyPartNames(handlers, start, parts[0]);
      ReferencePartsKeepOrder(handlers, next, parts[1..]);
      assert ChainNames(start) + PartName(parts[0]) + PartNames(parts[1..])
          == ChainNames(start) + (PartName(parts[0]) + PartNames(parts[1..]));
    }
  }

  /** A reference `$v.a.b()` visits to the chain whose names are `v`, `a`, `b`. */
  lemma {:induction false} ReferenceBodyNames(handlers: seq<DirectiveHandler>, variable: string, parts: seq<Ctx>)
    requires Visit(handlers, ReferenceBodyCtx(variable, parts)).Ok?
    ensures ChainNames(Visit(handlers, ReferenceBodyCtx(variable, parts)).value) == [variable] + PartNames(parts)
  {
    ReferencePartsKeepOrder(handlers, Variable(variable, ObjectTy), parts);
  }

  /** The node reached by following `k` false branches of a chain of conditionals. */
  function FalseBranch(e: Expr, k: nat): Expr
    decreases k
  {
    if k == 0 || !e.IfThenElse? then e else FalseBranch(e.ifFalse, k - 1)
  }

  /**
    The else-ifs nest in source order: the `k`-th false branch tests the
    `k`-th else-if's coerced condition, and below the last one lies the
    false content.
  */
  lemma {:induction false} ElseIfsNestInOrder(handlers: seq<DirectiveHandler>, elseIfs: seq<ElseIfBlock>, bottom: Expr, k: nat)
    requires ElseIfChain(handlers, elseIfs, bottom).Ok? && k <= |elseIfs|
    ensures k == |elseIfs| ==> FalseBranch(ElseIfChain(handlers, elseIfs, bottom).value, k) == bottom
    ensures k < |elseIfs| ==>
      Visit(handlers, elseIfs[k].elseIfCondition).Ok? && Visit(handlers, elseIfs[k].elseIfBody).Ok?
      && FalseBranch(ElseIfChain(handlers, elseIfs, bottom).value, k)
         == IfThenElse(CoerceToBoolean(Visit(handlers, elseIfs[k].elseIfCondition).value),
                       Visit(handlers, elseIfs[k].elseIfBody).value,
                       FalseBranch(ElseIfChain(handlers, elseIfs, bottom).value, k + 1))
    decreases k
  {
    if elseIfs != [] {
      var e := ElseIfChain(handlers, elseIfs, bottom).value;
      var rest := ElseIfChain(handlers, elseIfs[1..], bottom);
      assert rest.Ok?;
      assert e.IfThenElse? && e.ifFalse == rest.value;
      if k > 0 {
        ElseIfsNestInOrder(handlers, elseIfs[1..], bottom, k - 1);
        assert elseIfs[1..][k - 1..] == elseIfs[k..];
        if k < |elseIfs| {
          assert elseIfs[1..][k - 1] == elseIfs[k];
        }
      }
    }
  }

  /** The `#if` block is an if-then-else on the coerced condition whose false branch is the else-if chain over the else block or the empty expression. */
  lemma {:induction false} IfBlockShape(handlers: seq<DirectiveHandler>, ctx: Ctx)
    requires ctx.IfBlockCtx? && IfBlock(handlers, ctx).Ok?
    ensures var e := IfBlock(handlers, ctx).value;
      var bottom := if ctx.elseBlock.None? then Empty else Visit(handlers, ctx.elseBlock.value).value;
      e.IfThenElse? && e.condition == CoerceToBoolean(Visit(handlers, ctx.condition).value)
      && e.ifTrue == Visit(handlers, ctx.ifBlock).value
      && e.ifFalse == ElseIfChain(handlers, ctx.elseIfs, bottom).value
      && FalseBranch(e.ifFalse, |ctx.elseIfs|) == bottom
  {
    var bottom := if ctx.elseBlock.None? then Empty else Visit(handlers, ctx.elseBlock.value).value;
    ElseIfsNestInOrder(handlers, ctx.elseIfs, bottom, |ctx.elseIfs|);
  }

  /** A binary context with one child is that child; with neither one nor three children it is refused. */
  lemma {:induction false} BinaryChildCount(handlers: seq<DirectiveHandler>, children: seq<Ctx>)
    ensures |children| == 1 ==>
      Visit(handlers, MathematicalCtx(children)) == Visit(handlers, children[0])
      && Visit(handlers, ComparisonCtx(children)) == Visit(handlers, children[0])
    ensures |children| != 1 && |children| != 3 ==>
      Visit(handlers, MathematicalCtx(children)) == Err(ArgumentOutOfRange("context"))
      && Visit(handlers, ComparisonCtx(children)) == Err(ArgumentOutOfRange("context"))
  {
  }

  /** With three children, the middle token picks the operation; operands are visited left then right. */
  lemma {:induction false} BinaryOperation(handlers: seq<DirectiveHandler>, left: Ctx, right: Ctx, op: MathOp, cmp: ComparisonOp)
    requires Visit(handlers, left).Ok? && Visit(handlers, right).Ok?
    ensures Visit(handlers, MathematicalCtx([left, TerminalNode(MathToken(op)), right]))
            == Ok(Mathematical(Visit(handlers, left).value, Visit(handlers, right).value, op))
    ensures Visit(handlers, ComparisonCtx([left, TerminalNode(ComparisonToken(cmp)), right]))
            == Ok(Comparison(Visit(handlers, left).value, Visit(handlers, right).value, cmp))
    ensures Visit(handlers, MathematicalCtx([left, TerminalNode(ComparisonToken(cmp)), right])) == Err(ArgumentOutOfRange("context"))
    ensures Visit(handlers, ComparisonCtx([left, TerminalNode(MathToken(op)), right])) == Err(ArgumentOutOfRange("context"))
  {
    MathematicalVisit(handlers, left, right, op);
    ComparisonVisit(handlers, left, right, cmp);
    CrossedOperatorRefused(handlers, left, right, op, cmp);
  }

  lemma {:induction false} MathematicalVisit(handlers: seq<DirectiveHandler>, left: Ctx, right: Ctx, op: MathOp)
    requires Visit(handlers, left).Ok? && Visit(handlers, right).Ok?
    ensures Visit(handlers, MathematicalCtx([left, TerminalNode(MathToken(op)), right]))
            == Ok(Mathematical(Visit(handlers, left).value, Visit(handlers, right).value, op))
  {
    OperatorTokensAreExact(MathToken(op), op, LessThan);
  }

  lemma {:induction false} ComparisonVisit(handlers: seq<DirectiveHandler>, left: Ctx, right: Ctx, cmp: ComparisonOp)
    requires Visit(handlers, left).Ok? && Visit(handlers, right).Ok?
    ensures Visit(handlers, ComparisonCtx([left, TerminalNode(ComparisonToken(cmp)), right]))
            == Ok(Comparison(Visit(handlers, left).value, Visit(handlers, right).value, cmp))
  {
    OperatorTokensAreExact(ComparisonToken(cmp), Add, cmp);
  }

  lemma {:induction false} CrossedOperatorRefused(handlers: seq<DirectiveHandler>, left: Ctx, right: Ctx, op: MathOp, cmp: ComparisonOp)
    requires Visit(handlers, left).Ok? && Visit(handlers, right).Ok?
    ensures Visit(handlers, MathematicalCtx([left, TerminalNode(ComparisonToken(cmp)), right])) == Err(ArgumentOutOfRange("context"))
    ensures Visit(handlers, ComparisonCtx([left, TerminalNode(MathToken(op)), right])) == Err(ArgumentOutOfRange("context"))
  {
    ComparisonTokenInMathematical(handlers, left, right, cmp);
    MathTokenInComparison(handlers, left, right, op);
  }

  lemma {:induction false} ComparisonTokenInMathematical(handlers: seq<DirectiveHandler>, left: Ctx, right: Ctx, cmp: ComparisonOp)
    ensures Visit(handlers, MathematicalCtx([left, TerminalNode(ComparisonToken(cmp)), right])) == Err(ArgumentOutOfRange("context"))
  {
    OperatorTokensAreExact(ComparisonToken(cmp), Add, cmp);
  }

  lemma {:induction false} MathTokenInComparison(handlers: seq<DirectiveHandler>, left: Ctx, right: Ctx, op: MathOp)
    ensures Visit(handlers, ComparisonCtx([left, TerminalNode(MathToken(op)), right])) == Err(ArgumentOutOfRange("context"))
  {
    OperatorTokensAreExact(MathToken(op), op, LessThan);
  }

  /**
    `||` and `&&` with one child pass it through; with two, both sides are
    coerced to boolean and joined by the short-circuit operator, and a failing
    left side is the failure of the whole.
  */
  lemma {:induction false} LogicalVisit(handlers: seq<DirectiveHandler>, left: Ctx, right: Ctx)
    ensures Visit(handlers, OrCtx(None, right)) == Visit(handlers, right)
    ensures Visit(handlers, AndCtx(None, right)) == Visit(handlers, right)
    ensures Visit(handlers, left).Err? ==>
              Visit(handlers, OrCtx(Some(left), right)) == Err(Visit(handlers, left).error) &&
              Visit(handlers, AndCtx(Some(left), right)) == Err(Visit(handlers, left).error)
    ensures Visit(handlers, left).Ok? && Visit(handlers, right).Ok? ==>
              var l := CoerceToBoolean(Visit(handlers, left).value);
              var r := CoerceToBoolean(Visit(handlers, right).value);
              Visit(handlers, OrCtx(Some(left), right)) == Ok(OrElse(l, r)) &&
              Visit(handlers, AndCtx(Some(left), right)) == Ok(AndAlso(l, r))
  {
  }

  /** A left side that visits to a method invocation is refused whatever the right side is. */
  lemma {:induction false} AssignmentToMethodRefused(handlers: seq<DirectiveHandler>, reference: Ctx, expression: Ctx)
    requires Visit(handlers, reference).Ok? && Visit(handlers, reference).value.MethodInvocation?
    ensures Visit(handlers, SetDirectiveCtx(reference, expression)) == Err(InvalidOperation("Cannot assign to a method"))
  {
  }

  /**
    A `#set` whose left side is a reference is never refused, since a
    reference visits to a reference node; `#set($v.m() = x)` therefore
    becomes an assignment that the set directive lowers to nothing.
  */
  lemma {:induction false} AssignedMethodCallIsNoOp(h: Host, handlers: seq<DirectiveHandler>, variable: string, name: string,
                                 fullText: string, ex: bool, lc: bool, expression: Ctx)
    requires Visit(handlers, expression).Ok?
    ensures var reference := ReferenceCtx(ReferenceBodyCtx(variable, [MethodInvocationCtx(name, [])]), fullText, ex, lc);
      var visited := Visit(handlers, SetDirectiveCtx(reference, expression));
      visited.Ok? && visited.value.Assignment?
      && SetDirective.Reduce(h, SetDirective.SetNode(visited.value.left, visited.value.right)) == Ok(SetDirective.NoOp)
  {
    var call := MethodInvocation(Variable(variable, ObjectTy), name, []);
    var reference := ReferenceCtx(ReferenceBodyCtx(variable, [MethodInvocationCtx(name, [])]), fullText, ex, lc);
    MethodCallReference(handlers, variable, name, fullText, ex, lc);
    var right := Visit(handlers, expression).value;
    assert Visit(handlers, SetDirectiveCtx(reference, expression)) == Ok(Assignment(Reference(call, fullText, ex, lc), right));
    assert SetDirective.ReducedLeft(Reference(call, fullText, ex, lc)) == call;
  }

  /** `$v.m()` visits to a reference node around the call of `m` on `v`. */
  lemma {:induction false} MethodCallReference(handlers: seq<DirectiveHandler>, variable: string, name: string,
                                               fullText: string, ex: bool, lc: bool)
    ensures Visit(handlers, ReferenceCtx(ReferenceBodyCtx(variable, [MethodInvocationCtx(name, [])]), fullText, ex, lc))
         == Ok(Reference(MethodInvocation(Variable(variable, ObjectTy), name, []), fullText, ex, lc))
  {
    var parts := [MethodInvocationCtx(name, [])];
    var call := MethodInvocation(Variable(variable, ObjectTy), name, []);
    assert parts[1..] == [];
    assert VisitAll(handlers, []) == Ok([]);
    assert FoldReferenceParts(handlers, call, parts[1..]) == Ok(call);
    assert FoldReferenceParts(handlers, Variable(variable, ObjectTy), parts) == Ok(call);
    assert Visit(handlers, ReferenceBodyCtx(variable, parts)) == Ok(call);
  }

  /** A directive nobody registered renders as its own text. */
  lemma {:induction false} UnknownDirectiveIsUnrecognised(handlers: seq<DirectiveHandler>, ctx: Ctx)
    requires ctx.CustomDirectiveCtx?
    requires forall i | 0 <= i < |handlers| :: handlers[i].handlerName != ctx.name
    requires !IsNullOrWhiteSpace(Some(ctx.name)) && !IsNullOrWhiteSpace(Some(ctx.directiveText))
    ensures Visit(handlers, ctx) == Ok(Unrecognised(ctx.name, ctx.directiveText))
  {
    MatchingEmptyIff(handlers, ctx.name);
  }

  /** A handler registered under the name at index `i` is matched, ahead of every match after it. */
  lemma {:induction false} MatchingFrom(handlers: seq<DirectiveHandler>, name: string, i: nat)
    requires i < |handlers| && handlers[i].handlerName == name
    ensures |Matching(handlers, name)| >= 1 + |Matching(handlers[i + 1..], name)|
    decreases i
  {
    if i > 0 {
      MatchingFrom(handlers[1..], name, i - 1);
      assert handlers[1..][i..] == handlers[i + 1..];
    }
  }

  /** Two handlers registered under one name are both matched. */
  lemma {:induction false} TwoRegisteredMatchTwice(handlers: seq<DirectiveHandler>, name: string, i: nat, j: nat)
    requires i < j < |handlers| && handlers[i].handlerName == name && handlers[j].handlerName == name
    ensures |Matching(handlers, name)| > 1
  {
    MatchingFrom(handlers, name, i);
    MatchingFrom(handlers[i + 1..], name, j - i - 1);
  }

  /** Two handlers registered under the directive's name make the directive an error. */
  lemma {:induction false} DuplicateHandlersRefused(handlers: seq<DirectiveHandler>, ctx: Ctx, i: nat, j: nat)
    requires ctx.CustomDirectiveCtx? && i != j && i < |handlers| && j < |handlers|
    requires handlers[i].handlerName == ctx.name && handlers[j].handlerName == ctx.name
    ensures Visit(handlers, ctx) == Err(InvalidOperation("Sequence contains more than one matching element"))
  {
    if i < j {
      TwoRegisteredMatchTwice(handlers, ctx.name, i, j);
    } else {
      TwoRegisteredMatchTwice(handlers, ctx.name, j, i);
    }
  }

  /**
    A handler that is not a block directive is given no body, whatever the
    directive's block holds; its builder's exception is the visit's, and a
    null result fails the visit.
  */
  lemma {:induction false} InlineDirectiveIgnoresBlock(handlers: seq<DirectiveHandler>, ctx: Ctx, other: seq<Ctx>)
    requires ctx.CustomDirectiveCtx? && |Matching(handlers, ctx.name)| == 1
    requires !Matching(handlers, ctx.name)[0].isBlockDirective
    requires VisitAll(handlers, ctx.directiveArguments).Ok?
    ensures var built := Matching(handlers, ctx.name)[0].build(VisitAll(handlers, ctx.directiveArguments).value, None);
      Visit(handlers, ctx) == (if built.Err? then Err(built.error)
                               else if built.value.None? then Err(InvalidOperation("Failed to visit"))
                               else Ok(built.value.value))
    ensures Visit(handlers, ctx) == Visit(handlers, ctx.(hasBlock := !ctx.hasBlock, directiveBlock := other))
  {
  }

  /** A block directive is given its visited block as a rendered block, and fails without one. */
  lemma {:induction false} BlockDirectiveGetsBody(handlers: seq<DirectiveHandler>, ctx: Ctx)
    requires ctx.CustomDirectiveCtx? && |Matching(handlers, ctx.name)| == 1
    requires Matching(handlers, ctx.name)[0].isBlockDirective
    requires VisitAll(handlers, ctx.directiveArguments).Ok?
    ensures !ctx.hasBlock ==> Visit(handlers, ctx) == Err(NullReference)
    ensures ctx.hasBlock && VisitAll(handlers, ctx.directiveBlock).Ok? ==>
      var built := Matching(handlers, ctx.name)[0].build(VisitAll(handlers, ctx.directiveArguments).value,
                                                          Some(RenderedBlock(VisitAll(handlers, ctx.directiveBlock).value)));
      Visit(handlers, ctx) == (if built.Err? then Err(built.error)
                               else if built.value.None? then Err(InvalidOperation("Failed to visit"))
                               else Ok(built.value.value))
  {
  }
}
