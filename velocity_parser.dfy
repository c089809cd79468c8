/**
  The lexer's token kinds.  `TokenKind` is a C# enumeration, so a kind is
  an integer, and the parser's `switch` statements and `TryEat` tests
  compare integers; the kinds are numbered here in the order the parser
  names them.
*/
module Tokens {
  newtype TokenKind = k: int | 0 <= k < 23

  const Text: TokenKind := 0
  const Dollar: TokenKind := 1
  const Exclamation: TokenKind := 2
  const LeftCurley: TokenKind := 3
  const RightCurley: TokenKind := 4
  const Identifier: TokenKind := 5
  const Dot: TokenKind := 6
  const DotDot: TokenKind := 7
  const LeftParenthesis: TokenKind := 8
  const RightParenthesis: TokenKind := 9
  const LeftSquareBracket: TokenKind := 10
  const RightSquareBracket: TokenKind := 11
  const Comma: TokenKind := 12
  const Whitespace: TokenKind := 13
  const Plus: TokenKind := 14
  const Minus: TokenKind := 15
  const Multiply: TokenKind := 16
  const Divide: TokenKind := 17
  const Modulo: TokenKind := 18
  const NumericLiteral: TokenKind := 19
  const StringLiteral: TokenKind := 20
  const InterpolatedStringLiteral: TokenKind := 21
  const EndOfFile: TokenKind := 22

  /** A lexer token; a null value is modelled as the empty string. */
  datatype Token = Token(kind: TokenKind, value: string)
}

/**
  The hand-written recursive-descent parser `VelocityParser`.

  The lexer is not part of this model: the parser reads a given sequence of
  tokens, and past its end it sees `EndOfFile` for ever, as the lexer
  reports.  Every parsing routine is described twice: as a function over the
  token sequence and a position (`ExpressionAt`, `ReferenceAt`, ...), which
  is what the lemmas talk about, and as a method of the class `Parser` that
  advances its `pos` field as the source advances `_currentToken`, and that
  is proved to agree with the function.
*/
module VelocityParser {
  import opened Wrappers
  import opened Strings
  import opened Tokens

  // ---------------------------------------------------------------------
  // Syntax nodes
  // ---------------------------------------------------------------------

  datatype UnaryOperation = Not | Parenthesised

  datatype BinaryOperation = Addition | Subtraction | Multiplication | Division | Modulo | Range

  /** The root variable of a reference and the properties and methods applied to it. */
  datatype ReferenceNodePart =
    | Variable(name: string)
    | Property(name: string, target: ReferenceNodePart)
    | Method(name: string, target: ReferenceNodePart, arguments: seq<ExpressionNode>)

  datatype ExpressionNode =
    | ReferenceNode(isSilent: bool, isFormal: bool, value: ReferenceNodePart)
    | IntegerLiteralNode(intValue: int)
    /** `float.Parse` is not modelled: the literal keeps the text it was parsed from. */
    | FloatingPointLiteralNode(text: string)
    | StringNode(isInterpolated: bool, text: string)
    | UnaryExpressionNode(unary: UnaryOperation, operand: ExpressionNode)
    | BinaryExpressionNode(left: ExpressionNode, operation: BinaryOperation, right: ExpressionNode)
    | BooleanLiteralNode(boolValue: bool)
    | WordNode(name: string)
    | ListExpressionNode(elements: seq<ExpressionNode>)

  /** A child of the rendered output: literal text or a reference. */
  datatype SyntaxNode = TextNode(text: string) | ReferenceChild(reference: ExpressionNode)

  datatype RenderedOutputNode = RenderedOutputNode(children: seq<SyntaxNode>)

  /** What a parsing routine produced and the position of the token it stopped at. */
  datatype Parsed<+T> = Parsed(value: T, pos: nat)

  const UnexpectedToken := GeneralError("Unexpected Token")

  // ---------------------------------------------------------------------
  // The token stream
  // ---------------------------------------------------------------------

  /** The current token at position `p`: `EndOfFile` once the tokens run out. */
  function At(toks: seq<Token>, p: nat): Token {
    if p < |toks| then toks[p] else Token(EndOfFile, "")
  }

  /** `MoveNext`: the lexer's next token; at the end it keeps returning `EndOfFile`. */
  function Advance(toks: seq<Token>, p: nat): nat {
    if p < |toks| then p + 1 else p
  }

  /** `Eat`: the current token if it has the expected kind, an error otherwise. */
  function EatAt(toks: seq<Token>, p: nat, kind: TokenKind): (r: Result<Parsed<Token>>)
    ensures r.Ok? <==> At(toks, p).kind == kind
    ensures r.Ok? ==> r.value.value.kind == kind && r.value.value == At(toks, p)
    ensures r.Ok? && p < |toks| ==> r.value.pos == p + 1
    ensures r.Ok? && p >= |toks| ==> r.value.pos == p && kind == EndOfFile
    ensures r.Err? ==> r.error == UnexpectedToken
  {
    if At(toks, p).kind == kind then Ok(Parsed(At(toks, p), Advance(toks, p)))
    else Err(UnexpectedToken)
  }

  /** `TryEat`: the position after the current token if it has the kind, else `p`. */
  function TryEatAt(toks: seq<Token>, p: nat, kind: TokenKind): (q: nat)
    ensures q == p || q == p + 1
    ensures q == p + 1 <==> p < |toks| && toks[p].kind == kind
  {
    if At(toks, p).kind == kind then Advance(toks, p) else p
  }

  /** `TryEatWhitespace`: at most one whitespace token is skipped. */
  function SkipWhitespace(toks: seq<Token>, p: nat): (q: nat)
    ensures q == p || q == p + 1
    ensures q == p + 1 <==> p < |toks| && toks[p].kind == Whitespace
  {
    TryEatAt(toks, p, Whitespace)
  }

  // ---------------------------------------------------------------------
  // Expressions
  // ---------------------------------------------------------------------

  /**
    `Expression`: one primary expression, with a whitespace token skipped on
    either side.  Every routine that succeeds consumes at least one token.
  */
  function ExpressionAt(toks: seq<Token>, p: nat): (r: Result<Parsed<ExpressionNode>>)
    requires p <= |toks|
    ensures r.Ok? ==> p < r.value.pos <= |toks|
    decreases |toks| - p, 3
  {
    var e :- PrimaryAt(toks, SkipWhitespace(toks, p));
    Ok(Parsed(e.value, SkipWhitespace(toks, e.pos)))
  }

  /** The `switch` of `Expression`, on the kind of the expression's first token. */
  function PrimaryAt(toks: seq<Token>, q: nat): (r: Result<Parsed<ExpressionNode>>)
    requires q <= |toks|
    ensures r.Ok? ==> q < r.value.pos <= |toks|
    decreases |toks| - q, 2
  {
    var kind := At(toks, q).kind;
    if kind == LeftParenthesis then ParenthesisedAt(toks, q)
    else if kind == Exclamation then NotAt(toks, q)
    else if kind == Dollar then ReferenceAt(toks, q)
    else if kind == Minus || kind == NumericLiteral then NumberAt(toks, q)
    else if kind == Tokens.StringLiteral then StringAt(toks, q, false)
    else if kind == InterpolatedStringLiteral then StringAt(toks, q, true)
    else if kind == Identifier then BooleanLiteralOrWordAt(toks, q)
    else if kind == LeftSquareBracket then RangeOrListAt(toks, q)
    else if kind == EndOfFile then Err(GeneralError("Unexpected end of file"))
    else if kind == LeftCurley then Err(NotImplemented("Can't yet parse token LeftCurley starting an expression"))
    else Err(GeneralError("Unrecognised token parsing an expression"))
  }

  /** `Parenthesised`: `(`, one expression, `)`. */
  function ParenthesisedAt(toks: seq<Token>, p: nat): (r: Result<Parsed<ExpressionNode>>)
    requires p <= |toks|
    ensures r.Ok? ==> p < r.value.pos <= |toks|
    decreases |toks| - p, 1
  {
    var open :- EatAt(toks, p, LeftParenthesis);
    var e :- ExpressionAt(toks, open.pos);
    var close :- EatAt(toks, e.pos, RightParenthesis);
    Ok(Parsed(UnaryExpressionNode(UnaryOperation.Parenthesised, e.value), close.pos))
  }

  /** `Not`: `!` followed by one expression. */
  function NotAt(toks: seq<Token>, p: nat): (r: Result<Parsed<ExpressionNode>>)
    requires p <= |toks|
    ensures r.Ok? ==> p < r.value.pos <= |toks|
    decreases |toks| - p, 1
  {
    var bang :- EatAt(toks, p, Exclamation);
    var e :- ExpressionAt(toks, bang.pos);
    Ok(Parsed(UnaryExpressionNode(UnaryOperation.Not, e.value), e.pos))
  }

  /** `StringLiteral` and `InterpolatedString`: the token's text, tagged as interpolated or not. */
  function StringAt(toks: seq<Token>, p: nat, interpolated: bool): (r: Result<Parsed<ExpressionNode>>)
    requires p <= |toks|
    ensures r.Ok? ==> p < r.value.pos <= |toks|
  {
    var kind := if interpolated then InterpolatedStringLiteral else StringLiteral;
    var token :- EatAt(toks, p, kind);
    Ok(Parsed(StringNode(interpolated, token.value.value), token.pos))
  }

  /**
    `Number`, `IntegerLiteral` and `FloatingPointLiteral`: an optional minus
    sign, a numeric literal and, after a `.`, a second numeric literal for
    the fractional part.
  */
  function NumberAt(toks: seq<Token>, p: nat): (r: Result<Parsed<ExpressionNode>>)
    requires p <= |toks|
    ensures r.Ok? ==> p < r.value.pos <= |toks|
  {
    var negative := At(toks, p).kind == Minus;
    var number :- EatAt(toks, TryEatAt(toks, p, Minus), NumericLiteral);
    var integerPart := if negative then "-" + number.value.value else number.value.value;
    if At(toks, number.pos).kind == Dot then
      var fraction :- EatAt(toks, Advance(toks, number.pos), NumericLiteral);
      Ok(Parsed(FloatingPointLiteralNode(integerPart + "." + fraction.value.value), fraction.pos))
    else
      var n :- ParseInt32(integerPart);
      Ok(Parsed(IntegerLiteralNode(n), number.pos))
  }

  /** `BooleanLiteralOrWord`: an identifier in expression position. */
  function BooleanLiteralOrWordAt(toks: seq<Token>, p: nat): (r: Result<Parsed<ExpressionNode>>)
    requires p <= |toks|
    ensures r.Ok? <==> At(toks, p).kind == Identifier
    ensures r.Ok? ==> r.value.pos == p + 1
    ensures r.Ok? ==> (r.value.value == BooleanLiteralNode(true) <==> At(toks, p).value == "true")
    ensures r.Ok? ==> (r.value.value == BooleanLiteralNode(false) <==> At(toks, p).value == "false")
    ensures r.Ok? && At(toks, p).value != "true" && At(toks, p).value != "false" ==>
              r.value.value == WordNode(At(toks, p).value)
  {
    var token :- EatAt(toks, p, Identifier);
    var value := token.value.value;
    var node :=
      if value == "true" then BooleanLiteralNode(true)
      else if value == "false" then BooleanLiteralNode(false)
      else WordNode(value);
    Ok(Parsed(node, token.pos))
  }

  /** `RangeOrList`: `[]`, `[a]`, `[a, ...]` or `[a..b]`. */
  function RangeOrListAt(toks: seq<Token>, p: nat): (r: Result<Parsed<ExpressionNode>>)
    requires p <= |toks|
    ensures r.Ok? ==> p < r.value.pos <= |toks|
    decreases |toks| - p, 1
  {
    var open :- EatAt(toks, p, LeftSquareBracket);
    var q := SkipWhitespace(toks, open.pos);
    if At(toks, q).kind == RightSquareBracket then
      Ok(Parsed(ListExpressionNode([]), q + 1))
    else
      var first :- ExpressionAt(toks, q);
      var next := At(toks, first.pos).kind;
      if next == DotDot then RangeAt(toks, first.pos + 1, first.value)
      else if next == Comma then ListAt(toks, first.pos + 1, first.value)
      else if next == RightSquareBracket then Ok(Parsed(ListExpressionNode([first.value]), first.pos + 1))
      else Err(UnexpectedToken)
  }

  /** `List`: the first element is known, the rest are read up to `]`. */
  function ListAt(toks: seq<Token>, p: nat, first: ExpressionNode): (r: Result<Parsed<ExpressionNode>>)
    requires p <= |toks|
    ensures r.Ok? ==> p <= r.value.pos <= |toks|
    decreases |toks| - p, 6
  {
    var elements :- RemainingArgumentsAt(toks, p, RightSquareBracket, [first]);
    Ok(Parsed(ListExpressionNode(elements.value), elements.pos))
  }

  /** `Range`: the upper bound and the closing `]`. */
  function RangeAt(toks: seq<Token>, p: nat, left: ExpressionNode): (r: Result<Parsed<ExpressionNode>>)
    requires p <= |toks|
    ensures r.Ok? ==> p < r.value.pos <= |toks|
    decreases |toks| - p, 4
  {
    var right :- ExpressionAt(toks, p);
    var close :- EatAt(toks, right.pos, RightSquareBracket);
    Ok(Parsed(BinaryExpressionNode(left, BinaryOperation.Range, right.value), close.pos))
  }

  // ---------------------------------------------------------------------
  // Argument lists
  // ---------------------------------------------------------------------

  /** `ArgumentList`: optional whitespace, then the arguments up to the closer. */
  function ArgumentListAt(toks: seq<Token>, p: nat, closing: TokenKind): (r: Result<Parsed<seq<ExpressionNode>>>)
    requires p <= |toks|
    ensures r.Ok? ==> p <= r.value.pos <= |toks|
    decreases |toks| - p, 6
  {
    RemainingArgumentsAt(toks, SkipWhitespace(toks, p), closing, [])
  }

  /**
    `AddRemainingArguments`: nothing more when the closer comes at once;
    otherwise comma-separated expressions appended to `arguments`, and then
    the closer.
  */
  function RemainingArgumentsAt(toks: seq<Token>, p: nat, closing: TokenKind, arguments: seq<ExpressionNode>)
    : (r: Result<Parsed<seq<ExpressionNode>>>)
    requires p <= |toks|
    ensures r.Ok? ==> p <= r.value.pos <= |toks|
    decreases |toks| - p, 5
  {
    if At(toks, p).kind == closing then Ok(Parsed(arguments, Advance(toks, p)))
    else ArgumentsLoopAt(toks, p, closing, arguments)
  }

  /** The `do ... while (TryEat(Comma))` loop of `AddRemainingArguments`, then `Eat(closing)`. */
  function ArgumentsLoopAt(toks: seq<Token>, p: nat, closing: TokenKind, arguments: seq<ExpressionNode>)
    : (r: Result<Parsed<seq<ExpressionNode>>>)
    requires p <= |toks|
    ensures r.Ok? ==> p < r.value.pos <= |toks|
    decreases |toks| - p, 4
  {
    var e :- ExpressionAt(toks, p);
    var arguments' := arguments + [e.value];
    if At(toks, e.pos).kind == Comma then ArgumentsLoopAt(toks, e.pos + 1, closing, arguments')
    else
      var close :- EatAt(toks, e.pos, closing);
      Ok(Parsed(arguments', close.pos))
  }

  // ---------------------------------------------------------------------
  // References
  // ---------------------------------------------------------------------

  /** `Reference`: `$`, optional `!`, optional `{`, an identifier, its parts, and `}` iff formal. */
  function ReferenceAt(toks: seq<Token>, p: nat): (r: Result<Parsed<ExpressionNode>>)
    requires p <= |toks|
    ensures r.Ok? ==> p < r.value.pos <= |toks|
    decreases |toks| - p, 1
  {
    var dollar :- EatAt(toks, p, Dollar);
    var isSilent := At(toks, dollar.pos).kind == Exclamation;
    var afterBang := TryEatAt(toks, dollar.pos, Exclamation);
    var isFormal := At(toks, afterBang).kind == LeftCurley;
    var identifier :- EatAt(toks, TryEatAt(toks, afterBang, LeftCurley), Identifier);
    ReferenceTailAt(toks, identifier.pos, isSilent, isFormal, Variable(identifier.value.value))
  }

  /** The rest of `Reference` once the parts up to `value` have been read. */
  function ReferenceTailAt(toks: seq<Token>, p: nat, isSilent: bool, isFormal: bool, value: ReferenceNodePart)
    : (r: Result<Parsed<ExpressionNode>>)
    requires p <= |toks|
    ensures r.Ok? ==> p <= r.value.pos <= |toks|
    decreases |toks| - p, 1
  {
    var parts :- PartsAt(toks, p, value);
    if isFormal then
      var close :- EatAt(toks, parts.pos, RightCurley);
      Ok(Parsed(ReferenceNode(isSilent, isFormal, parts.value), close.pos))
    else
      Ok(Parsed(ReferenceNode(isSilent, isFormal, parts.value), parts.pos))
  }

  /**
    The `while (TryEat(Dot))` loop of `Reference`: `.name(args)` wraps the
    value read so far in a `Method`, `.name` in a `Property`.
  */
  function PartsAt(toks: seq<Token>, p: nat, value: ReferenceNodePart): (r: Result<Parsed<ReferenceNodePart>>)
    requires p <= |toks|
    ensures r.Ok? ==> p <= r.value.pos <= |toks|
    decreases |toks| - p, 0
  {
    if At(toks, p).kind != Dot then Ok(Parsed(value, p))
    else
      var identifier :- EatAt(toks, p + 1, Identifier);
      if At(toks, identifier.pos).kind == LeftParenthesis then
        var arguments :- ArgumentListAt(toks, identifier.pos + 1, RightParenthesis);
        PartsAt(toks, arguments.pos, Method(identifier.value.value, value, arguments.value))
      else
        PartsAt(toks, identifier.pos, Property(identifier.value.value, value))
  }

  // ---------------------------------------------------------------------
  // Binary operators
  // ---------------------------------------------------------------------

  /**
    The precedence class of an operator, which `HasHigherPrecedence` reads
    from the upper half of the enumeration value: the multiplicative
    operators outrank the additive ones, and the operators of a class are
    equal.  `Range` never reaches the comparison.
  */
  function Precedence(op: BinaryOperation): nat {
    match op
      case Multiplication | Division | Modulo => 2
      case Addition | Subtraction => 1
      case Range => 0
  }

  predicate HasHigherPrecedence(left: BinaryOperation, right: BinaryOperation) {
    Precedence(left) > Precedence(right)
  }

  /**
    Outranking is a strict order: a multiplicative operator outranks every
    additive one, and two operators of the same class never outrank each
    other, so equal precedence falls through to left grouping.
  */
  lemma {:induction false} PrecedenceClasses()
    ensures forall a, b :: HasHigherPrecedence(a, b) ==> !HasHigherPrecedence(b, a)
    ensures forall a, b, c :: HasHigherPrecedence(a, b) && HasHigherPrecedence(b, c) ==> HasHigherPrecedence(a, c)
    ensures forall a :: !HasHigherPrecedence(a, a)
    ensures forall m, a :: m in {Multiplication, Division, BinaryOperation.Modulo} && a in {Addition, Subtraction} ==>
              HasHigherPrecedence(m, a) && !HasHigherPrecedence(a, m)
    ensures forall a, b :: a in {Addition, Subtraction} && b in {Addition, Subtraction} ==> !HasHigherPrecedence(a, b)
    ensures forall a, b :: a in {Multiplication, Division, BinaryOperation.Modulo} && b in {Multiplication, Division, BinaryOperation.Modulo} ==>
              !HasHigherPrecedence(a, b)
  {
  }

  /** One item of an expression read left to right: an operator, or an operand that is not itself binary. */
  datatype InfixItem = InfixOperand(e: ExpressionNode) | InfixOperator(op: BinaryOperation)

  /** An expression read left to right, binary nodes flattened. */
  function Infix(e: ExpressionNode): seq<InfixItem> {
    if e.BinaryExpressionNode? then Infix(e.left) + [InfixOperator(e.operation)] + Infix(e.right)
    else [InfixOperand(e)]
  }

  predicate IsOperatorKind(kind: TokenKind) {
    kind == Plus || kind == Minus || kind == Multiply || kind == Divide || kind == Tokens.Modulo
  }

  /** The operation an operator token stands for: never a range, multiplicative exactly for `*`, `/` and `%`. */
  function OperationOf(kind: TokenKind): (op: BinaryOperation)
    requires IsOperatorKind(kind)
    ensures op != Range
    ensures Precedence(op) == 2 <==> kind == Multiply || kind == Divide || kind == Tokens.Modulo
    ensures Precedence(op) == 1 <==> kind == Plus || kind == Minus
  {
    if kind == Plus then Addition
    else if kind == Minus then Subtraction
    else if kind == Multiply then Multiplication
    else if kind == Divide then Division
    else BinaryOperation.Modulo
  }

  /** One operator of a compound expression and the operand after it. */
  datatype Step = Step(operation: BinaryOperation, operand: ExpressionNode)

  /**
    One iteration of `CompoundExpression`'s loop.  `combined` says whether
    a binary node has been built yet (`soFarBinary != null`); when it has,
    `soFar` is that node.  An operator of higher precedence than the last
    node's is grafted into its right child; otherwise the tree so far
    becomes the left operand.
  */
  function Combine(soFar: ExpressionNode, combined: bool, op: BinaryOperation, operand: ExpressionNode): (r: ExpressionNode)
    ensures r.BinaryExpressionNode?
    ensures Infix(r) == Infix(soFar) + [InfixOperator(op)] + Infix(operand)
  {
    if combined && soFar.BinaryExpressionNode? && HasHigherPrecedence(op, soFar.operation) then
      BinaryExpressionNode(soFar.left, soFar.operation, BinaryExpressionNode(soFar.right, op, operand))
    else
      BinaryExpressionNode(soFar, op, operand)
  }

  /** The operators and operands of the steps, read left to right. */
  function StepsInfix(steps: seq<Step>): seq<InfixItem>
    decreases |steps|
  {
    if steps == [] then []
    else
      var last := steps[|steps| - 1];
      StepsInfix(steps[..|steps| - 1]) + [InfixOperator(last.operation)] + Infix(last.operand)
  }

  /**
    The tree `CompoundExpression` has built after the given steps. However
    the grafts regroup it, read left to right it is the first operand and
    then each operator and operand in the order they were parsed.
  */
  function Fold(first: ExpressionNode, steps: seq<Step>): (r: ExpressionNode)
    ensures steps != [] ==> r.BinaryExpressionNode?
    ensures Infix(r) == Infix(first) + StepsInfix(steps)
    decreases |steps|
  {
    if steps == [] then first
    else
      var last := steps[|steps| - 1];
      Combine(Fold(first, steps[..|steps| - 1]), |steps| > 1, last.operation, last.operand)
  }

  /** The operators and operands `CompoundExpression` reads; it stops at the first non-operator token. */
  function OperatorChainAt(toks: seq<Token>, p: nat): (r: Result<Parsed<seq<Step>>>)
    requires p <= |toks|
    ensures r.Ok? ==> p <= r.value.pos <= |toks|
    decreases |toks| - p
  {
    var kind := At(toks, p).kind;
    if !IsOperatorKind(kind) then Ok(Parsed([], p))
    else
      var operand :- ExpressionAt(toks, p + 1);
      var rest :- OperatorChainAt(toks, operand.pos);
      Ok(Parsed([Step(OperationOf(kind), operand.value)] + rest.value, rest.pos))
  }

  /** The steps read so far, in front of what the rest of the chain reads. */
  function Extend(done: seq<Step>, rest: Result<Parsed<seq<Step>>>): Result<Parsed<seq<Step>>> {
    if rest.Ok? then Ok(Parsed(done + rest.value.value, rest.value.pos)) else rest
  }

  lemma {:induction false} ExtendNothing(rest: Result<Parsed<seq<Step>>>)
    ensures Extend([], rest) == rest
  {
    if rest.Ok? {
      assert [] + rest.value.value == rest.value.value;
    }
  }

  lemma {:induction false} ExtendDone(done: seq<Step>, p: nat)
    ensures Extend(done, Ok(Parsed([], p))) == Ok(Parsed(done, p))
  {
    assert done + [] == done;
  }

  lemma {:induction false} ExtendAppend(done: seq<Step>, s: Step, rest: Result<Parsed<seq<Step>>>)
    ensures Extend(done, Extend([s], rest)) == Extend(done + [s], rest)
  {
    if rest.Ok? {
      assert done + ([s] + rest.value.value) == (done + [s]) + rest.value.value;
    }
  }

  /** One operator and its operand, in front of the rest of the chain. */
  lemma {:induction false} ChainStep(toks: seq<Token>, p: nat)
    requires p <= |toks| && IsOperatorKind(At(toks, p).kind)
    ensures var operand := ExpressionAt(toks, p + 1);
            OperatorChainAt(toks, p)
            == if operand.Err? then Err(operand.error)
               else Extend([Step(OperationOf(At(toks, p).kind), operand.value.value)], OperatorChainAt(toks, operand.value.pos))
  {
  }

  lemma {:induction false} FoldAppend(first: ExpressionNode, steps: seq<Step>, s: Step)
    ensures Fold(first, steps + [s]) == Combine(Fold(first, steps), steps != [], s.operation, s.operand)
  {
    assert (steps + [s])[..|steps|] == steps;
  }

  /** `CompoundExpression`: a first operand, then the operator chain folded into a tree. */
  function CompoundAt(toks: seq<Token>, p: nat): (r: Result<Parsed<ExpressionNode>>)
    requires p <= |toks|
    ensures r.Ok? ==> p < r.value.pos <= |toks|
  {
    var first :- ExpressionAt(toks, p);
    var chain :- OperatorChainAt(toks, first.pos);
    Ok(Parsed(Fold(first.value, chain.value), chain.pos))
  }

  // ---------------------------------------------------------------------
  // Templates
  // ---------------------------------------------------------------------

  /** No text node is empty. */
  predicate NoEmptyText(children: seq<SyntaxNode>) {
    forall i | 0 <= i < |children| :: children[i].TextNode? ==> children[i].text != ""
  }

  /** Adds the pending text as a `TextNode`, unless it is empty. */
  function Flushed(children: seq<SyntaxNode>, text: string): (r: seq<SyntaxNode>)
    ensures |r| == |children| + (if text == "" then 0 else 1)
    ensures r[..|children|] == children
    ensures |r| > |children| ==> r[|children|] == TextNode(text)
    ensures NoEmptyText(children) ==> NoEmptyText(r)
  {
    if |text| > 0 then children + [TextNode(text)] else children
  }

  /**
    The loop of `Parse`: text tokens and every other token that is not `$`
    are collected into pending text, which is flushed before each reference
    and at the end of the input.
  */
  function ParseLoop(toks: seq<Token>, p: nat, children: seq<SyntaxNode>, text: string): (r: Result<RenderedOutputNode>)
    requires p <= |toks|
    ensures r.Ok? ==> |children| <= |r.value.children| && r.value.children[..|children|] == children
    ensures r.Ok? && NoEmptyText(children) ==> NoEmptyText(r.value.children)
    decreases |toks| - p
  {
    var token := At(toks, p);
    if token.kind == Text then ParseLoop(toks, p + 1, children, text + token.value)
    else if token.kind == Dollar then
      var reference :- ReferenceAt(toks, p);
      ParseLoop(toks, reference.pos, Flushed(children, text) + [ReferenceChild(reference.value)], "")
    else if token.kind == EndOfFile then Ok(RenderedOutputNode(Flushed(children, text)))
    else if token.value == "" then Err(GeneralError("Token value not defined"))
    else ParseLoop(toks, p + 1, children, text + token.value)
  }

  /** `Parse`: the whole template from position `p`. */
  function ParseAt(toks: seq<Token>, p: nat): (r: Result<RenderedOutputNode>)
    requires p <= |toks|
    ensures r.Ok? ==> NoEmptyText(r.value.children)
  {
    ParseLoop(toks, p, [], "")
  }

  // ---------------------------------------------------------------------
  // The parser object
  // ---------------------------------------------------------------------

  /** A method's result agrees with a parsing function's, and the parser stopped where the function did. */
  predicate Agrees<T(==)>(r: Result<T>, spec: Result<Parsed<T>>, pos: nat) {
    if spec.Ok? then r == Ok(spec.value.value) && pos == spec.value.pos
    else r == Err(spec.error)
  }

  /** `VelocityParser`: the lexer's tokens and the position of the current token. */
  class Parser {
    const tokens: seq<Token>
    var pos: nat

    predicate Valid()
      reads this
    {
      pos <= |tokens|
    }

    constructor (tokens: seq<Token>)
      ensures Valid() && this.tokens == tokens && pos == 0
    {
      this.tokens := tokens;
      pos := 0;
    }

    function CurrentToken(): Token
      reads this
    {
      At(tokens, pos)
    }

    predicate HasReachedEndOfFile()
      reads this
    {
      CurrentToken().kind == EndOfFile
    }

    method MoveNext()
      requires Valid()
      modifies this
      ensures Valid() && pos == Advance(tokens, old(pos))
    {
      if pos < |tokens| {
        pos := pos + 1;
      }
    }

    /** `Eat`: the current token is returned and passed over iff it has the expected kind. */
    method Eat(kind: TokenKind) returns (r: Result<Token>)
      requires Valid()
      modifies this
      ensures Valid()
      ensures r.Ok? <==> old(CurrentToken()).kind == kind
      ensures r.Ok? ==> r.value == old(CurrentToken()) && pos == Advance(tokens, old(pos))
      ensures r.Err? ==> r.error == UnexpectedToken && pos == old(pos)
    {
      var token := CurrentToken();
      if token.kind != kind {
        return Err(UnexpectedToken);
      }
      MoveNext();
      return Ok(token);
    }

    /** `TryEat`: passes over the current token only if it has the kind, and says whether it did. */
    method TryEat(kind: TokenKind) returns (eaten: bool)
      requires Valid()
      modifies this
      ensures Valid()
      ensures eaten <==> old(CurrentToken()).kind == kind
      ensures pos == if eaten then Advance(tokens, old(pos)) else old(pos)
    {
      if CurrentToken().kind == kind {
        MoveNext();
        return true;
      }
      return false;
    }

    method TryEatWhitespace() returns (eaten: bool)
      requires Valid()
      modifies this
      ensures Valid() && pos == SkipWhitespace(tokens, old(pos))
    {
      eaten := TryEat(Whitespace);
    }

    method Parse() returns (r: Result<RenderedOutputNode>)
      requires Valid()
      modifies this
      ensures r == ParseAt(tokens, old(pos))
    {
      var children: seq<SyntaxNode> := [];
      var textSoFar := "";
      while true
        invariant Valid()
        invariant ParseLoop(tokens, pos, children, textSoFar) == ParseAt(tokens, old(pos))
        decreases |tokens| - pos
      {
        var token := CurrentToken();
        if token.kind == Text {
          textSoFar := textSoFar + token.value;
          var _ := Eat(Text);
        } else if token.kind == Dollar {
          children := Flushed(children, textSoFar);
          textSoFar := "";
          var reference := Reference();
          if reference.Err? {
            return Err(reference.error);
          }
          children := children + [ReferenceChild(reference.value)];
        } else if token.kind == EndOfFile {
          return Ok(RenderedOutputNode(Flushed(children, textSoFar)));
        } else {
          if token.value == "" {
            return Err(GeneralError("Token value not defined"));
          }
          textSoFar := textSoFar + token.value;
          MoveNext();
        }
      }
    }

    method Reference() returns (r: Result<ExpressionNode>)
      requires Valid()
      modifies this
      ensures Valid() && old(pos) <= pos && Agrees(r, ReferenceAt(tokens, old(pos)), pos)
      decreases |tokens| - pos, 1
    {
      var dollar :- Eat(Dollar);
      var isSilent := TryEat(Exclamation);
      var isFormal := TryEat(LeftCurley);
      var identifier :- Eat(Identifier);
      ghost var partsStart := pos;
      var value :- Parts(Variable(identifier.value));
      assert PartsAt(tokens, partsStart, Variable(identifier.value)) == Ok(Parsed(value, pos));
      if isFormal {
        var close :- Eat(RightCurley);
      }
      return Ok(ReferenceNode(isSilent, isFormal, value));
    }

    /** The `while (TryEat(Dot))` loop of `Reference`, applying each part to `value`. */
    method Parts(root: ReferenceNodePart) returns (r: Result<ReferenceNodePart>)
      requires Valid()
      modifies this
      ensures Valid() && old(pos) <= pos && Agrees(r, PartsAt(tokens, old(pos), root), pos)
      decreases |tokens| - pos, 0
    {
      var value := root;
      while true
        invariant Valid() && old(pos) <= pos
        invariant PartsAt(tokens, pos, value) == PartsAt(tokens, old(pos), root)
        decreases |tokens| - pos
      {
        var dot := TryEat(Dot);
        if !dot {
          return Ok(value);
        }
        var name :- Eat(Identifier);
        var call := TryEat(LeftParenthesis);
        if call {
          var arguments :- ArgumentList(RightParenthesis);
          value := Method(name.value, value, arguments);
        } else {
          value := Property(name.value, value);
        }
      }
    }

    method ArgumentList(closing: TokenKind) returns (r: Result<seq<ExpressionNode>>)
      requires Valid()
      modifies this
      ensures Valid() && old(pos) <= pos && Agrees(r, ArgumentListAt(tokens, old(pos), closing), pos)
      decreases |tokens| - pos, 6
    {
      var _ := TryEatWhitespace();
      r := AddRemainingArguments([], closing);
    }

    method AddRemainingArguments(arguments: seq<ExpressionNode>, closing: TokenKind) returns (r: Result<seq<ExpressionNode>>)
      requires Valid()
      modifies this
      ensures Valid() && old(pos) <= pos
      ensures Agrees(r, RemainingArgumentsAt(tokens, old(pos), closing, arguments), pos)
      decreases |tokens| - pos, 5
    {
      var closed := TryEat(closing);
      if closed {
        return Ok(arguments);
      }
      var collected := arguments;
      while true
        invariant Valid() && old(pos) <= pos
        invariant ArgumentsLoopAt(tokens, pos, closing, collected)
               == RemainingArgumentsAt(tokens, old(pos), closing, arguments)
        decreases |tokens| - pos
      {
        var e :- Expression();
        collected := collected + [e];
        var more := TryEat(Comma);
        if !more {
          var close :- Eat(closing);
          return Ok(collected);
        }
      }
    }

    method Number() returns (r: Result<ExpressionNode>)
      requires Valid()
      modifies this
      ensures Valid() && old(pos) <= pos && Agrees(r, NumberAt(tokens, old(pos)), pos)
    {
      var isNegative := TryEat(Minus);
      var numberToken :- Eat(NumericLiteral);
      var integerPart := if isNegative then "-" + numberToken.value else numberToken.value;
      var fractional := TryEat(Dot);
      if fractional {
        var fractionToken :- Eat(NumericLiteral);
        return Ok(FloatingPointLiteralNode(integerPart + "." + fractionToken.value));
      }
      var integerValue :- ParseInt32(integerPart);
      return Ok(IntegerLiteralNode(integerValue));
    }

    method StringLiteral() returns (r: Result<ExpressionNode>)
      requires Valid()
      modifies this
      ensures Valid() && old(pos) <= pos && Agrees(r, StringAt(tokens, old(pos), false), pos)
    {
      var token :- Eat(Tokens.StringLiteral);
      return Ok(StringNode(false, token.value));
    }

    method InterpolatedString() returns (r: Result<ExpressionNode>)
      requires Valid()
      modifies this
      ensures Valid() && old(pos) <= pos && Agrees(r, StringAt(tokens, old(pos), true), pos)
    {
      var token :- Eat(InterpolatedStringLiteral);
      return Ok(StringNode(true, token.value));
    }

    method Not() returns (r: Result<ExpressionNode>)
      requires Valid()
      modifies this
      ensures Valid() && old(pos) <= pos && Agrees(r, NotAt(tokens, old(pos)), pos)
      decreases |tokens| - pos, 1
    {
      var bang :- Eat(Exclamation);
      var value :- Expression();
      return Ok(UnaryExpressionNode(UnaryOperation.Not, value));
    }

    method Parenthesised() returns (r: Result<ExpressionNode>)
      requires Valid()
      modifies this
      ensures Valid() && old(pos) <= pos && Agrees(r, ParenthesisedAt(tokens, old(pos)), pos)
      decreases |tokens| - pos, 1
    {
      var open :- Eat(LeftParenthesis);
      var value :- Expression();
      var close :- Eat(RightParenthesis);
      return Ok(UnaryExpressionNode(UnaryOperation.Parenthesised, value));
    }

    method Expression() returns (r: Result<ExpressionNode>)
      requires Valid()
      modifies this
      ensures Valid() && old(pos) <= pos && Agrees(r, ExpressionAt(tokens, old(pos)), pos)
      decreases |tokens| - pos, 3
    {
      var _ := TryEatWhitespace();
      ghost var start := pos;
      var primary: Result<ExpressionNode>;
      var kind := CurrentToken().kind;
      if kind == LeftParenthesis {
        primary := Parenthesised();
      } else if kind == Exclamation {
        primary := Not();
      } else if kind == Dollar {
        primary := Reference();
      } else if kind == Minus || kind == NumericLiteral {
        primary := Number();
      } else if kind == Tokens.StringLiteral {
        primary := StringLiteral();
      } else if kind == InterpolatedStringLiteral {
        primary := InterpolatedString();
      } else if kind == Identifier {
        primary := BooleanLiteralOrWord();
      } else if kind == LeftSquareBracket {
        primary := RangeOrList();
      } else if kind == EndOfFile {
        primary := Err(GeneralError("Unexpected end of file"));
      } else if kind == LeftCurley {
        primary := Err(NotImplemented("Can't yet parse token LeftCurley starting an expression"));
      } else {
        primary := Err(GeneralError("Unrecognised token parsing an expression"));
      }
      assert Agrees(primary, PrimaryAt(tokens, start), pos);
      var result :- primary;
      var _ := TryEatWhitespace();
      return Ok(result);
    }

    method CompoundExpression() returns (r: Result<ExpressionNode>)
      requires Valid()
      modifies this
      ensures Valid() && old(pos) <= pos && Agrees(r, CompoundAt(tokens, old(pos)), pos)
    {
      var first :- Expression();
      var soFar := first;
      var soFarBinary: Option<ExpressionNode> := None;
      ghost var chainStart := pos;
      ghost var steps: seq<Step> := [];
      ExtendNothing(OperatorChainAt(tokens, pos));
      while true
        invariant Valid() && old(pos) < chainStart <= pos
        invariant OperatorChainAt(tokens, chainStart) == Extend(steps, OperatorChainAt(tokens, pos))
        invariant soFar == Fold(first, steps)
        invariant soFarBinary == if steps == [] then None else Some(soFar)
        decreases |tokens| - pos
      {
        var kind := CurrentToken().kind;
        if !IsOperatorKind(kind) {
          ExtendDone(steps, pos);
          return Ok(soFar);
        }
        var operation := OperationOf(kind);
        ghost var before := pos;
        var _ := Eat(kind);
        var operand :- Expression();
        ChainStep(tokens, before);
        ExtendAppend(steps, Step(operation, operand), OperatorChainAt(tokens, pos));
        FoldAppend(first, steps, Step(operation, operand));
        if soFarBinary.Some? && soFarBinary.value.BinaryExpressionNode?
           && HasHigherPrecedence(operation, soFarBinary.value.operation) {
          var b := soFarBinary.value;
          soFar := BinaryExpressionNode(b.left, b.operation, BinaryExpressionNode(b.right, operation, operand));
        } else {
          soFar := BinaryExpressionNode(soFar, operation, operand);
        }
        soFarBinary := Some(soFar);
        steps := steps + [Step(operation, operand)];
      }
    }

    method BooleanLiteralOrWord() returns (r: Result<ExpressionNode>)
      requires Valid()
      modifies this
      ensures Valid() && old(pos) <= pos && Agrees(r, BooleanLiteralOrWordAt(tokens, old(pos)), pos)
    {
      var token :- Eat(Identifier);
      if token.value == "true" {
        return Ok(BooleanLiteralNode(true));
      } else if token.value == "false" {
        return Ok(BooleanLiteralNode(false));
      }
      return Ok(WordNode(token.value));
    }

    method RangeOrList() returns (r: Result<ExpressionNode>)
      requires Valid()
      modifies this
      ensures Valid() && old(pos) <= pos && Agrees(r, RangeOrListAt(tokens, old(pos)), pos)
      decreases |tokens| - pos, 1
    {
      var open :- Eat(LeftSquareBracket);
      var _ := TryEatWhitespace();
      var empty := TryEat(RightSquareBracket);
      if empty {
        return Ok(ListExpressionNode([]));
      }
      var firstArg :- Expression();
      var isRange := TryEat(DotDot);
      if isRange {
        r := Range(firstArg);
        return;
      }
      var isList := TryEat(Comma);
      if isList {
        r := List(firstArg);
        return;
      }
      var isSingle := TryEat(RightSquareBracket);
      if isSingle {
        return Ok(ListExpressionNode([firstArg]));
      }
      return Err(UnexpectedToken);
    }

    method List(firstValue: ExpressionNode) returns (r: Result<ExpressionNode>)
      requires Valid()
      modifies this
      ensures Valid() && old(pos) <= pos && Agrees(r, ListAt(tokens, old(pos), firstValue), pos)
      decreases |tokens| - pos, 6
    {
      var elements :- AddRemainingArguments([firstValue], RightSquareBracket);
      return Ok(ListExpressionNode(elements));
    }

    method Range(left: ExpressionNode) returns (r: Result<ExpressionNode>)
      requires Valid()
      modifies this
      ensures Valid() && old(pos) <= pos && Agrees(r, RangeAt(tokens, old(pos), left), pos)
      decreases |tokens| - pos, 4
    {
      var right :- Expression();
      var close :- Eat(RightSquareBracket);
      return Ok(BinaryExpressionNode(left, BinaryOperation.Range, right));
    }
  }
}
