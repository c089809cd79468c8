/**
  What the recursive-descent parser promises: the shape of compound
  expressions under operator precedence, text coalescing in templates, the
  reference grammar, number literals, list and range literals, and argument
  lists.
*/
module VelocityParserProperties {
  import opened Wrappers
  import opened Strings
  import HostTypes
  import opened Tokens
  import opened VelocityParser

  // ---------------------------------------------------------------------
  // Operator precedence
  // ---------------------------------------------------------------------

  predicate IsAdditive(op: BinaryOperation) {
    op == Addition || op == Subtraction
  }

  /** Operands joined by the given operators, strictly left to right. */
  function LeftChain(first: ExpressionNode, steps: seq<Step>): ExpressionNode
    decreases |steps|
  {
    if steps == [] then first
    else
      var last := steps[|steps| - 1];
      BinaryExpressionNode(LeftChain(first, steps[..|steps| - 1]), last.operation, last.operand)
  }

  /** The index of the last additive operator, or -1 when there is none. */
  function LastAdditive(steps: seq<Step>): (k: int)
    ensures -1 <= k < |steps|
    ensures k >= 0 ==> IsAdditive(steps[k].operation)
    ensures forall j | k < j < |steps| :: !IsAdditive(steps[j].operation)
    decreases |steps|
  {
    if steps == [] then -1
    else if IsAdditive(steps[|steps| - 1].operation) then |steps| - 1
    else LastAdditive(steps[..|steps| - 1])
  }

  /**
    The tree of the usual two-level grammar, `sum := term (('+' | '-') term)*`
    and `term := operand (('*' | '/' | '%') operand)*`, both left-associative:
    the root is the last additive operator, with the sum before it on the
    left and the multiplicative chain after it on the right.
  */
  function Textbook(first: ExpressionNode, steps: seq<Step>): ExpressionNode
    decreases |steps|
  {
    var k := LastAdditive(steps);
    if k < 0 then LeftChain(first, steps)
    else BinaryExpressionNode(Textbook(first, steps[..k]), steps[k].operation, LeftChain(steps[k].operand, steps[k + 1..]))
  }

  predicate NoRange(steps: seq<Step>) {
    forall i | 0 <= i < |steps| :: steps[i].operation != BinaryOperation.Range
  }

  lemma {:induction false} NoRangePrefix(steps: seq<Step>, k: nat)
    requires NoRange(steps) && k <= |steps|
    ensures NoRange(steps[..k])
  {
    assert forall i | 0 <= i < k :: steps[..k][i] == steps[i];
  }

  /** A textbook tree of at least one step is a binary node of an arithmetic operator. */
  lemma {:induction false} TextbookTop(first: ExpressionNode, steps: seq<Step>)
    requires steps != [] && NoRange(steps)
    ensures Textbook(first, steps).BinaryExpressionNode?
    ensures Textbook(first, steps).operation != BinaryOperation.Range
    ensures LastAdditive(steps) < 0 ==> Textbook(first, steps).operation == steps[|steps| - 1].operation
  {
  }

  lemma {:induction false} TextbookStepAdditive(first: ExpressionNode, steps: seq<Step>)
    requires steps != [] && NoRange(steps) && IsAdditive(steps[|steps| - 1].operation)
    ensures var s := steps[|steps| - 1];
            Textbook(first, steps) == Combine(Textbook(first, steps[..|steps| - 1]), |steps| > 1, s.operation, s.operand)
  {
    var n := |steps|;
    assert LastAdditive(steps) == n - 1;
    assert steps[n..] == [];
    if n > 1 {
      NoRangePrefix(steps, n - 1);
      TextbookTop(first, steps[..n - 1]);
    }
  }

  lemma {:induction false} TextbookStepChain(first: ExpressionNode, steps: seq<Step>)
    requires steps != [] && NoRange(steps) && !IsAdditive(steps[|steps| - 1].operation)
    requires LastAdditive(steps[..|steps| - 1]) < 0
    ensures var s := steps[|steps| - 1];
            Textbook(first, steps) == Combine(Textbook(first, steps[..|steps| - 1]), |steps| > 1, s.operation, s.operand)
  {
    var n := |steps|;
    var prefix := steps[..n - 1];
    assert LastAdditive(steps) == LastAdditive(prefix);
    if n > 1 {
      NoRangePrefix(steps, n - 1);
      TextbookTop(first, prefix);
      assert prefix[n - 2] == steps[n - 2];
    }
  }

  lemma {:induction false} LeftChainSnoc(first: ExpressionNode, steps: seq<Step>, s: Step)
    ensures LeftChain(first, steps + [s]) == BinaryExpressionNode(LeftChain(first, steps), s.operation, s.operand)
  {
    assert (steps + [s])[..|steps|] == steps;
  }

  /** A multiplicative operator appended after the last additive one does not move it. */
  lemma {:induction false} LastAdditiveSnoc(prefix: seq<Step>, s: Step)
    requires !IsAdditive(s.operation)
    ensures LastAdditive(prefix + [s]) == LastAdditive(prefix)
  {
    assert (prefix + [s])[..|prefix|] == prefix;
  }

  /** The textbook tree split at its last additive operator `k`. */
  lemma {:induction false} TextbookAt(first: ExpressionNode, steps: seq<Step>, k: nat)
    requires k == LastAdditive(steps)
    ensures Textbook(first, steps) == BinaryExpressionNode(Textbook(first, steps[..k]), steps[k].operation, LeftChain(steps[k].operand, steps[k + 1..]))
  {
  }

  /** Appending a multiplicative step lengthens the chain right of the last additive operator. */
  lemma {:induction false} TextbookGraftShape(first: ExpressionNode, prefix: seq<Step>, s: Step, k: nat)
    requires !IsAdditive(s.operation) && k == LastAdditive(prefix)
    ensures Textbook(first, prefix + [s])
         == BinaryExpressionNode(Textbook(first, prefix[..k]), prefix[k].operation, LeftChain(prefix[k].operand, prefix[k + 1..] + [s]))
  {
    var steps := prefix + [s];
    LastAdditiveSnoc(prefix, s);
    TextbookAt(first, steps, k);
    assert steps[..k] == prefix[..k];
    assert steps[k + 1..] == prefix[k + 1..] + [s];
  }

  lemma {:induction false} TextbookStepGraft(first: ExpressionNode, prefix: seq<Step>, s: Step)
    requires s.operation != BinaryOperation.Range && !IsAdditive(s.operation) && LastAdditive(prefix) >= 0
    ensures Textbook(first, prefix + [s]) == Combine(Textbook(first, prefix), true, s.operation, s.operand)
  {
    var k := LastAdditive(prefix);
    TextbookGraftShape(first, prefix, s, k);
    TextbookAt(first, prefix, k);
    LeftChainSnoc(prefix[k].operand, prefix[k + 1..], s);
  }

  /** Adding one operator and operand to a textbook tree is one iteration of the grafting loop. */
  lemma {:induction false} TextbookStep(first: ExpressionNode, steps: seq<Step>)
    requires steps != [] && NoRange(steps)
    ensures var s := steps[|steps| - 1];
            Textbook(first, steps) == Combine(Textbook(first, steps[..|steps| - 1]), |steps| > 1, s.operation, s.operand)
  {
    if IsAdditive(steps[|steps| - 1].operation) {
      TextbookStepAdditive(first, steps);
    } else if LastAdditive(steps[..|steps| - 1]) < 0 {
      TextbookStepChain(first, steps);
    } else {
      var prefix, s := steps[..|steps| - 1], steps[|steps| - 1];
      assert steps == prefix + [s];
      TextbookStepGraft(first, prefix, s);
    }
  }

  /**
    The grafting loop of `CompoundExpression` builds exactly the textbook
    tree: equal precedence associates to the left, and a multiplicative
    operator after an additive one is grafted into the right child.
  */
  lemma {:induction false} FoldIsTextbook(first: ExpressionNode, steps: seq<Step>)
    requires NoRange(steps)
    ensures Fold(first, steps) == Textbook(first, steps)
    decreases |steps|
  {
    if steps != [] {
      NoRangePrefix(steps, |steps| - 1);
      FoldIsTextbook(first, steps[..|steps| - 1]);
      TextbookStep(first, steps);
    }
  }

  /** The steps `CompoundExpression` reads are arithmetic, and the chain stops at a non-operator. */
  lemma {:induction false} ChainFacts(toks: seq<Token>, p: nat)
    requires p <= |toks|
    ensures var r := OperatorChainAt(toks, p);
            r.Ok? ==> NoRange(r.value.value) && !IsOperatorKind(At(toks, r.value.pos).kind)
    decreases |toks| - p
  {
    var kind := At(toks, p).kind;
    if IsOperatorKind(kind) {
      var operand := ExpressionAt(toks, p + 1);
      if operand.Ok? {
        ChainFacts(toks, operand.value.pos);
      }
    }
  }

  /**
    `CompoundExpression` reads a first operand and every following
    operator-operand pair, stops at the first token that is not one of
    `+ - * / %`, and returns the textbook precedence tree of what it read.
  */
  lemma {:induction false} CompoundExpressionFollowsPrecedence(toks: seq<Token>, p: nat)
    requires p <= |toks|
    ensures var r := CompoundAt(toks, p);
            r.Ok? ==>
              var first := ExpressionAt(toks, p).value;
              var chain := OperatorChainAt(toks, first.pos).value;
              r.value.value == Textbook(first.value, chain.value)
              && r.value.pos == chain.pos
              && !IsOperatorKind(At(toks, r.value.pos).kind)
  {
    var first := ExpressionAt(toks, p);
    if first.Ok? {
      ChainFacts(toks, first.value.pos);
      var chain := OperatorChainAt(toks, first.value.pos);
      if chain.Ok? {
        FoldIsTextbook(first.value.value, chain.value.value);
      }
    }
  }

  /** A chain of operators of one precedence class associates to the left. */
  lemma {:induction false} EqualPrecedenceAssociatesLeft(first: ExpressionNode, steps: seq<Step>, level: nat)
    requires level > 0
    requires forall i | 0 <= i < |steps| :: Precedence(steps[i].operation) == level
    ensures Fold(first, steps) == LeftChain(first, steps)
    decreases |steps|
  {
    if steps != [] {
      var prefix := steps[..|steps| - 1];
      assert forall i | 0 <= i < |prefix| :: prefix[i] == steps[i];
      EqualPrecedenceAssociatesLeft(first, prefix, level);
      if |prefix| > 0 {
        assert Fold(first, prefix).operation == prefix[|prefix| - 1].operation;
      }
    }
  }

  /**
    Three operands: when the second operator outranks the first, it goes
    into the right child of the first; otherwise the first pair becomes the
    left operand of the second.
  */
  lemma {:induction false} ThreeOperands(a: ExpressionNode, op1: BinaryOperation, b: ExpressionNode, op2: BinaryOperation, c: ExpressionNode)
    requires op1 != BinaryOperation.Range && op2 != BinaryOperation.Range
    ensures Fold(a, [Step(op1, b), Step(op2, c)])
         == if IsAdditive(op1) && !IsAdditive(op2)
            then BinaryExpressionNode(a, op1, BinaryExpressionNode(b, op2, c))
            else BinaryExpressionNode(BinaryExpressionNode(a, op1, b), op2, c)
  {
    var steps := [Step(op1, b), Step(op2, c)];
    assert steps[..1] == [Step(op1, b)];
    assert [Step(op1, b)][..0] == [];
    assert Fold(a, steps[..1]) == BinaryExpressionNode(a, op1, b);
  }

  // ---------------------------------------------------------------------
  // Text coalescing in templates
  // ---------------------------------------------------------------------

  /** No empty text node, and no two text nodes side by side. */
  predicate Coalesced(children: seq<SyntaxNode>) {
    NoEmptyText(children)
    && (forall i | 0 <= i < |children| - 1 :: children[i].TextNode? ==> !children[i + 1].TextNode?)
  }

  /** What the loop of `Parse` keeps: the output ends with a reference whenever it is not empty. */
  predicate LoopInvariant(children: seq<SyntaxNode>) {
    Coalesced(children) && (children != [] ==> children[|children| - 1].ReferenceChild?)
  }

  lemma {:induction false} FlushKeepsCoalesced(children: seq<SyntaxNode>, text: string)
    requires LoopInvariant(children)
    ensures Coalesced(Flushed(children, text))
  {
  }

  lemma {:induction false} FlushThenReference(children: seq<SyntaxNode>, text: string, reference: ExpressionNode)
    requires LoopInvariant(children)
    ensures LoopInvariant(Flushed(children, text) + [ReferenceChild(reference)])
  {
    var flushed := Flushed(children, text);
    FlushKeepsCoalesced(children, text);
    var next := flushed + [ReferenceChild(reference)];
    assert forall i | 0 <= i < |flushed| :: next[i] == flushed[i];
  }

  lemma {:induction false} ParseLoopCoalesces(toks: seq<Token>, p: nat, children: seq<SyntaxNode>, text: string)
    requires p <= |toks| && LoopInvariant(children)
    ensures var r := ParseLoop(toks, p, children, text);
            r.Ok? ==> Coalesced(r.value.children)
    decreases |toks| - p
  {
    var token := At(toks, p);
    match token.kind
    case Text =>
      ParseLoopCoalesces(toks, p + 1, children, text + token.value);
    case Dollar =>
      var reference := ReferenceAt(toks, p);
      if reference.Ok? {
        FlushThenReference(children, text, reference.value.value);
        ParseLoopCoalesces(toks, reference.value.pos, Flushed(children, text) + [ReferenceChild(reference.value.value)], "");
      }
    case EndOfFile =>
      FlushKeepsCoalesced(children, text);
    case _ =>
      if token.value != "" {
        ParseLoopCoalesces(toks, p + 1, children, text + token.value);
      }
  }

  /**
    `Parse` never emits an empty text node and never two text nodes in a
    row: the text between references is merged into one node.
  */
  lemma {:induction false} ParseCoalescesText(toks: seq<Token>)
    ensures var r := ParseAt(toks, 0);
            r.Ok? ==> Coalesced(r.value.children)
  {
    ParseLoopCoalesces(toks, 0, [], "");
  }

  /** A token other than text, `$` or end of file whose value is empty aborts `Parse`. */
  lemma {:induction false} StrayEmptyTokenThrows(toks: seq<Token>, p: nat, children: seq<SyntaxNode>, text: string)
    requires p < |toks|
    requires toks[p].kind != Text && toks[p].kind != Dollar && toks[p].kind != EndOfFile
    requires toks[p].value == ""
    ensures ParseLoop(toks, p, children, text) == Err(GeneralError("Token value not defined"))
  {
  }

  /** The concatenated values of the tokens from `p` on. */
  function TextFrom(toks: seq<Token>, p: nat): string
    decreases |toks| - p
  {
    if p >= |toks| then "" else toks[p].value + TextFrom(toks, p + 1)
  }

  /** Tokens `Parse` copies to the output as they are: no `$`, no end of file, no stray empty token. */
  predicate PlainText(toks: seq<Token>) {
    forall i | 0 <= i < |toks| ::
      toks[i].kind != Dollar && toks[i].kind != EndOfFile && (toks[i].kind != Text ==> toks[i].value != "")
  }

  lemma {:induction false} PlainTextLoop(toks: seq<Token>, p: nat, children: seq<SyntaxNode>, text: string)
    requires p <= |toks| && PlainText(toks)
    ensures ParseLoop(toks, p, children, text) == Ok(RenderedOutputNode(Flushed(children, text + TextFrom(toks, p))))
    decreases |toks| - p
  {
    if p < |toks| {
      var token := toks[p];
      PlainTextLoop(toks, p + 1, children, text + token.value);
      assert text + token.value + TextFrom(toks, p + 1) == text + TextFrom(toks, p);
    } else {
      assert text + TextFrom(toks, p) == text;
    }
  }

  /** A template without references becomes one text node holding all its text, or nothing. */
  lemma {:induction false} PlainTemplateIsOneTextNode(toks: seq<Token>)
    requires PlainText(toks)
    ensures ParseAt(toks, 0) == Ok(RenderedOutputNode(if TextFrom(toks, 0) == "" then [] else [TextNode(TextFrom(toks, 0))]))
  {
    PlainTextLoop(toks, 0, [], "");
    assert "" + TextFrom(toks, 0) == TextFrom(toks, 0);
    var s := TextFrom(toks, 0);
    assert |s| > 0 ==> Flushed([], s) == [TextNode(s)];
  }

  /** `a$x b`: the text before the reference is flushed before it, and the text after it at the end. */
  lemma {:induction false} TextAroundReference()
    ensures ParseAt([Token(Text, "a"), Token(Dollar, "$"), Token(Identifier, "x"), Token(Text, " b")], 0)
         == Ok(RenderedOutputNode([TextNode("a"), ReferenceChild(ReferenceNode(false, false, Variable("x"))), TextNode(" b")]))
  {
    var toks := [Token(Text, "a"), Token(Dollar, "$"), Token(Identifier, "x"), Token(Text, " b")];
    var x := ReferenceNode(false, false, Variable("x"));
    assert PartsAt(toks, 3, Variable("x")) == Ok(Parsed(Variable("x"), 3));
    assert ReferenceAt(toks, 1) == Ok(Parsed(x, 3));
    assert At(toks, 4).kind == EndOfFile;
    assert Flushed([TextNode("a"), ReferenceChild(x)], " b") == [TextNode("a"), ReferenceChild(x), TextNode(" b")];
    assert ParseLoop(toks, 4, [TextNode("a"), ReferenceChild(x)], " b")
        == Ok(RenderedOutputNode([TextNode("a"), ReferenceChild(x), TextNode(" b")]));
    assert "" + " b" == " b";
    assert [] + [TextNode("a")] == [TextNode("a")];
    assert ParseLoop(toks, 3, [TextNode("a"), ReferenceChild(x)], "") == ParseLoop(toks, 4, [TextNode("a"), ReferenceChild(x)], " b");
    assert Flushed([], "a") + [ReferenceChild(x)] == [TextNode("a"), ReferenceChild(x)];
    assert ParseLoop(toks, 1, [], "a") == ParseLoop(toks, 3, [TextNode("a"), ReferenceChild(x)], "");
    assert "" + "a" == "a";
    assert ParseLoop(toks, 0, [], "") == ParseLoop(toks, 1, [], "a");
  }

  // ---------------------------------------------------------------------
  // Argument lists
  // ---------------------------------------------------------------------

  lemma {:induction false} ArgumentsLoopFacts(toks: seq<Token>, p: nat, closing: TokenKind, arguments: seq<ExpressionNode>)
    requires p <= |toks| && closing != EndOfFile
    ensures var r := ArgumentsLoopAt(toks, p, closing, arguments);
            r.Ok? ==>
              0 < r.value.pos && At(toks, r.value.pos - 1).kind == closing
              && |r.value.value| > |arguments| && r.value.value[..|arguments|] == arguments
    decreases |toks| - p
  {
    var e := ExpressionAt(toks, p);
    if e.Ok? {
      var arguments' := arguments + [e.value.value];
      if At(toks, e.value.pos).kind == Comma {
        ArgumentsLoopFacts(toks, e.value.pos + 1, closing, arguments');
        var r := ArgumentsLoopAt(toks, e.value.pos + 1, closing, arguments');
        if r.Ok? {
          assert r.value.value[..|arguments|] == r.value.value[..|arguments'|][..|arguments|];
        }
      } else {
        assert arguments'[..|arguments|] == arguments;
      }
    }
  }

  /**
    An argument list ends with its closing token, and it is empty exactly
    when the closer comes at once (after optional whitespace).
  */
  lemma {:induction false} ArgumentListFacts(toks: seq<Token>, p: nat, closing: TokenKind)
    requires p <= |toks| && closing != EndOfFile
    ensures var r := ArgumentListAt(toks, p, closing);
            r.Ok? ==>
              0 < r.value.pos && At(toks, r.value.pos - 1).kind == closing
              && (r.value.value == [] <==> At(toks, SkipWhitespace(toks, p)).kind == closing)
  {
    var q := SkipWhitespace(toks, p);
    if At(toks, q).kind != closing {
      ArgumentsLoopFacts(toks, q, closing, []);
    }
  }

  // ---------------------------------------------------------------------
  // References
  // ---------------------------------------------------------------------

  /** `inner` is `outer` or one of the targets below it. */
  predicate Within(inner: ReferenceNodePart, outer: ReferenceNodePart)
    decreases outer
  {
    outer == inner || (!outer.Variable? && Within(inner, outer.target))
  }

  /** Where a run of parts may stop: where it began, or just after an identifier or a `)`. */
  predicate PartsEnd(toks: seq<Token>, p: nat, end: nat) {
    end == p || (0 < end && (At(toks, end - 1).kind == Identifier || At(toks, end - 1).kind == RightParenthesis))
  }

  lemma {:induction false} PartsFacts(toks: seq<Token>, p: nat, value: ReferenceNodePart)
    requires p <= |toks|
    ensures var r := PartsAt(toks, p, value);
            r.Ok? ==> Within(value, r.value.value) && PartsEnd(toks, p, r.value.pos)
    decreases |toks| - p, 1
  {
    if At(toks, p).kind == Dot {
      var identifier := EatAt(toks, p + 1, Identifier);
      if identifier.Ok? {
        var name := identifier.value.value.value;
        var q := identifier.value.pos;
        if At(toks, q).kind == LeftParenthesis {
          MethodPartFacts(toks, p, q, name, value);
        } else {
          var next := Property(name, value);
          assert PartsAt(toks, p, value) == PartsAt(toks, q, next);
          PartsFacts(toks, q, next);
          WithinStep(value, next, PartsAt(toks, q, next));
        }
      }
    }
  }

  /** The `.name(args)` step of `PartsFacts`. */
  lemma {:induction false} MethodPartFacts(toks: seq<Token>, p: nat, q: nat, name: string, value: ReferenceNodePart)
    requires p < q <= |toks| && At(toks, p).kind == Dot
    requires EatAt(toks, p + 1, Identifier) == Ok(Parsed(At(toks, p + 1), q))
    requires name == At(toks, p + 1).value
    requires At(toks, q).kind == LeftParenthesis
    ensures var r := PartsAt(toks, p, value);
            r.Ok? ==> Within(value, r.value.value) && PartsEnd(toks, p, r.value.pos)
    decreases |toks| - p, 0
  {
    var arguments := ArgumentListAt(toks, q + 1, RightParenthesis);
    if arguments.Ok? {
      ArgumentListFacts(toks, q + 1, RightParenthesis);
      var next := Method(name, value, arguments.value.value);
      assert PartsAt(toks, p, value) == PartsAt(toks, arguments.value.pos, next);
      PartsFacts(toks, arguments.value.pos, next);
      WithinStep(value, next, PartsAt(toks, arguments.value.pos, next));
    }
  }

  lemma {:induction false} WithinTransitive(a: ReferenceNodePart, b: ReferenceNodePart, c: ReferenceNodePart)
    requires Within(a, b) && Within(b, c)
    ensures Within(a, c)
    decreases c
  {
    if c != b {
      WithinTransitive(a, b, c.target);
    }
  }

  lemma {:induction false} WithinStep(value: ReferenceNodePart, next: ReferenceNodePart, r: Result<Parsed<ReferenceNodePart>>)
    requires !next.Variable? && next.target == value
    requires r.Ok? ==> Within(next, r.value.value)
    ensures r.Ok? ==> Within(value, r.value.value)
  {
    if r.Ok? {
      assert Within(value, next);
      WithinTransitive(value, next, r.value.value);
    }
  }

  /** After the root identifier: the parts nest on it, and the reference ends with `}` exactly when formal. */
  lemma {:induction false} ReferenceTailFacts(toks: seq<Token>, p: nat, isSilent: bool, isFormal: bool, value: ReferenceNodePart)
    requires 0 < p <= |toks| && At(toks, p - 1).kind == Identifier
    ensures var r := ReferenceTailAt(toks, p, isSilent, isFormal, value);
            r.Ok? ==>
              r.value.value.ReferenceNode? && r.value.value.isSilent == isSilent
              && Within(value, r.value.value.value)
              && (isFormal <==> At(toks, r.value.pos - 1).kind == RightCurley)
  {
    PartsFacts(toks, p, value);
  }

  /**
    A reference's parts nest left to right on its root variable, it is
    silent exactly when `!` follows the `$`, and it is formal exactly when
    it ends with `}`.
  */
  lemma {:induction false} ReferenceFacts(toks: seq<Token>, p: nat)
    requires p <= |toks|
    ensures var r := ReferenceAt(toks, p);
            r.Ok? ==>
              var afterBang := TryEatAt(toks, p + 1, Exclamation);
              var name := At(toks, TryEatAt(toks, afterBang, LeftCurley)).value;
              r.value.value.ReferenceNode?
              && Within(Variable(name), r.value.value.value)
              && (r.value.value.isSilent <==> At(toks, p + 1).kind == Exclamation)
              && (r.value.value.isFormal <==> At(toks, r.value.pos - 1).kind == RightCurley)
  {
    if At(toks, p).kind == Dollar {
      var afterBang := TryEatAt(toks, p + 1, Exclamation);
      var at := TryEatAt(toks, afterBang, LeftCurley);
      if At(toks, at).kind == Identifier {
        var isSilent := At(toks, p + 1).kind == Exclamation;
        var isFormal := At(toks, afterBang).kind == LeftCurley;
        var name := At(toks, at).value;
        assert ReferenceAt(toks, p) == ReferenceTailAt(toks, at + 1, isSilent, isFormal, Variable(name));
        ReferenceTailFacts(toks, at + 1, isSilent, isFormal, Variable(name));
      }
    }
  }

  /** `$a.b.c()`: each part wraps the one before it. */
  lemma {:induction false} PartsNestLeftToRight()
    ensures ReferenceAt([Token(Dollar, "$"), Token(Identifier, "a"), Token(Dot, "."), Token(Identifier, "b"),
                         Token(Dot, "."), Token(Identifier, "c"), Token(LeftParenthesis, "("), Token(RightParenthesis, ")")], 0)
         == Ok(Parsed(ReferenceNode(false, false, Method("c", Property("b", Variable("a")), [])), 8))
  {
    var toks := [Token(Dollar, "$"), Token(Identifier, "a"), Token(Dot, "."), Token(Identifier, "b"),
                 Token(Dot, "."), Token(Identifier, "c"), Token(LeftParenthesis, "("), Token(RightParenthesis, ")")];
    var c := Method("c", Property("b", Variable("a")), []);
    assert ArgumentListAt(toks, 7, RightParenthesis) == Ok(Parsed([], 8));
    assert PartsAt(toks, 8, c) == Ok(Parsed(c, 8));
    assert PartsAt(toks, 4, Property("b", Variable("a"))) == Ok(Parsed(c, 8));
    assert PartsAt(toks, 2, Variable("a")) == Ok(Parsed(c, 8));
  }

  /** `${a` without its closing brace is rejected; `$!{a}` is silent and formal. */
  lemma {:induction false} FormalReferenceNeedsClosingBrace()
    ensures ReferenceAt([Token(Dollar, "$"), Token(LeftCurley, "{"), Token(Identifier, "a")], 0).Err?
    ensures ReferenceAt([Token(Dollar, "$"), Token(Exclamation, "!"), Token(LeftCurley, "{"), Token(Identifier, "a"),
                         Token(RightCurley, "}")], 0)
         == Ok(Parsed(ReferenceNode(true, true, Variable("a")), 5))
  {
    var open := [Token(Dollar, "$"), Token(LeftCurley, "{"), Token(Identifier, "a")];
    assert PartsAt(open, 3, Variable("a")) == Ok(Parsed(Variable("a"), 3));
    var closed := [Token(Dollar, "$"), Token(Exclamation, "!"), Token(LeftCurley, "{"), Token(Identifier, "a"),
                   Token(RightCurley, "}")];
    assert PartsAt(closed, 4, Variable("a")) == Ok(Parsed(Variable("a"), 4));
  }

  // ---------------------------------------------------------------------
  // Number literals
  // ---------------------------------------------------------------------

  /** A minus sign followed by digits parses to the negated value, `-0` included. */
  lemma {:induction false} ParseNegated(m: nat)
    requires m <= -MinInt32
    ensures ParseInt32("-" + ShowNat(m)) == Ok(-(m as int))
  {
    var s := "-" + ShowNat(m);
    ShowNatTrimmed(m);
    assert s[1..] == ShowNat(m);
    ShowNatValue(m);
  }

  /** The tokens of an integer literal: an optional minus sign, then its digits. */
  function IntegerTokens(negative: bool, m: nat): seq<Token> {
    (if negative then [Token(Minus, "-")] else []) + [Token(NumericLiteral, ShowNat(m))]
  }

  /** The tokens of an integer literal, one by one. */
  lemma {:induction false} IntegerTokensAt(toks: seq<Token>, p: nat, negative: bool, m: nat)
    requires p + |IntegerTokens(negative, m)| <= |toks|
    requires toks[p..p + |IntegerTokens(negative, m)|] == IntegerTokens(negative, m)
    ensures negative ==> toks[p] == Token(Minus, "-")
    ensures toks[if negative then p + 1 else p] == Token(NumericLiteral, ShowNat(m))
    ensures |IntegerTokens(negative, m)| == if negative then 2 else 1
  {
    var ts := IntegerTokens(negative, m);
    var digitsAt := if negative then p + 1 else p;
    assert toks[digitsAt] == ts[digitsAt - p];
    if negative {
      assert toks[p] == ts[0];
    }
  }

  /** `Number` on an optional minus and digits not followed by `.`: `int.Parse` of the text decides. */
  lemma {:induction false} NumberOfDigits(toks: seq<Token>, p: nat, negative: bool, digits: string)
    requires var at := if negative then p + 1 else p;
             at < |toks| && toks[at] == Token(NumericLiteral, digits) && At(toks, at + 1).kind != Dot
             && (negative ==> toks[p].kind == Minus)
    ensures NumberAt(toks, p)
         == (var n := ParseInt32(if negative then "-" + digits else digits);
             if n.Err? then Err(n.error)
             else Ok(Parsed(IntegerLiteralNode(n.value), (if negative then p + 1 else p) + 1)))
  {
  }

  /**
    Every 32-bit integer written as an optional minus sign and its digits,
    and not followed by `.`, is read back as that integer.
  */
  lemma {:induction false} IntegerLiteralRoundTrip(toks: seq<Token>, p: nat, negative: bool, m: nat)
    requires p + |IntegerTokens(negative, m)| <= |toks|
    requires toks[p..p + |IntegerTokens(negative, m)|] == IntegerTokens(negative, m)
    requires At(toks, p + |IntegerTokens(negative, m)|).kind != Dot
    requires if negative then m <= -MinInt32 else m <= MaxInt32
    ensures NumberAt(toks, p)
         == Ok(Parsed(IntegerLiteralNode(if negative then -(m as int) else m), p + |IntegerTokens(negative, m)|))
  {
    IntegerTokensAt(toks, p, negative, m);
    NumberOfDigits(toks, p, negative, ShowNat(m));
    if negative {
      ParseNegated(m);
    } else {
      ParseShowRoundTrip(m);
    }
  }

  /**
    Digits, `.` and digits make a floating-point literal that keeps its
    text, with the minus sign in front when there is one.
  */
  lemma {:induction false} FloatingPointLiteralKeepsText(toks: seq<Token>, p: nat, negative: bool, whole: string, fraction: string)
    requires var start := if negative then p + 1 else p;
             start + 3 <= |toks|
             && (negative ==> toks[p].kind == Minus)
             && toks[start] == Token(NumericLiteral, whole)
             && toks[start + 1].kind == Dot
             && toks[start + 2] == Token(NumericLiteral, fraction)
    ensures NumberAt(toks, p)
         == Ok(Parsed(FloatingPointLiteralNode((if negative then "-" + whole else whole) + "." + fraction),
                      (if negative then p + 1 else p) + 3))
  {
  }

  /**
    An integer literal outside the 32-bit range, written as an optional minus
    sign and its digits, is an overflow rather than a wrap-around.
  */
  lemma {:induction false} OutOfRangeLiteralOverflows(toks: seq<Token>, p: nat, negative: bool, m: nat)
    requires p + |IntegerTokens(negative, m)| <= |toks|
    requires toks[p..p + |IntegerTokens(negative, m)|] == IntegerTokens(negative, m)
    requires At(toks, p + |IntegerTokens(negative, m)|).kind != Dot
    requires if negative then m > -MinInt32 else m > MaxInt32
    ensures NumberAt(toks, p) == Err(Overflow)
  {
    IntegerTokensAt(toks, p, negative, m);
    NumberOfDigits(toks, p, negative, ShowNat(m));
    PastRangeOverflows(m);
  }

  // ---------------------------------------------------------------------
  // Lists and ranges
  // ---------------------------------------------------------------------

  /** `List` gives a list node and stops after a `]`. */
  lemma {:induction false} ListEndsWithBracket(toks: seq<Token>, p: nat, first: ExpressionNode)
    requires p <= |toks|
    ensures var r := ListAt(toks, p, first);
            r.Ok? ==> r.value.value.ListExpressionNode? && 0 < r.value.pos && At(toks, r.value.pos - 1).kind == RightSquareBracket
  {
    if At(toks, p).kind != RightSquareBracket {
      ArgumentsLoopFacts(toks, p, RightSquareBracket, [first]);
    }
  }

  /**
    Square brackets give either a list or a range, and the expression ends
    with the closing `]`.
  */
  lemma {:induction false} RangeOrListShape(toks: seq<Token>, p: nat)
    requires p <= |toks|
    ensures var r := RangeOrListAt(toks, p);
            r.Ok? ==>
              (r.value.value.ListExpressionNode?
               || (r.value.value.BinaryExpressionNode? && r.value.value.operation == BinaryOperation.Range))
              && At(toks, r.value.pos - 1).kind == RightSquareBracket
  {
    var r := RangeOrListAt(toks, p);
    if r.Ok? {
      var q := SkipWhitespace(toks, p + 1);
      if At(toks, q).kind != RightSquareBracket {
        var first := ExpressionAt(toks, q).value;
        if At(toks, first.pos).kind == Comma {
          assert r == ListAt(toks, first.pos + 1, first.value);
          ListEndsWithBracket(toks, first.pos + 1, first.value);
        }
      }
    }
  }

  /** A `[` whose first element is followed by anything but `..`, `,` or `]` is rejected. */
  lemma {:induction false} ListNeedsSeparator(toks: seq<Token>, p: nat)
    requires p <= |toks| && At(toks, p).kind == LeftSquareBracket
    requires var q := SkipWhitespace(toks, p + 1);
             At(toks, q).kind != RightSquareBracket
             && ExpressionAt(toks, q).Ok?
             && At(toks, ExpressionAt(toks, q).value.pos).kind !in {DotDot, Comma, RightSquareBracket}
    ensures RangeOrListAt(toks, p) == Err(UnexpectedToken)
  {
  }

  lemma {:induction false} ShowOneTwoThree()
    ensures ShowNat(123) == "123"
  {
    assert ShowNat(1) == "1";
    assert ShowNat(12) == "12";
  }

  /** An integer literal in expression position, with nothing to skip around it. */
  lemma {:induction false} IntegerExpression(toks: seq<Token>, q: nat, m: nat)
    requires q < |toks| && toks[q] == Token(NumericLiteral, ShowNat(m)) && m <= MaxInt32
    requires At(toks, q + 1).kind != Dot && At(toks, q + 1).kind != Whitespace
    ensures ExpressionAt(toks, q) == Ok(Parsed(IntegerLiteralNode(m), q + 1))
  {
    assert toks[q..q + 1] == IntegerTokens(false, m);
    IntegerLiteralRoundTrip(toks, q, false, m);
    assert PrimaryAt(toks, q) == NumberAt(toks, q);
  }

  /** A floating-point literal in expression position, with nothing to skip around it. */
  lemma {:induction false} FloatExpression(toks: seq<Token>, q: nat, whole: string, fraction: string)
    requires q + 3 <= |toks| && toks[q] == Token(NumericLiteral, whole)
    requires toks[q + 1].kind == Dot && toks[q + 2] == Token(NumericLiteral, fraction)
    requires At(toks, q + 3).kind != Whitespace
    ensures ExpressionAt(toks, q) == Ok(Parsed(FloatingPointLiteralNode(whole + "." + fraction), q + 3))
  {
    FloatingPointLiteralKeepsText(toks, q, false, whole, fraction);
    assert PrimaryAt(toks, q) == NumberAt(toks, q);
  }

  /** A bracketed expression in expression position. */
  lemma {:induction false} BracketExpression(toks: seq<Token>, q: nat)
    requires q <= |toks| && At(toks, q).kind == LeftSquareBracket
    ensures ExpressionAt(toks, q)
         == (var r := RangeOrListAt(toks, q);
             if r.Err? then r else Ok(Parsed(r.value.value, SkipWhitespace(toks, r.value.pos))))
  {
    assert PrimaryAt(toks, q) == RangeOrListAt(toks, q);
  }

  const emptyList := [Token(LeftSquareBracket, "["), Token(RightSquareBracket, "]")]

  /** `[]` is the empty list. */
  lemma {:induction false} EmptyList()
    ensures ExpressionAt(emptyList, 0) == Ok(Parsed(ListExpressionNode([]), 2))
  {
    BracketExpression(emptyList, 0);
  }

  const singletonList := [Token(LeftSquareBracket, "["), Token(NumericLiteral, "123"), Token(RightSquareBracket, "]")]

  /** `[123]` is a list of one integer. */
  lemma {:induction false} SingletonList()
    ensures ExpressionAt(singletonList, 0) == Ok(Parsed(ListExpressionNode([IntegerLiteralNode(123)]), 3))
  {
    ShowOneTwoThree();
    IntegerExpression(singletonList, 1, 123);
    BracketedOne(singletonList, 0, IntegerLiteralNode(123), 2);
  }

  const nestedList := [Token(LeftSquareBracket, "["), Token(LeftSquareBracket, "["), Token(NumericLiteral, "123"),
                       Token(RightSquareBracket, "]"), Token(RightSquareBracket, "]")]

  /** The inner `[123]` of `[[123]]`. */
  lemma {:induction false} NestedListInner()
    ensures ExpressionAt(nestedList, 1) == Ok(Parsed(ListExpressionNode([IntegerLiteralNode(123)]), 4))
  {
    ShowOneTwoThree();
    IntegerExpression(nestedList, 2, 123);
    BracketedOne(nestedList, 1, IntegerLiteralNode(123), 3);
  }

  /** `[[123]]` is a list holding a list holding one integer. */
  lemma {:induction false} NestedList()
    ensures ExpressionAt(nestedList, 0) == Ok(Parsed(ListExpressionNode([ListExpressionNode([IntegerLiteralNode(123)])]), 5))
  {
    NestedListInner();
    BracketedOne(nestedList, 0, ListExpressionNode([IntegerLiteralNode(123)]), 4);
  }

  /** One more argument followed by a comma: the loop goes on after the comma. */
  lemma {:induction false} ArgumentThenComma(toks: seq<Token>, p: nat, closing: TokenKind, arguments: seq<ExpressionNode>, e: ExpressionNode, q: nat)
    requires p <= |toks| && ExpressionAt(toks, p) == Ok(Parsed(e, q)) && At(toks, q).kind == Comma
    ensures q < |toks|
    ensures ArgumentsLoopAt(toks, p, closing, arguments) == ArgumentsLoopAt(toks, q + 1, closing, arguments + [e])
  {
  }

  /** One more argument followed by the closer: the loop ends after the closer. */
  lemma {:induction false} LastArgument(toks: seq<Token>, p: nat, closing: TokenKind, arguments: seq<ExpressionNode>, e: ExpressionNode, q: nat)
    requires p <= |toks| && ExpressionAt(toks, p) == Ok(Parsed(e, q))
    requires At(toks, q).kind == closing && closing != Comma && closing != EndOfFile
    ensures ArgumentsLoopAt(toks, p, closing, arguments) == Ok(Parsed(arguments + [e], q + 1))
  {
  }

  /** A string literal in expression position, with nothing to skip after it. */
  lemma {:induction false} StringExpression(toks: seq<Token>, q: nat, text: string)
    requires q < |toks| && toks[q] == Token(StringLiteral, text) && At(toks, q + 1).kind != Whitespace
    ensures ExpressionAt(toks, q) == Ok(Parsed(StringNode(false, text), q + 1))
  {
    assert PrimaryAt(toks, q) == StringAt(toks, q, false);
  }

  /** A plain reference `$name` in expression position, followed by neither `.` nor whitespace. */
  lemma {:induction false} VariableExpression(toks: seq<Token>, q: nat, name: string)
    requires q + 1 < |toks| && toks[q].kind == Dollar && toks[q + 1] == Token(Identifier, name)
    requires At(toks, q + 2).kind != Dot && At(toks, q + 2).kind != Whitespace
    ensures ExpressionAt(toks, q) == Ok(Parsed(ReferenceNode(false, false, Variable(name)), q + 2))
  {
    assert PartsAt(toks, q + 2, Variable(name)) == Ok(Parsed(Variable(name), q + 2));
    assert PrimaryAt(toks, q) == ReferenceAt(toks, q);
  }

  /** An identifier in expression position, with nothing to skip after it. */
  lemma {:induction false} WordExpression(toks: seq<Token>, q: nat)
    requires q < |toks| && toks[q].kind == Identifier && At(toks, q + 1).kind != Whitespace
    ensures ExpressionAt(toks, q) == (var r := BooleanLiteralOrWordAt(toks, q); Ok(Parsed(r.value.value, q + 1)))
  {
    assert PrimaryAt(toks, q) == BooleanLiteralOrWordAt(toks, q);
  }

  /**
    From `p`, the expressions `elements` follow one another, element `i`
    ending at `ends[i]`, separated by commas and closed by `closing`.
  */
  predicate Separated(toks: seq<Token>, p: nat, closing: TokenKind, elements: seq<ExpressionNode>, ends: seq<nat>)
    decreases |elements|
  {
    |elements| == |ends| && |elements| > 0 && p <= |toks|
    && ExpressionAt(toks, p) == Ok(Parsed(elements[0], ends[0]))
    && if |elements| == 1 then At(toks, ends[0]).kind == closing
       else At(toks, ends[0]).kind == Comma && ends[0] < |toks|
            && Separated(toks, ends[0] + 1, closing, elements[1..], ends[1..])
  }

  /** A separated run of more than one expression: its first expression, a comma and a shorter run. */
  lemma {:induction false} SeparatedTail(toks: seq<Token>, p: nat, closing: TokenKind, elements: seq<ExpressionNode>, ends: seq<nat>)
    requires Separated(toks, p, closing, elements, ends) && |elements| > 1
    ensures ExpressionAt(toks, p) == Ok(Parsed(elements[0], ends[0]))
    ensures ends[0] < |toks| && At(toks, ends[0]).kind == Comma
    ensures Separated(toks, ends[0] + 1, closing, elements[1..], ends[1..])
    ensures ends[1..][|ends[1..]| - 1] == ends[|ends| - 1]
  {
  }

  /** One step of the argument loop over a separated run: the first expression and its comma. */
  lemma {:induction false} SeparatedLoopStep(toks: seq<Token>, p: nat, closing: TokenKind, arguments: seq<ExpressionNode>,
                          elements: seq<ExpressionNode>, ends: seq<nat>)
    requires Separated(toks, p, closing, elements, ends) && |elements| > 1
    requires ends[0] < |toks|
    ensures ArgumentsLoopAt(toks, p, closing, arguments)
         == ArgumentsLoopAt(toks, ends[0] + 1, closing, arguments + [elements[0]])
  {
    SeparatedTail(toks, p, closing, elements, ends);
    ArgumentThenComma(toks, p, closing, arguments, elements[0], ends[0]);
  }

  /** The argument loop over a run of one expression: that expression and the closer. */
  lemma {:induction false} SeparatedLoopLast(toks: seq<Token>, p: nat, closing: TokenKind, arguments: seq<ExpressionNode>,
                          elements: seq<ExpressionNode>, ends: seq<nat>)
    requires Separated(toks, p, closing, elements, ends) && |elements| == 1
    requires closing != Comma && closing != EndOfFile
    ensures ArgumentsLoopAt(toks, p, closing, arguments) == Ok(Parsed(arguments + elements, ends[0] + 1))
  {
    LastArgument(toks, p, closing, arguments, elements[0], ends[0]);
    assert elements == [elements[0]];
  }

  /** The argument loop reads a separated run of expressions up to and including its closer. */
  lemma {:induction false} SeparatedLoop(toks: seq<Token>, p: nat, closing: TokenKind, arguments: seq<ExpressionNode>,
                                         elements: seq<ExpressionNode>, ends: seq<nat>)
    requires Separated(toks, p, closing, elements, ends) && closing != Comma && closing != EndOfFile
    ensures ArgumentsLoopAt(toks, p, closing, arguments) == Ok(Parsed(arguments + elements, ends[|ends| - 1] + 1))
    decreases |elements|
  {
    if |elements| == 1 {
      SeparatedLoopLast(toks, p, closing, arguments, elements, ends);
    } else {
      SeparatedTail(toks, p, closing, elements, ends);
      SeparatedLoopStep(toks, p, closing, arguments, elements, ends);
      SeparatedLoop(toks, ends[0] + 1, closing, arguments + [elements[0]], elements[1..], ends[1..]);
      assert arguments + [elements[0]] + elements[1..] == arguments + elements;
    }
  }

  /** An expression cannot start with `]` or `)`. */
  lemma {:induction false} PrimaryNotAtCloser(toks: seq<Token>, q: nat)
    requires q <= |toks| && PrimaryAt(toks, q).Ok?
    ensures At(toks, q).kind != RightSquareBracket && At(toks, q).kind != RightParenthesis
  {
  }

  /** A separated run never starts with its closer, since an expression cannot start with `]` or `)`. */
  lemma {:induction false} SeparatedStartsWithExpression(toks: seq<Token>, p: nat, closing: TokenKind, elements: seq<ExpressionNode>, ends: seq<nat>)
    requires Separated(toks, p, closing, elements, ends)
    requires closing == RightSquareBracket || closing == RightParenthesis
    ensures At(toks, p).kind != closing
  {
    PrimaryNotAtCloser(toks, SkipWhitespace(toks, p));
  }

  /** `[`, one expression, `]`. */
  lemma {:induction false} ListOfOne(toks: seq<Token>, q: nat, e: ExpressionNode, end: nat)
    requires q < |toks| && toks[q].kind == LeftSquareBracket
    requires var s := SkipWhitespace(toks, q + 1);
             At(toks, s).kind != RightSquareBracket && ExpressionAt(toks, s) == Ok(Parsed(e, end))
             && At(toks, end).kind == RightSquareBracket
    ensures RangeOrListAt(toks, q) == Ok(Parsed(ListExpressionNode([e]), end + 1))
  {
  }

  /** `[`, one expression, `]` in expression position, with no whitespace around. */
  lemma {:induction false} BracketedOne(toks: seq<Token>, q: nat, e: ExpressionNode, end: nat)
    requires q + 1 < |toks| && toks[q].kind == LeftSquareBracket
    requires toks[q + 1].kind != Whitespace && toks[q + 1].kind != RightSquareBracket
    requires ExpressionAt(toks, q + 1) == Ok(Parsed(e, end))
    requires end < |toks| && toks[end].kind == RightSquareBracket && At(toks, end + 1).kind != Whitespace
    ensures ExpressionAt(toks, q) == Ok(Parsed(ListExpressionNode([e]), end + 1))
  {
    ListOfOne(toks, q, e, end);
    BracketExpression(toks, q);
  }

  /** `[`, one expression, `,`: the rest is read by `List`. */
  lemma {:induction false} ListOfMany(toks: seq<Token>, q: nat, e: ExpressionNode, end: nat)
    requires q < |toks| && toks[q].kind == LeftSquareBracket
    requires var s := SkipWhitespace(toks, q + 1);
             At(toks, s).kind != RightSquareBracket && ExpressionAt(toks, s) == Ok(Parsed(e, end))
             && At(toks, end).kind == Comma
    ensures end < |toks| && RangeOrListAt(toks, q) == ListAt(toks, end + 1, e)
  {
  }

  /** `List` past its first comma, when more elements follow: the argument loop reads them. */
  lemma {:induction false} ListGoesOn(toks: seq<Token>, p: nat, first: ExpressionNode, elements: seq<ExpressionNode>, end: nat)
    requires p <= |toks| && At(toks, p).kind != RightSquareBracket
    requires ArgumentsLoopAt(toks, p, RightSquareBracket, [first]) == Ok(Parsed(elements, end))
    ensures ListAt(toks, p, first) == Ok(Parsed(ListExpressionNode(elements), end))
  {
  }

  /**
    A `[`, then expressions separated by commas, then `]` is the list of
    exactly those expressions: as many elements as were written, in order.
  */
  lemma {:induction false} ListLiteral(toks: seq<Token>, q: nat, elements: seq<ExpressionNode>, ends: seq<nat>)
    requires q < |toks| && toks[q].kind == LeftSquareBracket
    requires Separated(toks, SkipWhitespace(toks, q + 1), RightSquareBracket, elements, ends)
    ensures RangeOrListAt(toks, q) == Ok(Parsed(ListExpressionNode(elements), ends[|ends| - 1] + 1))
  {
    SeparatedStartsWithExpression(toks, SkipWhitespace(toks, q + 1), RightSquareBracket, elements, ends);
    if |elements| == 1 {
      ListOfOne(toks, q, elements[0], ends[0]);
      assert elements == [elements[0]];
    } else {
      SeparatedTail(toks, SkipWhitespace(toks, q + 1), RightSquareBracket, elements, ends);
      ListOfSeveral(toks, q, elements[0], ends[0], elements[1..], ends[1..]);
      assert [elements[0]] + elements[1..] == elements;
    }
  }

  /** `ListLiteral` for more than one element: the first, a comma, and the rest. */
  lemma {:induction false} ListOfSeveral(toks: seq<Token>, q: nat, first: ExpressionNode, firstEnd: nat,
                      elements: seq<ExpressionNode>, ends: seq<nat>)
    requires q < |toks| && toks[q].kind == LeftSquareBracket
    requires var s := SkipWhitespace(toks, q + 1);
             At(toks, s).kind != RightSquareBracket && ExpressionAt(toks, s) == Ok(Parsed(first, firstEnd))
             && At(toks, firstEnd).kind == Comma
    requires Separated(toks, firstEnd + 1, RightSquareBracket, elements, ends)
    ensures RangeOrListAt(toks, q) == Ok(Parsed(ListExpressionNode([first] + elements), ends[|ends| - 1] + 1))
  {
    ListOfMany(toks, q, first, firstEnd);
    ListTail(toks, firstEnd + 1, first, elements, ends);
  }

  /** The elements of a list after its first comma. */
  lemma {:induction false} ListTail(toks: seq<Token>, rest: nat, first: ExpressionNode, elements: seq<ExpressionNode>, ends: seq<nat>)
    requires Separated(toks, rest, RightSquareBracket, elements, ends)
    ensures ListAt(toks, rest, first) == Ok(Parsed(ListExpressionNode([first] + elements), ends[|ends| - 1] + 1))
  {
    SeparatedStartsWithExpression(toks, rest, RightSquareBracket, elements, ends);
    SeparatedLoop(toks, rest, RightSquareBracket, [first], elements, ends);
    ListGoesOn(toks, rest, first, [first] + elements, ends[|ends| - 1] + 1);
  }

  /**
    The tokens of `['text',whole.fraction,$name,true]`, as the lexer gives
    them for the list `['test',4.5,$variable,true]`.
  */
  function MixedTokens(text: string, whole: string, fraction: string, name: string): seq<Token> {
    [Token(LeftSquareBracket, "["), Token(StringLiteral, text), Token(Comma, ","),
     Token(NumericLiteral, whole), Token(Dot, "."), Token(NumericLiteral, fraction), Token(Comma, ","),
     Token(Dollar, "$"), Token(Identifier, name), Token(Comma, ","),
     Token(Identifier, "true"), Token(RightSquareBracket, "]")]
  }

  /** The argument loop at `whole.fraction,`: a floating-point literal and a comma. */
  lemma {:induction false} MixedFloatStep(text: string, whole: string, fraction: string, name: string)
    ensures ArgumentsLoopAt(MixedTokens(text, whole, fraction, name), 3, RightSquareBracket, [StringNode(false, text)])
         == ArgumentsLoopAt(MixedTokens(text, whole, fraction, name), 7, RightSquareBracket,
                            [StringNode(false, text), FloatingPointLiteralNode(whole + "." + fraction)])
  {
    var toks := MixedTokens(text, whole, fraction, name);
    FloatExpression(toks, 3, whole, fraction);
    var f := FloatingPointLiteralNode(whole + "." + fraction);
    ArgumentThenComma(toks, 3, RightSquareBracket, [StringNode(false, text)], f, 6);
    assert [StringNode(false, text)] + [f] == [StringNode(false, text), f];
  }

  /** The argument loop at `$name,`: a reference and a comma. */
  lemma {:induction false} MixedReferenceStep(text: string, whole: string, fraction: string, name: string, done: seq<ExpressionNode>)
    ensures ArgumentsLoopAt(MixedTokens(text, whole, fraction, name), 7, RightSquareBracket, done)
         == ArgumentsLoopAt(MixedTokens(text, whole, fraction, name), 10, RightSquareBracket,
                            done + [ReferenceNode(false, false, Variable(name))])
  {
    var toks := MixedTokens(text, whole, fraction, name);
    VariableExpression(toks, 7, name);
    ArgumentThenComma(toks, 7, RightSquareBracket, done, ReferenceNode(false, false, Variable(name)), 9);
  }

  /** The argument loop at `true]`: a boolean and the closer. */
  lemma {:induction false} MixedBooleanStep(text: string, whole: string, fraction: string, name: string, done: seq<ExpressionNode>)
    ensures ArgumentsLoopAt(MixedTokens(text, whole, fraction, name), 10, RightSquareBracket, done)
         == Ok(Parsed(done + [BooleanLiteralNode(true)], 12))
  {
    var toks := MixedTokens(text, whole, fraction, name);
    WordExpression(toks, 10);
    LastArgument(toks, 10, RightSquareBracket, done, BooleanLiteralNode(true), 11);
  }

  /** The argument loop over `whole.fraction,$name,true]`, after `['text',`. */
  lemma {:induction false} MixedListElements(text: string, whole: string, fraction: string, name: string)
    ensures ArgumentsLoopAt(MixedTokens(text, whole, fraction, name), 3, RightSquareBracket, [StringNode(false, text)])
         == Ok(Parsed([StringNode(false, text), FloatingPointLiteralNode(whole + "." + fraction),
                       ReferenceNode(false, false, Variable(name)), BooleanLiteralNode(true)], 12))
  {
    var s := StringNode(false, text);
    var f := FloatingPointLiteralNode(whole + "." + fraction);
    var v := ReferenceNode(false, false, Variable(name));
    MixedFloatStep(text, whole, fraction, name);
    MixedReferenceStep(text, whole, fraction, name, [s, f]);
    MixedBooleanStep(text, whole, fraction, name, [s, f] + [v]);
    assert [s, f] + [v] + [BooleanLiteralNode(true)] == [s, f, v, BooleanLiteralNode(true)];
  }

  /**
    `['test',4.5,$variable,true]` is a list of four elements of four kinds:
    a string, a floating-point literal, a reference and a boolean.
  */
  lemma {:induction false} MixedList(text: string, whole: string, fraction: string, name: string)
    ensures ExpressionAt(MixedTokens(text, whole, fraction, name), 0)
         == Ok(Parsed(ListExpressionNode([StringNode(false, text), FloatingPointLiteralNode(whole + "." + fraction),
                                          ReferenceNode(false, false, Variable(name)), BooleanLiteralNode(true)]), 12))
  {
    var toks := MixedTokens(text, whole, fraction, name);
    var s := StringNode(false, text);
    StringExpression(toks, 1, text);
    ListOfMany(toks, 0, s, 2);
    MixedListTail(text, whole, fraction, name);
    BracketExpression(toks, 0);
  }

  /** `List` after `['text',`. */
  lemma {:induction false} MixedListTail(text: string, whole: string, fraction: string, name: string)
    ensures ListAt(MixedTokens(text, whole, fraction, name), 3, StringNode(false, text))
         == Ok(Parsed(ListExpressionNode([StringNode(false, text), FloatingPointLiteralNode(whole + "." + fraction),
                                          ReferenceNode(false, false, Variable(name)), BooleanLiteralNode(true)]), 12))
  {
    var s := StringNode(false, text);
    MixedListElements(text, whole, fraction, name);
    ListGoesOn(MixedTokens(text, whole, fraction, name), 3, s,
               [s, FloatingPointLiteralNode(whole + "." + fraction),
                ReferenceNode(false, false, Variable(name)), BooleanLiteralNode(true)], 12);
  }

  /** `[`, an expression, `..`, an expression, `]`: a range between the two. */
  lemma {:induction false} RangeLiteral(toks: seq<Token>, q: nat, left: ExpressionNode, leftEnd: nat, right: ExpressionNode, rightEnd: nat)
    requires q < |toks| && toks[q].kind == LeftSquareBracket
    requires var s := SkipWhitespace(toks, q + 1);
             At(toks, s).kind != RightSquareBracket && ExpressionAt(toks, s) == Ok(Parsed(left, leftEnd))
             && At(toks, leftEnd).kind == DotDot
    requires leftEnd < |toks| && ExpressionAt(toks, leftEnd + 1) == Ok(Parsed(right, rightEnd))
    requires At(toks, rightEnd).kind == RightSquareBracket
    ensures RangeOrListAt(toks, q) == Ok(Parsed(BinaryExpressionNode(left, BinaryOperation.Range, right), rightEnd + 1))
  {
  }

  /** The tokens of `[a..b]` for two natural numbers. */
  function RangeTokens(a: nat, b: nat): seq<Token> {
    [Token(LeftSquareBracket, "["), Token(NumericLiteral, ShowNat(a)), Token(DotDot, ".."),
     Token(NumericLiteral, ShowNat(b)), Token(RightSquareBracket, "]")]
  }

  /** `[a..b]`, for any two 32-bit naturals such as `[1..2]`, is a range node between the two integers. */
  lemma {:induction false} IntegerRange(a: nat, b: nat)
    requires a <= MaxInt32 && b <= MaxInt32
    ensures ExpressionAt(RangeTokens(a, b), 0)
         == Ok(Parsed(BinaryExpressionNode(IntegerLiteralNode(a), BinaryOperation.Range, IntegerLiteralNode(b)), 5))
  {
    IntegerRangeBrackets(a, b);
    BracketExpression(RangeTokens(a, b), 0);
  }

  /** `RangeOrList` over the tokens of `[a..b]`. */
  lemma {:induction false} IntegerRangeBrackets(a: nat, b: nat)
    requires a <= MaxInt32 && b <= MaxInt32
    ensures RangeOrListAt(RangeTokens(a, b), 0)
         == Ok(Parsed(BinaryExpressionNode(IntegerLiteralNode(a), BinaryOperation.Range, IntegerLiteralNode(b)), 5))
  {
    var toks := RangeTokens(a, b);
    IntegerExpression(toks, 1, a);
    IntegerExpression(toks, 3, b);
    RangeLiteral(toks, 0, IntegerLiteralNode(a), 2, IntegerLiteralNode(b), 4);
  }
}
