/**
  The `#if` statement of the older compiler: child 0 is the condition, child 1
  the true block, and the remaining children (else-ifs, then at most one else)
  are folded from the last one back into a chain of conditionals.
*/
module IfStatement {
  import opened Wrappers
  import opened HostTypes
  import opened ExpressionTree
  import opened NVelocityAst

  /** The `If` helper: an if-then-else when there is false content, else an if-then; a condition not typed bool is coerced. */
  function If(condition: Expr, trueContent: Expr, falseContent: Option<Expr>): (r: Expr)
    ensures r.IfThen? <==> falseContent.None?
    ensures r.IfThenElse? <==> falseContent.Some?
    ensures TypeOf(r) == VoidTy
    ensures TypeOf(r.condition) == Prim(Boolean)
    ensures TypeOf(condition) == Prim(Boolean) ==> r.condition == condition
    ensures TypeOf(condition) != Prim(Boolean) ==> r.condition == CoerceToBoolean(condition)
    ensures r.ifTrue == trueContent
    ensures falseContent.Some? ==> r.ifFalse == falseContent.value
  {
    var c := if TypeOf(condition) == Prim(Boolean) then condition else CoerceToBoolean(condition);
    if falseContent.Some? then IfThenElse(c, trueContent, falseContent.value) else IfThen(c, trueContent)
  }

  /** An else-if with a condition and a block, both of which convert. */
  predicate ElseIfConverts(conv: Converter, n: Node) {
    && n.kind.ElseIfStatementNode?
    && |n.children| >= 2
    && conv.expr(n.children[0]).Ok?
    && conv.block(n.children[1]).Ok?
  }

  /** An else with exactly one child, whose block converts. */
  predicate ElseConverts(conv: Converter, n: Node) {
    n.kind.ElseStatementNode? && |n.children| == 1 && conv.block(n.children[0]).Ok?
  }

  /**
    One step of the backward loop: the false content after visiting `child`,
    given the content built from the children after it. An else-if converts
    its condition before it looks up its block, so a failing condition wins
    over a missing block.
  */
  function FoldChild(conv: Converter, child: Node, later: Option<Expr>): (r: Result<Option<Expr>>)
    ensures r.Ok? ==> r.value.Some?
    ensures child.kind.ElseStatementNode? ==> (r.Ok? <==> later.None? && ElseConverts(conv, child))
    ensures child.kind.ElseStatementNode? && later.Some? ==> r == Err(InvalidOperation("Cannot have two 'else' statements"))
    ensures child.kind.ElseStatementNode? && later.None? && |child.children| == 1 && conv.block(child.children[0]).Err? ==>
              r == Err(conv.block(child.children[0]).error)
    ensures child.kind.ElseIfStatementNode? ==> (r.Ok? <==> ElseIfConverts(conv, child))
    ensures child.kind.ElseIfStatementNode? && child.children != [] && conv.expr(child.children[0]).Err? ==>
              r == Err(conv.expr(child.children[0]).error)
    ensures child.kind.ElseIfStatementNode? && (child.children == [] || (|child.children| == 1 && conv.expr(child.children[0]).Ok?)) ==>
              r == Err(IndexOutOfRange)
    ensures !child.kind.ElseStatementNode? && !child.kind.ElseIfStatementNode? ==>
              r == Err(InvalidOperation("Expected: ASTElseStatement"))
  {
    match child.kind
    case ElseStatementNode =>
      if later.Some? then Err(InvalidOperation("Cannot have two 'else' statements"))
      else if |child.children| != 1 then Err(InvalidOperation("Expected ASTElseStatement to only have 1 child"))
      else
        var content :- conv.block(child.children[0]);
        Ok(Some(content))
    case ElseIfStatementNode =>
      var c :- GetChild(child, 0);
      var condition :- conv.expr(c);
      var b :- GetChild(child, 1);
      var content :- conv.block(b);
      Ok(Some(If(condition, content, later)))
    case _ => Err(InvalidOperation("Expected: ASTElseStatement"))
  }

  /** The false content built from the trailing children, the last one visited first. */
  function FoldTrailing(conv: Converter, trailing: seq<Node>): (r: Result<Option<Expr>>)
    ensures r.Ok? ==> (r.value.Some? <==> trailing != [])
    decreases |trailing|
  {
    if trailing == [] then Ok(None)
    else
      var later :- FoldTrailing(conv, trailing[1..]);
      FoldChild(conv, trailing[0], later)
  }

  /** The condition (child 0) and the true block (child 1) exist and convert. */
  predicate HeadConverts(conv: Converter, node: Node) {
    |node.children| >= 2 && conv.expr(node.children[0]).Ok? && conv.block(node.children[1]).Ok?
  }

  /**
    The statement a well-kinded node with a converter stands for: child 0 is
    converted before child 1 is looked up, then the trailing children fold.
  */
  function Build(conv: Converter, node: Node): (r: Result<Expr>)
    ensures node.children == [] ==> r == Err(IndexOutOfRange)
    ensures node.children != [] && conv.expr(node.children[0]).Err? ==> r == Err(conv.expr(node.children[0]).error)
    ensures |node.children| == 1 && conv.expr(node.children[0]).Ok? ==> r == Err(IndexOutOfRange)
    ensures |node.children| >= 2 && conv.expr(node.children[0]).Ok? && conv.block(node.children[1]).Err? ==>
              r == Err(conv.block(node.children[1]).error)
    ensures HeadConverts(conv, node) && FoldTrailing(conv, node.children[2..]).Err? ==>
              r == Err(FoldTrailing(conv, node.children[2..]).error)
    ensures r.Ok? <==> HeadConverts(conv, node) && FoldTrailing(conv, node.children[2..]).Ok?
  {
    var c :- GetChild(node, 0);
    var condition :- conv.expr(c);
    var t :- GetChild(node, 1);
    var trueContent :- conv.block(t);
    var falseContent :- FoldTrailing(conv, node.children[2..]);
    Ok(If(condition, trueContent, falseContent))
  }

  /** The constructor: checks its arguments, then folds the trailing children from the last back to index 2. */
  method Create(node: Option<Node>, converter: Option<Converter>) returns (r: Result<Expr>)
    ensures node.None? ==> r == Err(ArgumentNull("node"))
    ensures node.Some? && !node.value.kind.IfStatementNode? ==> r == Err(ArgumentOutOfRange("node"))
    ensures node.Some? && node.value.kind.IfStatementNode? && converter.None? ==> r == Err(ArgumentNull("converter"))
    ensures node.Some? && node.value.kind.IfStatementNode? && converter.Some? ==> r == Build(converter.value, node.value)
  {
    if node.None? {
      return Err(ArgumentNull("node"));
    }
    var n := node.value;
    if !n.kind.IfStatementNode? {
      return Err(ArgumentOutOfRange("node"));
    }
    if converter.None? {
      return Err(ArgumentNull("converter"));
    }
    var conv := converter.value;
    var c := GetChild(n, 0);
    if c.Err? {
      return Err(c.error);
    }
    var condition := conv.expr(c.value);
    if condition.Err? {
      return Err(condition.error);
    }
    var t := GetChild(n, 1);
    if t.Err? {
      return Err(t.error);
    }
    var trueContent := conv.block(t.value);
    if trueContent.Err? {
      return Err(trueContent.error);
    }
    var falseContent := FoldBackwards(conv, n.children[2..]);
    if falseContent.Err? {
      return Err(falseContent.error);
    }
    r := Ok(If(condition.value, trueContent.value, falseContent.value));
  }

  /** The constructor's loop over the children after the first two, from the last one back. */
  method FoldBackwards(conv: Converter, trailing: seq<Node>) returns (r: Result<Option<Expr>>)
    ensures r == FoldTrailing(conv, trailing)
  {
    var falseContent: Option<Expr> := None;
    var i := |trailing|;
    assert trailing[i..] == [];
    while i > 0
      invariant 0 <= i <= |trailing|
      invariant FoldTrailing(conv, trailing[i..]) == Ok(falseContent)
      decreases i
    {
      var child := trailing[i - 1];
      assert trailing[i - 1..][1..] == trailing[i..];
      var step := FoldChild(conv, child, falseContent);
      if step.Err? {
        assert FoldTrailing(conv, trailing[i - 1..]).Err?;
        TrailingErrorPropagates(conv, trailing, i - 1);
        return Err(step.error);
      }
      falseContent := step.value;
      i := i - 1;
    }
    assert trailing[i..] == trailing;
    r := Ok(falseContent);
  }

  /** An error in the content built from a suffix is the error of the whole fold. */
  lemma {:induction false} TrailingErrorPropagates(conv: Converter, trailing: seq<Node>, k: nat)
    requires k <= |trailing|
    requires FoldTrailing(conv, trailing[k..]).Err?
    ensures FoldTrailing(conv, trailing) == FoldTrailing(conv, trailing[k..])
    decreases k
  {
    if k > 0 {
      assert trailing[1..][k - 1..] == trailing[k..];
      TrailingErrorPropagates(conv, trailing[1..], k - 1);
    }
  }

  /**
    The trailing children the constructor accepts: else-ifs, the last of which
    may instead be one else, with every condition and block converting.
  */
  predicate Accepted(conv: Converter, trailing: seq<Node>) {
    && (forall i :: 0 <= i < |trailing| - 1 ==> ElseIfConverts(conv, trailing[i]))
    && (trailing != [] ==> ElseIfConverts(conv, trailing[|trailing| - 1]) || ElseConverts(conv, trailing[|trailing| - 1]))
  }

  /** Content built from a non-empty suffix is never absent. */
  lemma {:induction false} NonEmptyFoldIsSome(conv: Converter, trailing: seq<Node>)
    requires trailing != [] && FoldTrailing(conv, trailing).Ok?
    ensures FoldTrailing(conv, trailing).value.Some?
  {
    var later := FoldTrailing(conv, trailing[1..]);
    assert later.Ok?;
  }

  /** The trailing children fold without error exactly when they are accepted. */
  lemma {:induction false} FoldAcceptsExactly(conv: Converter, trailing: seq<Node>)
    ensures FoldTrailing(conv, trailing).Ok? <==> Accepted(conv, trailing)
    decreases |trailing|
  {
    if trailing != [] {
      var rest := trailing[1..];
      FoldAcceptsExactly(conv, rest);
      if rest == [] {
        assert FoldTrailing(conv, rest) == Ok(None);
      } else {
        assert rest[|rest| - 1] == trailing[|trailing| - 1];
        forall i | 0 <= i < |rest| - 1
          ensures rest[i] == trailing[i + 1]
        {
        }
        if FoldTrailing(conv, rest).Ok? {
          NonEmptyFoldIsSome(conv, rest);
        }
        if Accepted(conv, trailing) {
          assert ElseIfConverts(conv, trailing[0]);
          assert Accepted(conv, rest);
        }
      }
    }
  }

  /**
    An else that is followed by any other trailing child makes the
    constructor throw; when the children after it are well formed, the error
    is the one for a second else.
  */
  lemma {:induction false} ElseMustBeLast(conv: Converter, trailing: seq<Node>, k: nat)
    requires k < |trailing| - 1 && trailing[k].kind.ElseStatementNode?
    ensures FoldTrailing(conv, trailing).Err?
    ensures FoldTrailing(conv, trailing[k + 1..]).Ok? ==>
      FoldTrailing(conv, trailing) == Err(InvalidOperation("Cannot have two 'else' statements"))
  {
    FoldAcceptsExactly(conv, trailing);
    var rest := trailing[k + 1..];
    if FoldTrailing(conv, rest).Ok? {
      NonEmptyFoldIsSome(conv, rest);
      assert trailing[k..][1..] == rest;
      assert FoldTrailing(conv, trailing[k..]).Err?;
      TrailingErrorPropagates(conv, trailing, k);
    } else {
      assert trailing[k..][1..] == rest;
      TrailingErrorPropagates(conv, trailing, k);
    }
  }

  /** The converter, given a child of one of the trailing children, throws `e`. */
  predicate ConverterThrew(conv: Converter, trailing: seq<Node>, e: Exception) {
    exists k, j :: 0 <= k < |trailing| && 0 <= j < |trailing[k].children| &&
      (conv.expr(trailing[k].children[j]) == Err(e) || conv.block(trailing[k].children[j]) == Err(e))
  }

  /**
    Every error of the fold is an `InvalidOperationException` of the
    constructor's own, a missing child of an else-if, or an exception the
    converter threw for a child of one of the trailing children.
  */
  lemma {:induction false} TrailingErrorSources(conv: Converter, trailing: seq<Node>)
    requires FoldTrailing(conv, trailing).Err?
    ensures var e := FoldTrailing(conv, trailing).error;
      e.InvalidOperation? || e == IndexOutOfRange || ConverterThrew(conv, trailing, e)
    decreases |trailing|
  {
    var e := FoldTrailing(conv, trailing).error;
    var rest := trailing[1..];
    if FoldTrailing(conv, rest).Err? {
      TrailingErrorSources(conv, rest);
      if ConverterThrew(conv, rest, e) {
        var k, j :| 0 <= k < |rest| && 0 <= j < |rest[k].children| &&
          (conv.expr(rest[k].children[j]) == Err(e) || conv.block(rest[k].children[j]) == Err(e));
        assert rest[k] == trailing[k + 1];
      }
    } else {
      var child := trailing[0];
      if child.kind.ElseStatementNode? && |child.children| == 1 && conv.block(child.children[0]).Err? {
        assert trailing[0].children[0] == child.children[0];
      } else if child.kind.ElseIfStatementNode? && child.children != [] {
        assert trailing[0].children[0] == child.children[0];
        if |child.children| >= 2 {
          assert trailing[0].children[1] == child.children[1];
        }
      }
    }
  }

  /**
    The first else-if is the outermost test of the false content: its
    condition and block head the chain, and the later children form its
    false branch.
  */
  lemma {:induction false} FirstElseIfIsOutermost(conv: Converter, trailing: seq<Node>)
    requires trailing != [] && Accepted(conv, trailing) && ElseIfConverts(conv, trailing[0])
    ensures FoldTrailing(conv, trailing).Ok? && FoldTrailing(conv, trailing).value.Some?
    ensures var e := FoldTrailing(conv, trailing).value.value;
            var first := trailing[0];
            var condition := conv.expr(first.children[0]).value;
            e.ifTrue == conv.block(first.children[1]).value
            && (TypeOf(condition) == Prim(Boolean) ==> e.condition == condition)
            && (|trailing| == 1 <==> e.IfThen?)
  {
    FoldAcceptsExactly(conv, trailing);
    var rest := trailing[1..];
    FoldAcceptsExactly(conv, rest);
    if rest != [] {
      assert rest[|rest| - 1] == trailing[|trailing| - 1];
      forall i | 0 <= i < |rest| - 1
        ensures ElseIfConverts(conv, rest[i])
      {
        assert rest[i] == trailing[i + 1];
      }
      NonEmptyFoldIsSome(conv, rest);
    }
  }

  /** The statement is of type void, its condition is boolean, and its true branch is child 1's block. */
  lemma {:induction false} BuiltStatementIsVoid(conv: Converter, node: Node)
    requires Build(conv, node).Ok?
    ensures TypeOf(Build(conv, node).value) == VoidTy
    ensures TypeOf(Build(conv, node).value.condition) == Prim(Boolean)
    ensures Build(conv, node).value.ifTrue == conv.block(node.children[1]).value
  {
  }
}
