/**
  The foreach loop node: obtains an enumerator from the enumerable once, and
  while `MoveNext` answers true assigns `Current` to the loop item and runs
  the body.
*/
module ForeachExpression {
  import opened Wrappers
  import opened HostTypes
  import opened ExpressionTree

  /** A jump target; a label the caller does not supply is created afresh. */
  datatype Label = Label(name: string, id: nat) | FreshLabel(name: string)

  datatype ForeachNode = ForeachNode(
    enumerable: Expr,
    body: Expr,
    currentItem: Expr,
    breakLabel: Label,
    continueLabel: Label)

  /**
    The constructor: every operand is required (null is `None`), the
    enumerable must be statically an `IEnumerable`, and missing labels are
    replaced by fresh ones.
  */
  function Create(h: Host, enumerable: Option<Expr>, body: Option<Expr>, currentItem: Option<Expr>,
                  breakLabel: Option<Label>, continueLabel: Option<Label>): (r: Result<ForeachNode>)
    ensures enumerable.None? ==> r == Err(ArgumentNull("enumerable"))
    ensures enumerable.Some? && !IsAssignableFrom(h, EnumerableTy, TypeOf(enumerable.value)) ==>
      r == Err(ArgumentOutOfRange("enumerable"))
    ensures r.Ok? <==> enumerable.Some? && IsAssignableFrom(h, EnumerableTy, TypeOf(enumerable.value))
                       && body.Some? && currentItem.Some?
    ensures r.Ok? ==> r.value.enumerable == enumerable.value && r.value.body == body.value
                      && r.value.currentItem == currentItem.value
    ensures r.Ok? ==> r.value.breakLabel == (if breakLabel.Some? then breakLabel.value else FreshLabel("break"))
    ensures r.Ok? ==> r.value.continueLabel == (if continueLabel.Some? then continueLabel.value else FreshLabel("continue"))
  {
    if enumerable.None? then Err(ArgumentNull("enumerable"))
    else if !IsAssignableFrom(h, EnumerableTy, TypeOf(enumerable.value)) then Err(ArgumentOutOfRange("enumerable"))
    else if body.None? then Err(ArgumentNull("body"))
    else if currentItem.None? then Err(ArgumentNull("currentItem"))
    else
      Ok(ForeachNode(enumerable.value, body.value, currentItem.value,
                     if breakLabel.Some? then breakLabel.value else FreshLabel("break"),
                     if continueLabel.Some? then continueLabel.value else FreshLabel("continue")))
  }

  /** An `IEnumerator` over a fixed sequence of items. */
  class Enumerator {
    const items: seq<Value>
    var position: int

    ghost predicate Valid()
      reads this
    {
      -1 <= position <= |items|
    }

    constructor(items: seq<Value>)
      ensures this.items == items && position == -1
      ensures Valid()
    {
      this.items := items;
      position := -1;
    }

    /** Advances to the next item; answers false, and stays past the end, once there is none. */
    method MoveNext() returns (more: bool)
      requires Valid()
      modifies this
      ensures Valid()
      ensures more <==> old(position) + 1 < |items|
      ensures position == if more then old(position) + 1 else |items|
    {
      if position + 1 < |items| {
        position := position + 1;
        more := true;
      } else {
        position := |items|;
        more := false;
      }
    }

    function Current(): Value
      reads this
      requires 0 <= position < |items|
    {
      items[position]
    }
  }

  /**
    How one run of the body ends: by falling off its end, by a jump to the
    continue label (back to `MoveNext`), or by a jump to the break label
    (out of the loop).
  */
  datatype Jump = Fallthrough | ContinueJump | BreakJump

  /** The loop body: given the item and the loop state, how it ends and the new state. */
  type Body<!S> = (Value, S) -> (Jump, S)

  /** What running the loop over some items yields: the state, how many bodies ran, and whether one broke out. */
  datatype Outcome<S> = Outcome(state: S, runs: nat, broke: bool)

  /**
    The effect of running the body once per item, in order, on the loop's
    state, stopping after the first body that jumps to the break label.
  */
  function Iterate<S>(body: Body<S>, items: seq<Value>, s: S): (r: Outcome<S>)
    ensures r.runs <= |items|
    ensures !r.broke ==> r.runs == |items|
    ensures r.broke ==> 0 < r.runs && body(items[r.runs - 1], Iterate(body, items[..r.runs - 1], s).state).0 == BreakJump
    decreases |items|
  {
    if items == [] then Outcome(s, 0, false)
    else
      var (jump, t) := body(items[0], s);
      if jump == BreakJump then Outcome(t, 1, true)
      else
        var rest := Iterate(body, items[1..], t);
        assert rest.broke ==>
          var k := rest.runs;
          assert items[..k][1..] == items[1..][..k - 1] && items[..k][0] == items[0];
          && Iterate(body, items[..k], s).state == Iterate(body, items[1..][..k - 1], t).state
          && items[k] == items[1..][k - 1];
        Outcome(rest.state, rest.runs + 1, rest.broke)
  }

  /**
    Running over a concatenation is running over each part in turn, unless
    a body over the first part breaks out of the loop.
  */
  lemma {:induction false} IterateAppend<S>(body: Body<S>, xs: seq<Value>, ys: seq<Value>, s: S)
    ensures var first := Iterate(body, xs, s);
      Iterate(body, xs + ys, s) ==
        if first.broke then first
        else var rest := Iterate(body, ys, first.state); Outcome(rest.state, |xs| + rest.runs, rest.broke)
    decreases |xs|
  {
    if xs != [] {
      assert (xs + ys)[0] == xs[0];
      assert (xs + ys)[1..] == xs[1..] + ys;
      var (jump, t) := body(xs[0], s);
      if jump != BreakJump {
        IterateAppend(body, xs[1..], ys, t);
      }
    } else {
      assert xs + ys == ys;
    }
  }

  /** A jump to the continue label does what falling off the end of the body does. */
  lemma {:induction false} ContinueIsFallthrough<S>(body: Body<S>, items: seq<Value>, s: S)
    ensures Iterate(body, items, s) ==
            Iterate((v: Value, t: S) => (if body(v, t).0 == ContinueJump then Fallthrough else body(v, t).0, body(v, t).1), items, s)
    decreases |items|
  {
    if items != [] {
      ContinueIsFallthrough(body, items[1..], body(items[0], s).1);
    }
  }

  /** A body that never breaks runs once for every item. */
  lemma {:induction false} NoBreakRunsAll<S>(body: Body<S>, items: seq<Value>, s: S)
    requires forall v: Value, t: S :: body(v, t).0 != BreakJump
    ensures !Iterate(body, items, s).broke && Iterate(body, items, s).runs == |items|
  {
  }

  /** A body that only counts its runs, and breaks once it has counted to `limit`, runs up to `limit` times. */
  lemma {:induction false} IterateCounts(items: seq<Value>, n: int, limit: int)
    requires n <= limit
    ensures var r := Iterate((_: Value, k: int) => (if k + 1 >= limit then BreakJump else Fallthrough, k + 1), items, n);
      && r.state == n + r.runs
      && (r.broke <==> n + |items| >= limit && items != [])
      && r.runs == (if n + |items| >= limit && items != [] then (if limit - n < 1 then 1 else limit - n) else |items|)
    decreases |items|
  {
    if items != [] && n + 1 < limit {
      IterateCounts(items[1..], n + 1, limit);
    }
  }

  /**
    The reduced loop: obtain the enumerator once, then until `MoveNext`
    answers false or the body jumps to the break label, assign `Current` to
    the item and run the body. Returns the item's final value, the loop
    state, the values assigned to the item in order, and how many times
    `MoveNext` was called.
  */
  method RunLoop<S>(elems: seq<Value>, body: Body<S>, item0: Value, s0: S)
    returns (item: Value, s: S, itemHistory: seq<Value>, moveNextCalls: nat)
    ensures var o := Iterate(body, elems, s0);
      && s == o.state
      && itemHistory == elems[..o.runs]
      && item == (if o.runs == 0 then item0 else elems[o.runs - 1])
      && moveNextCalls == (if o.broke then o.runs else |elems| + 1)
  {
    var e := new Enumerator(elems);
    item, s, itemHistory, moveNextCalls := item0, s0, [], 0;
    var k := 0;
    ghost var o := Iterate(body, elems, s0);
    while true
      invariant e.Valid() && e.items == elems
      invariant 0 <= k <= |elems| && e.position == k - 1
      invariant moveNextCalls == k
      invariant itemHistory == elems[..k]
      invariant item == if k == 0 then item0 else elems[k - 1]
      invariant var rest := Iterate(body, elems[k..], s); o == Outcome(rest.state, k + rest.runs, rest.broke)
      decreases |elems| - k
    {
      var more := e.MoveNext();
      moveNextCalls := moveNextCalls + 1;
      if !more {
        assert elems[k..] == [];
        break;
      }
      item := e.Current();
      itemHistory := itemHistory + [item];
      assert elems[k..][1..] == elems[k + 1..];
      var ran := body(item, s);
      var jump := ran.0;
      s := ran.1;
      k := k + 1;
      if jump == BreakJump {
        assert o == Outcome(s, k, true);
        break;
      }
    }
  }

  /**
    `Reduce()` run on a value of the enumerable: a null enumerable fails when
    its enumerator is requested; otherwise the loop runs over its elements
    until they run out or the body breaks out.
  */
  method Execute<S>(node: ForeachNode, enumerableValue: Value, body: Body<S>, item0: Value, s0: S)
    returns (r: Result<(Value, S)>)
    requires enumerableValue == NullValue || Elements(enumerableValue).Some?
    ensures enumerableValue == NullValue ==> r == Err(NullReference)
    ensures enumerableValue != NullValue ==>
      var elems := Elements(enumerableValue).value;
      var o := Iterate(body, elems, s0);
      r == Ok((if o.runs == 0 then item0 else elems[o.runs - 1], o.state))
  {
    if enumerableValue == NullValue {
      return Err(NullReference);
    }
    var item, s, _, _ := RunLoop(Elements(enumerableValue).value, body, item0, s0);
    r := Ok((item, s));
  }
}
