/**
  The `#foreach` directive: splitting the body into its nine sections at the
  section-marker directives, and the lowered loop, which evaluates the
  enumerable once, takes the no-data path when it is not enumerable, and
  otherwise saves the loop item and index, runs the sectioned loop, and
  restores them.
*/
module ForeachDirective {
  import opened Wrappers
  import opened HostTypes
  import opened ExpressionTree

  /** The nine sections of a foreach body, in slot order. */
  datatype Section = BeforeAll | Before | Each | Odd | Even | Between | After | AfterAll | NoData

  function SlotOf(s: Section): (k: nat)
    ensures k < 9
  {
    match s
    case BeforeAll => 0
    case Before => 1
    case Each => 2
    case Odd => 3
    case Even => 4
    case Between => 5
    case After => 6
    case AfterAll => 7
    case NoData => 8
  }

  /** The section kept in each slot. */
  function SectionAt(k: nat): (s: Section)
    requires k < 9
    ensures SlotOf(s) == k
  {
    [BeforeAll, Before, Each, Odd, Even, Between, After, AfterAll, NoData][k]
  }

  /** Distinct sections occupy distinct slots. */
  lemma {:induction false} SlotsDistinct(s: Section, t: Section)
    ensures SlotOf(s) == SlotOf(t) ==> s == t
  {
  }

  /** `Enum.TryParse(name, ignoreCase: true)` over the section names. */
  function ParseSection(name: string): (r: Option<Section>)
    ensures r.Some? ==> EqualsIgnoreCase(name, SectionName(r.value))
  {
    if EqualsIgnoreCase(name, "BeforeAll") then Some(BeforeAll)
    else if EqualsIgnoreCase(name, "Before") then Some(Before)
    else if EqualsIgnoreCase(name, "Each") then Some(Each)
    else if EqualsIgnoreCase(name, "Odd") then Some(Odd)
    else if EqualsIgnoreCase(name, "Even") then Some(Even)
    else if EqualsIgnoreCase(name, "Between") then Some(Between)
    else if EqualsIgnoreCase(name, "After") then Some(After)
    else if EqualsIgnoreCase(name, "AfterAll") then Some(AfterAll)
    else if EqualsIgnoreCase(name, "NoData") then Some(NoData)
    else None
  }

  function SectionName(s: Section): string {
    match s
    case BeforeAll => "BeforeAll"
    case Before => "Before"
    case Each => "Each"
    case Odd => "Odd"
    case Even => "Even"
    case Between => "Between"
    case After => "After"
    case AfterAll => "AfterAll"
    case NoData => "NoData"
  }

  /** Every section's own name, in any case, parses back to it. */
  lemma {:induction false} SectionNamesRoundTrip(s: Section)
    ensures ParseSection(SectionName(s)) == Some(s)
  {
    assert LowerString("BeforeAll") == "beforeall";
    assert LowerString("Before") == "before";
    assert LowerString("Each") == "each";
    assert LowerString("Odd") == "odd";
    assert LowerString("Even") == "even";
    assert LowerString("Between") == "between";
    assert LowerString("After") == "after";
    assert LowerString("AfterAll") == "afterall";
    assert LowerString("NoData") == "nodata";
  }

  /** A body node that switches the current section: an unrecognised directive named after a section. */
  function MarkerSection(e: Expr): Option<Section> {
    if e.Unrecognised? then ParseSection(e.directiveName) else None
  }

  /** The section current after the given body prefix: that of its last marker, or Each. */
  function CurrentSection(prefix: seq<Expr>): Section {
    if prefix == [] then Each
    else
      var last := prefix[|prefix| - 1];
      if MarkerSection(last).Some? then MarkerSection(last).value
      else CurrentSection(prefix[..|prefix| - 1])
  }

  /**
    The content of one section after a body prefix: null (`None`) while no
    node has been appended to it, otherwise the nodes in body order.
  */
  function PartOf(prefix: seq<Expr>, s: Section): Option<seq<Expr>> {
    if prefix == [] then None
    else
      var init := prefix[..|prefix| - 1];
      var last := prefix[|prefix| - 1];
      var p := PartOf(init, s);
      if MarkerSection(last).Some? || CurrentSection(init) != s then p
      else Some((if p.Some? then p.value else []) + [last])
  }

  /**
    `GetParts(body)`: nine slots, each null or the nodes appended to that
    section. Markers switch the current section and are dropped; every other
    node is appended to the current section.
  */
  method GetParts(body: seq<Expr>) returns (parts: array<Option<seq<Expr>>>)
    ensures parts.Length == 9 && fresh(parts)
    ensures forall s: Section :: parts[SlotOf(s)] == PartOf(body, s)
  {
    parts := new Option<seq<Expr>>[9](_ => None);
    var current := Each;
    var k := 0;
    assert parts[..] == Slots(body[..0]);
    while k < |body|
      invariant 0 <= k <= |body|
      invariant current == CurrentSection(body[..k])
      invariant parts[..] == Slots(body[..k])
    {
      var e := body[k];
      assert body[..k + 1] == body[..k] + [e];
      SlotsStep(body[..k], e);
      var marker := MarkerSection(e);
      if marker.Some? {
        current := marker.value;
      } else {
        var slot := SlotOf(current);
        if parts[slot] == None {
          parts[slot] := Some([]);
        }
        parts[slot] := Some(parts[slot].value + [e]);
      }
      k := k + 1;
    }
    assert body[..k] == body;
    forall s: Section
      ensures parts[SlotOf(s)] == PartOf(body, s)
    {
      assert parts[..][SlotOf(s)] == Slots(body)[SlotOf(s)];
    }
  }

  /** The nine slots after a body prefix, each holding its section's content. */
  function Slots(prefix: seq<Expr>): (r: seq<Option<seq<Expr>>>)
    ensures |r| == 9
  {
    seq(9, k requires 0 <= k < 9 => PartOf(prefix, SectionAt(k)))
  }

  /** One node of the body: a marker changes no slot, any other node is appended to the current section's slot. */
  lemma {:induction false} SlotsStep(prefix: seq<Expr>, e: Expr)
    ensures MarkerSection(e).Some? ==> CurrentSection(prefix + [e]) == MarkerSection(e).value && Slots(prefix + [e]) == Slots(prefix)
    ensures MarkerSection(e).None? ==> CurrentSection(prefix + [e]) == CurrentSection(prefix)
    ensures MarkerSection(e).None? ==>
      var k := SlotOf(CurrentSection(prefix));
      var p := Slots(prefix)[k];
      Slots(prefix + [e]) == Slots(prefix)[k := Some((if p.Some? then p.value else []) + [e])]
  {
    if MarkerSection(e).Some? {
      SlotsAfterMarker(prefix, e);
    } else {
      PartOfSnoc(prefix, e, Each);
      forall k | 0 <= k < 9
        ensures PartOf(prefix + [e], SectionAt(k)) == Slots(prefix)[SlotOf(CurrentSection(prefix)) := AppendedSlot(prefix, e)][k]
      {
        SlotAfterNode(prefix, e, k);
      }
    }
  }

  /** The current section's content with one more node. */
  function AppendedSlot(prefix: seq<Expr>, e: Expr): Option<seq<Expr>> {
    var p := PartOf(prefix, CurrentSection(prefix));
    Some((if p.Some? then p.value else []) + [e])
  }

  lemma {:induction false} SlotsAfterMarker(prefix: seq<Expr>, e: Expr)
    requires MarkerSection(e).Some?
    ensures CurrentSection(prefix + [e]) == MarkerSection(e).value && Slots(prefix + [e]) == Slots(prefix)
  {
    var whole := prefix + [e];
    assert whole[..|whole| - 1] == prefix;
  }

  lemma {:induction false} SlotAfterNode(prefix: seq<Expr>, e: Expr, k: nat)
    requires MarkerSection(e).None? && k < 9
    ensures PartOf(prefix + [e], SectionAt(k)) == Slots(prefix)[SlotOf(CurrentSection(prefix)) := AppendedSlot(prefix, e)][k]
  {
    PartOfSnoc(prefix, e, SectionAt(k));
    SlotsDistinct(SectionAt(k), CurrentSection(prefix));
  }

  /** Without markers, the whole body is the Each section, and the other sections are null. */
  lemma {:induction false} UnmarkedBodyIsEach(body: seq<Expr>)
    requires body != []
    requires forall i | 0 <= i < |body| :: MarkerSection(body[i]).None?
    ensures PartOf(body, Each) == Some(body)
    ensures forall s: Section | s != Each :: PartOf(body, s).None?
    ensures CurrentSection(body) == Each
    decreases |body|
  {
    var init := body[..|body| - 1];
    assert MarkerSection(body[|body| - 1]).None?;
    if init == [] {
      assert PartOf(body, Each) == Some([] + [body[0]]);
      assert [] + [body[0]] == body;
    } else {
      UnmarkedBodyIsEach(init);
      assert init + [body[|body| - 1]] == body;
    }
  }

  /** No section ever contains a marker, and every node in a section comes from the body. */
  lemma {:induction false} PartsHoldBodyNodesOnly(body: seq<Expr>, s: Section)
    ensures PartOf(body, s).Some? ==>
      forall e | e in PartOf(body, s).value :: e in body && MarkerSection(e).None?
    decreases |body|
  {
    if body != [] {
      PartsHoldBodyNodesOnly(body[..|body| - 1], s);
    }
  }

  /** Appending one node that is not a marker adds it to the current section only. */
  lemma {:induction false} PartOfSnoc(prefix: seq<Expr>, e: Expr, s: Section)
    requires MarkerSection(e).None?
    ensures CurrentSection(prefix + [e]) == CurrentSection(prefix)
    ensures PartOf(prefix + [e], s)
         == if CurrentSection(prefix) == s then Some((if PartOf(prefix, s).Some? then PartOf(prefix, s).value else []) + [e])
            else PartOf(prefix, s)
  {
    var whole := prefix + [e];
    assert whole[..|whole| - 1] == prefix;
  }

  /** A section after a body is the section before it plus the nodes appended while it was current. */
  lemma {:induction false} PartsAppend(body: seq<Expr>, more: seq<Expr>, s: Section)
    requires forall i | 0 <= i < |more| :: MarkerSection(more[i]).None?
    requires more != []
    ensures CurrentSection(body + more) == CurrentSection(body)
    ensures CurrentSection(body) == s ==>
      PartOf(body + more, s) == Some((if PartOf(body, s).Some? then PartOf(body, s).value else []) + more)
    ensures CurrentSection(body) != s ==> PartOf(body + more, s) == PartOf(body, s)
    decreases |more|
  {
    var init := more[..|more| - 1];
    var last := more[|more| - 1];
    if |more| == 1 {
      assert more == [last];
      PartOfSnoc(body, last, s);
    } else {
      PartsAppend(body, init, s);
      PartsAppendStep(body, init, last, s);
      assert init + [last] == more;
    }
  }

  /** The step of `PartsAppend`: one more node after nodes that were all appended to their section. */
  lemma {:induction false} PartsAppendStep(body: seq<Expr>, init: seq<Expr>, last: Expr, s: Section)
    requires MarkerSection(last).None?
    requires CurrentSection(body + init) == CurrentSection(body)
    requires CurrentSection(body) == s ==>
      PartOf(body + init, s) == Some((if PartOf(body, s).Some? then PartOf(body, s).value else []) + init)
    requires CurrentSection(body) != s ==> PartOf(body + init, s) == PartOf(body, s)
    ensures CurrentSection(body + (init + [last])) == CurrentSection(body)
    ensures CurrentSection(body) == s ==>
      PartOf(body + (init + [last]), s) == Some((if PartOf(body, s).Some? then PartOf(body, s).value else []) + (init + [last]))
    ensures CurrentSection(body) != s ==> PartOf(body + (init + [last]), s) == PartOf(body, s)
  {
    assert body + (init + [last]) == (body + init) + [last];
    PartOfSnoc(body + init, last, s);
    var before := if PartOf(body, s).Some? then PartOf(body, s).value else [];
    assert (before + init) + [last] == before + (init + [last]);
  }

  /** `GetExpressionBlock`: null for a section with no content, else a rendered block of it. */
  function ExpressionBlock(part: Option<seq<Expr>>): (r: Option<Expr>)
    ensures r.None? <==> part.None?
    ensures r.Some? ==> r.value == RenderedBlock(part.value)
  {
    match part
    case None => None
    case Some(nodes) => Some(RenderedBlock(nodes))
  }

  /** The velocity index variable the loop maintains. */
  const VelocityCount := Variable("velocityCount", ObjectTy)

  datatype ForeachDirectiveNode = ForeachDirectiveNode(currentItem: Expr, enumerable: Expr, body: Expr, currentIndex: Expr)

  /**
    The constructor: a reference item is reduced first; a global variable
    cannot be the loop item. The index is always `velocityCount`.
  */
  function Create(item: Expr, enumerable: Expr, body: Expr): (r: Result<ForeachDirectiveNode>)
    ensures var reduced := if item.Reference? then item.reduced else item;
      && (reduced.GlobalVariable? <==> r.Err?)
      && (r.Err? ==> r.error.NotSupported?)
      && (r.Ok? ==> r.value == ForeachDirectiveNode(reduced, enumerable, body, VelocityCount))
  {
    var reduced := if item.Reference? then item.reduced else item;
    if reduced.GlobalVariable? then Err(NotSupported("Cannot use global variable as Foreach current item."))
    else Ok(ForeachDirectiveNode(reduced, enumerable, body, VelocityCount))
  }

  /** Variables in scope, by the expression that names their slot; a missing one reads as null. */
  type Context = map<Expr, Value>

  function Lookup(ctx: Context, slot: Expr): Value {
    if slot in ctx then ctx[slot] else NullValue
  }

  /** The nine section blocks, in slot order. */
  function SectionBlocks(body: seq<Expr>): (blocks: seq<Option<Expr>>)
    ensures |blocks| == 9
  {
    [ExpressionBlock(PartOf(body, BeforeAll)), ExpressionBlock(PartOf(body, Before)),
     ExpressionBlock(PartOf(body, Each)), ExpressionBlock(PartOf(body, Odd)),
     ExpressionBlock(PartOf(body, Even)), ExpressionBlock(PartOf(body, Between)),
     ExpressionBlock(PartOf(body, After)), ExpressionBlock(PartOf(body, AfterAll)),
     ExpressionBlock(PartOf(body, NoData))]
  }

  /**
    `ReduceInternal()`, run against a context: the enumerable has been
    evaluated once to `v`. `loop` is the sectioned loop over the section
    blocks and the items, and `run` runs a block; both are parameters here.
    The body must be a rendered block.
  */
  function Run(node: ForeachDirectiveNode, v: Value, ctx: Context,
               loop: (seq<Option<Expr>>, seq<Value>, Context) -> Context,
               run: (Expr, Context) -> Context): (r: Result<Context>)
    ensures r.Err? <==> !node.body.RenderedBlock?
  {
    if !node.body.RenderedBlock? then Err(InvalidCast)
    else
      var blocks := SectionBlocks(node.body.children);
      match Elements(v)
      case None =>
        Ok(if blocks[SlotOf(NoData)].Some? then run(blocks[SlotOf(NoData)].value, ctx) else ctx)
      case Some(items) =>
        var originalItem := Lookup(ctx, node.currentItem);
        var originalIndex := Lookup(ctx, node.currentIndex);
        var after := loop(blocks, items, ctx);
        Ok(after[node.currentIndex := originalIndex][node.currentItem := originalItem])
  }

  /**
    A value that is not enumerable (null included) runs only the no-data
    section, or nothing when there is none; the loop is never entered.
  */
  lemma {:induction false} NotEnumerableRunsNoData(node: ForeachDirectiveNode, v: Value, ctx: Context,
                                loop: (seq<Option<Expr>>, seq<Value>, Context) -> Context,
                                run: (Expr, Context) -> Context)
    requires node.body.RenderedBlock?
    requires Elements(v).None?
    ensures var noData := PartOf(node.body.children, NoData);
      && (noData.None? ==> Run(node, v, ctx, loop, run) == Ok(ctx))
      && (noData.Some? ==> Run(node, v, ctx, loop, run) == Ok(run(RenderedBlock(noData.value), ctx)))
  {
  }

  /**
    After the loop the item and the index hold the values they had before it,
    whatever the loop did; every other slot is as the loop left it.
  */
  lemma {:induction false} LoopRestoresItemAndIndex(node: ForeachDirectiveNode, v: Value, ctx: Context,
                                 loop: (seq<Option<Expr>>, seq<Value>, Context) -> Context,
                                 run: (Expr, Context) -> Context)
    requires node.body.RenderedBlock?
    requires Elements(v).Some?
    requires node.currentItem != node.currentIndex
    ensures Run(node, v, ctx, loop, run).Ok?
    ensures var after := Run(node, v, ctx, loop, run).value;
      && Lookup(after, node.currentItem) == Lookup(ctx, node.currentItem)
      && Lookup(after, node.currentIndex) == Lookup(ctx, node.currentIndex)
      && forall slot | slot in after && slot != node.currentItem && slot != node.currentIndex ::
           after[slot] == loop(SectionBlocks(node.body.children), Elements(v).value, ctx)[slot]
  {
  }
}
