/** Building an ordered block list from a pipeline and running messages through it. */
module FlowRun {
  import opened Wrappers
  import opened FlowGraph
  import opened FlowKahn
  import opened FlowSplice
  import opened FlowComposite

  /** What the registered block types do. A block is determined by its type and its
      configuration; `step` takes its current state and one message to the next state
      and the messages it emits, or fails. */
  datatype Behaviour<!S, !M> = Behaviour(
    sources: set<string>, step: (string, string, S, M) -> Option<(S, seq<M>)>)

  datatype Outcome<+S, +M> = Failed | Done(states: seq<S>, out: seq<M>)

  /** One block fed a list of messages, in order. */
  ghost function Feed<S, M>(b: Behaviour<S, M>, node: Node, state: S, msgs: seq<M>): Outcome<S, M> {
    if msgs == [] then Done([state], [])
    else
      match b.step(node.blockType, node.config, state, msgs[0])
      case None => Failed
      case Some(p) =>
        match Feed(b, node, p.0, msgs[1..])
        case Failed => Failed
        case Done(states, out) => Done(states, p.1 + out)
  }

  /** One stage: a source block is skipped and lets every message through. */
  ghost function Stage<S, M>(b: Behaviour<S, M>, node: Node, state: S, msgs: seq<M>): Outcome<S, M> {
    if node.blockType in b.sources then Done([state], msgs) else Feed(b, node, state, msgs)
  }

  /** A list of stages, each fed everything the one before it emitted. */
  ghost function RunStages<S, M>(b: Behaviour<S, M>, stages: seq<Node>, states: seq<S>, msgs: seq<M>): Outcome<S, M>
    requires |states| == |stages|
  {
    if stages == [] then Done([], msgs)
    else
      match Stage(b, stages[0], states[0], msgs)
      case Failed => Failed
      case Done(first, mid) =>
        match RunStages(b, stages[1..], states[1..], mid)
        case Failed => Failed
        case Done(rest, out) => Done(first + rest, out)
  }

  lemma {:induction false} FeedKeepsOne<S, M>(b: Behaviour<S, M>, node: Node, state: S, msgs: seq<M>)
    ensures Feed(b, node, state, msgs).Done? ==> |Feed(b, node, state, msgs).states| == 1
    decreases |msgs|
  {
    if msgs != [] {
      var p := b.step(node.blockType, node.config, state, msgs[0]);
      if p.Some? {
        FeedKeepsOne(b, node, p.value.0, msgs[1..]);
      }
    }
  }

  lemma {:induction false} RunKeepsStates<S, M>(b: Behaviour<S, M>, stages: seq<Node>, states: seq<S>, msgs: seq<M>)
    requires |states| == |stages|
    ensures RunStages(b, stages, states, msgs).Done? ==> |RunStages(b, stages, states, msgs).states| == |stages|
    decreases |stages|
  {
    if stages != [] {
      FeedKeepsOne(b, stages[0], states[0], msgs);
      var r := Stage(b, stages[0], states[0], msgs);
      if r.Done? {
        RunKeepsStates(b, stages[1..], states[1..], r.out);
      }
    }
  }

  /** First `x`, then `y` from the states `x` left. */
  ghost function Then<S, M>(x: Outcome<S, M>, y: Outcome<S, M>): Outcome<S, M> {
    if x.Failed? || y.Failed? then Failed else Done(y.states, x.out + y.out)
  }

  lemma {:induction false} FeedSplits<S, M>(b: Behaviour<S, M>, node: Node, state: S, x: seq<M>, y: seq<M>)
    ensures var first := Feed(b, node, state, x);
            Feed(b, node, state, x + y) ==
            if first.Done? && |first.states| == 1 then Then(first, Feed(b, node, first.states[0], y)) else Failed
    decreases |x|
  {
    FeedKeepsOne(b, node, state, x);
    if x == [] {
      assert x + y == y;
      var r := Feed(b, node, state, y);
      if r.Done? {
        assert [] + r.out == r.out;
      }
    } else {
      assert (x + y)[1..] == x[1..] + y;
      var p := b.step(node.blockType, node.config, state, x[0]);
      if p.Some? {
        FeedKeepsOne(b, node, p.value.0, x[1..]);
        FeedSplits(b, node, p.value.0, x[1..], y);
        var rest := Feed(b, node, p.value.0, x[1..]);
        if rest.Done? {
          var last := Feed(b, node, rest.states[0], y);
          if last.Done? {
            assert p.value.1 + (rest.out + last.out) == (p.value.1 + rest.out) + last.out;
          }
        }
      }
    }
  }

  lemma {:induction false} StageSplits<S, M>(b: Behaviour<S, M>, node: Node, state: S, x: seq<M>, y: seq<M>)
    ensures var first := Stage(b, node, state, x);
            Stage(b, node, state, x + y) ==
            if first.Done? && |first.states| == 1 then Then(first, Stage(b, node, first.states[0], y)) else Failed
  {
    FeedSplits(b, node, state, x, y);
  }

  /** A stage list does not care how its input is batched: block states are separate,
      so feeding `x + y` is feeding `x` and then `y`. */
  lemma {:induction false} RunSplits<S, M>(b: Behaviour<S, M>, stages: seq<Node>, states: seq<S>, x: seq<M>, y: seq<M>)
    requires |states| == |stages|
    ensures var first := RunStages(b, stages, states, x);
            RunStages(b, stages, states, x + y) ==
            if first.Done? && |first.states| == |stages|
            then Then(first, RunStages(b, stages, first.states, y))
            else Failed
    decreases |stages|
  {
    RunKeepsStates(b, stages, states, x);
    if stages != [] {
      StageSplits(b, stages[0], states[0], x, y);
      FeedKeepsOne(b, stages[0], states[0], x);
      var a := Stage(b, stages[0], states[0], x);
      if a.Done? {
        FeedKeepsOne(b, stages[0], a.states[0], y);
        RunSplitsTail(b, stages, states, a, x, y);
      }
    }
  }

  lemma {:induction false} RunSplitsTail<S, M>(
    b: Behaviour<S, M>, stages: seq<Node>, states: seq<S>, a: Outcome<S, M>, x: seq<M>, y: seq<M>)
    requires |states| == |stages| && stages != [] && a == Stage(b, stages[0], states[0], x)
    requires a.Done? && |a.states| == 1
    requires Stage(b, stages[0], states[0], x + y) == Then(a, Stage(b, stages[0], a.states[0], y))
    requires var r := Stage(b, stages[0], a.states[0], y); r.Done? ==> |r.states| == 1
    ensures var first := RunStages(b, stages, states, x);
            RunStages(b, stages, states, x + y) ==
            if first.Done? && |first.states| == |stages|
            then Then(first, RunStages(b, stages, first.states, y))
            else Failed
    decreases |stages|, 0
  {
    var c := Stage(b, stages[0], a.states[0], y);
    var tail := stages[1..];
    RunKeepsStates(b, tail, states[1..], a.out);
    var p := RunStages(b, tail, states[1..], a.out);
    if p.Done? {
      var mid := a.states + p.states;
      assert mid[0] == a.states[0] && mid[1..] == p.states;
    }
    if c.Done? {
      RunSplits(b, tail, states[1..], a.out, c.out);
    }
  }

  /** Running two stage lists one after the other is running their concatenation. */
  lemma {:induction false} RunAppend<S, M>(
    b: Behaviour<S, M>, front: seq<Node>, back: seq<Node>, s: seq<S>, t: seq<S>, msgs: seq<M>)
    requires |s| == |front| && |t| == |back|
    ensures var first := RunStages(b, front, s, msgs);
            RunStages(b, front + back, s + t, msgs) ==
            if first.Failed? then Failed else Joined(first, RunStages(b, back, t, first.out))
    decreases |front|
  {
    if front == [] {
      assert front + back == back && s + t == t;
      var r := RunStages(b, back, t, msgs);
      if r.Done? {
        assert [] + r.states == r.states;
      }
    } else {
      assert (front + back)[1..] == front[1..] + back && (s + t)[1..] == s[1..] + t;
      var a := Stage(b, front[0], s[0], msgs);
      if a.Done? {
        RunAppend(b, front[1..], back, s[1..], t, a.out);
        var f := RunStages(b, front[1..], s[1..], a.out);
        if f.Done? {
          var l := RunStages(b, back, t, f.out);
          if l.Done? {
            assert a.states + (f.states + l.states) == (a.states + f.states) + l.states;
          }
        }
      }
    }
  }

  /** `y` ran on the output of `x`, on states of its own. */
  ghost function Joined<S, M>(x: Outcome<S, M>, y: Outcome<S, M>): Outcome<S, M> {
    if x.Failed? || y.Failed? then Failed else Done(x.states + y.states, y.out)
  }

  /** Block names play no part in processing. */
  lemma {:induction false} NamesAreInvisible<S, M>(
    b: Behaviour<S, M>, p: Name, stages: seq<Node>, states: seq<S>, msgs: seq<M>)
    requires |states| == |stages|
    ensures RunStages(b, PrefixNodes(p, stages), states, msgs) == RunStages(b, stages, states, msgs)
    decreases |stages|
  {
    if stages != [] {
      assert PrefixNodes(p, stages)[1..] == PrefixNodes(p, stages[1..]);
      SameFeed(b, PrefixNodes(p, stages)[0], stages[0], states[0], msgs);
      var a := Stage(b, stages[0], states[0], msgs);
      if a.Done? {
        NamesAreInvisible(b, p, stages[1..], states[1..], a.out);
      }
    }
  }

  lemma {:induction false} SameFeed<S, M>(b: Behaviour<S, M>, x: Node, y: Node, state: S, msgs: seq<M>)
    requires x.blockType == y.blockType && x.config == y.config
    ensures Feed(b, x, state, msgs) == Feed(b, y, state, msgs)
    decreases |msgs|
  {
    if msgs != [] {
      var p := b.step(y.blockType, y.config, state, msgs[0]);
      if p.Some? {
        SameFeed(b, x, y, p.value.0, msgs[1..]);
      }
    }
  }

  /** The meaning of a pipeline that still has its composites: a composite is a single
      block that takes one message at a time through its own body. */
  ghost function NodeRun<S, M>(
    b: Behaviour<S, M>, lib: Library, node: Node, stack: set<string>, states: seq<S>, msgs: seq<M>): Outcome<S, M>
    requires NodeExpandable(lib, node, stack) && LinearNode(lib, node, stack)
    requires |states| == |NodeStages(lib, node, stack)|
    decreases Room(stack), 0, |msgs|
  {
    if Resolve(lib, node.blockType).Builtin? then Stage(b, node, states[0], msgs)
    else if msgs == [] then Done(states, [])
    else
      match GraphRun(b, lib, BodyOf(lib, node), Deeper(lib, node, stack), states, [msgs[0]])
      case Failed => Failed
      case Done(after, out) =>
        if |after| != |states| then Failed
        else Then(Done(after, out), NodeRun(b, lib, node, stack, after, msgs[1..]))
  }

  ghost function GraphRun<S, M>(
    b: Behaviour<S, M>, lib: Library, g: Graph, stack: set<string>, states: seq<S>, msgs: seq<M>): Outcome<S, M>
    requires Expandable(lib, g.blocks, stack) && Linear(lib, g, stack)
    requires |states| == |Stages(lib, g, stack)|
    decreases Room(stack), 2
  {
    assert forall i :: 0 <= i < |ChainOf(g)| ==> ChainOf(g)[i] in Elements(ChainOf(g));
    OrderRun(b, lib, g, stack, ChainOf(g), states, msgs)
  }

  /** The nodes of `order` one after the other, each on its share of the states. */
  ghost function OrderRun<S, M>(
    b: Behaviour<S, M>, lib: Library, g: Graph, stack: set<string>, order: seq<Name>, states: seq<S>,
    msgs: seq<M>): Outcome<S, M>
    requires Expandable(lib, g.blocks, stack) && Linear(lib, g, stack)
    requires forall i :: 0 <= i < |order| ==> order[i] in Elements(Names(g))
    requires |states| == |FlatStages(order, StageMap(lib, g, stack))|
    decreases Room(stack), 1, |order|
  {
    if order == [] then Done([], msgs)
    else
      var n := |order| - 1;
      var cut := |FlatStages(order[..n], StageMap(lib, g, stack))|;
      match OrderRun(b, lib, g, stack, order[..n], states[..cut], msgs)
      case Failed => Failed
      case Done(front, mid) =>
        Joined(Done(front, mid), NodeRun(b, lib, NodeNamed(g, order[n]), stack, states[cut..], mid))
  }

  /** Expansion preserves the meaning of a linear pipeline: the flat stage list gives
      the same messages and leaves the same block states as running every composite as
      one block, and fails exactly when that does. */
  lemma {:induction false} ExpansionPreservesMeaning<S, M>(
    b: Behaviour<S, M>, lib: Library, g: Graph, stack: set<string>, states: seq<S>, msgs: seq<M>)
    requires Expandable(lib, g.blocks, stack) && Linear(lib, g, stack)
    requires |states| == |Stages(lib, g, stack)|
    ensures GraphRun(b, lib, g, stack, states, msgs) == RunStages(b, Stages(lib, g, stack), states, msgs)
    decreases Room(stack), 2
  {
    assert forall i :: 0 <= i < |ChainOf(g)| ==> ChainOf(g)[i] in Elements(ChainOf(g));
    OrderMeaning(b, lib, g, stack, ChainOf(g), states, msgs);
  }

  lemma {:induction false} OrderMeaning<S, M>(
    b: Behaviour<S, M>, lib: Library, g: Graph, stack: set<string>, order: seq<Name>, states: seq<S>, msgs: seq<M>)
    requires Expandable(lib, g.blocks, stack) && Linear(lib, g, stack)
    requires forall i :: 0 <= i < |order| ==> order[i] in Elements(Names(g))
    requires |states| == |FlatStages(order, StageMap(lib, g, stack))|
    ensures OrderRun(b, lib, g, stack, order, states, msgs) ==
            RunStages(b, FlatStages(order, StageMap(lib, g, stack)), states, msgs)
    decreases Room(stack), 1, |order|
  {
    var stages := StageMap(lib, g, stack);
    if order != [] {
      var n := |order| - 1;
      var node := NodeNamed(g, order[n]);
      var cut := |FlatStages(order[..n], stages)|;
      assert states == states[..cut] + states[cut..];
      RunAppend(b, FlatStages(order[..n], stages), stages[order[n]], states[..cut], states[cut..], msgs);
      OrderMeaning(b, lib, g, stack, order[..n], states[..cut], msgs);
      var front := RunStages(b, FlatStages(order[..n], stages), states[..cut], msgs);
      if front.Done? {
        NodeMeaning(b, lib, node, stack, states[cut..], front.out);
      }
    }
  }

  lemma {:induction false} NodeMeaning<S, M>(
    b: Behaviour<S, M>, lib: Library, node: Node, stack: set<string>, states: seq<S>, msgs: seq<M>)
    requires NodeExpandable(lib, node, stack) && LinearNode(lib, node, stack)
    requires |states| == |NodeStages(lib, node, stack)|
    ensures NodeRun(b, lib, node, stack, states, msgs) == RunStages(b, NodeStages(lib, node, stack), states, msgs)
    decreases Room(stack), 0, |msgs|
  {
    var stages := NodeStages(lib, node, stack);
    if Resolve(lib, node.blockType).Builtin? {
      var r := Stage(b, node, states[0], msgs);
      if r.Done? {
        assert r.states + [] == r.states;
      }
    } else if msgs == [] {
      NothingToDo(b, stages, states);
    } else {
      var inner := Stages(lib, BodyOf(lib, node), Deeper(lib, node, stack));
      ExpansionPreservesMeaning(b, lib, BodyOf(lib, node), Deeper(lib, node, stack), states, [msgs[0]]);
      NamesAreInvisible(b, node.name + ".", inner, states, [msgs[0]]);
      RunKeepsStates(b, stages, states, [msgs[0]]);
      RunSplits(b, stages, states, [msgs[0]], msgs[1..]);
      assert [msgs[0]] + msgs[1..] == msgs;
      var r := RunStages(b, stages, states, [msgs[0]]);
      if r.Done? {
        NodeMeaning(b, lib, node, stack, r.states, msgs[1..]);
      }
    }
  }

  lemma {:induction false} NothingToDo<S, M>(b: Behaviour<S, M>, stages: seq<Node>, states: seq<S>)
    requires |states| == |stages|
    ensures RunStages(b, stages, states, []) == Done(states, [])
    decreases |stages|
  {
    if stages != [] {
      NothingToDo(b, stages[1..], states[1..]);
      assert [states[0]] + states[1..] == states;
    }
  }

  ghost predicate AllSources<S, M>(b: Behaviour<S, M>, stages: seq<Node>) {
    forall i :: 0 <= i < |stages| ==> stages[i].blockType in b.sources
  }

  /** Sources alone let everything through. */
  lemma {:induction false} SourcesPass<S, M>(b: Behaviour<S, M>, stages: seq<Node>, states: seq<S>, msgs: seq<M>)
    requires |states| == |stages| && AllSources(b, stages)
    ensures RunStages(b, stages, states, msgs) == Done(states, msgs)
    decreases |stages|
  {
    if stages != [] {
      assert forall i :: 0 <= i < |stages| - 1 ==> stages[1..][i] == stages[i + 1];
      SourcesPass(b, stages[1..], states[1..], msgs);
      assert [states[0]] + states[1..] == states;
    }
  }

  /** One block that is not a source does to one message what its step says. */
  lemma {:induction false} OneBlockSteps<S, M>(b: Behaviour<S, M>, node: Node, state: S, msg: M)
    requires node.blockType !in b.sources
    ensures RunStages(b, [node], [state], [msg]) ==
            match b.step(node.blockType, node.config, state, msg)
            case None => Failed
            case Some(p) => Done([p.0], p.1)
  {
    assert [node][1..] == [] && [state][1..] == [] && [msg][1..] == [];
    var p := b.step(node.blockType, node.config, state, msg);
    if p.Some? {
      assert Feed(b, node, p.value.0, []) == Done([p.value.0], []);
      assert p.value.1 + [] == p.value.1 && [p.value.0] + [] == [p.value.0];
      assert Stage(b, node, state, [msg]) == Done([p.value.0], p.value.1);
      assert RunStages(b, [], [], p.value.1) == Done([], p.value.1);
    }
  }

  /** The positions of a stage list that take part in processing. */
  ghost function Processing<S, M, T>(b: Behaviour<S, M>, stages: seq<Node>, items: seq<T>): seq<T>
    requires |items| == |stages|
  {
    if stages == [] then []
    else
      var rest := Processing(b, stages[1..], items[1..]);
      if stages[0].blockType in b.sources then rest else [items[0]] + rest
  }

  lemma {:induction false} ProcessingLength<S, M, T, U>(b: Behaviour<S, M>, stages: seq<Node>, x: seq<T>, y: seq<U>)
    requires |x| == |stages| && |y| == |stages|
    ensures |Processing(b, stages, x)| == |Processing(b, stages, y)|
    decreases |stages|
  {
    if stages != [] {
      ProcessingLength(b, stages[1..], x[1..], y[1..]);
    }
  }

  /** Running a list is running it without its sources: the same messages, the same
      failures, the same states of the other blocks, and sources keep theirs. */
  lemma {:induction false} SourcesAreSkipped<S, M>(b: Behaviour<S, M>, stages: seq<Node>, states: seq<S>, msgs: seq<M>)
    requires |states| == |stages|
    ensures |Processing(b, stages, stages)| == |Processing(b, stages, states)|
    ensures var whole := RunStages(b, stages, states, msgs);
            var rest := RunStages(b, Processing(b, stages, stages), Processing(b, stages, states), msgs);
            && (whole.Failed? <==> rest.Failed?)
            && (whole.Done? ==> whole.out == rest.out && |whole.states| == |stages| &&
                                Processing(b, stages, whole.states) == rest.states)
            && (whole.Done? ==> forall i :: 0 <= i < |stages| && stages[i].blockType in b.sources ==>
                                  whole.states[i] == states[i])
    decreases |stages|
  {
    ProcessingLength(b, stages, stages, states);
    RunKeepsStates(b, stages, states, msgs);
    if stages != [] {
      var a := Stage(b, stages[0], states[0], msgs);
      FeedKeepsOne(b, stages[0], states[0], msgs);
      if a.Done? {
        SourcesAreSkipped(b, stages[1..], states[1..], a.out);
        SkipHead(b, stages, states, msgs);
      }
    }
  }

  lemma {:induction false} SkipHead<S, M>(b: Behaviour<S, M>, stages: seq<Node>, states: seq<S>, msgs: seq<M>)
    requires |states| == |stages| && stages != []
    requires |Processing(b, stages, stages)| == |Processing(b, stages, states)|
    requires |Processing(b, stages[1..], stages[1..])| == |Processing(b, stages[1..], states[1..])|
    requires Stage(b, stages[0], states[0], msgs).Done? && |Stage(b, stages[0], states[0], msgs).states| == 1
    ensures var a := Stage(b, stages[0], states[0], msgs);
            var nodes, kept := Processing(b, stages[1..], stages[1..]), Processing(b, stages[1..], states[1..]);
            var rest := RunStages(b, nodes, kept, a.out);
            RunStages(b, Processing(b, stages, stages), Processing(b, stages, states), msgs) ==
            if stages[0].blockType in b.sources || rest.Failed? then rest else Done(a.states + rest.states, rest.out)
  {
    if stages[0].blockType !in b.sources {
      var rest, states' := Processing(b, stages[1..], stages[1..]), Processing(b, stages[1..], states[1..]);
      assert ([stages[0]] + rest)[1..] == rest && ([states[0]] + states')[1..] == states';
    }
  }

  /** Feeds one message through every stage that is not a source. Block states change
      in place; after a failure they are whatever the stages before it left. */
  method Run<S, M>(b: Behaviour<S, M>, stages: seq<Node>, states: seq<S>, msg: M)
    returns (r: Option<seq<M>>, after: seq<S>)
    requires |states| == |stages|
    ensures |after| == |states|
    ensures r.None? <==> RunStages(b, stages, states, [msg]).Failed?
    ensures r.Some? ==> RunStages(b, stages, states, [msg]) == Done(after, r.value)
    ensures AllSources(b, stages) ==> r == Some([msg]) && after == states
    ensures |stages| == 1 && stages[0].blockType !in b.sources ==>
              var p := b.step(stages[0].blockType, stages[0].config, states[0], msg);
              if p.None? then r.None? else r == Some(p.value.1) && after == [p.value.0]
  {
    if AllSources(b, stages) {
      SourcesPass(b, stages, states, [msg]);
    }
    if |stages| == 1 && stages[0].blockType !in b.sources {
      assert stages == [stages[0]] && states == [states[0]];
      OneBlockSteps(b, stages[0], states[0], msg);
    }
    r, after := RunEach(b, stages, states, msg);
  }

  /** The loop over the stages. */
  method RunEach<S, M>(b: Behaviour<S, M>, stages: seq<Node>, states: seq<S>, msg: M)
    returns (r: Option<seq<M>>, after: seq<S>)
    requires |states| == |stages|
    ensures |after| == |states|
    ensures r.None? <==> RunStages(b, stages, states, [msg]).Failed?
    ensures r.Some? ==> RunStages(b, stages, states, [msg]) == Done(after, r.value)
  {
    var cur := [msg];
    after := states;
    ghost var whole := RunStages(b, stages, states, [msg]);
    assert stages[0..] == stages && states[0..] == states && after[..0] == [];
    assert whole.Done? ==> [] + whole.states == whole.states;
    for i := 0 to |stages|
      invariant |after| == |states| && after[i..] == states[i..]
      invariant whole == Joined(Done(after[..i], []), RunStages(b, stages[i..], states[i..], cur))
    {
      ghost var before := after;
      StagePeeled(b, stages, states, i, after[..i], cur);
      if stages[i].blockType !in b.sources {
        var state;
        r, state := ProcessAll(b, stages[i], after[i], cur);
        if r.None? {
          return;
        }
        after := after[i := state];
        cur := r.value;
      }
      assert after[..i + 1] == before[..i] + [after[i]];
      assert after[i + 1..] == states[i + 1..];
    }
    assert after[..|stages|] == after && after + [] == after;
    r := Some(cur);
  }

  lemma {:induction false} StagePeeled<S, M>(
    b: Behaviour<S, M>, stages: seq<Node>, states: seq<S>, i: nat, done: seq<S>, cur: seq<M>)
    requires |states| == |stages| && i < |stages|
    ensures var a := Stage(b, stages[i], states[i], cur);
            Joined(Done(done, []), RunStages(b, stages[i..], states[i..], cur)) ==
            if a.Failed? then Failed
            else Joined(Done(done + a.states, []), RunStages(b, stages[i + 1..], states[i + 1..], a.out))
  {
    assert stages[i..][1..] == stages[i + 1..] && states[i..][1..] == states[i + 1..];
    assert stages[i..][0] == stages[i] && states[i..][0] == states[i];
    var a := Stage(b, stages[i], states[i], cur);
    if a.Done? {
      var rest := RunStages(b, stages[i + 1..], states[i + 1..], a.out);
      if rest.Done? {
        assert done + (a.states + rest.states) == (done + a.states) + rest.states;
      }
    }
  }

  /** The inner loop: one block processes every message it is given. */
  method ProcessAll<S, M>(b: Behaviour<S, M>, node: Node, state: S, cur: seq<M>) returns (r: Option<seq<M>>, after: S)
    ensures r.None? <==> Feed(b, node, state, cur).Failed?
    ensures r.Some? ==> Feed(b, node, state, cur) == Done([after], r.value)
  {
    var next := [];
    after := state;
    for i := 0 to |cur|
      invariant Feed(b, node, state, cur[..i]) == Done([after], next)
    {
      FeedSplits(b, node, state, cur[..i], cur[i..]);
      FeedSplits(b, node, state, cur[..i], [cur[i]]);
      assert cur[..i] + cur[i..] == cur && cur[..i] + [cur[i]] == cur[..i + 1];
      assert cur[i..][0] == cur[i];
      var out := b.step(node.blockType, node.config, after, cur[i]);
      if out.None? {
        return None, after;
      }
      assert out.value.1 + [] == out.value.1;
      after, next := out.value.0, next + out.value.1;
    }
    assert cur[..|cur|] == cur;
    r := Some(next);
  }

  /** The block registry: which types have a constructor, and for which nodes it
      succeeds. */
  datatype Registry = Registry(ctors: set<string>, builds: set<Node>)

  datatype BuildError = Invalid(why: Verdict) | EmptyType | UnknownType | ConstructFailed

  datatype Build = Built(stages: seq<Node>) | Refused(error: BuildError)

  ghost predicate Buildable(reg: Registry, node: Node) {
    node.blockType != "" && node.blockType in reg.ctors && node in reg.builds
  }

  ghost predicate RefusedFor(reg: Registry, node: Node, e: BuildError) {
    match e
    case Invalid(_) => false
    case EmptyType => node.blockType == ""
    case UnknownType => node.blockType != "" && node.blockType !in reg.ctors
    case ConstructFailed => node.blockType != "" && node.blockType in reg.ctors && node !in reg.builds
  }

  /** `nodes` are the blocks called `names`, in that order. */
  ghost predicate Listed(g: Graph, names: seq<Name>, nodes: seq<Node>) {
    |nodes| == |names| &&
    forall i :: 0 <= i < |names| ==> nodes[i] in Elements(g.blocks) && nodes[i].name == names[i]
  }

  /** The blocks called `names`. */
  ghost function InOrder(g: Graph, names: seq<Name>): (nodes: seq<Node>)
    requires Elements(names) <= Elements(Names(g))
    ensures Listed(g, names, nodes)
  {
    seq(|names|, i requires 0 <= i < |names| => assert names[i] in Elements(names); NodeNamed(g, names[i]))
  }

  /** How many blocks of a list can be built before the first that cannot. */
  ghost function FirstBad(reg: Registry, nodes: seq<Node>): (k: nat)
    ensures k <= |nodes| && (k < |nodes| ==> !Buildable(reg, nodes[k]))
    ensures forall i :: 0 <= i < k ==> Buildable(reg, nodes[i])
  {
    if nodes == [] || !Buildable(reg, nodes[0]) then 0 else 1 + FirstBad(reg, nodes[1..])
  }

  ghost predicate Typed(reg: Registry, node: Node) {
    node.blockType != "" && node.blockType in reg.ctors
  }

  /** Building `nodes` one after the other stops at a block without a known type, and
      not at the first block. */
  ghost predicate StopsUntyped(reg: Registry, nodes: seq<Node>) {
    var k := FirstBad(reg, nodes);
    0 < k < |nodes| && !Typed(reg, nodes[k])
  }

  ghost predicate Startable(id: string, g: Graph) {
    id != "" && g.blocks != [] && WellFormed(g) && Acyclic(g)
  }

  /** What the loop over the sorted names does: it builds up to the first block that
      cannot be built, names the reason, and leaves the blocks built so far running
      exactly when that block has no known type and is not the first. */
  ghost predicate Builds(reg: Registry, nodes: seq<Node>, r: Build, built: seq<Node>, stopped: seq<Node>) {
    && built == nodes[..FirstBad(reg, nodes)]
    && (r.Built? <==> FirstBad(reg, nodes) == |nodes|)
    && (r.Built? ==> r.stages == nodes && stopped == [])
    && (r.Refused? ==> RefusedFor(reg, nodes[FirstBad(reg, nodes)], r.error))
    && (r.Refused? ==> stopped == built || stopped == [])
    && (r.Refused? ==> (stopped != built <==> StopsUntyped(reg, nodes)))
  }

  /** Builds the blocks of a pipeline in topological order, which for a linear pipeline
      is its one order. It succeeds exactly when the pipeline is valid and every block
      can be built. */
  method Instantiate(reg: Registry, id: string, g: Graph)
    returns (r: Build, order: seq<Name>, built: seq<Node>, stopped: seq<Node>)
    ensures r.Built? <==> Startable(id, g) && forall i :: 0 <= i < |g.blocks| ==> Buildable(reg, g.blocks[i])
    ensures Startable(id, g) ==> TopologicalOrder(g, order) && Builds(reg, InOrder(g, order), r, built, stopped)
    ensures Startable(id, g) ==> forall chain :: Chain(g, chain) ==> order == chain
    ensures !Startable(id, g) ==> r.Refused? && r.error.Invalid? && built == [] && stopped == []
  {
    order, built, stopped := [], [], [];
    var v := Validate(id, g);
    if v != Accepted {
      return Refused(Invalid(v)), order, built, stopped;
    }
    var sorted := TopoOrder(g);
    order := sorted.value;
    r, built, stopped := BuildBlocks(reg, g, order);
    forall chain | Chain(g, chain) ensures order == chain {
      ChainOrderIsUnique(g, chain, order);
    }
  }

  /** The loop over the sorted names. */
  method BuildBlocks(reg: Registry, g: Graph, order: seq<Name>) returns (r: Build, built: seq<Node>, stopped: seq<Node>)
    requires WellFormed(g) && TopologicalOrder(g, order)
    ensures r.Built? <==> forall i :: 0 <= i < |g.blocks| ==> Buildable(reg, g.blocks[i])
    ensures Builds(reg, InOrder(g, order), r, built, stopped)
  {
    hide Elements, Distinct, Forward, FirstBad;
    built, stopped := [], [];
    var byName := NodesByName(g);
    ghost var nodes := InOrder(g, order);
    for k := 0 to |order|
      invariant built == nodes[..k] && stopped == []
      invariant forall i :: 0 <= i < k ==> Buildable(reg, nodes[i])
    {
      KnownName(g, order, k);
      var node := byName[order[k]];
      if node.blockType == "" || node.blockType !in reg.ctors || node !in reg.builds {
        NotAllBuildable(reg, g, order, k);
        FirstBadIs(reg, nodes, k);
        if node.blockType == "" {
          r := Refused(EmptyType);
        } else if node.blockType !in reg.ctors {
          r := Refused(UnknownType);
        } else {
          stopped := built;
          r := Refused(ConstructFailed);
        }
        return;
      }
      built := built + [node];
    }
    FirstBadIs(reg, nodes, |order|);
    AllBuildable(reg, g, order);
    r := Built(built);
  }

  lemma {:induction false} FirstBadIs(reg: Registry, nodes: seq<Node>, k: nat)
    requires k <= |nodes| && (k < |nodes| ==> !Buildable(reg, nodes[k]))
    requires forall i :: 0 <= i < k ==> Buildable(reg, nodes[i])
    ensures FirstBad(reg, nodes) == k
  {
  }

  lemma {:induction false} KnownName(g: Graph, order: seq<Name>, k: nat)
    requires Elements(order) <= Elements(Names(g)) && k < |order|
    ensures order[k] in Elements(Names(g)) && InOrder(g, order)[k] == NodeNamed(g, order[k])
  {
    assert order[k] in Elements(order);
  }

  lemma {:induction false} NotAllBuildable(reg: Registry, g: Graph, order: seq<Name>, k: nat)
    requires WellFormed(g) && Elements(order) <= Elements(Names(g))
    requires k < |order| && !Buildable(reg, InOrder(g, order)[k])
    ensures !forall i :: 0 <= i < |g.blocks| ==> Buildable(reg, g.blocks[i])
  {
    var i := IndexOf(g, InOrder(g, order)[k]);
  }

  /** Where every type is known, a failed build leaves nothing running. */
  lemma {:induction false} TypedLeavesNothing(reg: Registry, g: Graph, order: seq<Name>)
    requires Elements(order) <= Elements(Names(g))
    requires forall i :: 0 <= i < |g.blocks| ==> Typed(reg, g.blocks[i])
    ensures !StopsUntyped(reg, InOrder(g, order))
  {
    var nodes := InOrder(g, order);
    if FirstBad(reg, nodes) < |nodes| {
      var i := IndexOf(g, nodes[FirstBad(reg, nodes)]);
    }
  }

  /** A linear pipeline of two blocks, the second of an unknown type: whatever builds it
      leaves the first one running. */
  lemma {:induction false} UnknownTypeLeavesRunning(known: string, unknown: string)
    returns (reg: Registry, g: Graph, order: seq<Name>)
    requires known != "" && known != unknown
    ensures Startable("p", g) && Chain(g, order) && StopsUntyped(reg, InOrder(g, order))
    ensures forall r, built, stopped :: Builds(reg, InOrder(g, order), r, built, stopped) ==>
              built == [g.blocks[0]] && stopped == []
  {
    var a, b := Node("a", known, ""), Node("b", unknown, "");
    reg, g, order := Registry({known}, {a}), Graph([a, b], [Connection("a", "out", "b", "in")]), ["a", "b"];
    assert Names(g) == order;
    assert Names(g)[0] in Elements(order) && Names(g)[1] in Elements(order);
    assert g.conns[0].source == order[0] && g.conns[0].target == order[1];
    assert Edge(g, "a", "b") && Next(order, "a", "b");
    ChainIsTopological(g, order);
    ForwardIsAcyclic(g, order);
    NodeNamedIs(g, 0);
    NodeNamedIs(g, 1);
    assert InOrder(g, order) == [a, b];
    FirstBadIs(reg, [a, b], 1);
  }

  lemma {:induction false} AllBuildable(reg: Registry, g: Graph, order: seq<Name>)
    requires WellFormed(g) && Elements(order) == Elements(Names(g))
    requires forall i :: 0 <= i < |order| ==> Buildable(reg, InOrder(g, order)[i])
    ensures forall i :: 0 <= i < |g.blocks| ==> Buildable(reg, g.blocks[i])
  {
    forall i | 0 <= i < |g.blocks| ensures Buildable(reg, g.blocks[i]) {
      assert Names(g)[i] in Elements(order);
      var j :| 0 <= j < |order| && order[j] == Names(g)[i];
      assert Buildable(reg, InOrder(g, order)[j]);
      NodeNamedIs(g, i);
    }
  }

  lemma IndexOf(g: Graph, node: Node) returns (i: nat)
    requires node in Elements(g.blocks)
    ensures i < |g.blocks| && g.blocks[i] == node
  {
    i :| 0 <= i < |g.blocks| && g.blocks[i] == node;
  }

  /** The lookup table by block name. */
  method NodesByName(g: Graph) returns (byName: map<Name, Node>)
    requires WellFormed(g)
    ensures byName.Keys == Elements(Names(g))
    ensures forall n :: n in byName ==>
        byName[n] in Elements(g.blocks) && byName[n].name == n && byName[n] == NodeNamed(g, n)
  {
    byName := map[];
    for i := 0 to |g.blocks|
      invariant byName.Keys == Elements(Names(g)[..i])
      invariant forall n :: n in byName ==>
                  n in Elements(Names(g)) && byName[n] in Elements(g.blocks) &&
                  byName[n].name == n && byName[n] == NodeNamed(g, n)
    {
      NodeNamedIs(g, i);
      assert Names(g)[..i + 1] == Names(g)[..i] + [g.blocks[i].name];
      byName := byName[g.blocks[i].name := g.blocks[i]];
    }
    assert Names(g)[..|g.blocks|] == Names(g);
  }

  /** What `Instantiate` builds from an expanded linear pipeline is its stage list. */
  lemma {:induction false} BuildsTheStages(g: Graph, stages: seq<Node>, order: seq<Name>, built: seq<Node>)
    requires WellFormed(g) && Chain(g, NamesIn(stages)) && Elements(g.blocks) == Elements(stages)
    requires TopologicalOrder(g, order) && Listed(g, order, built)
    ensures built == stages
  {
    ChainOrderIsUnique(g, NamesIn(stages), order);
    forall i | 0 <= i < |stages| ensures built[i] == stages[i] {
      assert NamesIn(stages)[i] == stages[i].name;
      assert built[i] in Elements(g.blocks) && stages[i] in Elements(g.blocks);
      var x := IndexOf(g, built[i]);
      var y := IndexOf(g, stages[i]);
      assert Names(g)[x] == Names(g)[y];
    }
  }

  lemma {:induction false} LinearIsAcyclic(lib: Library, g: Graph, stack: set<string>)
    requires WellFormed(g) && Expandable(lib, g.blocks, stack) && Linear(lib, g, stack)
    ensures Acyclic(g)
  {
    ChainIsTopological(g, ChainOf(g));
    ForwardIsAcyclic(g, ChainOf(g));
  }

  /** Expanding a linear pipeline, building it and feeding it one message: it starts
      exactly when every block left after expansion can be built, and then the outcome
      is that of the pipeline with every composite taken as a single block. */
  method RunExpanded<S, M>(b: Behaviour<S, M>, lib: Library, reg: Registry, id: string, g: Graph, init: S, msg: M)
    returns (started: bool, r: Option<seq<M>>)
    requires Sound(lib, g) && Expandable(lib, g.blocks, {}) && Linear(lib, g, {})
    requires id != "" && g.blocks != []
    ensures var flat := FlatNodes(lib, g.blocks, {});
            started <==> forall i :: 0 <= i < |flat| ==> Buildable(reg, flat[i])
    ensures var states := seq(|Stages(lib, g, {})|, i => init);
            started ==> r == match GraphRun(b, lib, g, {}, states, [msg]) case Failed => None case Done(_,
                out) => Some(out)
  {
    var flat := Expand(lib, g, {});
    LinearIsAcyclic(lib, g, {});
    FlatNodesAreBuiltin(lib, g.blocks, {});
    var build, order, built, stopped := Instantiate(reg, id, flat.value);
    if build.Refused? {
      return false, None;
    }
    BuildsTheStages(flat.value, Stages(lib, g, {}), order, build.stages);
    var states := seq(|build.stages|, i => init);
    assert states == seq(|Stages(lib, g, {})|, i => init);
    ExpansionPreservesMeaning(b, lib, g, {}, states, [msg]);
    var after;
    r, after := Run(b, build.stages, states, msg);
    started := true;
  }
}
