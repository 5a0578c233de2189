/** What runs of the graph executor guarantee. */
module GraphTheorems {
  import opened Basics
  import opened GraphExecutor

  // ---------- events do not matter ----------

  /** Equal but for the events published so far. */
  ghost predicate SameWork(c: Context, d: Context) {
    c.state == d.state && c.pending == d.pending && c.trace == d.trace && c.step == d.step
  }

  ghost predicate SameResult(a: Result<Context, Stop>, b: Result<Context, Stop>) {
    match (a, b)
    case (Ok(c), Ok(d)) => SameWork(c, d)
    case (Err(Failed(e)), Err(Failed(f))) => e == f
    case (Err(Interrupted(v, n, c)), Err(Interrupted(w, m, d))) => v == w && n == m && SameWork(c, d)
    case _ => false
  }

  lemma SteppedIgnoresEvents(g: Graph, act: Actions, key: Option<string>, c: Context, d: Context)
    requires SameWork(c, d) && |c.pending| > 0
    ensures SameResult(Stepped(g, act, key, c), Stepped(g, act, key, d))
  {
  }

  lemma {:induction false} DrainedIgnoresEvents(g: Graph, act: Actions, key: Option<string>, c: Context, d: Context)
    requires SameWork(c, d)
    ensures SameResult(Drained(g, act, key, c), Drained(g, act, key, d))
    decreases Room(g, c), |c.pending|
  {
    if |c.pending| > 0 {
      SteppedIgnoresEvents(g, act, key, c, d);
      if Stepped(g, act, key, c).Ok? {
        DrainedIgnoresEvents(g, act, key, Stepped(g, act, key, c).value, Stepped(g, act, key, d).value);
      }
    }
  }

  // ---------- counting steps ----------

  /** `d` is `c` some steps later. */
  ghost predicate Later(g: Graph, c: Context, d: Context) {
    && c.step <= d.step && (d.step == c.step || d.step <= g.stepLimit)
    && |d.trace| == d.step && c.trace <= d.trace
  }

  lemma SteppedIsLater(g: Graph, act: Actions, key: Option<string>, c: Context)
    requires |c.pending| > 0 && |c.trace| == c.step
    ensures match Stepped(g, act, key, c)
            case Ok(d) => Later(g, c, d)
            case Err(Interrupted(_, _, i)) => Later(g, c, i) && i.step == c.step + 1
            case Err(Failed(_)) => true
  {
  }

  /** In every run the trace has one entry per step and the limit is kept, also when the run is interrupted. */
  lemma {:induction false} DrainedIsLater(g: Graph, act: Actions, key: Option<string>, c: Context)
    requires |c.trace| == c.step
    ensures match Drained(g, act, key, c)
            case Ok(d) => Later(g, c, d) && d.pending == []
            case Err(Interrupted(_, _, i)) => Later(g, c, i) && i.step > c.step
            case Err(Failed(_)) => true
    decreases Room(g, c), |c.pending|
  {
    if |c.pending| > 0 {
      SteppedIsLater(g, act, key, c);
      if Stepped(g, act, key, c).Ok? {
        DrainedIsLater(g, act, key, Stepped(g, act, key, c).value);
      }
    }
  }

  lemma RunCountsSteps(g: Graph, act: Actions, key: Option<string>, state: State)
    ensures match RunFrom(g, act, key, Initial(g, state))
            case Ok(d) => |d.trace| == d.step && (d.step == 0 || d.step <= g.stepLimit) && d.pending == []
            case Err(Interrupted(_, _, i)) => |i.trace| == i.step && 0 < i.step <= g.stepLimit
            case Err(Failed(_)) => true
  {
    DrainedIsLater(g, act, key, Published(Initial(g, state), "start", None));
  }

  // ---------- first in, first out ----------

  /** `n` executions in a row. */
  ghost function SteppedTimes(g: Graph, act: Actions, key: Option<string>, c: Context, n: nat): Result<Context, Stop>
  {
    if n == 0 then Ok(c)
    else
      match SteppedTimes(g, act, key, c, n - 1)
      case Err(e) => Err(e)
      case Ok(d) => if |d.pending| == 0 then Ok(d) else Stepped(g, act, key, d)
  }

  ghost function NodesOf(items: seq<Item>): seq<string> {
    if |items| == 0 then []
    else
      NodesOf(items[..|items| - 1])
      + (if Target(items[|items| - 1]) == END then [] else [Target(items[|items| - 1])])
  }

  /** Work is done in the order in which it was queued: whatever the first n items add comes after all that was
      pending before them. */
  lemma {:induction false} QueueIsFifo(g: Graph, act: Actions, key: Option<string>, c: Context, n: nat)
    requires n <= |c.pending| && SteppedTimes(g, act, key, c, n).Ok?
    ensures var d := SteppedTimes(g, act, key, c, n).value;
            c.pending[n..] <= d.pending && d.trace == c.trace + NodesOf(c.pending[..n])
  {
    if n > 0 {
      QueueIsFifo(g, act, key, c, n - 1);
      var d := SteppedTimes(g, act, key, c, n - 1).value;
      StepTakesFront(g, act, key, d);
      FrontMoves(c.pending, n, d.pending);
      NodesGrow(c.trace, c.pending, n);
    }
  }

  lemma NodesGrow(trace: seq<string>, items: seq<Item>, n: nat)
    requires 0 < n <= |items|
    ensures (trace + NodesOf(items[..n - 1])) + NodesOf([items[n - 1]]) == trace + NodesOf(items[..n])
  {
    assert items[..n][..n - 1] == items[..n - 1];
    assert NodesOf([items[n - 1]][..0]) == [];
  }

  /** One step takes the front item and leaves the others in front. */
  lemma StepTakesFront(g: Graph, act: Actions, key: Option<string>, d: Context)
    requires |d.pending| > 0 && Stepped(g, act, key, d).Ok?
    ensures var e := Stepped(g, act, key, d).value;
            d.pending[1..] <= e.pending && e.trace == d.trace + NodesOf([d.pending[0]])
  {
  }

  lemma FrontMoves<T>(queue: seq<T>, n: nat, rest: seq<T>)
    requires 0 < n <= |queue| && queue[n - 1..] <= rest
    ensures |rest| > 0 && rest[0] == queue[n - 1] && queue[n..] <= rest[1..]
  {
    assert queue[n..] == queue[n - 1..][1..];
  }

  // ---------- interrupt and resume ----------

  /** The same actions, but for the answer in one step. */
  ghost function With(act: Actions, step: nat, r: ActionResult): Actions {
    (s: nat, node, state) => if s == step then Some(r) else act(s, node, state)
  }

  ghost predicate AgreeAfter(a: Actions, b: Actions, step: nat) {
    forall s: nat, node, state :: s > step ==> a(s, node, state) == b(s, node, state)
  }

  /** A run depends only on what actions answer in the steps still to come. */
  lemma {:induction false} DrainedAgrees(g: Graph, a: Actions, b: Actions, key: Option<string>, c: Context)
    requires AgreeAfter(a, b, c.step)
    ensures Drained(g, a, key, c) == Drained(g, b, key, c)
    decreases Room(g, c), |c.pending|
  {
    if |c.pending| > 0 {
      assert Stepped(g, a, key, c) == Stepped(g, b, key, c);
      if Stepped(g, a, key, c).Ok? {
        DrainedAgrees(g, a, b, key, Stepped(g, a, key, c).value);
      }
    }
  }

  /** The work that remains after an answer to an interrupt. */
  ghost function Continued(g: Graph, act: Actions, key: Option<string>, node: string, i: Context, r: ActionResult):
    Result<Context, Stop>
  {
    match Finished(g, i.(state := Recorded(i.state, key, i.trace)), node, Normalize(r), "resume")
    case Err(e) => Err(e)
    case Ok(d) => Drained(g, act, key, d)
  }

  lemma FinishedIgnoresEvents(g: Graph, c: Context, d: Context, node: string, o: Normalized, kind: string,
                              kind': string)
    requires SameWork(c, d)
    ensures SameResult(Finished(g, c, node, o, kind), Finished(g, d, node, o, kind'))
    ensures Finished(g, c, node, o, kind).Ok? ==> Finished(g, c, node, o, kind).value.step == c.step
  {
  }

  /** The step that was interrupted, answered at once. */
  lemma AnsweredAtOnce(g: Graph, act: Actions, key: Option<string>, c: Context, r: ActionResult)
    requires |c.pending| > 0 && Stepped(g, act, key, c).Err? && Stepped(g, act, key, c).error.Interrupted?
    ensures var i, node := Stepped(g, act, key, c).error.context, Stepped(g, act, key, c).error.node;
            && i.step == c.step + 1
            && if r.Interrupt?
               then Stepped(g, With(act, i.step, r), key, c) == Err(Interrupted(r.value, node, i))
               else SameResult(Stepped(g, With(act, i.step, r), key, c),
                               Finished(g, i.(state := Recorded(i.state, key, i.trace)), node, Normalize(r), "resume"))
  {
    var item, rest := c.pending[0], c.(pending := c.pending[1..]);
    var started := Started(rest, Target(item), key);
    var i := Stepped(g, act, key, c).error.context;
    assert i == Published(started, "interrupt", Some(Target(item)));
    assert SameWork(started, i.(state := Recorded(i.state, key, i.trace)));
    if !r.Interrupt? {
      FinishedIgnoresEvents(g, started, i.(state := Recorded(i.state, key, i.trace)), Target(item), Normalize(r),
                            "node-end", "resume");
    }
  }

  lemma {:induction false} ContinuesAsUninterrupted(g: Graph, act: Actions, key: Option<string>, c: Context,
                                                    r: ActionResult)
    requires |c.trace| == c.step
    requires Drained(g, act, key, c).Err? && Drained(g, act, key, c).error.Interrupted?
    ensures var i, node := Drained(g, act, key, c).error.context, Drained(g, act, key, c).error.node;
            if r.Interrupt?
            then Drained(g, With(act, i.step, r), key, c) == Err(Interrupted(r.value, node, i))
            else SameResult(Drained(g, With(act, i.step, r), key, c), Continued(g, act, key, node, i, r))
    decreases Room(g, c), |c.pending|
  {
    var i, node := Drained(g, act, key, c).error.context, Drained(g, act, key, c).error.node;
    var act' := With(act, i.step, r);
    SteppedIsLater(g, act, key, c);
    match Stepped(g, act, key, c)
    case Ok(d) =>
      DrainedIsLater(g, act, key, d);
      assert Stepped(g, act', key, c) == Ok(d);
      ContinuesAsUninterrupted(g, act, key, d, r);
    case Err(_) =>
      AnsweredAtOnce(g, act, key, c, r);
      if !r.Interrupt? && Stepped(g, act', key, c).Ok? {
        var d := Stepped(g, act', key, c).value;
        FinishedIgnoresEvents(g, i.(state := Recorded(i.state, key, i.trace)), i, node, Normalize(r), "resume",
                              "resume");
        var e := Finished(g, i.(state := Recorded(i.state, key, i.trace)), node, Normalize(r), "resume").value;
        DrainedAgrees(g, act', act, key, d);
        DrainedIgnoresEvents(g, act, key, d, e);
      }
  }

  /** Resuming an interrupted run with an answer does the same work - state, trace, step count, pending items, and
      failure or next interrupt - as a run whose node had given that answer at once. It does so exactly if the answer
      is not itself an interrupt: resuming with an interrupt drops the node's successors instead of stopping again. */
  lemma ResumeIsUninterruptedIff(g: Graph, act: Actions, key: Option<string>, c: Context, r: ActionResult)
    requires |c.trace| == c.step
    requires RunFrom(g, act, key, c).Err? && RunFrom(g, act, key, c).error.Interrupted?
    ensures var i, node := RunFrom(g, act, key, c).error.context, RunFrom(g, act, key, c).error.node;
            SameResult(Resumed(g, act, key, node, i, r), RunFrom(g, With(act, i.step, r), key, c)) <==> !r.Interrupt?
  {
    var start := c.(events := c.events + [Event("start", None, 0)]);
    var i, node := RunFrom(g, act, key, c).error.context, RunFrom(g, act, key, c).error.node;
    DrainedIsLater(g, act, key, start);
    ContinuesAsUninterrupted(g, act, key, start, r);
    ResumedIsContinued(g, act, key, node, i, r);
    if r.Interrupt? {
      ResumedStopsLater(g, act, key, node, i, r);
    } else {
      var a, b := Drained(g, With(act, i.step, r), key, start), Continued(g, act, key, node, i, r);
      assert SameResult(a, b);
    }
  }

  /** What a resumed run does, up to events. */
  lemma ResumedIsContinued(g: Graph, act: Actions, key: Option<string>, node: string, i: Context, r: ActionResult)
    ensures match Continued(g, act, key, node, i, r)
            case Ok(d) => SameResult(Resumed(g, act, key, node, i, r), Ok(Completed(d, key)))
            case Err(e) => SameResult(Resumed(g, act, key, node, i, r), Err(e))
  {
    var f := Finished(g, i.(state := Recorded(i.state, key, i.trace)), node, Normalize(r), "resume");
    if f.Ok? {
      var d := f.value;
      DrainedIgnoresEvents(g, act, key, d.(events := d.events + [Event("start", None, 0)]), d);
    }
  }

  lemma ResumedStopsLater(g: Graph, act: Actions, key: Option<string>, node: string, i: Context, r: ActionResult)
    requires |i.trace| == i.step
    ensures match Continued(g, act, key, node, i, r)
            case Err(Interrupted(_, _, j)) => j.step > i.step
            case _ => true
  {
    var f := Finished(g, i.(state := Recorded(i.state, key, i.trace)), node, Normalize(r), "resume");
    if f.Ok? {
      DrainedIsLater(g, act, key, f.value);
    }
  }

  /** What resuming with another interrupt does: the run goes on with what was pending anyway, as if the interrupted
      node had no successors. */
  lemma InterruptDropsSuccessors(g: Graph, act: Actions, key: Option<string>, node: string, i: Context, r: ActionResult)
    requires r.Interrupt?
    ensures SameResult(Resumed(g, act, key, node, i, r),
                       RunFrom(g, act, key, i.(state := Recorded(i.state, key, i.trace))))
  {
    var c := i.(state := Recorded(i.state, key, i.trace));
    var d := Finished(g, c, node, Normalize(r), "resume").value;
    assert Items([]) + SentItems([]) == [] && c.pending + [] == c.pending;
    assert SameWork(d, c);
    DrainedIgnoresEvents(g, act, key, d.(events := d.events + [Event("start", None, 0)]),
                         c.(events := c.events + [Event("start", None, 0)]));
  }

  // ---------- a run that is interrupted ----------

  /** Two nodes in a row. */
  const CHAIN := Graph({"a", "b"}, [Edge(START, "a"), Edge("a", "b")], [], 10, {"a", "b"}, map[], map[])

  /** The first node interrupts, the second answers without an update. */
  function Answers(): Actions {
    (step: nat, node, state) => if node == "a" then Some(Interrupt(Data(1))) else Some(Update(None))
  }

  lemma TargetsOfTwo(e: Edge, f: Edge, node: string)
    ensures Targets([e, f], node)
         == (if e.source == node then [e.target] else []) + (if f.source == node then [f.target] else [])
  {
    assert [e, f][..1] == [e] && [e][..0] == [];
    assert Targets([e], node) == [] + (if e.source == node then [e.target] else []);
  }

  lemma ChainTargets()
    ensures Targets(CHAIN.edges, START) == ["a"] && Targets(CHAIN.edges, "a") == ["b"]
    ensures Targets(CHAIN.edges, "b") == []
  {
    TargetsOfTwo(Edge(START, "a"), Edge("a", "b"), START);
    TargetsOfTwo(Edge(START, "a"), Edge("a", "b"), "a");
    TargetsOfTwo(Edge(START, "a"), Edge("a", "b"), "b");
    NamesDiffer();
  }

  lemma NamesDiffer()
    ensures START != "a" && START != "b" && "a" != "b"
  {
    assert |START| != |"a"| && "a"[0] != "b"[0];
  }

  /** Where the run stops. */
  lemma ChainStops() returns (i: Context)
    ensures RunFrom(CHAIN, Answers(), None, Initial(CHAIN, map[])) == Err(Interrupted(Data(1), "a", i))
    ensures i.state == map[] && i.pending == [] && i.trace == ["a"] && i.step == 1
  {
    ChainTargets();
    var c := Initial(CHAIN, map[]).(events := [Event("start", None, 0)]);
    assert Initial(CHAIN, map[]).events + [Event("start", None, 0)] == [Event("start", None, 0)];
    assert c.pending == [Node("a")] && c.pending[1..] == [] && map[] + BranchUpdate(Node("a")) == map[];
    i := Stepped(CHAIN, Answers(), None, c).error.context;
    assert [] + ["a"] == ["a"];
  }

  /** From a context in which only the second node is pending, that node runs and the run completes. */
  lemma SecondNodeRuns(c: Context)
    requires c.pending == [Node("b")] && c.step == 1
    ensures RunFrom(CHAIN, Answers(), None, c).Ok?
    ensures RunFrom(CHAIN, Answers(), None, c).value.trace == c.trace + ["b"]
  {
    ChainTargets();
    var d := c.(events := c.events + [Event("start", None, 0)]);
    assert d.pending[1..] == [];
    var e := Stepped(CHAIN, Answers(), None, d).value;
    assert Items([]) + [] == [];
    assert e.pending == [] && Drained(CHAIN, Answers(), None, e) == Ok(e);
  }

  /** The run stops in the first node. Resumed with an update the second node runs; resumed with another interrupt it
      never does, and the run completes. */
  lemma ChainDropsSecondNode() returns (i: Context)
    ensures RunFrom(CHAIN, Answers(), None, Initial(CHAIN, map[])) == Err(Interrupted(Data(1), "a", i))
    ensures i.trace == ["a"]
    ensures Resumed(CHAIN, Answers(), None, "a", i, Update(None)).Ok?
    ensures Resumed(CHAIN, Answers(), None, "a", i, Update(None)).value.trace == ["a", "b"]
    ensures Resumed(CHAIN, Answers(), None, "a", i, Interrupt(Data(2))).Ok?
    ensures Resumed(CHAIN, Answers(), None, "a", i, Interrupt(Data(2))).value.trace == ["a"]
  {
    i := ChainStops();
    ChainTargets();
    var d := Finished(CHAIN, i, "a", Normalize(Update(None)), "resume").value;
    assert Items(["b"]) + [] == [Node("b")] && [] + [Node("b")] == [Node("b")];
    SecondNodeRuns(d);
    InterruptDropsSuccessors(CHAIN, Answers(), None, "a", i, Interrupt(Data(2)));
  }
}
