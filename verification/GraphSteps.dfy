/** What one step of the graph executor does, part by part: which work it takes, what the action sees, how its answer
    changes the state and where it leads. */
module GraphSteps {
  import opened Basics
  import opened GraphExecutor

  // ---------- state ----------

  /** A merge has the keys of both. A key that the update lacks keeps its value; one it has takes the update's, reduced
      with the old value if there is one and the key has a reducer. */
  lemma MergeIs(state: State, update: State, reducers: map<string, (Val, Val) -> Val>, k: string)
    ensures k in Merge(state, update, reducers) <==> k in state || k in update
    ensures k in state && k !in update ==> Merge(state, update, reducers)[k] == state[k]
    ensures k in update && (k !in state || k !in reducers) ==> Merge(state, update, reducers)[k] == update[k]
    ensures k in update && k in state && k in reducers ==>
              Merge(state, update, reducers)[k] == reducers[k](state[k], update[k])
  {
  }

  /** Where a trace is recorded, it is recorded under its key and nowhere else. */
  lemma RecordedIs(state: State, key: Option<string>, trace: seq<string>)
    ensures key.None? ==> Recorded(state, key, trace) == state
    ensures forall k :: key == Some(k) ==>
              k in Recorded(state, key, trace) && Recorded(state, key, trace)[k] == Trace(trace)
    ensures forall k :: key != Some(k) ==>
              (k in Recorded(state, key, trace) <==> k in state)
              && (k in state ==> Recorded(state, key, trace)[k] == state[k])
  {
  }

  // ---------- answers ----------

  /** What an answer writes: an update what it holds, a command its changes, anything else nothing. */
  ghost predicate Writes(r: ActionResult, changes: State) {
    r == Update(Some(changes)) || (r.Command? && r.changes == changes)
  }

  /** An answer decides by itself where the run goes on, unless it is an update or a command without a destination. */
  ghost predicate Directs(r: ActionResult) {
    r.Interrupt? || r.OneSend? || r.ManySends? || (r.Command? && r.goto != [])
  }

  /** Where it goes on then: the destinations of a command, or what was sent, in order. */
  ghost function Directions(r: ActionResult): seq<Item> {
    match r
    case Command(_, goto) => Items(goto)
    case OneSend(send) => [Sent(send)]
    case ManySends(sends) => SentItems(sends)
    case _ => []
  }

  lemma NormalizeIs(r: ActionResult)
    ensures forall changes :: Normalize(r).update == Some(changes) <==> Writes(r, changes)
    ensures Normalize(r).controlsFlow <==> Directs(r)
    ensures Items(Normalize(r).goto) + SentItems(Normalize(r).sends) == Directions(r)
    ensures forall value :: Normalize(r).interrupt == Some(value) <==> r == Interrupt(value)
  {
  }

  // ---------- edges ----------

  /** `targets` are those of the edges that start in the node, in edge order: `at` are their positions. */
  ghost predicate Lists(targets: seq<string>, edges: seq<Edge>, node: string, at: seq<nat>) {
    && |at| == |targets|
    && (forall i :: 0 <= i < |at| ==> StartsAt(edges, at[i], node) && edges[at[i]].target == targets[i])
    && (forall i, j :: 0 <= i < j < |at| ==> at[i] < at[j])
    && (forall k :: StartsAt(edges, k, node) ==> k in at)
  }

  ghost predicate StartsAt(edges: seq<Edge>, k: int, node: string) {
    0 <= k < |edges| && edges[k].source == node
  }

  lemma {:induction false} TargetsAre(edges: seq<Edge>, node: string) returns (at: seq<nat>)
    ensures Lists(Targets(edges, node), edges, node, at)
  {
    at := [];
    if |edges| > 0 {
      var n := |edges| - 1;
      at := TargetsAre(edges[..n], node);
      OneMoreEdge(Targets(edges[..n], node), edges, node, at);
      if edges[n].source == node {
        at := at + [n];
      }
    }
  }

  lemma OneMoreEdge(targets: seq<string>, edges: seq<Edge>, node: string, at: seq<nat>)
    requires |edges| > 0 && Lists(targets, edges[..|edges| - 1], node, at)
    ensures edges[|edges| - 1].source != node ==> Lists(targets, edges, node, at)
    ensures edges[|edges| - 1].source == node ==>
              Lists(targets + [edges[|edges| - 1].target], edges, node, at + [|edges| - 1])
  {
    var n := |edges| - 1;
    forall k
      ensures StartsAt(edges, k, node) <==> StartsAt(edges[..n], k, node) || (k == n && edges[n].source == node)
    {
    }
    var at' := at + [n];
    assert at'[|at|] == n;
    assert forall k :: k in at ==> k in at';
  }

  /** Where a name leads: to itself if the edge has no table, otherwise to what the table says. */
  ghost predicate LeadsTo(g: Graph, routes: map<string, string>, name: string, node: string) {
    && (if routes == map[] then node == name else name in routes && node == routes[name])
    && (node in g.nodes || node == "__start__" || node == "__end__")
  }

  ghost predicate Leads(g: Graph, routes: map<string, string>, name: string) {
    exists node :: LeadsTo(g, routes, name, node)
  }

  lemma RouteNameIs(g: Graph, routes: map<string, string>, name: string)
    ensures forall node :: RouteName(g, routes, name) == Ok(node) <==> LeadsTo(g, routes, name, node)
    ensures RouteName(g, routes, name).Ok? <==> Leads(g, routes, name)
    ensures RouteName(g, routes, name) == Err(UnknownRoute) <==> routes != map[] && name !in routes
    ensures RouteName(g, routes, name).Err? ==> RouteName(g, routes, name).error in {UnknownRoute, UnknownEndpoint}
  {
  }

  /** A list of names is followed in order, and fails exactly if one of them leads nowhere. */
  lemma {:induction false} RouteNamesAre(g: Graph, routes: map<string, string>, names: seq<string>)
    ensures RouteNames(g, routes, names).Ok? <==>
            forall i :: 0 <= i < |names| ==> Leads(g, routes, names[i])
    ensures RouteNames(g, routes, names).Ok? ==>
              var items := RouteNames(g, routes, names).value;
              && |items| == |names|
              && forall i :: 0 <= i < |names| ==>
                   items[i].Node? && LeadsTo(g, routes, names[i], items[i].name)
  {
    if |names| > 0 {
      RouteNameIs(g, routes, names[0]);
      RouteNamesAre(g, routes, names[1..]);
      assert forall i :: 0 < i < |names| ==> names[i] == names[1..][i - 1];
    }
  }

  /** It fails for the first name that leads nowhere. */
  lemma {:induction false} RouteNamesFail(g: Graph, routes: map<string, string>, names: seq<string>) returns (n: nat)
    requires RouteNames(g, routes, names).Err?
    ensures n < |names| && !Leads(g, routes, names[n]) && forall i :: 0 <= i < n ==> Leads(g, routes, names[i])
    ensures RouteNames(g, routes, names).error
         == if routes != map[] && names[n] !in routes then UnknownRoute else UnknownEndpoint
  {
    n := 0;
    RouteNameIs(g, routes, names[0]);
    if RouteName(g, routes, names[0]).Ok? {
      var m := RouteNamesFail(g, routes, names[1..]);
      n := m + 1;
      assert forall i :: 0 < i < |names| ==> names[i] == names[1..][i - 1];
    }
  }

  /** The same of a router's answer. What is sent is not looked up in the table. */
  lemma RoutedIs(g: Graph, routes: map<string, string>, route: Route)
    ensures route.Unsupported? ==> Routed(g, routes, route) == Err(UnsupportedRoute)
    ensures route.ToNode? ==> Routed(g, routes, route) == RouteNames(g, routes, [route.name])
    ensures route.ToNodes? ==> Routed(g, routes, route) == RouteNames(g, routes, route.names)
    ensures route.ToSend? ==>
              Routed(g, routes, route) == if LeadsTo(g, map[], route.send.target, route.send.target)
                                          then Ok([Sent(route.send)]) else Err(UnknownEndpoint)
    ensures route.ToSends? ==>
              (Routed(g, routes, route) == Ok(SentItems(route.sends)) <==>
               forall i :: 0 <= i < |route.sends| ==>
                 LeadsTo(g, map[], route.sends[i].target, route.sends[i].target))
    ensures route.ToSends? && Routed(g, routes, route).Err? ==> Routed(g, routes, route) == Err(UnknownEndpoint)
  {
    if route.ToSends? {
      assert forall i :: 0 <= i < |route.sends| ==>
          (Endpoint(g, route.sends[i].target)
           <==> LeadsTo(g, map[], route.sends[i].target, route.sends[i].target));
    }
  }

  /** One conditional edge: none of another node, and of this node what its router answers. */
  lemma OneConditional(g: Graph, e: Conditional, node: string, state: State)
    ensures e.source != node ==> ConditionalTargets(g, [e], node, state) == Ok([])
    ensures e.source == node && e.router !in g.routers ==> ConditionalTargets(g, [e], node, state) == Err(MissingRouter)
    ensures e.source == node && e.router in g.routers ==>
              ConditionalTargets(g, [e], node, state) == Routed(g, e.routes, g.routers[e.router](state))
  {
    assert [e][1..] == [];
    if e.source == node && e.router in g.routers && Routed(g, e.routes, g.routers[e.router](state)).Ok? {
      assert Routed(g, e.routes, g.routers[e.router](state)).value + []
          == Routed(g, e.routes, g.routers[e.router](state)).value;
    }
  }

  /** Several are followed one after the other, to the first that fails. */
  lemma {:induction false} ConditionalsInOrder(g: Graph, a: seq<Conditional>, b: seq<Conditional>, node: string,
                                               state: State)
    ensures ConditionalTargets(g, a + b, node, state)
         == match ConditionalTargets(g, a, node, state)
            case Err(e) => Err(e)
            case Ok(items) => Prefixed(items, ConditionalTargets(g, b, node, state))
  {
    if |a| == 0 {
      assert a + b == b;
      PrefixedByNothing(ConditionalTargets(g, b, node, state));
    } else {
      assert (a + b)[0] == a[0] && (a + b)[1..] == a[1..] + b;
      ConditionalsInOrder(g, a[1..], b, node, state);
      if a[0].source == node && a[0].router in g.routers {
        var first := Routed(g, a[0].routes, g.routers[a[0].router](state));
        var rest := ConditionalTargets(g, a[1..], node, state);
        if first.Ok? && rest.Ok? {
          PrefixedTwice(first.value, rest.value, ConditionalTargets(g, b, node, state));
        }
      }
    }
  }

  // ---------- one step ----------

  /** Where the run goes on after an answer in `node`, given the state the answer left. */
  ghost function Successors(g: Graph, node: string, state: State, r: ActionResult): Result<seq<Item>, Failure> {
    if Directs(r) then Ok(Directions(r))
    else Prefixed(Items(Targets(g.edges, node)), ConditionalTargets(g, g.conditional, node, state))
  }

  /** The state that an answer leaves. */
  ghost predicate Changes(g: Graph, before: State, r: ActionResult, after: State) {
    if exists changes :: Writes(r, changes)
    then exists changes :: Writes(r, changes) && after == Merge(before, changes, g.reducers)
    else after == before
  }

  /** The state in which a step starts, and what its action is shown of it: a sent update is laid over what is shown,
      not over the state. */
  ghost function Shown(state: State, item: Item): State {
    match item
    case Node(_) => state
    case Sent(send) => state + send.update
  }

  /** From `c` to `d`: node `node` of the oldest item answered `r`. */
  ghost predicate StepsTo(g: Graph, act: Actions, key: Option<string>, c: Context, d: Context, node: string,
                          r: ActionResult)
    requires |c.pending| > 0
  {
    var trace := c.trace + [node];
    var state := Recorded(c.state, key, trace);
    && Target(c.pending[0]) == node != "__end__" && node in g.actions && c.step < g.stepLimit
    && act(c.step + 1, node, Shown(state, c.pending[0])) == Some(r) && !r.Interrupt?
    && d.step == c.step + 1 && d.trace == trace && Changes(g, state, r, d.state)
    && Successors(g, node, d.state, r).Ok?
    && d.pending == c.pending[1..] + Successors(g, node, d.state, r).value
    && d.events == c.events + [Event("node-start", Some(node), d.step), Event("node-end", Some(node), d.step)]
  }

  /** A step that succeeds drops an item that leads to the end, or runs the node of the oldest item. */
  lemma StepIs(g: Graph, act: Actions, key: Option<string>, c: Context, d: Context)
    requires |c.pending| > 0 && Stepped(g, act, key, c) == Ok(d)
    ensures if Target(c.pending[0]) == "__end__" then d == c.(pending := c.pending[1..])
            else exists r :: StepsTo(g, act, key, c, d, Target(c.pending[0]), r)
  {
    var item := c.pending[0];
    if Target(item) != END {
      var started := Started(c.(pending := c.pending[1..]), Target(item), key);
      ShownIs(started.state, item);
      var r := act(started.step, Target(item), Shown(started.state, item)).value;
      FinishedIs(g, started, Target(item), r, "node-end", d);
      assert StepsTo(g, act, key, c, d, Target(item), r);
    }
  }

  lemma ShownIs(state: State, item: Item)
    ensures state + BranchUpdate(item) == Shown(state, item)
  {
  }

  /** A node is finished by writing its answer and queueing the successors behind what is pending. */
  lemma FinishedIs(g: Graph, c: Context, node: string, r: ActionResult, kind: string, d: Context)
    requires Finished(g, c, node, Normalize(r), kind) == Ok(d)
    ensures Changes(g, c.state, r, d.state) && Successors(g, node, d.state, r).Ok?
    ensures d.pending == c.pending + Successors(g, node, d.state, r).value
    ensures d.step == c.step && d.trace == c.trace && d.events == c.events + [Event(kind, Some(node), c.step)]
  {
    NormalizeIs(r);
    if r.Update? && r.update.Some? {
      assert Writes(r, r.update.value);
    }
    if r.Command? {
      assert Writes(r, r.changes);
    }
  }

  /** Why a step fails: the limit, a node without action, an action that raises, an interrupt, or a successor that
      cannot be found, in this order. */
  lemma StepFails(g: Graph, act: Actions, key: Option<string>, c: Context)
    requires |c.pending| > 0 && Target(c.pending[0]) != "__end__"
    ensures var node := Target(c.pending[0]);
            var state := Recorded(c.state, key, c.trace + [node]);
            var answer := act(c.step + 1, node, Shown(state, c.pending[0]));
            var result := Stepped(g, act, key, c);
            && (c.step >= g.stepLimit ==> result == Err(Failed(StepLimit)))
            && (c.step < g.stepLimit && node !in g.actions ==> result == Err(Failed(UnknownAction)))
            && (c.step < g.stepLimit && node in g.actions && answer.None? ==> result == Err(Failed(ActionRaised)))
            && (c.step < g.stepLimit && node in g.actions && answer.Some? && answer.value.Interrupt? ==>
                  result == Err(Interrupted(answer.value.value, node, StoppedAt(c, node, state))))
            && (c.step < g.stepLimit && node in g.actions && answer.Some? && !answer.value.Interrupt? && result.Err? ==>
                  result.error.Failed? && exists after ::
                    Changes(g, state, answer.value, after)
                    && Successors(g, node, after, answer.value) == Err(result.error.failure))
  {
    var item := c.pending[0];
    var started := Started(c.(pending := c.pending[1..]), Target(item), key);
    ShownIs(started.state, item);
    var answer := act(started.step, Target(item), Shown(started.state, item));
    assert started.events + [Event("interrupt", Some(Target(item)), started.step)]
        == StoppedAt(c, Target(item), started.state).events;
    if c.step < g.stepLimit && Target(item) in g.actions && answer.Some? && !answer.value.Interrupt?
       && Stepped(g, act, key, c).Err? {
      FinishFails(g, started, Target(item), answer.value, "node-end");
    }
  }

  /** What an interrupt carries: the step was started, and nothing was written or queued. */
  ghost function StoppedAt(c: Context, node: string, state: State): Context
    requires |c.pending| > 0
  {
    Context(state, c.pending[1..], c.trace + [node],
            c.events + [Event("node-start", Some(node), c.step + 1), Event("interrupt", Some(node), c.step + 1)],
            c.step + 1)
  }

  lemma FinishFails(g: Graph, c: Context, node: string, r: ActionResult, kind: string)
    requires Finished(g, c, node, Normalize(r), kind).Err?
    ensures var e := Finished(g, c, node, Normalize(r), kind).error;
            e.Failed? && exists after ::
              Changes(g, c.state, r, after) && Successors(g, node, after, r) == Err(e.failure)
  {
    NormalizeIs(r);
    var o := Normalize(r);
    var after := match o.update case None => c.state case Some(u) => Merge(c.state, u, g.reducers);
    if o.update.Some? {
      assert Writes(r, o.update.value);
    }
    assert Changes(g, c.state, r, after);
  }

  // ---------- whole runs ----------

  /** A run starts at the targets of the start node, with nothing done. */
  lemma InitialIs(g: Graph, state: State)
    ensures var c := Initial(g, state);
            && c.state == state && c.trace == [] && c.step == 0 && c.events == []
            && |c.pending| == |Targets(g.edges, "__start__")|
            && forall i :: 0 <= i < |c.pending| ==> c.pending[i] == Node(Targets(g.edges, "__start__")[i])
  {
  }

  /** `c` becomes `d` by steps alone. */
  ghost predicate Reaches(g: Graph, act: Actions, key: Option<string>, c: Context, d: Context, n: nat)
    decreases n
  {
    if n == 0 then c == d
    else |c.pending| > 0 && Stepped(g, act, key, c).Ok? && Reaches(g, act, key, Stepped(g, act, key, c).value, d, n - 1)
  }

  lemma {:induction false} DrainedReaches(g: Graph, act: Actions, key: Option<string>, c: Context, last: Context)
    returns (n: nat)
    requires Drained(g, act, key, c) == Ok(last)
    ensures Reaches(g, act, key, c, last, n) && last.pending == []
    decreases Room(g, c), |c.pending|
  {
    n := 0;
    if |c.pending| > 0 {
      var d := DrainedStep(g, act, key, c, last);
      var m := DrainedReaches(g, act, key, d, last);
      OneMoreStep(g, act, key, c, d, last, m);
      n := m + 1;
    }
  }

  lemma DrainedStep(g: Graph, act: Actions, key: Option<string>, c: Context, last: Context) returns (d: Context)
    requires |c.pending| > 0 && Drained(g, act, key, c) == Ok(last)
    ensures Stepped(g, act, key, c) == Ok(d) && Drained(g, act, key, d) == Ok(last)
    ensures Room(g, d) < Room(g, c) || (Room(g, d) == Room(g, c) && |d.pending| < |c.pending|)
  {
    d := Stepped(g, act, key, c).value;
  }

  lemma OneMoreStep(g: Graph, act: Actions, key: Option<string>, c: Context, d: Context, last: Context, n: nat)
    requires |c.pending| > 0 && Stepped(g, act, key, c) == Ok(d) && Reaches(g, act, key, d, last, n)
    ensures Reaches(g, act, key, c, last, n + 1)
  {
  }

  /** A run that completes takes steps until nothing is pending, then records the trace; it publishes where it starts
      and where it is complete. */
  lemma RunIs(g: Graph, act: Actions, key: Option<string>, c: Context, d: Context) returns (n: nat, last: Context)
    requires RunFrom(g, act, key, c) == Ok(d)
    ensures Reaches(g, act, key, c.(events := c.events + [Event("start", None, 0)]), last, n) && last.pending == []
    ensures d == last.(state := Recorded(last.state, key, last.trace),
                       events := last.events + [Event("complete", None, last.step)])
  {
    var start := c.(events := c.events + [Event("start", None, 0)]);
    last := Drained(g, act, key, start).value;
    n := DrainedReaches(g, act, key, start, last);
  }

  /** A run that is resumed finishes the interrupted node with the answer, then goes on. */
  lemma ResumeIs(g: Graph, act: Actions, key: Option<string>, node: string, c: Context, r: ActionResult, d: Context)
    returns (e: Context)
    requires Resumed(g, act, key, node, c, r) == Ok(d)
    ensures Changes(g, Recorded(c.state, key, c.trace), r, e.state) && Successors(g, node, e.state, r).Ok?
    ensures e.pending == c.pending + Successors(g, node, e.state, r).value
    ensures e.step == c.step && e.trace == c.trace && e.events == c.events + [Event("resume", Some(node), c.step)]
    ensures RunFrom(g, act, key, e) == Ok(d)
  {
    var recorded := c.(state := Recorded(c.state, key, c.trace));
    e := Finished(g, recorded, node, Normalize(r), "resume").value;
    FinishedIs(g, recorded, node, r, "resume", e);
  }
}
