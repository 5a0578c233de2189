/** The runtime graph executor: a queue of pending work, a step counter with a limit, interrupts and their resumption.
    Actions are given the number of the step they run in, so that an action may answer differently each time. */
module GraphExecutor {
  import opened Basics

  /** `Data` stands for any value but a recorded trace. */
  datatype Val = Data(n: int) | Trace(nodes: seq<string>)

  type State = map<string, Val>

  const START := "__start__"
  const END := "__end__"

  datatype Send = Send(target: string, update: State)

  datatype Item = Node(name: string) | Sent(send: Send)

  datatype ActionResult =
    | Update(update: Option<State>)
    | Command(changes: State, goto: seq<string>)
    | OneSend(send: Send)
    | ManySends(sends: seq<Send>)
    | Interrupt(value: Val)

  datatype Normalized = Normalized(
    update: Option<State>, goto: seq<string>, controlsFlow: bool, sends: seq<Send>, interrupt: Option<Val>)

  datatype Edge = Edge(source: string, target: string)

  datatype Route =
    | ToNode(name: string) | ToNodes(names: seq<string>) | ToSend(send: Send) | ToSends(sends: seq<Send>) | Unsupported

  datatype Conditional = Conditional(source: string, router: string, routes: map<string, string>)

  datatype Failure =
    | StepLimit | UnknownAction | ActionRaised | MissingRouter | UnknownRoute | UnknownEndpoint | UnsupportedRoute

  datatype Graph = Graph(
    nodes: set<string>, edges: seq<Edge>, conditional: seq<Conditional>, stepLimit: int, actions: set<string>,
    routers: map<string, State -> Route>, reducers: map<string, (Val, Val) -> Val>)

  /** What a node's action answers in a given step and state; None if it raises. */
  type Actions = (nat, string, State) -> Option<ActionResult>

  datatype Event = Event(kind: string, node: Option<string>, step: nat)

  datatype Context = Context(state: State, pending: seq<Item>, trace: seq<string>, events: seq<Event>, step: nat)

  /** How a run stops short: a failure, or an interrupt that carries the context it happened in. */
  datatype Stop = Failed(failure: Failure) | Interrupted(value: Val, node: string, context: Context)

  // ---------- state ----------

  function Merge(state: State, update: State, reducers: map<string, (Val, Val) -> Val>): State {
    map k | k in state.Keys + update.Keys :: Cell(state, update, reducers, k)
  }

  /** The new value of one key: old and new value reduced, if both exist and the key has a reducer. */
  function Cell(state: State, update: State, reducers: map<string, (Val, Val) -> Val>, k: string): Val
    requires k in state || k in update
  {
    if k !in update then state[k]
    else if k in state && k in reducers then reducers[k](state[k], update[k])
    else update[k]
  }

  function Normalize(r: ActionResult): Normalized {
    match r
    case Interrupt(value) => Normalized(None, [], true, [], Some(value))
    case Command(changes, goto) => Normalized(Some(changes), goto, |goto| > 0, [], None)
    case OneSend(send) => Normalized(None, [], true, [send], None)
    case ManySends(sends) => Normalized(None, [], true, sends, None)
    case Update(update) => Normalized(update, [], false, [], None)
  }

  function Recorded(state: State, key: Option<string>, trace: seq<string>): State {
    match key
    case None => state
    case Some(k) => state[k := Trace(trace)]
  }

  // ---------- targets ----------

  function Targets(edges: seq<Edge>, node: string): seq<string> {
    if |edges| == 0 then []
    else Targets(edges[..|edges| - 1], node)
         + (if edges[|edges| - 1].source == node then [edges[|edges| - 1].target] else [])
  }

  function Items(names: seq<string>): (items: seq<Item>)
    ensures |items| == |names|
  {
    seq(|names|, i requires 0 <= i < |names| => Node(names[i]))
  }

  function SentItems(sends: seq<Send>): (items: seq<Item>)
    ensures |items| == |sends|
  {
    seq(|sends|, i requires 0 <= i < |sends| => Sent(sends[i]))
  }

  predicate Endpoint(g: Graph, name: string) {
    name in g.nodes || name == START || name == END
  }

  function RouteName(g: Graph, routes: map<string, string>, name: string): Result<string, Failure> {
    if routes != map[] && name !in routes then Err(UnknownRoute)
    else
      var target := if routes == map[] then name else routes[name];
      if Endpoint(g, target) then Ok(target) else Err(UnknownEndpoint)
  }

  function RouteNames(g: Graph, routes: map<string, string>, names: seq<string>): Result<seq<Item>, Failure> {
    if |names| == 0 then Ok([])
    else
      match RouteName(g, routes, names[0])
      case Err(e) => Err(e)
      case Ok(t) =>
        match RouteNames(g, routes, names[1..])
        case Err(e) => Err(e)
        case Ok(rest) => Ok([Node(t)] + rest)
  }

  function Routed(g: Graph, routes: map<string, string>, route: Route): Result<seq<Item>, Failure> {
    match route
    case ToSend(send) => if Endpoint(g, send.target) then Ok([Sent(send)]) else Err(UnknownEndpoint)
    case ToSends(sends) =>
      if forall i :: 0 <= i < |sends| ==> Endpoint(g, sends[i].target)
      then Ok(SentItems(sends)) else Err(UnknownEndpoint)
    case ToNodes(names) => RouteNames(g, routes, names)
    case ToNode(name) => RouteNames(g, routes, [name])
    case Unsupported => Err(UnsupportedRoute)
  }

  function ConditionalTargets(g: Graph, edges: seq<Conditional>, node: string, state: State):
    Result<seq<Item>, Failure>
  {
    if |edges| == 0 then Ok([])
    else if edges[0].source != node then ConditionalTargets(g, edges[1..], node, state)
    else if edges[0].router !in g.routers then Err(MissingRouter)
    else
      match Routed(g, edges[0].routes, g.routers[edges[0].router](state))
      case Err(e) => Err(e)
      case Ok(items) =>
        match ConditionalTargets(g, edges[1..], node, state)
        case Err(e) => Err(e)
        case Ok(rest) => Ok(items + rest)
  }

  function NextTargets(g: Graph, node: string, state: State, o: Normalized): Result<seq<Item>, Failure> {
    if o.controlsFlow then Ok(Items(o.goto) + SentItems(o.sends))
    else
      match ConditionalTargets(g, g.conditional, node, state)
      case Err(e) => Err(e)
      case Ok(items) => Ok(Items(Targets(g.edges, node)) + items)
  }

  // ---------- one step ----------

  function Published(c: Context, kind: string, node: Option<string>): Context {
    c.(events := c.events + [Event(kind, node, c.step)])
  }

  function Target(item: Item): string {
    match item
    case Node(name) => name
    case Sent(send) => send.target
  }

  function BranchUpdate(item: Item): State {
    match item
    case Node(_) => map[]
    case Sent(send) => send.update
  }

  /** The context in which a node's action is about to run. */
  function Started(c: Context, node: string, key: Option<string>): Context {
    var trace := c.trace + [node];
    Published(c.(step := c.step + 1, trace := trace, state := Recorded(c.state, key, trace)), "node-start", Some(node))
  }

  function Finished(g: Graph, c: Context, node: string, o: Normalized, kind: string): Result<Context, Stop> {
    var state := match o.update case None => c.state case Some(u) => Merge(c.state, u, g.reducers);
    match NextTargets(g, node, state, o)
    case Err(e) => Err(Failed(e))
    case Ok(items) => Ok(Published(c.(state := state, pending := c.pending + items), kind, Some(node)))
  }

  /** Runs the node of an item that was taken off the queue: what its action answers, unless that is an interrupt. */
  function Ran(g: Graph, act: Actions, key: Option<string>, c: Context, item: Item): Result<Normalized, Stop> {
    var node := Target(item);
    if c.step + 1 > g.stepLimit then Err(Failed(StepLimit))
    else if node !in g.actions then Err(Failed(UnknownAction))
    else
      var started := Started(c, node, key);
      match act(started.step, node, started.state + BranchUpdate(item))
      case None => Err(Failed(ActionRaised))
      case Some(r) =>
        if r.Interrupt? then Err(Interrupted(r.value, node, Published(started, "interrupt", Some(node))))
        else Ok(Normalize(r))
  }

  /** Executes the oldest pending item. */
  function Stepped(g: Graph, act: Actions, key: Option<string>, c: Context): Result<Context, Stop>
    requires |c.pending| > 0
  {
    var item, rest := c.pending[0], c.(pending := c.pending[1..]);
    if Target(item) == END then Ok(rest)
    else
      match Ran(g, act, key, rest, item)
      case Err(e) => Err(e)
      case Ok(o) => Finished(g, Started(rest, Target(item), key), Target(item), o, "node-end")
  }

  /** How many more steps the limit allows. */
  function Room(g: Graph, c: Context): nat {
    if c.step < g.stepLimit then g.stepLimit - c.step else 0
  }

  function Drained(g: Graph, act: Actions, key: Option<string>, c: Context): (r: Result<Context, Stop>)
    decreases Room(g, c), |c.pending|
  {
    if |c.pending| == 0 then Ok(c)
    else
      match Stepped(g, act, key, c)
      case Err(e) => Err(e)
      case Ok(d) => Drained(g, act, key, d)
  }

  function Completed(c: Context, key: Option<string>): Context {
    Published(c.(state := Recorded(c.state, key, c.trace)), "complete", None)
  }

  function RunFrom(g: Graph, act: Actions, key: Option<string>, c: Context): Result<Context, Stop> {
    match Drained(g, act, key, c.(events := c.events + [Event("start", None, 0)]))
    case Err(e) => Err(e)
    case Ok(d) => Ok(Completed(d, key))
  }

  function Initial(g: Graph, state: State): Context {
    Context(state, Items(Targets(g.edges, START)), [], [], 0)
  }

  /** Continues an interrupted run with an answer in place of the interrupt. */
  function Resumed(g: Graph, act: Actions, key: Option<string>, node: string, c: Context, r: ActionResult):
    Result<Context, Stop>
  {
    match Finished(g, c.(state := Recorded(c.state, key, c.trace)), node, Normalize(r), "resume")
    case Err(e) => Err(e)
    case Ok(d) => RunFrom(g, act, key, d)
  }

  // ---------- the executor ----------

  class RunContext {
    var state: State
    var pending: seq<Item>
    var trace: seq<string>
    var events: seq<Event>
    var step: nat

    function Contents(): Context
      reads this
    {
      Context(state, pending, trace, events, step)
    }

    constructor (c: Context)
      ensures Contents() == c
    {
      state, pending, trace, events, step := c.state, c.pending, c.trace, c.events, c.step;
    }

    method NextNode() returns (item: Item)
      requires |pending| > 0
      modifies this
      ensures item == old(pending[0]) && Contents() == old(Contents()).(pending := old(pending)[1..])
    {
      item := pending[0];
      pending := pending[1..];
    }

    method AdvanceStep(limit: int) returns (ok: bool)
      modifies this
      ensures ok <==> step <= limit
      ensures Contents() == old(Contents()).(step := old(step) + 1)
    {
      step := step + 1;
      ok := step <= limit;
    }

    method Publish(kind: string, node: Option<string>, at: nat)
      modifies this
      ensures Contents() == old(Contents()).(events := old(events) + [Event(kind, node, at)])
    {
      events := events + [Event(kind, node, at)];
    }

    method RecordTrace(key: Option<string>)
      modifies this
      ensures Contents() == old(Contents()).(state := Recorded(old(state), key, old(trace)))
    {
      if key.Some? {
        state := state[key.value := Trace(trace)];
      }
    }
  }

  method MergeState(state: State, update: State, reducers: map<string, (Val, Val) -> Val>) returns (merged: State)
    ensures merged == Merge(state, update, reducers)
  {
    merged := state;
    var todo := update.Keys;
    while todo != {}
      invariant MergedSoFar(merged, state, update, reducers, todo)
      decreases todo
    {
      var k :| k in todo;
      var value := if k in merged && k in reducers then reducers[k](merged[k], update[k]) else update[k];
      MergeOne(merged, state, update, reducers, todo, k, value);
      merged := merged[k := value];
      todo := todo - {k};
    }
    AllMerged(merged, state, update, reducers);
  }

  /** All keys but those still to do have their new value. */
  ghost predicate MergedSoFar(merged: State, state: State, update: State, reducers: map<string, (Val, Val) -> Val>,
                              todo: set<string>)
  {
    && todo <= update.Keys
    && (forall k :: k in merged <==> k in state || (k in update && k !in todo))
    && (forall k :: k in merged ==> merged[k] == if k in todo then state[k] else Cell(state, update, reducers, k))
  }

  lemma AllMerged(merged: State, state: State, update: State, reducers: map<string, (Val, Val) -> Val>)
    requires MergedSoFar(merged, state, update, reducers, {})
    ensures merged == Merge(state, update, reducers)
  {
  }

  lemma MergeOne(merged: State, state: State, update: State, reducers: map<string, (Val, Val) -> Val>,
                 todo: set<string>, k: string, value: Val)
    requires MergedSoFar(merged, state, update, reducers, todo) && k in todo
    requires value == if k in merged && k in reducers then reducers[k](merged[k], update[k]) else update[k]
    ensures MergedSoFar(merged[k := value], state, update, reducers, todo - {k})
  {
    assert k in merged <==> k in state;
    assert value == Cell(state, update, reducers, k);
  }

  method IndexEdges(edges: seq<Edge>) returns (index: map<string, seq<string>>)
    ensures forall node :: (if node in index then index[node] else []) == Targets(edges, node)
  {
    index := map[];
    for i := 0 to |edges|
      invariant forall node :: (if node in index then index[node] else []) == Targets(edges[..i], node)
    {
      var e := edges[i];
      assert edges[..i + 1][..i] == edges[..i];
      assert Targets(edges[..i], e.source) == if e.source in index then index[e.source] else [];
      index := index[e.source := (if e.source in index then index[e.source] else []) + [e.target]];
    }
    assert edges[..|edges|] == edges;
  }

  method FindConditionalTargets(g: Graph, node: string, state: State) returns (r: Result<seq<Item>, Failure>)
    ensures r == ConditionalTargets(g, g.conditional, node, state)
  {
    var targets: seq<Item> := [];
    var edges := g.conditional;
    PrefixedByNothing(ConditionalTargets(g, edges[0..], node, state));
    for i := 0 to |edges|
      invariant Prefixed(targets, ConditionalTargets(g, edges[i..], node, state))
             == ConditionalTargets(g, edges, node, state)
    {
      var edge := edges[i];
      assert edges[i..][1..] == edges[i + 1..];
      if edge.source == node {
        if edge.router !in g.routers {
          return Err(MissingRouter);
        }
        var items := Routed(g, edge.routes, g.routers[edge.router](state));
        if items.Err? {
          return items;
        }
        PrefixedTwice(targets, items.value, ConditionalTargets(g, edges[i + 1..], node, state));
        targets := targets + items.value;
      }
    }
    assert targets + [] == targets;
    return Ok(targets);
  }

  lemma PrefixedByNothing(r: Result<seq<Item>, Failure>)
    ensures Prefixed([], r) == r
  {
    if r.Ok? {
      assert [] + r.value == r.value;
    }
  }

  function Prefixed(items: seq<Item>, r: Result<seq<Item>, Failure>): Result<seq<Item>, Failure> {
    match r
    case Err(e) => Err(e)
    case Ok(rest) => Ok(items + rest)
  }

  lemma PrefixedTwice(a: seq<Item>, b: seq<Item>, r: Result<seq<Item>, Failure>)
    ensures Prefixed(a, Prefixed(b, r)) == Prefixed(a + b, r)
  {
    if r.Ok? {
      assert a + (b + r.value) == a + b + r.value;
    }
  }

  method FinishNode(g: Graph, c: RunContext, node: string, o: Normalized, kind: string) returns (stop: Option<Stop>)
    modifies c
    ensures match Finished(g, old(c.Contents()), node, o, kind)
            case Ok(d) => stop == None && c.Contents() == d
            case Err(e) => stop == Some(e)
  {
    if o.update.Some? {
      var merged := MergeState(c.state, o.update.value, g.reducers);
      c.state := merged;
    }
    var items: seq<Item> := [];
    if o.controlsFlow {
      items := Items(o.goto) + SentItems(o.sends);
    } else {
      var routed := FindConditionalTargets(g, node, c.state);
      if routed.Err? {
        return Some(Failed(routed.error));
      }
      items := Items(Targets(g.edges, node)) + routed.value;
    }
    c.pending := c.pending + items;
    c.Publish(kind, Some(node), c.step);
    return None;
  }

  method StartAndRunNode(g: Graph, act: Actions, c: RunContext, item: Item, key: Option<string>)
    returns (outcome: Result<Normalized, Stop>)
    modifies c
    ensures outcome == Ran(g, act, key, old(c.Contents()), item)
    ensures outcome.Ok? ==> c.Contents() == Started(old(c.Contents()), Target(item), key)
  {
    var node := Target(item);
    var ok := c.AdvanceStep(g.stepLimit);
    if !ok {
      return Err(Failed(StepLimit));
    }
    c.trace := c.trace + [node];
    c.RecordTrace(key);
    var actionState := c.state + BranchUpdate(item);
    c.Publish("node-start", Some(node), c.step);
    if node !in g.actions {
      return Err(Failed(UnknownAction));
    }
    var r := act(c.step, node, actionState);
    if r.None? {
      return Err(Failed(ActionRaised));
    }
    var o := Normalize(r.value);
    if o.interrupt.Some? {
      c.Publish("interrupt", Some(node), c.step);
      return Err(Interrupted(o.interrupt.value, node, c.Contents()));
    }
    return Ok(o);
  }

  method ExecuteNext(g: Graph, act: Actions, c: RunContext, key: Option<string>) returns (stop: Option<Stop>)
    requires |c.pending| > 0
    modifies c
    ensures match Stepped(g, act, key, old(c.Contents()))
            case Ok(d) => stop == None && c.Contents() == d
            case Err(e) => stop == Some(e)
  {
    var item := c.NextNode();
    if Target(item) == END {
      return None;
    }
    var outcome := StartAndRunNode(g, act, c, item, key);
    if outcome.Err? {
      return Some(outcome.error);
    }
    stop := FinishNode(g, c, Target(item), outcome.value, "node-end");
  }

  method RunContextToEnd(g: Graph, act: Actions, c: RunContext, key: Option<string>) returns (stop: Option<Stop>)
    modifies c
    ensures match RunFrom(g, act, key, old(c.Contents()))
            case Ok(d) => stop == None && c.Contents() == d
            case Err(e) => stop == Some(e)
  {
    c.Publish("start", None, 0);
    ghost var start := c.Contents();
    while |c.pending| > 0
      invariant Drained(g, act, key, c.Contents()) == Drained(g, act, key, start)
      decreases Room(g, c.Contents()), |c.pending|
    {
      stop := ExecuteNext(g, act, c, key);
      if stop.Some? {
        return;
      }
    }
    c.RecordTrace(key);
    c.Publish("complete", None, c.step);
    return None;
  }

  method Invoke(g: Graph, act: Actions, state: State, key: Option<string>) returns (c: RunContext, stop: Option<Stop>)
    ensures fresh(c)
    ensures match RunFrom(g, act, key, Initial(g, state))
            case Ok(d) => stop == None && c.Contents() == d
            case Err(e) => stop == Some(e)
  {
    c := new RunContext(Initial(g, state));
    stop := RunContextToEnd(g, act, c, key);
  }

  method ResumeInterrupted(g: Graph, act: Actions, interrupted: Stop, r: ActionResult, key: Option<string>)
    returns (c: RunContext, stop: Option<Stop>)
    requires interrupted.Interrupted?
    ensures fresh(c)
    ensures match Resumed(g, act, key, interrupted.node, interrupted.context, r)
            case Ok(d) => stop == None && c.Contents() == d
            case Err(e) => stop == Some(e)
  {
    c := new RunContext(interrupted.context);
    c.RecordTrace(key);
    stop := FinishNode(g, c, interrupted.node, Normalize(r), "resume");
    if stop.Some? {
      return;
    }
    stop := RunContextToEnd(g, act, c, key);
  }
}
