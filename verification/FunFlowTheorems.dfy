/** What a FunFlow run guarantees: when it succeeds, in which order and in which waves, and what each step saw. */
module FunFlowTheorems {
  import opened Basics
  import opened FunFlow

  // ---------- cycles ----------

  /** Step `a` needs step `b`. */
  ghost predicate Edge<V>(steps: seq<Step<V>>, a: string, b: string) {
    exists i :: 0 <= i < |steps| && steps[i].name == a && NeedsOneOf(steps[i], {b})
  }

  ghost predicate Path<V>(steps: seq<Step<V>>, p: seq<string>) {
    && (forall i :: 0 <= i < |p| ==> p[i] in Names(steps))
    && (forall i :: 0 < i < |p| ==> Edge(steps, p[i - 1], p[i]))
  }

  /** A path of needs that ends where it began. */
  ghost predicate Cycle<V>(steps: seq<Step<V>>, p: seq<string>) {
    Path(steps, p) && |p| > 1 && p[0] == p[|p| - 1]
  }

  ghost function Elements(p: seq<string>): set<string> {
    set i | 0 <= i < |p| :: p[i]
  }

  lemma CycleIsKnot<V>(steps: seq<Step<V>>, p: seq<string>)
    requires Unique(steps) && Cycle(steps, p)
    ensures Knot(steps, Elements(p))
  {
    var s := Elements(p);
    assert p[0] in s;
    forall i | 0 <= i < |steps| && steps[i].name in s ensures NeedsOneOf(steps[i], s) {
      var j :| 0 <= j < |p| && p[j] == steps[i].name;
      var k := if j + 1 < |p| then j else 0;
      assert Edge(steps, p[k], p[k + 1]);
      EdgeOf(steps, i, p[k + 1]);
      assert p[k + 1] in s;
      NeedsMore(steps[i], {p[k + 1]}, s);
    }
  }

  lemma EdgeOf<V>(steps: seq<Step<V>>, i: nat, b: string)
    requires Unique(steps) && i < |steps| && Edge(steps, steps[i].name, b)
    ensures NeedsOneOf(steps[i], {b})
  {
  }

  lemma NeedsMore<V>(s: Step<V>, a: set<string>, b: set<string>)
    requires a <= b && NeedsOneOf(s, a)
    ensures NeedsOneOf(s, b)
  {
    var k :| 0 <= k < |s.needs| && s.needs[k] in a;
    assert s.needs[k] in b;
  }

  /** Inside a knot one can walk along needs for ever. */
  lemma {:induction false} Walk<V>(steps: seq<Step<V>>, s: set<string>, n: nat) returns (p: seq<string>)
    requires Knot(steps, s)
    ensures |p| == n + 1 && Path(steps, p) && Elements(p) <= s
  {
    if n == 0 {
      var x :| x in s;
      p := [x];
    } else {
      var q := Walk(steps, s, n - 1);
      assert q[n - 1] in Elements(q);
      var b := NextStop(steps, s, q[n - 1]);
      WalkOn(steps, s, q, b);
      p := q + [b];
    }
  }

  lemma WalkOn<V>(steps: seq<Step<V>>, s: set<string>, q: seq<string>, b: string)
    requires |q| > 0 && Path(steps, q) && Elements(q) <= s <= Names(steps) && b in s && Edge(steps, q[|q| - 1], b)
    ensures Path(steps, q + [b]) && Elements(q + [b]) <= s
  {
    var p := q + [b];
    forall i | 0 < i < |p| ensures Edge(steps, p[i - 1], p[i]) {
      assert i < |q| ==> Edge(steps, q[i - 1], q[i]);
    }
    forall i | 0 <= i < |p| ensures p[i] in s {
      assert i < |q| ==> q[i] in Elements(q);
    }
  }

  lemma NextStop<V>(steps: seq<Step<V>>, s: set<string>, a: string) returns (b: string)
    requires Knot(steps, s) && a in s
    ensures b in s && Edge(steps, a, b)
  {
    var i :| 0 <= i < |steps| && steps[i].name == a;
    var k :| 0 <= k < |steps[i].needs| && steps[i].needs[k] in s;
    b := steps[i].needs[k];
    assert NeedsOneOf(steps[i], {b});
  }

  lemma {:induction false} Pigeonhole(p: seq<string>, s: set<string>) returns (i: nat, j: nat)
    requires Elements(p) <= s && |p| > |s|
    ensures i < j < |p| && p[i] == p[j]
  {
    if |p| == 0 {
      assert false;
    }
    var n := |p| - 1;
    assert p[n] in Elements(p);
    if k :| 0 <= k < n && p[k] == p[n] {
      return k, n;
    }
    forall x | x in Elements(p[..n]) ensures x in s - {p[n]} {
      var k :| 0 <= k < n && p[..n][k] == x;
      assert p[k] in Elements(p);
    }
    i, j := Pigeonhole(p[..n], s - {p[n]});
  }

  lemma KnotHasCycle<V>(steps: seq<Step<V>>, s: set<string>) returns (p: seq<string>)
    requires Knot(steps, s)
    ensures Cycle(steps, p)
  {
    var q := Walk(steps, s, |s|);
    var i, j := Pigeonhole(q, s);
    SubPath(steps, q, i, j);
    p := q[i..j + 1];
  }

  lemma SubPath<V>(steps: seq<Step<V>>, q: seq<string>, i: nat, j: nat)
    requires Path(steps, q) && i < j < |q|
    ensures Path(steps, q[i..j + 1])
  {
    var p := q[i..j + 1];
    forall k | 0 < k < |p| ensures Edge(steps, p[k - 1], p[k]) {
      assert Edge(steps, q[i + k - 1], q[i + k]);
    }
  }

  // ---------- success ----------

  lemma {:induction false} InsertKeepsUnique<V>(pending: seq<Step<V>>, s: Step<V>)
    requires Unique(pending)
    ensures Unique(Insert(pending, s)) && Names(Insert(pending, s)) == Names(pending) + {s.name}
    ensures forall t :: t in Insert(pending, s) ==> t == s || t in pending
  {
    if |pending| > 0 && pending[0].name != s.name {
      InsertKeepsUnique(pending[1..], s);
      var rest := Insert(pending[1..], s);
      forall j | 0 <= j < |rest| ensures rest[j].name != pending[0].name {
        assert rest[j] in rest;
      }
      NamesCons(pending[0], rest);
      NamesCons(pending[0], pending[1..]);
      assert [pending[0]] + pending[1..] == pending;
    } else {
      NamesCons(s, if |pending| == 0 then [] else pending[1..]);
      if |pending| > 0 {
        NamesCons(pending[0], pending[1..]);
        assert [pending[0]] + pending[1..] == pending;
      } else {
        assert [s] + [] == [s];
      }
    }
  }

  lemma NamesCons<V>(s: Step<V>, rest: seq<Step<V>>)
    ensures Names([s] + rest) == {s.name} + Names(rest)
  {
    forall x | x in {s.name} + Names(rest) ensures x in Names([s] + rest) {
      if x == s.name {
        assert ([s] + rest)[0].name == x;
      } else {
        var i :| 0 <= i < |rest| && rest[i].name == x;
        assert ([s] + rest)[i + 1].name == x;
      }
    }
  }

  /** The dictionary of a plan has each of its names once. */
  lemma {:induction false} ByNameIsUnique<V>(steps: seq<Step<V>>)
    ensures Unique(ByName(steps)) && Names(ByName(steps)) == Names(steps)
    ensures forall t :: t in ByName(steps) ==> t in steps
  {
    if |steps| > 0 {
      var n := |steps| - 1;
      ByNameIsUnique(steps[..n]);
      InsertKeepsUnique(ByName(steps[..n]), steps[n]);
      assert steps[..n + 1] == steps;
      NamesGrow(steps, n);
      forall t | t in ByName(steps) ensures t in steps {
        assert t == steps[n] || t in steps[..n];
      }
    }
  }

  ghost predicate Cyclic<V>(steps: seq<Step<V>>) {
    exists p :: Cycle(steps, p)
  }

  lemma ClosedIsResolvable<V>(pending: seq<Step<V>>)
    requires Unique(pending) && Closed(pending)
    ensures Resolvable(pending, {})
  {
    assert {} + Names(pending) == Names(pending);
    forall i | 0 <= i < |pending| ensures IsReady(pending[i], {} + Names(pending)) {
    }
  }

  /** A closed plan can be scheduled exactly if no path of needs leads back to its start. */
  lemma ScheduleExistsIff<V>(pending: seq<Step<V>>)
    requires Unique(pending) && Closed(pending)
    ensures Schedule(pending, {}).Some? <==> !Cyclic(pending)
  {
    ClosedIsResolvable(pending);
    if Cyclic(pending) {
      var p :| Cycle(pending, p);
      CycleIsKnot(pending, p);
      KnotBlocks(pending, {}, Elements(p));
    }
    if Schedule(pending, {}).None? {
      var s := StuckMeansKnot(pending, {});
      var p := KnotHasCycle(pending, s);
    }
  }

  lemma SameEmptiness<V>(steps: seq<Step<V>>)
    ensures |ByName(steps)| > 0 <==> |steps| > 0
  {
    ByNameIsUnique(steps);
    if |steps| > 0 {
      assert steps[0].name in Names(steps);
    }
  }

  lemma ByNameSucceeds<V(!new)>(steps: seq<Step<V>>)
    requires AlwaysSucceeds(steps)
    ensures AlwaysSucceeds(ByName(steps))
  {
    ByNameIsUnique(steps);
    forall i, state | 0 <= i < |ByName(steps)| ensures ByName(steps)[i].action(state).Some? {
      assert ByName(steps)[i] in ByName(steps);
    }
  }

  /** A plan of actions that succeed runs to the end exactly if it has steps, no need is missing, and no path of needs
      leads back to its start. */
  lemma RunSucceedsIff<V(!new)>(steps: seq<Step<V>>, state: State<V>)
    requires AlwaysSucceeds(steps)
    ensures Outcome(steps, state).Ok? <==> |steps| > 0 && Closed(ByName(steps)) && !Cyclic(ByName(steps))
  {
    SameEmptiness(steps);
    if |steps| > 0 && Closed(ByName(steps)) {
      ByNameIsUnique(steps);
      ByNameSucceeds(steps);
      ScheduleExistsIff(ByName(steps));
      ExecuteFollowsSchedule(ByName(steps), {}, Receipt([], state, 0));
    }
  }

  // ---------- order ----------

  /** Every need of a step is complete, or runs before it. */
  ghost predicate Topological<V>(order: seq<Step<V>>, done: set<string>) {
    forall i :: 0 <= i < |order| ==> IsReady(order[i], done + Names(order[..i]))
  }

  lemma NamesJoin<V>(a: seq<Step<V>>, b: seq<Step<V>>)
    ensures Names(a + b) == Names(a) + Names(b)
  {
    forall x | x in Names(a) + Names(b) ensures x in Names(a + b) {
      if x in Names(a) {
        var i :| 0 <= i < |a| && a[i].name == x;
        assert (a + b)[i].name == x;
      } else {
        var i :| 0 <= i < |b| && b[i].name == x;
        assert (a + b)[|a| + i].name == x;
      }
    }
  }

  lemma TopologicalJoin<V>(ready: seq<Step<V>>, rest: seq<Step<V>>, done: set<string>)
    requires forall i :: 0 <= i < |ready| ==> IsReady(ready[i], done)
    requires Topological(rest, done + Names(ready))
    ensures Topological(ready + rest, done)
  {
    var all := ready + rest;
    forall i | 0 <= i < |all| ensures IsReady(all[i], done + Names(all[..i])) {
      if i >= |ready| {
        var j := i - |ready|;
        assert all[..i] == ready + rest[..j];
        NamesJoin(ready, rest[..j]);
        assert done + Names(ready) + Names(rest[..j]) == done + Names(all[..i]);
        assert IsReady(rest[j], done + Names(ready) + Names(rest[..j]));
      }
    }
  }

  /** The trace is a permutation of the steps in which each comes after all it needs. */
  lemma {:induction false} ScheduleIsTopological<V>(pending: seq<Step<V>>, done: set<string>)
    requires Resolvable(pending, done) && Schedule(pending, done).Some?
    ensures var order := Flat(Schedule(pending, done).value);
            && Topological(order, done) && Unique(order)
            && forall s :: s in order <==> s in pending
    decreases |pending|
  {
    var ready := Ready(pending, done);
    if |ready| > 0 {
      var names := Names(ready);
      var rest := Minus(pending, names);
      ReadyAre(pending, done);
      ReadyShrinks(pending, done);
      MinusAre(pending, names);
      StaysResolvable(pending, done);
      ScheduleIsTopological(rest, done + names);
      var later := Flat(Schedule(rest, done + names).value);
      assert ([ready] + Schedule(rest, done + names).value)[1..] == Schedule(rest, done + names).value;
      TopologicalJoin(ready, later, done);
      UniqueJoin(ready, later);
      forall s | s in pending ensures s in ready + later {
        if s.name in names {
          var i :| 0 <= i < |ready| && ready[i].name == s.name;
          SameStep(pending, s, ready[i]);
        } else {
          assert s in rest;
        }
      }
      forall s | s in ready + later ensures s in pending {
        if s in later {
          assert s in rest;
        }
      }
    }
  }

  lemma UniqueJoin<V>(a: seq<Step<V>>, b: seq<Step<V>>)
    requires Unique(a) && Unique(b) && forall s :: s in b ==> s.name !in Names(a)
    ensures Unique(a + b)
  {
    forall i, j | 0 <= i < j < |a + b| ensures (a + b)[i].name != (a + b)[j].name {
      if i < |a| <= j {
        assert b[j - |a|] in b;
        assert a[i].name in Names(a);
      }
    }
  }

  // ---------- waves ----------

  /** A chain of steps of the plan, each needed by the next. */
  ghost predicate Chain<V>(pending: seq<Step<V>>, c: seq<Step<V>>) {
    && |c| > 0
    && (forall i :: 0 <= i < |c| ==> c[i] in pending)
    && (forall i :: 0 < i < |c| ==> NeedsOneOf(c[i], {c[i - 1].name}))
  }

  /** Only the first step of a chain can be ready. */
  lemma ChainRemains<V>(pending: seq<Step<V>>, done: set<string>, c: seq<Step<V>>)
    requires Resolvable(pending, done) && Chain(pending, c) && |c| > 1
    ensures Chain(Minus(pending, Names(Ready(pending, done))), c[1..])
  {
    var ready := Ready(pending, done);
    var names := Names(ready);
    ReadyAre(pending, done);
    MinusAre(pending, names);
    var d := c[1..];
    forall i | 0 <= i < |d| ensures d[i] in Minus(pending, names) {
      assert NeedsOneOf(c[i + 1], {c[i].name}) && c[i] in pending && c[i + 1] in pending;
      NotReadyYet(pending, done, c[i], c[i + 1]);
    }
    forall i | 0 < i < |d| ensures NeedsOneOf(d[i], {d[i - 1].name}) {
      assert NeedsOneOf(c[i + 1], {c[i].name});
    }
  }

  lemma NotReadyYet<V>(pending: seq<Step<V>>, done: set<string>, a: Step<V>, b: Step<V>)
    requires Resolvable(pending, done) && a in pending && b in pending && NeedsOneOf(b, {a.name})
    ensures b.name !in Names(Ready(pending, done))
  {
    var ready := Ready(pending, done);
    ReadyAre(pending, done);
    forall i | 0 <= i < |ready| ensures ready[i].name != b.name {
      ReadyNeedsNone(ready[i], done, {a.name});
      assert ready[i] in pending;
      assert ready[i] != b;
    }
  }

  /** A step that runs in wave k ends no chain of more than k + 1 steps. */
  lemma {:induction false} NoLongerChain<V>(pending: seq<Step<V>>, done: set<string>, k: nat, c: seq<Step<V>>)
    requires Resolvable(pending, done) && Schedule(pending, done).Some? && Chain(pending, c)
    requires k < |Schedule(pending, done).value| && c[|c| - 1] in Schedule(pending, done).value[k]
    ensures |c| <= k + 1
    decreases k
  {
    if |c| > 1 {
      ReadyEndsNoLongChain(pending, done, c);
      LaterWave(pending, done, k, c[|c| - 1]);
      StaysResolvable(pending, done);
      ChainRemains(pending, done, c);
      LastOfRest(c);
      NoLongerChain(Minus(pending, Names(Ready(pending, done))), done + Names(Ready(pending, done)), k - 1, c[1..]);
    }
  }

  lemma LastOfRest<T>(c: seq<T>)
    requires |c| > 1
    ensures |c[1..]| == |c| - 1 && c[1..][|c[1..]| - 1] == c[|c| - 1]
  {
  }

  /** A step that is not ready runs in a wave of what remains after the first one. */
  lemma LaterWave<V>(pending: seq<Step<V>>, done: set<string>, k: nat, s: Step<V>)
    requires Schedule(pending, done).Some? && k < |Schedule(pending, done).value|
    requires s in Schedule(pending, done).value[k]
    requires s !in Ready(pending, done)
    ensures var ready := Ready(pending, done);
            var later := Schedule(Minus(pending, Names(ready)), done + Names(ready));
            && k > 0 && later.Some? && k - 1 < |later.value| && s in later.value[k - 1]
  {
    ReadyShrinks(pending, done);
  }

  lemma ReadyEndsNoLongChain<V>(pending: seq<Step<V>>, done: set<string>, c: seq<Step<V>>)
    requires Resolvable(pending, done) && Chain(pending, c) && |c| > 1
    ensures c[|c| - 1] !in Ready(pending, done)
  {
    var last := c[|c| - 1];
    NotReadyYet(pending, done, c[|c| - 2], last);
    if last in Ready(pending, done) {
      InNames(Ready(pending, done), last);
    }
  }

  lemma InNames<V>(steps: seq<Step<V>>, s: Step<V>)
    requires s in steps
    ensures s.name in Names(steps)
  {
  }

  /** And it ends a chain of exactly k + 1 steps, which starts in the first wave. */
  lemma {:induction false} LongestChain<V>(pending: seq<Step<V>>, done: set<string>, k: nat, s: Step<V>)
    returns (c: seq<Step<V>>)
    requires Resolvable(pending, done) && Schedule(pending, done).Some?
    requires k < |Schedule(pending, done).value| && s in Schedule(pending, done).value[k]
    ensures Chain(pending, c) && |c| == k + 1 && c[k] == s && c[0] in Ready(pending, done)
    decreases k
  {
    var ready := Ready(pending, done);
    if k == 0 {
      ReadyAre(pending, done);
      c := [s];
    } else {
      ReadyShrinks(pending, done);
      StaysResolvable(pending, done);
      var d := LongestChain(Minus(pending, Names(ready)), done + Names(ready), k - 1, s);
      c := ExtendChain(pending, done, d);
    }
  }

  /** A chain that starts in the second wave continues back into the first. */
  lemma ExtendChain<V>(pending: seq<Step<V>>, done: set<string>, d: seq<Step<V>>) returns (c: seq<Step<V>>)
    requires Resolvable(pending, done) && Chain(Minus(pending, Names(Ready(pending, done))), d)
    requires d[0] in Ready(Minus(pending, Names(Ready(pending, done))), done + Names(Ready(pending, done)))
    ensures Chain(pending, c) && |c| == |d| + 1 && c[|d|] == d[|d| - 1] && c[0] in Ready(pending, done)
  {
    var names := Names(Ready(pending, done));
    ReadyAre(pending, done);
    MinusAre(pending, names);
    var r := Predecessor(pending, done, d[0]);
    ChainCons(pending, Minus(pending, names), r, d);
    c := [r] + d;
  }

  lemma ChainCons<V>(pending: seq<Step<V>>, rest: seq<Step<V>>, r: Step<V>, d: seq<Step<V>>)
    requires r in pending && Chain(rest, d) && NeedsOneOf(d[0], {r.name}) && forall s :: s in rest ==> s in pending
    ensures Chain(pending, [r] + d)
  {
    var c := [r] + d;
    forall i | 0 < i < |c| ensures NeedsOneOf(c[i], {c[i - 1].name}) {
      assert i > 1 ==> NeedsOneOf(d[i - 1], {d[i - 2].name});
    }
  }

  /** A step that becomes ready in the second wave needs a step of the first. */
  lemma Predecessor<V>(pending: seq<Step<V>>, done: set<string>, s: Step<V>) returns (r: Step<V>)
    requires Resolvable(pending, done)
    requires s in Ready(Minus(pending, Names(Ready(pending, done))), done + Names(Ready(pending, done)))
    ensures r in Ready(pending, done) && NeedsOneOf(s, {r.name})
  {
    var ready := Ready(pending, done);
    SecondWave(pending, done, s);
    UnreadyNeeds(s, done, Names(ready));
    var k :| 0 <= k < |s.needs| && s.needs[k] in Names(ready);
    var i :| 0 <= i < |ready| && ready[i].name == s.needs[k];
    r := ready[i];
  }

  lemma SecondWave<V>(pending: seq<Step<V>>, done: set<string>, s: Step<V>)
    requires s in Ready(Minus(pending, Names(Ready(pending, done))), done + Names(Ready(pending, done)))
    ensures IsReady(s, done + Names(Ready(pending, done))) && !IsReady(s, done)
  {
    var ready := Ready(pending, done);
    var rest := Minus(pending, Names(ready));
    ReadyAre(rest, done + Names(ready));
    MinusAre(pending, Names(ready));
    assert s in rest;
    ReadyAre(pending, done);
    if s in ready {
      InNames(ready, s);
    }
  }

  // ---------- what each step sees ----------

  ghost function CallsOf<V>(waves: seq<seq<Step<V>>>, state: State<V>): seq<Call<V>>
    decreases |waves|
  {
    if |waves| == 0 then [] else WaveCalls(waves[0], state) + CallsOf(waves[1..], AfterWave(state, waves[0]))
  }

  lemma {:induction false} CallsFollowSchedule<V(!new)>(pending: seq<Step<V>>, done: set<string>, state: State<V>)
    requires AlwaysSucceeds(pending) && Schedule(pending, done).Some?
    ensures CallsFrom(pending, done, state) == CallsOf(Schedule(pending, done).value, state)
    decreases |pending|
  {
    if |pending| > 0 {
      var ready := Ready(pending, done);
      ReadyAre(pending, done);
      ReadyShrinks(pending, done);
      MinusAre(pending, Names(ready));
      WavesSucceed(ready, state);
      var rest := Minus(pending, Names(ready));
      CallsFollowSchedule(rest, done + Names(ready), AfterWave(state, ready));
      assert Schedule(pending, done).value[1..] == Schedule(rest, done + Names(ready)).value;
    }
  }

  /** The k-th wave's steps see the state after the waves before it, and nothing of their own wave. */
  lemma {:induction false} CallsSeeEarlierWaves<V>(waves: seq<seq<Step<V>>>, state: State<V>, k: nat, i: nat)
    requires k < |waves| && i < |waves[k]|
    ensures |Flat(waves[..k])| + i < |CallsOf(waves, state)|
    ensures CallsOf(waves, state)[|Flat(waves[..k])| + i] == Call(waves[k][i].name, After(state, waves[..k]))
    ensures |Flat(waves[..k])| + i < |Flat(waves)| && Flat(waves)[|Flat(waves[..k])| + i] == waves[k][i]
    decreases k
  {
    if k == 0 {
      assert waves[..0] == [];
    } else {
      CallsSeeEarlierWaves(waves[1..], AfterWave(state, waves[0]), k - 1, i);
      assert waves[1..][k - 1] == waves[k];
      assert waves[..k][0] == waves[0] && waves[..k][1..] == waves[1..][..k - 1];
    }
  }
}
