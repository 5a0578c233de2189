/** How a plan is read and taken apart: what its dictionary of steps keeps, in which order steps wait and run, and why
    a run fails. */
module FunFlowPlans {
  import opened Basics
  import opened FunFlow
  import opened FunFlowTheorems
  import opened FunFlowStates

  // ---------- the dictionary ----------

  /** Step `i` is the first of its name. */
  ghost predicate FirstOf<V>(steps: seq<Step<V>>, name: string, i: int) {
    0 <= i < |steps| && steps[i].name == name && forall j :: 0 <= j < i ==> steps[j].name != name
  }

  /** It is the last of its name. */
  ghost predicate LastOf<V>(steps: seq<Step<V>>, s: Step<V>, i: int) {
    0 <= i < |steps| && steps[i] == s && forall j :: i < j < |steps| ==> steps[j].name != s.name
  }

  ghost predicate IsLast<V>(steps: seq<Step<V>>, s: Step<V>) {
    exists i :: LastOf(steps, s, i)
  }

  /** A step with a new name goes to the end; one with a known name takes its place. */
  lemma {:induction false} InsertIs<V>(pending: seq<Step<V>>, s: Step<V>)
    requires Unique(pending)
    ensures s.name !in Names(pending) ==> Insert(pending, s) == pending + [s]
    ensures forall i :: 0 <= i < |pending| && pending[i].name == s.name ==> Insert(pending, s) == pending[i := s]
  {
    if |pending| > 0 && pending[0].name != s.name {
      InsertIs(pending[1..], s);
      NamesCons(pending[0], pending[1..]);
      assert [pending[0]] + pending[1..] == pending;
      forall i | 0 <= i < |pending| && pending[i].name == s.name ensures Insert(pending, s) == pending[i := s] {
        assert pending[1..][i - 1].name == s.name;
        assert [pending[0]] + pending[1..][i - 1 := s] == pending[i := s];
      }
    } else if |pending| > 0 {
      assert pending[0].name in Names(pending);
    }
  }

  /** What the dictionary keeps of a name is its last definition. */
  lemma {:induction false} ByNameKeepsLast<V>(steps: seq<Step<V>>)
    ensures forall s :: s in ByName(steps) ==> IsLast(steps, s)
  {
    if |steps| > 0 {
      var n := |steps| - 1;
      var before, last := ByName(steps[..n]), steps[n];
      ByNameKeepsLast(steps[..n]);
      ByNameIsUnique(steps[..n]);
      InsertIs(before, last);
      forall s | s in ByName(steps) ensures IsLast(steps, s) {
        InsertedIs(before, last, s);
        if s == last {
          assert LastOf(steps, s, n);
        } else {
          var i :| LastOf(steps[..n], s, i);
          assert LastOf(steps, s, i);
        }
      }
    }
  }

  lemma InsertedIs<V>(pending: seq<Step<V>>, last: Step<V>, s: Step<V>)
    requires Unique(pending) && s in Insert(pending, last)
    ensures s == last || (s in pending && s.name != last.name)
  {
    InsertIs(pending, last);
    if last.name in Names(pending) {
      var i :| 0 <= i < |pending| && pending[i].name == last.name;
      var k :| 0 <= k < |pending| && pending[i := last][k] == s;
      if k != i {
        assert pending[k].name != pending[i].name;
      }
    }
  }

  /** The names are kept in the order in which they come first. */
  ghost predicate InFirstOrder<V>(steps: seq<Step<V>>, kept: seq<Step<V>>) {
    forall a, b, i, j :: 0 <= a < b < |kept| && FirstOf(steps, kept[a].name, i) && FirstOf(steps, kept[b].name, j) ==>
      i < j
  }

  lemma {:induction false} ByNameKeepsOrder<V>(steps: seq<Step<V>>)
    ensures InFirstOrder(steps, ByName(steps))
  {
    if |steps| > 0 {
      var n := |steps| - 1;
      var before := ByName(steps[..n]);
      ByNameKeepsOrder(steps[..n]);
      ByNameIsUnique(steps[..n]);
      InsertIs(before, steps[n]);
      forall a, b, i, j | 0 <= a < b < |ByName(steps)| && FirstOf(steps, ByName(steps)[a].name, i)
                          && FirstOf(steps, ByName(steps)[b].name, j)
        ensures i < j
      {
        if steps[n].name in Names(before) {
          var k :| 0 <= k < |before| && before[k].name == steps[n].name;
          assert ByName(steps) == before[k := steps[n]];
          assert ByName(steps)[a].name == before[a].name && ByName(steps)[b].name == before[b].name;
        } else {
          assert ByName(steps) == before + [steps[n]];
        }
        EarlierFirst(steps, ByName(steps)[a].name, i);
        EarlierFirst(steps, ByName(steps)[b].name, j);
        KeptNames(steps, ByName(steps)[a].name, a);
        KeptNames(steps, ByName(steps)[b].name, b);
      }
    }
  }

  /** A name that occurs before the last step comes first there. */
  lemma EarlierFirst<V>(steps: seq<Step<V>>, name: string, i: int)
    requires |steps| > 0 && FirstOf(steps, name, i)
    ensures i < |steps| - 1 ==> FirstOf(steps[..|steps| - 1], name, i)
    ensures i == |steps| - 1 <==> name !in Names(steps[..|steps| - 1])
  {
    if i < |steps| - 1 {
      assert steps[..|steps| - 1][i].name == name;
    }
  }

  lemma KeptNames<V>(steps: seq<Step<V>>, name: string, a: int)
    requires |steps| > 0 && 0 <= a < |ByName(steps)| && ByName(steps)[a].name == name
    ensures a < |ByName(steps[..|steps| - 1])| <==> name in Names(steps[..|steps| - 1])
  {
    var n := |steps| - 1;
    var before := ByName(steps[..n]);
    ByNameIsUnique(steps[..n]);
    InsertIs(before, steps[n]);
    if steps[n].name in Names(before) {
      var k :| 0 <= k < |before| && before[k].name == steps[n].name;
      assert ByName(steps) == before[k := steps[n]];
      assert before[a].name == name;
    } else {
      assert ByName(steps) == before + [steps[n]];
      if a < |before| {
        assert before[a].name == name;
      }
    }
  }

  // ---------- waves ----------

  /** `part` takes the steps at the positions `at` out of `whole`, in order. */
  ghost predicate TakesOut<V>(part: seq<Step<V>>, whole: seq<Step<V>>, at: seq<nat>) {
    && |at| == |part| && (forall i :: 0 <= i < |at| ==> at[i] < |whole| && whole[at[i]] == part[i])
    && forall i, j :: 0 <= i < j < |at| ==> at[i] < at[j]
  }

  lemma TakesOutCons<V>(part: seq<Step<V>>, whole: seq<Step<V>>, at: seq<nat>, s: Step<V>)
    requires TakesOut(part, whole, at)
    ensures TakesOut(part, [s] + whole, Shifted(at)) && TakesOut([s] + part, [s] + whole, [0] + Shifted(at))
  {
  }

  function Shifted(at: seq<nat>): (s: seq<nat>)
    ensures |s| == |at| && forall i :: 0 <= i < |at| ==> s[i] == at[i] + 1
  {
    seq(|at|, i requires 0 <= i < |at| => at[i] + 1)
  }

  /** A wave takes the steps that are ready in the order in which they wait. */
  lemma {:induction false} ReadyInOrder<V>(pending: seq<Step<V>>, done: set<string>) returns (at: seq<nat>)
    ensures TakesOut(Ready(pending, done), pending, at)
    ensures forall k: nat :: k < |pending| && IsReady(pending[k], done) ==> k in at
  {
    at := [];
    if |pending| > 0 {
      var rest := ReadyInOrder(pending[1..], done);
      TakesOutCons(Ready(pending[1..], done), pending[1..], rest, pending[0]);
      assert [pending[0]] + pending[1..] == pending && [] + Ready(pending[1..], done) == Ready(pending[1..], done);
      at := if IsReady(pending[0], done) then [0] + Shifted(rest) else Shifted(rest);
      forall k: nat | k < |pending| && IsReady(pending[k], done) ensures k in at {
        if k > 0 {
          assert pending[1..][k - 1] == pending[k];
          ShiftedHas(rest, k - 1);
        }
      }
    }
  }

  lemma ShiftedHas(at: seq<nat>, k: nat)
    requires k in at
    ensures k + 1 in Shifted(at)
  {
    var i :| 0 <= i < |at| && at[i] == k;
    assert Shifted(at)[i] == k + 1;
  }

  /** The others go on waiting in the order they have. */
  lemma {:induction false} MinusInOrder<V>(pending: seq<Step<V>>, names: set<string>) returns (at: seq<nat>)
    ensures TakesOut(Minus(pending, names), pending, at)
    ensures forall k: nat :: k < |pending| && pending[k].name !in names ==> k in at
  {
    at := [];
    if |pending| > 0 {
      var rest := MinusInOrder(pending[1..], names);
      TakesOutCons(Minus(pending[1..], names), pending[1..], rest, pending[0]);
      assert [pending[0]] + pending[1..] == pending && [] + Minus(pending[1..], names) == Minus(pending[1..], names);
      at := if pending[0].name in names then Shifted(rest) else [0] + Shifted(rest);
      forall k: nat | k < |pending| && pending[k].name !in names ensures k in at {
        if k > 0 {
          assert pending[1..][k - 1] == pending[k];
          ShiftedHas(rest, k - 1);
        }
      }
    }
  }

  /** The width that is reported is that of the widest wave. */
  lemma {:induction false} WidestIs<V>(waves: seq<seq<Step<V>>>, width: nat)
    ensures width <= Widest(waves, width) && forall k :: 0 <= k < |waves| ==> |waves[k]| <= Widest(waves, width)
    ensures Widest(waves, width) == width || exists k :: 0 <= k < |waves| && |waves[k]| == Widest(waves, width)
  {
    if |waves| > 0 {
      WidestIs(waves[1..], Max(width, |waves[0]|));
      forall k | 0 <= k < |waves| ensures |waves[k]| <= Widest(waves, width) {
        assert k > 0 ==> waves[k] == waves[1..][k - 1];
      }
    }
  }

  lemma RunReportsWidest<V>(steps: seq<Step<V>>, state: State<V>) returns (waves: seq<seq<Step<V>>>)
    requires Outcome(steps, state).Ok?
    ensures Schedule(ByName(steps), {}) == Some(waves) && |waves| > 0
    ensures forall k :: 0 <= k < |waves| ==> 0 < |waves[k]| <= Outcome(steps, state).value.maxWaveWidth
    ensures exists k :: 0 <= k < |waves| && |waves[k]| == Outcome(steps, state).value.maxWaveWidth
  {
    SuccessFollowsSchedule(ByName(steps), {}, Receipt([], state, 0));
    waves := Schedule(ByName(steps), {}).value;
    WidestIs(waves, 0);
    WavesHaveSteps(ByName(steps), {});
  }

  lemma {:induction false} WavesHaveSteps<V>(pending: seq<Step<V>>, done: set<string>)
    requires Schedule(pending, done).Some?
    ensures |Schedule(pending, done).value| > 0 <==> |pending| > 0
    ensures forall k :: 0 <= k < |Schedule(pending, done).value| ==> |Schedule(pending, done).value[k]| > 0
    decreases |pending|
  {
    if |pending| > 0 {
      var ready := Ready(pending, done);
      ReadyShrinks(pending, done);
      WavesHaveSteps(Minus(pending, Names(ready)), done + Names(ready));
    }
  }

  // ---------- why a run fails ----------

  /** Some step of the plan answers nothing to some state. */
  ghost predicate CanFail<V(!new)>(steps: seq<Step<V>>) {
    exists s, state :: s in steps && s.action(state) == None
  }

  lemma {:induction false} WaveFails<V(!new)>(wave: seq<Step<V>>, seen: State<V>)
    requires Patches(wave, seen).None?
    ensures exists s :: s in wave && s.action(seen) == None
  {
    if |wave| > 0 {
      var n := |wave| - 1;
      if Patches(wave[..n], seen).None? {
        WaveFails(wave[..n], seen);
      } else {
        assert wave[n] in wave && wave[n].action(seen) == None;
      }
    }
  }

  lemma {:induction false} ExecuteFailsFor<V(!new)>(pending: seq<Step<V>>, done: set<string>, r: Receipt<V>)
    ensures Execute(pending, done, r).Err? ==>
              Execute(pending, done, r).error in {UnresolvedDependencies, StepFailed}
    ensures Execute(pending, done, r) == Err(UnresolvedDependencies) ==> Schedule(pending, done).None?
    ensures Execute(pending, done, r) == Err(StepFailed) ==> CanFail(pending)
    decreases |pending|
  {
    var ready := Ready(pending, done);
    if |pending| > 0 && |ready| > 0 {
      ReadyAre(pending, done);
      if Patches(ready, r.state).None? {
        WaveFails(ready, r.state);
        var s :| s in ready && s.action(r.state) == None;
        assert s in pending;
      } else {
        ReadyShrinks(pending, done);
        MinusAre(pending, Names(ready));
        ExecuteFailsFor(Minus(pending, Names(ready)), done + Names(ready),
                        Advance(r, ready, Patches(ready, r.state).value));
      }
    }
  }

  /** A run fails for a plan without steps, for a need that no step has, for a cycle of needs, or because an action
      fails; each is reported as itself. */
  lemma OutcomeFailsFor<V(!new)>(steps: seq<Step<V>>, state: State<V>)
    ensures Outcome(steps, state) == Err(NoSteps) <==> steps == []
    ensures Outcome(steps, state) == Err(MissingDependency) <==> steps != [] && !Closed(ByName(steps))
    ensures Outcome(steps, state) == Err(UnresolvedDependencies) ==> Cyclic(ByName(steps))
    ensures Outcome(steps, state) == Err(StepFailed) ==> CanFail(steps)
  {
    SameEmptiness(steps);
    ExecuteFailsFor(ByName(steps), {}, Receipt([], state, 0));
    ByNameIsUnique(steps);
    if Closed(ByName(steps)) {
      ScheduleExistsIff(ByName(steps));
    }
    if CanFail(ByName(steps)) {
      var s, seen :| s in ByName(steps) && s.action(seen) == None;
      assert s in steps;
    }
  }
}
