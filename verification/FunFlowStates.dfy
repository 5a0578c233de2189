/** What becomes of the patches of a FunFlow run: the final state and what every step sees, key by key. */
module FunFlowStates {
  import opened Basics
  import opened FunFlow
  import opened FunFlowTheorems

  /** Patch `i` is the last one that has the key. */
  ghost predicate Supplies<V>(patches: seq<State<V>>, i: nat, key: string) {
    i < |patches| && key in patches[i] && forall j :: i < j < |patches| ==> key !in patches[j]
  }

  ghost predicate InSome<V>(patches: seq<State<V>>, key: string) {
    exists i :: 0 <= i < |patches| && key in patches[i]
  }

  /** Every key has the value of the last patch that has it, or else its initial value, and no other key exists. */
  ghost predicate Latest<V>(base: State<V>, patches: seq<State<V>>, state: State<V>) {
    && (forall key :: key in state <==> key in base || InSome(patches, key))
    && (forall i: nat, key :: Supplies(patches, i, key) ==> key in state && state[key] == patches[i][key])
    && (forall key :: key in base && !InSome(patches, key) ==> key in state && state[key] == base[key])
  }

  lemma OnePatch<V>(base: State<V>, patches: seq<State<V>>, state: State<V>, patch: State<V>)
    requires Latest(base, patches, state)
    ensures Latest(base, patches + [patch], state + patch)
  {
    var more := patches + [patch];
    forall key ensures InSome(more, key) <==> InSome(patches, key) || key in patch {
      if InSome(patches, key) {
        var i :| 0 <= i < |patches| && key in patches[i];
        assert key in more[i];
      }
      assert more[|patches|] == patch;
    }
    forall i: nat, key | Supplies(more, i, key) ensures key in state + patch && (state + patch)[key] == more[i][key] {
      if i < |patches| {
        assert key !in more[|patches|];
        forall j | i < j < |patches| ensures key !in patches[j] {
          assert key !in more[j];
        }
        assert Supplies(patches, i, key);
      }
    }
  }

  lemma {:induction false} OverlayIsLatest<V>(base: State<V>, before: seq<State<V>>, state: State<V>,
                                              patches: seq<State<V>>)
    requires Latest(base, before, state)
    ensures Latest(base, before + patches, Overlay(state, patches))
  {
    if |patches| == 0 {
      assert before + patches == before;
    } else {
      var n := |patches| - 1;
      OverlayIsLatest(base, before, state, patches[..n]);
      OnePatch(base, before + patches[..n], Overlay(state, patches[..n]), patches[n]);
      assert (before + patches[..n]) + [patches[n]] == before + patches;
    }
  }

  // ---------- waves ----------

  /** In each wave all actions answer. */
  ghost predicate AllAnswer<V>(waves: seq<seq<Step<V>>>, state: State<V>)
    decreases |waves|
  {
    |waves| == 0 || (Patches(waves[0], state).Some? && AllAnswer(waves[1..], AfterWave(state, waves[0])))
  }

  /** A run that succeeds goes through the waves of the schedule, and all their actions answer. */
  lemma {:induction false} SuccessFollowsSchedule<V>(pending: seq<Step<V>>, done: set<string>, r: Receipt<V>)
    requires Execute(pending, done, r).Ok?
    ensures Schedule(pending, done).Some? && AllAnswer(Schedule(pending, done).value, r.state)
    ensures Execute(pending, done, r).value == Through(r, Schedule(pending, done).value)
    ensures CallsFrom(pending, done, r.state) == CallsOf(Schedule(pending, done).value, r.state)
    decreases |pending|
  {
    if |pending| == 0 {
      assert r.trace + NameList(Flat<V>([])) == r.trace;
    } else {
      var ready := Ready(pending, done);
      ReadyShrinks(pending, done);
      var patches := Patches(ready, r.state).value;
      var rest, done' := Minus(pending, Names(ready)), done + Names(ready);
      SuccessFollowsSchedule(rest, done', Advance(r, ready, patches));
      var waves := Schedule(rest, done').value;
      OneMoreWave(r, ready, patches, waves);
      assert ([ready] + waves)[1..] == waves && ([ready] + waves)[0] == ready;
    }
  }

  /** The patches of all waves, in the order of the trace. */
  ghost function PatchesOf<V>(waves: seq<seq<Step<V>>>, state: State<V>): seq<State<V>>
    requires AllAnswer(waves, state)
    decreases |waves|
  {
    if |waves| == 0 then []
    else Patches(waves[0], state).value + PatchesOf(waves[1..], AfterWave(state, waves[0]))
  }

  lemma {:induction false} PatchesAre<V>(wave: seq<Step<V>>, seen: State<V>)
    requires Patches(wave, seen).Some?
    ensures forall i :: 0 <= i < |wave| ==> wave[i].action(seen) == Some(Patches(wave, seen).value[i])
  {
    if |wave| > 0 {
      var n := |wave| - 1;
      PatchesAre(wave[..n], seen);
      forall i | 0 <= i < n ensures wave[i].action(seen) == Some(Patches(wave, seen).value[i]) {
        assert wave[..n][i] == wave[i];
      }
    }
  }

  /** Patch `i` is what the action of step `i` of the trace answers to what that call sees. */
  ghost predicate Answer<V>(order: seq<Step<V>>, calls: seq<Call<V>>, patches: seq<State<V>>) {
    && |order| == |calls| == |patches|
    && forall i :: 0 <= i < |order| ==> calls[i].name == order[i].name
                                        && order[i].action(calls[i].seen) == Some(patches[i])
  }

  lemma {:induction false} PatchesAnswer<V>(waves: seq<seq<Step<V>>>, state: State<V>)
    requires AllAnswer(waves, state)
    ensures Answer(Flat(waves), CallsOf(waves, state), PatchesOf(waves, state))
    decreases |waves|
  {
    if |waves| > 0 {
      PatchesAre(waves[0], state);
      PatchesAnswer(waves[1..], AfterWave(state, waves[0]));
    }
  }

  /** After `k` waves the state is made of the patches of these waves, on top of `before`. */
  ghost predicate LatestAfter<V>(base: State<V>, before: seq<State<V>>, state: State<V>, waves: seq<seq<Step<V>>>,
                                 k: nat)
    requires AllAnswer(waves, state) && k <= |waves|
  {
    && |Flat(waves[..k])| <= |PatchesOf(waves, state)|
    && Latest(base, before + PatchesOf(waves, state)[..|Flat(waves[..k])|], After(state, waves[..k]))
  }

  lemma {:induction false} WavesLeaveLatest<V>(base: State<V>, before: seq<State<V>>, state: State<V>,
                                               waves: seq<seq<Step<V>>>, k: nat)
    requires Latest(base, before, state) && AllAnswer(waves, state) && k <= |waves|
    ensures LatestAfter(base, before, state, waves, k)
    decreases k
  {
    if k == 0 {
      NoWaves(base, before, state, waves);
    } else {
      var patches := Patches(waves[0], state).value;
      OverlayIsLatest(base, before, state, patches);
      WavesLeaveLatest(base, before + patches, AfterWave(state, waves[0]), waves[1..], k - 1);
      OneWaveBefore(base, before, state, waves, k);
    }
  }

  lemma OneWaveBefore<V>(base: State<V>, before: seq<State<V>>, state: State<V>, waves: seq<seq<Step<V>>>, k: nat)
    requires 0 < k <= |waves| && AllAnswer(waves, state)
    requires LatestAfter(base, before + Patches(waves[0], state).value, AfterWave(state, waves[0]), waves[1..], k - 1)
    ensures LatestAfter(base, before, state, waves, k)
  {
    FirstWaveThenRest(waves, state, k);
    Regroup(before, Patches(waves[0], state).value, PatchesOf(waves[1..], AfterWave(state, waves[0])),
            |Flat(waves[1..][..k - 1])|);
  }

  lemma NoWaves<V>(base: State<V>, before: seq<State<V>>, state: State<V>, waves: seq<seq<Step<V>>>)
    requires Latest(base, before, state) && AllAnswer(waves, state)
    ensures LatestAfter(base, before, state, waves, 0)
  {
    assert waves[..0] == [];
    assert before + PatchesOf(waves, state)[..0] == before;
  }

  lemma FirstWaveThenRest<V>(waves: seq<seq<Step<V>>>, state: State<V>, k: nat)
    requires 0 < k <= |waves|
    ensures |Flat(waves[..k])| == |waves[0]| + |Flat(waves[1..][..k - 1])|
    ensures After(state, waves[..k]) == After(AfterWave(state, waves[0]), waves[1..][..k - 1])
  {
    assert waves[..k][0] == waves[0] && waves[..k][1..] == waves[1..][..k - 1];
  }

  lemma Regroup<T>(a: seq<T>, b: seq<T>, c: seq<T>, m: nat)
    requires m <= |c|
    ensures (a + b) + c[..m] == a + (b + c)[..|b| + m]
  {
  }

  // ---------- runs ----------

  /** Step `i` of wave `k` sees what the patches of the waves before it make of the initial state. */
  ghost predicate SeesEarlierPatches<V>(waves: seq<seq<Step<V>>>, base: State<V>, patches: seq<State<V>>,
                                        calls: seq<Call<V>>, k: nat, i: nat)
    requires k < |waves| && i < |waves[k]|
  {
    var before := |Flat(waves[..k])|;
    before + i < |patches| && before + i < |calls| && Latest(base, patches[..before], calls[before + i].seen)
  }

  lemma NothingPatched<V>(base: State<V>)
    ensures Latest(base, [], base)
  {
  }

  /** A run that succeeds: there are patches, one for each step of the trace, that the actions answered to what they
      saw; the final state has for every key the value of the last of them that has it, or else the initial one; and
      what the steps of wave `k` see is made in the same way of the patches of the waves before it. */
  lemma RunLeavesLatestPatches<V>(steps: seq<Step<V>>, state: State<V>)
    returns (waves: seq<seq<Step<V>>>, patches: seq<State<V>>)
    requires Outcome(steps, state).Ok?
    ensures Schedule(ByName(steps), {}) == Some(waves)
    ensures Answer(Flat(waves), CallsFrom(ByName(steps), {}, state), patches)
    ensures Outcome(steps, state).value.trace == NameList(Flat(waves))
    ensures Latest(state, patches, Outcome(steps, state).value.state)
    ensures forall k: nat, i: nat :: k < |waves| && i < |waves[k]| ==>
              SeesEarlierPatches(waves, state, patches, CallsFrom(ByName(steps), {}, state), k, i)
  {
    var pending := ByName(steps);
    SuccessFollowsSchedule(pending, {}, Receipt([], state, 0));
    waves := Schedule(pending, {}).value;
    patches := PatchesOf(waves, state);
    PatchesAnswer(waves, state);
    NothingPatched(state);
    WholeRun(state, waves);
    assert [] + NameList(Flat(waves)) == NameList(Flat(waves));
    forall k: nat, i: nat | k < |waves| && i < |waves[k]|
      ensures SeesEarlierPatches(waves, state, patches, CallsOf(waves, state), k, i)
    {
      WavesLeaveLatest(state, [], state, waves, k);
      CallsSeeEarlierWaves(waves, state, k, i);
      assert [] + patches[..|Flat(waves[..k])|] == patches[..|Flat(waves[..k])|];
    }
  }

  lemma WholeRun<V>(state: State<V>, waves: seq<seq<Step<V>>>)
    requires AllAnswer(waves, state)
    ensures Latest(state, PatchesOf(waves, state), After(state, waves))
  {
    NothingPatched(state);
    WavesLeaveLatest(state, [], state, waves, |waves|);
    PatchesAnswer(waves, state);
    assert waves[..|waves|] == waves;
    assert [] + PatchesOf(waves, state)[..|Flat(waves)|] == PatchesOf(waves, state);
  }
}
