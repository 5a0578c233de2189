/** The wave scheduler of FunFlow plans: every wave runs all steps whose dependencies are complete. */
module FunFlow {
  import opened Basics

  type State<V> = map<string, V>

  /** An action is given the shared state and answers with a patch, or raises. */
  datatype Step<!V> = Step(name: string, needs: seq<string>, action: State<V> -> Option<State<V>>)

  datatype Failure = NoSteps | MissingDependency | UnresolvedDependencies | StepFailed

  datatype Receipt<V> = Receipt(trace: seq<string>, state: State<V>, maxWaveWidth: nat)

  /** One call of an action: whose it was and what state it saw. */
  datatype Call<V> = Call(name: string, seen: State<V>)

  // ---------- the plan ----------

  function Names<V>(steps: seq<Step<V>>): set<string> {
    set i | 0 <= i < |steps| :: steps[i].name
  }

  ghost predicate Unique<V>(steps: seq<Step<V>>) {
    forall i, j :: 0 <= i < j < |steps| ==> steps[i].name != steps[j].name
  }

  /** A dictionary keeps a step's first position and its last definition. */
  function Insert<V>(pending: seq<Step<V>>, s: Step<V>): seq<Step<V>> {
    if |pending| == 0 then [s]
    else if pending[0].name == s.name then [s] + pending[1..]
    else [pending[0]] + Insert(pending[1..], s)
  }

  function ByName<V>(steps: seq<Step<V>>): seq<Step<V>> {
    if |steps| == 0 then [] else Insert(ByName(steps[..|steps| - 1]), steps[|steps| - 1])
  }

  predicate Closed<V>(steps: seq<Step<V>>) {
    forall i, k :: 0 <= i < |steps| && 0 <= k < |steps[i].needs| ==> steps[i].needs[k] in Names(steps)
  }

  // ---------- waves ----------

  predicate IsReady<V>(s: Step<V>, done: set<string>) {
    forall k :: 0 <= k < |s.needs| ==> s.needs[k] in done
  }

  function Ready<V>(pending: seq<Step<V>>, done: set<string>): seq<Step<V>> {
    if |pending| == 0 then []
    else (if IsReady(pending[0], done) then [pending[0]] else []) + Ready(pending[1..], done)
  }

  function Minus<V>(pending: seq<Step<V>>, names: set<string>): seq<Step<V>> {
    if |pending| == 0 then []
    else (if pending[0].name in names then [] else [pending[0]]) + Minus(pending[1..], names)
  }

  lemma {:induction false} ReadyAre<V>(pending: seq<Step<V>>, done: set<string>)
    ensures forall i :: 0 <= i < |Ready(pending, done)| ==>
              IsReady(Ready(pending, done)[i], done) && Ready(pending, done)[i] in pending
    ensures forall i :: 0 <= i < |pending| && IsReady(pending[i], done) ==> pending[i] in Ready(pending, done)
    ensures Unique(pending) ==> Unique(Ready(pending, done))
  {
    if |pending| > 0 {
      ReadyAre(pending[1..], done);
    }
  }

  lemma {:induction false} MinusAre<V>(pending: seq<Step<V>>, names: set<string>)
    ensures forall i :: 0 <= i < |Minus(pending, names)| ==>
              Minus(pending, names)[i].name !in names && Minus(pending, names)[i] in pending
    ensures forall i :: 0 <= i < |pending| && pending[i].name !in names ==> pending[i] in Minus(pending, names)
    ensures |Minus(pending, names)| <= |pending|
    ensures (exists i :: 0 <= i < |pending| && pending[i].name in names) ==> |Minus(pending, names)| < |pending|
    ensures Unique(pending) ==> Unique(Minus(pending, names))
  {
    if |pending| > 0 {
      MinusAre(pending[1..], names);
    }
  }

  /** The patches of a wave; all its steps see the same state, and one that fails fails the wave. */
  function Patches<V>(wave: seq<Step<V>>, seen: State<V>): (p: Option<seq<State<V>>>)
    ensures p.Some? ==> |p.value| == |wave|
  {
    if |wave| == 0 then Some([])
    else
      match (Patches(wave[..|wave| - 1], seen), wave[|wave| - 1].action(seen))
      case (Some(p), Some(patch)) => Some(p + [patch])
      case _ => None
  }

  /** Later patches win. */
  function Overlay<V>(state: State<V>, patches: seq<State<V>>): State<V> {
    if |patches| == 0 then state else Overlay(state, patches[..|patches| - 1]) + patches[|patches| - 1]
  }

  function NameList<V>(wave: seq<Step<V>>): (names: seq<string>)
    ensures |names| == |wave|
  {
    seq(|wave|, i requires 0 <= i < |wave| => wave[i].name)
  }

  function Advance<V>(r: Receipt<V>, wave: seq<Step<V>>, patches: seq<State<V>>): Receipt<V> {
    Receipt(r.trace + NameList(wave), Overlay(r.state, patches), Max(r.maxWaveWidth, |wave|))
  }

  lemma ReadyShrinks<V>(pending: seq<Step<V>>, done: set<string>)
    requires |Ready(pending, done)| > 0
    ensures |Minus(pending, Names(Ready(pending, done)))| < |pending|
  {
    ReadyAre(pending, done);
    var s := Ready(pending, done)[0];
    var i :| 0 <= i < |pending| && pending[i] == s;
    assert pending[i].name in Names(Ready(pending, done));
    MinusAre(pending, Names(Ready(pending, done)));
  }

  function Execute<V>(pending: seq<Step<V>>, done: set<string>, r: Receipt<V>): Result<Receipt<V>, Failure>
    decreases |pending|
  {
    var ready := Ready(pending, done);
    if |pending| == 0 then Ok(r)
    else if |ready| == 0 then Err(UnresolvedDependencies)
    else
      match Patches(ready, r.state)
      case None => Err(StepFailed)
      case Some(patches) =>
        ReadyShrinks(pending, done);
        Execute(Minus(pending, Names(ready)), done + Names(ready), Advance(r, ready, patches))
  }

  /** The whole run of a plan. */
  function Outcome<V>(steps: seq<Step<V>>, state: State<V>): Result<Receipt<V>, Failure> {
    var pending := ByName(steps);
    if |pending| == 0 then Err(NoSteps)
    else if !Closed(pending) then Err(MissingDependency)
    else Execute(pending, {}, Receipt([], state, 0))
  }

  /** The calls a run makes, in trace order; those of a wave that fails are not listed. */
  ghost function CallsFrom<V>(pending: seq<Step<V>>, done: set<string>, state: State<V>): seq<Call<V>>
    decreases |pending|
  {
    var ready := Ready(pending, done);
    if |ready| == 0 || Patches(ready, state).None? then []
    else
      ReadyShrinks(pending, done);
      WaveCalls(ready, state)
      + CallsFrom(Minus(pending, Names(ready)), done + Names(ready), Overlay(state, Patches(ready, state).value))
  }

  ghost function WaveCalls<V>(wave: seq<Step<V>>, seen: State<V>): (c: seq<Call<V>>)
    ensures |c| == |wave|
  {
    seq(|wave|, i requires 0 <= i < |wave| => Call(wave[i].name, seen))
  }

  // ---------- the executor ----------

  method Run<V>(steps: seq<Step<V>>, state: State<V>)
    returns (result: Result<Receipt<V>, Failure>, ghost calls: seq<Call<V>>)
    ensures result == Outcome(steps, state)
    ensures result.Ok? ==> calls == CallsFrom(ByName(steps), {}, state)
  {
    calls := [];
    var pending := Collect(steps);
    if |pending| == 0 {
      return Err(NoSteps), calls;
    }
    if !Closed(pending) {
      return Err(MissingDependency), calls;
    }
    result, calls := RunWaves(pending, state);
  }

  method Collect<V>(steps: seq<Step<V>>) returns (pending: seq<Step<V>>)
    ensures pending == ByName(steps)
  {
    pending := [];
    for i := 0 to |steps|
      invariant pending == ByName(steps[..i])
    {
      pending := Insert(pending, steps[i]);
      assert steps[..i + 1][..i] == steps[..i];
    }
    assert steps[..|steps|] == steps;
  }

  /** The loop over the waves. */
  method RunWaves<V>(steps: seq<Step<V>>, state: State<V>)
    returns (result: Result<Receipt<V>, Failure>, ghost calls: seq<Call<V>>)
    ensures result == Execute(steps, {}, Receipt([], state, 0))
    ensures result.Ok? ==> calls == CallsFrom(steps, {}, state)
  {
    calls := [];
    var pending, done: set<string> := steps, {};
    var trace: seq<string>, current, width: nat := [], state, 0;
    while |pending| > 0
      invariant Execute(pending, done, Receipt(trace, current, width)) == Execute(steps, {}, Receipt([], state, 0))
      invariant calls + CallsFrom(pending, done, current) == CallsFrom(steps, {}, state)
      decreases |pending|
    {
      var ready := Ready(pending, done);
      if |ready| == 0 {
        return Err(UnresolvedDependencies), calls;
      }
      ReadyShrinks(pending, done);
      var patches, made := RunWave(ready, current);
      if patches.None? {
        return Err(StepFailed), calls;
      }
      WaveIsStep(pending, done, Receipt(trace, current, width), patches.value, calls);
      width := Max(width, |ready|);
      calls := calls + made;
      pending, done, trace, current := Complete(pending, done, trace, current, ready, patches.value);
    }
    result := Ok(Receipt(trace, current, width));
  }

  /** One wave of the loop is one step of `Execute` and of `CallsFrom`. */
  lemma WaveIsStep<V>(pending: seq<Step<V>>, done: set<string>, r: Receipt<V>, patches: seq<State<V>>,
                      calls: seq<Call<V>>)
    requires |Ready(pending, done)| > 0 && Patches(Ready(pending, done), r.state) == Some(patches)
    ensures Execute(pending, done, r)
         == Execute(Minus(pending, Names(Ready(pending, done))), done + Names(Ready(pending, done)),
                    Advance(r, Ready(pending, done), patches))
    ensures calls + CallsFrom(pending, done, r.state)
         == calls + WaveCalls(Ready(pending, done), r.state)
            + CallsFrom(Minus(pending, Names(Ready(pending, done))), done + Names(Ready(pending, done)),
                        Overlay(r.state, patches))
  {
    ReadyShrinks(pending, done);
  }

  /** Books the steps of a wave one by one: patch, trace, completion, removal. */
  method Complete<V>(pending: seq<Step<V>>, done: set<string>, trace: seq<string>, state: State<V>,
                     ready: seq<Step<V>>, patches: seq<State<V>>)
    returns (pending': seq<Step<V>>, done': set<string>, trace': seq<string>, state': State<V>)
    requires |patches| == |ready|
    ensures pending' == Minus(pending, Names(ready)) && done' == done + Names(ready)
    ensures trace' == trace + NameList(ready) && state' == Overlay(state, patches)
  {
    pending', done', trace', state' := pending, done, trace, state;
    Untouched(pending);
    assert Names(ready[..0]) == {};
    for i := 0 to |ready|
      invariant state' == Overlay(state, patches[..i])
      invariant trace' == trace + NameList(ready)[..i]
      invariant done' == done + Names(ready[..i])
      invariant pending' == Minus(pending, Names(ready[..i]))
    {
      state' := state' + patches[i];
      trace' := trace' + [ready[i].name];
      done' := done' + {ready[i].name};
      pending' := Minus(pending', {ready[i].name});
      assert patches[..i + 1][..i] == patches[..i];
      NamesGrow(ready, i);
      MinusTwice(pending, Names(ready[..i]), {ready[i].name});
    }
    assert ready[..|ready|] == ready && patches[..|ready|] == patches;
    assert NameList(ready)[..|ready|] == NameList(ready);
  }

  method RunWave<V>(wave: seq<Step<V>>, seen: State<V>)
    returns (patches: Option<seq<State<V>>>, ghost made: seq<Call<V>>)
    ensures patches == Patches(wave, seen)
    ensures patches.Some? ==> made == WaveCalls(wave, seen)
  {
    made := [];
    var results: seq<State<V>> := [];
    for i := 0 to |wave|
      invariant Patches(wave[..i], seen) == Some(results) && made == WaveCalls(wave[..i], seen)
    {
      assert wave[..i + 1][..i] == wave[..i];
      var patch := wave[i].action(seen);
      made := made + [Call(wave[i].name, seen)];
      if patch.None? {
        FailsEarly(wave, seen, i + 1);
        return None, made;
      }
      results := results + [patch.value];
    }
    assert wave[..|wave|] == wave;
    return Some(results), made;
  }

  lemma {:induction false} FailsEarly<V>(wave: seq<Step<V>>, seen: State<V>, n: nat)
    requires n <= |wave| && Patches(wave[..n], seen).None?
    ensures Patches(wave, seen).None?
  {
    if n < |wave| {
      assert wave[..|wave| - 1][..n] == wave[..n];
      FailsEarly(wave[..|wave| - 1], seen, n);
    } else {
      assert wave[..n] == wave;
    }
  }

  lemma {:induction false} Untouched<V>(pending: seq<Step<V>>)
    ensures Minus(pending, {}) == pending
  {
    if |pending| > 0 {
      Untouched(pending[1..]);
    }
  }

  lemma {:induction false} MinusTwice<V>(pending: seq<Step<V>>, a: set<string>, b: set<string>)
    ensures Minus(Minus(pending, a), b) == Minus(pending, a + b)
  {
    if |pending| > 0 {
      MinusTwice(pending[1..], a, b);
      var rest := Minus(pending[1..], a);
      assert [] + rest == rest && ([pending[0]] + rest)[1..] == rest;
      assert [] + Minus(rest, b) == Minus(rest, b);
    }
  }

  lemma NamesGrow<V>(wave: seq<Step<V>>, i: nat)
    requires i < |wave|
    ensures Names(wave[..i + 1]) == Names(wave[..i]) + {wave[i].name}
  {
    forall x | x in Names(wave[..i]) + {wave[i].name} ensures x in Names(wave[..i + 1]) {
      if x == wave[i].name {
        assert wave[..i + 1][i].name == x;
      } else {
        var k :| 0 <= k < i && wave[..i][k].name == x;
        assert wave[..i + 1][k].name == x;
      }
    }
  }

  // ---------- the schedule ----------

  /** The waves of a plan whose actions succeed, or None if some step never becomes ready. */
  ghost function Schedule<V>(pending: seq<Step<V>>, done: set<string>): Option<seq<seq<Step<V>>>>
    decreases |pending|
  {
    var ready := Ready(pending, done);
    if |pending| == 0 then Some([])
    else if |ready| == 0 then None
    else
      ReadyShrinks(pending, done);
      match Schedule(Minus(pending, Names(ready)), done + Names(ready))
      case None => None
      case Some(waves) => Some([ready] + waves)
  }

  ghost predicate AlwaysSucceeds<V(!new)>(steps: seq<Step<V>>) {
    forall i, state :: 0 <= i < |steps| ==> steps[i].action(state).Some?
  }

  ghost function Flat<V>(waves: seq<seq<Step<V>>>): seq<Step<V>> {
    if |waves| == 0 then [] else waves[0] + Flat(waves[1..])
  }

  /** The state after a number of waves. */
  ghost function After<V>(state: State<V>, waves: seq<seq<Step<V>>>): State<V>
    decreases |waves|
  {
    if |waves| == 0 then state else After(AfterWave(state, waves[0]), waves[1..])
  }

  ghost function AfterWave<V>(state: State<V>, wave: seq<Step<V>>): State<V> {
    match Patches(wave, state)
    case None => state
    case Some(p) => Overlay(state, p)
  }

  ghost function Widest<V>(waves: seq<seq<Step<V>>>, width: nat): nat {
    if |waves| == 0 then width else Widest(waves[1..], Max(width, |waves[0]|))
  }

  lemma {:induction false} WavesSucceed<V(!new)>(wave: seq<Step<V>>, state: State<V>)
    requires AlwaysSucceeds(wave)
    ensures Patches(wave, state).Some?
  {
    if |wave| > 0 {
      WavesSucceed(wave[..|wave| - 1], state);
    }
  }

  /** A run of actions that succeed follows the schedule exactly. */
  lemma {:induction false} ExecuteFollowsSchedule<V(!new)>(pending: seq<Step<V>>, done: set<string>, r: Receipt<V>)
    requires AlwaysSucceeds(pending)
    ensures Execute(pending, done, r)
         == match Schedule(pending, done)
            case None => Err(UnresolvedDependencies)
            case Some(waves) => Ok(Through(r, waves))
    decreases |pending|
  {
    var ready := Ready(pending, done);
    ReadyAre(pending, done);
    if |pending| == 0 {
      assert r.trace + NameList(Flat<V>([])) == r.trace;
    } else if |ready| > 0 {
      ReadyShrinks(pending, done);
      WavesSucceed(ready, r.state);
      var rest := Minus(pending, Names(ready));
      MinusAre(pending, Names(ready));
      var next := Advance(r, ready, Patches(ready, r.state).value);
      ExecuteFollowsSchedule(rest, done + Names(ready), next);
      if Schedule(rest, done + Names(ready)).Some? {
        OneMoreWave(r, ready, Patches(ready, r.state).value, Schedule(rest, done + Names(ready)).value);
      }
    }
  }

  /** What a run of waves does to a receipt. */
  ghost function Through<V>(r: Receipt<V>, waves: seq<seq<Step<V>>>): Receipt<V> {
    Receipt(r.trace + NameList(Flat(waves)), After(r.state, waves), Widest(waves, r.maxWaveWidth))
  }

  lemma OneMoreWave<V>(r: Receipt<V>, wave: seq<Step<V>>, patches: seq<State<V>>, waves: seq<seq<Step<V>>>)
    requires Patches(wave, r.state) == Some(patches)
    ensures Through(r, [wave] + waves) == Through(Advance(r, wave, patches), waves)
  {
    assert ([wave] + waves)[1..] == waves && ([wave] + waves)[0] == wave;
    assert r.trace + NameList(wave) + NameList(Flat(waves)) == r.trace + NameList(wave + Flat(waves));
  }

  // ---------- when a plan can be scheduled ----------

  ghost predicate NeedsOneOf<V>(s: Step<V>, names: set<string>) {
    exists k :: 0 <= k < |s.needs| && s.needs[k] in names
  }

  /** Every step of the set needs a step of the set: none of them can ever be the first to run. */
  ghost predicate Knot<V>(steps: seq<Step<V>>, s: set<string>) {
    && s != {} && s <= Names(steps)
    && forall i :: 0 <= i < |steps| && steps[i].name in s ==> NeedsOneOf(steps[i], s)
  }

  /** Every need is done or among the steps, and nothing pending is done. */
  ghost predicate Resolvable<V>(pending: seq<Step<V>>, done: set<string>) {
    && Unique(pending)
    && (forall i :: 0 <= i < |pending| ==> pending[i].name !in done)
    && (forall i :: 0 <= i < |pending| ==> IsReady(pending[i], done + Names(pending)))
  }

  lemma MinusNames<V>(pending: seq<Step<V>>, names: set<string>)
    requires names <= Names(pending)
    ensures Names(Minus(pending, names)) == Names(pending) - names
  {
    MinusAre(pending, names);
    forall x | x in Names(pending) - names ensures x in Names(Minus(pending, names)) {
      var i :| 0 <= i < |pending| && pending[i].name == x;
      var s := pending[i];
      assert s in Minus(pending, names);
    }
    forall x | x in Names(Minus(pending, names)) ensures x in Names(pending) - names {
      var i :| 0 <= i < |Minus(pending, names)| && Minus(pending, names)[i].name == x;
      assert Minus(pending, names)[i] in pending;
    }
  }

  lemma ReadyNames<V>(pending: seq<Step<V>>, done: set<string>)
    ensures Names(Ready(pending, done)) <= Names(pending)
  {
    ReadyAre(pending, done);
    forall x | x in Names(Ready(pending, done)) ensures x in Names(pending) {
      var i :| 0 <= i < |Ready(pending, done)| && Ready(pending, done)[i].name == x;
      assert Ready(pending, done)[i] in pending;
    }
  }

  /** Of two steps with the same name there is only one. */
  lemma SameStep<V>(steps: seq<Step<V>>, s: Step<V>, t: Step<V>)
    requires Unique(steps) && s in steps && t in steps && s.name == t.name
    ensures s == t
  {
  }

  lemma StaysResolvable<V>(pending: seq<Step<V>>, done: set<string>)
    requires Resolvable(pending, done)
    ensures var ready := Ready(pending, done);
            Resolvable(Minus(pending, Names(ready)), done + Names(ready))
  {
    var ready := Ready(pending, done);
    var rest := Minus(pending, Names(ready));
    ReadyNames(pending, done);
    MinusAre(pending, Names(ready));
    MinusNames(pending, Names(ready));
    forall i | 0 <= i < |rest| ensures rest[i].name !in done + Names(ready) {
      assert rest[i] in pending;
    }
    assert done + Names(ready) + Names(rest) == done + Names(pending);
    forall i | 0 <= i < |rest| ensures IsReady(rest[i], done + Names(ready) + Names(rest)) {
      assert rest[i] in pending;
    }
  }

  lemma {:induction false} KnotBlocks<V>(pending: seq<Step<V>>, done: set<string>, s: set<string>)
    requires Resolvable(pending, done) && Knot(pending, s)
    ensures Schedule(pending, done).None?
    decreases |pending|
  {
    var ready := Ready(pending, done);
    KnotIsNotEmpty(pending, s);
    if |ready| > 0 {
      ReadyShrinks(pending, done);
      StaysResolvable(pending, done);
      KnotRemains(pending, done, s);
      KnotBlocks(Minus(pending, Names(ready)), done + Names(ready), s);
    }
  }

  lemma KnotIsNotEmpty<V>(pending: seq<Step<V>>, s: set<string>)
    requires Knot(pending, s)
    ensures |pending| > 0
  {
    var x :| x in s;
    assert x in Names(pending);
  }

  lemma KnotRemains<V>(pending: seq<Step<V>>, done: set<string>, s: set<string>)
    requires Resolvable(pending, done) && Knot(pending, s)
    ensures Knot(Minus(pending, Names(Ready(pending, done))), s)
  {
    var names := Names(Ready(pending, done));
    var rest := Minus(pending, names);
    ReadyNames(pending, done);
    MinusAre(pending, names);
    MinusNames(pending, names);
    KnotNotReady(pending, done, s);
    forall i | 0 <= i < |rest| && rest[i].name in s ensures NeedsOneOf(rest[i], s) {
      assert rest[i] in pending;
    }
  }

  lemma KnotNotReady<V>(pending: seq<Step<V>>, done: set<string>, s: set<string>)
    requires Resolvable(pending, done) && Knot(pending, s)
    ensures Names(Ready(pending, done)) !! s
  {
    var ready := Ready(pending, done);
    ReadyAre(pending, done);
    NotDone(pending, done, s);
    forall i | 0 <= i < |ready| ensures ready[i].name !in s {
      ReadyNeedsNone(ready[i], done, s);
      assert ready[i] in pending;
    }
  }

  lemma NotDone<V>(pending: seq<Step<V>>, done: set<string>, s: set<string>)
    requires Resolvable(pending, done) && s <= Names(pending)
    ensures done !! s
  {
    forall x | x in s ensures x !in done {
      assert x in Names(pending);
    }
  }

  lemma UnreadyNeeds<V>(s: Step<V>, done: set<string>, names: set<string>)
    requires IsReady(s, done + names) && !IsReady(s, done)
    ensures NeedsOneOf(s, names)
  {
    var k :| 0 <= k < |s.needs| && s.needs[k] !in done;
    assert s.needs[k] in names;
  }

  lemma ReadyNeedsNone<V>(s: Step<V>, done: set<string>, names: set<string>)
    requires IsReady(s, done) && done !! names
    ensures !NeedsOneOf(s, names)
  {
  }

  lemma {:induction false} StuckMeansKnot<V>(pending: seq<Step<V>>, done: set<string>) returns (s: set<string>)
    requires Resolvable(pending, done) && Schedule(pending, done).None?
    ensures Knot(pending, s)
    decreases |pending|
  {
    var ready := Ready(pending, done);
    ReadyAre(pending, done);
    if |ready| == 0 {
      s := Names(pending);
      assert pending[0].name in s;
      forall i | 0 <= i < |pending| ensures NeedsOneOf(pending[i], s) {
        UnreadyNeeds(pending[i], done, s);
      }
    } else {
      ReadyShrinks(pending, done);
      var rest := Minus(pending, Names(ready));
      ReadyNames(pending, done);
      MinusAre(pending, Names(ready));
      MinusNames(pending, Names(ready));
      StaysResolvable(pending, done);
      s := StuckMeansKnot(rest, done + Names(ready));
      forall i | 0 <= i < |pending| && pending[i].name in s
        ensures NeedsOneOf(pending[i], s)
      {
        assert pending[i] in rest;
      }
    }
  }
}
