/** The offline classifier over run logs (scripts/scaffold_taxonomy.py), and its agreement with the
    accounting of the queue that wrote the log. */
module ScaffoldTaxonomy {
  import opened Options
  import opened ScaffoldCauses
  import opened QueueAccounting

  type Key = (string, string)

  predicate Attributed(e: Entry) {
    e.runId != [] && e.model != []
  }

  function Closed(c: Cause, allowed: set<Cause>): Cause {
    if c in allowed then c else Unclassified
  }

  /** Does the event close its finding at this level? */
  predicate Closes(e: Entry, level: Level) {
    e.mark.Terminal? && e.mark.level == level && Attributed(e)
  }

  /** The last finding-level cause per run and finding. */
  function FindingMap(events: seq<Entry>): map<Key, Cause> {
    if events == [] then map[]
    else
      var e, m := events[|events| - 1], FindingMap(events[..|events| - 1]);
      if Closes(e, FindingAttempt) then m[(e.runId, e.findingId) := Closed(e.mark.cause, FINDING_CAUSES)] else m
  }

  /** The synthesis-level causes of one run and finding, in log order. */
  function SynthCauses(events: seq<Entry>, key: Key): seq<Cause> {
    if events == [] then []
    else
      var e := events[|events| - 1];
      SynthCauses(events[..|events| - 1], key) + SynthAdds(e, key)
  }

  function SynthAdds(e: Entry, key: Key): seq<Cause> {
    if Closes(e, SynthesisAttempt) && (e.runId, e.findingId) == key
    then [Closed(e.mark.cause, SYNTHESIS_CAUSES)] else []
  }

  /** Events that cannot be placed: legacy scaffold events and terminal events without full attribution. */
  function UnattributedCount(events: seq<Entry>): nat {
    if events == [] then 0
    else
      var e := events[|events| - 1];
      UnattributedCount(events[..|events| - 1])
      + (if !Attributed(e) && (e.mark.Terminal? || e.mark.LegacyScaffold?) then 1 else 0)
  }

  function Failures(causes: seq<Cause>): seq<Cause> {
    if causes == [] then []
    else (if IsOk(causes[0]) then [] else [causes[0]]) + Failures(causes[1..])
  }

  function FoldNature(findingCause: Cause, synthCauses: seq<Cause>): Option<Nature> {
    if IsOk(findingCause) then None
    else
      var failed := Failures(synthCauses);
      if failed != [] then CauseNature(failed[|failed| - 1]) else CauseNature(findingCause)
  }

  function NatureOf(events: seq<Entry>, key: Key): Option<Nature>
    requires key in FindingMap(events)
  {
    FoldNature(FindingMap(events)[key], SynthCauses(events, key))
  }

  // ---- what the report counts --------------------------------------------

  ghost function AttemptedKeys(events: seq<Entry>): set<Key> {
    set k | k in FindingMap(events) && InDenominator(FindingMap(events)[k])
  }

  ghost function NatureKeys(events: seq<Entry>, n: Nature): set<Key> {
    set k | k in AttemptedKeys(events) && k in FindingMap(events) && NatureOf(events, k) == Some(n)
  }

  datatype Report = Report(
    queued: nat, attempted: nat, truncated: bool, share: Option<map<Nature, real>>, unattributed: nat)

  ghost function Denominator(events: seq<Entry>): nat {
    if |AttemptedKeys(events)| == 0 then 1 else |AttemptedKeys(events)|
  }

  ghost function Share(events: seq<Entry>, n: Nature): real {
    |NatureKeys(events, n)| as real / Denominator(events) as real
  }

  /** What `classify` reports of a log. */
  ghost predicate Reports(events: seq<Entry>, allowTruncated: bool, r: Report) {
    && r.queued == |FindingMap(events).Keys| && r.attempted == |AttemptedKeys(events)|
    && (r.truncated <==> r.attempted < r.queued)
    && r.unattributed == UnattributedCount(events)
    && (r.share.None? <==> r.truncated && !allowTruncated)
    && (r.share.Some? ==>
          && r.share.value.Keys == {HarnessInfra, SynthModel, ModelNature}
          && forall n :: n in r.share.value ==> r.share.value[n] == Share(events, n))
  }

  /** The keys of `done` that carry nature `n`. */
  ghost function NatureIn(events: seq<Entry>, done: set<Key>, n: Nature): set<Key>
    requires done <= FindingMap(events).Keys
  {
    set k | k in done && InDenominator(FindingMap(events)[k]) && NatureOf(events, k) == Some(n)
  }

  ghost function AttemptedIn(events: seq<Entry>, done: set<Key>): set<Key>
    requires done <= FindingMap(events).Keys
  {
    set k | k in done && InDenominator(FindingMap(events)[k])
  }

  lemma {:induction false} CountOneMore(events: seq<Entry>, done: set<Key>, k: Key, n: Nature)
    requires done <= FindingMap(events).Keys && k in FindingMap(events) && k !in done
    ensures |NatureIn(events, done + {k}, n)| == |NatureIn(events, done, n)|
      + (if InDenominator(FindingMap(events)[k]) && NatureOf(events, k) == Some(n) then 1 else 0)
    ensures |AttemptedIn(events, done + {k})| == |AttemptedIn(events, done)|
      + (if InDenominator(FindingMap(events)[k]) then 1 else 0)
  {
    NatureOneMore(events, done, k, n);
    hide FindingMap, NatureIn, NatureOf, InDenominator;
    var c, d := AttemptedIn(events, done), AttemptedIn(events, done + {k});
    assert d == if InDenominator(FindingMap(events)[k]) then c + {k} else c;
  }

  lemma {:induction false} NatureOneMore(events: seq<Entry>, done: set<Key>, k: Key, n: Nature)
    requires done <= FindingMap(events).Keys && k in FindingMap(events) && k !in done
    ensures |NatureIn(events, done + {k}, n)| == |NatureIn(events, done, n)|
      + (if InDenominator(FindingMap(events)[k]) && NatureOf(events, k) == Some(n) then 1 else 0)
  {
    hide FindingMap, NatureOf, InDenominator;
    var a, b := NatureIn(events, done, n), NatureIn(events, done + {k}, n);
    assert b == if InDenominator(FindingMap(events)[k]) && NatureOf(events, k) == Some(n) then a + {k} else a;
  }

  lemma WholeMap(events: seq<Entry>, done: set<Key>)
    requires done == FindingMap(events).Keys
    ensures AttemptedIn(events, done) == AttemptedKeys(events)
    ensures forall n :: NatureIn(events, done, n) == NatureKeys(events, n)
    ensures |FindingMap(events)| == |FindingMap(events).Keys|
  {
  }

  lemma ReadOneMore(events: seq<Entry>, i: nat)
    requires i < |events|
    ensures var e, m, m' := events[i], FindingMap(events[..i]), FindingMap(events[..i + 1]);
      m' == if Closes(e, FindingAttempt) then m[(e.runId, e.findingId) := Closed(e.mark.cause, FINDING_CAUSES)] else m
    ensures UnattributedCount(events[..i + 1]) == UnattributedCount(events[..i])
      + (if !Attributed(events[i]) && (events[i].mark.Terminal? || events[i].mark.LegacyScaffold?) then 1 else 0)
    ensures forall key ::
      SynthCauses(events[..i + 1], key) == SynthCauses(events[..i], key) + SynthAdds(events[i], key)
  {
    assert events[..i + 1][..i] == events[..i];
  }

  lemma NothingRead(events: seq<Entry>)
    ensures FindingMap(events[..0]) == map[] && UnattributedCount(events[..0]) == 0
    ensures forall k :: SynthCauses(events[..0], k) == []
  {
  }

  ghost predicate Listed(events: seq<Entry>, synthByFinding: map<Key, seq<Cause>>) {
    forall k :: (if k in synthByFinding then synthByFinding[k] else []) == SynthCauses(events, k)
  }

  /** The event loop of `classify`: dictionaries filled in log order. */
  method ReadEvents(events: seq<Entry>)
    returns (findingTerminal: map<Key, Cause>, synthByFinding: map<Key, seq<Cause>>, unattributed: nat)
    ensures findingTerminal == FindingMap(events)
    ensures unattributed == UnattributedCount(events)
    ensures Listed(events, synthByFinding)
  {
    hide FindingMap, SynthCauses, UnattributedCount;
    NothingRead(events);
    unattributed, findingTerminal, synthByFinding := 0, map[], map[];
    for i := 0 to |events|
      invariant findingTerminal == FindingMap(events[..i])
      invariant unattributed == UnattributedCount(events[..i])
      invariant Listed(events[..i], synthByFinding)
    {
      var e := events[i];
      ReadOneMore(events, i);
      if !e.mark.Terminal? {
        if e.mark.LegacyScaffold? && (e.runId == [] || e.model == []) {
          unattributed := unattributed + 1;
        }
        continue;
      }
      if e.runId == [] || e.model == [] {
        unattributed := unattributed + 1;
        continue;
      }
      var key := (e.runId, e.findingId);
      if e.mark.level == SynthesisAttempt {
        var cause := if e.mark.cause in SYNTHESIS_CAUSES then e.mark.cause else Unclassified;
        var sofar := if key in synthByFinding then synthByFinding[key] else [];
        synthByFinding := synthByFinding[key := sofar + [cause]];
      } else if e.mark.level == FindingAttempt {
        var cause := if e.mark.cause in FINDING_CAUSES then e.mark.cause else Unclassified;
        findingTerminal := findingTerminal[key := cause];
      }
    }
    assert events[..|events|] == events;
  }

  lemma NatureIsFold(events: seq<Entry>, synthByFinding: map<Key, seq<Cause>>, k: Key)
    requires Listed(events, synthByFinding) && k in FindingMap(events)
    ensures NatureOf(events, k)
         == FoldNature(FindingMap(events)[k], if k in synthByFinding then synthByFinding[k] else [])
  {
    hide FoldNature;
  }

  lemma NothingCounted(events: seq<Entry>)
    ensures AttemptedIn(events, {}) == {} && forall n :: NatureIn(events, {}, n) == {}
  {
  }

  /** The second loop of `classify`, over the closed findings in whatever order the dictionary gives them. */
  method CountNatures(ghost events: seq<Entry>, findingTerminal: map<Key, Cause>, synthByFinding: map<Key, seq<Cause>>)
    returns (attempted: nat, infra: nat, synth: nat, model: nat)
    requires findingTerminal == FindingMap(events)
    requires Listed(events, synthByFinding)
    ensures attempted == |AttemptedKeys(events)| && infra == |NatureKeys(events, HarnessInfra)|
    ensures synth == |NatureKeys(events, SynthModel)| && model == |NatureKeys(events, ModelNature)|
  {
    hide FindingMap, SynthCauses, FoldNature, InDenominator, NatureIn, AttemptedIn, NatureOf;
    NothingCounted(events);
    attempted, infra, synth, model := 0, 0, 0, 0;
    var todo, done: set<Key> := findingTerminal.Keys, {};
    while todo != {}
      invariant todo + done == findingTerminal.Keys && todo !! done
      invariant attempted == |AttemptedIn(events, done)|
      invariant infra == |NatureIn(events, done, HarnessInfra)|
      invariant synth == |NatureIn(events, done, SynthModel)|
      invariant model == |NatureIn(events, done, ModelNature)|
      decreases |todo|
    {
      var k :| k in todo;
      var cause := findingTerminal[k];
      NatureIsFold(events, synthByFinding, k);
      CountOneMore(events, done, k, HarnessInfra);
      CountOneMore(events, done, k, SynthModel);
      CountOneMore(events, done, k, ModelNature);
      todo, done := todo - {k}, done + {k};
      if InDenominator(cause) {
        attempted := attempted + 1;
        var nature := FoldNature(cause, if k in synthByFinding then synthByFinding[k] else []);
        match nature {
          case Some(HarnessInfra) => infra := infra + 1;
          case Some(SynthModel) => synth := synth + 1;
          case Some(ModelNature) => model := model + 1;
          case None =>
        }
      }
    }
    WholeMap(events, done);
  }

  /** `classify`: one pass over the events, one over the closed findings, then the published report. */
  method Classify(events: seq<Entry>, allowTruncated: bool) returns (r: Report)
    ensures Reports(events, allowTruncated, r)
  {
    hide FindingMap, SynthCauses, FoldNature, InDenominator, AttemptedKeys, NatureKeys;
    var findingTerminal, synthByFinding, unattributed := ReadEvents(events);
    var queued := |findingTerminal|;
    var attempted, infra, synth, model := CountNatures(events, findingTerminal, synthByFinding);
    assert queued == |FindingMap(events).Keys| by { WholeMap(events, FindingMap(events).Keys); }
    var truncated := attempted < queued;
    var share: Option<map<Nature, real>> := None;
    if !truncated || allowTruncated {
      var denom := if attempted == 0 then 1.0 else attempted as real;
      share := Some(map[HarnessInfra := infra as real / denom, SynthModel := synth as real / denom,
                        ModelNature := model as real / denom]);
    }
    r := Report(queued, attempted, truncated, share, unattributed);
  }

  // ---- what the report means ---------------------------------------------

  lemma NaturesAreDisjoint(events: seq<Entry>)
    ensures |NatureKeys(events, HarnessInfra)| + |NatureKeys(events, SynthModel)| + |NatureKeys(events, ModelNature)|
         <= |AttemptedKeys(events)|
  {
    hide FindingMap, NatureOf, AttemptedKeys;
    var a, b, c := NatureKeys(events, HarnessInfra), NatureKeys(events, SynthModel), NatureKeys(events, ModelNature);
    assert a !! b && (a + b) !! c && a + b + c <= AttemptedKeys(events);
    assert |a| + |b| + |c| == |a + b + c|;
    Subset(a + b + c, AttemptedKeys(events));
  }

  /** Published nature shares are non-negative and together at most one, on any log. */
  lemma SharesAreShares(events: seq<Entry>)
    ensures forall n :: 0.0 <= Share(events, n)
    ensures Share(events, HarnessInfra) + Share(events, SynthModel) + Share(events, ModelNature) <= 1.0
  {
    NaturesAreDisjoint(events);
    hide FindingMap, AttemptedKeys, NatureKeys;
    ThreeShares(|NatureKeys(events, HarnessInfra)| as real, |NatureKeys(events, SynthModel)| as real,
                |NatureKeys(events, ModelNature)| as real, Denominator(events) as real);
    forall n ensures 0.0 <= Share(events, n) {
      NonNegative(|NatureKeys(events, n)| as real, Denominator(events) as real);
    }
  }

  /** A share is the part of the attempted findings that carry its nature, and nothing where none was attempted. */
  lemma ShareIsThePart(events: seq<Entry>, n: Nature)
    ensures if AttemptedKeys(events) == {} then Share(events, n) == 0.0
            else Share(events, n) * |AttemptedKeys(events)| as real == |NatureKeys(events, n)| as real
  {
    hide FindingMap, InDenominator, NatureOf, AttemptedKeys;
    assert NatureKeys(events, n) <= AttemptedKeys(events);
    if AttemptedKeys(events) == {} {
      assert NatureKeys(events, n) == {};
    } else {
      Part(|NatureKeys(events, n)| as real, |AttemptedKeys(events)| as real);
    }
  }

  lemma Part(x: real, d: real)
    requires d != 0.0
    ensures x / d * d == x
  {
  }

  lemma NonNegative(x: real, d: real)
    requires 0.0 <= x && 0.0 < d
    ensures 0.0 <= x / d
  {
  }

  lemma ThreeShares(x: real, y: real, z: real, d: real)
    requires 0.0 < d && x + y + z <= d
    ensures x / d + y / d + z / d <= 1.0
  {
    assert x / d + y / d + z / d == (x + y + z) / d;
    assert (x + y + z) / d <= 1.0;
  }

  lemma Subset<T>(a: set<T>, b: set<T>)
    requires a <= b
    ensures |a| <= |b|
  {
    assert b == a + (b - a);
  }

  ghost function KeysOf(runId: string, ids: seq<string>): set<Key> {
    set id | id in ids :: (runId, id)
  }

  lemma {:induction false} KeysCount(runId: string, ids: seq<string>)
    requires Distinct(ids)
    ensures |KeysOf(runId, ids)| == |ids|
  {
    if ids != [] {
      var n := |ids| - 1;
      KeysCount(runId, ids[..n]);
      assert ids == ids[..n] + [ids[n]];
      assert KeysOf(runId, ids) == KeysOf(runId, ids[..n]) + {(runId, ids[n])};
      assert ids[n] !in ids[..n];
    }
  }

  /** On a fully attributed one-run log, a finding is in the classifier's table exactly when the log closes it,
      with the last cause the log gives it. */
  lemma {:induction false} TableIsLastTerminal(events: seq<Entry>, runId: string, model: string, fid: string)
    requires runId != [] && model != []
    requires forall e | e in events :: e.mark.Terminal? ==> e.runId == runId && e.model == model
    ensures var t := TerminalsOf(events, FindingAttempt, fid);
      && ((runId, fid) in FindingMap(events) <==> t != [])
      && (t != [] ==> FindingMap(events)[(runId, fid)] == Closed(t[|t| - 1], FINDING_CAUSES))
    ensures SynthCauses(events, (runId, fid)) == ClosedAll(TerminalsOf(events, SynthesisAttempt, fid))
    ensures forall k :: k in FindingMap(events) ==> k.0 == runId
  {
    SynthListIsClosed(events, runId, model, fid);
    hide SynthCauses, Closed, ClosedAll;
    if events != [] {
      var init, e := events[..|events| - 1], events[|events| - 1];
      TableIsLastTerminal(init, runId, model, fid);
    }
  }

  lemma {:induction false} SynthListIsClosed(events: seq<Entry>, runId: string, model: string, fid: string)
    requires runId != [] && model != []
    requires forall e | e in events :: e.mark.Terminal? ==> e.runId == runId && e.model == model
    ensures SynthCauses(events, (runId, fid)) == ClosedAll(TerminalsOf(events, SynthesisAttempt, fid))
  {
    if events != [] {
      hide Closed;
      var init, e := events[..|events| - 1], events[|events| - 1];
      SynthListIsClosed(init, runId, model, fid);
      ClosedAllAppend(TerminalsOf(init, SynthesisAttempt, fid),
                      if e.findingId == fid && e.mark.Terminal? && e.mark.level == SynthesisAttempt
                       then [e.mark.cause] else []);
    }
  }

  function ClosedAll(causes: seq<Cause>): seq<Cause> {
    if causes == [] then [] else [Closed(causes[0], SYNTHESIS_CAUSES)] + ClosedAll(causes[1..])
  }

  lemma {:induction false} ClosedAllAppend(a: seq<Cause>, b: seq<Cause>)
    ensures ClosedAll(a + b) == ClosedAll(a) + ClosedAll(b)
    ensures |b| == 1 ==> ClosedAll(b) == [Closed(b[0], SYNTHESIS_CAUSES)]
  {
    if a == [] {
      assert a + b == b;
    } else {
      assert (a + b)[1..] == a[1..] + b;
      ClosedAllAppend(a[1..], b);
    }
  }

  /** The classifier agrees with the queue that wrote the log: it reports every finding of the queue, counts as
      attempted exactly those that were started, and calls the run truncated exactly when the budget cut it. */
  lemma {:induction false} ClassifierAgreesWithTheQueue(log: seq<Entry>, runId: string, model: string,
                                                        todo: seq<string>, causes: seq<Cause>, started: nat)
    requires runId != [] && model != [] && Distinct(todo)
    requires |causes| == |todo| && Accounted(log, runId, model, todo, causes, started)
    ensures |FindingMap(log).Keys| == |todo| && |AttemptedKeys(log)| == started
    ensures |AttemptedKeys(log)| < |FindingMap(log).Keys| <==> started < |todo|
    ensures forall k | 0 <= k < |todo| ::
      (runId, todo[k]) in FindingMap(log) && FindingMap(log)[(runId, todo[k])] == causes[k]
  {
    hide FindingMap, TerminalsOf, SynthCauses;
    assert todo[..|todo|] == todo;
    forall k | 0 <= k < |todo|
      ensures (runId, todo[k]) in FindingMap(log) && FindingMap(log)[(runId, todo[k])] == causes[k]
    {
      TableIsLastTerminal(log, runId, model, todo[k]);
    }
    forall key | key in FindingMap(log) ensures key in KeysOf(runId, todo) {
      TableIsLastTerminal(log, runId, model, key.1);
      if key.1 !in todo {
        NoTerminalsYet(log, todo, FindingAttempt, key.1);
      }
    }
    assert FindingMap(log).Keys == KeysOf(runId, todo);
    KeysCount(runId, todo);
    StartedAreAttempted(log, runId, model, todo, causes, started);
    KeysCount(runId, todo[..started]);
  }

  lemma StartedAreAttempted(log: seq<Entry>, runId: string, model: string, todo: seq<string>, causes: seq<Cause>,
                            started: nat)
    requires |causes| == |todo| && Accounted(log, runId, model, todo, causes, started)
    requires FindingMap(log).Keys == KeysOf(runId, todo)
    requires forall k | 0 <= k < |todo| :: FindingMap(log)[(runId, todo[k])] == causes[k]
    ensures AttemptedKeys(log) == KeysOf(runId, todo[..started])
  {
    hide FindingMap, TerminalsOf, SynthCauses;
    forall key | key in AttemptedKeys(log) ensures key in KeysOf(runId, todo[..started]) {
      var k :| 0 <= k < |todo| && key == (runId, todo[k]);
      assert todo[..started][k] == todo[k];
    }
    forall key | key in KeysOf(runId, todo[..started]) ensures key in AttemptedKeys(log) {
      var k :| 0 <= k < started && key == (runId, todo[..started][k]);
      assert todo[k] == todo[..started][k];
    }
  }

  // ---- natures, said of the log ------------------------------------------

  /** A fully attributed terminal event of this level for this run and finding. */
  predicate Tells(e: Entry, key: Key, level: Level) {
    && e.mark.Terminal? && e.mark.level == level && e.runId == key.0 && e.findingId == key.1
    && e.runId != [] && e.model != []
  }

  predicate TellsFailure(e: Entry, key: Key) {
    Tells(e, key, SynthesisAttempt) && e.mark.cause != Synthesized
  }

  predicate LastTold(events: seq<Entry>, y: nat, key: Key) {
    && y < |events| && Tells(events[y], key, FindingAttempt)
    && forall j | y < j < |events| :: !Tells(events[j], key, FindingAttempt)
  }

  predicate LastFailure(events: seq<Entry>, x: nat, key: Key) {
    && x < |events| && TellsFailure(events[x], key)
    && forall j | x < j < |events| :: !TellsFailure(events[j], key)
  }

  predicate NoFailure(events: seq<Entry>, key: Key) {
    forall j | 0 <= j < |events| :: !TellsFailure(events[j], key)
  }

  lemma {:induction false} TableOnTheLog(events: seq<Entry>, key: Key)
    ensures key in FindingMap(events) <==> exists y :: 0 <= y < |events| && Tells(events[y], key, FindingAttempt)
  {
    hide Closed;
    if events != [] {
      var init, last := events[..|events| - 1], events[|events| - 1];
      TableOnTheLog(init, key);
      assert forall y | 0 <= y < |init| :: init[y] == events[y];
      assert Tells(last, key, FindingAttempt) ==> Tells(events[|init|], key, FindingAttempt);
    }
  }

  lemma {:induction false} TableHoldsTheLast(events: seq<Entry>, key: Key, y: nat)
    requires LastTold(events, y, key)
    ensures key in FindingMap(events) && FindingMap(events)[key] == Closed(events[y].mark.cause, FINDING_CAUSES)
    decreases |events|
  {
    hide Closed;
    var n := |events| - 1;
    if y < n {
      assert LastTold(events[..n], y, key) && !Tells(events[n], key, FindingAttempt);
      TableHoldsTheLast(events[..n], key, y);
    }
  }

  lemma {:induction false} FailuresAppend(a: seq<Cause>, b: seq<Cause>)
    ensures Failures(a + b) == Failures(a) + Failures(b)
  {
    if a == [] {
      assert a + b == b;
    } else {
      assert (a + b)[1..] == a[1..] + b;
      FailuresAppend(a[1..], b);
    }
  }

  /** What one event adds to the failed syntheses of its finding. */
  lemma FailureOfOne(e: Entry, key: Key)
    ensures Failures(SynthAdds(e, key))
         == if TellsFailure(e, key) then [Closed(e.mark.cause, SYNTHESIS_CAUSES)] else []
  {
    var adds := SynthAdds(e, key);
    if adds != [] {
      assert adds[1..] == [];
    }
  }

  lemma FailuresNext(events: seq<Entry>, key: Key)
    requires events != []
    ensures var init, last := events[..|events| - 1], events[|events| - 1];
      Failures(SynthCauses(events, key)) == Failures(SynthCauses(init, key))
        + if TellsFailure(last, key) then [Closed(last.mark.cause, SYNTHESIS_CAUSES)] else []
  {
    hide Closed, Failures, TellsFailure, SynthAdds;
    var init, last := events[..|events| - 1], events[|events| - 1];
    FailuresAppend(SynthCauses(init, key), SynthAdds(last, key));
    FailureOfOne(last, key);
  }

  lemma {:induction false} NoFailureOnTheLog(events: seq<Entry>, key: Key)
    ensures Failures(SynthCauses(events, key)) == [] <==> NoFailure(events, key)
  {
    if events == [] {
      NothingFailed();
    } else {
      hide Closed, Failures, TellsFailure, SynthCauses;
      var n := |events| - 1;
      FailuresNext(events, key);
      NoFailureOnTheLog(events[..n], key);
      assert forall y | 0 <= y < n :: events[..n][y] == events[y];
      assert NoFailure(events, key) <==> NoFailure(events[..n], key) && !TellsFailure(events[n], key);
    }
  }

  lemma {:induction false} LastFailureOnTheLog(events: seq<Entry>, key: Key, x: nat)
    requires LastFailure(events, x, key)
    ensures events[x].mark.Terminal?
    ensures var f := Failures(SynthCauses(events, key));
      f != [] && f[|f| - 1] == Closed(events[x].mark.cause, SYNTHESIS_CAUSES)
    decreases |events|
  {
    hide Closed, Failures, SynthCauses;
    FailuresNext(events, key);
    var n := |events| - 1;
    if x < n {
      assert LastFailure(events[..n], x, key) && !TellsFailure(events[n], key);
      LastFailureOnTheLog(events[..n], key, x);
    }
  }

  lemma NothingFailed()
    ensures Failures([]) == []
  {
  }

  lemma CountedUnder(events: seq<Entry>, key: Key, n: Nature)
    requires key in FindingMap(events)
    ensures key in NatureKeys(events, n) <==>
      InDenominator(FindingMap(events)[key]) && FoldNature(FindingMap(events)[key], SynthCauses(events, key)) == Some(n)
  {
    hide FindingMap, SynthCauses, FoldNature;
  }

  /** Who a closed finding is charged to, on any log: nobody if it is proved or was not attempted; the nature of its
      last failed synthesis if there is one; its own last cause's nature otherwise. An unknown cause has no nature. */
  lemma NatureOnTheLog(events: seq<Entry>, key: Key, y: nat, n: Nature)
    requires LastTold(events, y, key)
    ensures var c := events[y].mark.cause;
      && (c in {Proved, NotAttemptedBudget} ==> key !in NatureKeys(events, n))
      && (c !in {Proved, NotAttemptedBudget} && NoFailure(events, key) ==>
            (key in NatureKeys(events, n) <==> c in FINDING_CAUSES && CauseNature(c) == Some(n)))
      && (c !in {Proved, NotAttemptedBudget} ==>
            forall x: nat | LastFailure(events, x, key) ::
              var f := events[x].mark.cause;
              key in NatureKeys(events, n) <==> f in SYNTHESIS_CAUSES && CauseNature(f) == Some(n))
  {
    TableHoldsTheLast(events, key, y);
    NoFailureOnTheLog(events, key);
    CountedUnder(events, key, n);
    hide FindingMap, SynthCauses, Failures, NoFailure, LastTold, LastFailure, NatureKeys;
    forall x: nat | x < |events| && LastFailure(events, x, key) && events[y].mark.cause !in {Proved, NotAttemptedBudget}
      ensures events[x].mark.Terminal?
      ensures var f := events[x].mark.cause;
        key in NatureKeys(events, n) <==> f in SYNTHESIS_CAUSES && CauseNature(f) == Some(n)
    {
      FailureIsCharged(events, key, y, x, n);
    }
    FailureInLog(events, key);
  }

  lemma FailureInLog(events: seq<Entry>, key: Key)
    ensures forall x: nat | LastFailure(events, x, key) :: x < |events| && events[x].mark.Terminal?
  {
  }

  lemma FailureIsCharged(events: seq<Entry>, key: Key, y: nat, x: nat, n: Nature)
    requires LastTold(events, y, key) && LastFailure(events, x, key)
    requires events[y].mark.cause !in {Proved, NotAttemptedBudget}
    ensures events[x].mark.Terminal?
    ensures var f := events[x].mark.cause;
      key in NatureKeys(events, n) <==> f in SYNTHESIS_CAUSES && CauseNature(f) == Some(n)
  {
    TableHoldsTheLast(events, key, y);
    CountedUnder(events, key, n);
    LastFailureOnTheLog(events, key, x);
    hide FindingMap, SynthCauses, Failures, NatureKeys;
  }

  /** A finding the log does not close is in no nature's count. */
  lemma UntoldHasNoNature(events: seq<Entry>, key: Key, n: Nature)
    requires forall y | 0 <= y < |events| :: !Tells(events[y], key, FindingAttempt)
    ensures key !in NatureKeys(events, n)
  {
    hide FindingMap, NatureOf;
    TableOnTheLog(events, key);
  }

  /** On the log of a queue run, a finding whose base could not be synthesized is charged to what failed there, never to
      the model for its own outcome. */
  lemma UnbuiltBaseIsCharged(log: seq<Entry>, runId: string, model: string, todo: seq<string>, causes: seq<Cause>,
                             started: nat, k: nat, env: FindingEnv, s: Settings, e: End)
    requires runId != [] && model != [] && Distinct(todo) && |causes| == |todo|
    requires Accounted(log, runId, model, todo, causes, started) && k < started
    requires EndsAsScripted(env, s, e) && causes[k] == FindingCause(e.outcome)
    requires TerminalsOf(log, SynthesisAttempt, todo[k]) == e.synthesis
    requires Grounded(env, s) && env.missingTypes && !s.noSynthesis && !YieldsBase(env.synth)
    ensures |e.synthesis| == 1 && SynthesisCloses(env.synth, e.synthesis[0])
    ensures forall n :: (runId, todo[k]) in NatureKeys(log, n) <==> CauseNature(e.synthesis[0]) == Some(n)
    ensures (runId, todo[k]) !in NatureKeys(log, ModelNature)
  {
    hide TerminalsOf, FindingMap, SynthCauses, FindingSettlesUnbuilt, BuildCloses, LastBuild, RepairedAt;
    var key := (runId, todo[k]);
    var f := e.synthesis[0];
    FailedSynthesisCauses(env.synth, f);
    hide SynthesisCloses, YieldsBase;
    TableIsLastTerminal(log, runId, model, todo[k]);
    assert ClosedAll([f]) == [f] by { assert [f][1..] == []; }
    assert Failures([f]) == [f] by { assert [f][1..] == []; }
    assert causes[k] in {BaseInsufficientCause, LookupFailedCause};
    ClassifierAgreesWithTheQueue(log, runId, model, todo, causes, started);
  }

  lemma FailedSynthesisCauses(env: SynthEnv, c: Cause)
    requires SynthesisCloses(env, c) && !YieldsBase(env)
    ensures c in SYNTHESIS_CAUSES && c != Synthesized && CauseNature(c) != Some(ModelNature)
  {
  }
}
