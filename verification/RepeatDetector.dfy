/** The repeat-revert detector, the mechanism baseline and the prank reader
    (audit_agent/proof/scaffold_reachability.py). */
module RepeatDetector {
  import opened Options

  datatype CallSite = CallSite(contract: string, callee: string)

  /** What one attempt's forge output says about its revert. */
  datatype Evidence = Evidence(site: Option<CallSite>, selector: Option<string>, caller: Option<string>)

  datatype RepeatState = RepeatState(
    lastSite: Option<CallSite>, lastSelector: Option<string>, lastCaller: Option<string>,
    streak: nat, confirmedCallerChange: bool)

  const START: RepeatState := RepeatState(None, None, None, 0, false)

  predicate SameCaller(a: Option<string>, b: Option<string>) {
    a.Some? && b.Some? && a == b
  }

  predicate ConfirmedDiff(a: Option<string>, b: Option<string>) {
    a.Some? && b.Some? && a != b
  }

  /** `update_repeat`, without the threshold. */
  function UpdateRepeat(s: RepeatState, e: Evidence): RepeatState {
    if e.site.None? then START
    else if s.lastSite.Some? && e.site == s.lastSite && e.selector.Some? && e.selector == s.lastSelector then
      if SameCaller(e.caller, s.lastCaller) then RepeatState(e.site, e.selector, e.caller, 1, false)
      else RepeatState(e.site, e.selector, e.caller, s.streak + 1,
                       s.confirmedCallerChange || ConfirmedDiff(e.caller, s.lastCaller))
    else RepeatState(e.site, e.selector, e.caller, if e.selector.Some? then 1 else 0, false)
  }

  function Fold(history: seq<Evidence>): RepeatState {
    if history == [] then START else UpdateRepeat(Fold(history[..|history| - 1]), history[|history| - 1])
  }

  /** Does the update's caller act on it? */
  predicate Fires(history: seq<Evidence>, threshold: int) {
    Fold(history).streak >= threshold
  }

  // ---- what the counters mean over a whole history ------------------------

  /** `b` repeats `a`: same known call site, same known selector, not the same known caller. */
  predicate Repeats(a: Evidence, b: Evidence) {
    a.site == b.site && a.selector == b.selector && (a.caller.None? || a.caller != b.caller)
  }

  predicate RepeatsPrevious(history: seq<Evidence>, j: int) {
    0 < j < |history| && Repeats(history[j - 1], history[j])
  }

  predicate ChangesCaller(history: seq<Evidence>, j: int) {
    && 0 < j < |history| && history[j - 1].caller.Some? && history[j].caller.Some?
    && history[j - 1].caller.value != history[j].caller.value
  }

  /** The last `k` entries name a call site and a selector, and each repeats the one before it. */
  predicate IsStreak(history: seq<Evidence>, k: nat) {
    && k <= |history|
    && (forall j | |history| - k <= j < |history| :: history[j].site.Some? && history[j].selector.Some?)
    && (forall j | |history| - k < j < |history| :: RepeatsPrevious(history, j))
  }

  /** Some adjacent pair among the last `k` entries has two known, different callers. */
  predicate CallerChanged(history: seq<Evidence>, k: nat)
    requires k <= |history|
  {
    exists j | |history| - k < j < |history| :: ChangesCaller(history, j)
  }

  lemma StreakOfExtension(h: seq<Evidence>, e: Evidence, k: nat)
    ensures IsStreak(h + [e], k) <==>
      k == 0 || (e.site.Some? && e.selector.Some? && (k == 1 || (IsStreak(h, k - 1) && Repeats(h[|h| - 1], e))))
  {
    hide Repeats;
    var g := h + [e];
    assert g[|h|] == e;
    assert forall j | 0 <= j < |h| :: g[j] == h[j];
    assert forall j :: j < |h| ==> (RepeatsPrevious(g, j) <==> RepeatsPrevious(h, j));
    if k >= 2 && IsStreak(g, k) {
      assert RepeatsPrevious(g, |h|);
    }
    if h != [] && Repeats(h[|h| - 1], e) {
      assert RepeatsPrevious(g, |h|);
    }
  }

  lemma ChangeOfExtension(h: seq<Evidence>, e: Evidence, k: nat)
    requires k < |h| + 1
    ensures CallerChanged(h + [e], k + 1) <==>
      CallerChanged(h, k) || (k >= 1 && ConfirmedDiff(h[|h| - 1].caller, e.caller))
  {
    var g := h + [e];
    assert g[|h|] == e;
    assert forall j | 0 <= j < |h| :: g[j] == h[j];
    assert forall j :: j < |h| ==> (ChangesCaller(g, j) <==> ChangesCaller(h, j));
    assert h != [] ==> (ChangesCaller(g, |h|) <==> ConfirmedDiff(h[|h| - 1].caller, e.caller));
    if CallerChanged(h, k) {
      var j :| |h| - k < j < |h| && ChangesCaller(h, j);
      assert ChangesCaller(g, j);
    }
    if k >= 1 && ConfirmedDiff(h[|h| - 1].caller, e.caller) {
      assert ChangesCaller(g, |h|);
    }
  }

  /** The state remembers the last entry. */
  lemma LastEntry(h: seq<Evidence>)
    requires h != []
    ensures var s, e := Fold(h), h[|h| - 1];
      s.lastSite == e.site && (e.site.Some? ==> s.lastSelector == e.selector && s.lastCaller == e.caller)
  {
  }

  /** Over any evidence: the streak is the length of the longest suffix in which one known call site and selector
      repeats with no two adjacent entries by the same known caller, and a caller change is confirmed exactly when
      that suffix has an adjacent pair of known, different callers. */
  lemma {:induction false} StreakIsLongestSuffix(h: seq<Evidence>)
    ensures Fold(h).streak <= |h|
    ensures forall k: nat :: IsStreak(h, k) <==> k <= Fold(h).streak
    ensures Fold(h).confirmedCallerChange <==> CallerChanged(h, Fold(h).streak)
  {
    if h != [] {
      var init, e := h[..|h| - 1], h[|h| - 1];
      assert h == init + [e];
      StreakIsLongestSuffix(init);
      forall k: nat ensures IsStreak(h, k) <==>
        k == 0 || (e.site.Some? && e.selector.Some? &&
                   (k == 1 || (IsStreak(init, k - 1) && Repeats(init[|init| - 1], e))))
      {
        StreakOfExtension(init, e, k);
      }
      var s, t := Fold(init), Fold(h);
      if init != [] {
        LastEntry(init);
        assert IsStreak(init, 1) <==> init[|init| - 1].site.Some? && init[|init| - 1].selector.Some?;
      }
      if t.streak == s.streak + 1 {
        ChangeOfExtension(init, e, s.streak);
      }
    }
  }

  /** The hint fires exactly when the last `threshold` entries form a streak. */
  lemma FiresIffLastEntriesRepeat(h: seq<Evidence>, threshold: nat)
    ensures Fires(h, threshold) <==> IsStreak(h, threshold)
  {
    StreakIsLongestSuffix(h);
  }

  // ---- mechanism baseline ------------------------------------------------

  /** One attempt: did it compile, which of the finding's methods it called, and whether there were any to check. */
  datatype Mechanism = Mechanism(compiled: bool, called: set<string>, checked: bool)
  datatype Baseline = Baseline(baseline: set<string>, lastCalled: Option<set<string>>)

  /** `update_mechanism_baseline`: the new state, and the dropped methods a reminder names, if one is given. */
  function UpdateBaseline(s: Baseline, m: Mechanism): (Baseline, Option<set<string>>) {
    if !m.compiled then (s, None)
    else
      var dropped := s.baseline - m.called;
      (Baseline(s.baseline + m.called, Some(m.called)),
       if m.checked && s.lastCalled.Some? && dropped != {} then Some(dropped) else None)
  }

  function FoldBaseline(ms: seq<Mechanism>): Baseline {
    if ms == [] then Baseline({}, None) else UpdateBaseline(FoldBaseline(ms[..|ms| - 1]), ms[|ms| - 1]).0
  }

  /** Some compiled attempt among the first `n` called `name`. */
  predicate CalledBefore(ms: seq<Mechanism>, n: nat, name: string)
    requires n <= |ms|
  {
    exists k | 0 <= k < n :: ms[k].compiled && name in ms[k].called
  }

  predicate IsLastCompiled(ms: seq<Mechanism>, k: nat) {
    k < |ms| && ms[k].compiled && forall j | k < j < |ms| :: !ms[j].compiled
  }

  lemma {:induction false} LastCalledIs(ms: seq<Mechanism>, k: nat)
    requires IsLastCompiled(ms, k)
    ensures FoldBaseline(ms).lastCalled == Some(ms[k].called)
    decreases |ms|
  {
    var n := |ms| - 1;
    if k < n {
      LastCalledIs(ms[..n], k);
    }
  }

  /** The baseline is every method some compiled attempt called, and the last called set is that of the last compiled
      attempt. */
  lemma {:induction false} BaselineIsEverythingCalled(ms: seq<Mechanism>)
    ensures forall name :: name in FoldBaseline(ms).baseline <==> CalledBefore(ms, |ms|, name)
    ensures FoldBaseline(ms).lastCalled.Some? <==> exists k :: 0 <= k < |ms| && ms[k].compiled
    ensures forall k: nat | IsLastCompiled(ms, k) :: FoldBaseline(ms).lastCalled == Some(ms[k].called)
  {
    BaselineNames(ms);
    forall k: nat | IsLastCompiled(ms, k) ensures FoldBaseline(ms).lastCalled == Some(ms[k].called) {
      LastCalledIs(ms, k);
    }
  }

  lemma {:induction false} BaselineNames(ms: seq<Mechanism>)
    ensures forall name :: name in FoldBaseline(ms).baseline <==> CalledBefore(ms, |ms|, name)
    ensures FoldBaseline(ms).lastCalled.Some? <==> exists k :: 0 <= k < |ms| && ms[k].compiled
  {
    if ms != [] {
      var n := |ms| - 1;
      var init := ms[..n];
      BaselineNames(init);
      assert forall k | 0 <= k < n :: init[k] == ms[k];
      forall name ensures CalledBefore(ms, |ms|, name) <==>
        CalledBefore(init, n, name) || (ms[n].compiled && name in ms[n].called)
      {
        if CalledBefore(init, n, name) {
          var k :| 0 <= k < n && init[k].compiled && name in init[k].called;
          assert ms[k].compiled && name in ms[k].called;
        }
        if ms[n].compiled && name in ms[n].called {
          assert CalledBefore(ms, |ms|, name);
        }
      }
    }
  }

  /** A reminder at attempt `n` names exactly the methods that some earlier compiled attempt called and this compiled
      attempt does not, and it is given whenever there are any to name and methods were checked. */
  lemma ReminderNamesWhatWasDropped(ms: seq<Mechanism>, m: Mechanism)
    ensures var r := UpdateBaseline(FoldBaseline(ms), m).1;
      && (r.Some? <==> m.compiled && m.checked && exists name :: CalledBefore(ms, |ms|, name) && name !in m.called)
      && (r.Some? ==> forall name :: name in r.value <==> CalledBefore(ms, |ms|, name) && name !in m.called)
  {
    BaselineIsEverythingCalled(ms);
    var s := FoldBaseline(ms);
    if name :| CalledBefore(ms, |ms|, name) && name !in m.called {
      assert name in s.baseline - m.called;
      var k :| 0 <= k < |ms| && ms[k].compiled && name in ms[k].called;
      assert s.lastCalled.Some?;
    }
    if s.baseline - m.called != {} {
      var name :| name in s.baseline - m.called;
      assert CalledBefore(ms, |ms|, name);
    }
  }

  // ---- the armed caller --------------------------------------------------

  /** A statement of the proof as the prank reader classifies it, first match first. */
  datatype Stmt = StartPrank(who: string) | StopPrank | OneShotPrank(who: string) | TargetCall | OtherCall | Inert

  /** A one-shot prank at `j` still armed when statement `m` runs. */
  predicate OneShotArmed(stmts: seq<Stmt>, j: nat, m: nat)
    requires m <= |stmts|
  {
    && j < m && stmts[j].OneShotPrank?
    && forall k | j < k < m :: !stmts[k].OneShotPrank? && !stmts[k].OtherCall?
  }

  /** A started prank at `j` neither stopped nor replaced when statement `m` runs. */
  predicate PersistentArmed(stmts: seq<Stmt>, j: nat, m: nat)
    requires m <= |stmts|
  {
    && j < m && stmts[j].StartPrank?
    && forall k | j < k < m :: !stmts[k].StartPrank? && !stmts[k].StopPrank?
  }

  /** How one more statement changes who is armed. */
  lemma ArmedStep(stmts: seq<Stmt>, j: nat, m: nat, n: nat)
    requires m < |stmts| && n == m + 1
    ensures OneShotArmed(stmts, j, n) <==>
      (j == m && stmts[m].OneShotPrank?)
      || (OneShotArmed(stmts, j, m) && !stmts[m].OneShotPrank? && !stmts[m].OtherCall?)
    ensures PersistentArmed(stmts, j, n) <==>
      (j == m && stmts[m].StartPrank?)
      || (PersistentArmed(stmts, j, m) && !stmts[m].StartPrank? && !stmts[m].StopPrank?)
  {
  }

  lemma NobodyArmed(stmts: seq<Stmt>, m: nat, n: nat)
    requires m < |stmts| && n == m + 1
    ensures (forall j: nat :: !OneShotArmed(stmts, j, m)) && !stmts[m].OneShotPrank?
        ==> forall j: nat :: !OneShotArmed(stmts, j, n)
    ensures stmts[m].OtherCall? ==> forall j: nat :: !OneShotArmed(stmts, j, n)
    ensures (forall j: nat :: !PersistentArmed(stmts, j, m)) && !stmts[m].StartPrank?
        ==> forall j: nat :: !PersistentArmed(stmts, j, n)
    ensures stmts[m].StopPrank? ==> forall j: nat :: !PersistentArmed(stmts, j, n)
  {
    forall j: nat
      ensures OneShotArmed(stmts, j, n) ==> OneShotArmed(stmts, j, m) || stmts[m].OneShotPrank?
      ensures PersistentArmed(stmts, j, n) ==> PersistentArmed(stmts, j, m) || stmts[m].StartPrank?
      ensures OneShotArmed(stmts, j, n) ==> !stmts[m].OtherCall?
      ensures PersistentArmed(stmts, j, n) ==> !stmts[m].StopPrank?
    {
      ArmedStep(stmts, j, m, n);
    }
  }

  predicate NoTarget(stmts: seq<Stmt>, m: nat)
    requires m <= |stmts|
  {
    forall k | 0 <= k < m :: !stmts[k].TargetCall?
  }

  /** `caller` is who is pranked when statement `m` runs: the armed one-shot, if any, else the persistent one. */
  ghost predicate IsCaller(stmts: seq<Stmt>, m: nat, caller: Option<string>)
    requires m <= |stmts|
  {
    && (forall j: nat :: OneShotArmed(stmts, j, m) ==> caller == Some(stmts[j].who))
    && ((forall j: nat :: !OneShotArmed(stmts, j, m)) ==>
         forall j: nat :: PersistentArmed(stmts, j, m) ==> caller == Some(stmts[j].who))
    && ((forall j: nat :: !OneShotArmed(stmts, j, m) && !PersistentArmed(stmts, j, m)) ==> caller == None)
  }

  /** The loop's one-shot variable, and the statement `o` that armed it. */
  ghost predicate OneShotKnown(stmts: seq<Stmt>, m: nat, o: int, oneShot: Option<string>)
    requires m <= |stmts|
  {
    if o < 0 then oneShot == None && forall j: nat :: !OneShotArmed(stmts, j, m)
    else OneShotArmed(stmts, o, m) && oneShot == Some(stmts[o].who)
  }

  ghost predicate PersistentKnown(stmts: seq<Stmt>, m: nat, p: int, persistent: Option<string>)
    requires m <= |stmts|
  {
    if p < 0 then persistent == None && forall j: nat :: !PersistentArmed(stmts, j, m)
    else PersistentArmed(stmts, p, m) && persistent == Some(stmts[p].who)
  }

  lemma OneShotStep(stmts: seq<Stmt>, m: nat, o: int, oneShot: Option<string>)
    requires m < |stmts| && OneShotKnown(stmts, m, o, oneShot)
    ensures stmts[m].OneShotPrank? ==> OneShotKnown(stmts, m + 1, m, Some(stmts[m].who))
    ensures stmts[m].OtherCall? ==> OneShotKnown(stmts, m + 1, -1, None)
    ensures !stmts[m].OneShotPrank? && !stmts[m].OtherCall? ==> OneShotKnown(stmts, m + 1, o, oneShot)
  {
    NobodyArmed(stmts, m, m + 1);
  }

  lemma PersistentStep(stmts: seq<Stmt>, m: nat, p: int, persistent: Option<string>)
    requires m < |stmts| && PersistentKnown(stmts, m, p, persistent)
    ensures stmts[m].StartPrank? ==> PersistentKnown(stmts, m + 1, m, Some(stmts[m].who))
    ensures stmts[m].StopPrank? ==> PersistentKnown(stmts, m + 1, -1, None)
    ensures !stmts[m].StartPrank? && !stmts[m].StopPrank? ==> PersistentKnown(stmts, m + 1, p, persistent)
  {
    NobodyArmed(stmts, m, m + 1);
  }

  lemma KnownCaller(stmts: seq<Stmt>, m: nat, o: int, oneShot: Option<string>, p: int, persistent: Option<string>)
    requires m <= |stmts| && OneShotKnown(stmts, m, o, oneShot) && PersistentKnown(stmts, m, p, persistent)
    ensures IsCaller(stmts, m, if oneShot.Some? then oneShot else persistent)
  {
  }

  lemma FirstTarget(stmts: seq<Stmt>, m: nat)
    requires m < |stmts| && NoTarget(stmts, m)
    ensures !stmts[m].TargetCall? ==> NoTarget(stmts, m + 1)
    ensures stmts[m].TargetCall? ==> forall n: nat | m < n <= |stmts| :: !NoTarget(stmts, n)
    ensures forall n: nat | n < m :: !stmts[n].TargetCall?
  {
  }

  /** `extract_caller_expr`: who makes the first call of the target method. */
  method ExtractCaller(stmts: seq<Stmt>) returns (caller: Option<string>)
    ensures NoTarget(stmts, |stmts|) ==> caller == None
    ensures forall m: nat :: m < |stmts| && NoTarget(stmts, m) && stmts[m].TargetCall? ==> IsCaller(stmts, m, caller)
  {
    hide OneShotKnown, PersistentKnown, IsCaller, NoTarget;
    var persistent, oneShot: Option<string> := None, None;
    ghost var p, o: int := -1, -1;
    NobodyYet(stmts);
    for m := 0 to |stmts|
      invariant NoTarget(stmts, m)
      invariant OneShotKnown(stmts, m, o, oneShot) && PersistentKnown(stmts, m, p, persistent)
    {
      OneShotStep(stmts, m, o, oneShot);
      PersistentStep(stmts, m, p, persistent);
      FirstTarget(stmts, m);
      match stmts[m] {
        case StartPrank(who) =>
          persistent, p := Some(who), m;
        case StopPrank =>
          persistent, p := None, -1;
        case OneShotPrank(who) =>
          oneShot, o := Some(who), m;
        case TargetCall =>
          KnownCaller(stmts, m, o, oneShot, p, persistent);
          caller := if oneShot.Some? then oneShot else persistent;
          return;
        case OtherCall =>
          oneShot, o := None, -1;
        case Inert =>
      }
    }
    NoTargetAtAll(stmts);
    caller := None;
  }

  lemma NobodyYet(stmts: seq<Stmt>)
    ensures NoTarget(stmts, 0) && OneShotKnown(stmts, 0, -1, None) && PersistentKnown(stmts, 0, -1, None)
  {
  }

  lemma NoTargetAtAll(stmts: seq<Stmt>)
    requires NoTarget(stmts, |stmts|)
    ensures forall m: nat | m < |stmts| :: !stmts[m].TargetCall?
  {
  }
}
