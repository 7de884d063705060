/** Severity correction and combination of findings (audit_agent/planner/stage3.py, guardrails/severity.py). Findings
    are objects whose severity and links are assigned in place. */
module Stage3 {
  import opened Options
  import opened Text
  import opened InterferenceGraph

  datatype Severity = Informational | Low | Medium | High | Critical

  function Rank(s: Severity): nat {
    match s
    case Informational => 0
    case Low => 1
    case Medium => 2
    case High => 3
    case Critical => 4
  }

  /** What one finding says at one moment. */
  datatype Snap = Snap(id: string, location: string, preconditions: map<int, bool>, mitigations: seq<string>,
                       severity: Severity, combinedWith: seq<string>)

  /** A state interference graph, read only. */
  type Sig = map<string, Touched>

  class Finding {
    const id: string
    const location: string
    const preconditions: map<int, bool>
    const mitigations: seq<string>
    var severity: Severity
    var combinedWith: seq<string>

    constructor (s: Snap)
      ensures View() == s
    {
      id, location, preconditions, mitigations := s.id, s.location, s.preconditions, s.mitigations;
      severity, combinedWith := s.severity, s.combinedWith;
    }

    function View(): Snap
      reads this
    {
      Snap(id, location, preconditions, mitigations, severity, combinedWith)
    }
  }

  // ---- severity ----------------------------------------------------------

  function ActivePreconditions(s: Snap): nat {
    |set k | k in s.preconditions && s.preconditions[k]|
  }

  predicate Mitigated(s: Snap) {
    |s.mitigations| > 0
  }

  /** `check_severity`: the corrected severity, if any. */
  function CheckSeverity(s: Snap): Option<Severity> {
    if Mitigated(s) && Rank(s.severity) > Rank(Medium) then Some(Medium)
    else if ActivePreconditions(s) >= 4 && !Mitigated(s) && Rank(s.severity) < Rank(High) then Some(High)
    else None
  }

  function Corrected(s: Snap): Snap {
    var c := CheckSeverity(s);
    if c.Some? then s.(severity := c.value) else s
  }

  /** A severity a finding may end with: at most medium when mitigated, at least high on four or more preconditions. */
  predicate Fits(s: Snap) {
    && (s.mitigations != [] ==> s.severity in {Informational, Low, Medium})
    && (s.mitigations == [] && |set k | k in s.preconditions && s.preconditions[k]| >= 4 ==>
          s.severity in {High, Critical})
  }

  /** The verdict corrects exactly the severities that do not fit, and by no more than it takes. */
  lemma CorrectionIsLeastChange(s: Snap, other: Severity)
    ensures Fits(Corrected(s))
    ensures CheckSeverity(s).None? <==> Fits(s)
    ensures Fits(s.(severity := other)) && Rank(other) <= Rank(s.severity)
            ==> Rank(other) <= Rank(Corrected(s).severity)
    ensures Fits(s.(severity := other)) && Rank(other) >= Rank(s.severity)
            ==> Rank(other) >= Rank(Corrected(s).severity)
  {
    assert ActivePreconditions(s.(severity := other)) == ActivePreconditions(s);
    assert ActivePreconditions(Corrected(s)) == ActivePreconditions(s);
  }

  // ---- groups and interaction --------------------------------------------

  function FileOf(s: Snap): string {
    SplitOn(s.location, ':')[0]
  }

  function FunctionOf(s: Snap): string {
    var parts := SplitOn(s.location, ':');
    parts[|parts| - 1]
  }

  predicate Inside(g: seq<nat>, n: nat) {
    forall k | 0 <= k < |g| :: g[k] < n
  }

  /** Positions of the findings of one file, in order. */
  function GroupOf(fs: seq<Snap>, file: string, n: nat): (g: seq<nat>)
    requires n <= |fs|
    ensures forall i :: i in g <==> 0 <= i < n && FileOf(fs[i]) == file
    ensures Inside(g, n)
  {
    if n == 0 then [] else
      var init := GroupOf(fs, file, n - 1);
      if FileOf(fs[n - 1]) == file then init + [n - 1] else init
  }

  function Group(fs: seq<Snap>, file: string): (g: seq<nat>)
    ensures forall i :: i in g <==> 0 <= i < |fs| && FileOf(fs[i]) == file
    ensures Inside(g, |fs|)
  {
    GroupOf(fs, file, |fs|)
  }

  /** Without a graph for the file, everything in it interacts; with one, functions that interfere do. */
  predicate Related(fs: seq<Snap>, sigs: map<string, Sig>, i: nat, j: nat)
    requires i < |fs| && j < |fs|
  {
    FileOf(fs[i]) !in sigs
    || (var sig, a, b := sigs[FileOf(fs[i])], FunctionOf(fs[i]), FunctionOf(fs[j]);
        a in sig && b in sig && Clash(sig[a], sig[b]))
  }

  predicate Interacts(fs: seq<Snap>, sigs: map<string, Sig>, i: nat, j: nat)
    requires i < |fs| && j < |fs|
  {
    i != j && FileOf(fs[i]) == FileOf(fs[j]) && Related(fs, sigs, i, j)
  }

  lemma InteractsIsSymmetric(fs: seq<Snap>, sigs: map<string, Sig>, i: nat, j: nat)
    requires i < |fs| && j < |fs|
    ensures Interacts(fs, sigs, i, j) <==> Interacts(fs, sigs, j, i)
  {
    hide FileOf, FunctionOf;
  }

  /** Ids of the members of `g` that interact with `i`. */
  function Links(fs: seq<Snap>, sigs: map<string, Sig>, i: nat, g: seq<nat>): seq<string>
    requires i < |fs| && Inside(g, |fs|)
  {
    if g == [] then [] else
      var init := Links(fs, sigs, i, g[..|g| - 1]);
      if Interacts(fs, sigs, i, g[|g| - 1]) then init + [fs[g[|g| - 1]].id] else init
  }

  predicate Severe(s: Snap) {
    Rank(s.severity) >= Rank(High) && !Mitigated(s)
  }

  /** Severe, and interacting with another severe finding. */
  predicate Chained(fs: seq<Snap>, sigs: map<string, Sig>, i: nat)
    requires i < |fs|
  {
    Severe(fs[i]) && exists j :: 0 <= j < |fs| && Severe(fs[j]) && Interacts(fs, sigs, i, j)
  }

  predicate Grouped(fs: seq<Snap>, i: nat)
    requires i < |fs|
  {
    |Group(fs, FileOf(fs[i]))| >= 2
  }

  // ---- the result, finding by finding ------------------------------------

  function AllCorrected(fs: seq<Snap>): (r: seq<Snap>)
    ensures |r| == |fs|
  {
    seq(|fs|, i requires 0 <= i < |fs| => Corrected(fs[i]))
  }

  /** Second pass on corrected findings. */
  function Combined(fs: seq<Snap>, sigs: map<string, Sig>, i: nat): Snap
    requires i < |fs|
  {
    fs[i].(severity := if Chained(fs, sigs, i) then Critical else fs[i].severity,
           combinedWith := if Grouped(fs, i) then Links(fs, sigs, i, Group(fs, FileOf(fs[i]))) else fs[i].combinedWith)
  }

  function AllCombined(fs: seq<Snap>, sigs: map<string, Sig>): (r: seq<Snap>)
    ensures |r| == |fs|
  {
    seq(|fs|, i requires 0 <= i < |fs| => Combined(fs, sigs, i))
  }

  function Synthesis(fs: seq<Snap>, sigs: map<string, Sig>): (r: seq<Snap>)
    ensures |r| == |fs|
  {
    AllCombined(AllCorrected(fs), sigs)
  }

  // ---- properties of the result ------------------------------------------

  /** Chaining never concerns exactly one finding: whoever `i` is chained to is chained too. */
  lemma NeverChainedAlone(fs: seq<Snap>, sigs: map<string, Sig>, i: nat) returns (j: nat)
    requires i < |fs| && Chained(fs, sigs, i)
    ensures j < |fs| && j != i && FileOf(fs[j]) == FileOf(fs[i]) && Chained(fs, sigs, j) && Grouped(fs, i)
  {
    hide FileOf, FunctionOf, Related, GroupOf;
    j :| 0 <= j < |fs| && Severe(fs[j]) && Interacts(fs, sigs, i, j);
    InteractsIsSymmetric(fs, sigs, i, j);
    var g := Group(fs, FileOf(fs[i]));
    assert i in g && j in g;
    TwoMembers(g, i, j);
  }

  lemma TwoMembers(g: seq<nat>, i: nat, j: nat)
    requires i in g && j in g && i != j
    ensures |g| >= 2
  {
  }

  /** Which finding is in which file, its function, its id and its mitigations never change. */
  predicate SameIdentity(fs: seq<Snap>, gs: seq<Snap>) {
    |fs| == |gs| && forall i | 0 <= i < |fs| ::
      gs[i] == fs[i].(severity := gs[i].severity, combinedWith := gs[i].combinedWith)
  }

  lemma {:induction false} SameGroups(fs: seq<Snap>, gs: seq<Snap>, file: string, n: nat)
    requires SameIdentity(fs, gs) && n <= |fs|
    ensures GroupOf(fs, file, n) == GroupOf(gs, file, n)
  {
    if n > 0 {
      SameGroups(fs, gs, file, n - 1);
    }
  }

  lemma SameInteraction(fs: seq<Snap>, gs: seq<Snap>, sigs: map<string, Sig>)
    requires SameIdentity(fs, gs)
    ensures forall i, j | 0 <= i < |fs| && 0 <= j < |fs| :: Interacts(fs, sigs, i, j) <==> Interacts(gs, sigs, i, j)
  {
  }

  lemma {:induction false} SameLinks(fs: seq<Snap>, gs: seq<Snap>, sigs: map<string, Sig>, i: nat, g: seq<nat>)
    requires SameIdentity(fs, gs) && i < |fs| && Inside(g, |fs|)
    ensures Links(fs, sigs, i, g) == Links(gs, sigs, i, g)
    decreases |g|
  {
    hide Interacts;
    SameInteraction(fs, gs, sigs);
    if g != [] {
      SameLinks(fs, gs, sigs, i, g[..|g| - 1]);
    }
  }

  lemma ChainedStays(fs: seq<Snap>, gs: seq<Snap>, sigs: map<string, Sig>, i: nat)
    requires SameIdentity(fs, gs) && i < |fs|
    requires forall j | 0 <= j < |fs| :: Severe(fs[j]) <==> Severe(gs[j])
    ensures Chained(fs, sigs, i) <==> Chained(gs, sigs, i)
  {
    SameInteraction(fs, gs, sigs);
    hide Interacts, Severe;
    if Chained(fs, sigs, i) {
      var j :| 0 <= j < |fs| && Severe(fs[j]) && Interacts(fs, sigs, i, j);
      assert Severe(gs[j]) && Interacts(gs, sigs, i, j);
    }
    if Chained(gs, sigs, i) {
      var j :| 0 <= j < |gs| && Severe(gs[j]) && Interacts(gs, sigs, i, j);
      assert Severe(fs[j]) && Interacts(fs, sigs, i, j);
    }
  }

  lemma CorrectedIdentity(fs: seq<Snap>)
    ensures SameIdentity(fs, AllCorrected(fs))
    ensures forall i | 0 <= i < |fs| :: Fits(AllCorrected(fs)[i])
  {
    forall i | 0 <= i < |fs| ensures Fits(AllCorrected(fs)[i]) {
      CorrectionIsLeastChange(fs[i], fs[i].severity);
    }
    hide Fits, CheckSeverity;
  }

  lemma CombinedIdentity(fs: seq<Snap>, sigs: map<string, Sig>)
    ensures SameIdentity(fs, AllCombined(fs, sigs))
  {
    hide Chained, Grouped, Links, Group;
  }

  lemma CombinedFits(fs: seq<Snap>, sigs: map<string, Sig>, i: nat)
    requires i < |fs| && Fits(fs[i])
    ensures Fits(Combined(fs, sigs, i)) && (Severe(Combined(fs, sigs, i)) <==> Severe(fs[i]))
  {
    hide Interacts, Links, Group;
    assert ActivePreconditions(Combined(fs, sigs, i)) == ActivePreconditions(fs[i]);
  }

  /** Every mitigated finding ends at medium or below, and every other one with four or more active preconditions at
      high or above, chains included. */
  lemma SynthesisFits(fs: seq<Snap>, sigs: map<string, Sig>, i: nat)
    requires i < |fs|
    ensures Mitigated(fs[i]) ==> Rank(Synthesis(fs, sigs)[i].severity) <= Rank(Medium)
    ensures !Mitigated(fs[i]) && ActivePreconditions(fs[i]) >= 4 ==> Rank(Synthesis(fs, sigs)[i].severity) >= Rank(High)
    ensures SameIdentity(fs, Synthesis(fs, sigs))
  {
    hide Combined, CheckSeverity;
    var cs := AllCorrected(fs);
    CorrectedIdentity(fs);
    CombinedFits(cs, sigs, i);
    CombinedIdentity(cs, sigs);
    var r := Synthesis(fs, sigs);
    assert r[i] == Combined(cs, sigs, i);
    assert r[i] == fs[i].(severity := r[i].severity, combinedWith := r[i].combinedWith);
    assert ActivePreconditions(r[i]) == ActivePreconditions(fs[i]);
  }

  lemma CorrectedWhenFits(s: Snap)
    requires Fits(s)
    ensures Corrected(s) == s
  {
    CorrectionIsLeastChange(s, s.severity);
  }

  /** A second pass over combined findings finds nothing to change. */
  lemma CombinedTwice(cs: seq<Snap>, sigs: map<string, Sig>)
    requires forall i | 0 <= i < |cs| :: Fits(cs[i])
    ensures AllCombined(AllCombined(cs, sigs), sigs) == AllCombined(cs, sigs)
  {
    var r := AllCombined(cs, sigs);
    CombinedIdentity(cs, sigs);
    forall i | 0 <= i < |cs| ensures Severe(cs[i]) <==> Severe(r[i]) {
      CombinedFits(cs, sigs, i);
    }
    hide Severe, Fits, Interacts;
    forall i | 0 <= i < |cs| ensures Combined(r, sigs, i) == r[i] {
      ChainedStays(cs, r, sigs, i);
      SameGroups(cs, r, FileOf(cs[i]), |cs|);
      SameLinks(cs, r, sigs, i, Group(cs, FileOf(cs[i])));
    }
  }

  /** Synthesis is idempotent under fixed graphs. */
  lemma {:induction false} SynthesisTwice(fs: seq<Snap>, sigs: map<string, Sig>)
    ensures Synthesis(Synthesis(fs, sigs), sigs) == Synthesis(fs, sigs)
  {
    var cs := AllCorrected(fs);
    var r := Synthesis(fs, sigs);
    CorrectedIdentity(fs);
    CombinedTwice(cs, sigs);
    forall i | 0 <= i < |fs| ensures AllCorrected(r)[i] == r[i] {
      CombinedFits(cs, sigs, i);
      CorrectedWhenFits(r[i]);
    }
    hide Combined, Corrected;
    assert AllCorrected(r) == r;
  }

  lemma {:induction false} LinksHold(fs: seq<Snap>, sigs: map<string, Sig>, i: nat, g: seq<nat>, x: string)
    requires i < |fs| && Inside(g, |fs|)
    ensures x in Links(fs, sigs, i, g) <==>
            exists k :: 0 <= k < |g| && Interacts(fs, sigs, i, g[k]) && fs[g[k]].id == x
    decreases |g|
  {
    hide Interacts;
    if g != [] {
      LinksHold(fs, sigs, i, g[..|g| - 1], x);
    }
  }

  /** Two functions of a graph share state that one of them writes. */
  ghost predicate ShareState(sig: Sig, a: string, b: string) {
    && a in sig && b in sig
    && exists v ::
      || (v in sig[a].writeSet && (v in sig[b].readSet || v in sig[b].writeSet))
      || (v in sig[b].writeSet && (v in sig[a].readSet || v in sig[a].writeSet))
  }

  /** Two findings interact when they are in one file, and there is no graph for it or their functions share state. */
  lemma InteractsMeans(fs: seq<Snap>, sigs: map<string, Sig>, i: nat, j: nat)
    requires i < |fs| && j < |fs|
    ensures Interacts(fs, sigs, i, j) <==>
      && i != j && FileOf(fs[i]) == FileOf(fs[j])
      && (FileOf(fs[i]) in sigs ==> ShareState(sigs[FileOf(fs[i])], FunctionOf(fs[i]), FunctionOf(fs[j])))
  {
    hide FileOf, FunctionOf;
    if FileOf(fs[i]) in sigs {
      ClashMeans(sigs[FileOf(fs[i])], FunctionOf(fs[i]), FunctionOf(fs[j]));
    }
  }

  lemma ClashMeans(sig: Sig, a: string, b: string)
    ensures a in sig && b in sig && Clash(sig[a], sig[b]) <==> ShareState(sig, a, b)
  {
    if a in sig && b in sig {
      var x, y := sig[a], sig[b];
      if Clash(x, y) {
        var v :| v in x.writeSet * (y.readSet + y.writeSet) || v in y.writeSet * (x.readSet + x.writeSet);
        assert ShareState(sig, a, b);
      }
      if ShareState(sig, a, b) {
        var v :| (v in x.writeSet && (v in y.readSet || v in y.writeSet))
                 || (v in y.writeSet && (v in x.readSet || v in x.writeSet));
        assert v in x.writeSet * (y.readSet + y.writeSet) || v in y.writeSet * (x.readSet + x.writeSet);
      }
    }
  }

  lemma {:induction false} LastPieceIs(front: string, last: string)
    requires ':' !in last
    ensures var parts := SplitOn(front + ":" + last, ':'); parts[|parts| - 1] == last
  {
    if front == [] {
      SplitOnPiece([], last, ':');
      assert [] + [':'] + last == front + ":" + last;
      OnePiece(last);
    } else {
      var s := front + ":" + last;
      assert s[1..] == front[1..] + ":" + last;
      LastPieceIs(front[1..], last);
      LongTail(front[1..], last);
    }
  }

  lemma {:induction false} OnePiece(last: string)
    requires ':' !in last
    ensures SplitOn(last, ':') == [last]
  {
    if last != [] {
      OnePiece(last[1..]);
      assert [last[0]] + last[1..] == last;
    }
  }

  lemma {:induction false} LongTail(front: string, last: string)
    ensures |SplitOn(front + ":" + last, ':')| >= 2
  {
    var s := front + ":" + last;
    if front == [] {
      assert s[0] == ':' && s[1..] == last;
    } else {
      assert s[1..] == front[1..] + ":" + last;
      LongTail(front[1..], last);
    }
  }

  /** The file of a location is what stands before its first colon, the function what stands behind its last one. */
  lemma LocationParts(s: Snap, file: string, rest: string, front: string, fn: string)
    requires s.location == file + ":" + rest == front + ":" + fn && ':' !in file && ':' !in fn
    ensures FileOf(s) == file && FunctionOf(s) == fn
  {
    SplitOnPiece(file, rest, ':');
    assert file + [':'] + rest == s.location;
    LastPieceIs(front, fn);
    hide SplitOn;
  }

  /** After its correction the finding is high or critical, with nothing to mitigate it. */
  predicate EndsSevere(s: Snap) {
    Corrected(s).severity in {High, Critical} && s.mitigations == []
  }

  /** Severe, and in one file with another severe finding that it interacts with. */
  ghost predicate InChain(fs: seq<Snap>, sigs: map<string, Sig>, i: nat)
    requires i < |fs|
  {
    EndsSevere(fs[i]) && exists j :: 0 <= j < |fs| && EndsSevere(fs[j]) && Interacts(fs, sigs, i, j)
  }

  /** Who ends critical: exactly the members of a chain are raised, and every other finding keeps its corrected
      severity. */
  lemma SeverityIs(fs: seq<Snap>, sigs: map<string, Sig>, i: nat)
    requires i < |fs|
    ensures Synthesis(fs, sigs)[i].severity == if InChain(fs, sigs, i) then Critical else Corrected(fs[i]).severity
  {
    var cs := AllCorrected(fs);
    CorrectedIdentity(fs);
    SameInteraction(fs, cs, sigs);
    hide Interacts, Corrected;
    forall j | 0 <= j < |fs| ensures Severe(cs[j]) <==> EndsSevere(fs[j]) {
      SevereMeans(fs[j]);
    }
    hide Severe, EndsSevere;
    if j :| 0 <= j < |fs| && Severe(cs[j]) && Interacts(cs, sigs, i, j) {
      assert EndsSevere(fs[j]) && Interacts(fs, sigs, i, j);
    }
    if j :| 0 <= j < |fs| && EndsSevere(fs[j]) && Interacts(fs, sigs, i, j) {
      assert Severe(cs[j]) && Interacts(cs, sigs, i, j);
    }
  }

  lemma SevereMeans(s: Snap)
    ensures Severe(Corrected(s)) <==> EndsSevere(s)
  {
  }

  /** With unique ids, links are mutual: of two findings, one names the other exactly when it is named back. */
  lemma LinksAreMutual(fs: seq<Snap>, sigs: map<string, Sig>, i: nat, j: nat)
    requires forall a, b | 0 <= a < b < |fs| :: fs[a].id != fs[b].id
    requires i < |fs| && j < |fs| && FileOf(fs[i]) == FileOf(fs[j]) && i != j
    ensures fs[j].id in Synthesis(fs, sigs)[i].combinedWith <==> fs[i].id in Synthesis(fs, sigs)[j].combinedWith
    ensures FileOf(fs[i]) !in sigs ==> fs[j].id in Synthesis(fs, sigs)[i].combinedWith
    ensures FileOf(fs[i]) in sigs ==>
      (fs[j].id in Synthesis(fs, sigs)[i].combinedWith
       <==> ShareState(sigs[FileOf(fs[i])], FunctionOf(fs[i]), FunctionOf(fs[j])))
  {
    InteractsMeans(fs, sigs, i, j);
    var cs := AllCorrected(fs);
    CorrectedIdentity(fs);
    SameInteraction(fs, cs, sigs);
    LinkedIff(cs, sigs, i, j);
    LinkedIff(cs, sigs, j, i);
    InteractsIsSymmetric(cs, sigs, i, j);
  }

  lemma LinkedIff(cs: seq<Snap>, sigs: map<string, Sig>, i: nat, j: nat)
    requires forall a, b | 0 <= a < b < |cs| :: cs[a].id != cs[b].id
    requires i < |cs| && j < |cs| && FileOf(cs[i]) == FileOf(cs[j]) && i != j
    ensures cs[j].id in AllCombined(cs, sigs)[i].combinedWith <==> Interacts(cs, sigs, i, j)
  {
    hide Interacts, GroupOf, FileOf;
    var g := Group(cs, FileOf(cs[i]));
    assert i in g && j in g;
    TwoMembers(g, i, j);
    LinksHold(cs, sigs, i, g, cs[j].id);
    var k :| 0 <= k < |g| && g[k] == j;
  }

  // ---- the passes, in place ----------------------------------------------

  predicate Apart(findings: seq<Finding>) {
    forall i, j | 0 <= i < j < |findings| :: findings[i] != findings[j]
  }

  /** The severity loop. */
  method CorrectAll(findings: seq<Finding>) returns (corrections: nat, views: seq<Snap>)
    requires Apart(findings)
    modifies findings
    ensures views == AllCorrected(old(Views(findings)))
    ensures forall i | 0 <= i < |findings| :: findings[i].View() == views[i]
    ensures corrections == Corrections(old(Views(findings)))
  {
    hide CheckSeverity, Corrected, Corrections, Finding.View;
    ghost var was := Views(findings);
    corrections, views := 0, [];
    assert Corrections(was[..0]) == 0 by { NoCorrections(); }
    for i := 0 to |findings|
      invariant |views| == i && forall k | 0 <= k < i :: views[k] == Corrected(was[k])
      invariant forall k | 0 <= k < i :: findings[k].View() == views[k]
      invariant forall k | i <= k < |findings| :: findings[k].View() == was[k]
      invariant corrections == Corrections(was[..i])
    {
      OneMoreCorrection(was, i);
      var corrected := CorrectAt(findings, i);
      corrections := corrections + if corrected then 1 else 0;
      views := views + [findings[i].View()];
    }
    assert was[..|findings|] == was;
  }

  /** One finding of the list is corrected in place, and no other one changes. */
  method CorrectAt(findings: seq<Finding>, i: nat) returns (corrected: bool)
    requires Apart(findings) && i < |findings|
    modifies findings[i]
    ensures findings[i].View() == Corrected(old(findings[i].View()))
    ensures forall k | 0 <= k < |findings| && k != i :: findings[k].View() == old(findings[k].View())
    ensures corrected <==> CheckSeverity(old(findings[i].View())).Some?
  {
    hide CheckSeverity;
    var f := findings[i];
    var verdict := CheckSeverity(f.View());
    corrected := verdict.Some?;
    if corrected {
      f.severity := verdict.value;
    }
  }

  /** How many findings the severity check corrects. */
  function Corrections(fs: seq<Snap>): nat {
    if fs == [] then 0
    else Corrections(fs[..|fs| - 1]) + if CheckSeverity(fs[|fs| - 1]).Some? then 1 else 0
  }

  lemma NoCorrections()
    ensures Corrections([]) == 0
  {
  }

  lemma OneMoreCorrection(fs: seq<Snap>, i: nat)
    requires i < |fs|
    ensures Corrections(fs[..i + 1]) == Corrections(fs[..i]) + if CheckSeverity(fs[i]).Some? then 1 else 0
    ensures Corrected(fs[i])
         == if CheckSeverity(fs[i]).Some? then fs[i].(severity := CheckSeverity(fs[i]).value) else fs[i]
  {
    assert fs[..i + 1][..i] == fs[..i];
  }

  /** Files in order of first appearance, each with its findings. */
  method GroupByFile(fs: seq<Snap>) returns (order: seq<string>, groups: map<string, seq<nat>>)
    ensures forall f :: f in order <==> f in groups
    ensures forall f | f in groups :: groups[f] == Group(fs, f)
    ensures forall i | 0 <= i < |fs| :: FileOf(fs[i]) in groups
    ensures forall i, j | 0 <= i < j < |order| :: order[i] != order[j]
  {
    hide GroupsAre;
    order, groups := [], map[];
    NoGroups(fs);
    for i := 0 to |fs|
      invariant forall f :: f in order <==> f in groups
      invariant GroupsAre(fs, groups, i)
      invariant forall a, b | 0 <= a < b < |order| :: order[a] != order[b]
    {
      var file := FileOf(fs[i]);
      OneMoreMember(fs, groups, i);
      if file !in groups {
        order := order + [file];
      }
      groups := AddTo(groups, file, i);
    }
    GroupsDone(fs, groups);
  }

  /** `groups[file].append(...)` on a default dictionary. */
  function AddTo(groups: map<string, seq<nat>>, file: string, i: nat): map<string, seq<nat>> {
    groups[file := (if file in groups then groups[file] else []) + [i]]
  }

  ghost predicate GroupsAre(fs: seq<Snap>, groups: map<string, seq<nat>>, n: nat)
    requires n <= |fs|
  {
    && (forall f | f in groups :: groups[f] == GroupOf(fs, f, n))
    && (forall f | f !in groups :: GroupOf(fs, f, n) == [])
  }

  lemma NoGroups(fs: seq<Snap>)
    ensures GroupsAre(fs, map[], 0)
  {
  }

  lemma GroupStep(fs: seq<Snap>, f: string, n: nat)
    requires n < |fs|
    ensures GroupOf(fs, f, n + 1) == if FileOf(fs[n]) == f then GroupOf(fs, f, n) + [n] else GroupOf(fs, f, n)
  {
  }

  lemma OneMoreMember(fs: seq<Snap>, groups: map<string, seq<nat>>, n: nat)
    requires n < |fs| && GroupsAre(fs, groups, n)
    ensures GroupsAre(fs, AddTo(groups, FileOf(fs[n]), n), n + 1)
  {
    var next := AddTo(groups, FileOf(fs[n]), n);
    hide FileOf;
    forall f
      ensures GroupOf(fs, f, n + 1) == if FileOf(fs[n]) == f then GroupOf(fs, f, n) + [n] else GroupOf(fs, f, n) {
      GroupStep(fs, f, n);
    }
    hide GroupOf;
  }

  lemma GroupsDone(fs: seq<Snap>, groups: map<string, seq<nat>>)
    requires GroupsAre(fs, groups, |fs|)
    ensures forall f | f in groups :: groups[f] == Group(fs, f)
    ensures forall i | 0 <= i < |fs| :: FileOf(fs[i]) in groups
  {
    hide FileOf;
    forall i | 0 <= i < |fs| ensures FileOf(fs[i]) in groups {
      assert i in GroupOf(fs, FileOf(fs[i]), |fs|);
    }
  }

  method LinkIds(fs: seq<Snap>, sigs: map<string, Sig>, i: nat, group: seq<nat>) returns (ids: seq<string>)
    requires i < |fs| && Inside(group, |fs|)
    ensures ids == Links(fs, sigs, i, group)
  {
    ids := [];
    for k := 0 to |group|
      invariant ids == Links(fs, sigs, i, group[..k])
    {
      assert group[..k + 1][..k] == group[..k];
      if Interacts(fs, sigs, i, group[k]) {
        ids := ids + [fs[group[k]].id];
      }
    }
    assert group[..|group|] == group;
  }

  method SevereIn(findings: seq<Finding>, ghost fs: seq<Snap>, group: seq<nat>) returns (severe: seq<nat>)
    requires |findings| == |fs| && Inside(group, |fs|)
    requires forall i | i in group :: i < |fs| && findings[i].severity == fs[i].severity
                                      && findings[i].mitigations == fs[i].mitigations
    ensures forall i :: i in severe <==> i in group && i < |fs| && Severe(fs[i])
  {
    severe := [];
    for k := 0 to |group|
      invariant forall i :: i in severe <==> i in group[..k] && i < |fs| && Severe(fs[i])
    {
      var i := group[k];
      assert i in group && group[..k + 1] == group[..k] + [i];
      if Rank(findings[i].severity) >= Rank(High) && |findings[i].mitigations| == 0 {
        severe := severe + [i];
      }
    }
    assert group[..|group|] == group;
  }

  /** `[f for f in severe if any(interacts(f, g) for g in severe)]`. */
  method ElevateIn(fs: seq<Snap>, sigs: map<string, Sig>, file: string, severe: seq<nat>) returns (elevate: seq<nat>)
    requires forall i :: i in severe <==> i in Group(fs, file) && Severe(fs[i])
    ensures forall i :: i in elevate <==> i in Group(fs, file) && Chained(fs, sigs, i)
    ensures |elevate| != 1
  {
    hide Severe, FileOf, Related;
    elevate := [];
    for k := 0 to |severe|
      invariant forall i :: i in elevate <==> i in severe[..k] && i < |fs| && Chained(fs, sigs, i)
    {
      var i := severe[k];
      assert i in severe && severe[..k + 1] == severe[..k] + [i];
      if exists m :: 0 <= m < |severe| && severe[m] < |fs| && Interacts(fs, sigs, i, severe[m]) {
        var m :| 0 <= m < |severe| && severe[m] < |fs| && Interacts(fs, sigs, i, severe[m]);
        assert severe[m] in severe;
        elevate := elevate + [i];
      } else {
        NotChained(fs, sigs, file, severe, i);
      }
    }
    assert severe[..|severe|] == severe;
    if elevate != [] {
      assert elevate[0] in elevate;
      var j := NeverChainedAlone(fs, sigs, elevate[0]);
      assert j in elevate;
    }
  }

  lemma NotChained(fs: seq<Snap>, sigs: map<string, Sig>, file: string, severe: seq<nat>, i: nat)
    requires forall j :: j in severe <==> j in Group(fs, file) && Severe(fs[j])
    requires i in severe
    requires forall m | 0 <= m < |severe| && severe[m] < |fs| :: !Interacts(fs, sigs, i, severe[m])
    ensures !Chained(fs, sigs, i)
  {
    hide Severe, Related, FileOf;
    forall j | 0 <= j < |fs| && Severe(fs[j]) ensures !Interacts(fs, sigs, i, j) {
      assert j in Group(fs, file) ==> j in severe;
      assert i in Group(fs, file);
    }
  }

  /** A finding of the group after linking, before elevation. */
  function Linked(fs: seq<Snap>, sigs: map<string, Sig>, i: nat, group: seq<nat>): Snap
    requires i < |fs| && Inside(group, |fs|)
  {
    fs[i].(combinedWith := Links(fs, sigs, i, group))
  }

  /** The same after elevation. */
  function Raised(fs: seq<Snap>, sigs: map<string, Sig>, i: nat, group: seq<nat>, elevated: bool): Snap
    requires i < |fs| && Inside(group, |fs|)
  {
    var s := Linked(fs, sigs, i, group);
    if elevated then s.(severity := Critical) else s
  }

  ghost predicate InFile(fs: seq<Snap>, file: string, i: int) {
    0 <= i < |fs| && FileOf(fs[i]) == file
  }

  method LinkGroup(findings: seq<Finding>, fs: seq<Snap>, sigs: map<string, Sig>, file: string, group: seq<nat>)
    requires Apart(findings) && |fs| == |findings| && group == Group(fs, file)
    requires forall i | InFile(fs, file, i) :: findings[i].View() == fs[i]
    modifies set i | 0 <= i < |fs| && InFile(fs, file, i) :: findings[i]
    ensures forall i | InFile(fs, file, i) :: findings[i].View() == Linked(fs, sigs, i, group)
  {
    hide Links, FileOf;
    for k := 0 to |group|
      invariant forall i | InFile(fs, file, i) ::
          findings[i].View() == if i in group[..k] then Linked(fs, sigs, i, group) else fs[i]
    {
      var i := group[k];
      assert i in group && group[..k + 1] == group[..k] + [i];
      var ids := LinkIds(fs, sigs, i, group);
      findings[i].combinedWith := ids;
    }
    assert group[..|group|] == group;
  }

  method ElevateGroup(findings: seq<Finding>, ghost fs: seq<Snap>, ghost sigs: map<string, Sig>, ghost file: string,
                      ghost group: seq<nat>, elevate: seq<nat>)
    requires Apart(findings) && |fs| == |findings| && group == Group(fs, file)
    requires forall i | InFile(fs, file, i) :: findings[i].View() == Linked(fs, sigs, i, group)
    requires forall i :: i in elevate <==> i in group && Chained(fs, sigs, i)
    modifies set i | 0 <= i < |fs| && InFile(fs, file, i) :: findings[i]
    ensures forall i | InFile(fs, file, i) :: findings[i].View() == Raised(fs, sigs, i, group, Chained(fs, sigs, i))
  {
    hide Linked, FileOf, Chained;
    for k := 0 to |elevate|
      invariant forall i | InFile(fs, file, i) :: findings[i].View() == Raised(fs, sigs, i, group, i in elevate[..k])
    {
      var i := elevate[k];
      assert i in elevate && elevate[..k + 1] == elevate[..k] + [i];
      findings[i].severity := Critical;
    }
    assert elevate[..|elevate|] == elevate;
  }

  /** One file's group of two or more findings. */
  method CombineGroup(findings: seq<Finding>, fs: seq<Snap>, sigs: map<string, Sig>, file: string, group: seq<nat>)
    returns (chain: bool)
    requires Apart(findings) && |fs| == |findings| && group == Group(fs, file) && |group| >= 2
    requires forall i | InFile(fs, file, i) :: findings[i].View() == fs[i]
    modifies set i | 0 <= i < |fs| && InFile(fs, file, i) :: findings[i]
    ensures forall i | InFile(fs, file, i) :: findings[i].View() == Combined(fs, sigs, i)
    ensures chain <==> exists i :: InFile(fs, file, i) && Chained(fs, sigs, i)
  {
    hide Links, FileOf, Chained, GroupOf;
    LinkGroup(findings, fs, sigs, file, group);
    assert forall i | i in group :: InFile(fs, file, i);
    var severe := SevereIn(findings, fs, group);
    var elevate := ElevateIn(fs, sigs, file, severe);
    chain := |elevate| >= 2;
    if chain {
      assert elevate[0] in elevate;
      ElevateGroup(findings, fs, sigs, file, group, elevate);
    }
  }

  /** A finding once the files in `done` were combined. */
  function Midway(fs: seq<Snap>, sigs: map<string, Sig>, i: nat, done: seq<string>): Snap
    requires i < |fs|
  {
    if FileOf(fs[i]) in done then Combined(fs, sigs, i) else fs[i]
  }

  lemma MidwayNext(fs: seq<Snap>, sigs: map<string, Sig>, done: seq<string>, file: string)
    ensures forall i | InFile(fs, file, i) :: Midway(fs, sigs, i, done + [file]) == Combined(fs, sigs, i)
    ensures forall i | 0 <= i < |fs| && !InFile(fs, file, i) ::
        Midway(fs, sigs, i, done + [file]) == Midway(fs, sigs, i, done)
    ensures file !in done ==> forall i | InFile(fs, file, i) :: Midway(fs, sigs, i, done) == fs[i]
  {
  }

  /** One file: a group of one is passed over, a larger one is combined. */
  method CombineFile(findings: seq<Finding>, fs: seq<Snap>, sigs: map<string, Sig>, file: string, group: seq<nat>,
                     ghost done: seq<string>) returns (chain: bool)
    requires Apart(findings) && |fs| == |findings| && group == Group(fs, file) && file !in done
    requires forall i | 0 <= i < |fs| :: findings[i].View() == Midway(fs, sigs, i, done)
    modifies findings
    ensures forall i | 0 <= i < |fs| :: findings[i].View() == Midway(fs, sigs, i, done + [file])
    ensures chain <==> ChainIn(fs, sigs, file)
  {
    hide Combined, Corrected, FileOf, Group, Chained, Midway;
    MidwayNext(fs, sigs, done, file);
    if |group| < 2 {
      SmallGroup(fs, sigs, file);
      return false;
    }
    chain := CombineGroup(findings, fs, sigs, file, group);
  }

  /** `run_stage3`: the findings end as the synthesis of what they were, and a chain is reported for exactly the files
      that hold a chained finding. */
  method RunStage3(findings: seq<Finding>, sigs: map<string, Sig>) returns (corrections: nat, chains: seq<string>)
    requires Apart(findings)
    modifies findings
    ensures forall i | 0 <= i < |findings| :: findings[i].View() == Synthesis(old(Views(findings)), sigs)[i]
    ensures forall f :: f in chains <==> ChainIn(AllCorrected(old(Views(findings))), sigs, f)
    ensures corrections == Corrections(old(Views(findings)))
  {
    hide Combined, Corrected, FileOf, Group, Chained, Midway;
    var fs;
    corrections, fs := CorrectAll(findings);
    chains := CombineAll(findings, fs, sigs);
  }

  method CombineAll(findings: seq<Finding>, fs: seq<Snap>, sigs: map<string, Sig>) returns (chains: seq<string>)
    requires Apart(findings) && |fs| == |findings|
    requires forall i | 0 <= i < |fs| :: findings[i].View() == fs[i]
    modifies findings
    ensures forall i | 0 <= i < |fs| :: findings[i].View() == AllCombined(fs, sigs)[i]
    ensures forall f :: f in chains <==> ChainIn(fs, sigs, f)
  {
    hide Combined, Corrected, FileOf, Group, Chained, Midway, ChainIn;
    var order, groups := GroupByFile(fs);
    chains := [];
    NothingDone(fs, sigs);
    for k := 0 to |order|
      invariant forall i | 0 <= i < |fs| :: findings[i].View() == Midway(fs, sigs, i, order[..k])
      invariant forall f :: f in chains <==> f in order[..k] && ChainIn(fs, sigs, f)
    {
      var file := order[k];
      assert order[..k + 1] == order[..k] + [file];
      assert file !in order[..k];
      var chain := CombineFile(findings, fs, sigs, file, groups[file], order[..k]);
      if chain {
        chains := chains + [file];
      }
    }
    assert order[..|order|] == order;
    AllDone(fs, sigs, order);
  }

  lemma NothingDone(fs: seq<Snap>, sigs: map<string, Sig>)
    ensures forall i | 0 <= i < |fs| :: Midway(fs, sigs, i, []) == fs[i]
  {
  }

  lemma AllDone(fs: seq<Snap>, sigs: map<string, Sig>, order: seq<string>)
    requires forall i | 0 <= i < |fs| :: FileOf(fs[i]) in order
    ensures forall i | 0 <= i < |fs| :: Midway(fs, sigs, i, order) == AllCombined(fs, sigs)[i]
    ensures forall f :: ChainIn(fs, sigs, f) ==> f in order
  {
    hide Combined, FileOf, Chained;
  }

  function Views(findings: seq<Finding>): (r: seq<Snap>)
    reads findings
    ensures |r| == |findings|
    ensures forall i | 0 <= i < |findings| :: r[i] == findings[i].View()
  {
    if findings == [] then [] else [findings[0].View()] + Views(findings[1..])
  }

  ghost predicate ChainIn(fs: seq<Snap>, sigs: map<string, Sig>, file: string) {
    exists i :: InFile(fs, file, i) && Chained(fs, sigs, i)
  }

  /** A finding alone in its file stays as it was. */
  lemma SmallGroup(fs: seq<Snap>, sigs: map<string, Sig>, file: string)
    requires |Group(fs, file)| < 2
    ensures forall i | InFile(fs, file, i) :: Combined(fs, sigs, i) == fs[i]
    ensures !ChainIn(fs, sigs, file)
  {
    hide FileOf, Chained, GroupOf, Links;
    forall i | InFile(fs, file, i) ensures !Chained(fs, sigs, i) {
      if Chained(fs, sigs, i) {
        var j := NeverChainedAlone(fs, sigs, i);
      }
    }
  }
}
