/** The audit roadmap, an event-sourced reducer (audit_agent/methodology/service.py, models.py): rows folded from stage
    events, grounding of findings by analyzer executions, and the transition whose projection imagines its own
    commit. */
module Roadmap {
  import opened Options
  import opened Text

  datatype Transition = Discover | Check | Synthesize | Skip | Gap

  datatype Outcome = Ran | DidNotRun | TimedOut | Skipped | Empty

  /** An absent target is "". */
  datatype StageEvent = StageEvent(transition: Transition, revision: nat, chunkId: Option<string>, target: string,
                                   outcome: Outcome, reason: Option<string>, asOf: int,
                                   targets: seq<string>, skippedTargets: seq<string>)

  datatype Execution = Execution(analyzerId: string, target: string, digest: string, ran: bool,
                                 findingIds: seq<string>)

  datatype Finding = Finding(id: string, location: string)

  datatype Body = EventBody(event: StageEvent) | ExecutionBody(execution: Execution) | OtherBody

  /** One log item: its payload bodies, and the finding it holds if it is one that parses. */
  datatype Item = Item(sequence: int, bodies: seq<Body>, finding: Option<Finding>)

  datatype Snapshot = Snapshot(asOf: int, items: seq<Item>)

  datatype RowState = Pending | Analysed | SkippedRow | GapRow

  datatype Row = Row(target: string, state: RowState, reason: Option<string>, chunkId: Option<string>)

  datatype Result<+T> = Ok(value: T) | Rejected | Unsupported | Invalid

  // ---- rows --------------------------------------------------------------

  /** Targets that an event brings up. */
  function Mentions(e: StageEvent): seq<string> {
    match e.transition
    case Discover => e.targets
    case Synthesize => []
    case _ => if e.target != "" then [e.target] else []
  }

  function AllMentions(events: seq<StageEvent>): seq<string> {
    if events == [] then [] else AllMentions(events[..|events| - 1]) + Mentions(events[|events| - 1])
  }

  /** Distinct members in order of first appearance. */
  function FirstMentions(xs: seq<string>): seq<string> {
    if xs == [] then [] else
      var init := FirstMentions(xs[..|xs| - 1]);
      if xs[|xs| - 1] in xs[..|xs| - 1] then init else init + [xs[|xs| - 1]]
  }

  /** A check, a skip or a gap for `t` settles its row, whatever came before. */
  predicate Settles(e: StageEvent, t: string) {
    e.transition != Discover && e.transition != Synthesize && e.target == t && t != ""
  }

  function SettledRow(e: StageEvent): Row {
    match e.transition
    case Check => Row(e.target, Analysed, None, e.chunkId)
    case Skip => Row(e.target, SkippedRow, e.reason, e.chunkId)
    case _ => Row(e.target, GapRow, e.reason, e.chunkId)
  }

  /** The row of target `t`, if it has one: the last settling event, else the discovery that first named it. */
  function RowOf(events: seq<StageEvent>, t: string): Option<Row> {
    if events == [] then None else
      RowAfter(RowOf(events[..|events| - 1], t), events[|events| - 1], t)
  }

  function RowAfter(before: Option<Row>, e: StageEvent, t: string): Option<Row> {
    if Settles(e, t) then Some(SettledRow(e))
    else if before.Some? then before
    else if e.transition == Discover && t in e.targets then Some(Row(t, Pending, None, e.chunkId))
    else None
  }

  lemma {:induction false} MentionedHasRow(events: seq<StageEvent>, t: string)
    ensures RowOf(events, t).Some? <==> t in AllMentions(events)
    ensures RowOf(events, t).Some? ==> RowOf(events, t).value.target == t
    decreases |events|
  {
    if events != [] {
      MentionedHasRow(events[..|events| - 1], t);
    }
  }

  /** A check, a skip or a gap names this target. */
  predicate Decides(e: StageEvent, t: string) {
    e.transition in {Check, Skip, Gap} && e.target == t && t != ""
  }

  /** A settled row tells the last settling event, its reason unless that is a check; later discoveries and other
      targets' events leave it. */
  lemma {:induction false} RowIsLastSettled(events: seq<StageEvent>, t: string, k: nat)
    requires k < |events| && Decides(events[k], t)
    requires forall j | k < j < |events| :: !Decides(events[j], t)
    ensures var e := events[k];
      RowOf(events, t) == Some(match e.transition
                               case Check => Row(t, Analysed, None, e.chunkId)
                               case Skip => Row(t, SkippedRow, e.reason, e.chunkId)
                               case _ => Row(t, GapRow, e.reason, e.chunkId))
    decreases |events|
  {
    if k < |events| - 1 {
      RowIsLastSettled(events[..|events| - 1], t, k);
    }
  }

  /** Without a settling event the row is pending and tells the first discovery that named the target. */
  lemma {:induction false} RowIsFirstDiscovery(events: seq<StageEvent>, t: string, k: nat)
    requires k < |events| && events[k].transition == Discover && t in events[k].targets
    requires forall j | 0 <= j < |events| :: !Decides(events[j], t)
    requires forall j | 0 <= j < k :: !(events[j].transition == Discover && t in events[j].targets)
    ensures RowOf(events, t) == Some(Row(t, Pending, None, events[k].chunkId))
    decreases |events|
  {
    var init := events[..|events| - 1];
    if k < |events| - 1 {
      RowIsFirstDiscovery(init, t, k);
    } else {
      NotMentioned(init, t);
    }
  }

  lemma {:induction false} NotMentioned(events: seq<StageEvent>, t: string)
    requires forall j | 0 <= j < |events| :: t !in Mentions(events[j])
    ensures t !in AllMentions(events) && RowOf(events, t) == None
    decreases |events|
  {
    if events != [] {
      NotMentioned(events[..|events| - 1], t);
      MentionedHasRow(events, t);
    }
  }

  lemma {:induction false} FirstMentionsHolds(xs: seq<string>)
    ensures forall x :: x in FirstMentions(xs) <==> x in xs
    ensures forall i, j | 0 <= i < j < |FirstMentions(xs)| :: FirstMentions(xs)[i] != FirstMentions(xs)[j]
    decreases |xs|
  {
    if xs != [] {
      FirstMentionsHolds(xs[..|xs| - 1]);
      assert xs == xs[..|xs| - 1] + [xs[|xs| - 1]];
    }
  }

  /** The order is that of first mention: whatever comes before the first `b` and differs from it precedes it. */
  lemma {:induction false} FirstMentionsOrder(xs: seq<string>, p: nat, q: nat) returns (i: nat, j: nat)
    requires p < q < |xs| && xs[p] != xs[q]
    requires xs[p] !in xs[..p] && xs[q] !in xs[..q]
    ensures i < j < |FirstMentions(xs)| && FirstMentions(xs)[i] == xs[p] && FirstMentions(xs)[j] == xs[q]
    decreases |xs|
  {
    var init := xs[..|xs| - 1];
    if q < |xs| - 1 {
      assert init[..p] == xs[..p] && init[..q] == xs[..q];
      i, j := FirstMentionsOrder(init, p, q);
    } else {
      FirstMentionsHolds(init);
      assert xs[p] in init by {
        assert init[p] == xs[p];
      }
      i :| 0 <= i < |FirstMentions(init)| && FirstMentions(init)[i] == xs[p];
      j := |FirstMentions(init)|;
    }
  }

  function RowsOf(events: seq<StageEvent>): (rows: seq<Row>)
    ensures |rows| == |FirstMentions(AllMentions(events))|
  {
    var order := FirstMentions(AllMentions(events));
    seq(|order|, i requires 0 <= i < |order| =>
      var row := RowOf(events, order[i]); if row.Some? then row.value else Row(order[i], Pending, None, None))
  }

  /** The fold's two variables after some events. */
  ghost predicate Folded(order: seq<string>, state: map<string, Row>, events: seq<StageEvent>) {
    && order == FirstMentions(AllMentions(events))
    && (forall t :: t in state <==> t in order)
    && (forall t | t in state :: RowOf(events, t) == Some(state[t]))
  }

  /** A discovery cut after its first `k` targets. */
  function Cut(e: StageEvent, k: nat): StageEvent
    requires k <= |e.targets|
  {
    e.(targets := e.targets[..k])
  }

  lemma FirstMentionsSnoc(xs: seq<string>, x: string)
    ensures FirstMentions(xs + [x]) == if x in xs then FirstMentions(xs) else FirstMentions(xs) + [x]
  {
    assert (xs + [x])[..|xs|] == xs;
  }

  lemma MentionsSnoc(events: seq<StageEvent>, e: StageEvent)
    ensures AllMentions(events + [e]) == AllMentions(events) + Mentions(e)
  {
    assert (events + [e])[..|events|] == events;
  }

  lemma RowSnoc(events: seq<StageEvent>, e: StageEvent)
    ensures forall t :: RowOf(events + [e], t) == RowAfter(RowOf(events, t), e, t)
  {
    assert (events + [e])[..|events|] == events;
  }

  /** One more target of a discovery: a new one is appended as pending, a known one changes nothing. */
  lemma DiscoverOne(order: seq<string>, state: map<string, Row>, events: seq<StageEvent>, e: StageEvent, k: nat)
    requires e.transition == Discover && k < |e.targets| && Folded(order, state, events + [Cut(e, k)])
    ensures e.targets[k] in state ==> Folded(order, state, events + [Cut(e, k + 1)])
    ensures e.targets[k] !in state ==>
        Folded(order + [e.targets[k]], state[e.targets[k] := Row(e.targets[k], Pending, None, e.chunkId)],
               events + [Cut(e, k + 1)])
  {
    hide RowOf, AllMentions, FirstMentions, Cut;
    var t, xs := e.targets[k], AllMentions(events + [Cut(e, k)]);
    CutMentions(events, e, k);
    FirstMentionsSnoc(xs, t);
    FirstMentionsHolds(xs);
    CutRows(events, e, k);
    forall u ensures RowOf(events + [Cut(e, k)], u).Some? <==> u in xs {
      MentionedHasRow(events + [Cut(e, k)], u);
    }
  }

  lemma CutMentions(events: seq<StageEvent>, e: StageEvent, k: nat)
    requires e.transition == Discover && k < |e.targets|
    ensures AllMentions(events + [Cut(e, k + 1)]) == AllMentions(events + [Cut(e, k)]) + [e.targets[k]]
  {
    hide AllMentions;
    MentionsSnoc(events, Cut(e, k));
    MentionsSnoc(events, Cut(e, k + 1));
    assert e.targets[..k + 1] == e.targets[..k] + [e.targets[k]];
    Assoc(AllMentions(events), e.targets[..k], [e.targets[k]]);
  }

  lemma CutRows(events: seq<StageEvent>, e: StageEvent, k: nat)
    requires e.transition == Discover && k < |e.targets|
    ensures forall u :: RowOf(events + [Cut(e, k + 1)], u)
                == if u == e.targets[k] && RowOf(events + [Cut(e, k)], u).None?
                    then Some(Row(u, Pending, None, e.chunkId))
                   else RowOf(events + [Cut(e, k)], u)
  {
    hide RowOf;
    RowSnoc(events, Cut(e, k));
    RowSnoc(events, Cut(e, k + 1));
    assert e.targets[..k + 1] == e.targets[..k] + [e.targets[k]];
  }

  lemma DiscoverNone(order: seq<string>, state: map<string, Row>, events: seq<StageEvent>, e: StageEvent)
    requires e.transition == Discover && Folded(order, state, events)
    ensures Folded(order, state, events + [Cut(e, 0)])
  {
    hide RowOf, AllMentions, FirstMentions;
    MentionsSnoc(events, Cut(e, 0));
    RowSnoc(events, Cut(e, 0));
    assert AllMentions(events + [Cut(e, 0)]) == AllMentions(events);
  }

  /** Any other event touches the row of its own target and no other. */
  lemma SettleOne(order: seq<string>, state: map<string, Row>, events: seq<StageEvent>, e: StageEvent)
    requires e.transition != Discover && Folded(order, state, events)
    ensures e.transition == Synthesize || e.target == "" ==> Folded(order, state, events + [e])
    ensures e.transition != Synthesize && e.target != "" ==>
        Folded(if e.target in state then order else order + [e.target], state[e.target := SettledRow(e)], events + [e])
  {
    hide RowOf, AllMentions, FirstMentions;
    MentionsSnoc(events, e);
    RowSnoc(events, e);
    FirstMentionsHolds(AllMentions(events));
    if e.transition != Synthesize && e.target != "" {
      FirstMentionsSnoc(AllMentions(events), e.target);
    } else {
      assert AllMentions(events + [e]) == AllMentions(events);
    }
  }

  /** `_rows`. */
  method Rows(events: seq<StageEvent>) returns (rows: seq<Row>)
    ensures rows == RowsOf(events)
  {
    hide RowOf, AllMentions, FirstMentions, Folded;
    var order: seq<string>, state: map<string, Row> := [], map[];
    NothingFolded();
    for i := 0 to |events|
      invariant Folded(order, state, events[..i])
    {
      var e := events[i];
      assert events[..i + 1] == events[..i] + [e];
      match e.transition
      case Discover =>
        DiscoverNone(order, state, events[..i], e);
        for k := 0 to |e.targets|
          invariant Folded(order, state, events[..i] + [Cut(e, k)])
        {
          DiscoverOne(order, state, events[..i], e, k);
          if e.targets[k] !in state {
            order, state := order + [e.targets[k]], state[e.targets[k] := Row(e.targets[k], Pending, None, e.chunkId)];
          }
        }
        assert Cut(e, |e.targets|) == e;
      case Synthesize =>
        SettleOne(order, state, events[..i], e);
      case _ =>
        SettleOne(order, state, events[..i], e);
        if e.target != "" {
          order := if e.target in state then order else order + [e.target];
          state := state[e.target := SettledRow(e)];
        }
    }
    assert events[..|events|] == events;
    FoldedRows(order, state, events);
    rows := seq(|order|, i requires 0 <= i < |order| && order[i] in state => state[order[i]]);
  }

  lemma NothingFolded()
    ensures Folded([], map[], [])
  {
  }

  lemma FoldedRows(order: seq<string>, state: map<string, Row>, events: seq<StageEvent>)
    requires Folded(order, state, events)
    ensures |order| == |RowsOf(events)|
    ensures forall i | 0 <= i < |order| :: order[i] in state && state[order[i]] == RowsOf(events)[i]
  {
    hide RowOf, AllMentions, FirstMentions;
  }

  // ---- snapshots ---------------------------------------------------------

  function BodiesOf(items: seq<Item>): seq<Body> {
    if items == [] then [] else items[0].bodies + BodiesOf(items[1..])
  }

  function EventsIn(bodies: seq<Body>): seq<StageEvent> {
    if bodies == [] then [] else
      (if bodies[0].EventBody? then [bodies[0].event] else []) + EventsIn(bodies[1..])
  }

  function ExecutionsIn(bodies: seq<Body>): seq<Execution> {
    if bodies == [] then [] else
      (if bodies[0].ExecutionBody? then [bodies[0].execution] else []) + ExecutionsIn(bodies[1..])
  }

  function EventsOf(s: Snapshot): seq<StageEvent> {
    EventsIn(BodiesOf(s.items))
  }

  function ExecutionsOf(s: Snapshot): seq<Execution> {
    ExecutionsIn(BodiesOf(s.items))
  }

  function FindingsIn(items: seq<Item>): seq<Finding> {
    if items == [] then [] else
      (if items[0].finding.Some? then [items[0].finding.value] else []) + FindingsIn(items[1..])
  }

  lemma {:induction false} BodiesConcat(a: seq<Item>, b: seq<Item>)
    ensures BodiesOf(a + b) == BodiesOf(a) + BodiesOf(b)
    ensures FindingsIn(a + b) == FindingsIn(a) + FindingsIn(b)
  {
    if a == [] {
      assert a + b == b;
    } else {
      assert (a + b)[1..] == a[1..] + b;
      BodiesConcat(a[1..], b);
      Assoc(a[0].bodies, BodiesOf(a[1..]), BodiesOf(b));
      Assoc(if a[0].finding.Some? then [a[0].finding.value] else [], FindingsIn(a[1..]), FindingsIn(b));
    }
  }

  lemma {:induction false} InConcat(a: seq<Body>, b: seq<Body>)
    ensures EventsIn(a + b) == EventsIn(a) + EventsIn(b)
    ensures ExecutionsIn(a + b) == ExecutionsIn(a) + ExecutionsIn(b)
  {
    if a == [] {
      assert a + b == b;
    } else {
      assert (a + b)[1..] == a[1..] + b;
      InConcat(a[1..], b);
      Assoc(if a[0].EventBody? then [a[0].event] else [], EventsIn(a[1..]), EventsIn(b));
      Assoc(if a[0].ExecutionBody? then [a[0].execution] else [], ExecutionsIn(a[1..]), ExecutionsIn(b));
    }
  }

  /** `_unpack`: the item loop over payload bodies. */
  method Unpack(s: Snapshot) returns (events: seq<StageEvent>, executions: seq<Execution>)
    ensures events == EventsOf(s) && executions == ExecutionsOf(s)
  {
    hide EventsIn, ExecutionsIn, BodiesOf;
    events, executions := [], [];
    ghost var done: seq<Body> := [];
    Nothing();
    for i := 0 to |s.items|
      invariant done == BodiesOf(s.items[..i])
      invariant events == EventsIn(done) && executions == ExecutionsIn(done)
    {
      assert s.items[..i + 1] == s.items[..i] + [s.items[i]];
      BodiesConcat(s.items[..i], [s.items[i]]);
      OneItem(s.items[i]);
      var bodies := s.items[i].bodies;
      ghost var before := done;
      for k := 0 to |bodies|
        invariant done == before + bodies[..k]
        invariant events == EventsIn(done) && executions == ExecutionsIn(done)
      {
        assert bodies[..k + 1] == bodies[..k] + [bodies[k]];
        InConcat(done, [bodies[k]]);
        OneBody(bodies[k]);
        match bodies[k] {
          case EventBody(e) => events := events + [e];
          case ExecutionBody(x) => executions := executions + [x];
          case OtherBody =>
        }
        assert done + [bodies[k]] == before + bodies[..k + 1];
        done := done + [bodies[k]];
      }
      assert bodies[..|bodies|] == bodies;
    }
    assert s.items[..|s.items|] == s.items;
  }

  lemma Nothing()
    ensures BodiesOf([]) == [] && EventsIn([]) == [] && ExecutionsIn([]) == []
  {
  }

  lemma OneItem(i: Item)
    ensures BodiesOf([i]) == i.bodies
  {
  }

  lemma OneBody(b: Body)
    ensures EventsIn([b]) == if b.EventBody? then [b.event] else []
    ensures ExecutionsIn([b]) == if b.ExecutionBody? then [b.execution] else []
  {
  }

  // ---- grounding ---------------------------------------------------------

  function FileOf(f: Finding): string {
    SplitOn(f.location, ':')[0]
  }

  /** The file of a location is what stands before its first colon, or all of it. */
  lemma FileIsBeforeTheColon(f: Finding, file: string, rest: string)
    requires ':' !in file && (f.location == file || f.location == file + ":" + rest)
    ensures FileOf(f) == file
  {
    if f.location == file + ":" + rest {
      SplitOnPiece(file, rest, ':');
      assert f.location == file + [':'] + rest;
    } else {
      WholeFile(file);
    }
  }

  lemma {:induction false} WholeFile(file: string)
    requires ':' !in file
    ensures SplitOn(file, ':')[0] == file
  {
    if file != [] {
      WholeFile(file[1..]);
    }
  }

  predicate Supports(x: Execution, id: string, file: string) {
    x.ran && id in x.findingIds && x.target == file
  }

  /** Some analyzer that ran on `file` reported the finding. */
  predicate Grounded(executions: seq<Execution>, id: string, file: string) {
    exists x :: x in executions && Supports(x, id, file)
  }

  function FirstWith(fs: seq<Finding>, id: string): Option<Finding> {
    if fs == [] then None else if fs[0].id == id then Some(fs[0]) else FirstWith(fs[1..], id)
  }

  function LastWith(fs: seq<Finding>, id: string): Option<Finding> {
    if fs == [] then None
    else if fs[|fs| - 1].id == id then Some(fs[|fs| - 1]) else LastWith(fs[..|fs| - 1], id)
  }

  lemma {:induction false} BothOrNeither(fs: seq<Finding>, id: string)
    ensures FirstWith(fs, id).Some? <==> exists f :: f in fs && f.id == id
    ensures FirstWith(fs, id).Some? ==> FirstWith(fs, id).value in fs && FirstWith(fs, id).value.id == id
    decreases |fs|
  {
    if fs != [] {
      BothOrNeither(fs[1..], id);
    }
  }

  /** The two searches give the finding of that id at its first and at its last place in the list. */
  lemma {:induction false} FirstAndLast(fs: seq<Finding>, id: string, k: nat)
    requires k < |fs| && fs[k].id == id
    ensures (forall j | 0 <= j < k :: fs[j].id != id) ==> FirstWith(fs, id) == Some(fs[k])
    ensures (forall j | k < j < |fs| :: fs[j].id != id) ==> LastWith(fs, id) == Some(fs[k])
    decreases |fs|
  {
    if k > 0 && fs[0].id != id {
      assert fs[1..][k - 1] == fs[k];
      FirstAndLast(fs[1..], id, k - 1);
    }
    var n := |fs| - 1;
    if k < n && fs[n].id != id {
      FirstAndLast(fs[..n], id, k);
    }
  }

  lemma {:induction false} LastIsThere(fs: seq<Finding>, id: string)
    ensures LastWith(fs, id).Some? <==> exists f :: f in fs && f.id == id
    ensures LastWith(fs, id).Some? ==> LastWith(fs, id).value in fs && LastWith(fs, id).value.id == id
    decreases |fs|
  {
    if fs != [] {
      LastIsThere(fs[..|fs| - 1], id);
      assert fs == fs[..|fs| - 1] + [fs[|fs| - 1]];
    }
  }

  /** The finding that a dictionary built from the list holds under each id. */
  method ById(fs: seq<Finding>) returns (m: map<string, Finding>)
    ensures forall id :: if id in m then LastWith(fs, id) == Some(m[id]) else LastWith(fs, id) == None
  {
    m := map[];
    for i := 0 to |fs|
      invariant forall id :: if id in m then LastWith(fs[..i], id) == Some(m[id]) else LastWith(fs[..i], id) == None
    {
      assert fs[..i + 1][..i] == fs[..i];
      m := m[fs[i].id := fs[i]];
    }
    assert fs[..|fs|] == fs;
  }

  /** What the grounding map must say of `id`: a dictionary keeps the last finding of that id. */
  ghost predicate MapGrounds(fs: seq<Finding>, executions: seq<Execution>, id: string) {
    LastWith(fs, id).Some? && Grounded(executions, id, FileOf(LastWith(fs, id).value))
  }

  /** `_grounding_map`. */
  method GroundingMap(fs: seq<Finding>, executions: seq<Execution>) returns (grounded: map<string, bool>)
    ensures forall id :: id in grounded <==> LastWith(fs, id).Some?
    ensures forall id | id in grounded :: grounded[id] <==> MapGrounds(fs, executions, id)
  {
    hide LastWith, Grounded, FileOf;
    var byId := ById(fs);
    grounded := map id | id in byId :: false;
    NoExecutions();
    for i := 0 to |executions|
      invariant grounded.Keys == byId.Keys
      invariant forall id | id in grounded :: grounded[id] <==> Grounded(executions[..i], id, FileOf(byId[id]))
    {
      var x := executions[i];
      assert executions[..i + 1] == executions[..i] + [x];
      forall id, file
        ensures Grounded(executions[..i] + [x], id, file)
            <==> Grounded(executions[..i], id, file) || Supports(x, id, file)
      {
        OneMoreExecution(executions[..i], x, id, file);
      }
      if !x.ran {
        continue;
      }
      for k := 0 to |x.findingIds|
        invariant grounded.Keys == byId.Keys
        invariant forall id | id in grounded :: grounded[id] <==>
              Grounded(executions[..i], id, FileOf(byId[id]))
               || (id in x.findingIds[..k] && x.target == FileOf(byId[id]))
      {
        var fid := x.findingIds[k];
        assert x.findingIds[..k + 1] == x.findingIds[..k] + [fid];
        if fid in byId && x.target == FileOf(byId[fid]) {
          grounded := grounded[fid := true];
        }
      }
      assert x.findingIds[..|x.findingIds|] == x.findingIds;
    }
    assert executions[..|executions|] == executions;
  }

  lemma NoExecutions()
    ensures forall id, file :: !Grounded([], id, file)
  {
  }

  lemma OneMoreExecution(xs: seq<Execution>, x: Execution, id: string, file: string)
    ensures Grounded(xs + [x], id, file) <==> Grounded(xs, id, file) || Supports(x, id, file)
  {
    assert forall y :: y in xs + [x] <==> y in xs || y == x;
  }

  predicate Bad(s: Snapshot) {
    exists i :: i in s.items && i.sequence > s.asOf
  }

  /** `is_grounded`; a target of "" means the finding's own file. */
  method IsGrounded(s: Snapshot, id: string, target: string, digest: Option<string>) returns (r: Result<bool>)
    ensures r.Ok? <==> forall i | i in s.items :: i.sequence <= s.asOf
    ensures r.Ok? && FirstWith(FindingsIn(s.items), id).None? ==> !r.value
    ensures r.Ok? && FirstWith(FindingsIn(s.items), id).Some? ==>
        var file := if target != "" then target else FileOf(FirstWith(FindingsIn(s.items), id).value);
        r.value <==> exists x :: x in ExecutionsOf(s) && x.ran && id in x.findingIds && x.target == file
                                 && (digest.Some? ==> x.digest == digest.value)
  {
    hide FirstWith, FileOf, FindingsIn, EventsIn, ExecutionsIn, BodiesOf;
    if exists i :: i in s.items && i.sequence > s.asOf {
      return Rejected;
    }
    var _, executions := Unpack(s);
    var finding := FirstWith(FindingsIn(s.items), id);
    if finding.None? {
      return Ok(false);
    }
    var want := if target != "" then target else FileOf(finding.value);
    for i := 0 to |executions|
      invariant forall k | 0 <= k < i ::
          !(Supports(executions[k], id, want) && (digest.Some? ==> executions[k].digest == digest.value))
    {
      var x := executions[i];
      if id !in x.findingIds {
        continue;
      }
      if !x.ran {
        continue;
      }
      if x.target != want {
        continue;
      }
      if digest.Some? && x.digest != digest.value {
        continue;
      }
      return Ok(true);
    }
    return Ok(false);
  }

  /** What `is_grounded` says by default: it looks at the first finding of that id. */
  ghost predicate QueryGrounds(fs: seq<Finding>, executions: seq<Execution>, id: string) {
    FirstWith(fs, id).Some? && Grounded(executions, id, FileOf(FirstWith(fs, id).value))
  }

  ghost predicate AgreeOn(fs: seq<Finding>, id: string) {
    forall executions :: QueryGrounds(fs, executions, id) <==> MapGrounds(fs, executions, id)
  }

  /** The query and the projection's map agree on an id, whatever the analyzers reported, exactly when the first and the
      last finding of that id name the same file. */
  lemma GroundingAgreesIff(fs: seq<Finding>, id: string)
    requires exists f :: f in fs && f.id == id
    ensures FirstWith(fs, id).Some? && LastWith(fs, id).Some?
    ensures AgreeOn(fs, id) <==> FileOf(FirstWith(fs, id).value) == FileOf(LastWith(fs, id).value)
  {
    hide FirstWith, LastWith, FileOf;
    BothOrNeither(fs, id);
    LastIsThere(fs, id);
    var file, other := FileOf(FirstWith(fs, id).value), FileOf(LastWith(fs, id).value);
    if file != other {
      var x := Execution("", file, "", true, [id]);
      assert Supports(x, id, file) && x in [x];
      assert QueryGrounds(fs, [x], id) && !MapGrounds(fs, [x], id);
    }
  }

  /** With distinct ids that always holds. */
  lemma DistinctIdsAgree(fs: seq<Finding>, id: string)
    requires forall i, j | 0 <= i < j < |fs| :: fs[i].id != fs[j].id
    ensures AgreeOn(fs, id)
  {
    hide FileOf;
    BothOrNeither(fs, id);
    LastIsThere(fs, id);
    hide FirstWith, LastWith;
    if f :| f in fs && f.id == id {
      assert FirstWith(fs, id) == LastWith(fs, id);
    }
  }

  // ---- projection --------------------------------------------------------

  datatype ProjectedFinding = ProjectedFinding(id: string, location: string, grounded: bool,
                                               analyzerId: Option<string>)

  datatype Projection = Projection(asOf: int, targets: seq<Row>, findings: seq<ProjectedFinding>, emptyLabel: bool)

  function FirstAnalyzer(executions: seq<Execution>, id: string): Option<string> {
    if executions == [] then None
    else if id in executions[0].findingIds && executions[0].ran then Some(executions[0].analyzerId)
    else FirstAnalyzer(executions[1..], id)
  }

  predicate Reports(x: Execution, id: string) {
    x.ran && id in x.findingIds
  }

  /** It is the analyzer of the earliest execution that ran and reported the id, and none if there is no such one. */
  lemma {:induction false} FirstAnalyzerIs(executions: seq<Execution>, id: string)
    ensures forall k: nat | k < |executions| && Reports(executions[k], id)
                            && (forall j | 0 <= j < k :: !Reports(executions[j], id)) ::
      FirstAnalyzer(executions, id) == Some(executions[k].analyzerId)
    ensures FirstAnalyzer(executions, id).None? <==> forall k | 0 <= k < |executions| :: !Reports(executions[k], id)
  {
    if executions != [] && !Reports(executions[0], id) {
      var rest := executions[1..];
      FirstAnalyzerIs(rest, id);
      assert forall k | 0 <= k < |rest| :: rest[k] == executions[k + 1];
      forall k: nat | k < |executions| && Reports(executions[k], id)
                      && forall j | 0 <= j < k :: !Reports(executions[j], id)
        ensures FirstAnalyzer(executions, id) == Some(executions[k].analyzerId)
      {
        assert rest[k - 1] == executions[k];
        assert forall j | 0 <= j < k - 1 :: rest[j] == executions[j + 1];
      }
      if forall k | 0 <= k < |rest| :: !Reports(rest[k], id) {
        forall k | 0 <= k < |executions| ensures !Reports(executions[k], id) {
          assert k > 0 ==> executions[k] == rest[k - 1];
        }
      }
    }
  }

  function MapSays(fs: seq<Finding>, executions: seq<Execution>, id: string): bool {
    var last := LastWith(fs, id);
    last.Some? && Grounded(executions, id, FileOf(last.value))
  }

  function ProjectedFindings(fs: seq<Finding>, executions: seq<Execution>): seq<ProjectedFinding> {
    seq(|fs|, i requires 0 <= i < |fs| =>
      ProjectedFinding(fs[i].id, fs[i].location, MapSays(fs, executions, fs[i].id),
                       FirstAnalyzer(executions, fs[i].id)))
  }

  predicate SynthesizedNothing(events: seq<StageEvent>) {
    exists e :: e in events && e.transition == Synthesize && e.outcome == Empty
  }

  function ProjectionOf(asOf: int, events: seq<StageEvent>, executions: seq<Execution>, fs: seq<Finding>): Projection {
    Projection(asOf, RowsOf(events), ProjectedFindings(fs, executions), SynthesizedNothing(events))
  }

  /** `project`. */
  method Project(s: Snapshot) returns (r: Result<Projection>)
    ensures r == if Bad(s) then Rejected
                 else Ok(ProjectionOf(s.asOf, EventsOf(s), ExecutionsOf(s), FindingsIn(s.items)))
    ensures r.Rejected? <==> exists i :: i in s.items && i.sequence > s.asOf
  {
    hide RowsOf, FirstAnalyzer, LastWith, Grounded, FileOf;
    if exists i :: i in s.items && i.sequence > s.asOf {
      return Rejected;
    }
    var events, executions := Unpack(s);
    var fs := FindingsIn(s.items);
    var grounded := GroundingMap(fs, executions);
    var rows := Rows(events);
    forall i | 0 <= i < |fs| ensures fs[i].id in grounded {
      LastIsThere(fs, fs[i].id);
    }
    var projected := seq(|fs|, i requires 0 <= i < |fs| && fs[i].id in grounded =>
      ProjectedFinding(fs[i].id, fs[i].location, grounded[fs[i].id], FirstAnalyzer(executions, fs[i].id)));
    assert projected == ProjectedFindings(fs, executions);
    return Ok(Projection(s.asOf, rows, projected,
                         exists e :: e in events && e.transition == Synthesize && e.outcome == Empty));
  }

  // ---- transitions -------------------------------------------------------

  datatype Request =
    | RunDiscovery(chunk: string, priority: seq<string>, skipped: seq<string>)
    | RunCheck(target: string, outcome: Option<Outcome>)
    | SkipTarget(target: string, why: string)
    | RunSynthesis(extra: seq<Finding>)
    | NoteGap(target: string, note: string)
    | OtherAction

  datatype Moved = Moved(event: StageEvent, projection: Projection)

  const OUTSIDE := "path is outside the bound include set"
  const NO_CHUNK := "0000000000000000000000000000000000000000000000000000000000000000"

  /** The event an action appends, before validation. */
  function EventFor(a: Request, revision: nat, asOf: int, fs: seq<Finding>): StageEvent
    requires !a.OtherAction?
  {
    match a
    case RunDiscovery(chunk, priority, skipped) =>
      StageEvent(Discover, revision, Some(if chunk != "" then chunk else NO_CHUNK), "", Ran, None,
                 asOf, priority, skipped)
    case RunCheck(target, outcome) =>
      StageEvent(Check, revision, None, target, if outcome.Some? then outcome.value else Ran, None, asOf, [], [])
    case SkipTarget(target, why) =>
      StageEvent(Skip, revision, None, target, Skipped, Some(Strip(why)), asOf, [], [])
    case RunSynthesis(extra) =>
      StageEvent(Synthesize, revision, None, "", if fs + extra != [] then Ran else Empty, None, asOf, [], [])
    case NoteGap(target, note) =>
      StageEvent(Gap, revision, None, target, DidNotRun, Some(if note != "" then note else OUTSIDE), asOf, [], [])
  }

  /** The event model's own validation: a decided target is named, and a skip or a gap says why. */
  predicate WellFormed(e: StageEvent) {
    && (e.transition == Discover ==> e.chunkId.Some? && e.chunkId.value != "")
    && (e.transition in {Check, Skip, Gap} ==> e.target != "")
    && (e.transition in {Skip, Gap} ==> e.reason.Some? && Strip(e.reason.value) != "")
  }

  /** What an action must say for its event to be valid: a check, a skip or a gap names its target, and a skip, or a gap
      that gives a reason of its own, has one that is not blank. */
  predicate SaysTooLittle(a: Request) {
    match a
    case RunDiscovery(_, _, _) => false
    case RunCheck(target, _) => target == ""
    case SkipTarget(target, why) => target == "" || Blank(why)
    case RunSynthesis(_) => false
    case NoteGap(target, note) => target == "" || (note != "" && Blank(note))
    case OtherAction => false
  }

  lemma InvalidIff(a: Request, revision: nat, asOf: int, fs: seq<Finding>)
    requires !a.OtherAction?
    ensures WellFormed(EventFor(a, revision, asOf, fs)) <==> !SaysTooLittle(a)
  {
    hide Strip, Blank;
    match a
    case SkipTarget(_, why) =>
      StripEmptiesBlanks(why);
    case NoteGap(_, note) =>
      StripEmptiesBlanks(note);
      NotBlank();
      StripEmptiesBlanks(OUTSIDE);
    case _ =>
  }

  lemma NotBlank()
    ensures !Blank(OUTSIDE)
  {
    assert !IsSpace(OUTSIDE[0]);
  }

  /** What an accepted action's event holds. */
  predicate EventTells(s: Snapshot, a: Request, e: StageEvent) {
    && e.revision == |EventsOf(s)| && e.asOf == s.asOf
    && match a
       case RunDiscovery(chunk, priority, skipped) =>
         && e.transition == Discover && e.outcome == Ran && e.targets == priority && e.skippedTargets == skipped
         && e.chunkId == (if chunk == "" then Some(NO_CHUNK) else Some(chunk))
       case RunCheck(target, outcome) =>
         && e.transition == Check && e.target == target
         && (if outcome == None then e.outcome == Ran else Some(e.outcome) == outcome)
       case SkipTarget(target, why) =>
         e.transition == Skip && e.target == target && e.outcome == Skipped && e.reason == Some(Strip(why))
       case RunSynthesis(extra) =>
         && e.transition == Synthesize
         && e.outcome == if FindingsIn(s.items) == [] && extra == [] then Empty else Ran
       case NoteGap(target, note) =>
         && e.transition == Gap && e.target == target && e.outcome == DidNotRun
         && e.reason == (if note == "" then Some(OUTSIDE) else Some(note))
       case OtherAction => false
  }

  /** `_imagine`: the commit item that the transition would write, one above the watermark. */
  function Imagine(s: Snapshot, e: StageEvent, executions: seq<Execution>): Snapshot {
    Snapshot(s.asOf + 1, s.items + [Item(s.asOf + 1, [EventBody(e)] + ExecutionBodies(executions), None)])
  }

  function ExecutionBodies(xs: seq<Execution>): seq<Body> {
    seq(|xs|, i requires 0 <= i < |xs| => ExecutionBody(xs[i]))
  }

  /** `apply`. */
  method Apply(s: Snapshot, a: Request, executions: seq<Execution>) returns (r: Result<Moved>)
    ensures (r.Rejected? <==> Bad(s)) && (Bad(s) <==> exists i :: i in s.items && i.sequence > s.asOf)
    ensures r.Unsupported? <==> !Bad(s) && a.OtherAction?
    ensures r.Invalid? <==> !Bad(s) && !a.OtherAction?
                            && !WellFormed(EventFor(a, |EventsOf(s)|, s.asOf, FindingsIn(s.items)))
    ensures r.Invalid? <==> !Bad(s) && SaysTooLittle(a)
    ensures r.Ok? ==> r.value.event == EventFor(a, |EventsOf(s)|, s.asOf, FindingsIn(s.items))
    ensures r.Ok? ==> Commits(s, r.value, executions)
  {
    hide ProjectionOf, EventsIn, ExecutionsIn, BodiesOf, FindingsIn, Strip;
    if exists i :: i in s.items && i.sequence > s.asOf {
      return Rejected;
    }
    if a.OtherAction? {
      return Unsupported;
    }
    var events, _ := Unpack(s);
    var event := EventFor(a, |events|, s.asOf, FindingsIn(s.items));
    InvalidIff(a, |events|, s.asOf, FindingsIn(s.items));
    if !WellFormed(event) {
      return Invalid;
    }
    ImagineAppends(s, event, executions);
    ImagineIsGood(s, event, executions);
    var imagined := Project(Imagine(s, event, executions));
    var projection := imagined.value;
    if event.transition == Synthesize && event.outcome == Empty {
      LabelAlreadySet(EventsOf(s), event);
      LabelOf(s.asOf + 1, EventsOf(s) + [event], ExecutionsOf(s) + executions, FindingsIn(s.items));
      projection := projection.(emptyLabel := true);
    }
    return Ok(Moved(event, projection));
  }

  /** The projection is that of the log with the new event and executions at its end. */
  ghost predicate Commits(s: Snapshot, m: Moved, executions: seq<Execution>) {
    m.projection == ProjectionOf(s.asOf + 1, EventsOf(s) + [m.event], ExecutionsOf(s) + executions, FindingsIn(s.items))
  }

  lemma {:induction false} ExecutionBodiesIn(xs: seq<Execution>)
    ensures EventsIn(ExecutionBodies(xs)) == [] && ExecutionsIn(ExecutionBodies(xs)) == xs
  {
    if xs != [] {
      ExecutionBodiesIn(xs[1..]);
      assert ExecutionBodies(xs)[1..] == ExecutionBodies(xs[1..]);
      assert ExecutionBodies(xs)[0] == ExecutionBody(xs[0]);
    }
  }

  lemma OneFindingless(i: Item)
    ensures i.finding.None? ==> FindingsIn([i]) == []
  {
  }

  lemma ImagineAppends(s: Snapshot, e: StageEvent, executions: seq<Execution>)
    ensures EventsOf(Imagine(s, e, executions)) == EventsOf(s) + [e]
    ensures ExecutionsOf(Imagine(s, e, executions)) == ExecutionsOf(s) + executions
    ensures FindingsIn(Imagine(s, e, executions).items) == FindingsIn(s.items)
  {
    hide BodiesOf, EventsIn, ExecutionsIn, FindingsIn, ExecutionBodies;
    var bodies := [EventBody(e)] + ExecutionBodies(executions);
    var item := Item(s.asOf + 1, bodies, None);
    BodiesConcat(s.items, [item]);
    OneItem(item);
    OneFindingless(item);
    InConcat(BodiesOf(s.items), bodies);
    InConcat([EventBody(e)], ExecutionBodies(executions));
    OneBody(EventBody(e));
    ExecutionBodiesIn(executions);
  }

  lemma ImagineIsGood(s: Snapshot, e: StageEvent, executions: seq<Execution>)
    requires !Bad(s)
    ensures !Bad(Imagine(s, e, executions))
  {
  }

  lemma LabelAlreadySet(events: seq<StageEvent>, e: StageEvent)
    requires e.transition == Synthesize && e.outcome == Empty
    ensures SynthesizedNothing(events + [e])
  {
    assert e in events + [e];
  }

  lemma LabelOf(asOf: int, events: seq<StageEvent>, executions: seq<Execution>, fs: seq<Finding>)
    ensures ProjectionOf(asOf, events, executions, fs).emptyLabel == SynthesizedNothing(events)
  {
  }

  /** A transition tells in advance what a later projection will say: once items with the same payloads and no findings
      are committed, in one commit or several, projecting the longer log gives the transition's own projection. */
  lemma {:induction false} CommitProjectsAsImagined(s: Snapshot, m: Moved, executions: seq<Execution>,
                                                  commit: seq<Item>)
    requires !Bad(s) && Commits(s, m, executions)
    requires forall i | i in commit :: i.sequence <= s.asOf + 1 && i.finding.None?
    requires EventsIn(BodiesOf(commit)) == [m.event] && ExecutionsIn(BodiesOf(commit)) == executions
    ensures !Bad(Snapshot(s.asOf + 1, s.items + commit))
    ensures m.projection == ProjectionOf(s.asOf + 1, EventsOf(Snapshot(s.asOf + 1, s.items + commit)),
                                         ExecutionsOf(Snapshot(s.asOf + 1, s.items + commit)),
                                         FindingsIn(s.items + commit))
  {
    hide ProjectionOf, EventsIn, ExecutionsIn, BodiesOf, FindingsIn;
    BodiesConcat(s.items, commit);
    InConcat(BodiesOf(s.items), BodiesOf(commit));
    NoFindings(commit);
    assert FindingsIn(s.items + commit) == FindingsIn(s.items);
  }

  /** A whole session: each accepted action is committed before the next one is applied. Revisions number the events
      without gap or repetition, whatever was refused in between. */
  method Session(s0: Snapshot, actions: seq<Request>) returns (s: Snapshot, emitted: seq<StageEvent>)
    requires !Bad(s0)
    ensures !Bad(s) && s.asOf == s0.asOf + |emitted|
    ensures EventsOf(s) == EventsOf(s0) + emitted && FindingsIn(s.items) == FindingsIn(s0.items)
    ensures forall k | 0 <= k < |emitted| :: emitted[k].revision == |EventsOf(s0)| + k && WellFormed(emitted[k])
  {
    hide ProjectionOf, EventsIn, ExecutionsIn, BodiesOf, FindingsIn, Commits, Bad, WellFormed;
    s, emitted := s0, [];
    for i := 0 to |actions|
      invariant !Bad(s) && s.asOf == s0.asOf + |emitted|
      invariant EventsOf(s) == EventsOf(s0) + emitted && FindingsIn(s.items) == FindingsIn(s0.items)
      invariant forall k | 0 <= k < |emitted| :: emitted[k].revision == |EventsOf(s0)| + k && WellFormed(emitted[k])
    {
      var moved := Apply(s, actions[i], []);
      if moved.Ok? {
        ImagineAppends(s, moved.value.event, []);
        ImagineIsGood(s, moved.value.event, []);
        assert EventsOf(s0) + emitted + [moved.value.event] == EventsOf(s0) + (emitted + [moved.value.event]);
        s, emitted := Imagine(s, moved.value.event, []), emitted + [moved.value.event];
      }
    }
  }

  lemma {:induction false} NoFindings(items: seq<Item>)
    requires forall i | i in items :: i.finding.None?
    ensures FindingsIn(items) == []
  {
    if items != [] {
      NoFindings(items[1..]);
    }
  }

  // ---- what one transition changes ---------------------------------------

  /** `after` is `before` with the row of one target replaced, or appended when it had none. */
  ghost predicate OneRowChanged(before: seq<Row>, after: seq<Row>, row: Row) {
    || (exists i :: 0 <= i < |before| && before[i].target == row.target && after == before[i := row])
    || ((forall i | 0 <= i < |before| :: before[i].target != row.target) && after == before + [row])
  }

  lemma {:induction false} RowsAre(events: seq<StageEvent>)
    ensures |RowsOf(events)| == |FirstMentions(AllMentions(events))|
    ensures forall i | 0 <= i < |RowsOf(events)| ::
        Some(RowsOf(events)[i]) == RowOf(events, FirstMentions(AllMentions(events))[i])
        && RowsOf(events)[i].target == FirstMentions(AllMentions(events))[i]
  {
    var order := FirstMentions(AllMentions(events));
    forall i | 0 <= i < |order|
      ensures RowOf(events, order[i]).Some? && RowOf(events, order[i]).value.target == order[i] {
      FirstMentionsHolds(AllMentions(events));
      assert order[i] in order;
      MentionedHasRow(events, order[i]);
    }
  }

  /** A check, a skip or a gap rewrites exactly its target's row, wherever it stands, and leaves every other one. */
  lemma SettlingChangesOneRow(events: seq<StageEvent>, e: StageEvent)
    requires e.transition in {Check, Skip, Gap} && e.target != ""
    ensures OneRowChanged(RowsOf(events), RowsOf(events + [e]), SettledRow(e))
  {
    hide RowOf, AllMentions, FirstMentions, RowsOf;
    var xs := AllMentions(events);
    var order := FirstMentions(xs);
    RowsAre(events);
    RowsAre(events + [e]);
    MentionsSnoc(events, e);
    RowSnoc(events, e);
    FirstMentionsSnoc(xs, e.target);
    FirstMentionsHolds(xs);
    var before, after := RowsOf(events), RowsOf(events + [e]);
    if e.target in xs {
      var i :| 0 <= i < |order| && order[i] == e.target;
      assert after == before[i := SettledRow(e)];
    } else {
      assert forall i | 0 <= i < |order| :: order[i] in order;
      assert after == before + [SettledRow(e)];
    }
  }

  /** A discovery never changes an existing row: it only appends pending rows. */
  lemma DiscoveryOnlyAppends(events: seq<StageEvent>, e: StageEvent)
    requires e.transition == Discover
    ensures RowsOf(events) <= RowsOf(events + [e])
    ensures forall i | |RowsOf(events)| <= i < |RowsOf(events + [e])| ::
        var row := RowsOf(events + [e])[i];
        row.state == Pending && row.reason == None && row.chunkId == e.chunkId && row.target in e.targets
  {
    hide RowOf, AllMentions, FirstMentions, RowsOf;
    RowsAre(events);
    RowsAre(events + [e]);
    MentionsSnoc(events, e);
    RowSnoc(events, e);
    var xs := AllMentions(events);
    FirstMentionsHolds(xs);
    FirstMentionsExtend(xs, e.targets);
    forall u ensures RowOf(events, u).Some? <==> u in xs {
      MentionedHasRow(events, u);
    }
    var order, order' := FirstMentions(xs), FirstMentions(xs + e.targets);
    assert forall i | 0 <= i < |order| :: order[i] in order && order'[i] == order[i];
  }

  /** Appending mentions keeps the earlier order as a prefix and adds only names not mentioned before. */
  lemma {:induction false} FirstMentionsExtend(xs: seq<string>, ys: seq<string>)
    ensures FirstMentions(xs) <= FirstMentions(xs + ys)
    ensures forall i | |FirstMentions(xs)| <= i < |FirstMentions(xs + ys)| :: FirstMentions(xs + ys)[i] !in xs
    decreases |ys|
  {
    if ys == [] {
      assert xs + ys == xs;
    } else {
      var init := ys[..|ys| - 1];
      FirstMentionsExtend(xs, init);
      assert xs + ys == xs + init + [ys[|ys| - 1]];
      FirstMentionsSnoc(xs + init, ys[|ys| - 1]);
    }
  }

  /** What each accepted action does to the published roadmap: a check, a skip or a gap shows in its target's row, with
      the reason given, and in no other; a discovery lists its priority targets and changes nothing listed before; a
      synthesis leaves the rows alone, and the empty label tells whether some synthesis had nothing to work on. */
  lemma AcceptedActionShows(s: Snapshot, a: Request, m: Moved, executions: seq<Execution>)
    requires !a.OtherAction? && m.event == EventFor(a, |EventsOf(s)|, s.asOf, FindingsIn(s.items))
      && WellFormed(m.event)
    requires Commits(s, m, executions)
    ensures a.RunCheck? ==>
        OneRowChanged(RowsOf(EventsOf(s)), m.projection.targets, Row(a.target, Analysed, None, None))
    ensures a.SkipTarget? ==> Strip(Strip(a.why)) != ""
    ensures a.SkipTarget? ==>
        OneRowChanged(RowsOf(EventsOf(s)), m.projection.targets, Row(a.target, SkippedRow, Some(Strip(a.why)), None))
    ensures a.NoteGap? ==>
        OneRowChanged(RowsOf(EventsOf(s)), m.projection.targets,
                      Row(a.target, GapRow, Some(if a.note != "" then a.note else OUTSIDE), None))
    ensures EventTells(s, a, m.event) && m.projection.asOf == s.asOf + 1
    ensures a.RunDiscovery? ==> RowsOf(EventsOf(s)) <= m.projection.targets
    ensures a.RunDiscovery? ==> forall i | |RowsOf(EventsOf(s))| <= i < |m.projection.targets| ::
        var row := m.projection.targets[i];
        row == Row(row.target, Pending, None, m.event.chunkId) && row.target in a.priority
    ensures a.RunDiscovery? ==> forall t | t in a.priority :: Listed(m.projection.targets, t)
    ensures a.RunSynthesis? ==> m.projection.targets == RowsOf(EventsOf(s))
    ensures a.RunSynthesis? ==>
        (m.projection.emptyLabel <==> SynthesizedNothing(EventsOf(s)) || FindingsIn(s.items) + a.extra == [])
  {
    hide RowsOf, EventsIn, BodiesOf, FindingsIn, OneRowChanged, Strip, SynthesizedNothing, Listed;
    var events, e := EventsOf(s), m.event;
    match a
    case RunDiscovery(chunk, priority, skipped) =>
      DiscoveryOnlyAppends(events, e);
      forall t | t in priority ensures Listed(m.projection.targets, t) {
        MentionedIsListed(events, e, t);
      }
    case RunSynthesis(extra) =>
      SynthesisKeepsRows(events, e);
    case _ =>
      SettlingChangesOneRow(events, e);
  }

  predicate Listed(rows: seq<Row>, t: string) {
    exists row :: row in rows && row.target == t
  }

  lemma MentionedIsListed(events: seq<StageEvent>, e: StageEvent, t: string)
    requires t in Mentions(e)
    ensures Listed(RowsOf(events + [e]), t)
  {
    hide AllMentions, FirstMentions, RowOf, RowsOf;
    MentionsSnoc(events, e);
    var xs := AllMentions(events + [e]);
    FirstMentionsHolds(xs);
    RowsAre(events + [e]);
    assert t in xs && t in FirstMentions(xs);
    var i :| 0 <= i < |FirstMentions(xs)| && FirstMentions(xs)[i] == t;
    assert RowsOf(events + [e])[i] in RowsOf(events + [e]);
  }

  lemma SynthesisKeepsRows(events: seq<StageEvent>, e: StageEvent)
    requires e.transition == Synthesize
    ensures RowsOf(events + [e]) == RowsOf(events)
    ensures SynthesizedNothing(events + [e]) <==> SynthesizedNothing(events) || e.outcome == Empty
  {
    hide RowOf, AllMentions, FirstMentions;
    MentionsSnoc(events, e);
    RowSnoc(events, e);
    assert AllMentions(events + [e]) == AllMentions(events);
    assert forall x :: x in events + [e] <==> x in events || x == e;
  }
}
