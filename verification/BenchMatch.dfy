/** The benchmark's ground-truth matcher and score (scripts/bench.py). A normalised location (file base name or
    contract, and function) is a given value, `Place`. */
module BenchMatch {
  import opened Options
  import opened Sorting

  datatype Place = Place(base: string, function_: string)

  datatype GroundTruth = GroundTruth(id: string, tag: string, place: Place, severity: string)

  /** A candidate without a tag can never be credited. */
  datatype Candidate = Candidate(id: string, tag: Option<string>, place: Place, severity: string)

  datatype Reason = TagMismatch | LocationMismatch

  datatype MatchResult = MatchResult(matched: seq<(Candidate, GroundTruth)>, missed: seq<GroundTruth>,
                                     spurious: seq<Candidate>, needsReview: seq<(Candidate, GroundTruth, Reason)>)

  predicate SamePlace(c: Candidate, t: GroundTruth) {
    c.place == t.place
  }

  predicate SameTag(c: Candidate, t: GroundTruth) {
    c.tag == Some(t.tag)
  }

  predicate Hits(c: Candidate, t: GroundTruth) {
    SamePlace(c, t) && SameTag(c, t)
  }

  predicate Shares(c: Candidate, t: GroundTruth) {
    SamePlace(c, t) || SameTag(c, t)
  }

  // ---- one candidate -----------------------------------------------------

  /** Index of the first unclaimed truth that `c` hits, or the length. */
  function FirstHit(c: Candidate, ts: seq<GroundTruth>): (i: nat)
    ensures i <= |ts| && (i < |ts| ==> Hits(c, ts[i]))
    ensures forall j | 0 <= j < i :: !Hits(c, ts[j])
  {
    if ts == [] || Hits(c, ts[0]) then 0 else 1 + FirstHit(c, ts[1..])
  }

  function FirstShare(c: Candidate, ts: seq<GroundTruth>): (i: nat)
    ensures i <= |ts| && (i < |ts| ==> Shares(c, ts[i]))
    ensures forall j | 0 <= j < i :: !Shares(c, ts[j])
  {
    if ts == [] || Shares(c, ts[0]) then 0 else 1 + FirstShare(c, ts[1..])
  }

  function Why(c: Candidate, t: GroundTruth): Reason {
    if SamePlace(c, t) then TagMismatch else LocationMismatch
  }

  function FirstNear(c: Candidate, ts: seq<GroundTruth>): Option<(GroundTruth, Reason)> {
    var n := FirstShare(c, ts);
    if n < |ts| then Some((ts[n], Why(c, ts[n]))) else None
  }

  /** The scan of the unclaimed truths: it stops at the first hit and keeps the first near miss. */
  method Scan(c: Candidate, ts: seq<GroundTruth>) returns (hit: nat, near: Option<(GroundTruth, Reason)>)
    ensures hit == FirstHit(c, ts)
    ensures hit == |ts| ==> near == FirstNear(c, ts)
  {
    hit, near := 0, None;
    ghost var n := 0;
    while hit < |ts|
      invariant 0 <= n <= hit <= |ts|
      invariant forall j | 0 <= j < hit :: !Hits(c, ts[j])
      invariant forall j | 0 <= j < n :: !Shares(c, ts[j])
      invariant near == if n < hit then Some((ts[n], Why(c, ts[n]))) else None
      invariant n < hit ==> Shares(c, ts[n])
    {
      var samePlace, sameTag := c.place == ts[hit].place, c.tag.Some? && c.tag.value == ts[hit].tag;
      if samePlace && sameTag {
        return;
      }
      if samePlace && near.None? {
        near := Some((ts[hit], TagMismatch));
      } else if sameTag && near.None? {
        near := Some((ts[hit], LocationMismatch));
      }
      n := if near.None? then n + 1 else n;
      hit := hit + 1;
    }
  }

  // ---- the greedy pass as a fold -----------------------------------------

  datatype State = State(matched: seq<(Candidate, GroundTruth)>, needsReview: seq<(Candidate, GroundTruth, Reason)>,
                         spurious: seq<Candidate>, unclaimed: seq<GroundTruth>)

  function Without<T>(s: seq<T>, i: nat): seq<T>
    requires i < |s|
  {
    s[..i] + s[i + 1..]
  }

  function Judge(s: State, c: Candidate): State {
    var ts := s.unclaimed;
    var h, near := FirstHit(c, ts), FirstNear(c, ts);
    if h < |ts| then s.(matched := s.matched + [(c, ts[h])], unclaimed := Without(ts, h))
    else if near.Some? then s.(needsReview := s.needsReview + [(c, near.value.0, near.value.1)])
    else s.(spurious := s.spurious + [c])
  }

  function Greedy(cs: seq<Candidate>, truth: seq<GroundTruth>): State {
    if cs == [] then State([], [], [], truth) else Judge(Greedy(cs[..|cs| - 1], truth), cs[|cs| - 1])
  }

  function CandId(c: Candidate): string { c.id }
  function TruthId(t: GroundTruth): string { t.id }

  function Matching(produced: seq<Candidate>, truth: seq<GroundTruth>): MatchResult {
    var s := Greedy(SortBy(produced, CandId), truth);
    MatchResult(s.matched, SortBy(s.unclaimed, TruthId), s.spurious, s.needsReview)
  }

  /** `match_findings`. */
  method MatchFindings(produced: seq<Candidate>, truth: seq<GroundTruth>) returns (res: MatchResult)
    ensures res == Matching(produced, truth)
  {
    hide FirstHit, FirstNear, SortBy;
    var sorted := SortBy(produced, CandId);
    var unclaimed := truth;
    var matched, needsReview, spurious := [], [], [];
    for i := 0 to |sorted|
      invariant State(matched, needsReview, spurious, unclaimed) == Greedy(sorted[..i], truth)
    {
      assert sorted[..i + 1][..i] == sorted[..i];
      var hit, near := Scan(sorted[i], unclaimed);
      if hit < |unclaimed| {
        matched := matched + [(sorted[i], unclaimed[hit])];
        unclaimed := unclaimed[..hit] + unclaimed[hit + 1..];
      } else if near.Some? {
        needsReview := needsReview + [(sorted[i], near.value.0, near.value.1)];
      } else {
        spurious := spurious + [sorted[i]];
      }
    }
    assert sorted[..|sorted|] == sorted;
    res := MatchResult(matched, SortBy(unclaimed, TruthId), spurious, needsReview);
  }

  // ---- keys and bags -----------------------------------------------------

  datatype Key = Key(place: Place, tag: string)

  function CandKey(c: Candidate): Option<Key> {
    if c.tag.Some? then Some(Key(c.place, c.tag.value)) else None
  }

  function TruthKey(t: GroundTruth): Option<Key> {
    Some(Key(t.place, t.tag))
  }

  function TruthTag(t: GroundTruth): Option<string> {
    Some(t.tag)
  }

  lemma HitIsSameKey(c: Candidate, t: GroundTruth)
    ensures Hits(c, t) <==> CandKey(c) == TruthKey(t)
  {
  }

  function One<K>(k: Option<K>): multiset<K> {
    if k.Some? then multiset{k.value} else multiset{}
  }

  /** The keys of a list, with multiplicity; an element without a key adds none. */
  function Bag<T, K>(xs: seq<T>, key: T -> Option<K>): multiset<K> {
    if xs == [] then multiset{} else One(key(xs[0])) + Bag(xs[1..], key)
  }

  lemma {:induction false} BagConcat<T, K>(a: seq<T>, b: seq<T>, key: T -> Option<K>)
    ensures Bag(a + b, key) == Bag(a, key) + Bag(b, key)
  {
    if a == [] {
      assert a + b == b;
    } else {
      assert (a + b)[1..] == a[1..] + b;
      BagConcat(a[1..], b, key);
    }
  }

  lemma BagSnoc<T, K>(a: seq<T>, x: T, key: T -> Option<K>)
    ensures Bag(a + [x], key) == Bag(a, key) + One(key(x))
  {
    BagConcat(a, [x], key);
    assert Bag([x], key) == One(key(x)) + Bag([], key);
  }

  lemma MultisetWithout<T>(a: seq<T>, i: nat)
    requires i < |a|
    ensures multiset(a) == multiset(Without(a, i)) + multiset{a[i]}
  {
    assert a == a[..i] + [a[i]] + a[i + 1..];
  }

  lemma {:induction false} BagWithout<T, K>(a: seq<T>, i: nat, key: T -> Option<K>)
    requires i < |a|
    ensures Bag(a, key) == Bag(Without(a, i), key) + One(key(a[i]))
  {
    hide Bag;
    var front, back := a[..i], a[i + 1..];
    assert a == front + [a[i]] + back;
    BagConcat(front + [a[i]], back, key);
    BagSnoc(front, a[i], key);
    BagConcat(front, back, key);
  }

  lemma HeadOccurs<T>(a: seq<T>, b: seq<T>) returns (i: nat)
    requires a != [] && multiset(a) <= multiset(b)
    ensures i < |b| && b[i] == a[0]
    ensures multiset(a[1..]) <= multiset(Without(b, i))
  {
    assert a == [a[0]] + a[1..];
    assert a[0] in multiset(a);
    assert a[0] in multiset(b);
    i :| 0 <= i < |b| && b[i] == a[0];
    MultisetWithout(b, i);
    hide Without;
    SameCancels(multiset(a[1..]), multiset(Without(b, i)), a[0]);
  }

  lemma SameCancels<T>(a: multiset<T>, b: multiset<T>, x: T)
    requires a + multiset{x} <= b + multiset{x}
    ensures a <= b
  {
    assert a == (a + multiset{x}) - multiset{x};
    assert b == (b + multiset{x}) - multiset{x};
  }

  /** A sub-collection has a sub-bag of keys, in whatever order. */
  lemma {:induction false} BagMonotone<T, K>(a: seq<T>, b: seq<T>, key: T -> Option<K>)
    requires multiset(a) <= multiset(b)
    ensures Bag(a, key) <= Bag(b, key)
  {
    hide Without;
    if a != [] {
      var i := HeadOccurs(a, b);
      BagWithout(b, i, key);
      BagMonotone(a[1..], Without(b, i), key);
    }
  }

  lemma {:induction false} BagOfSame<T, K>(a: seq<T>, b: seq<T>, key: T -> Option<K>)
    requires multiset(a) == multiset(b)
    ensures Bag(a, key) == Bag(b, key)
  {
    BagMonotone(a, b, key);
    BagMonotone(b, a, key);
  }

  lemma {:induction false} BagSize(ts: seq<GroundTruth>)
    ensures |Bag(ts, TruthKey)| == |ts|
  {
    if ts != [] {
      BagSize(ts[1..]);
    }
  }

  function Credited(ms: seq<(Candidate, GroundTruth)>): (cs: seq<Candidate>)
    ensures |cs| == |ms|
  {
    seq(|ms|, i requires 0 <= i < |ms| => ms[i].0)
  }

  function Found(ms: seq<(Candidate, GroundTruth)>): (ts: seq<GroundTruth>)
    ensures |ts| == |ms|
  {
    seq(|ms|, i requires 0 <= i < |ms| => ms[i].1)
  }

  /** The near misses without their reasons. */
  function Paired(rs: seq<(Candidate, GroundTruth, Reason)>): (ms: seq<(Candidate, GroundTruth)>)
    ensures |ms| == |rs|
  {
    seq(|rs|, i requires 0 <= i < |rs| => (rs[i].0, rs[i].1))
  }

  function Reviewed(rs: seq<(Candidate, GroundTruth, Reason)>): seq<Candidate> {
    Credited(Paired(rs))
  }

  // ---- what the fold keeps -----------------------------------------------

  /** Mid-pass: truths are only moved, and each key was credited as often as both sides allow. */
  ghost predicate Fair(s: State, cs: seq<Candidate>, truth: seq<GroundTruth>) {
    && Bag(Found(s.matched), TruthKey) + Bag(s.unclaimed, TruthKey) == Bag(truth, TruthKey)
    && Bag(Found(s.matched), TruthKey) == Bag(cs, CandKey) * Bag(truth, TruthKey)
  }

  /** Adding one candidate's key to the produced bag: it is credited exactly when some truth of that key is left. */
  lemma OneMoreKey(found: multiset<Key>, left: multiset<Key>, cs: multiset<Key>, truth: multiset<Key>, k: Key)
    requires found + left == truth && found == cs * truth
    ensures k in left ==> found + multiset{k} == (cs + multiset{k}) * truth
    ensures k !in left ==> found == (cs + multiset{k}) * truth
  {
    assert found[k] + left[k] == truth[k];
  }

  lemma FoundSnoc(ms: seq<(Candidate, GroundTruth)>, m: (Candidate, GroundTruth))
    ensures Found(ms + [m]) == Found(ms) + [m.1] && Credited(ms + [m]) == Credited(ms) + [m.0]
  {
  }

  lemma {:induction false} KeyInBag(ts: seq<GroundTruth>, k: Key)
    ensures k in Bag(ts, TruthKey) <==> exists i :: 0 <= i < |ts| && TruthKey(ts[i]) == Some(k)
  {
    if ts != [] {
      KeyInBag(ts[1..], k);
      if i :| 0 <= i < |ts[1..]| && TruthKey(ts[1..][i]) == Some(k) {
        assert ts[i + 1] == ts[1..][i];
      }
      if i :| 0 < i < |ts| && TruthKey(ts[i]) == Some(k) {
        assert ts[1..][i - 1] == ts[i];
      }
    }
  }

  lemma JudgeIsFair(s: State, cs: seq<Candidate>, truth: seq<GroundTruth>, c: Candidate)
    requires Fair(s, cs, truth)
    ensures Fair(Judge(s, c), cs + [c], truth)
  {
    hide Bag, FirstHit;
    var ts, h := s.unclaimed, FirstHit(c, s.unclaimed);
    BagSnoc(cs, c, CandKey);
    if h < |ts| {
      var k := CandKey(c).value;
      HitIsSameKey(c, ts[h]);
      KeyInBag(ts, k);
      OneMoreKey(Bag(Found(s.matched), TruthKey), Bag(ts, TruthKey), Bag(cs, CandKey), Bag(truth, TruthKey), k);
      BagWithout(ts, h, TruthKey);
      FoundSnoc(s.matched, (c, ts[h]));
      BagSnoc(Found(s.matched), ts[h], TruthKey);
    } else if CandKey(c).Some? {
      var k := CandKey(c).value;
      KeyInBag(ts, k);
      forall i | 0 <= i < |ts| ensures TruthKey(ts[i]) != Some(k) {
        HitIsSameKey(c, ts[i]);
      }
      OneMoreKey(Bag(Found(s.matched), TruthKey), Bag(ts, TruthKey), Bag(cs, CandKey), Bag(truth, TruthKey), k);
    }
  }

  lemma {:induction false} GreedyIsFair(cs: seq<Candidate>, truth: seq<GroundTruth>)
    ensures Fair(Greedy(cs, truth), cs, truth)
    decreases |cs|
  {
    hide Fair;
    if cs == [] {
      assert Fair(State([], [], [], truth), [], truth) by {
        NothingYet(truth);
      }
    } else {
      GreedyIsFair(cs[..|cs| - 1], truth);
      JudgeIsFair(Greedy(cs[..|cs| - 1], truth), cs[..|cs| - 1], truth, cs[|cs| - 1]);
      assert cs == cs[..|cs| - 1] + [cs[|cs| - 1]];
    }
  }

  lemma NothingYet(truth: seq<GroundTruth>)
    ensures Fair(State([], [], [], truth), [], truth)
  {
  }

  /** Mid-pass: the candidates and the truths are partitioned, and no possible credit is left open. */
  ghost predicate Sorted(s: State, cs: seq<Candidate>, truth: seq<GroundTruth>) {
    && multiset(Credited(s.matched)) + multiset(Reviewed(s.needsReview)) + multiset(s.spurious) == multiset(cs)
    && multiset(Found(s.matched)) + multiset(s.unclaimed) == multiset(truth)
    && (forall m | m in s.matched :: Hits(m.0, m.1))
    && (forall r | r in s.needsReview :: Shares(r.0, r.1) && !Hits(r.0, r.1) && r.2 == Why(r.0, r.1) && r.1 in truth)
    && (forall r, t | r in s.needsReview && t in s.unclaimed :: !Hits(r.0, t))
    && (forall c, t | c in s.spurious && t in s.unclaimed :: !Shares(c, t))
  }

  lemma JudgeKeepsSorted(s: State, cs: seq<Candidate>, truth: seq<GroundTruth>, c: Candidate)
    requires Sorted(s, cs, truth)
    ensures Sorted(Judge(s, c), cs + [c], truth)
  {
    var ts, h, n := s.unclaimed, FirstHit(c, s.unclaimed), FirstShare(c, s.unclaimed);
    if h < |ts| {
      CreditKeepsSorted(s, cs, truth, c, h);
    } else if n < |ts| {
      ReviewKeepsSorted(s, cs, truth, c, n);
    } else {
      SpuriousKeepsSorted(s, cs, truth, c);
    }
  }

  lemma CreditKeepsSorted(s: State, cs: seq<Candidate>, truth: seq<GroundTruth>, c: Candidate, h: nat)
    requires Sorted(s, cs, truth) && h < |s.unclaimed| && Hits(c, s.unclaimed[h])
    ensures Sorted(s.(matched := s.matched + [(c, s.unclaimed[h])], unclaimed := Without(s.unclaimed, h)),
                   cs + [c], truth)
  {
    hide Hits, Shares, Why, Found, Credited;
    MultisetWithout(s.unclaimed, h);
    FoundSnoc(s.matched, (c, s.unclaimed[h]));
    assert forall t | t in Without(s.unclaimed, h) :: t in s.unclaimed;
    hide Without;
  }

  lemma ReviewKeepsSorted(s: State, cs: seq<Candidate>, truth: seq<GroundTruth>, c: Candidate, n: nat)
    requires Sorted(s, cs, truth) && n < |s.unclaimed| && Shares(c, s.unclaimed[n])
    requires forall t | t in s.unclaimed :: !Hits(c, t)
    ensures Sorted(s.(needsReview := s.needsReview + [(c, s.unclaimed[n], Why(c, s.unclaimed[n]))]), cs + [c], truth)
  {
    var r := (c, s.unclaimed[n], Why(c, s.unclaimed[n]));
    hide Hits, Shares, Why, Found, Credited;
    assert Reviewed(s.needsReview + [r]) == Reviewed(s.needsReview) + [c];
    assert s.unclaimed[n] in multiset(s.unclaimed) && s.unclaimed[n] in multiset(truth);
  }

  lemma SpuriousKeepsSorted(s: State, cs: seq<Candidate>, truth: seq<GroundTruth>, c: Candidate)
    requires Sorted(s, cs, truth) && forall t | t in s.unclaimed :: !Shares(c, t)
    ensures Sorted(s.(spurious := s.spurious + [c]), cs + [c], truth)
  {
    hide Hits, Shares, Why, Found, Credited, Reviewed;
  }

  lemma NothingSorted(truth: seq<GroundTruth>)
    ensures Sorted(State([], [], [], truth), [], truth)
  {
  }

  lemma {:induction false} GreedySorts(cs: seq<Candidate>, truth: seq<GroundTruth>)
    ensures Sorted(Greedy(cs, truth), cs, truth)
    decreases |cs|
  {
    hide Sorted, Judge;
    if cs == [] {
      NothingSorted(truth);
    } else {
      GreedySorts(cs[..|cs| - 1], truth);
      JudgeKeepsSorted(Greedy(cs[..|cs| - 1], truth), cs[..|cs| - 1], truth, cs[|cs| - 1]);
      assert cs == cs[..|cs| - 1] + [cs[|cs| - 1]];
    }
  }

  // ---- main results ------------------------------------------------------

  /** A near miss agrees with its truth in exactly one of place and tag, and its reason names the other. */
  predicate NearMiss(c: Candidate, t: GroundTruth, why: Reason) {
    && (why == TagMismatch ==> c.place == t.place && c.tag != Some(t.tag))
    && (why == LocationMismatch ==> c.place != t.place && c.tag == Some(t.tag))
  }

  /** Who is credited, by counting alone: going through the list, whoever has a key of which there are more truths than
      candidates before. */
  function Credits(cs: seq<Candidate>, truth: seq<GroundTruth>): seq<Candidate> {
    if cs == [] then []
    else
      var n := |cs| - 1;
      var k := CandKey(cs[n]);
      Credits(cs[..n], truth)
      + if k.Some? && Bag(cs[..n], CandKey)[k.value] < Bag(truth, TruthKey)[k.value] then [cs[n]] else []
  }

  /** What is left of the truths once the first of them with these keys are taken out. */
  function LeftOver(ts: seq<GroundTruth>, claims: multiset<Key>): seq<GroundTruth> {
    if ts == [] then []
    else
      var k := Key(ts[0].place, ts[0].tag);
      if k in claims then LeftOver(ts[1..], claims - multiset{k}) else [ts[0]] + LeftOver(ts[1..], claims)
  }

  lemma {:induction false} CreditsOfGreedy(cs: seq<Candidate>, truth: seq<GroundTruth>)
    ensures Credited(Greedy(cs, truth).matched) == Credits(cs, truth)
    decreases |cs|
  {
    hide Bag, FirstHit, FirstNear;
    if cs != [] {
      var n := |cs| - 1;
      var s, c := Greedy(cs[..n], truth), cs[n];
      CreditsOfGreedy(cs[..n], truth);
      GreedyIsFair(cs[..n], truth);
      CreditedIff(s, cs[..n], truth, c);
      if FirstHit(c, s.unclaimed) < |s.unclaimed| {
        FoundSnoc(s.matched, (c, s.unclaimed[FirstHit(c, s.unclaimed)]));
      }
    }
  }

  lemma CreditedIff(s: State, cs: seq<Candidate>, truth: seq<GroundTruth>, c: Candidate)
    requires Fair(s, cs, truth)
    ensures FirstHit(c, s.unclaimed) < |s.unclaimed|
      <==> c.tag.Some? && Bag(cs, CandKey)[Key(c.place, c.tag.value)] < Bag(truth, TruthKey)[Key(c.place, c.tag.value)]
  {
    hide Bag, FirstHit;
    var ts, h := s.unclaimed, FirstHit(c, s.unclaimed);
    forall i | 0 <= i < |ts| ensures Hits(c, ts[i]) <==> CandKey(c) == TruthKey(ts[i]) {
      HitIsSameKey(c, ts[i]);
    }
    if c.tag.Some? {
      var k := Key(c.place, c.tag.value);
      KeyInBag(ts, k);
      assert (Bag(Found(s.matched), TruthKey) + Bag(ts, TruthKey))[k] == Bag(truth, TruthKey)[k];
    }
  }

  lemma FirstHitStep(c: Candidate, ts: seq<GroundTruth>)
    requires ts != []
    ensures FirstHit(c, ts) == if Hits(c, ts[0]) then 0 else 1 + FirstHit(c, ts[1..])
  {
  }

  lemma WithoutBehind<T>(s: seq<T>, h: nat)
    requires h < |s| - 1
    ensures Without(s, 1 + h) == [s[0]] + Without(s[1..], h)
  {
    assert s[..1 + h] == [s[0]] + s[1..][..h];
    assert s[2 + h..] == s[1..][h + 1..];
  }

  lemma HitBehind(c: Candidate, t: GroundTruth, rest: seq<GroundTruth>)
    ensures var ts, h := [t] + rest, FirstHit(c, rest);
      && (Hits(c, t) ==> FirstHit(c, ts) == 0 && Without(ts, 0) == rest)
      && (!Hits(c, t) ==> FirstHit(c, ts) == 1 + h)
      && (!Hits(c, t) && h < |rest| ==> Without(ts, 1 + h) == [t] + Without(rest, h))
  {
    var ts, h := [t] + rest, FirstHit(c, rest);
    assert ts[1..] == rest;
    FirstHitStep(c, ts);
    if h < |rest| {
      hide Without, FirstHit, Hits;
      WithoutBehind(ts, h);
    }
  }

  lemma LeftStep(ts: seq<GroundTruth>, claims: multiset<Key>)
    requires ts != []
    ensures var k := Key(ts[0].place, ts[0].tag);
      LeftOver(ts, claims)
      == if k in claims then LeftOver(ts[1..], claims - multiset{k}) else [ts[0]] + LeftOver(ts[1..], claims)
  {
  }

  lemma HitIsKey(c: Candidate, t: GroundTruth)
    requires c.tag.Some?
    ensures Hits(c, t) <==> Key(c.place, c.tag.value) == Key(t.place, t.tag)
  {
  }

  lemma MoveClaim(claims: multiset<Key>, t: Key, k: Key)
    ensures t in claims ==> claims + multiset{k} - multiset{t} == claims - multiset{t} + multiset{k}
    ensures claims + multiset{k} - multiset{k} == claims
    ensures t in claims + multiset{k} <==> t == k || t in claims
  {
  }

  /** One more claim takes out the first truth it hits, if there is one. */
  lemma {:induction false} ClaimOne(ts: seq<GroundTruth>, claims: multiset<Key>, c: Candidate)
    requires c.tag.Some?
    ensures var left := LeftOver(ts, claims);
      var h := FirstHit(c, left);
      LeftOver(ts, claims + multiset{Key(c.place, c.tag.value)}) == if h < |left| then Without(left, h) else left
    decreases |ts|
  {
    if ts != [] {
      HitIsKey(c, ts[0]);
      hide LeftOver, FirstHit, Without, Hits;
      var k, t := Key(c.place, c.tag.value), Key(ts[0].place, ts[0].tag);
      MoveClaim(claims, t, k);
      LeftStep(ts, claims);
      LeftStep(ts, claims + multiset{k});
      if t in claims {
        ClaimOne(ts[1..], claims - multiset{t}, c);
      } else {
        ClaimOne(ts[1..], claims, c);
        HitBehind(c, ts[0], LeftOver(ts[1..], claims));
      }
    }
  }

  lemma {:induction false} LeftOfGreedy(cs: seq<Candidate>, truth: seq<GroundTruth>)
    ensures Greedy(cs, truth).unclaimed == LeftOver(truth, Bag(cs, CandKey))
    decreases |cs|
  {
    hide Bag, FirstHit, FirstNear, LeftOver;
    if cs == [] {
      NothingClaimed(truth);
    } else {
      var n := |cs| - 1;
      LeftOfGreedy(cs[..n], truth);
      BagSnoc(cs[..n], cs[n], CandKey);
      assert cs[..n] + [cs[n]] == cs;
      var left := Greedy(cs[..n], truth).unclaimed;
      if cs[n].tag.Some? {
        ClaimOne(truth, Bag(cs[..n], CandKey), cs[n]);
      } else {
        assert forall i | 0 <= i < |left| :: !Hits(cs[n], left[i]);
        assert Bag(cs[..n], CandKey) + One(None) == Bag(cs[..n], CandKey);
        assert FirstHit(cs[n], left) == |left|;
      }
    }
  }

  lemma {:induction false} NothingClaimed(ts: seq<GroundTruth>)
    ensures Bag([], CandKey) == multiset{} && LeftOver(ts, multiset{}) == ts
  {
    if ts != [] {
      NothingClaimed(ts[1..]);
    }
  }

  /** Said by counting: credit goes to the least ids of each key, as many as there are truths of it, and it takes the
      truths of that key that are listed first. */
  lemma CreditGoesByOrder(produced: seq<Candidate>, truth: seq<GroundTruth>)
    ensures var m, sorted := Matching(produced, truth), SortBy(produced, CandId);
      && Credited(m.matched) == Credits(sorted, truth)
      && m.missed == SortBy(LeftOver(truth, Bag(sorted, CandKey)), TruthId)
  {
    hide Greedy, Bag, Credits, LeftOver, SortBy;
    CreditsOfGreedy(SortBy(produced, CandId), truth);
    LeftOfGreedy(SortBy(produced, CandId), truth);
  }

  /** Produced findings split into matched, reviewed and spurious, and truths into matched and missed, each used once;
      what was not credited could not have been credited with anything missed. */
  lemma MatchingPartitions(produced: seq<Candidate>, truth: seq<GroundTruth>)
    ensures var m := Matching(produced, truth);
      && multiset(Credited(m.matched)) + multiset(Reviewed(m.needsReview)) + multiset(m.spurious) == multiset(produced)
      && multiset(Found(m.matched)) + multiset(m.missed) == multiset(truth)
    ensures NothingOverlooked(Matching(produced, truth), truth)
  {
    hide Sorted, Greedy;
    SortByIsSorted(produced, CandId);
    var sorted := SortBy(produced, CandId);
    var s := Greedy(sorted, truth);
    GreedySorts(sorted, truth);
    SortByIsSorted(s.unclaimed, TruthId);
    SortByMembers(s.unclaimed, TruthId);
    SortedParts(s, sorted, truth);
  }

  ghost predicate NothingOverlooked(m: MatchResult, truth: seq<GroundTruth>) {
    && (forall p | p in m.matched :: p.0.place == p.1.place && p.0.tag == Some(p.1.tag))
    && (forall r | r in m.needsReview :: r.1 in truth && NearMiss(r.0, r.1, r.2))
    && (forall r, t | r in m.needsReview && t in m.missed :: !Hits(r.0, t))
    && (forall c, t | c in m.spurious && t in m.missed :: !Shares(c, t))
  }

  lemma SortedParts(s: State, cs: seq<Candidate>, truth: seq<GroundTruth>)
    requires Sorted(s, cs, truth)
    ensures multiset(Credited(s.matched)) + multiset(Reviewed(s.needsReview)) + multiset(s.spurious) == multiset(cs)
    ensures multiset(Found(s.matched)) + multiset(s.unclaimed) == multiset(truth)
    ensures forall m | m in s.matched :: Hits(m.0, m.1)
    ensures forall r | r in s.needsReview ::
                Shares(r.0, r.1) && !Hits(r.0, r.1) && r.2 == Why(r.0, r.1) && r.1 in truth
    ensures forall r, t | r in s.needsReview && t in s.unclaimed :: !Hits(r.0, t)
    ensures forall c, t | c in s.spurious && t in s.unclaimed :: !Shares(c, t)
  {
  }

  /** Per location and tag, the matched count is the smaller of the produced and the true count. */
  lemma MatchedIsTheOverlap(produced: seq<Candidate>, truth: seq<GroundTruth>)
    ensures Bag(Found(Matching(produced, truth).matched), TruthKey) == Bag(produced, CandKey) * Bag(truth, TruthKey)
  {
    hide Greedy;
    var sorted := SortBy(produced, CandId);
    SortByIsSorted(produced, CandId);
    BagOfSame(sorted, produced, CandKey);
    GreedyIsFair(sorted, truth);
  }

  /** The score does not depend on the order the detector produced its findings in, nor on the order of the labels. */
  lemma MatchedCountIgnoresOrder(p: seq<Candidate>, q: seq<Candidate>, s: seq<GroundTruth>, t: seq<GroundTruth>)
    requires multiset(p) == multiset(q) && multiset(s) == multiset(t)
    ensures |Matching(p, s).matched| == |Matching(q, t).matched|
    ensures Bag(Found(Matching(p, s).matched), TruthKey) == Bag(Found(Matching(q, t).matched), TruthKey)
  {
    hide Matching;
    MatchedIsTheOverlap(p, s);
    MatchedIsTheOverlap(q, t);
    BagOfSame(p, q, CandKey);
    BagOfSame(s, t, TruthKey);
    BagSize(Found(Matching(p, s).matched));
    BagSize(Found(Matching(q, t).matched));
  }

  /** No other way to pair produced findings with truths, each used at most once, credits more. */
  lemma GreedyIsMaximum(produced: seq<Candidate>, truth: seq<GroundTruth>, other: seq<(Candidate, GroundTruth)>)
    requires multiset(Credited(other)) <= multiset(produced) && multiset(Found(other)) <= multiset(truth)
    requires forall m | m in other :: Hits(m.0, m.1)
    ensures |other| <= |Matching(produced, truth).matched|
  {
    hide Matching, Hits;
    var ours := Found(Matching(produced, truth).matched);
    MatchedIsTheOverlap(produced, truth);
    SameKeys(other);
    BagMonotone(Credited(other), produced, CandKey);
    BagMonotone(Found(other), truth, TruthKey);
    assert Bag(Found(other), TruthKey) <= Bag(ours, TruthKey);
    SmallerBag(Bag(Found(other), TruthKey), Bag(ours, TruthKey));
    BagSize(Found(other));
    BagSize(ours);
  }

  lemma SmallerBag<K>(a: multiset<K>, b: multiset<K>)
    requires a <= b
    ensures |a| <= |b|
  {
    assert b == a + (b - a);
  }

  lemma NoKeys()
    ensures Bag(Credited([]), CandKey) == Bag(Found([]), TruthKey)
  {
  }

  lemma {:induction false} SameKeys(ms: seq<(Candidate, GroundTruth)>)
    requires forall m | m in ms :: Hits(m.0, m.1)
    ensures Bag(Credited(ms), CandKey) == Bag(Found(ms), TruthKey)
    decreases |ms|
  {
    hide Bag, CandKey, TruthKey, Hits, One, Credited, Found;
    if ms == [] {
      NoKeys();
    } else {
      var init, last := ms[..|ms| - 1], ms[|ms| - 1];
      assert ms == init + [last];
      SameKeys(init);
      HitIsSameKey(last.0, last.1);
      FoundSnoc(init, last);
      BagSnoc(Credited(init), last.0, CandKey);
      BagSnoc(Found(init), last.1, TruthKey);
    }
  }

  // ---- the score ---------------------------------------------------------

  datatype Scorecard = Scorecard(truthN: nat, producedN: nat, matchedN: nat, recall: real, precision: real,
                                 perTag: map<string, real>)

  function Ratio(num: nat, den: nat): (r: real) {
    if den == 0 then 0.0 else num as real / den as real
  }

  /** `num` is that part of `den`. */
  predicate IsPart(share: real, num: nat, den: nat) {
    share * den as real == num as real
  }

  lemma RatioIsShare(num: nat, den: nat)
    requires num <= den
    ensures 0.0 <= Ratio(num, den) <= 1.0
    ensures den > 0 ==> (Ratio(num, den) == 1.0 <==> num == den)
    ensures IsPart(Ratio(num, den), num, den)
  {
    if den > 0 {
      PartOfWhole(num as real, den as real);
      ShareOfWhole(num as real, den as real);
    }
  }

  lemma PartOfWhole(n: real, d: real)
    requires d > 0.0
    ensures n / d * d == n
  {
  }

  lemma ShareOfWhole(n: real, d: real)
    requires 0.0 <= n <= d && d > 0.0
    ensures 0.0 <= n / d <= 1.0 && (n / d == 1.0 <==> n == d)
  {
  }

  lemma EmptyBag(tag: string)
    ensures Bag([], TruthTag)[tag] == 0
  {
  }

  method CountTag(ts: seq<GroundTruth>, tag: string) returns (n: nat)
    ensures n == Bag(ts, TruthTag)[tag]
  {
    hide Bag;
    n := 0;
    EmptyBag(tag);
    for i := 0 to |ts|
      invariant n == Bag(ts[..i], TruthTag)[tag]
    {
      assert ts[..i + 1] == ts[..i] + [ts[i]];
      BagSnoc(ts[..i], ts[i], TruthTag);
      if ts[i].tag == tag {
        n := n + 1;
      }
    }
    assert ts[..|ts|] == ts;
  }

  /** `score`, before rounding to four places: overall and per-tag shares of the truth that was matched. */
  method Score(truth: seq<GroundTruth>, m: MatchResult, producedN: nat) returns (s: Scorecard)
    ensures s.truthN == |truth| && s.producedN == producedN && s.matchedN == |m.matched|
    ensures s.recall == Ratio(|m.matched|, |truth|) && s.precision == Ratio(|m.matched|, producedN)
    ensures s.perTag.Keys == set g | g in truth :: g.tag
    ensures forall t | t in s.perTag ::
        s.perTag[t] == Ratio(Bag(Found(m.matched), TruthTag)[t], Bag(truth, TruthTag)[t])
  {
    hide Bag, Ratio;
    var perTag: map<string, real> := map[];
    var tags := set g | g in truth :: g.tag;
    var todo := tags;
    while todo != {}
      invariant todo <= tags && perTag.Keys == tags - todo
      invariant forall t | t in perTag ::
          perTag[t] == Ratio(Bag(Found(m.matched), TruthTag)[t], Bag(truth, TruthTag)[t])
      decreases todo
    {
      var tag :| tag in todo;
      todo := todo - {tag};
      var num := CountTag(Found(m.matched), tag);
      var den := CountTag(truth, tag);
      perTag := perTag[tag := Ratio(num, den)];
    }
    s := Scorecard(|truth|, producedN, |m.matched|, Ratio(|m.matched|, |truth|), Ratio(|m.matched|, producedN), perTag);
  }

  /** Scoring a matching never inflates: every share lies in [0, 1], and recall is 1 exactly when nothing was missed. */
  method ScoreMatching(produced: seq<Candidate>, truth: seq<GroundTruth>) returns (s: Scorecard)
    ensures 0.0 <= s.recall <= 1.0 && 0.0 <= s.precision <= 1.0
    ensures IsPart(s.recall, |Matching(produced, truth).matched|, |truth|)
    ensures IsPart(s.precision, |Matching(produced, truth).matched|, |produced|)
    ensures truth != [] ==> (s.recall == 1.0 <==> Matching(produced, truth).missed == [])
    ensures forall t | t in s.perTag :: 0.0 <= s.perTag[t] <= 1.0
  {
    hide Matching, Ratio, Bag, IsPart;
    var m := MatchFindings(produced, truth);
    s := Score(truth, m, |produced|);
    MatchingPartitions(produced, truth);
    hide NothingOverlooked;
    assert |multiset(Found(m.matched))| + |multiset(m.missed)| == |multiset(truth)|;
    assert |multiset(Credited(m.matched))| <= |multiset(produced)|;
    RatioIsShare(|m.matched|, |truth|);
    RatioIsShare(|m.matched|, |produced|);
    SmallerBag(multiset(Found(m.matched)), multiset(truth));
    BagMonotone(Found(m.matched), truth, TruthTag);
    forall t | t in s.perTag ensures 0.0 <= s.perTag[t] <= 1.0 {
      RatioIsShare(Bag(Found(m.matched), TruthTag)[t], Bag(truth, TruthTag)[t]);
    }
  }
}
