/** Extraction of Solidity source from a model reply (audit_agent/proof/solidity_utils.py): fence stripping, the first
    token line, and the brace-depth walk that decides where the source ends. */
module Extractor {
  import opened Text

  /** Line prefixes that anchor the start of source. */
  predicate IsSolidityStart(st: string) {
    || StartsWith(st, "// SPDX") || StartsWith(st, "pragma") || StartsWith(st, "import")
    || StartsWith(st, "contract") || StartsWith(st, "interface") || StartsWith(st, "library")
    || StartsWith(st, "abstract contract")
  }

  predicate IsFence(st: string) {
    StartsWith(st, "```")
  }

  function Count(s: string, c: char): nat {
    if s == "" then 0 else (if s[0] == c then 1 else 0) + Count(s[1..], c)
  }

  predicate ClosesComment(raw: string) {
    exists k :: 0 <= k < |raw| - 1 && raw[k] == '*' && raw[k + 1] == '/'
  }

  predicate EndsStatement(st: string) {
    st != "" && st[|st| - 1] == ';'
  }

  const TOKENS := {"// SPDX", "pragma", "import", "contract", "interface", "library", "abstract contract"}

  lemma TokenLines(st: string)
    ensures IsSolidityStart(st) <==> exists t | t in TOKENS :: StartsWith(st, t)
  {
    hide StartsWith;
  }

  lemma FenceLines(st: string)
    ensures IsFence(st) <==> exists rest :: st == "```" + rest
  {
    if IsFence(st) {
      assert st == "```" + st[3..];
    }
  }

  /** A comment is closed by a `*` with a `/` behind it, wherever they stand. */
  lemma ClosingLines(st: string)
    ensures ClosesComment(st) <==> exists before, rest :: st == before + "*/" + rest
  {
    if ClosesComment(st) {
      var k :| 0 <= k < |st| - 1 && st[k] == '*' && st[k + 1] == '/';
      assert st == st[..k] + "*/" + st[k + 2..];
    }
    if before, rest :| st == before + "*/" + rest {
      assert st[|before|] == '*' && st[|before| + 1] == '/';
    }
  }

  lemma StatementLines(st: string)
    ensures EndsStatement(st) <==> exists before :: st == before + ";"
  {
    if EndsStatement(st) {
      assert st == st[..|st| - 1] + ";";
    }
  }

  // ---- the walk ----------------------------------------------------------

  datatype Walk = Walk(depth: int, seenBody: bool, inComment: bool, end: int, stopped: bool)

  /** Outside every unit, after at least one. */
  predicate BetweenUnits(w: Walk) {
    w.seenBody && w.depth == 0
  }

  /** A non-blank line met between units that belongs to no comment block. */
  predicate Leaves(st: string) {
    IsFence(st) || !(IsSolidityStart(st) || StartsWith(st, "//"))
  }

  function Enter(w: Walk, raw: string, i: int): Walk {
    var d := w.depth + Count(raw, '{') - Count(raw, '}');
    Walk(if d < 0 then 0 else d, w.seenBody || Count(raw, '{') > 0, w.inComment, i, false)
  }

  function Step(w: Walk, raw: string, i: int): Walk {
    var st := Strip(raw);
    if w.stopped then w
    else if !BetweenUnits(w) then Enter(w, raw, i)
    else if st == "" then w
    else if !IsFence(st) && (StartsWith(st, "/*") || w.inComment) then w.(inComment := !ClosesComment(raw), end := i)
    else if Leaves(st) then w.(stopped := true)
    else Enter(w, raw, i)
  }

  /** The walk over the first `n` lines, from line `start`. */
  function Walked(lines: seq<string>, start: nat, n: nat): Walk
    requires n <= |lines|
  {
    if n <= start then Walk(0, false, false, start, false)
    else Step(Walked(lines, start, n - 1), lines[n - 1], n - 1)
  }

  /** The second walk, for replies without a body: declarations and comments only. */
  datatype Heads = Heads(end: int, stopped: bool)

  function HeadStep(h: Heads, raw: string, i: int): Heads {
    var st := Strip(raw);
    if h.stopped || st == "" then h
    else if !IsFence(st) && (IsSolidityStart(st) || StartsWith(st, "//") || EndsStatement(st)) then Heads(i, false)
    else h.(stopped := true)
  }

  function HeadsOf(lines: seq<string>, start: nat, n: nat): Heads
    requires n <= |lines|
  {
    if n <= start then Heads(start, false) else HeadStep(HeadsOf(lines, start, n - 1), lines[n - 1], n - 1)
  }

  /** Index of the first token line, or the length. */
  function FirstToken(lines: seq<string>): (k: nat)
    ensures k <= |lines| && (k < |lines| ==> IsSolidityStart(Strip(lines[k])))
    ensures forall j | 0 <= j < k :: !IsSolidityStart(Strip(lines[j]))
  {
    if lines == [] || IsSolidityStart(Strip(lines[0])) then 0 else 1 + FirstToken(lines[1..])
  }

  function LastLine(lines: seq<string>, start: nat): int
    requires start < |lines|
  {
    var w := Walked(lines, start, |lines|);
    if w.seenBody then w.end else HeadsOf(lines, start, |lines|).end
  }

  function StripFences(text: string): string {
    var t := Strip(text);
    if !IsFence(t) then t else
      var all := SplitLines(t);
      var lines := if all != [] && IsFence(all[0]) then all[1..] else all;
      Join(if lines != [] && IsFence(lines[|lines| - 1]) then lines[..|lines| - 1] else lines)
  }

  function SourceOf(lines: seq<string>): string {
    var start := FirstToken(lines);
    if start == |lines| then "" else
      var end := LastLine(lines, start);
      if start <= end < |lines| then Strip(Join(lines[start..end + 1])) else ""
  }

  function Extract(text: string): string {
    SourceOf(SplitLines(StripFences(text)))
  }

  // ---- where the walk ends -----------------------------------------------

  /** Past the start line the end lies among the scanned lines; no line scanned after it was kept, and the walk up to it
      had neither stopped nor seen a different body. */
  lemma {:induction false} WalkEnd(lines: seq<string>, start: nat, n: nat)
    requires start < n <= |lines|
    ensures start <= Walked(lines, start, n).end < n
    ensures KeptUpTo(lines, start, Walked(lines, start, n))
    decreases n
  {
    hide Strip, IsFence, Leaves, Enter, ClosesComment;
    if n > start + 1 {
      WalkEnd(lines, start, n - 1);
    }
    EnterAssigns(Walked(lines, start, n - 1), lines[n - 1], n - 1);
  }

  lemma EnterAssigns(w: Walk, raw: string, i: int)
    ensures Enter(w, raw, i).end == i && !Enter(w, raw, i).stopped
  {
  }

  ghost predicate KeptUpTo(lines: seq<string>, start: nat, w: Walk) {
    && start <= w.end < |lines|
    && Walked(lines, start, w.end + 1).end == w.end
    && !Walked(lines, start, w.end + 1).stopped
    && Walked(lines, start, w.end + 1).seenBody == w.seenBody
  }

  lemma {:induction false} HeadsEnd(lines: seq<string>, start: nat, n: nat)
    requires start < n <= |lines| && Strip(lines[start]) != "" && IsSolidityStart(Strip(lines[start]))
    ensures start <= HeadsOf(lines, start, n).end < n
    ensures HeadsKept(lines, start, HeadsOf(lines, start, n))
    decreases n
  {
    hide Strip;
    TokenIsNoFence(Strip(lines[start]));
    hide IsFence, IsSolidityStart, EndsStatement;
    if n > start + 1 {
      HeadsEnd(lines, start, n - 1);
    }
  }

  ghost predicate HeadsKept(lines: seq<string>, start: nat, h: Heads) {
    && start <= h.end < |lines|
    && HeadsOf(lines, start, h.end + 1) == Heads(h.end, false)
    && Strip(lines[h.end]) != ""
  }

  lemma TokenIsNoFence(st: string)
    requires IsSolidityStart(st)
    ensures st != "" && !IsSpace(st[0]) && st[0] != '`' && !IsFence(st)
  {
    if IsFence(st) {
      assert st[0] == "```"[0];
    }
    assert StartsWith(st, "// SPDX") ==> st[0] == "// SPDX"[0];
    assert StartsWith(st, "pragma") ==> st[0] == "pragma"[0];
    assert StartsWith(st, "import") ==> st[0] == "import"[0];
    assert StartsWith(st, "contract") ==> st[0] == "contract"[0];
    assert StartsWith(st, "interface") ==> st[0] == "interface"[0];
    assert StartsWith(st, "library") ==> st[0] == "library"[0];
    assert StartsWith(st, "abstract contract") ==> st[0] == "abstract contract"[0];
  }

  /** A walk that did not stop kept every non-blank line it read. */
  lemma NonBlankIsKept(w: Walk, raw: string, i: int)
    requires Strip(raw) != "" && !Step(w, raw, i).stopped
    ensures Step(w, raw, i).end == i
  {
  }

  /** Once stopped, nothing that follows matters: two replies that agree up to there end at the same line. */
  lemma {:induction false} StopDependsOnPrefix(a: seq<string>, b: seq<string>, start: nat, n: nat, m: nat)
    requires start < n <= m <= |a| && n <= |b| && a[..n] == b[..n] && Walked(b, start, n).stopped
    ensures Walked(a, start, m) == Walked(b, start, n)
    decreases m
  {
    if m > n {
      StopDependsOnPrefix(a, b, start, n, m - 1);
    } else {
      SamePrefix(a, b, start, n);
    }
  }

  lemma {:induction false} SamePrefix(a: seq<string>, b: seq<string>, start: nat, n: nat)
    requires n <= |a| && n <= |b| && a[..n] == b[..n]
    ensures Walked(a, start, n) == Walked(b, start, n)
    decreases n
  {
    if n > start {
      assert a[..n - 1] == a[..n][..n - 1] && b[..n - 1] == b[..n][..n - 1];
      assert a[n - 1] == a[..n][n - 1] && b[n - 1] == b[..n][n - 1];
      SamePrefix(a, b, start, n - 1);
    }
  }

  // ---- lines that differ in outer white space only -----------------------

  /** What the walks look at. */
  ghost predicate Alike(a: string, b: string) {
    && Strip(a) == Strip(b)
    && Count(a, '{') == Count(b, '{')
    && Count(a, '}') == Count(b, '}')
    && (ClosesComment(a) <==> ClosesComment(b))
  }

  lemma {:induction false} CountConcat(a: string, b: string, c: char)
    ensures Count(a + b, c) == Count(a, c) + Count(b, c)
  {
    if a == "" {
      assert a + b == b;
    } else {
      assert (a + b)[1..] == a[1..] + b;
      CountConcat(a[1..], b, c);
    }
  }

  lemma {:induction false} NoneInBlank(s: string, c: char)
    requires Blank(s) && !IsSpace(c)
    ensures Count(s, c) == 0
  {
    if s != "" {
      assert Blank(s[1..]);
      NoneInBlank(s[1..], c);
    }
  }

  lemma {:induction false} CountTrim(a: string, i: nat, j: nat, c: char)
    requires i <= j <= |a| && Blank(a[..i]) && Blank(a[j..]) && !IsSpace(c)
    ensures Count(a, c) == Count(a[i..j], c)
  {
    assert a == a[..i] + a[i..j] + a[j..];
    CountConcat(a[..i] + a[i..j], a[j..], c);
    CountConcat(a[..i], a[i..j], c);
    NoneInBlank(a[..i], c);
    NoneInBlank(a[j..], c);
  }

  lemma StripTrim(a: string, i: nat, j: nat)
    requires i <= j <= |a| && Blank(a[..i]) && Blank(a[j..])
    ensures Strip(a) == Strip(a[i..j])
  {
    hide Strip;
    BlankOutside(a, i, j);
    var t := a[i..j];
    if Blank(t) {
      forall k | 0 <= k < |a| ensures IsSpace(a[k]) {
        assert i <= k < j ==> t[k - i] == a[k];
      }
      StripOfBlank(a);
      StripOfBlank(t);
    } else {
      var u, v := Outermost(t);
      StripIs(t, u, v);
      BlankOutside(t, u, v);
      var front, back := a[..i + u], a[i + v..];
      forall k | 0 <= k < |front| ensures IsSpace(front[k]) {
        assert i <= k ==> t[k - i] == a[k];
      }
      forall k | 0 <= k < |back| ensures IsSpace(back[k]) {
        assert k + i + v < j ==> t[v + k] == a[k + i + v];
      }
      StripIs(a, i + u, i + v);
      SliceOfSlice(a, i, j, u, v);
    }
  }

  lemma SliceOfSlice(a: string, i: nat, j: nat, u: nat, v: nat)
    requires i <= j <= |a| && u <= v <= j - i
    ensures a[i..j][u..v] == a[i + u..i + v]
  {
    var l, r := a[i..j][u..v], a[i + u..i + v];
    assert |l| == |r| && forall k | 0 <= k < |l| :: l[k] == a[i + u + k] == r[k];
  }

  lemma BlankOutside(a: string, i: nat, j: nat)
    requires i <= j <= |a| && Blank(a[..i]) && Blank(a[j..])
    ensures forall k | 0 <= k < i :: IsSpace(a[k])
    ensures forall k | j <= k < |a| :: IsSpace(a[k])
  {
    var front, back := a[..i], a[j..];
    assert forall k | 0 <= k < i :: a[k] == front[k];
    assert forall k | j <= k < |a| :: a[k] == back[k - j];
  }

  lemma ClosesTrim(a: string, i: nat, j: nat)
    requires i <= j <= |a| && Blank(a[..i]) && Blank(a[j..])
    ensures ClosesComment(a) <==> ClosesComment(a[i..j])
  {
    var t := a[i..j];
    BlankOutside(a, i, j);
    if k :| 0 <= k < |a| - 1 && a[k] == '*' && a[k + 1] == '/' {
      assert i <= k && k + 1 < j;
      assert t[k - i] == '*' && t[k - i + 1] == '/';
    }
    if k :| 0 <= k < |t| - 1 && t[k] == '*' && t[k + 1] == '/' {
      assert a[k + i] == '*' && a[k + i + 1] == '/';
    }
  }

  lemma TrimIsAlike(a: string, i: nat, j: nat)
    requires i <= j <= |a| && Blank(a[..i]) && Blank(a[j..])
    ensures Alike(a, a[i..j])
  {
    hide Strip, Count, ClosesComment, Blank;
    CountTrim(a, i, j, '{');
    CountTrim(a, i, j, '}');
    StripTrim(a, i, j);
    ClosesTrim(a, i, j);
  }

  ghost predicate AlikeFrom(xs: seq<string>, start: nat, ys: seq<string>) {
    start + |ys| <= |xs| && forall k | 0 <= k < |ys| :: Alike(xs[start + k], ys[k])
  }

  lemma StepMoves(w: Walk, a: string, b: string, i: int, shift: int)
    requires Alike(a, b)
    ensures Step(w.(end := w.end + shift), a, i + shift) == Step(w, b, i).(end := Step(w, b, i).end + shift)
  {
    hide Strip, Count, ClosesComment, IsFence, IsSolidityStart, StartsWith, Leaves;
  }

  lemma HeadStepMoves(h: Heads, a: string, b: string, i: int, shift: int)
    requires Alike(a, b)
    ensures HeadStep(h.(end := h.end + shift), a, i + shift) == HeadStep(h, b, i).(end := HeadStep(h, b, i).end + shift)
  {
    hide Strip, Count, ClosesComment, IsFence, IsSolidityStart, StartsWith, EndsStatement;
  }

  /** A walk over alike lines elsewhere is the same walk, its end counted from there. */
  lemma {:induction false} WalkMoves(xs: seq<string>, start: nat, ys: seq<string>, n: nat)
    requires AlikeFrom(xs, start, ys) && n <= |ys|
    ensures Walked(xs, start, start + n) == Walked(ys, 0, n).(end := Walked(ys, 0, n).end + start)
    decreases n
  {
    hide Step, Alike;
    if n > 0 {
      WalkMoves(xs, start, ys, n - 1);
      assert Alike(xs[start + (n - 1)], ys[n - 1]);
      StepMoves(Walked(ys, 0, n - 1), xs[start + (n - 1)], ys[n - 1], n - 1, start);
    }
  }

  lemma {:induction false} HeadsMove(xs: seq<string>, start: nat, ys: seq<string>, n: nat)
    requires AlikeFrom(xs, start, ys) && n <= |ys|
    ensures HeadsOf(xs, start, start + n) == HeadsOf(ys, 0, n).(end := HeadsOf(ys, 0, n).end + start)
    decreases n
  {
    hide HeadStep, Alike;
    if n > 0 {
      HeadsMove(xs, start, ys, n - 1);
      assert Alike(xs[start + (n - 1)], ys[n - 1]);
      HeadStepMoves(HeadsOf(ys, 0, n - 1), xs[start + (n - 1)], ys[n - 1], n - 1, start);
    }
  }

  // ---- the trimmed span --------------------------------------------------

  ghost predicate FullLine(l: string) {
    !Blank(l)
  }

  /** Split a line around its outer white space. */
  lemma LStripSplits(l: string) returns (p: string)
    ensures l == p + LStrip(l) && Blank(p) && (FullLine(l) ==> LStrip(l) != "" && !IsSpace(LStrip(l)[0]))
  {
    if Blank(l) {
      assert l[..|l|] == l;
      LStripIs(l, |l|);
      p := l;
    } else {
      var i, _ := Outermost(l);
      LStripIs(l, i);
      p := l[..i];
    }
  }

  lemma RStripSplits(l: string) returns (q: string)
    ensures l == RStrip(l) + q && Blank(q)
    ensures FullLine(l) ==> RStrip(l) != "" && !IsSpace(RStrip(l)[|RStrip(l)| - 1])
  {
    if Blank(l) {
      assert l[0..] == l;
      RStripIs(l, 0);
      q := l;
    } else {
      var _, j := Outermost(l);
      RStripIs(l, j);
      q := l[j..];
    }
  }

  lemma LStripAlike(l: string)
    ensures Alike(l, LStrip(l)) && (FullLine(l) <==> FullLine(LStrip(l)))
  {
    hide LStrip, Alike;
    var p := LStripSplits(l);
    assert l[|p|..|l|] == LStrip(l) && l[..|p|] == p && l[|l|..] == "";
    TrimIsAlike(l, |p|, |l|);
    BlankParts(p, LStrip(l));
  }

  lemma {:induction false} RStripAlike(l: string)
    ensures Alike(l, RStrip(l)) && (FullLine(l) <==> FullLine(RStrip(l)))
  {
    hide RStrip, Alike;
    var q := RStripSplits(l);
    var n := |RStrip(l)|;
    assert l[0..n] == RStrip(l) && l[..0] == "" && l[n..] == q;
    TrimIsAlike(l, 0, n);
    BlankParts(RStrip(l), q);
  }

  lemma BlankParts(a: string, b: string)
    ensures Blank(a + b) <==> Blank(a) && Blank(b)
  {
    var s := a + b;
    assert forall k | 0 <= k < |a| :: s[k] == a[k];
    assert forall k | 0 <= k < |b| :: s[|a| + k] == b[k];
  }

  lemma AlikeTransitive(a: string, b: string, c: string)
    requires Alike(a, b) && Alike(b, c)
    ensures Alike(a, c)
  {
  }

  lemma FullIffStripped(l: string)
    ensures FullLine(l) <==> Strip(l) != ""
  {
    hide Strip;
    if Blank(l) {
      StripOfBlank(l);
    } else {
      var i, j := Outermost(l);
      StripIs(l, i, j);
    }
  }

  /** The lines without the first one's indentation. */
  function Dedent(ls: seq<string>): (r: seq<string>)
    requires ls != []
    ensures |r| == |ls|
  {
    [LStrip(ls[0])] + ls[1..]
  }

  function Detail(ls: seq<string>): (r: seq<string>)
    requires ls != []
    ensures |r| == |ls|
  {
    ls[..|ls| - 1] + [RStrip(ls[|ls| - 1])]
  }

  /** Lines as they come back from a stripped text: outer white space gone, last line not blank. */
  function Trim(ls: seq<string>): seq<string>
    requires ls != []
  {
    Detail(Dedent(ls))
  }

  lemma JoinFront(p: string, l: string, rest: seq<string>)
    ensures Join([p + l] + rest) == p + Join([l] + rest)
  {
    if rest != [] {
      JoinAppend([p + l], rest);
      JoinAppend([l], rest);
    } else {
      assert [p + l] + rest == [p + l] && [l] + rest == [l];
    }
  }

  lemma JoinBack(init: seq<string>, l: string, q: string)
    ensures Join(init + [l + q]) == Join(init + [l]) + q
  {
    if init != [] {
      JoinAppend(init, [l + q]);
      JoinAppend(init, [l]);
      assert Join(init) + "\n" + (l + q) == Join(init) + "\n" + l + q;
    } else {
      assert init + [l + q] == [l + q] && init + [l] == [l];
    }
  }

  lemma {:induction false} BlankLinesJoin(ls: seq<string>)
    requires forall l | l in ls :: Blank(l)
    ensures Blank(Join(ls))
  {
    if |ls| > 1 {
      BlankLinesJoin(ls[1..]);
      BlankParts("\n", Join(ls[1..]));
      BlankParts(ls[0], "\n" + Join(ls[1..]));
      assert Join(ls) == ls[0] + ("\n" + Join(ls[1..]));
    }
  }

  lemma DedentJoin(ls: seq<string>) returns (p: string)
    requires ls != []
    ensures Join(ls) == p + Join(Dedent(ls)) && Blank(p)
  {
    hide Join, LStrip;
    p := LStripSplits(ls[0]);
    assert ls == [p + LStrip(ls[0])] + ls[1..];
    JoinFront(p, LStrip(ls[0]), ls[1..]);
  }

  lemma DetailJoin(ls: seq<string>) returns (q: string)
    requires ls != []
    ensures Join(ls) == Join(Detail(ls)) + q && Blank(q)
  {
    hide Join, RStrip;
    var last := ls[|ls| - 1];
    q := RStripSplits(last);
    assert ls == ls[..|ls| - 1] + [RStrip(last) + q];
    JoinBack(ls[..|ls| - 1], RStrip(last), q);
  }

  /** The join of `kept + rest`, stripped, is the join of the trimmed `kept`, when `rest` is blank and the outer lines
      of `kept` are not. */
  lemma {:induction false} StripOfJoin(kept: seq<string>, rest: seq<string>)
    requires kept != [] && FullLine(kept[0]) && FullLine(kept[|kept| - 1]) && forall l | l in rest :: Blank(l)
    ensures Strip(Join(kept + rest)) == Join(Trim(kept))
    ensures Join(Trim(kept)) != "" && Strip(Join(Trim(kept))) == Join(Trim(kept))
  {
    hide Strip, Join, Dedent, Detail;
    var p := DedentJoin(kept);
    var q := DetailJoin(Dedent(kept));
    var tail := BlankTail(kept, rest);
    CoreEnds(kept);
    BlankParts(q, tail);
    var core := Join(Trim(kept));
    assert p + (core + q) + tail == p + core + (q + tail);
    StripAround(p, core, q + tail, Join(kept + rest));
  }

  lemma BlankTail(kept: seq<string>, rest: seq<string>) returns (tail: string)
    requires kept != [] && forall l | l in rest :: Blank(l)
    ensures Join(kept + rest) == Join(kept) + tail && Blank(tail)
  {
    if rest == [] {
      assert kept + rest == kept;
      tail := "";
    } else {
      JoinAppend(kept, rest);
      BlankLinesJoin(rest);
      BlankParts("\n", Join(rest));
      tail := "\n" + Join(rest);
      assert Join(kept + rest) == Join(kept) + tail;
    }
  }

  /** The trimmed join starts and ends with what its outer lines start and end with. */
  lemma CoreEnds(kept: seq<string>)
    requires kept != [] && FullLine(kept[0]) && FullLine(kept[|kept| - 1])
    ensures Join(Trim(kept)) != ""
    ensures !IsSpace(Join(Trim(kept))[0]) && !IsSpace(Join(Trim(kept))[|Join(Trim(kept))| - 1])
  {
    hide Strip, LStrip, RStrip;
    var mid, ys := Dedent(kept), Trim(kept);
    var _ := LStripSplits(kept[0]);
    LStripAlike(kept[0]);
    var last := mid[|mid| - 1];
    var _ := RStripSplits(last);
    var y := ys[|ys| - 1];
    if |ys| == 1 {
      assert ys == [y];
      FirstCharKept(LStrip(kept[0]));
    } else {
      assert ys == ys[..|ys| - 1] + [y];
      JoinAppend(ys[..|ys| - 1], [y]);
      assert ys == [ys[0]] + ys[1..];
      JoinAppend([ys[0]], ys[1..]);
    }
  }

  lemma FirstCharKept(l: string)
    requires l != "" && !IsSpace(l[0])
    ensures RStrip(l) != "" && RStrip(l)[0] == l[0]
  {
    hide RStrip;
    var q := RStripSplits(l);
    assert l == RStrip(l) + q;
  }

  lemma StripAround(p: string, core: string, q: string, s: string)
    requires s == p + core + q && Blank(p) && Blank(q)
    requires core != "" && !IsSpace(core[0]) && !IsSpace(core[|core| - 1])
    ensures Strip(s) == core && Strip(core) == core
  {
    hide Strip;
    assert s[..|p|] == p && s[|p| + |core|..] == q && s[|p|..|p| + |core|] == core;
    StripIs(s, |p|, |p| + |core|);
    assert core[..0] == "" && core[|core|..] == "" && core[0..|core|] == core;
    StripIs(core, 0, |core|);
  }

  // ---- main results ------------------------------------------------------

  /** The kept span: from the first token line to a last line inside the reply. */
  lemma {:induction false} SpanIsInside(lines: seq<string>, start: nat)
    requires start == FirstToken(lines) < |lines|
    ensures start <= LastLine(lines, start) < |lines|
  {
    hide Walked, HeadsOf, Strip, KeptUpTo, HeadsKept;
    TokenIsNoFence(Strip(lines[start]));
    WalkEnd(lines, start, |lines|);
    HeadsEnd(lines, start, |lines|);
  }

  /** The extraction is a contiguous run of reply lines from the first token line on, stripped; "" without one. */
  lemma ExtractIsARun(text: string)
    ensures var lines := SplitLines(StripFences(text));
      var start := FirstToken(lines);
      if start == |lines| then Extract(text) == "" && forall l | l in lines :: !IsSolidityStart(Strip(l))
      else start <= LastLine(lines, start) < |lines|
           && Extract(text) == Strip(Join(lines[start..LastLine(lines, start) + 1]))
  {
    hide StripFences, SplitLines, LastLine, Strip, IsSolidityStart;
    var lines := SplitLines(StripFences(text));
    if FirstToken(lines) < |lines| {
      SpanIsInside(lines, FirstToken(lines));
    }
  }

  lemma {:induction false} SourceIs(lines: seq<string>, start: nat)
    requires start == FirstToken(lines) < |lines|
    ensures start <= LastLine(lines, start) < |lines|
    ensures SourceOf(lines) == Strip(Join(lines[start..LastLine(lines, start) + 1]))
  {
    hide Strip, Join, LastLine, IsSolidityStart, FirstToken;
    SpanIsInside(lines, start);
  }

  /** Once the walk has stopped, the rest of the reply cannot change what is extracted. */
  lemma {:induction false} TextAfterStopIsIgnored(a: seq<string>, b: seq<string>, n: nat)
    requires FirstToken(b) < n <= |a| && n <= |b| && a[..n] == b[..n] && Walked(b, FirstToken(b), n).stopped
    ensures SourceOf(a) == SourceOf(b)
  {
    hide Strip, FirstToken, Walked, Join, KeptUpTo, SourceOf, IsSolidityStart;
    var start := FirstToken(b);
    SameFirstToken(a, b, n);
    SourceIs(a, start);
    SourceIs(b, start);
    StopDependsOnPrefix(a, b, start, n, |a|);
    StopDependsOnPrefix(b, b, start, n, |b|);
    StoppedHasBody(b, start, n);
    WalkEnd(b, start, n);
    SameStretch(a, b, n, start, Walked(b, start, n).end + 1);
  }

  lemma SameStretch(a: seq<string>, b: seq<string>, n: nat, i: nat, j: nat)
    requires i <= j <= n <= |a| && n <= |b| && a[..n] == b[..n]
    ensures a[i..j] == b[i..j]
  {
    assert a[i..j] == a[..n][i..j] && b[i..j] == b[..n][i..j];
  }

  lemma {:induction false} SameFirstToken(a: seq<string>, b: seq<string>, n: nat)
    requires FirstToken(b) < n <= |a| && n <= |b| && a[..n] == b[..n]
    ensures FirstToken(a) == FirstToken(b)
  {
    hide Strip, IsSolidityStart;
    forall k | 0 <= k < n ensures a[k] == b[k] {
      assert a[..n][k] == b[..n][k];
    }
  }

  lemma {:induction false} StoppedHasBody(lines: seq<string>, start: nat, n: nat)
    requires n <= |lines|
    ensures Walked(lines, start, n).stopped ==> Walked(lines, start, n).seenBody
    decreases n
  {
    hide Strip, Count, ClosesComment, Leaves;
    if n > start {
      StoppedHasBody(lines, start, n - 1);
    }
  }

  /** Before the point where a walk still runs, it ran. */
  lemma {:induction false} RanBefore(lines: seq<string>, start: nat, n: nat, m: nat)
    requires n <= m <= |lines| && !Walked(lines, start, m).stopped
    ensures !Walked(lines, start, n).stopped
    ensures Walked(lines, start, n).seenBody ==> Walked(lines, start, m).seenBody
    decreases m
  {
    hide Strip, Count, ClosesComment, Leaves;
    if n < m {
      RanBefore(lines, start, n, m - 1);
    }
  }

  lemma {:induction false} BodyOnlyGrows(lines: seq<string>, start: nat, n: nat, m: nat)
    requires n <= m <= |lines|
    ensures Walked(lines, start, n).seenBody ==> Walked(lines, start, m).seenBody
    decreases m
  {
    hide Strip, Count, ClosesComment, Leaves;
    if n < m {
      BodyOnlyGrows(lines, start, n, m - 1);
    }
  }

  /** Blank lines bring no body. */
  lemma {:induction false} BlankKeepsBody(lines: seq<string>, start: nat, n: nat, m: nat)
    requires start < n <= m <= |lines| && forall k | n <= k < m :: Blank(lines[k])
    ensures Walked(lines, start, m).seenBody == Walked(lines, start, n).seenBody
    decreases m
  {
    hide Strip, ClosesComment, Leaves;
    if n < m {
      BlankKeepsBody(lines, start, n, m - 1);
      NoneInBlank(lines[m - 1], '{');
    }
  }

  /** The last line of a non-empty stretch that is not blank. */
  lemma {:induction false} LastFull(ls: seq<string>) returns (m: nat)
    requires ls != [] && FullLine(ls[0])
    ensures m < |ls| && FullLine(ls[m]) && forall k | m < k < |ls| :: Blank(ls[k])
    decreases |ls|
  {
    if FullLine(ls[|ls| - 1]) {
      m := |ls| - 1;
    } else {
      m := LastFull(ls[..|ls| - 1]);
    }
  }

  lemma TrimLines(kept: seq<string>)
    requires kept != [] && FullLine(kept[0]) && FullLine(kept[|kept| - 1]) && forall l | l in kept :: NoBreak(l)
    ensures forall k | 0 <= k < |kept| :: Alike(kept[k], Trim(kept)[k])
    ensures Trim(kept)[|kept| - 1] != "" && forall l | l in Trim(kept) :: NoBreak(l)
  {
    hide LStrip, RStrip, Alike;
    var mid, ys := Dedent(kept), Trim(kept);
    LStripAlike(kept[0]);
    var p := LStripSplits(kept[0]);
    PartHasNoBreak(p, LStrip(kept[0]));
    var last := mid[|mid| - 1];
    RStripAlike(last);
    var q := RStripSplits(last);
    assert last in mid && (|mid| > 1 ==> last in kept);
    PartHasNoBreak(RStrip(last), q);
    forall l | l in ys ensures NoBreak(l) {
      var k :| 0 <= k < |ys| && ys[k] == l;
      assert kept[k] in kept;
    }
    forall k | 0 <= k < |kept| ensures Alike(kept[k], ys[k]) {
      AlikeSelf(kept[k]);
      if k == 0 && |kept| == 1 {
        AlikeTransitive(kept[0], last, ys[0]);
      }
    }
  }

  lemma AlikeSelf(l: string)
    ensures Alike(l, l)
  {
  }

  lemma PartHasNoBreak(a: string, b: string)
    ensures NoBreak(a + b) ==> NoBreak(a) && NoBreak(b)
  {
    var s := a + b;
    assert forall k | 0 <= k < |a| :: s[k] == a[k];
    assert forall k | 0 <= k < |b| :: s[|a| + k] == b[k];
  }

  /** `ys` are the lines kept from `start` to `end`, trimmed. */
  ghost predicate TrimmedSpan(lines: seq<string>, start: nat, end: int, ys: seq<string>) {
    && ys != [] && start + |ys| <= end + 1 <= |lines| && AlikeFrom(lines, start, ys)
    && FullLine(lines[start + |ys| - 1]) && BlankBetween(lines, start + |ys|, end)
  }

  ghost predicate BlankBetween(lines: seq<string>, n: nat, end: int) {
    forall k | n <= k <= end && k < |lines| :: Blank(lines[k])
  }

  lemma {:induction false} KeepsBody(lines: seq<string>, start: nat, end: nat, ys: seq<string>)
    requires TrimmedSpan(lines, start, end, ys) && start < |lines|
    requires Walked(lines, start, |lines|).seenBody && Walked(lines, start, |lines|).end == end
    ensures Walked(ys, 0, |ys|).seenBody && Walked(ys, 0, |ys|).end == |ys| - 1
  {
    hide Strip, Walked, Alike, FullLine, Blank, BlankBetween;
    FullIffStripped(lines[start + |ys| - 1]);
    WalkMoves(lines, start, ys, |ys|);
    hide AlikeFrom;
    WalkEnd(lines, start, |lines|);
    BodyCase(lines, start, end, start + |ys|);
  }

  lemma {:induction false} KeepsHeads(lines: seq<string>, start: nat, end: nat, ys: seq<string>)
    requires TrimmedSpan(lines, start, end, ys) && start < |lines| && IsSolidityStart(Strip(lines[start]))
    requires !Walked(lines, start, |lines|).seenBody && HeadsOf(lines, start, |lines|).end == end
    ensures !Walked(ys, 0, |ys|).seenBody && HeadsOf(ys, 0, |ys|).end == |ys| - 1
  {
    hide Strip, Walked, HeadsOf, Alike, FullLine, Blank, BlankBetween, IsSolidityStart;
    TokenIsNoFence(Strip(lines[start]));
    WalkMoves(lines, start, ys, |ys|);
    HeadsMove(lines, start, ys, |ys|);
    hide AlikeFrom;
    HeadsEnd(lines, start, |lines|);
    HeadCase(lines, start, end, start + |ys|);
    BodyOnlyGrows(lines, start, start + |ys|, |lines|);
  }

  /** On the lines that were kept, trimmed, the walks keep everything. */
  lemma {:induction false} KeepsWhatItKept(lines: seq<string>, start: nat, end: nat, ys: seq<string>)
    requires start == FirstToken(lines) < |lines| && end == LastLine(lines, start)
    requires TrimmedSpan(lines, start, end, ys)
    ensures FirstToken(ys) == 0 && LastLine(ys, 0) == |ys| - 1
  {
    assert Alike(lines[start + 0], ys[0]);
    hide Strip, Walked, HeadsOf, Alike, IsSolidityStart, FullLine, Blank;
    FirstIs(lines[start], ys);
    if Walked(lines, start, |lines|).seenBody {
      KeepsBody(lines, start, end, ys);
    } else {
      KeepsHeads(lines, start, end, ys);
    }
  }

  lemma FirstIs(first: string, ys: seq<string>)
    requires ys != [] && Alike(first, ys[0]) && IsSolidityStart(Strip(first))
    ensures FirstToken(ys) == 0
  {
  }

  lemma {:induction false} BodyCase(lines: seq<string>, start: nat, end: nat, n: nat)
    requires start < n <= end + 1 <= |lines| && KeptUpTo(lines, start, Walked(lines, start, |lines|))
    requires Walked(lines, start, |lines|).seenBody && Walked(lines, start, |lines|).end == end
    requires Strip(lines[n - 1]) != "" && BlankBetween(lines, n, end)
    ensures Walked(lines, start, n).seenBody && Walked(lines, start, n).end == n - 1
  {
    hide Strip, Step;
    RanBefore(lines, start, n, end + 1);
    BlankKeepsBody(lines, start, n, end + 1);
    NonBlankIsKept(Walked(lines, start, n - 1), lines[n - 1], n - 1);
  }

  lemma HeadCase(lines: seq<string>, start: nat, end: nat, n: nat)
    requires start < n <= end + 1 <= |lines| && HeadsKept(lines, start, HeadsOf(lines, start, |lines|))
    requires HeadsOf(lines, start, |lines|).end == end
    requires BlankBetween(lines, n, end)
    ensures HeadsOf(lines, start, n).end == n - 1
  {
    hide Strip, HeadStep;
    FullIffStripped(lines[end]);
    assert n == end + 1;
  }

  /** What was extracted is the join of the kept lines, trimmed. */
  lemma {:induction false} SpanTrims(lines: seq<string>, start: nat, end: nat) returns (ys: seq<string>)
    requires start <= end < |lines| && FullLine(lines[start]) && forall l | l in lines :: NoBreak(l)
    ensures TrimmedSpan(lines, start, end, ys)
    ensures Strip(Join(lines[start..end + 1])) == Join(ys) == Strip(Join(ys)) && Join(ys) != ""
    ensures ys[|ys| - 1] != "" && forall l | l in ys :: NoBreak(l)
  {
    hide Strip, Join, Alike, FullLine, Trim;
    var span := lines[start..end + 1];
    assert span[0] == lines[start];
    var m := LastFull(span);
    var kept, rest := span[..m + 1], span[m + 1..];
    assert span == kept + rest;
    assert forall k | 0 <= k < |rest| :: rest[k] == span[m + 1 + k];
    assert forall k | 0 <= k < |span| :: span[k] == lines[start + k];
    StripOfJoin(kept, rest);
    TrimLines(kept);
    TrimLength(kept);
    ys := Trim(kept);
  }

  /** A kept span comes back unchanged. */
  lemma {:induction false} SpanIsStable(lines: seq<string>)
    requires FirstToken(lines) < |lines| && forall l | l in lines :: NoBreak(l)
    ensures Extract(SourceOf(lines)) == SourceOf(lines)
  {
    hide Strip, Join, LastLine, SplitLines, IsSolidityStart, StripFences, FullLine, Blank, NoBreak, FirstToken, Alike,
         Extract, SourceOf;
    var start := FirstToken(lines);
    SourceIs(lines, start);
    var end := LastLine(lines, start);
    TokenIsNoFence(Strip(lines[start]));
    FullIffStripped(lines[start]);
    var ys := SpanTrims(lines, start, end);
    KeepsWhatItKept(lines, start, end, ys);
    assert Alike(lines[start + 0], ys[0]);
    TrimmedComesBack(lines[start], ys);
  }

  /** Lines that are trimmed and kept whole are extracted from their own join. */
  lemma {:induction false} TrimmedComesBack(first: string, ys: seq<string>)
    requires ys != [] && Alike(first, ys[0]) && IsSolidityStart(Strip(first))
    requires Strip(Join(ys)) == Join(ys) && Join(ys) != ""
    requires ys[|ys| - 1] != "" && forall l | l in ys :: NoBreak(l)
    requires FirstToken(ys) == 0 && LastLine(ys, 0) == |ys| - 1
    ensures Extract(Join(ys)) == Join(ys)
  {
    hide Strip, Join, LastLine, SplitLines, IsSolidityStart, StripFences, NoBreak, FirstToken, Alike, SourceOf;
    SplitLinesOfJoin(ys);
    SourceIs(ys, 0);
    NoFenceInJoin(first, ys);
    assert ys[0..|ys|] == ys;
  }

  lemma TrimLength(kept: seq<string>)
    requires kept != []
    ensures |Trim(kept)| == |kept|
  {
  }

  lemma FirstOfStrip(l: string)
    requires l != "" && !IsSpace(l[0])
    ensures Strip(l) != "" && Strip(l)[0] == l[0]
  {
    assert l[..0] == "" && l[0..] == l;
    LStripIs(l, 0);
    FirstCharKept(l);
  }

  lemma JoinStarts(ys: seq<string>)
    requires ys != [] && ys[0] != ""
    ensures Join(ys) != "" && Join(ys)[0] == ys[0][0]
  {
    if |ys| > 1 {
      assert Join(ys) == ys[0] + ("\n" + Join(ys[1..]));
    }
  }

  /** A stripped text whose first line starts with a token is not fenced. */
  lemma {:induction false} NoFenceInJoin(first: string, ys: seq<string>)
    requires ys != [] && Alike(first, ys[0]) && IsSolidityStart(Strip(first))
    requires Strip(Join(ys)) == Join(ys) && Join(ys) != ""
    ensures StripFences(Join(ys)) == Join(ys)
  {
    hide Strip, Join, IsSolidityStart;
    TokenIsNoFence(Strip(first));
    StripOfBlank("");
    JoinStarts(ys);
    FirstIsFull(Join(ys));
    FirstOfStrip(ys[0]);
    FenceStarts(Join(ys));
  }

  lemma FenceStarts(s: string)
    ensures IsFence(s) ==> s != "" && s[0] == '`'
  {
    if IsFence(s) {
      assert s[0] == "```"[0];
    }
  }

  /** A stripped text that is not empty starts with no white space. */
  lemma FirstIsFull(s: string)
    requires Strip(s) == s && s != ""
    ensures !IsSpace(s[0])
  {
    hide Strip;
    if Blank(s) {
      StripOfBlank(s);
    } else {
      var i, j := Outermost(s);
      StripIs(s, i, j);
      assert |s[i..j]| == j - i;
    }
  }

  /** Extracting twice is extracting once, on every reply. */
  lemma ExtractIsIdempotent(text: string)
    ensures Extract(Extract(text)) == Extract(text)
  {
    hide SourceOf, StripFences, SplitLines;
    var lines := SplitLines(StripFences(text));
    if FirstToken(lines) < |lines| {
      SpanIsStable(lines);
    } else {
      EmptyStays(lines);
    }
  }

  lemma EmptyStays(lines: seq<string>)
    requires FirstToken(lines) == |lines|
    ensures SourceOf(lines) == "" && Extract("") == ""
  {
  }

  // ---- where the braces balance ------------------------------------------

  /** How often `c` occurs in lines `a` to `b`. */
  function Occurs(lines: seq<string>, a: nat, b: nat, c: char): nat
    requires b <= |lines|
  {
    if b <= a then 0 else Occurs(lines, a, b - 1, c) + multiset(lines[b - 1])[c]
  }

  lemma {:induction false} CountIsMultiplicity(s: string, c: char)
    ensures Count(s, c) == multiset(s)[c]
  {
    if s != "" {
      assert s == [s[0]] + s[1..];
      CountIsMultiplicity(s[1..], c);
    }
  }

  /** As many braces opened as closed in lines `a` to `b`. */
  predicate Balanced(lines: seq<string>, a: nat, b: nat)
    requires b <= |lines|
  {
    Occurs(lines, a, b, '{') == Occurs(lines, a, b, '}')
  }

  /** From line `a` on, up to line `b`, no more braces close than opened. */
  predicate NeverOverclosed(lines: seq<string>, a: nat, b: nat)
    requires b <= |lines|
  {
    forall j | a < j <= b :: Occurs(lines, a, j, '}') <= Occurs(lines, a, j, '{')
  }

  /** Lines `a` to `b` are the first body of the reply and what precedes it: they end where the braces that opened
      balance. */
  predicate FirstUnit(lines: seq<string>, a: nat, b: nat) {
    && a <= b < |lines| && NeverOverclosed(lines, a, b + 1)
    && Occurs(lines, a, b + 1, '{') > 0 && Balanced(lines, a, b + 1)
    && forall j | a < j <= b :: Occurs(lines, a, j, '{') > 0 ==> !Balanced(lines, a, j)
  }

  /** Lines `a` to `b` are one more unit or a line comment: a token or `//`, up to where the braces balance. */
  predicate NextUnit(lines: seq<string>, a: nat, b: nat) {
    && a <= b < |lines| && NeverOverclosed(lines, a, b + 1)
    && (IsSolidityStart(Strip(lines[a])) || StartsWith(Strip(lines[a]), "//"))
    && Balanced(lines, a, b + 1) && forall j | a < j <= b :: !Balanced(lines, a, j)
  }

  /** Lines `a` to `b` are a block comment, up to the first line that closes it. */
  predicate BlockComment(lines: seq<string>, a: nat, b: nat) {
    && a <= b < |lines| && StartsWith(Strip(lines[a]), "/*") && ClosesComment(lines[b])
    && (forall j | a <= j < b :: !ClosesComment(lines[j]))
    && (forall j | a < j <= b :: !IsFence(Strip(lines[j])))
  }

  predicate BlankLines(lines: seq<string>, a: nat, b: nat)
    requires b <= |lines|
  {
    forall j | a <= j < b :: Strip(lines[j]) == ""
  }

  /** The first and last line of each piece of the source, from the first unit on, with nothing but blank lines between
      two of them. */
  predicate Pieces(lines: seq<string>, start: nat, spans: seq<(nat, nat)>) {
    && spans != [] && spans[0].0 == start && FirstUnit(lines, start, spans[0].1)
    && forall k | 0 < k < |spans| :: Continues(lines, spans[k - 1].1, spans[k])
  }

  /** The span is a further unit or a block comment, and only blank lines lie between it and line `e`. */
  predicate Continues(lines: seq<string>, e: nat, span: (nat, nat)) {
    && e < span.0 <= |lines| && BlankLines(lines, e + 1, span.0)
    && (NextUnit(lines, span.0, span.1) || BlockComment(lines, span.0, span.1))
  }

  /** Behind line `m` the source is over: blank lines, then the end or a line that starts no unit and no comment. */
  predicate OverAt(lines: seq<string>, m: nat, p: nat) {
    && m < p <= |lines| && BlankLines(lines, m + 1, p)
    && (p < |lines| ==> IsProse(Strip(lines[p])))
  }

  predicate IsProse(st: string) {
    st != "" && !IsSolidityStart(st) && !StartsWith(st, "//") && !StartsWith(st, "/*")
  }

  /** The walk stands between two units whose last kept line is `m`. */
  predicate StandsAt(w: Walk, m: int) {
    w == Walk(0, true, false, m, false)
  }

  lemma EnterCounts(w: Walk, lines: seq<string>, a: nat, n: nat)
    requires a <= n < |lines| && w.depth == Occurs(lines, a, n, '{') - Occurs(lines, a, n, '}')
    requires Occurs(lines, a, n + 1, '}') <= Occurs(lines, a, n + 1, '{')
    ensures var v := Enter(w, lines[n], n);
      && v.depth == Occurs(lines, a, n + 1, '{') - Occurs(lines, a, n + 1, '}')
      && (v.seenBody <==> w.seenBody || Occurs(lines, a, n + 1, '{') > Occurs(lines, a, n, '{'))
      && v.inComment == w.inComment && v.end == n && !v.stopped
  {
    CountIsMultiplicity(lines[n], '{');
    CountIsMultiplicity(lines[n], '}');
  }

  /** Inside the first unit the depth is what is open, and every line is kept. */
  lemma {:induction false} WalkFirst(lines: seq<string>, a: nat, n: nat)
    requires a <= n <= |lines| && NeverOverclosed(lines, a, n)
    requires forall j | a < j < n :: Occurs(lines, a, j, '{') > 0 ==> !Balanced(lines, a, j)
    ensures Walked(lines, a, n) == Walk(Occurs(lines, a, n, '{') - Occurs(lines, a, n, '}'),
                                        Occurs(lines, a, n, '{') > 0, false, if n == a then a else n - 1, false)
    decreases n
  {
    hide Enter, IsSolidityStart, IsFence, ClosesComment, Strip;
    if n > a {
      WalkFirst(lines, a, n - 1);
      EnterCounts(Walked(lines, a, n - 1), lines, a, n - 1);
    }
  }

  lemma StartsNoFence(st: string)
    requires IsSolidityStart(st) || StartsWith(st, "//")
    ensures st != "" && !IsFence(st) && !StartsWith(st, "/*")
  {
    if IsSolidityStart(st) {
      TokenIsNoFence(st);
      TokenIsNoComment(st);
    } else {
      SlashIsNoFence(st);
      assert st[1] == '/' && "/*"[1] == '*';
    }
  }

  lemma TokenIsNoComment(st: string)
    requires IsSolidityStart(st)
    ensures !StartsWith(st, "/*")
  {
    assert "/*"[0] == '/' && "/*"[1] == '*';
    assert StartsWith(st, "// SPDX") ==> st[1] == "// SPDX"[1];
    assert StartsWith(st, "pragma") ==> st[0] == "pragma"[0];
    assert StartsWith(st, "import") ==> st[0] == "import"[0];
    assert StartsWith(st, "contract") ==> st[0] == "contract"[0];
    assert StartsWith(st, "interface") ==> st[0] == "interface"[0];
    assert StartsWith(st, "library") ==> st[0] == "library"[0];
    assert StartsWith(st, "abstract contract") ==> st[0] == "abstract contract"[0];
  }

  lemma SlashIsNoFence(st: string)
    requires StartsWith(st, "//") || StartsWith(st, "/*")
    ensures st != "" && !IsFence(st)
  {
    assert st[0] == '/' && "```"[0] == '`';
  }

  /** The same inside a later unit. */
  lemma {:induction false} WalkNext(lines: seq<string>, start: nat, a: nat, b: nat, n: nat, e: int)
    requires start < a && NextUnit(lines, a, b) && a < n <= b + 1 && StandsAt(Walked(lines, start, a), e)
    ensures Walked(lines, start, n)
         == Walk(Occurs(lines, a, n, '{') - Occurs(lines, a, n, '}'), true, false, n - 1, false)
    decreases n
  {
    StartsNoFence(Strip(lines[a]));
    hide Enter, IsSolidityStart, IsFence, ClosesComment, Strip, StartsWith;
    if n > a + 1 {
      WalkNext(lines, start, a, b, n - 1, e);
      assert !Balanced(lines, a, n - 1);
    }
    EnterCounts(Walked(lines, start, n - 1), lines, a, n - 1);
  }

  lemma CommentLine(w: Walk, raw: string, i: int)
    requires BetweenUnits(w) && !w.stopped && Strip(raw) != "" && !IsFence(Strip(raw))
    requires StartsWith(Strip(raw), "/*") || w.inComment
    ensures Step(w, raw, i) == w.(inComment := !ClosesComment(raw), end := i)
  {
  }

  lemma ClosingIsFull(raw: string)
    requires ClosesComment(raw)
    ensures Strip(raw) != ""
  {
    var k :| 0 <= k < |raw| - 1 && raw[k] == '*' && raw[k + 1] == '/';
    if Strip(raw) == "" {
      FullIffStripped(raw);
    }
  }

  /** Inside a block comment the walk stays at depth 0 and keeps every full line, up to the one that closes it. */
  lemma {:induction false} WalkComment(lines: seq<string>, start: nat, a: nat, b: nat, n: nat, e: int)
    requires start < a && BlockComment(lines, a, b) && a < n <= b + 1 && StandsAt(Walked(lines, start, a), e)
    ensures var w := Walked(lines, start, n);
      w.depth == 0 && w.seenBody && !w.stopped && (w.inComment <==> n <= b) && (n == b + 1 ==> w.end == b)
    decreases n
  {
    SlashIsNoFence(Strip(lines[a]));
    ClosingIsFull(lines[b]);
    hide Enter, IsSolidityStart, IsFence, ClosesComment, Strip, StartsWith, Leaves;
    var raw, w := lines[n - 1], Walked(lines, start, n - 1);
    if n > a + 1 {
      WalkComment(lines, start, a, b, n - 1, e);
    }
    if Strip(raw) != "" {
      CommentLine(w, raw, n - 1);
    }
  }

  lemma {:induction false} WalkBlank(lines: seq<string>, start: nat, m: nat, p: nat)
    requires start <= m < p <= |lines| && BlankLines(lines, m + 1, p) && StandsAt(Walked(lines, start, m + 1), m)
    ensures StandsAt(Walked(lines, start, p), m)
    decreases p
  {
    hide Enter, IsSolidityStart, IsFence, ClosesComment, Strip;
    if p > m + 1 {
      WalkBlank(lines, start, m, p - 1);
    }
  }

  lemma PiecesInit(lines: seq<string>, start: nat, spans: seq<(nat, nat)>)
    requires Pieces(lines, start, spans) && |spans| > 1
    ensures var n := |spans| - 1;
      && Pieces(lines, start, spans[..n]) && spans[..n][n - 1] == spans[n - 1]
      && Continues(lines, spans[n - 1].1, spans[n])
  {
    hide FirstUnit, Continues;
    var n := |spans| - 1;
    forall k | 0 < k < n ensures Continues(lines, spans[..n][k - 1].1, spans[..n][k]) {
      assert spans[..n][k - 1] == spans[k - 1] && spans[..n][k] == spans[k];
    }
  }

  lemma {:induction false} WalkPieces(lines: seq<string>, start: nat, spans: seq<(nat, nat)>)
    requires Pieces(lines, start, spans)
    ensures spans != [] &&
      var m := spans[|spans| - 1].1;
      start <= m < |lines| && StandsAt(Walked(lines, start, m + 1), m)
    decreases |spans|
  {
    hide Walked, Continues, FirstUnit, StandsAt;
    var n := |spans| - 1;
    if n == 0 {
      WalkFirstUnit(lines, start, spans[0].1);
    } else {
      PiecesInit(lines, start, spans);
      hide Pieces;
      WalkPieces(lines, start, spans[..n]);
      WalkOn(lines, start, spans[n - 1].1, spans[n]);
    }
  }

  lemma WalkFirstUnit(lines: seq<string>, start: nat, m: nat)
    requires FirstUnit(lines, start, m)
    ensures start <= m < |lines| && StandsAt(Walked(lines, start, m + 1), m)
  {
    hide Walked, Occurs;
    WalkFirst(lines, start, m + 1);
  }

  lemma WalkOn(lines: seq<string>, start: nat, e: nat, span: (nat, nat))
    requires start <= e < |lines| && StandsAt(Walked(lines, start, e + 1), e) && Continues(lines, e, span)
    ensures start <= span.1 < |lines| && StandsAt(Walked(lines, start, span.1 + 1), span.1)
  {
    hide Walked, Occurs, IsSolidityStart, IsFence, ClosesComment, Strip, StartsWith, BlankLines, NeverOverclosed;
    WalkBlank(lines, start, e, span.0);
    if NextUnit(lines, span.0, span.1) {
      WalkNext(lines, start, span.0, span.1, span.1 + 1, e);
    } else {
      WalkComment(lines, start, span.0, span.1, span.1 + 1, e);
    }
  }

  lemma StopsAt(w: Walk, raw: string, i: int, m: int)
    requires StandsAt(w, m) && IsProse(Strip(raw))
    ensures Step(w, raw, i) == w.(stopped := true)
  {
  }

  /** Behind the last piece the walk stops, or runs out of lines. */
  lemma WalkEndsAt(lines: seq<string>, start: nat, m: nat, p: nat)
    requires start <= m < |lines| && StandsAt(Walked(lines, start, m + 1), m) && OverAt(lines, m, p)
    ensures Walked(lines, start, |lines|).end == m && Walked(lines, start, |lines|).seenBody
  {
    hide Strip, IsProse, BlankLines, Step;
    WalkBlank(lines, start, m, p);
    if p < |lines| {
      StopsAt(Walked(lines, start, p), lines[p], p, m);
      assert Walked(lines, start, p + 1) == Step(Walked(lines, start, p), lines[p], p);
      StopDependsOnPrefix(lines, lines, start, p + 1, |lines|);
    }
  }

  /** Where the source ends: after its last piece, when what follows starts neither a unit nor a comment. */
  lemma {:induction false} SourceEndsWithItsPieces(lines: seq<string>, spans: seq<(nat, nat)>, p: nat)
    requires FirstToken(lines) < |lines| && Pieces(lines, FirstToken(lines), spans)
    requires OverAt(lines, spans[|spans| - 1].1, p)
    ensures FirstToken(lines) <= spans[|spans| - 1].1
    ensures SourceOf(lines) == Strip(Join(lines[FirstToken(lines)..spans[|spans| - 1].1 + 1]))
  {
    hide Pieces, StandsAt, OverAt, Walked, Strip, Join, FirstToken, SourceOf, HeadsOf, IsSolidityStart;
    WalkPieces(lines, FirstToken(lines), spans);
    WalkEndsAt(lines, FirstToken(lines), spans[|spans| - 1].1, p);
    SourceIs(lines, FirstToken(lines));
  }

  /** A reply with one unit and text behind it. */
  lemma OneUnitReply(lines: seq<string>, m: nat, p: nat)
    requires FirstToken(lines) < |lines| && FirstUnit(lines, FirstToken(lines), m) && OverAt(lines, m, p)
    ensures FirstToken(lines) <= m && SourceOf(lines) == Strip(Join(lines[FirstToken(lines)..m + 1]))
  {
    hide FirstUnit, OverAt, SourceOf, Strip, Join, FirstToken, IsSolidityStart;
    OnePiece(lines, FirstToken(lines), m);
    hide Pieces;
    SourceEndsWithItsPieces(lines, [(FirstToken(lines), m)], p);
  }

  lemma OnePiece(lines: seq<string>, start: nat, m: nat)
    requires FirstUnit(lines, start, m)
    ensures Pieces(lines, start, [(start, m)])
  {
    hide FirstUnit;
  }

  lemma {:induction false} EndGrows(lines: seq<string>, start: nat, n: nat, m: nat)
    requires start < n <= m <= |lines|
    ensures Walked(lines, start, n).end <= Walked(lines, start, m).end
    decreases m
  {
    if n < m {
      EndGrows(lines, start, n, m - 1);
      WalkEnd(lines, start, m - 1);
      hide Step, KeptUpTo;
      StepMovesOn(Walked(lines, start, m - 1), lines[m - 1], m - 1);
    }
  }

  lemma StepMovesOn(w: Walk, raw: string, i: int)
    requires w.end <= i
    ensures w.end <= Step(w, raw, i).end
  {
    hide Strip, Count, IsSolidityStart, IsFence, ClosesComment;
  }

  /** The source runs from the first token line to line `e`. */
  predicate RunsTo(lines: seq<string>, e: nat) {
    FirstToken(lines) <= e < |lines| && SourceOf(lines) == Strip(Join(lines[FirstToken(lines)..e + 1]))
  }

  /** While more braces are open than closed, no line ends the run: it goes on at least to line `n`, whatever the lines
      in between look like. */
  lemma {:induction false} OpenUnitGoesOn(lines: seq<string>, n: nat)
    requires FirstToken(lines) <= n < |lines| && NeverOverclosed(lines, FirstToken(lines), n)
    requires Occurs(lines, FirstToken(lines), n, '{') > 0
    requires forall j | FirstToken(lines) < j <= n ::
      Occurs(lines, FirstToken(lines), j, '{') > 0 ==> !Balanced(lines, FirstToken(lines), j)
    ensures exists e | n <= e < |lines| :: RunsTo(lines, e)
  {
    hide FirstToken, Walked, Strip, Join, SourceOf, HeadsOf, Occurs, NeverOverclosed, RunsTo, IsSolidityStart;
    var start := FirstToken(lines);
    OpenAt(lines, start, n);
    WalkFirst(lines, start, n);
    StillOpen(lines, start, n);
    EndGrows(lines, start, n + 1, |lines|);
    BodyOnlyGrows(lines, start, n, |lines|);
    RunsToLastLine(lines);
  }

  lemma OpenAt(lines: seq<string>, start: nat, n: nat)
    requires n <= |lines| && Occurs(lines, start, n, '{') > 0
    ensures start < n
  {
  }

  lemma RunsToLastLine(lines: seq<string>)
    requires FirstToken(lines) < |lines|
    ensures FirstToken(lines) <= LastLine(lines, FirstToken(lines)) < |lines|
    ensures RunsTo(lines, LastLine(lines, FirstToken(lines)))
  {
    hide Strip, Join, SourceOf, FirstToken, LastLine, IsSolidityStart;
    SourceIs(lines, FirstToken(lines));
  }

  lemma StillOpen(lines: seq<string>, start: nat, n: nat)
    requires start < n < |lines|
    requires Walked(lines, start, n).depth != 0 && !Walked(lines, start, n).stopped
    ensures Walked(lines, start, n + 1).end == n
  {
    hide Strip, Count;
  }

  // ---- replies without a body --------------------------------------------

  /** A line that may stand in a reply without any body. */
  predicate IsHead(st: string) {
    !IsFence(st) && (IsSolidityStart(st) || StartsWith(st, "//") || EndsStatement(st))
  }

  lemma {:induction false} HeadsRun(lines: seq<string>, start: nat, m: nat, n: nat)
    requires start <= m < n <= |lines| && Strip(lines[m]) != ""
    requires forall j | start <= j <= m && Strip(lines[j]) != "" :: IsHead(Strip(lines[j]))
    requires BlankLines(lines, m + 1, n)
    ensures HeadsOf(lines, start, n) == Heads(m, false)
    decreases n
  {
    hide Strip, IsHead;
    if n > m + 1 {
      HeadsRun(lines, start, m, n - 1);
    } else {
      HeadsBefore(lines, start, m);
      assert IsHead(Strip(lines[m]));
      HeadIsKept(HeadsOf(lines, start, m), lines[m], m);
    }
  }

  lemma HeadIsKept(h: Heads, raw: string, i: int)
    requires !h.stopped && Strip(raw) != ""
    ensures HeadStep(h, raw, i) == if IsHead(Strip(raw)) then Heads(i, false) else h.(stopped := true)
  {
  }

  lemma {:induction false} HeadsBefore(lines: seq<string>, start: nat, n: nat)
    requires n <= |lines|
    requires forall j | start <= j < n && Strip(lines[j]) != "" :: IsHead(Strip(lines[j]))
    ensures !HeadsOf(lines, start, n).stopped
    decreases n
  {
    hide Strip, IsHead;
    if n > start {
      HeadsBefore(lines, start, n - 1);
      if Strip(lines[n - 1]) != "" {
        assert IsHead(Strip(lines[n - 1]));
        HeadIsKept(HeadsOf(lines, start, n - 1), lines[n - 1], n - 1);
      }
    }
  }

  lemma {:induction false} NoBodySeen(lines: seq<string>, start: nat, n: nat)
    requires n <= |lines| && forall j | start <= j < n :: '{' !in lines[j]
    ensures !Walked(lines, start, n).seenBody
    decreases n
  {
    hide Strip, IsSolidityStart, IsFence, ClosesComment;
    if n > start {
      NoBodySeen(lines, start, n - 1);
      CountIsMultiplicity(lines[n - 1], '{');
    }
  }

  /** Without any opening brace the source is the run of declarations and comments, and statements that end in `;`, up
      to the first other full line. */
  lemma {:induction false} BodilessReply(lines: seq<string>, m: nat, p: nat)
    requires FirstToken(lines) <= m < p <= |lines| && Strip(lines[m]) != "" && BlankLines(lines, m + 1, p)
    requires forall j | FirstToken(lines) <= j < |lines| :: '{' !in lines[j]
    requires forall j | FirstToken(lines) <= j <= m && Strip(lines[j]) != "" :: IsHead(Strip(lines[j]))
    requires p < |lines| ==> Strip(lines[p]) != "" && !IsHead(Strip(lines[p]))
    ensures SourceOf(lines) == Strip(Join(lines[FirstToken(lines)..m + 1]))
  {
    hide Strip, Join, IsHead;
    var start := FirstToken(lines);
    NoBodySeen(lines, start, |lines|);
    HeadsRun(lines, start, m, p);
    if p < |lines| {
      HeadIsKept(HeadsOf(lines, start, p), lines[p], p);
      assert HeadsOf(lines, start, p + 1) == HeadStep(HeadsOf(lines, start, p), lines[p], p);
      HeadsStay(lines, start, p + 1, |lines|);
    }
  }

  // ---- fences ------------------------------------------------------------

  /** A reply that is one fenced block loses its two fences; one that is not fenced loses only the white space around
      it. */
  lemma FencedReply(ls: seq<string>, head: string, tail: string)
    requires IsFence(head) && IsFence(tail) && !IsSpace(tail[|tail| - 1])
    requires NoBreak(head) && NoBreak(tail) && forall l | l in ls :: NoBreak(l)
    ensures StripFences(Join([head] + ls + [tail])) == Join(ls)
  {
    var all := [head] + ls + [tail];
    var text := Join(all);
    JoinAppend([head], ls + [tail]);
    assert [head] + (ls + [tail]) == all;
    if ls != [] {
      JoinAppend(ls, [tail]);
    }
    TextEnds(text, head, tail, all, ls);
    StripIs(text, 0, |text|);
    assert text[0..|text|] == text && text[..0] == [] && text[|text|..] == [];
    SplitLinesOfJoin(all);
    assert all[1..] == ls + [tail] && (ls + [tail])[..|ls|] == ls;
    hide Join, SplitLines, Strip;
  }

  lemma TextEnds(text: string, head: string, tail: string, all: seq<string>, ls: seq<string>)
    requires head != "" && tail != "" && text == Join(all) && all == [head] + ls + [tail]
    requires IsFence(head)
    ensures text != "" && text[|text| - 1] == tail[|tail| - 1] && IsFence(text) && !IsSpace(text[0])
  {
    JoinAppend([head] + ls, [tail]);
    assert Join([tail]) == tail;
    assert text == Join([head] + ls) + "\n" + tail;
    JoinStartsWithFirst([head] + ls);
    assert text[0] == head[0] && head[0] == "```"[0];
    assert text[..3] == head[..3];
  }

  lemma JoinStartsWithFirst(ls: seq<string>)
    requires ls != []
    ensures |ls[0]| <= |Join(ls)| && Join(ls)[..|ls[0]|] == ls[0]
  {
  }

  // ---- the loops ---------------------------------------------------------

  /** The brace-depth loop. */
  method WalkLines(lines: seq<string>, start: nat) returns (seenBody: bool, end: int)
    requires start < |lines|
    ensures seenBody == Walked(lines, start, |lines|).seenBody
    ensures end == Walked(lines, start, |lines|).end
  {
    hide Strip, Count, ClosesComment, IsSolidityStart, IsFence, StartsWith;
    var depth, inComment := 0, false;
    seenBody, end := false, start;
    var i := start;
    while i < |lines|
      invariant start <= i <= |lines|
      invariant Walk(depth, seenBody, inComment, end, false) == Walked(lines, start, i)
    {
      var raw := lines[i];
      var st := Strip(raw);
      i := i + 1;
      if seenBody && depth == 0 {
        if st == "" {
          continue;
        }
        if IsFence(st) {
          StopDependsOnPrefix(lines, lines, start, i, |lines|);
          return;
        }
        if StartsWith(st, "/*") || inComment {
          inComment, end := !ClosesComment(raw), i - 1;
          continue;
        }
        if !(IsSolidityStart(st) || StartsWith(st, "//")) {
          StopDependsOnPrefix(lines, lines, start, i, |lines|);
          return;
        }
      }
      depth := depth + Count(raw, '{') - Count(raw, '}');
      if Count(raw, '{') > 0 {
        seenBody := true;
      }
      if depth < 0 {
        depth := 0;
      }
      end := i - 1;
    }
  }

  lemma {:induction false} HeadsStay(lines: seq<string>, start: nat, n: nat, m: nat)
    requires n <= m <= |lines| && HeadsOf(lines, start, n).stopped
    ensures HeadsOf(lines, start, m) == HeadsOf(lines, start, n)
    decreases m
  {
    if n < m {
      HeadsStay(lines, start, n, m - 1);
    }
  }

  /** The loop for replies without a body. */
  method HeadLines(lines: seq<string>, start: nat) returns (end: int)
    requires start < |lines|
    ensures end == HeadsOf(lines, start, |lines|).end
  {
    hide Strip, IsSolidityStart, IsFence, StartsWith, EndsStatement;
    end := start;
    var i := start;
    while i < |lines|
      invariant start <= i <= |lines|
      invariant Heads(end, false) == HeadsOf(lines, start, i)
    {
      var st := Strip(lines[i]);
      i := i + 1;
      if st == "" {
        continue;
      }
      if IsFence(st) {
        HeadsStay(lines, start, i, |lines|);
        return;
      }
      if IsSolidityStart(st) || StartsWith(st, "//") || EndsStatement(st) {
        end := i - 1;
        continue;
      }
      HeadsStay(lines, start, i, |lines|);
      return;
    }
  }

  /** `_extract_solidity`. */
  method ExtractSolidity(text: string) returns (code: string)
    ensures code == Extract(text)
  {
    hide Walked, HeadsOf, StripFences, SplitLines, Join, Strip;
    var lines := SplitLines(StripFences(text));
    var start := FirstToken(lines);
    if start == |lines| {
      return "";
    }
    SpanIsInside(lines, start);
    var seenBody, end := WalkLines(lines, start);
    if !seenBody {
      end := HeadLines(lines, start);
    }
    code := Strip(Join(lines[start..end + 1]));
  }
}
