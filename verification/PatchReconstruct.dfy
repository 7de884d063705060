/** Turning an illustrative diff (prose hunk markers, no line numbers) into a line-numbered
    unified diff, or refusing: audit_agent/proof/patch_reconstruct.py. */
module PatchReconstruct {
  import opened Options
  import opened Text

  datatype Kind = Context | Removal | Addition
  datatype BodyLine = BodyLine(kind: Kind, text: string)
  datatype Hunk = Hunk(anchor: string, body: seq<BodyLine>)
  datatype FilePatch = FilePatch(path: string, hunks: seq<Hunk>)

  datatype Reason = AnchorNotFound | AnchorAmbiguous | ContextMismatch | FileNotFound | Malformed
  datatype Result<+T> = Ok(value: T) | Refused(reason: Reason)

  /** One hunk with its `@@ -oldStart,oldCount +newStart,newCount @@` header. */
  datatype Numbered = Numbered(oldStart: int, oldCount: int, newStart: int, newCount: int, lines: seq<BodyLine>)
  datatype Section = Section(path: string, hunks: seq<Numbered>)

  const TRAILING_CONTEXT: nat := 3

  // ---- the illustrative block --------------------------------------------

  /** The remainder of a marker line that the pattern `\s*@?@?\s*$` swallows. */
  predicate MarkerTail(s: string) {
    Strip(s) in ["", "@", "@@"]
  }

  /** The lazy group `(.*?)`: the shortest front part whose remainder is a marker tail. */
  function ShortestAnchor(t: string): string {
    if t == [] || MarkerTail(t) then [] else [t[0]] + ShortestAnchor(t[1..])
  }

  function MarkerAnchor(raw: string): string
    requires StartsWith(raw, "@@")
  {
    var t := raw[2..];
    ShortestAnchor(if t != [] && IsSpace(t[0]) then t[1..] else t)
  }

  function StripAb(path: string): string {
    if StartsWith(path, "a/") || StartsWith(path, "b/") then path[2..] else path
  }

  function BodyOf(raw: string): BodyLine {
    if StartsWith(raw, "+") then BodyLine(Addition, raw[1..])
    else if StartsWith(raw, "-") then BodyLine(Removal, raw[1..])
    else BodyLine(Context, if StartsWith(raw, " ") then raw[1..] else raw)
  }

  /** What the parser has built so far; `inHunk` says that the last hunk of the last file is open. */
  datatype Parsed = Parsed(files: seq<FilePatch>, inHunk: bool) {
    predicate Valid() {
      inHunk ==> files != [] && files[|files| - 1].hunks != []
    }

    function AddHunk(h: Hunk): (p: Parsed)
      requires files != []
      ensures p.Valid()
    {
      var f := files[|files| - 1];
      Parsed(files[|files| - 1 := f.(hunks := f.hunks + [h])], true)
    }

    function AddLine(b: BodyLine): (p: Parsed)
      requires Valid() && inHunk
      ensures p.Valid()
    {
      var f := files[|files| - 1];
      var h := f.hunks[|f.hunks| - 1];
      Parsed(files[|files| - 1 := f.(hunks := f.hunks[|f.hunks| - 1 := h.(body := h.body + [b])])], true)
    }
  }

  function Step(st: Parsed, raw: string): (r: Result<Parsed>)
    requires st.Valid()
    ensures r.Ok? ==> r.value.Valid()
  {
    if StartsWith(raw, "--- ") then Ok(st)
    else if StartsWith(raw, "+++ ") then
      Ok(Parsed(st.files + [FilePatch(StripAb(Strip(raw[4..])), [])], false))
    else if StartsWith(raw, "@@") then
      if st.files == [] then Refused(Malformed) else Ok(st.AddHunk(Hunk(MarkerAnchor(raw), [])))
    else if !st.inHunk then Ok(st)
    else Ok(st.AddLine(BodyOf(raw)))
  }

  function ParseLines(lines: seq<string>, st: Parsed): (r: Result<Parsed>)
    requires st.Valid()
    ensures r.Ok? ==> r.value.Valid()
  {
    if lines == [] then Ok(st)
    else
      var s := Step(st, lines[0]);
      if s.Refused? then s else ParseLines(lines[1..], s.value)
  }

  predicate HasHunk(files: seq<FilePatch>) {
    exists k | 0 <= k < |files| :: files[k].hunks != []
  }

  function Parse(block: string): Result<seq<FilePatch>> {
    var p := ParseLines(SplitLines(block), Parsed([], false));
    if p.Refused? then Refused(p.reason)
    else if !HasHunk(p.value.files) then Refused(Malformed)
    else Ok(p.value.files)
  }

  method ParseIllustrative(block: string) returns (r: Result<seq<FilePatch>>)
    ensures r == Parse(block)
  {
    hide SplitLines, Strip, StripAb, MarkerAnchor, BodyOf;
    var lines := SplitLines(block);
    var files: seq<FilePatch> := [];
    var inHunk := false;
    for k := 0 to |lines|
      invariant Parsed(files, inHunk).Valid()
      invariant ParseLines(lines, Parsed([], false)) == ParseLines(lines[k..], Parsed(files, inHunk))
    {
      var raw := lines[k];
      assert lines[k..][1..] == lines[k + 1..];
      if StartsWith(raw, "--- ") {
        continue;
      }
      if StartsWith(raw, "+++ ") {
        files, inHunk := files + [FilePatch(StripAb(Strip(raw[4..])), [])], false;
        continue;
      }
      if StartsWith(raw, "@@") {
        if files == [] {
          return Refused(Malformed);
        }
        var f := files[|files| - 1];
        files := files[|files| - 1 := f.(hunks := f.hunks + [Hunk(MarkerAnchor(raw), [])])];
        inHunk := true;
        continue;
      }
      if !inHunk {
        continue;
      }
      var f := files[|files| - 1];
      var h := f.hunks[|f.hunks| - 1];
      h := h.(body := h.body + [BodyOf(raw)]);
      files := files[|files| - 1 := f.(hunks := f.hunks[|f.hunks| - 1 := h])];
    }
    if !HasHunk(files) {
      return Refused(Malformed);
    }
    return Ok(files);
  }

  // ---- placing one hunk --------------------------------------------------

  function TrueIndices(flags: seq<bool>, from: nat): seq<nat>
    requires from <= |flags|
    decreases |flags| - from
  {
    if from == |flags| then []
    else if flags[from] then [from] + TrueIndices(flags, from + 1)
    else TrueIndices(flags, from + 1)
  }

  predicate ListsTrue(flags: seq<bool>, from: nat, hits: seq<nat>) {
    && (forall k | 0 <= k < |hits| :: from <= hits[k] < |flags| && flags[hits[k]])
    && (forall i: nat | from <= i < |flags| && flags[i] :: i in hits)
    && (forall a, b | 0 <= a < b < |hits| :: hits[a] < hits[b])
  }

  lemma {:induction false} TrueIndicesExact(flags: seq<bool>, from: nat)
    requires from <= |flags|
    ensures ListsTrue(flags, from, TrueIndices(flags, from))
    decreases |flags| - from
  {
    hide ListsTrue;
    if from < |flags| {
      TrueIndicesExact(flags, from + 1);
      ListsOneMore(flags, from, TrueIndices(flags, from + 1));
    } else {
      assert ListsTrue(flags, from, []) by { ListsNone(flags); }
    }
  }

  lemma ListsNone(flags: seq<bool>)
    ensures ListsTrue(flags, |flags|, [])
  {
  }

  lemma ListsOneMore(flags: seq<bool>, from: nat, rest: seq<nat>)
    requires from < |flags| && ListsTrue(flags, from + 1, rest)
    ensures flags[from] ==> ListsTrue(flags, from, [from] + rest)
    ensures !flags[from] ==> ListsTrue(flags, from, rest)
  {
    var all := [from] + rest;
    forall i: nat | from <= i < |flags| && flags[i] ensures i in if flags[from] then all else rest {
      if i > from {
        assert i in rest;
      }
    }
    forall a, b | 0 <= a < b < |all| ensures all[a] < all[b] {
      assert all[b] == rest[b - 1];
    }
  }

  /** The source lines that equal the anchor once both are stripped, in ascending order. */
  function Hits(src: seq<string>, key: string): seq<nat> {
    TrueIndices(Matches(src, key), 0)
  }

  function Matches(src: seq<string>, key: string): (flags: seq<bool>)
    ensures |flags| == |src|
  {
    seq(|src|, i requires 0 <= i < |src| => Strip(src[i]) == key)
  }

  function LocateAnchor(src: seq<string>, anchor: string): Result<nat> {
    var hits := Hits(src, Strip(anchor));
    if |hits| == 0 then Refused(AnchorNotFound)
    else if |hits| > 1 then Refused(AnchorAmbiguous)
    else Ok(hits[0])
  }

  predicate AnchoredAt(src: seq<string>, anchor: string, i: nat) {
    i < |src| && Strip(src[i]) == Strip(anchor)
  }

  /** Exactly one matching line is accepted; none and several are told apart. */
  lemma LocateExactlyOne(src: seq<string>, anchor: string)
    ensures match LocateAnchor(src, anchor)
      case Ok(i) => AnchoredAt(src, anchor, i) && forall j :: AnchoredAt(src, anchor, j) ==> j == i
      case Refused(AnchorNotFound) => forall j :: !AnchoredAt(src, anchor, j)
      case Refused(AnchorAmbiguous) => exists i, j :: i != j && AnchoredAt(src, anchor, i) && AnchoredAt(src, anchor, j)
      case Refused(_) => false
  {
    var hits := Hits(src, Strip(anchor));
    TrueIndicesExact(Matches(src, Strip(anchor)), 0);
    forall j: nat | AnchoredAt(src, anchor, j) ensures j in hits {
      assert Matches(src, Strip(anchor))[j];
    }
    if |hits| > 1 {
      assert hits[0] < hits[1];
      assert AnchoredAt(src, anchor, hits[0]) && AnchoredAt(src, anchor, hits[1]);
    } else if |hits| == 1 {
      assert AnchoredAt(src, anchor, hits[0]);
    }
  }

  /** The lines a hunk body expects to find: its context and removal texts. */
  function OldSide(body: seq<BodyLine>): seq<string> {
    if body == [] then []
    else (if body[0].kind == Addition then [] else [body[0].text]) + OldSide(body[1..])
  }

  /** The lines a hunk body leaves behind: its context and addition texts. */
  function NewSide(body: seq<BodyLine>): seq<string> {
    if body == [] then []
    else (if body[0].kind == Removal then [] else [body[0].text]) + NewSide(body[1..])
  }

  lemma {:induction false} SidesAppend(a: seq<BodyLine>, b: seq<BodyLine>)
    ensures OldSide(a + b) == OldSide(a) + OldSide(b)
    ensures NewSide(a + b) == NewSide(a) + NewSide(b)
  {
    if a == [] {
      assert a + b == b;
    } else {
      assert (a + b)[1..] == a[1..] + b;
      SidesAppend(a[1..], b);
      Assoc(if a[0].kind == Addition then [] else [a[0].text], OldSide(a[1..]), OldSide(b));
      Assoc(if a[0].kind == Removal then [] else [a[0].text], NewSide(a[1..]), NewSide(b));
    }
  }

  function ContextLines(texts: seq<string>): (ls: seq<BodyLine>)
    ensures |ls| == |texts|
  {
    seq(|texts|, k requires 0 <= k < |texts| => BodyLine(Context, texts[k]))
  }

  lemma {:induction false} SidesOfContext(texts: seq<string>)
    ensures OldSide(ContextLines(texts)) == texts && NewSide(ContextLines(texts)) == texts
  {
    if texts != [] {
      assert ContextLines(texts)[1..] == ContextLines(texts[1..]);
      SidesOfContext(texts[1..]);
      assert texts == [texts[0]] + texts[1..];
    }
  }

  /** Every context and removal line equals, verbatim, the source line at its cursor below the anchor. */
  predicate Fits(src: seq<string>, i: nat, body: seq<BodyLine>) {
    var n := |OldSide(body)|;
    i + 1 + n <= |src| && src[i + 1..i + 1 + n] == OldSide(body)
  }

  /** Where the appended trailing context stops: before the empty piece a final newline leaves. */
  function Limit(src: seq<string>): nat {
    if src != [] && src[|src| - 1] == [] then |src| - 1 else |src|
  }

  function TrailingEnd(src: seq<string>, si: nat, body: seq<BodyLine>): (e: nat)
    requires si <= |src|
    ensures si <= e <= |src|
  {
    if body == [] || body[|body| - 1].kind == Context then si
    else
      var e := if si + TRAILING_CONTEXT < Limit(src) then si + TRAILING_CONTEXT else Limit(src);
      if e < si then si else e
  }

  /** The first source line below everything the emitted hunk covers on the old side. */
  function HunkEnd(src: seq<string>, i: nat, body: seq<BodyLine>): (e: nat)
    requires Fits(src, i, body)
    ensures i < e <= |src|
  {
    TrailingEnd(src, i + 1 + |OldSide(body)|, body)
  }

  function Covered(src: seq<string>, i: nat, body: seq<BodyLine>): seq<BodyLine>
    requires Fits(src, i, body)
  {
    [BodyLine(Context, src[i])] + body + ContextLines(src[i + 1 + |OldSide(body)|..HunkEnd(src, i, body)])
  }

  function Net(body: seq<BodyLine>): int {
    |NewSide(body)| - |OldSide(body)|
  }

  function Emit(src: seq<string>, i: nat, body: seq<BodyLine>, delta: int): Numbered
    requires Fits(src, i, body)
  {
    var oldCount := HunkEnd(src, i, body) - i;
    Numbered(i + 1, oldCount, i + 1 + delta, oldCount + Net(body), Covered(src, i, body))
  }

  function Place(src: seq<string>, h: Hunk): Result<nat> {
    var at := LocateAnchor(src, h.anchor);
    if at.Ok? && !Fits(src, at.value, h.body) then Refused(ContextMismatch) else at
  }

  lemma CoveredSides(first: string, body: seq<BodyLine>, tail: seq<string>)
    ensures var ls := [BodyLine(Context, first)] + body + ContextLines(tail);
      && OldSide(ls) == [first] + OldSide(body) + tail
      && NewSide(ls) == [first] + NewSide(body) + tail
  {
    var head := [BodyLine(Context, first)];
    SidesAppend(head + body, ContextLines(tail));
    SidesAppend(head, body);
    SidesOfContext(tail);
    assert head[1..] == [];
    assert OldSide(head) == [first] && NewSide(head) == [first];
  }

  /** Both sides of an emitted hunk: the old side is the source stretch its header names, verbatim,
      and the two counts are the true lengths of the two sides. */
  lemma {:induction false} EmittedSides(src: seq<string>, i: nat, body: seq<BodyLine>, delta: int)
    requires Fits(src, i, body)
    ensures var h := Emit(src, i, body, delta);
      && OldSide(h.lines) == src[i..HunkEnd(src, i, body)]
      && |OldSide(h.lines)| == h.oldCount && |NewSide(h.lines)| == h.newCount
      && NewSide(h.lines) == [src[i]] + NewSide(body) + src[i + 1 + |OldSide(body)|..HunkEnd(src, i, body)]
      && 1 <= h.oldCount && 1 <= h.newCount
  {
    hide OldSide, NewSide, ContextLines, TrailingEnd;
    var si, e := i + 1 + |OldSide(body)|, HunkEnd(src, i, body);
    CoveredSides(src[i], body, src[si..e]);
    StretchSplits(src, i, si, e);
  }

  lemma StretchSplits(src: seq<string>, i: nat, si: nat, e: nat)
    requires i < si <= e <= |src|
    ensures src[i..e] == [src[i]] + src[i + 1..si] + src[si..e]
  {
  }

  lemma SliceGrows(src: seq<string>, i: nat, j: nat)
    requires i <= j < |src|
    ensures src[i..j + 1] == src[i..j] + [src[j]]
  {
  }

  // ---- the emitted text --------------------------------------------------

  function Mark(b: BodyLine): string {
    (match b.kind case Context => " " case Removal => "-" case Addition => "+") + b.text
  }

  function Marked(ls: seq<BodyLine>): (ms: seq<string>)
    ensures |ms| == |ls|
  {
    seq(|ls|, k requires 0 <= k < |ls| => Mark(ls[k]))
  }

  function Header(oldStart: int, oldCount: int, newStart: int, newCount: int): string {
    "@@ -" + Decimal(oldStart) + "," + Decimal(oldCount) + " +" + Decimal(newStart) + "," + Decimal(newCount) + " @@"
  }

  function RenderHunk(h: Numbered): seq<string> {
    [Header(h.oldStart, h.oldCount, h.newStart, h.newCount)] + Marked(h.lines)
  }

  function RenderHunks(hs: seq<Numbered>): seq<string> {
    if hs == [] then [] else RenderHunk(hs[0]) + RenderHunks(hs[1..])
  }

  function RenderSections(ss: seq<Section>): seq<string> {
    if ss == [] then []
    else ["--- a/" + ss[0].path, "+++ b/" + ss[0].path] + RenderHunks(ss[0].hunks) + RenderSections(ss[1..])
  }

  lemma {:induction false} RenderHunksAppend(a: seq<Numbered>, h: Numbered)
    ensures RenderHunks(a + [h]) == RenderHunks(a) + RenderHunk(h)
  {
    if a == [] {
      assert RenderHunks([h]) == RenderHunk(h) + RenderHunks([]);
      assert a + [h] == [h];
    } else {
      assert (a + [h])[1..] == a[1..] + [h];
      RenderHunksAppend(a[1..], h);
    }
  }

  lemma {:induction false} RenderSectionsAppend(a: seq<Section>, s: Section)
    ensures RenderSections(a + [s])
         == RenderSections(a) + (["--- a/" + s.path, "+++ b/" + s.path] + RenderHunks(s.hunks))
  {
    if a == [] {
      assert a + [s] == [s];
      assert RenderSections([s][1..]) == [];
    } else {
      assert (a + [s])[1..] == a[1..] + [s];
      RenderSectionsAppend(a[1..], s);
    }
  }

  // ---- one hunk, one file, one block -------------------------------------

  lemma SidesOfOne(b: BodyLine)
    ensures OldSide([b]) == (if b.kind == Addition then [] else [b.text])
    ensures NewSide([b]) == (if b.kind == Removal then [] else [b.text])
  {
    assert [b][1..] == [];
    assert OldSide([]) == [] && NewSide([]) == [];
  }

  lemma WalkStep(pre: seq<BodyLine>, b: BodyLine, post: seq<BodyLine>)
    ensures OldSide(pre + [b]) == (if b.kind == Addition then OldSide(pre) else OldSide(pre) + [b.text])
    ensures NewSide(pre + [b]) == (if b.kind == Removal then NewSide(pre) else NewSide(pre) + [b.text])
    ensures OldSide(pre + [b]) <= OldSide(pre + [b] + post)
  {
    SidesAppend(pre, [b]);
    SidesAppend(pre + [b], post);
    SidesOfOne(b);
  }

  lemma MarkedStep(head: seq<BodyLine>, b: BodyLine)
    ensures Marked(head + [b]) == Marked(head) + [Mark(b)]
  {
  }

  lemma BodySplitsAt(first: seq<BodyLine>, body: seq<BodyLine>, k: nat)
    requires k < |body|
    ensures body[..k + 1] == body[..k] + [body[k]] && body == body[..k] + [body[k]] + body[k + 1..]
    ensures first + body[..k + 1] == first + body[..k] + [body[k]]
  {
  }

  lemma MarkedOne(b: BodyLine)
    ensures Marked([b]) == [Mark(b)]
  {
  }

  lemma SidesOfNone()
    ensures OldSide([]) == [] && NewSide([]) == []
  {
  }

  lemma MismatchRefuses(src: seq<string>, i: nat, body: seq<BodyLine>, n: nat)
    requires n < |OldSide(body)|
    requires i + 1 + n >= |src| || src[i + 1 + n] != OldSide(body)[n]
    ensures !Fits(src, i, body)
  {
    var m := |OldSide(body)|;
    if i + 1 + m <= |src| {
      assert src[i + 1..i + 1 + m][n] == src[i + 1 + n];
    }
  }

  lemma TrailStep(walked: seq<BodyLine>, src: seq<string>, si: nat, j: nat)
    requires si <= j < |src|
    ensures Marked(walked + ContextLines(src[si..j + 1])) == Marked(walked + ContextLines(src[si..j])) + [" " + src[j]]
  {
    var b := BodyLine(Context, src[j]);
    assert src[si..j + 1] == src[si..j] + [src[j]];
    assert ContextLines(src[si..j + 1]) == ContextLines(src[si..j]) + [b];
    assert walked + ContextLines(src[si..j + 1]) == walked + ContextLines(src[si..j]) + [b];
    MarkedStep(walked + ContextLines(src[si..j]), b);
  }

  /** The first loop of `_reconstruct_hunk`: the cursor walk over the body, with both running counts. */
  method WalkBody(src: seq<string>, i: nat, body: seq<BodyLine>)
    returns (ok: bool, out: seq<string>, oldCount: int, newCount: int, si: nat)
    requires i < |src|
    ensures ok <==> Fits(src, i, body)
    ensures ok ==> out == Marked([BodyLine(Context, src[i])] + body)
    ensures ok ==> si == i + 1 + |OldSide(body)| && oldCount == si - i && newCount == oldCount + Net(body)
  {
    hide OldSide, NewSide, Marked;
    ghost var first := [BodyLine(Context, src[i])];
    MarkedOne(first[0]);
    SidesOfNone();
    assert body[..0] == [] && first + [] == first;
    out := [" " + src[i]];
    oldCount, newCount, si := 1, 1, i + 1;
    for k := 0 to |body|
      invariant out == Marked(first + body[..k])
      invariant si == i + 1 + |OldSide(body[..k])| <= |src| && src[i + 1..si] == OldSide(body[..k])
      invariant oldCount == 1 + |OldSide(body[..k])| && newCount == 1 + |NewSide(body[..k])|
    {
      var b := body[k];
      WalkStep(body[..k], b, body[k + 1..]);
      BodySplitsAt(first, body, k);
      MarkedStep(first + body[..k], b);
      if b.kind == Addition {
        out := out + ["+" + b.text];
        newCount := newCount + 1;
        continue;
      }
      if si >= |src| || src[si] != b.text {
        MismatchRefuses(src, i, body, si - i - 1);
        return false, out, oldCount, newCount, si;
      }
      out := out + [(if b.kind == Context then " " else "-") + b.text];
      SliceGrows(src, i + 1, si);
      oldCount, si := oldCount + 1, si + 1;
      if b.kind == Context {
        newCount := newCount + 1;
      }
    }
    assert body[..|body|] == body;
    ok := true;
  }

  /** `_reconstruct_hunk`: the walk, then the trailing context, then the header. */
  method ReconstructHunk(src: seq<string>, hunk: Hunk, delta: int) returns (r: Result<(seq<string>, int)>)
    ensures var at := Place(src, hunk);
      r == if at.Refused? then Refused(at.reason)
           else Ok((RenderHunk(Emit(src, at.value, hunk.body, delta)), Net(hunk.body)))
  {
    hide OldSide, NewSide, Net, Marked, LocateAnchor, Header, HunkEnd, Covered;
    var at := LocateAnchor(src, hunk.anchor);
    if at.Refused? {
      return Refused(at.reason);
    }
    var i, body := at.value, hunk.body;
    assert i < |src| by { LocateExactlyOne(src, hunk.anchor); }
    var ok, out, oldCount, newCount, si := WalkBody(src, i, body);
    if !ok {
      return Refused(ContextMismatch);
    }
    out, oldCount, newCount := AppendTrailing(src, i, body, out, oldCount, newCount, si);
    var oldStart := i + 1;
    var newStart := oldStart + delta;
    return Ok(([Header(oldStart, oldCount, newStart, newCount)] + out, newCount - oldCount));
  }

  /** The trailing context behind a body that does not end in context. */
  method AppendTrailing(src: seq<string>, i: nat, body: seq<BodyLine>, out0: seq<string>, old0: int, new0: int, si: nat)
    returns (out: seq<string>, oldCount: int, newCount: int)
    requires i < |src| && Fits(src, i, body) && si == i + 1 + |OldSide(body)|
    requires out0 == Marked([BodyLine(Context, src[i])] + body) && old0 == si - i && new0 == old0 + Net(body)
    ensures out == Marked(Covered(src, i, body)) && oldCount == HunkEnd(src, i, body) - i
    ensures newCount == oldCount + Net(body)
  {
    hide OldSide, NewSide, Net, Marked;
    out, oldCount, newCount := out0, old0, new0;
    ghost var walked := [BodyLine(Context, src[i])] + body;
    NoTrail(walked, src, si);
    if body != [] && body[|body| - 1].kind != Context {
      var limit := if src != [] && src[|src| - 1] == [] then |src| - 1 else |src|;
      var hi := if si + TRAILING_CONTEXT < limit then si + TRAILING_CONTEXT else limit;
      var j := si;
      while j < hi
        invariant si <= j && (j <= hi || j == si)
        invariant out == Marked(walked + ContextLines(src[si..j]))
        invariant oldCount == j - i && newCount == j - i + Net(body)
      {
        TrailStep(walked, src, si, j);
        out := out + [" " + src[j]];
        oldCount, newCount, j := oldCount + 1, newCount + 1, j + 1;
      }
    }
  }

  lemma NoTrail(walked: seq<BodyLine>, src: seq<string>, si: nat)
    requires si <= |src|
    ensures walked + ContextLines(src[si..si]) == walked
  {
  }

  function NetAll(hunks: seq<Hunk>): int {
    if hunks == [] then 0 else NetAll(hunks[..|hunks| - 1]) + Net(hunks[|hunks| - 1].body)
  }

  /** The refusal of the first hunk that cannot be placed. */
  function FirstRefusal(src: seq<string>, hunks: seq<Hunk>): Option<Reason> {
    if hunks == [] then None
    else
      var at := Place(src, hunks[0]);
      if at.Refused? then Some(at.reason) else FirstRefusal(src, hunks[1..])
  }

  lemma {:induction false} FirstRefusalIs(src: seq<string>, hunks: seq<Hunk>, k: nat)
    requires k <= |hunks| && forall j | 0 <= j < k :: Place(src, hunks[j]).Ok?
    ensures k == |hunks| ==> FirstRefusal(src, hunks) == None
    ensures k < |hunks| && Place(src, hunks[k]).Refused?
        ==> FirstRefusal(src, hunks) == Some(Place(src, hunks[k]).reason)
  {
    if k > 0 {
      assert forall j | 0 <= j < k - 1 :: hunks[1..][j] == hunks[j + 1];
      FirstRefusalIs(src, hunks[1..], k - 1);
    }
  }

  lemma {:induction false} NoRefusal(src: seq<string>, hunks: seq<Hunk>, k: nat)
    requires FirstRefusal(src, hunks) == None && k < |hunks|
    ensures Place(src, hunks[k]).Ok?
  {
    if k > 0 {
      NoRefusal(src, hunks[1..], k - 1);
    }
  }

  /** Hunk `k` numbered: its new side starts where the net line change of the hunks before puts it. */
  function NumberAt(src: seq<string>, hunks: seq<Hunk>, k: nat): Numbered
    requires k < |hunks| && Place(src, hunks[k]).Ok?
  {
    Emit(src, Place(src, hunks[k]).value, hunks[k].body, NetAll(hunks[..k]))
  }

  predicate IsNumberAt(src: seq<string>, hunks: seq<Hunk>, k: nat, h: Numbered) {
    k < |hunks| && Place(src, hunks[k]).Ok? && h == NumberAt(src, hunks, k)
  }

  function FileSpec(src: seq<string>, hunks: seq<Hunk>): (r: Result<seq<Numbered>>)
    ensures r.Ok? ==> |r.value| == |hunks|
  {
    var bad := FirstRefusal(src, hunks);
    if bad.Some? then Refused(bad.value)
    else Ok(seq(|hunks|, k requires 0 <= k < |hunks| => NoRefusal(src, hunks, k); NumberAt(src, hunks, k)))
  }

  function SourceOf(files: map<string, string>, path: string): seq<string>
    requires path in files
  {
    SplitOn(files[path], '\n')
  }

  function SectionSpec(fp: FilePatch, files: map<string, string>): Result<Section> {
    if fp.path !in files then Refused(FileNotFound)
    else
      var hs := FileSpec(SourceOf(files, fp.path), fp.hunks);
      if hs.Refused? then Refused(hs.reason) else Ok(Section(fp.path, hs.value))
  }

  /** All sections, or the refusal of the first file that refuses. */
  function SectionsSpec(fps: seq<FilePatch>, files: map<string, string>): Result<seq<Section>> {
    if fps == [] then Ok([])
    else
      var init := SectionsSpec(fps[..|fps| - 1], files);
      if init.Refused? then init
      else
        var last := SectionSpec(fps[|fps| - 1], files);
        if last.Refused? then Refused(last.reason) else Ok(init.value + [last.value])
  }

  /** A front match of `\d+(?:,\d+)?`: what is left behind it. */
  function AfterRange(t: string): Result<string> {
    var k := DigitRun(t);
    if k == 0 then Refused(Malformed)
    else
      var u := t[k..];
      if StartsWith(u, ",") && DigitRun(u[1..]) > 0 then Ok(u[1..][DigitRun(u[1..])..]) else Ok(u)
  }

  /** `@@ -\d+(?:,\d+)? \+\d+(?:,\d+)? @@` at the front of `t`. */
  predicate RealHunkAt(t: string) {
    StartsWith(t, "@@ -") &&
    var a := AfterRange(t[4..]);
    a.Ok? && StartsWith(a.value, " +") &&
    var b := AfterRange(a.value[2..]);
    b.Ok? && StartsWith(b.value, " @@")
  }

  /** That pattern at the start of some line of `s`. */
  predicate HasRealHunk(s: string, lineStart: bool := true) {
    (lineStart && RealHunkAt(s)) || (s != [] && HasRealHunk(s[1..], s[0] == '\n'))
  }

  function WithNewline(s: string): string {
    if s != [] && s[|s| - 1] == '\n' then s else s + "\n"
  }

  function ReconstructSpec(block: string, files: map<string, string>): Result<string> {
    if HasRealHunk(block) then Ok(WithNewline(block))
    else
      var fps := Parse(block);
      if fps.Refused? then Refused(fps.reason)
      else
        var ss := SectionsSpec(fps.value, files);
        if ss.Refused? then Refused(ss.reason) else Ok(Join(RenderSections(ss.value)) + "\n")
  }

  lemma NoSections(files: map<string, string>)
    ensures SectionsSpec([], files) == Ok([]) && RenderSections([]) == []
  {
  }

  lemma SectionsStep(fps: seq<FilePatch>, f: nat, files: map<string, string>)
    requires f < |fps| && SectionsSpec(fps[..f], files).Ok?
    ensures var last := SectionSpec(fps[f], files);
      SectionsSpec(fps[..f + 1], files)
      == if last.Refused? then Refused(last.reason) else Ok(SectionsSpec(fps[..f], files).value + [last.value])
  {
    assert fps[..f + 1][..f] == fps[..f];
  }

  lemma {:induction false} SectionsPrefixRefuses(fps: seq<FilePatch>, files: map<string, string>, k: nat)
    requires k <= |fps| && SectionsSpec(fps[..k], files).Refused?
    ensures SectionsSpec(fps, files) == SectionsSpec(fps[..k], files)
  {
    if k < |fps| {
      assert fps[..|fps| - 1][..k] == fps[..k];
      SectionsPrefixRefuses(fps[..|fps| - 1], files, k);
    } else {
      assert fps[..k] == fps;
    }
  }

  /** The inner loop of `reconstruct`: every hunk of one file, `delta` the net change so far. */
  method ReconstructFile(src: seq<string>, hunks: seq<Hunk>) returns (r: Result<seq<string>>)
    ensures var hs := FileSpec(src, hunks);
      r == if hs.Refused? then Refused(hs.reason) else Ok(RenderHunks(hs.value))
  {
    hide Place, RenderHunk, Emit;
    var parts: seq<string> := [];
    var delta := 0;
    ghost var hs: seq<Numbered> := [];
    for k := 0 to |hunks|
      invariant delta == NetAll(hunks[..k])
      invariant forall j | 0 <= j < k :: Place(src, hunks[j]).Ok?
      invariant |hs| == k && forall j | 0 <= j < k :: IsNumberAt(src, hunks, j, hs[j])
      invariant parts == RenderHunks(hs)
    {
      var one := ReconstructHunk(src, hunks[k], delta);
      if one.Refused? {
        FirstRefusalIs(src, hunks, k);
        return Refused(one.reason);
      }
      assert hunks[..k + 1][..k] == hunks[..k];
      ghost var h := NumberAt(src, hunks, k);
      assert IsNumberAt(src, hunks, k, h);
      RenderHunksAppend(hs, h);
      hs := hs + [h];
      parts, delta := parts + one.value.0, delta + one.value.1;
    }
    FirstRefusalIs(src, hunks, |hunks|);
    assert hs == FileSpec(src, hunks).value;
    return Ok(parts);
  }

  /** `reconstruct`: `files` holds the text of every file that exists. */
  method Reconstruct(block: string, files: map<string, string>) returns (r: Result<string>)
    ensures r == ReconstructSpec(block, files)
  {
    hide HasRealHunk, Parse, FileSpec, RenderHunks, RenderSections, SectionsSpec, Join, SplitOn;
    if HasRealHunk(block) {
      return Ok(if block != [] && block[|block| - 1] == '\n' then block else block + "\n");
    }
    var parsed := ParseIllustrative(block);
    if parsed.Refused? {
      return Refused(parsed.reason);
    }
    var fps := parsed.value;
    var parts: seq<string> := [];
    ghost var done: seq<Section> := [];
    assert fps[..0] == [];
    NoSections(files);
    for f := 0 to |fps|
      invariant parts == RenderSections(done)
      invariant SectionsSpec(fps[..f], files) == Ok(done)
    {
      var fp := fps[f];
      SectionsStep(fps, f, files);
      if fp.path !in files {
        SectionsPrefixRefuses(fps, files, f + 1);
        return Refused(FileNotFound);
      }
      var src := SplitOn(files[fp.path], '\n');
      var hunkTexts := ReconstructFile(src, fp.hunks);
      if hunkTexts.Refused? {
        SectionsPrefixRefuses(fps, files, f + 1);
        return Refused(hunkTexts.reason);
      }
      ghost var sec := SectionSpec(fp, files).value;
      RenderSectionsAppend(done, sec);
      parts, done := parts + (["--- a/" + fp.path, "+++ b/" + fp.path] + hunkTexts.value), done + [sec];
    }
    assert fps[..|fps|] == fps;
    return Ok(Join(parts) + "\n");
  }
}
