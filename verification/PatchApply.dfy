/** What a strict reader of line-numbered patches does with a reconstructed one, and what the patch
    means: the source with the removals deleted and the additions inserted below their lines. */
module PatchApply {
  import opened Options
  import opened Text
  import opened PatchReconstruct

  // ---- files -------------------------------------------------------------

  /** A text file as its lines, and whether the last one ends in a newline. */
  datatype TextFile = TextFile(lines: seq<string>, terminated: bool)

  /** The file behind the pieces between newlines: an empty last piece is no line, it is what a final newline leaves. */
  function FileOf(src: seq<string>): TextFile
    requires src != []
  {
    if src[|src| - 1] == [] then TextFile(src[..|src| - 1], true) else TextFile(src, false)
  }

  function TextOf(f: TextFile): string {
    Join(f.lines + if f.terminated then [[]] else [])
  }

  /** Reading a text as a file loses nothing. */
  lemma TextOfFile(text: string)
    ensures TextOf(FileOf(SplitOn(text, '\n'))) == text
  {
    var src := SplitOn(text, '\n');
    JoinOfSplitOn(text);
    if src[|src| - 1] == [] {
      assert src[..|src| - 1] + [[]] == src;
    } else {
      assert src + [] == src;
    }
  }

  // ---- applying numbered hunks -------------------------------------------

  predicate Changes(ls: seq<BodyLine>) {
    exists k | 0 <= k < |ls| :: ls[k].kind != Context
  }

  /** Applies the hunks to the lines of a file, from left to right. `cursor` lines are consumed, `out` is written.
      A hunk must change something and not start above the cursor, its header must name the true start and length
      of both sides, and its old side must be the lines verbatim. Every line of a hunk stands for a line with its
      newline, so none matches a last line without one. */
  function Apply(f: TextFile, hs: seq<Numbered>, cursor: nat, out: seq<string>): Option<seq<string>>
    requires cursor <= |f.lines|
    decreases |hs|
  {
    if hs == [] then Some(out + f.lines[cursor..])
    else
      var h := hs[0];
      var s := h.oldStart - 1;
      var e := s + h.oldCount;
      if s < cursor || h.oldCount < 1 || e > |f.lines| || !Changes(h.lines) then None
      else if |OldSide(h.lines)| != h.oldCount || |NewSide(h.lines)| != h.newCount then None
      else if f.lines[s..e] != OldSide(h.lines) || (e == |f.lines| && !f.terminated) then None
      else if |out| + (s - cursor) != h.newStart - 1 then None
      else Apply(f, hs[1..], e, out + f.lines[cursor..s] + NewSide(h.lines))
  }

  /** Each hunk starts at or below the end of the one before it, on the old side. */
  predicate Ascending(hs: seq<Numbered>) {
    forall k | 0 < k < |hs| :: hs[k - 1].oldStart + hs[k - 1].oldCount <= hs[k].oldStart
  }

  // ---- the meaning of the edits ------------------------------------------

  /** A hunk body placed below source line `at`. */
  datatype Edit = Edit(at: nat, body: seq<BodyLine>)

  /** Does the body, its cursor on line `pos`, remove source line `j`? */
  predicate Removes(body: seq<BodyLine>, pos: nat, j: nat) {
    body != [] && match body[0].kind
      case Addition => Removes(body[1..], pos, j)
      case Context => Removes(body[1..], pos + 1, j)
      case Removal => j == pos + 1 || Removes(body[1..], pos + 1, j)
  }

  /** The texts the body, its cursor on line `pos`, inserts below source line `j`. */
  function Inserts(body: seq<BodyLine>, pos: nat, j: nat): seq<string> {
    if body == [] then []
    else match body[0].kind
      case Addition => (if j == pos then [body[0].text] else []) + Inserts(body[1..], pos, j)
      case Context => Inserts(body[1..], pos + 1, j)
      case Removal => Inserts(body[1..], pos + 1, j)
  }

  predicate AnyRemoves(es: seq<Edit>, j: nat) {
    exists k | 0 <= k < |es| :: Removes(es[k].body, es[k].at, j)
  }

  function AllInserts(es: seq<Edit>, j: nat): seq<string> {
    if es == [] then [] else Inserts(es[0].body, es[0].at, j) + AllInserts(es[1..], j)
  }

  /** What becomes of source line `j`: itself unless some edit removes it, then what is inserted below it. */
  function Line(src: seq<string>, es: seq<Edit>, j: nat): seq<string>
    requires j < |src|
  {
    (if AnyRemoves(es, j) then [] else [src[j]]) + AllInserts(es, j)
  }

  /** The edited lines `lo` to `hi`. */
  function Edited(src: seq<string>, es: seq<Edit>, lo: nat, hi: nat): seq<string>
    requires lo <= hi <= |src|
    decreases hi - lo
  {
    if lo == hi then [] else Line(src, es, lo) + Edited(src, es, lo + 1, hi)
  }

  lemma {:induction false} EditedSplit(src: seq<string>, es: seq<Edit>, lo: nat, mid: nat, hi: nat)
    requires lo <= mid <= hi <= |src|
    ensures Edited(src, es, lo, hi) == Edited(src, es, lo, mid) + Edited(src, es, mid, hi)
    decreases mid - lo
  {
    if lo < mid {
      EditedSplit(src, es, lo + 1, mid, hi);
    }
  }

  lemma {:induction false} EditedSame(src: seq<string>, es: seq<Edit>, fs: seq<Edit>, lo: nat, hi: nat)
    requires lo <= hi <= |src|
    requires forall j | lo <= j < hi :: Line(src, es, j) == Line(src, fs, j)
    ensures Edited(src, es, lo, hi) == Edited(src, fs, lo, hi)
    decreases hi - lo
  {
    if lo < hi {
      EditedSame(src, es, fs, lo + 1, hi);
    }
  }

  lemma {:induction false} EditedUntouched(src: seq<string>, es: seq<Edit>, lo: nat, hi: nat)
    requires lo <= hi <= |src|
    requires forall j | lo <= j < hi :: Line(src, es, j) == [src[j]]
    ensures Edited(src, es, lo, hi) == src[lo..hi]
    decreases hi - lo
  {
    if lo < hi {
      EditedUntouched(src, es, lo + 1, hi);
      assert src[lo..hi] == [src[lo]] + src[lo + 1..hi];
    }
  }

  /** A body touches only the lines from its anchor to the last old line it names. */
  lemma {:induction false} TouchesOnly(body: seq<BodyLine>, pos: nat, j: nat)
    ensures j <= pos || j > pos + |OldSide(body)| ==> !Removes(body, pos, j)
    ensures j < pos || j > pos + |OldSide(body)| ==> Inserts(body, pos, j) == []
  {
    if body != [] {
      TouchesOnly(body[1..], if body[0].kind == Addition then pos else pos + 1, j);
    }
  }

  lemma SingleLine(src: seq<string>, pos: nat, body: seq<BodyLine>, j: nat)
    requires j < |src|
    ensures Line(src, [Edit(pos, body)], j)
         == (if Removes(body, pos, j) then [] else [src[j]]) + Inserts(body, pos, j)
  {
    var es := [Edit(pos, body)];
    assert es[1..] == [] && AllInserts([], j) == [];
    assert AllInserts(es, j) == Inserts(body, pos, j);
    assert Removes(es[0].body, es[0].at, j) ==> AnyRemoves(es, j);
  }

  /** Taking the first body line off a body that fits. */
  lemma FitsTail(src: seq<string>, pos: nat, body: seq<BodyLine>)
    requires body != [] && Fits(src, pos, body)
    ensures body[0].kind == Addition ==> Fits(src, pos, body[1..]) && |OldSide(body)| == |OldSide(body[1..])|
    ensures body[0].kind != Addition ==>
        pos + 1 < |src| && src[pos + 1] == body[0].text
        && Fits(src, pos + 1, body[1..]) && |OldSide(body)| == 1 + |OldSide(body[1..])|
  {
    OldSideHead(body);
    hide OldSide;
    if body[0].kind != Addition {
      HeadOfStretch(src, pos + 1, pos + 1 + |OldSide(body)|, body[0].text, OldSide(body[1..]));
    }
  }

  lemma OldSideHead(body: seq<BodyLine>)
    requires body != []
    ensures OldSide(body) == (if body[0].kind == Addition then [] else [body[0].text]) + OldSide(body[1..])
    ensures body[0].kind == Addition ==> OldSide(body) == OldSide(body[1..])
  {
  }

  lemma HeadOfStretch(src: seq<string>, a: nat, e: nat, x: string, rest: seq<string>)
    requires a <= e <= |src| && src[a..e] == [x] + rest
    ensures a < e && src[a] == x && src[a + 1..e] == rest && e == a + 1 + |rest|
  {
    assert |src[a..e]| == e - a;
    assert src[a] == src[a..e][0];
    assert src[a + 1..e] == src[a..e][1..];
  }

  /** An edit whose first body line consumes a source line goes on as the edit of the rest one line down. */
  lemma ConsumeLine(src: seq<string>, pos: nat, body: seq<BodyLine>)
    requires body != [] && body[0].kind != Addition && Fits(src, pos, body)
    ensures var e, rest := pos + 1 + |OldSide(body)|, body[1..];
      && Fits(src, pos + 1, rest) && e == pos + 2 + |OldSide(rest)|
      && Edited(src, [Edit(pos, body)], pos + 1, e)
      == (if body[0].kind == Removal then [] else [body[0].text]) + Inserts(rest, pos + 1, pos + 1)
         + Edited(src, [Edit(pos + 1, rest)], pos + 2, e)
  {
    FitsTail(src, pos, body);
    hide OldSide, Fits, Line;
    var e, rest := pos + 1 + |OldSide(body)|, body[1..];
    forall j | pos + 2 <= j < e
      ensures Line(src, [Edit(pos, body)], j) == Line(src, [Edit(pos + 1, rest)], j)
    {
      SingleLine(src, pos, body, j);
      SingleLine(src, pos + 1, rest, j);
    }
    EditedSame(src, [Edit(pos, body)], [Edit(pos + 1, rest)], pos + 2, e);
    SingleLine(src, pos, body, pos + 1);
    TouchesOnly(rest, pos + 1, pos + 1);
  }

  lemma AdditionHead(pos: nat, body: seq<BodyLine>, j: nat)
    requires body != [] && body[0].kind == Addition
    ensures Removes(body, pos, j) <==> Removes(body[1..], pos, j)
    ensures Inserts(body, pos, j) == (if j == pos then [body[0].text] else []) + Inserts(body[1..], pos, j)
  {
  }

  lemma AdditionLine(src: seq<string>, pos: nat, body: seq<BodyLine>, j: nat)
    requires body != [] && body[0].kind == Addition && pos < j < |src|
    ensures Line(src, [Edit(pos, body)], j) == Line(src, [Edit(pos, body[1..])], j)
  {
    hide Line, Inserts, Removes;
    AdditionHead(pos, body, j);
    SingleLine(src, pos, body, j);
    SingleLine(src, pos, body[1..], j);
  }

  lemma AddLine(src: seq<string>, pos: nat, body: seq<BodyLine>)
    requires body != [] && body[0].kind == Addition && Fits(src, pos, body)
    ensures var e, rest := pos + 1 + |OldSide(body)|, body[1..];
      && Fits(src, pos, rest) && e == pos + 1 + |OldSide(rest)|
      && Inserts(body, pos, pos) == [body[0].text] + Inserts(rest, pos, pos)
      && Edited(src, [Edit(pos, body)], pos + 1, e) == Edited(src, [Edit(pos, rest)], pos + 1, e)
  {
    FitsTail(src, pos, body);
    AdditionHead(pos, body, pos);
    hide OldSide, Fits, Line, Edited, Inserts;
    var e, rest := pos + 1 + |OldSide(body)|, body[1..];
    forall j | pos + 1 <= j < e
      ensures Line(src, [Edit(pos, body)], j) == Line(src, [Edit(pos, rest)], j)
    {
      AdditionLine(src, pos, body, j);
    }
    EditedSame(src, [Edit(pos, body)], [Edit(pos, rest)], pos + 1, e);
  }

  lemma EmptyBody()
    ensures OldSide([]) == [] && NewSide([]) == []
  {
  }

  /** Below its anchor line, an edit leaves exactly the new side of its body. */
  lemma {:induction false} OneEdit(src: seq<string>, pos: nat, body: seq<BodyLine>)
    requires Fits(src, pos, body)
    ensures Inserts(body, pos, pos) + Edited(src, [Edit(pos, body)], pos + 1, pos + 1 + |OldSide(body)|)
         == NewSide(body)
    decreases |body|
  {
    hide Line, OldSide;
    if body == [] {
      EmptyBody();
    } else if body[0].kind == Addition {
      AddLine(src, pos, body);
      OneEdit(src, pos, body[1..]);
      hide Edited, Inserts;
      Assoc([body[0].text], Inserts(body[1..], pos, pos),
            Edited(src, [Edit(pos, body)], pos + 1, pos + 1 + |OldSide(body)|));
    } else {
      ConsumeLine(src, pos, body);
      OneEdit(src, pos + 1, body[1..]);
      TouchesOnly(body[1..], pos + 1, pos);
      hide Edited;
      Assoc(if body[0].kind == Removal then [] else [body[0].text], Inserts(body[1..], pos + 1, pos + 1),
            Edited(src, [Edit(pos + 1, body[1..])], pos + 2, pos + 1 + |OldSide(body)|));
    }
  }

  // ---- a whole file ------------------------------------------------------

  lemma {:induction false} FarBelow(es: seq<Edit>, j: nat)
    requires forall k | 0 <= k < |es| :: j < es[k].at
    ensures !AnyRemoves(es, j) && AllInserts(es, j) == []
  {
    forall k | 0 <= k < |es| ensures !Removes(es[k].body, es[k].at, j) {
      TouchesOnly(es[k].body, es[k].at, j);
    }
    if es != [] {
      TouchesOnly(es[0].body, es[0].at, j);
      assert forall k | 0 <= k < |es[1..]| :: es[1..][k] == es[k + 1];
      FarBelow(es[1..], j);
    }
  }

  /** Where the later edits do not reach, only the first counts; where the first does not, only the later ones. */
  lemma FirstOrRest(src: seq<string>, es: seq<Edit>, j: nat)
    requires es != [] && j < |src|
    ensures !AnyRemoves(es[1..], j) && AllInserts(es[1..], j) == []
        ==> Line(src, es, j) == Line(src, [es[0]], j)
    ensures !Removes(es[0].body, es[0].at, j) && Inserts(es[0].body, es[0].at, j) == []
        ==> Line(src, es, j) == Line(src, es[1..], j)
  {
    SingleLine(src, es[0].at, es[0].body, j);
    RemovedByFirstOrRest(es, j);
    hide AnyRemoves, Removes, Inserts;
  }

  lemma RemovedByFirstOrRest(es: seq<Edit>, j: nat)
    requires es != []
    ensures AnyRemoves(es, j) <==> Removes(es[0].body, es[0].at, j) || AnyRemoves(es[1..], j)
  {
    hide Removes;
    if k :| 0 <= k < |es[1..]| && Removes(es[1..][k].body, es[1..][k].at, j) {
      assert Removes(es[k + 1].body, es[k + 1].at, j);
    }
    if k :| 0 < k < |es| && Removes(es[k].body, es[k].at, j) {
      assert es[k] == es[1..][k - 1];
    }
  }

  /** Line by line: the topmost edit covers its own lines, the later ones start at or below `e`. */
  lemma PeelLine(src: seq<string>, es: seq<Edit>, e: nat, j: nat)
    requires es != [] && es[0].at + 1 + |OldSide(es[0].body)| <= e <= |src| && j < |src|
    requires forall k | 1 <= k < |es| :: e <= es[k].at
    ensures var i, si := es[0].at, es[0].at + 1 + |OldSide(es[0].body)|;
      && (j < i || si <= j < e ==> Line(src, es, j) == [src[j]])
      && (i <= j < si ==> Line(src, es, j) == Line(src, [es[0]], j))
      && (e <= j ==> Line(src, es, j) == Line(src, es[1..], j))
  {
    hide OldSide;
    var i, body := es[0].at, es[0].body;
    if j < e {
      assert forall k | 0 <= k < |es[1..]| :: es[1..][k] == es[k + 1];
      FarBelow(es[1..], j);
    }
    FirstOrRest(src, es, j);
    TouchesOnly(body, i, j);
    SingleLine(src, i, body, j);
  }

  /** The topmost edit, peeled off: untouched lines, its anchor and new side, its trailing lines, the rest. */
  lemma PeelFirst(src: seq<string>, es: seq<Edit>, cursor: nat, e: nat, hi: nat)
    requires es != [] && Fits(src, es[0].at, es[0].body)
    requires cursor <= es[0].at && es[0].at + 1 + |OldSide(es[0].body)| <= e <= hi <= |src|
    requires forall k | 1 <= k < |es| :: e <= es[k].at
    ensures var i, si := es[0].at, es[0].at + 1 + |OldSide(es[0].body)|;
      Edited(src, es, cursor, hi)
      == src[cursor..i] + ([src[i]] + NewSide(es[0].body) + src[si..e]) + Edited(src, es[1..], e, hi)
  {
    hide OldSide, NewSide, Line, Edited, Fits;
    var i, body, si := es[0].at, es[0].body, es[0].at + 1 + |OldSide(es[0].body)|;
    forall j | 0 <= j < |src|
      ensures j < i || si <= j < e ==> Line(src, es, j) == [src[j]]
      ensures i <= j < si ==> Line(src, es, j) == Line(src, [es[0]], j)
      ensures e <= j ==> Line(src, es, j) == Line(src, es[1..], j)
    {
      PeelLine(src, es, e, j);
    }
    assert Edited(src, es, cursor, i) == src[cursor..i] by { EditedUntouched(src, es, cursor, i); }
    assert Edited(src, es, i, si) == [src[i]] + NewSide(body) by {
      EditedSame(src, es, [es[0]], i, si);
      assert es[0] == Edit(i, body);
      AnchorAndBody(src, i, body);
    }
    assert Edited(src, es, si, e) == src[si..e] by { EditedUntouched(src, es, si, e); }
    assert Edited(src, es, e, hi) == Edited(src, es[1..], e, hi) by { EditedSame(src, es, es[1..], e, hi); }
    EditedInFour(src, es, cursor, i, si, e, hi);
    Assoc([src[i]] + NewSide(body), src[si..e], Edited(src, es[1..], e, hi));
  }

  /** An edit by itself keeps its anchor line and leaves its new side below it. */
  lemma {:induction false} AnchorAndBody(src: seq<string>, i: nat, body: seq<BodyLine>)
    requires Fits(src, i, body)
    ensures Edited(src, [Edit(i, body)], i, i + 1 + |OldSide(body)|) == [src[i]] + NewSide(body)
  {
    hide OldSide, NewSide, Line;
    SingleLine(src, i, body, i);
    TouchesOnly(body, i, i);
    OneEdit(src, i, body);
    Assoc([src[i]], Inserts(body, i, i), Edited(src, [Edit(i, body)], i + 1, i + 1 + |OldSide(body)|));
  }

  lemma {:induction false} EditedInFour(src: seq<string>, es: seq<Edit>, a: nat, b: nat, c: nat, d: nat, hi: nat)
    requires a <= b <= c <= d <= hi <= |src|
    ensures Edited(src, es, a, hi)
         == Edited(src, es, a, b) + (Edited(src, es, b, c) + Edited(src, es, c, d)) + Edited(src, es, d, hi)
  {
    hide Edited;
    EditedSplit(src, es, a, b, d);
    EditedSplit(src, es, b, c, d);
    EditedSplit(src, es, a, d, hi);
  }

  // ---- a file that is accepted -------------------------------------------

  /** Where hunk `k` of an accepted file is anchored. */
  function AnchorOf(src: seq<string>, hunks: seq<Hunk>, k: nat): (i: nat)
    requires FileSpec(src, hunks).Ok? && k < |hunks|
    ensures Place(src, hunks[k]) == Ok(i) && Fits(src, i, hunks[k].body)
  {
    NoRefusal(src, hunks, k);
    Place(src, hunks[k]).value
  }

  /** The first piece below everything that emitted hunk `k` covers, trailing context included. */
  function EndOf(src: seq<string>, hunks: seq<Hunk>, k: nat): (e: nat)
    requires FileSpec(src, hunks).Ok? && k < |hunks|
    ensures AnchorOf(src, hunks, k) < e <= |src|
  {
    HunkEnd(src, AnchorOf(src, hunks, k), hunks[k].body)
  }

  /** The edits a file's hunks ask for, each at the line its anchor names. */
  function EditsOf(src: seq<string>, hunks: seq<Hunk>): (es: seq<Edit>)
    requires FileSpec(src, hunks).Ok?
    ensures |es| == |hunks|
    ensures forall k | 0 <= k < |es| :: es[k] == Edit(AnchorOf(src, hunks, k), hunks[k].body)
  {
    seq(|hunks|, k requires 0 <= k < |hunks| => Edit(AnchorOf(src, hunks, k), hunks[k].body))
  }

  predicate AscendingFrom(hs: seq<Numbered>, k: nat, cursor: nat) {
    && (k < |hs| ==> cursor < hs[k].oldStart)
    && forall m | k < m < |hs| :: hs[m - 1].oldStart + hs[m - 1].oldCount <= hs[m].oldStart
  }

  lemma {:induction false} AscendingChain(hs: seq<Numbered>, k: nat, m: nat)
    requires k < m < |hs| && AscendingFrom(hs, k, 0)
    requires forall j | 0 <= j < |hs| :: 1 <= hs[j].oldCount
    ensures hs[k].oldStart + hs[k].oldCount <= hs[m].oldStart
  {
    if k + 1 < m {
      AscendingChain(hs, k, m - 1);
    }
  }

  /** What the number of hunk `k` says: its place, its true old side, and both true lengths. */
  lemma NumberFacts(src: seq<string>, hunks: seq<Hunk>, k: nat)
    requires FileSpec(src, hunks).Ok? && k < |hunks|
    ensures Place(src, hunks[k]).Ok?
    ensures var h, i, body := FileSpec(src, hunks).value[k], Place(src, hunks[k]).value, hunks[k].body;
      && Fits(src, i, body) && h == NumberAt(src, hunks, k)
      && h.oldStart == i + 1 && h.newStart == i + 1 + NetAll(hunks[..k])
      && 1 <= h.oldCount && i + h.oldCount <= |src| && i + 1 + |OldSide(body)| <= i + h.oldCount
      && h.newCount == h.oldCount + Net(body)
      && |OldSide(h.lines)| == h.oldCount && |NewSide(h.lines)| == h.newCount
      && OldSide(h.lines) == src[i..i + h.oldCount]
      && NewSide(h.lines) == [src[i]] + NewSide(body) + src[i + 1 + |OldSide(body)|..i + h.oldCount]
  {
    hide OldSide, NewSide, FirstRefusal, TrailingEnd, LocateAnchor, NetAll;
    NoRefusal(src, hunks, k);
    EmittedSides(src, Place(src, hunks[k]).value, hunks[k].body, NetAll(hunks[..k]));
  }

  predicate AsContext(ls: seq<BodyLine>, texts: seq<string>) {
    |ls| == |texts| && forall j | 0 <= j < |ls| :: ls[j] == BodyLine(Context, texts[j])
  }

  /** Every line of an emitted hunk. It begins with its anchor line and goes on with its body; behind a body that ends
      in a removal or an addition follow the next three source lines as context, fewer where the source ends sooner, not
      counting the empty piece behind a final newline; behind any other body follows nothing. The header's old count is
      the anchor, the body's old lines and that context. */
  lemma HunkLines(src: seq<string>, hunks: seq<Hunk>, k: nat)
    requires FileSpec(src, hunks).Ok? && k < |hunks|
    ensures var h, i, body := FileSpec(src, hunks).value[k], AnchorOf(src, hunks, k), hunks[k].body;
      var below := i + 1 + |OldSide(body)|;
      var lines := if src[|src| - 1] == "" then |src| - 1 else |src|;
      var room := if below < lines then lines - below else 0;
      var more := if body == [] || body[|body| - 1].kind == Context then 0 else if room < 3 then room else 3;
      && h.oldCount == 1 + |OldSide(body)| + more
      && |h.lines| == 1 + |body| + more
      && h.lines[0] == BodyLine(Context, src[i]) && h.lines[1..1 + |body|] == body
      && AsContext(h.lines[1 + |body|..], src[below..below + more])
  {
    hide FileSpec, OldSide, NewSide, Place, NetAll;
    NumberFacts(src, hunks, k);
    var i, body := AnchorOf(src, hunks, k), hunks[k].body;
    assert FileSpec(src, hunks).value[k].lines == Covered(src, i, body);
  }

  /** The same in the accepted file's terms; a hunk changes something exactly when its body does. */
  lemma NumberIsAnchored(src: seq<string>, hunks: seq<Hunk>, k: nat)
    requires FileSpec(src, hunks).Ok? && k < |hunks|
    ensures var h := FileSpec(src, hunks).value[k];
      && h.oldStart == AnchorOf(src, hunks, k) + 1 && h.oldStart - 1 + h.oldCount == EndOf(src, hunks, k)
      && 1 <= h.oldCount && (Changes(h.lines) <==> Changes(hunks[k].body))
  {
    hide FileSpec, OldSide, NewSide, HunkEnd, Changes, NetAll, Place;
    NumberFacts(src, hunks, k);
    var i, body := AnchorOf(src, hunks, k), hunks[k].body;
    ContextChangesNothing(src[i], body, src[i + 1 + |OldSide(body)|..HunkEnd(src, i, body)]);
  }

  lemma ContextChangesNothing(first: string, body: seq<BodyLine>, tail: seq<string>)
    ensures Changes([BodyLine(Context, first)] + body + ContextLines(tail)) <==> Changes(body)
  {
    var ls := [BodyLine(Context, first)] + body + ContextLines(tail);
    assert forall k | 0 <= k < |body| :: ls[k + 1] == body[k];
  }

  /** What an applier of a hunk numbered in `src` asks, besides its order, of the pieces it meets: there is one below
      all it covers, what it covers is what it was, and it changes something. */
  predicate Sound(src: seq<string>, now: seq<string>, h: Numbered) {
    var s, e := h.oldStart - 1, h.oldStart - 1 + h.oldCount;
    0 <= s <= e <= |src| && e < |now| && now[s..e] == src[s..e] && Changes(h.lines)
  }

  predicate SoundFrom(src: seq<string>, now: seq<string>, hs: seq<Numbered>, k: nat) {
    forall m | k <= m < |hs| :: Sound(src, now, hs[m])
  }

  lemma LinesOfPieces(now: seq<string>, s: nat, e: nat)
    requires now != [] && s <= e
    ensures e <= |FileOf(now).lines| && !(e == |FileOf(now).lines| && !FileOf(now).terminated) <==> e < |now|
    ensures e <= |FileOf(now).lines| ==> FileOf(now).lines[s..e] == now[s..e]
  {
  }

  lemma ApplyHead(src: seq<string>, now: seq<string>, hunks: seq<Hunk>, k: nat, cursor: nat, out: seq<string>)
    requires now != [] && FileSpec(src, hunks).Ok? && k < |hunks| && cursor <= |FileOf(now).lines|
    requires |out| == cursor + NetAll(hunks[..k])
    ensures var hs := FileSpec(src, hunks).value; var h, i := hs[k], AnchorOf(src, hunks, k);
      if i < cursor || !Sound(src, now, h) then Apply(FileOf(now), hs[k..], cursor, out) == None
      else
        var e, out' := i + h.oldCount, out + now[cursor..i] + NewSide(h.lines);
        && e <= |FileOf(now).lines| && |out'| == e + NetAll(hunks[..k + 1])
        && Apply(FileOf(now), hs[k..], cursor, out) == Apply(FileOf(now), hs[k + 1..], e, out')
  {
    hide FileSpec, Place, OldSide, NewSide, NumberAt, Fits, FileOf, Changes;
    var hs := FileSpec(src, hunks).value;
    var i := AnchorOf(src, hunks, k);
    NumberFacts(src, hunks, k);
    LinesOfPieces(now, i, i + hs[k].oldCount);
    if cursor <= i {
      LinesOfPieces(now, cursor, i);
    }
    assert hs[k..][0] == hs[k] && hs[k..][1..] == hs[k + 1..];
    assert hunks[..k + 1][..k] == hunks[..k];
  }

  lemma TailStartsBelow(src: seq<string>, hunks: seq<Hunk>, k: nat)
    requires FileSpec(src, hunks).Ok? && k < |hunks|
    requires AscendingFrom(FileSpec(src, hunks).value, k, 0)
    ensures forall m | k < m < |hunks| :: EndOf(src, hunks, k) <= EditsOf(src, hunks)[m].at
  {
    hide FileSpec, AnchorOf, EndOf;
    var hs := FileSpec(src, hunks).value;
    NumberIsAnchored(src, hunks, k);
    forall m | k < m < |hunks| ensures EndOf(src, hunks, k) <= EditsOf(src, hunks)[m].at {
      forall j | 0 <= j < |hs| ensures 1 <= hs[j].oldCount { NumberIsAnchored(src, hunks, j); }
      NumberIsAnchored(src, hunks, m);
      AscendingChain(hs, k, m);
    }
  }

  /** Where the covered stretch is what it was, a body fits as it did. */
  lemma FitsThere(src: seq<string>, now: seq<string>, i: nat, e: nat, body: seq<BodyLine>)
    requires Fits(src, i, body) && i + 1 + |OldSide(body)| <= e <= |src| && e <= |now| && now[i..e] == src[i..e]
    ensures Fits(now, i, body) && now[i] == src[i]
    ensures now[i + 1 + |OldSide(body)|..e] == src[i + 1 + |OldSide(body)|..e]
  {
    hide OldSide;
    var si := i + 1 + |OldSide(body)|;
    SameInside(src, now, i, e, i, i + 1);
    SameInside(src, now, i, e, i + 1, si);
    SameInside(src, now, i, e, si, e);
    assert now[i] == now[i..i + 1][0] && src[i] == src[i..i + 1][0];
  }

  lemma SameInside(src: seq<string>, now: seq<string>, i: nat, e: nat, a: nat, b: nat)
    requires i <= a <= b <= e <= |src| && e <= |now| && now[i..e] == src[i..e]
    ensures now[a..b] == src[a..b]
  {
    forall k | a <= k < b ensures now[k] == src[k] {
      assert now[i..e][k - i] == src[i..e][k - i];
    }
  }

  lemma EditHead(src: seq<string>, now: seq<string>, hunks: seq<Hunk>, k: nat, cursor: nat, hi: nat)
    requires FileSpec(src, hunks).Ok? && k < |hunks| && cursor <= |now|
    requires AscendingFrom(FileSpec(src, hunks).value, k, cursor) && EndOf(src, hunks, k) <= hi <= |now|
    requires Sound(src, now, FileSpec(src, hunks).value[k])
    ensures var h, i, es := FileSpec(src, hunks).value[k], AnchorOf(src, hunks, k), EditsOf(src, hunks);
      && cursor <= i && i + h.oldCount <= hi
      && Edited(now, es[k..], cursor, hi)
      == now[cursor..i] + NewSide(h.lines) + Edited(now, es[k + 1..], i + h.oldCount, hi)
  {
    hide FileSpec, Place, OldSide, NewSide, NumberAt, Line, Fits, Edited, EndOf, Changes;
    var h, i, es := FileSpec(src, hunks).value[k], AnchorOf(src, hunks, k), EditsOf(src, hunks);
    NumberFacts(src, hunks, k);
    NumberIsAnchored(src, hunks, k);
    FitsThere(src, now, i, i + h.oldCount, hunks[k].body);
    TailStartsBelow(src, hunks, k);
    assert es[k..][0] == Edit(i, hunks[k].body) && es[k..][1..] == es[k + 1..];
    assert forall m | 1 <= m < |es[k..]| :: es[k..][m] == es[k + m];
    PeelFirst(now, es[k..], cursor, i + h.oldCount, hi);
  }

  lemma ApplyNone(src: seq<string>, now: seq<string>, hs: seq<Numbered>, cursor: nat, out: seq<string>)
    requires now != [] && cursor <= |FileOf(now).lines|
    ensures Apply(FileOf(now), [], cursor, out) == Some(out + now[cursor..|FileOf(now).lines|])
    ensures AscendingFrom(hs, |hs|, cursor) && SoundFrom(src, now, hs, |hs|)
  {
    var f := FileOf(now);
    LinesOfPieces(now, cursor, |f.lines|);
    assert f.lines[cursor..] == now[cursor..|f.lines|];
  }

  lemma SoundStep(src: seq<string>, now: seq<string>, hs: seq<Numbered>, k: nat)
    requires k < |hs|
    ensures SoundFrom(src, now, hs, k) <==> Sound(src, now, hs[k]) && SoundFrom(src, now, hs, k + 1)
  {
    hide Sound;
  }

  lemma {:induction false} ApplyFrom(src: seq<string>, now: seq<string>, hunks: seq<Hunk>, k: nat, cursor: nat,
                                     out: seq<string>)
    requires now != [] && FileSpec(src, hunks).Ok? && k <= |hunks| && cursor <= |FileOf(now).lines|
    requires |out| == cursor + NetAll(hunks[..k])
    ensures var hs := FileSpec(src, hunks).value; var r := Apply(FileOf(now), hs[k..], cursor, out);
      && (r.Some? <==> AscendingFrom(hs, k, cursor) && SoundFrom(src, now, hs, k))
      && (r.Some? ==> r.value == out + Edited(now, EditsOf(src, hunks)[k..], cursor, |FileOf(now).lines|))
    decreases |hunks| - k
  {
    hide FileSpec, Place, OldSide, NewSide, NumberAt, Line, Fits, Edited, EditsOf, Apply, NetAll, AscendingFrom,
      AnchorOf, EndOf, Sound, SoundFrom;
    var hs, es, hi := FileSpec(src, hunks).value, EditsOf(src, hunks), |FileOf(now).lines|;
    if k == |hunks| {
      assert es[k..] == [] && hs[k..] == [];
      forall j: nat | cursor <= j < hi ensures Line(now, [], j) == [now[j]] { NoEdits(now, j); }
      EditedUntouched(now, [], cursor, hi);
      ApplyNone(src, now, hs, cursor, out);
    } else {
      ApplyHead(src, now, hunks, k, cursor, out);
      NumberIsAnchored(src, hunks, k);
      SoundStep(src, now, hs, k);
      var h, i := hs[k], AnchorOf(src, hunks, k);
      if i < cursor {
        NotAscending(hs, k, cursor);
      } else if Sound(src, now, h) {
        var e, out' := i + h.oldCount, out + now[cursor..i] + NewSide(h.lines);
        ApplyFrom(src, now, hunks, k + 1, e, out');
        AscendingStep(hs, k, cursor);
        if AscendingFrom(hs, k, cursor) {
          EditHead(src, now, hunks, k, cursor, hi);
        }
      }
    }
  }

  lemma AscendingStep(hs: seq<Numbered>, k: nat, cursor: nat)
    requires k < |hs| && cursor < hs[k].oldStart && 1 <= hs[k].oldCount
    ensures AscendingFrom(hs, k, cursor) <==> AscendingFrom(hs, k + 1, hs[k].oldStart - 1 + hs[k].oldCount)
  {
    if k + 1 < |hs| && AscendingFrom(hs, k + 1, hs[k].oldStart - 1 + hs[k].oldCount) {
      forall m | k < m < |hs| ensures hs[m - 1].oldStart + hs[m - 1].oldCount <= hs[m].oldStart {
      }
    }
  }

  lemma NotAscending(hs: seq<Numbered>, k: nat, cursor: nat)
    requires k < |hs| && hs[k].oldStart <= cursor
    ensures !AscendingFrom(hs, k, cursor)
  {
  }

  lemma NoEdits(src: seq<string>, j: nat)
    requires j < |src|
    ensures Line(src, [], j) == [src[j]]
  {
  }

  // ---- when an accepted patch applies ------------------------------------

  /** Hunk `k` covers nothing at or below the anchor of hunk `k + 1`. */
  predicate DisjointInSource(src: seq<string>, hunks: seq<Hunk>)
    requires FileSpec(src, hunks).Ok?
  {
    forall k | 0 < k < |hunks| :: EndOf(src, hunks, k - 1) <= AnchorOf(src, hunks, k)
  }

  /** No hunk covers the last piece: neither the empty one behind a final newline, which is no line, nor a last line
      without a newline. */
  predicate ClearOfTheEnd(src: seq<string>, hunks: seq<Hunk>)
    requires FileSpec(src, hunks).Ok?
  {
    forall k | 0 <= k < |hunks| :: EndOf(src, hunks, k) < |src|
  }

  /** Every hunk meets what it covers as it was, with a piece below it. */
  predicate MeetsItsLines(src: seq<string>, now: seq<string>, hunks: seq<Hunk>)
    requires FileSpec(src, hunks).Ok?
  {
    forall k | 0 <= k < |hunks| ::
      && EndOf(src, hunks, k) < |now|
      && now[AnchorOf(src, hunks, k)..EndOf(src, hunks, k)] == src[AnchorOf(src, hunks, k)..EndOf(src, hunks, k)]
  }

  predicate EachChanges(hunks: seq<Hunk>) {
    forall k | 0 <= k < |hunks| :: Changes(hunks[k].body)
  }

  /** What a caller can check of an accepted file before applying its patch. */
  predicate Applicable(src: seq<string>, hunks: seq<Hunk>)
    requires FileSpec(src, hunks).Ok?
  {
    DisjointInSource(src, hunks) && ClearOfTheEnd(src, hunks) && EachChanges(hunks)
  }

  /** The same of a file that may have changed since. */
  predicate ApplicableTo(src: seq<string>, now: seq<string>, hunks: seq<Hunk>)
    requires FileSpec(src, hunks).Ok?
  {
    DisjointInSource(src, hunks) && MeetsItsLines(src, now, hunks) && EachChanges(hunks)
  }

  lemma ApplicableHere(src: seq<string>, hunks: seq<Hunk>)
    requires FileSpec(src, hunks).Ok?
    ensures Applicable(src, hunks) <==> ApplicableTo(src, src, hunks)
  {
    hide FileSpec, AnchorOf, EndOf, DisjointInSource, EachChanges;
  }

  /** The numbered hunks ascend exactly when the hunks are disjoint in the source. */
  lemma AscendingIsDisjoint(src: seq<string>, hunks: seq<Hunk>)
    requires FileSpec(src, hunks).Ok?
    ensures Ascending(FileSpec(src, hunks).value) <==> DisjointInSource(src, hunks)
  {
    hide FileSpec, AnchorOf, EndOf;
    forall k | 0 <= k < |hunks|
      ensures var h := FileSpec(src, hunks).value[k];
        h.oldStart == AnchorOf(src, hunks, k) + 1 && h.oldStart - 1 + h.oldCount == EndOf(src, hunks, k)
    {
      NumberIsAnchored(src, hunks, k);
    }
  }

  lemma SoundIsMet(src: seq<string>, now: seq<string>, hunks: seq<Hunk>)
    requires FileSpec(src, hunks).Ok?
    ensures SoundFrom(src, now, FileSpec(src, hunks).value, 0) <==> MeetsItsLines(src, now, hunks) && EachChanges(hunks)
  {
    hide FileSpec, AnchorOf, EndOf, Changes;
    forall k | 0 <= k < |hunks|
      ensures var i, e := AnchorOf(src, hunks, k), EndOf(src, hunks, k);
        Sound(src, now, FileSpec(src, hunks).value[k])
        <==> e < |now| && now[i..e] == src[i..e] && Changes(hunks[k].body)
    {
      NumberIsAnchored(src, hunks, k);
    }
    hide Sound;
  }

  /** Below every hunk's end nothing is edited. */
  lemma {:induction false} FarAbove(src: seq<string>, es: seq<Edit>, j: nat)
    requires j < |src| && forall k | 0 <= k < |es| :: es[k].at + |OldSide(es[k].body)| < j
    ensures Line(src, es, j) == [src[j]]
    decreases |es|
  {
    hide OldSide;
    if es == [] {
      NoEdits(src, j);
    } else {
      TouchesOnly(es[0].body, es[0].at, j);
      FirstOrRest(src, es, j);
      assert forall k | 0 <= k < |es[1..]| :: es[1..][k] == es[k + 1];
      FarAbove(src, es[1..], j);
    }
  }

  /** The edit of all pieces, joined again, is the text of the edited lines: the last piece is untouched. */
  lemma {:induction false} EditedText(src: seq<string>, now: seq<string>, hunks: seq<Hunk>)
    requires now != [] && FileSpec(src, hunks).Ok? && MeetsItsLines(src, now, hunks)
    ensures TextOf(TextFile(Edited(now, EditsOf(src, hunks), 0, |FileOf(now).lines|), FileOf(now).terminated))
         == Join(Edited(now, EditsOf(src, hunks), 0, |now|))
  {
    hide FileSpec, OldSide, Place, Edited, Join, Line;
    var es, n := EditsOf(src, hunks), |now| - 1;
    forall k | 0 <= k < |es| ensures es[k].at + |OldSide(es[k].body)| < n {
      assert EndOf(src, hunks, k) < |now|;
      BodyAboveEnd(src, hunks, k);
    }
    FarAbove(now, es, n);
    EditedUntouched(now, es, n, n + 1);
    EditedSplit(now, es, 0, n, n + 1);
    var all := Edited(now, es, 0, |now|);
    assert now[n..n + 1] == [now[n]];
    assert all + [] == all;
  }

  lemma BodyAboveEnd(src: seq<string>, hunks: seq<Hunk>, k: nat)
    requires FileSpec(src, hunks).Ok? && k < |hunks|
    ensures AnchorOf(src, hunks, k) + 1 + |OldSide(hunks[k].body)| <= EndOf(src, hunks, k)
  {
    hide FileSpec, OldSide, Place;
  }

  /** A strict applier takes hunks that were numbered in `text` on a file that now reads `later` exactly when they are
      disjoint in the source, each changes something, and each still meets all it covers at its place, with a piece
      below it; and then it leaves `later` with each hunk's removals deleted and its additions inserted below their
      lines. */
  lemma {:induction false} AppliesWhereItsLinesStay(text: string, later: string, hunks: seq<Hunk>)
    requires FileSpec(SplitOn(text, '\n'), hunks).Ok?
    ensures var src, now := SplitOn(text, '\n'), SplitOn(later, '\n');
      var f, hs := FileOf(now), FileSpec(src, hunks).value;
      var r := Apply(f, hs, 0, []);
      && (r.Some? <==> ApplicableTo(src, now, hunks))
      && (r.Some? ==> r.value == Edited(now, EditsOf(src, hunks), 0, |f.lines|))
      && (r.Some? ==> TextOf(TextFile(r.value, f.terminated)) == Join(Edited(now, EditsOf(src, hunks), 0, |now|)))
  {
    hide SplitOn, FileSpec, Apply, Edited, EditsOf, DisjointInSource, MeetsItsLines, EachChanges, SoundFrom, Join,
      TextOf;
    var src, now := SplitOn(text, '\n'), SplitOn(later, '\n');
    var hs, es, f := FileSpec(src, hunks).value, EditsOf(src, hunks), FileOf(now);
    assert hs[0..] == hs && es[0..] == es && hunks[..0] == [];
    ApplyFrom(src, now, hunks, 0, 0, []);
    if hs != [] {
      NumberIsAnchored(src, hunks, 0);
    }
    assert AscendingFrom(hs, 0, 0) <==> Ascending(hs);
    AscendingIsDisjoint(src, hunks);
    SoundIsMet(src, now, hunks);
    assert [] + Edited(now, es, 0, |f.lines|) == Edited(now, es, 0, |f.lines|);
    if ApplicableTo(src, now, hunks) {
      EditedText(src, now, hunks);
    }
  }

  /** For any text and any hunks that are accepted on it: a strict applier takes the numbered hunks exactly when,
      in the source, no hunk with its trailing context reaches the next one's anchor or the last piece, and each
      changes something; and then it leaves the file with each hunk's removals deleted and its additions inserted
      below their lines, every other line and the ending of the last one as they were. */
  lemma AppliedPatchIsTheEdit(text: string, hunks: seq<Hunk>)
    requires FileSpec(SplitOn(text, '\n'), hunks).Ok?
    ensures var src := SplitOn(text, '\n'); var f, hs := FileOf(src), FileSpec(src, hunks).value;
      var r := Apply(f, hs, 0, []);
      && (r.Some? <==> Applicable(src, hunks))
      && (r.Some? ==> r.value == Edited(src, EditsOf(src, hunks), 0, |f.lines|))
      && (r.Some? ==> TextOf(TextFile(r.value, f.terminated)) == Join(Edited(src, EditsOf(src, hunks), 0, |src|)))
  {
    hide SplitOn, FileSpec, Apply, Edited, EditsOf, Applicable, ApplicableTo, Join, TextOf, FileOf;
    AppliesWhereItsLinesStay(text, text, hunks);
    ApplicableHere(SplitOn(text, '\n'), hunks);
  }

  // ---- accepted patches that do not apply --------------------------------

  /** Whenever some hunk of a file is anchored inside what the hunk before it covers. */
  lemma {:induction false} OverlapIsRefused(text: string, hunks: seq<Hunk>, k: nat)
    requires FileSpec(SplitOn(text, '\n'), hunks).Ok? && 0 < k < |hunks|
    requires AnchorOf(SplitOn(text, '\n'), hunks, k) < EndOf(SplitOn(text, '\n'), hunks, k - 1)
    ensures Apply(FileOf(SplitOn(text, '\n')), FileSpec(SplitOn(text, '\n'), hunks).value, 0, []) == None
  {
    hide FileSpec, Apply, SplitOn, AnchorOf, EndOf;
    AppliedPatchIsTheEdit(text, hunks);
  }

  /** Whenever some hunk covers the last piece of the source. */
  lemma {:induction false} EndOfFileIsRefused(text: string, hunks: seq<Hunk>, k: nat)
    requires FileSpec(SplitOn(text, '\n'), hunks).Ok? && k < |hunks|
    requires EndOf(SplitOn(text, '\n'), hunks, k) == |SplitOn(text, '\n')|
    ensures Apply(FileOf(SplitOn(text, '\n')), FileSpec(SplitOn(text, '\n'), hunks).value, 0, []) == None
  {
    hide FileSpec, Apply, SplitOn, AnchorOf, EndOf;
    AppliedPatchIsTheEdit(text, hunks);
  }

  /** Whenever some hunk changes nothing. */
  lemma {:induction false} IdleHunkIsRefused(text: string, hunks: seq<Hunk>, k: nat)
    requires FileSpec(SplitOn(text, '\n'), hunks).Ok? && k < |hunks| && !Changes(hunks[k].body)
    ensures Apply(FileOf(SplitOn(text, '\n')), FileSpec(SplitOn(text, '\n'), hunks).value, 0, []) == None
  {
    hide FileSpec, Apply, SplitOn, Changes, DisjointInSource, ClearOfTheEnd;
    AppliedPatchIsTheEdit(text, hunks);
  }

  /** On lines that are empty or one letter, a line that occurs once anchors itself. */
  lemma OneLetterAnchor(src: seq<string>, anchor: string, i: nat)
    requires forall l | l in src :: l == [] || (|l| == 1 && 'a' <= l[0] <= 'z')
    requires i < |src| && src[i] == anchor && forall j | 0 <= j < |src| && j != i :: src[j] != anchor
    ensures LocateAnchor(src, anchor) == Ok(i)
  {
    forall l | l in src ensures Strip(l) == l {
      if l == [] { StripOfBlank(l); } else { StripIs(l, 0, 1); }
    }
    assert forall j :: AnchoredAt(src, anchor, j) ==> j == i;
    assert AnchoredAt(src, anchor, i);
    hide LocateAnchor, Strip;
    LocateExactlyOne(src, anchor);
  }

  /** One insertion below line `i` covers up to three more lines, and no empty last piece. */
  lemma OneAddition(src: seq<string>, i: nat, text: string)
    requires i < Limit(src)
    ensures Fits(src, i, [BodyLine(Addition, text)])
    ensures HunkEnd(src, i, [BodyLine(Addition, text)]) == if i + 4 < Limit(src) then i + 4 else Limit(src)
    ensures Changes([BodyLine(Addition, text)])
  {
    SidesOfOne(BodyLine(Addition, text));
    assert [BodyLine(Addition, text)][0].kind != Context;
  }

  lemma FileAccepted(src: seq<string>, hunks: seq<Hunk>)
    requires forall k | 0 <= k < |hunks| :: Place(src, hunks[k]).Ok?
    ensures FileSpec(src, hunks).Ok?
  {
    FirstRefusalIs(src, hunks, |hunks|);
  }

  /** Two insertions less than four lines apart always collide: the trailing context of the first swallows the anchor of
      the second. */
  lemma CloseInsertionsCollide(text: string, hunks: seq<Hunk>, i: nat, j: nat, x: string, y: string)
    requires |hunks| == 2 && hunks[0].body == [BodyLine(Addition, x)] && hunks[1].body == [BodyLine(Addition, y)]
    requires LocateAnchor(SplitOn(text, '\n'), hunks[0].anchor) == Ok(i)
    requires LocateAnchor(SplitOn(text, '\n'), hunks[1].anchor) == Ok(j)
    requires i < j < i + 4 && j < Limit(SplitOn(text, '\n'))
    ensures var src := SplitOn(text, '\n');
      && FileSpec(src, hunks).Ok? && EachChanges(hunks)
      && (ClearOfTheEnd(src, hunks) <==> j + 4 < |src| || Limit(src) < |src|)
      && Apply(FileOf(src), FileSpec(src, hunks).value, 0, []) == None
  {
    hide LocateAnchor, HunkEnd, FileSpec, Apply, OldSide, Fits, SplitOn, Changes, FileOf;
    var src := SplitOn(text, '\n');
    OneAddition(src, i, x);
    OneAddition(src, j, y);
    FileAccepted(src, hunks);
    OverlapIsRefused(text, hunks, 1);
    assert EndOf(src, hunks, 0) <= EndOf(src, hunks, 1);
    assert EndOf(src, hunks, 1) < |src| <==> j + 4 < |src| || Limit(src) < |src|;
  }

  /** For example below the first and the third of six lines. */
  lemma TrailingContextSwallowsTheNextAnchor()
    ensures var src := SplitOn(Join(["a", "b", "c", "d", "e", "f"]) + "\n", '\n');
      var hunks := [Hunk("a", [BodyLine(Addition, "x")]), Hunk("c", [BodyLine(Addition, "y")])];
      && Place(src, hunks[0]).Ok? && Place(src, hunks[1]).Ok?
      && FileSpec(src, hunks).Ok? && ClearOfTheEnd(src, hunks) && EachChanges(hunks)
      && Apply(FileOf(src), FileSpec(src, hunks).value, 0, []) == None
  {
    var lines := ["a", "b", "c", "d", "e", "f"];
    var hunks := [Hunk("a", [BodyLine(Addition, "x")]), Hunk("c", [BodyLine(Addition, "y")])];
    var text := Join(lines) + "\n";
    var src := SplitOn(text, '\n');
    SplitOnOfJoin(lines);
    SixLines(src);
    hide LocateAnchor, FileSpec, Apply, SplitOn, Join, EachChanges, ClearOfTheEnd, FileOf;
    CloseInsertionsCollide(text, hunks, 0, 2, "x", "y");
    AcceptedIsPlaced(src, hunks, 0);
    AcceptedIsPlaced(src, hunks, 1);
  }

  lemma SixLines(src: seq<string>)
    requires src == ["a", "b", "c", "d", "e", "f"] + [[]]
    ensures LocateAnchor(src, "a") == Ok(0) && LocateAnchor(src, "c") == Ok(2) && Limit(src) == 6
  {
    hide LocateAnchor;
    OneLetterAnchor(src, "a", 0);
    OneLetterAnchor(src, "c", 2);
  }

  lemma AcceptedIsPlaced(src: seq<string>, hunks: seq<Hunk>, k: nat)
    requires FileSpec(src, hunks).Ok? && k < |hunks|
    ensures Place(src, hunks[k]).Ok?
  {
    NoRefusal(src, hunks, k);
  }

  /** One hunk that changes something, placed alone, and covering the last piece. */
  lemma CoversTheEnd(text: string, h: Hunk, i: nat)
    requires Place(SplitOn(text, '\n'), h) == Ok(i) && Changes(h.body)
    requires HunkEnd(SplitOn(text, '\n'), i, h.body) == |SplitOn(text, '\n')|
    ensures var src := SplitOn(text, '\n'); var hunks := [h];
      && FileSpec(src, hunks).Ok? && FileSpec(src, hunks).value[0].oldCount == |src| - i
      && DisjointInSource(src, hunks) && EachChanges(hunks)
      && Apply(FileOf(src), FileSpec(src, hunks).value, 0, []) == None
  {
    hide Place, HunkEnd, FileSpec, Apply, SplitOn, Changes, FileOf;
    FileAccepted(SplitOn(text, '\n'), [h]);
    NumberIsAnchored(SplitOn(text, '\n'), [h], 0);
    EndOfFileIsRefused(text, [h], 0);
  }

  /** One insertion with a blank line below it, on a file of one terminated line: the blank line is read as context and
      matches the empty piece behind the final newline, so the hunk names two lines of a one-line file. */
  lemma BlankContextReachesPastTheEnd()
    ensures var src := SplitOn(Join(["a"]) + "\n", '\n');
      var hunks := [Hunk("a", [BodyLine(Addition, "x"), BodyLine(Context, "")])];
      && FileSpec(src, hunks).Ok? && FileOf(src) == TextFile(["a"], true)
      && FileSpec(src, hunks).value[0].oldCount == 2
      && DisjointInSource(src, hunks) && EachChanges(hunks)
      && Apply(FileOf(src), FileSpec(src, hunks).value, 0, []) == None
  {
    var lines, h := ["a"], Hunk("a", [BodyLine(Addition, "x"), BodyLine(Context, "")]);
    var text := Join(lines) + "\n";
    var src := SplitOn(text, '\n');
    SplitOnOfJoin(lines);
    assert src == ["a", []];
    BlankContextFits(src, h.body);
    OneLetterAnchor(src, "a", 0);
    hide SplitOn, Join, LocateAnchor, FileSpec, Apply, HunkEnd, Fits, Changes;
    CoversTheEnd(text, h, 0);
  }

  lemma BlankContextFits(src: seq<string>, body: seq<BodyLine>)
    requires src == ["a", []] && body == [BodyLine(Addition, "x"), BodyLine(Context, "")]
    ensures Fits(src, 0, body) && HunkEnd(src, 0, body) == 2 && Changes(body)
  {
    assert body[1..] == [BodyLine(Context, "")];
    SidesOfOne(BodyLine(Context, ""));
    assert OldSide(body) == [""];
    assert body[0].kind != Context;
  }

  lemma {:induction false} SplitOnPlain(t: string)
    requires '\n' !in t
    ensures SplitOn(t, '\n') == [t]
  {
    if t != [] {
      SplitOnPlain(t[1..]);
      assert [t[0]] + t[1..] == t;
    }
  }

  /** One insertion on a file of one line without a newline: the emitted context line stands for a terminated one. */
  lemma UnterminatedLastLineIsNotMatched()
    ensures var src := SplitOn("a", '\n');
      var hunks := [Hunk("a", [BodyLine(Addition, "x")])];
      && FileSpec(src, hunks).Ok? && FileOf(src) == TextFile(["a"], false)
      && DisjointInSource(src, hunks) && EachChanges(hunks)
      && Apply(FileOf(src), FileSpec(src, hunks).value, 0, []) == None
  {
    var t: string, h := "a", Hunk("a", [BodyLine(Addition, "x")]);
    var src := SplitOn(t, '\n');
    SplitOnPlain(t);
    assert src == ["a"];
    OneLetterAnchor(src, "a", 0);
    OneAddition(src, 0, "x");
    hide SplitOn, LocateAnchor, FileSpec, Apply, HunkEnd, Fits, Changes;
    CoversTheEnd(t, h, 0);
  }

  /** A marker with nothing below it: the hunk is accepted and emitted as one context line. */
  lemma MarkerAloneChangesNothing()
    ensures var src := SplitOn(Join(["a", "b"]) + "\n", '\n');
      var hunks := [Hunk("a", [])];
      && FileSpec(src, hunks).Ok? && DisjointInSource(src, hunks) && ClearOfTheEnd(src, hunks)
      && Apply(FileOf(src), FileSpec(src, hunks).value, 0, []) == None
  {
    hide SplitOn, Join, LocateAnchor, FileSpec, Apply, Fits, HunkEnd, Changes, FileOf;
    var lines, hunks := ["a", "b"], [Hunk("a", [])];
    var text := Join(lines) + "\n";
    var src := SplitOn(text, '\n');
    SplitOnOfJoin(lines);
    assert src == ["a", "b"] + [[]];
    OneLetterAnchor(src, "a", 0);
    EmptyBodyFits(src, 0);
    FileAccepted(src, hunks);
    NothingChanges();
    IdleHunkIsRefused(text, hunks, 0);
  }

  lemma EmptyBodyFits(src: seq<string>, i: nat)
    requires i < |src|
    ensures Fits(src, i, []) && HunkEnd(src, i, []) == i + 1
  {
  }

  lemma NothingChanges()
    ensures !Changes([])
  {
  }

  // ---- what is accepted --------------------------------------------------

  /** The anchor names exactly one stripped source line, and below it the body matches verbatim. */
  ghost predicate Lands(src: seq<string>, h: Hunk, i: nat) {
    && AnchoredAt(src, h.anchor, i)
    && (forall j :: AnchoredAt(src, h.anchor, j) ==> j == i)
    && Fits(src, i, h.body)
  }

  ghost predicate LandsSomewhere(src: seq<string>, h: Hunk) {
    exists i: nat :: Lands(src, h, i)
  }

  lemma PlaceIffLands(src: seq<string>, h: Hunk)
    ensures Place(src, h).Ok? <==> LandsSomewhere(src, h)
    ensures Place(src, h).Ok? ==> Lands(src, h, Place(src, h).value)
  {
    hide OldSide, Fits, LocateAnchor;
    LocateExactlyOne(src, h.anchor);
    if Place(src, h).Ok? {
      assert Lands(src, h, Place(src, h).value);
    }
    if i: nat :| Lands(src, h, i) {
      assert LocateAnchor(src, h.anchor) == Ok(i);
    }
  }

  /** A section the reconstruction accepts: its file exists and every hunk lands. */
  ghost predicate Acceptable(fp: FilePatch, files: map<string, string>) {
    fp.path in files && forall k | 0 <= k < |fp.hunks| :: LandsSomewhere(SourceOf(files, fp.path), fp.hunks[k])
  }

  lemma SectionIffAcceptable(fp: FilePatch, files: map<string, string>)
    ensures SectionSpec(fp, files).Ok? <==> Acceptable(fp, files)
  {
    hide Place, LandsSomewhere;
    if fp.path in files {
      var src := SourceOf(files, fp.path);
      forall k | 0 <= k < |fp.hunks| ensures Place(src, fp.hunks[k]).Ok? <==> LandsSomewhere(src, fp.hunks[k]) {
        PlaceIffLands(src, fp.hunks[k]);
      }
      if FirstRefusal(src, fp.hunks) == None {
        forall k | 0 <= k < |fp.hunks| ensures Place(src, fp.hunks[k]).Ok? { NoRefusal(src, fp.hunks, k); }
      } else if forall k | 0 <= k < |fp.hunks| :: Place(src, fp.hunks[k]).Ok? {
        FirstRefusalIs(src, fp.hunks, |fp.hunks|);
      }
    }
  }

  lemma {:induction false} SectionsIffAllAcceptable(fps: seq<FilePatch>, files: map<string, string>)
    ensures SectionsSpec(fps, files).Ok? <==> forall k | 0 <= k < |fps| :: Acceptable(fps[k], files)
    ensures SectionsSpec(fps, files).Ok? ==> |SectionsSpec(fps, files).value| == |fps|
    ensures SectionsSpec(fps, files).Ok? ==>
      forall k | 0 <= k < |fps| :: SectionSpec(fps[k], files) == Ok(SectionsSpec(fps, files).value[k])
  {
    hide SectionSpec, Acceptable;
    if fps != [] {
      var init := fps[..|fps| - 1];
      SectionsIffAllAcceptable(init, files);
      SectionIffAcceptable(fps[|fps| - 1], files);
      assert forall k | 0 <= k < |init| :: fps[k] == init[k];
      assert (forall k | 0 <= k < |fps| :: Acceptable(fps[k], files))
        <==> (forall k | 0 <= k < |init| :: Acceptable(init[k], files)) && Acceptable(fps[|fps| - 1], files);
    }
  }

  /** The law the module is for: an illustrative block is reconstructed exactly when it parses, every file it
      names exists, and every hunk of every file has one anchor and a verbatim body. One failing hunk in any
      file refuses the whole block. */
  lemma {:induction false} AcceptedIffCertain(block: string, files: map<string, string>)
    requires !HasRealHunk(block)
    ensures ReconstructSpec(block, files).Ok?
      <==> Parse(block).Ok? && forall k | 0 <= k < |Parse(block).value| :: Acceptable(Parse(block).value[k], files)
  {
    if Parse(block).Ok? {
      SectionsIffAllAcceptable(Parse(block).value, files);
    }
  }
}
