/** The patch as text: a reader of unified diffs gets back exactly the hunks that were emitted, a second
    reconstruction leaves the text alone, and the illustrative form itself is read faithfully. */
module PatchText {
  import opened Options
  import opened Text
  import opened PatchReconstruct
  import opened PatchApply

  // ---- reading a unified diff --------------------------------------------

  function ReadNumber(t: string): Option<(nat, string)> {
    var k := DigitRun(t);
    if k == 0 then None else Some((NatValue(t[..k]), t[k..]))
  }

  function ReadLiteral(t: string, lit: string): Option<string> {
    if lit <= t then Some(t[|lit|..]) else None
  }

  /** `<number>,<number>`. */
  function ReadRange(t: string): Option<(nat, nat, string)> {
    var a := ReadNumber(t);
    if a.None? then None else
    var c := ReadLiteral(a.value.1, ",");
    if c.None? then None else
    var b := ReadNumber(c.value);
    if b.None? then None else Some((a.value.0, b.value.0, b.value.1))
  }

  function ReadHeader(s: string): Option<(nat, nat, nat, nat)> {
    var t := ReadLiteral(s, "@@ -");
    if t.None? then None else
    var o := ReadRange(t.value);
    if o.None? then None else
    var u := ReadLiteral(o.value.2, " +");
    if u.None? then None else
    var n := ReadRange(u.value);
    if n.None? || n.value.2 != " @@" then None
    else Some((o.value.0, o.value.1, n.value.0, n.value.1))
  }

  /** Reads marked lines until both sides have the lengths the header announced. */
  function ReadBody(lines: seq<string>, oldLeft: nat, newLeft: nat): (r: Option<(seq<BodyLine>, seq<string>)>)
    ensures r.Some? ==> |r.value.1| <= |lines|
    decreases |lines|
  {
    if oldLeft == 0 && newLeft == 0 then Some(([], lines))
    else if lines == [] || lines[0] == [] then None
    else
      var m, text := lines[0][0], lines[0][1..];
      if m == ' ' && oldLeft > 0 && newLeft > 0 then
        Cons(BodyLine(Context, text), ReadBody(lines[1..], oldLeft - 1, newLeft - 1))
      else if m == '-' && oldLeft > 0 then
        Cons(BodyLine(Removal, text), ReadBody(lines[1..], oldLeft - 1, newLeft))
      else if m == '+' && newLeft > 0 then
        Cons(BodyLine(Addition, text), ReadBody(lines[1..], oldLeft, newLeft - 1))
      else None
  }

  function Cons<T>(x: T, r: Option<(seq<T>, seq<string>)>): Option<(seq<T>, seq<string>)> {
    if r.None? then None else Some(([x] + r.value.0, r.value.1))
  }

  function ReadHunk(lines: seq<string>): (r: Option<(Numbered, seq<string>)>)
    ensures r.Some? ==> |r.value.1| < |lines|
  {
    if lines == [] then None else
    var h := ReadHeader(lines[0]);
    if h.None? then None else
    var b := ReadBody(lines[1..], h.value.1, h.value.3);
    if b.None? then None
    else Some((Numbered(h.value.0, h.value.1, h.value.2, h.value.3, b.value.0), b.value.1))
  }

  function ReadHunks(lines: seq<string>): (r: Option<(seq<Numbered>, seq<string>)>)
    ensures r.Some? ==> |r.value.1| <= |lines|
    decreases |lines|
  {
    if lines == [] || !StartsWith(lines[0], "@@") then Some(([], lines))
    else
      var h := ReadHunk(lines);
      if h.None? then None else Cons(h.value.0, ReadHunks(h.value.1))
  }

  function ReadSections(lines: seq<string>): Option<seq<Section>>
    decreases |lines|
  {
    if lines == [] then Some([])
    else if |lines| < 2 || !StartsWith(lines[0], "--- a/") || !StartsWith(lines[1], "+++ b/") then None
    else
      var hs := ReadHunks(lines[2..]);
      if hs.None? then None else
      var rest := ReadSections(hs.value.1);
      if rest.None? then None else Some([Section(lines[1][6..], hs.value.0)] + rest.value)
  }

  function ReadPatch(text: string): Option<seq<Section>> {
    var ls := SplitOn(text, '\n');
    if ls[|ls| - 1] != [] then None else ReadSections(ls[..|ls| - 1])
  }

  // ---- reading back what was emitted -------------------------------------

  lemma ReadNumberOfDecimal(n: nat, rest: string)
    requires rest == [] || !IsDigit(rest[0])
    ensures ReadNumber(Decimal(n) + rest) == Some((n, rest))
  {
    hide NatValue;
    DigitRunIs(DecimalNat(n), rest);
    NatValueOfDecimal(n);
    assert (DecimalNat(n) + rest)[..|DecimalNat(n)|] == DecimalNat(n);
  }

  lemma ReadRangeOfDecimals(a: nat, b: nat, rest: string)
    requires rest == [] || !IsDigit(rest[0])
    ensures ReadRange(Decimal(a) + ("," + (Decimal(b) + rest))) == Some((a, b, rest))
  {
    hide Decimal;
    ReadNumberOfDecimal(a, "," + (Decimal(b) + rest));
    ReadNumberOfDecimal(b, rest);
    assert ("," + (Decimal(b) + rest))[1..] == Decimal(b) + rest;
  }

  lemma HeaderReadsBack(a: nat, b: nat, c: nat, d: nat)
    ensures ReadHeader(Header(a, b, c, d)) == Some((a, b, c, d))
  {
    hide Decimal, ReadRange;
    var t3 := Decimal(c) + ("," + (Decimal(d) + " @@"));
    var t2 := " +" + t3;
    var t1 := Decimal(a) + ("," + (Decimal(b) + t2));
    assert Header(a, b, c, d) == "@@ -" + t1;
    assert ("@@ -" + t1)[4..] == t1 && t2[2..] == t3;
    ReadRangeOfDecimals(a, b, t2);
    ReadRangeOfDecimals(c, d, " @@");
  }

  lemma {:induction false} BodyReadsBack(ls: seq<BodyLine>, rest: seq<string>)
    ensures ReadBody(Marked(ls) + rest, |OldSide(ls)|, |NewSide(ls)|) == Some((ls, rest))
  {
    if ls == [] {
      assert Marked(ls) + rest == rest;
    } else {
      var m := Marked(ls) + rest;
      assert m[0] == Mark(ls[0]) && m[0][1..] == ls[0].text;
      assert m[1..] == Marked(ls[1..]) + rest;
      BodyReadsBack(ls[1..], rest);
      assert [ls[0]] + ls[1..] == ls;
    }
  }

  /** A hunk whose header can be written without a sign and names the true lengths. */
  predicate WellNumbered(h: Numbered) {
    && 0 <= h.oldStart && 0 <= h.newStart
    && h.oldCount == |OldSide(h.lines)| && h.newCount == |NewSide(h.lines)|
  }

  lemma HunkReadsBack(h: Numbered, rest: seq<string>)
    requires WellNumbered(h)
    ensures ReadHunk(RenderHunk(h) + rest) == Some((h, rest))
  {
    hide ReadHeader, Header, ReadBody, OldSide, NewSide, Marked;
    var ls := RenderHunk(h) + rest;
    assert ls[0] == Header(h.oldStart, h.oldCount, h.newStart, h.newCount);
    assert ls[1..] == Marked(h.lines) + rest;
    HeaderReadsBack(h.oldStart, h.oldCount, h.newStart, h.newCount);
    BodyReadsBack(h.lines, rest);
  }

  lemma HunkStartsMarked(h: Numbered, rest: seq<string>)
    ensures |RenderHunk(h) + rest| >= 1 && StartsWith((RenderHunk(h) + rest)[0], "@@")
  {
    hide Decimal;
    var x := Decimal(h.oldStart) + "," + Decimal(h.oldCount) + " +" + Decimal(h.newStart) + "," + Decimal(h.newCount)
      + " @@";
    assert Header(h.oldStart, h.oldCount, h.newStart, h.newCount) == "@@ -" + x;
  }

  lemma {:induction false} HunksReadBack(hs: seq<Numbered>, rest: seq<string>)
    requires forall k | 0 <= k < |hs| :: WellNumbered(hs[k])
    requires rest == [] || !StartsWith(rest[0], "@@")
    ensures ReadHunks(RenderHunks(hs) + rest) == Some((hs, rest))
  {
    hide ReadHunk, RenderHunk, WellNumbered;
    if hs == [] {
      assert RenderHunks(hs) + rest == rest;
    } else {
      var more := RenderHunks(hs[1..]) + rest;
      assert RenderHunks(hs) + rest == RenderHunk(hs[0]) + more;
      HunkStartsMarked(hs[0], more);
      HunkReadsBack(hs[0], more);
      HunksReadBack(hs[1..], rest);
      assert [hs[0]] + hs[1..] == hs;
    }
  }

  predicate WellNumberedSection(s: Section) {
    forall k | 0 <= k < |s.hunks| :: WellNumbered(s.hunks[k])
  }

  lemma {:induction false} SectionsReadBack(ss: seq<Section>)
    requires forall k | 0 <= k < |ss| :: WellNumberedSection(ss[k])
    ensures ReadSections(RenderSections(ss)) == Some(ss)
  {
    hide ReadHunks, RenderHunks;
    if ss != [] {
      var s, more := ss[0], RenderSections(ss[1..]);
      var ls := RenderSections(ss);
      assert ls[0] == "--- a/" + s.path && ls[1] == "+++ b/" + s.path;
      assert ls[2..] == RenderHunks(s.hunks) + more;
      assert ls[1][6..] == s.path;
      assert more == [] || more[0][0] == '-';
      assert WellNumberedSection(s);
      HunksReadBack(s.hunks, more);
      SectionsReadBack(ss[1..]);
      assert [s] + ss[1..] == ss;
    }
  }

  // ---- one line per line: nothing emitted carries a newline ---------------

  predicate OneLine(s: string) {
    '\n' !in s
  }

  predicate CleanHunk(h: Hunk) {
    forall k | 0 <= k < |h.body| :: OneLine(h.body[k].text)
  }

  predicate CleanFile(f: FilePatch) {
    OneLine(f.path) && forall k | 0 <= k < |f.hunks| :: CleanHunk(f.hunks[k])
  }

  predicate CleanFiles(files: seq<FilePatch>) {
    forall k | 0 <= k < |files| :: CleanFile(files[k])
  }

  lemma {:induction false} StripSubset(s: string)
    ensures OneLine(s) ==> OneLine(LStrip(s)) && OneLine(RStrip(s))
    decreases |s|
  {
    if s != [] {
      StripSubset(s[1..]);
      StripSubset(s[..|s| - 1]);
    }
  }

  lemma StepKeepsClean(st: Parsed, raw: string)
    requires st.Valid() && CleanFiles(st.files) && OneLine(raw)
    ensures Step(st, raw).Ok? ==> CleanFiles(Step(st, raw).value.files)
  {
    hide Strip, MarkerAnchor;
    var r := Step(st, raw);
    if StartsWith(raw, "+++ ") {
      PathClean(raw);
    } else if r.Ok? && r.value != st {
      var n := |st.files| - 1;
      var f, f' := st.files[n], r.value.files[n];
      assert CleanFile(f);
      assert OneLine(BodyOf(raw).text);
      forall k | 0 <= k < |f'.hunks| ensures CleanHunk(f'.hunks[k]) {
        if k < |f.hunks| { assert CleanHunk(f.hunks[k]); }
      }
      assert CleanFile(f');
    }
  }

  lemma PathClean(raw: string)
    requires OneLine(raw) && |raw| >= 4
    ensures OneLine(StripAb(Strip(raw[4..])))
  {
    StripSubset(raw[4..]);
    StripSubset(LStrip(raw[4..]));
  }

  lemma {:induction false} ParseKeepsClean(lines: seq<string>, st: Parsed)
    requires st.Valid() && CleanFiles(st.files) && forall l | l in lines :: OneLine(l)
    ensures ParseLines(lines, st).Ok? ==> CleanFiles(ParseLines(lines, st).value.files)
  {
    hide Step;
    if lines != [] {
      StepKeepsClean(st, lines[0]);
      if Step(st, lines[0]).Ok? {
        ParseKeepsClean(lines[1..], Step(st, lines[0]).value);
      }
    }
  }

  lemma ParsedIsClean(block: string)
    requires Parse(block).Ok?
    ensures CleanFiles(Parse(block).value)
  {
    hide ParseLines, SplitLines;
    forall l | l in SplitLines(block) ensures OneLine(l) {
      assert NoBreak(l);
    }
    ParseKeepsClean(SplitLines(block), Parsed([], false));
  }

  lemma {:induction false} DecimalOneLine(n: int)
    ensures OneLine(Decimal(n))
  {
  }

  lemma HunkLinesClean(src: seq<string>, i: nat, body: seq<BodyLine>, delta: int)
    requires Fits(src, i, body)
    requires forall l | l in src :: OneLine(l)
    requires forall k | 0 <= k < |body| :: OneLine(body[k].text)
    ensures forall l | l in RenderHunk(Emit(src, i, body, delta)) :: OneLine(l)
  {
    hide Decimal, OldSide, NewSide;
    var h := Emit(src, i, body, delta);
    DecimalOneLine(h.oldStart);
    DecimalOneLine(h.oldCount);
    DecimalOneLine(h.newStart);
    DecimalOneLine(h.newCount);
    var si := i + 1 + |OldSide(body)|;
    forall k | 0 <= k < |h.lines| ensures OneLine(h.lines[k].text) {
      if k > |body| {
        assert h.lines[k].text == src[si..HunkEnd(src, i, body)][k - 1 - |body|];
        assert h.lines[k].text == src[si + (k - 1 - |body|)];
      } else if k > 0 {
        assert h.lines[k] == body[k - 1];
      }
    }
    assert forall k | 0 <= k < |h.lines| :: OneLine(Mark(h.lines[k]));
  }

  lemma {:induction false} RenderedHunksClean(hs: seq<Numbered>)
    requires forall k | 0 <= k < |hs| :: forall l | l in RenderHunk(hs[k]) :: OneLine(l)
    ensures forall l | l in RenderHunks(hs) :: OneLine(l)
  {
    hide RenderHunk;
    if hs != [] {
      assert forall k | 0 <= k < |hs[1..]| :: hs[1..][k] == hs[k + 1];
      RenderedHunksClean(hs[1..]);
    }
  }

  lemma SectionClean(fp: FilePatch, files: map<string, string>)
    requires CleanFile(fp) && SectionSpec(fp, files).Ok?
    ensures forall l | l in RenderHunks(SectionSpec(fp, files).value.hunks) :: OneLine(l)
  {
    hide Place, RenderHunk, RenderHunks, Emit, SplitOn;
    var src := SourceOf(files, fp.path);
    var hs := FileSpec(src, fp.hunks).value;
    forall k | 0 <= k < |hs| ensures forall l | l in RenderHunk(hs[k]) :: OneLine(l) {
      NumberFacts(src, fp.hunks, k);
      assert CleanHunk(fp.hunks[k]);
      HunkLinesClean(src, Place(src, fp.hunks[k]).value, fp.hunks[k].body, NetAll(fp.hunks[..k]));
    }
    RenderedHunksClean(hs);
  }

  lemma {:induction false} SectionsClean(fps: seq<FilePatch>, files: map<string, string>)
    requires CleanFiles(fps) && SectionsSpec(fps, files).Ok?
    ensures forall l | l in RenderSections(SectionsSpec(fps, files).value) :: OneLine(l)
  {
    hide SectionSpec, RenderHunks;
    if fps != [] {
      var init, fp := fps[..|fps| - 1], fps[|fps| - 1];
      SectionsClean(init, files);
      assert CleanFile(fp);
      SectionClean(fp, files);
      SectionPath(fp, files);
      RenderSectionsAppend(SectionsSpec(init, files).value, SectionSpec(fp, files).value);
    }
  }

  lemma SectionPath(fp: FilePatch, files: map<string, string>)
    requires SectionSpec(fp, files).Ok?
    ensures fp.path in files && SectionSpec(fp, files).value.path == fp.path
    ensures SectionSpec(fp, files).value.hunks == FileSpec(SourceOf(files, fp.path), fp.hunks).value
    ensures FileSpec(SourceOf(files, fp.path), fp.hunks).Ok?
  {
  }

  // ---- what cannot be read back ------------------------------------------

  /** A hunk that names the true lengths of both sides, as every emitted one does; only the new start may turn out
      negative, when hunks further down delete more than there is above. */
  predicate WellCounted(h: Numbered) {
    0 <= h.oldStart && h.oldCount == |OldSide(h.lines)| && h.newCount == |NewSide(h.lines)|
  }

  lemma NegativeStartIsUnreadable(a: nat, b: nat, c: int, d: int)
    requires c < 0
    ensures ReadHeader(Header(a, b, c, d)) == None
  {
    hide Decimal, ReadRange;
    var t3 := Decimal(c) + ("," + (Decimal(d) + " @@"));
    var t2 := " +" + t3;
    var t1 := Decimal(a) + ("," + (Decimal(b) + t2));
    assert Header(a, b, c, d) == "@@ -" + t1;
    assert ("@@ -" + t1)[4..] == t1 && t2[2..] == t3;
    ReadRangeOfDecimals(a, b, t2);
    NoRangeBehindASign(c, "," + (Decimal(d) + " @@"));
  }

  lemma NoRangeBehindASign(c: int, rest: string)
    requires c < 0
    ensures ReadRange(Decimal(c) + rest) == None
  {
    hide DecimalNat, NatValue;
    var t := Decimal(c) + rest;
    assert t[0] == '-';
    assert DigitRun(t) == 0;
  }

  lemma HunkUnreadable(h: Numbered, rest: seq<string>)
    requires WellCounted(h) && h.newStart < 0
    ensures ReadHunk(RenderHunk(h) + rest) == None
  {
    hide ReadHeader, Header, ReadBody, OldSide, NewSide, Marked;
    assert (RenderHunk(h) + rest)[0] == Header(h.oldStart, h.oldCount, h.newStart, h.newCount);
    NegativeStartIsUnreadable(h.oldStart, h.oldCount, h.newStart, h.newCount);
  }

  lemma {:induction false} HunksUnreadable(hs: seq<Numbered>, rest: seq<string>)
    requires forall k | 0 <= k < |hs| :: WellCounted(hs[k])
    requires exists k | 0 <= k < |hs| :: hs[k].newStart < 0
    ensures ReadHunks(RenderHunks(hs) + rest) == None
  {
    hide ReadHunk, RenderHunk, OldSide, NewSide;
    var more := RenderHunks(hs[1..]) + rest;
    assert RenderHunks(hs) + rest == RenderHunk(hs[0]) + more;
    HunkStartsMarked(hs[0], more);
    if hs[0].newStart < 0 {
      HunkUnreadable(hs[0], more);
    } else {
      HunkReadsBack(hs[0], more);
      var k :| 0 <= k < |hs| && hs[k].newStart < 0;
      assert hs[1..][k - 1] == hs[k];
      HunksUnreadable(hs[1..], rest);
    }
  }

  predicate WellCountedSection(s: Section) {
    forall k | 0 <= k < |s.hunks| :: WellCounted(s.hunks[k])
  }

  /** Rendered sections read back to themselves when every header can be written without a sign, and not at all
      otherwise. */
  lemma {:induction false} SectionsReadBackIff(ss: seq<Section>)
    requires forall k | 0 <= k < |ss| :: WellCountedSection(ss[k])
    ensures ReadSections(RenderSections(ss))
         == if forall k | 0 <= k < |ss| :: WellNumberedSection(ss[k]) then Some(ss) else None
  {
    hide WellCountedSection, WellNumberedSection, ReadSections, RenderSections;
    if forall k | 0 <= k < |ss| :: WellNumberedSection(ss[k]) {
      SectionsReadBack(ss);
    } else {
      var k :| 0 <= k < |ss| && !WellNumberedSection(ss[k]);
      SectionsUnreadable(ss, k);
    }
  }

  lemma {:induction false} SectionsUnreadable(ss: seq<Section>, k: nat)
    requires forall j | 0 <= j < |ss| :: WellCountedSection(ss[j])
    requires k < |ss| && !WellNumberedSection(ss[k])
    ensures ReadSections(RenderSections(ss)) == None
  {
    hide ReadHunks, RenderHunks, OldSide, NewSide;
    var s, more := ss[0], RenderSections(ss[1..]);
    var ls := RenderSections(ss);
    assert ls[0] == "--- a/" + s.path && ls[1] == "+++ b/" + s.path;
    assert ls[2..] == RenderHunks(s.hunks) + more;
    assert more == [] || more[0][0] == '-';
    assert WellCountedSection(s);
    if WellNumberedSection(s) {
      HunksReadBack(s.hunks, more);
      assert ss[1..][k - 1] == ss[k];
      SectionsUnreadable(ss[1..], k - 1);
    } else {
      HunksUnreadable(s.hunks, more);
    }
  }

  // ---- end to end --------------------------------------------------------

  /** The file's text after the numbered hunks of one section. */
  function ApplyToText(text: string, hs: seq<Numbered>): Option<string> {
    var f := FileOf(SplitOn(text, '\n'));
    var r := Apply(f, hs, 0, []);
    if r.None? then None else Some(TextOf(TextFile(r.value, f.terminated)))
  }

  /** A section without hunks leaves any text as it is, its last line's ending included. */
  lemma NoHunksLeaveTheText(text: string)
    ensures ApplyToText(text, []) == Some(text)
  {
    hide SplitOn, TextOf;
    TextOfFile(text);
    var f := FileOf(SplitOn(text, '\n'));
    assert [] + f.lines[0..] == f.lines;
  }

  /** The text `later` with every removal deleted and every addition inserted below its line, the hunks being placed
      where they are in `text`. */
  function EditedLater(text: string, later: string, hunks: seq<Hunk>): string
    requires FileSpec(SplitOn(text, '\n'), hunks).Ok?
  {
    var src, now := SplitOn(text, '\n'), SplitOn(later, '\n');
    Join(Edited(now, EditsOf(src, hunks), 0, |now|))
  }

  function EditedTextOf(text: string, hunks: seq<Hunk>): string
    requires FileSpec(SplitOn(text, '\n'), hunks).Ok?
  {
    EditedLater(text, text, hunks)
  }

  /** The file's section still fits what the file holds by now. */
  predicate SectionFits(fp: FilePatch, files: map<string, string>, now: map<string, string>) {
    && fp.path in files && fp.path in now && FileSpec(SourceOf(files, fp.path), fp.hunks).Ok?
    && ApplicableTo(SourceOf(files, fp.path), SourceOf(now, fp.path), fp.hunks)
  }

  /** Applying one emitted section to what its file holds by then. */
  lemma SectionFitsIff(fp: FilePatch, files: map<string, string>, now: map<string, string>)
    requires SectionSpec(fp, files).Ok? && fp.path in now
    ensures fp.path in files && FileSpec(SplitOn(files[fp.path], '\n'), fp.hunks).Ok?
    ensures ApplyToText(now[fp.path], SectionSpec(fp, files).value.hunks)
         == if SectionFits(fp, files, now) then Some(EditedLater(files[fp.path], now[fp.path], fp.hunks)) else None
  {
    hide Apply, FileSpec, Edited, EditsOf, ApplicableTo, SplitOn, FileOf, Join, TextOf;
    SectionPath(fp, files);
    AppliesWhereItsLinesStay(files[fp.path], now[fp.path], fp.hunks);
  }

  /** The files after all the sections in turn, if each fits what its file holds by then. */
  function InTurn(fps: seq<FilePatch>, files: map<string, string>, now: map<string, string>)
    : Option<map<string, string>>
  {
    if fps == [] then Some(now)
    else if !SectionFits(fps[0], files, now) then None
    else
      var p := fps[0].path;
      InTurn(fps[1..], files, now[p := EditedLater(files[p], now[p], fps[0].hunks)])
  }

  lemma {:induction false} SectionsApplyInTurn(fps: seq<FilePatch>, files: map<string, string>,
                                               now: map<string, string>, ss: seq<Section>)
    requires now.Keys == files.Keys
    requires |ss| == |fps| && forall k | 0 <= k < |fps| :: SectionSpec(fps[k], files) == Ok(ss[k])
    ensures ApplySections(now, ss) == InTurn(fps, files, now)
    decreases |fps|
  {
    hide ApplyToText, SectionSpec, SectionFits, EditedLater, FileSpec, SplitOn;
    if fps != [] {
      var fp := fps[0];
      SectionPath(fp, files);
      SectionFitsIff(fp, files, now);
      if SectionFits(fp, files, now) {
        SectionsApplyInTurn(fps[1..], files, now[fp.path := EditedLater(files[fp.path], now[fp.path], fp.hunks)],
                            ss[1..]);
      }
    }
  }

  lemma {:induction false} AppliedSectionsAreWellNumbered(now: map<string, string>, ss: seq<Section>)
    requires ApplySections(now, ss).Some?
    ensures forall k | 0 <= k < |ss| :: WellNumberedSection(ss[k])
    decreases |ss|
  {
    hide Apply, SplitOn, FileOf, TextOf, WellNumbered;
    if ss != [] {
      var r := ApplyToText(now[ss[0].path], ss[0].hunks);
      AppliedIsWellNumbered(FileOf(SplitOn(now[ss[0].path], '\n')), ss[0].hunks, 0, []);
      AppliedSectionsAreWellNumbered(now[ss[0].path := r.value], ss[1..]);
      assert forall k | 0 < k < |ss| :: ss[k] == ss[1..][k - 1];
    }
  }

  predicate SectionApplicable(fp: FilePatch, files: map<string, string>) {
    fp.path in files && FileSpec(SourceOf(files, fp.path), fp.hunks).Ok?
    && Applicable(SourceOf(files, fp.path), fp.hunks)
  }

  /** Applying one emitted section to the file it was made from succeeds exactly when the section is applicable, and
      leaves that file's edit. */
  lemma SectionAppliesIff(fp: FilePatch, files: map<string, string>)
    requires SectionSpec(fp, files).Ok?
    ensures fp.path in files && FileSpec(SplitOn(files[fp.path], '\n'), fp.hunks).Ok?
    ensures ApplyToText(files[fp.path], SectionSpec(fp, files).value.hunks)
         == if SectionApplicable(fp, files) then Some(EditedTextOf(files[fp.path], fp.hunks)) else None
  {
    hide Apply, FileSpec, Edited, EditsOf, Applicable, SplitOn, FileOf, Join, TextOf;
    SectionPath(fp, files);
    AppliedPatchIsTheEdit(files[fp.path], fp.hunks);
  }

  lemma SectionIsCounted(fp: FilePatch, files: map<string, string>)
    requires SectionSpec(fp, files).Ok?
    ensures WellCountedSection(SectionSpec(fp, files).value)
  {
    hide FileSpec, OldSide, NewSide, Place, SplitOn, Fits;
    SectionPath(fp, files);
    var src := SourceOf(files, fp.path);
    forall k | 0 <= k < |fp.hunks| ensures WellCounted(FileSpec(src, fp.hunks).value[k]) {
      NumberFacts(src, fp.hunks, k);
    }
  }

  /** An applier that gets through a section has checked that its starts are true, so they are not negative. */
  lemma {:induction false} AppliedIsWellNumbered(f: TextFile, hs: seq<Numbered>, cursor: nat, out: seq<string>)
    requires cursor <= |f.lines| && Apply(f, hs, cursor, out).Some?
    ensures forall k | 0 <= k < |hs| :: WellNumbered(hs[k])
    decreases |hs|
  {
    hide OldSide, NewSide, Changes;
    if hs != [] {
      var h, s := hs[0], hs[0].oldStart - 1;
      AppliedIsWellNumbered(f, hs[1..], s + h.oldCount, out + f.lines[cursor..s] + NewSide(h.lines));
      assert WellNumbered(h);
      assert forall k | 1 <= k < |hs| :: hs[k] == hs[1..][k - 1];
    }
  }

  /** Applies the sections in order, each to what its file holds by then. */
  function ApplySections(files: map<string, string>, ss: seq<Section>): Option<map<string, string>> {
    if ss == [] then Some(files)
    else if ss[0].path !in files then None
    else
      var r := ApplyToText(files[ss[0].path], ss[0].hunks);
      if r.None? then None else ApplySections(files[ss[0].path := r.value], ss[1..])
  }

  /** What a strict reader and applier makes of a patch text. */
  function ApplyPatchText(files: map<string, string>, text: string): Option<map<string, string>> {
    var r := ReadPatch(text);
    if r.None? then None else ApplySections(files, r.value)
  }

  /** The files with every named one edited. */
  function EditedFiles(files: map<string, string>, fps: seq<FilePatch>): map<string, string> {
    if fps == [] then files
    else
      var rest, p := EditedFiles(files, fps[1..]), fps[0].path;
      if p in files && FileSpec(SplitOn(files[p], '\n'), fps[0].hunks).Ok?
      then rest[p := EditedTextOf(files[p], fps[0].hunks)] else rest
  }

  predicate NamedOnce(fps: seq<FilePatch>) {
    forall i, j | 0 <= i < j < |fps| :: fps[i].path != fps[j].path
  }

  predicate AllApplicable(fps: seq<FilePatch>, files: map<string, string>) {
    forall k | 0 <= k < |fps| :: SectionApplicable(fps[k], files)
  }

  /** Editing one file leaves what the others' sections ask for as it was. */
  lemma {:induction false} OtherFilesStay(files: map<string, string>, p: string, text: string, fps: seq<FilePatch>)
    requires p in files && forall k | 0 <= k < |fps| :: fps[k].path != p
    ensures EditedFiles(files[p := text], fps) == EditedFiles(files, fps)[p := text]
  {
    hide FileSpec, EditedTextOf;
    if fps != [] {
      OtherFilesStay(files, p, text, fps[1..]);
    }
  }

  lemma {:induction false} SectionsApplyIff(fps: seq<FilePatch>, files: map<string, string>, ss: seq<Section>)
    requires NamedOnce(fps) && |ss| == |fps| && forall k | 0 <= k < |fps| :: SectionSpec(fps[k], files) == Ok(ss[k])
    ensures ApplySections(files, ss)
         == if AllApplicable(fps, files) then Some(EditedFiles(files, fps)) else None
    decreases |fps|
  {
    hide ApplyToText, SectionSpec, SectionApplicable, EditedTextOf, FileSpec, SplitOn;
    if fps != [] {
      var fp, rest := fps[0], fps[1..];
      SectionPath(fp, files);
      SectionAppliesIff(fp, files);
      if SectionApplicable(fp, files) {
        var text := EditedTextOf(files[fp.path], fp.hunks);
        var files' := files[fp.path := text];
        forall k | 0 <= k < |rest|
          ensures SectionSpec(rest[k], files') == Ok(ss[1..][k])
          ensures SectionApplicable(rest[k], files') <==> SectionApplicable(fps[k + 1], files)
        {
          assert rest[k] == fps[k + 1];
          SectionOfOtherFile(rest[k], files, fp.path, text);
        }
        SectionsApplyIff(rest, files', ss[1..]);
        assert AllApplicable(fps, files) <==> AllApplicable(rest, files') by {
          assert forall k | 0 < k < |fps| :: fps[k] == rest[k - 1];
        }
        OtherFilesStay(files, fp.path, text, rest);
      }
    }
  }

  lemma SectionOfOtherFile(fp: FilePatch, files: map<string, string>, p: string, text: string)
    requires fp.path != p
    ensures SectionSpec(fp, files[p := text]) == SectionSpec(fp, files)
    ensures SectionApplicable(fp, files[p := text]) <==> SectionApplicable(fp, files)
  {
    hide FileSpec, Applicable, SplitOn;
  }

  /** Splitting the emitted text gives the rendered lines back. */
  lemma EmittedLines(block: string, files: map<string, string>)
    requires !HasRealHunk(block) && ReconstructSpec(block, files).Ok?
    ensures Parse(block).Ok? && SectionsSpec(Parse(block).value, files).Ok?
    ensures ReadPatch(ReconstructSpec(block, files).value)
         == ReadSections(RenderSections(SectionsSpec(Parse(block).value, files).value))
  {
    hide HasRealHunk, Parse, SectionSpec, SectionsSpec, RenderSections, Join, SplitOn, ReadSections;
    var fps := Parse(block).value;
    var ss := SectionsSpec(fps, files).value;
    SectionsIffAllAcceptable(fps, files);
    ParsedIsClean(block);
    SectionsClean(fps, files);
    var ls := RenderSections(ss);
    HasSomeLine(block, ss);
    SplitOnOfJoin(ls);
    assert (ls + [[]])[..|ls|] == ls;
  }

  /** End to end, on texts: a strict reader and applier takes the emitted text exactly when each section in turn fits
      what its file holds by then, and leaves each named file edited by its sections and every other file as it was.
      When the block names each file once, that is when every section is applicable to the file it was made from. */
  lemma {:induction false} EmittedTextAppliesAsTheBlockSays(block: string, files: map<string, string>)
    requires !HasRealHunk(block) && ReconstructSpec(block, files).Ok?
    ensures var text, fps := ReconstructSpec(block, files).value, Parse(block).value;
      && ApplyPatchText(files, text) == InTurn(fps, files, files)
      && (NamedOnce(fps) ==>
          ApplyPatchText(files, text) == if AllApplicable(fps, files) then Some(EditedFiles(files, fps)) else None)
  {
    hide HasRealHunk, Parse, ReconstructSpec, SectionSpec, SectionsSpec, RenderSections, ReadSections, ReadPatch,
      ApplySections, SectionApplicable, WellNumberedSection, WellCountedSection, EditedFiles, NamedOnce, InTurn;
    EmittedLines(block, files);
    var fps := Parse(block).value;
    var ss := SectionsSpec(fps, files).value;
    SectionsIffAllAcceptable(fps, files);
    forall k | 0 <= k < |fps| ensures WellCountedSection(ss[k]) {
      SectionIsCounted(fps[k], files);
    }
    SectionsReadBackIff(ss);
    SectionsApplyInTurn(fps, files, files, ss);
    if ApplySections(files, ss).Some? {
      AppliedSectionsAreWellNumbered(files, ss);
    }
    if NamedOnce(fps) {
      SectionsApplyIff(fps, files, ss);
    }
  }

  function InsertBelow(x: string): seq<BodyLine> {
    [BodyLine(Context, "a"), BodyLine(Addition, x), BodyLine(Context, "b")]
  }

  function Insertion(x: string): Numbered {
    Numbered(1, 2, 1, 3, InsertBelow(x))
  }

  lemma SidesOfInsertion(x: string)
    ensures OldSide(InsertBelow(x)) == ["a", "b"] && NewSide(InsertBelow(x)) == ["a", x, "b"] && Changes(InsertBelow(x))
  {
    var ls := InsertBelow(x);
    assert ls == [ls[0]] + ([ls[1]] + [ls[2]]);
    SidesOfOne(ls[0]);
    SidesOfOne(ls[1]);
    SidesOfOne(ls[2]);
    SidesAppend([ls[1]], [ls[2]]);
    SidesAppend([ls[0]], [ls[1]] + [ls[2]]);
    assert ls[1].kind != Context;
  }

  /** One insertion below the first of two lines, numbered. */
  lemma InsertionNumbered(src: seq<string>, x: string)
    requires src == ["a", "b"] + [[]]
    ensures var hunks := [Hunk("a", [BodyLine(Addition, x)])];
      FileSpec(src, hunks) == Ok([Insertion(x)]) && Applicable(src, hunks)
  {
    hide LocateAnchor, Fits, HunkEnd, OldSide, NewSide, Changes;
    var h := Hunk("a", [BodyLine(Addition, x)]);
    OneLetterAnchor(src, "a", 0);
    OneAddition(src, 0, x);
    FileAccepted(src, [h]);
    assert [h][..0] == [] && NetAll([]) == 0;
    SidesOfOne(h.body[0]);
    InsertionEmitted(src, x);
    assert FileSpec(src, [h]).value[0] == NumberAt(src, [h], 0);
    assert FileSpec(src, [h]).value == [NumberAt(src, [h], 0)];
  }

  lemma InsertionEmitted(src: seq<string>, x: string)
    requires src == ["a", "b"] + [[]] && Fits(src, 0, [BodyLine(Addition, x)])
    requires HunkEnd(src, 0, [BodyLine(Addition, x)]) == 2
    ensures Emit(src, 0, [BodyLine(Addition, x)], 0) == Insertion(x)
  {
    hide Fits, HunkEnd;
    SidesOfOne(BodyLine(Addition, x));
    assert src[1..2] == ["b"];
    assert ["b"][1..] == [] && ContextLines(["b"]) == [BodyLine(Context, "b")];
    hide OldSide, NewSide, ContextLines;
    assert Covered(src, 0, [BodyLine(Addition, x)]) == InsertBelow(x);
  }

  function TwoLines(): string {
    Join(["a", "b"]) + "\n"
  }

  function ThreeLines(x: string): string {
    Join(["a", x, "b"]) + "\n"
  }

  /** A file named twice, for one insertion each below its first line. */
  predicate TwoInsertions(fps: seq<FilePatch>, x: string, y: string) {
    && |fps| == 2
    && fps[0] == FilePatch("f", [Hunk("a", [BodyLine(Addition, x)])])
    && fps[1] == FilePatch("f", [Hunk("a", [BodyLine(Addition, y)])])
  }

  /** Both sections are made from the same source and applicable to it, yet the second does not fit what the first
      leaves. */
  lemma FileNamedTwiceIsNumberedTwice(fps: seq<FilePatch>, files: map<string, string>, x: string, y: string)
    requires TwoInsertions(fps, x, y) && x != "b" && NoBreak(x)
    requires "f" in files && files["f"] == TwoLines()
    ensures SectionsSpec(fps, files).Ok? && AllApplicable(fps, files) && InTurn(fps, files, files) == None
  {
    hide TwoLines, ThreeLines, TwoInsertions, SectionSpec, SectionApplicable, ApplyToText, Insertion, SectionsSpec,
      InTurn, NoBreak, ApplySections;
    InsertionSections(fps, files, x, y);
    FirstInsertionLeaves(x);
    SecondInsertionMisses(x, y);
    var s, t := Section("f", [Insertion(x)]), Section("f", [Insertion(y)]);
    TwoSections(fps, files, s, t);
    SecondStops(fps, files, s, t);
  }

  lemma InsertionSections(fps: seq<FilePatch>, files: map<string, string>, x: string, y: string)
    requires TwoInsertions(fps, x, y) && "f" in files && files["f"] == TwoLines()
    ensures |fps| == 2 && AllApplicable(fps, files)
    ensures SectionSpec(fps[0], files) == Ok(Section("f", [Insertion(x)]))
    ensures SectionSpec(fps[1], files) == Ok(Section("f", [Insertion(y)]))
  {
    InsertionSection(fps[0], files, x);
    InsertionSection(fps[1], files, y);
    hide TwoLines, SectionSpec, SectionApplicable, Insertion;
  }

  lemma SecondStops(fps: seq<FilePatch>, files: map<string, string>, s: Section, t: Section)
    requires |fps| == 2 && SectionSpec(fps[0], files) == Ok(s) && SectionSpec(fps[1], files) == Ok(t)
    requires s.path in files && t.path == s.path && ApplyToText(files[s.path], s.hunks).Some?
    requires ApplyToText(ApplyToText(files[s.path], s.hunks).value, t.hunks).None?
    ensures InTurn(fps, files, files) == None
  {
    hide ApplyToText, SectionSpec, InTurn;
    assert [s, t][1..] == [t];
    SectionsApplyInTurn(fps, files, files, [s, t]);
  }

  lemma InsertionSection(fp: FilePatch, files: map<string, string>, x: string)
    requires fp == FilePatch("f", [Hunk("a", [BodyLine(Addition, x)])])
    requires "f" in files && files["f"] == TwoLines()
    ensures SectionSpec(fp, files) == Ok(Section("f", [Insertion(x)])) && SectionApplicable(fp, files)
  {
    SplitOnOfJoin(["a", "b"]);
    hide Join, SplitOn, FileSpec, Applicable, Insertion;
    InsertionNumbered(SplitOn(files["f"], '\n'), x);
  }

  lemma TwoSections(fps: seq<FilePatch>, files: map<string, string>, s: Section, t: Section)
    requires |fps| == 2 && SectionSpec(fps[0], files) == Ok(s) && SectionSpec(fps[1], files) == Ok(t)
    ensures SectionsSpec(fps, files) == Ok([s, t])
  {
    hide SectionSpec, SectionsSpec;
    assert fps[..0] == [] && fps[..2] == fps;
    NoSections(files);
    SectionsStep(fps, 0, files);
    SectionsStep(fps, 1, files);
    assert SectionsSpec(fps[..1], files) == Ok([] + [s]);
    assert [] + [s] + [t] == [s, t];
  }

  lemma FirstInsertionLeaves(x: string)
    ensures ApplyToText(TwoLines(), [Insertion(x)]) == Some(ThreeLines(x))
  {
    SidesOfInsertion(x);
    SplitOnOfJoin(["a", "b"]);
    assert Join([[]]) == [];
    hide OldSide, NewSide, Changes, InsertBelow, SplitOn, Join;
    var f, lines := TextFile(["a", "b"], true), ["a", x, "b"];
    assert FileOf(["a", "b"] + [[]]) == f;
    assert f.lines[0..2] == ["a", "b"] && f.lines[..0] + lines + f.lines[2..] == lines;
    ApplyOne(f, Insertion(x), lines);
    JoinAppend(lines, [[]]);
    assert TextOf(TextFile(lines, true)) == Join(lines) + "\n";
  }

  lemma SecondInsertionMisses(x: string, y: string)
    requires x != "b" && NoBreak(x)
    ensures ApplyToText(ThreeLines(x), [Insertion(y)]) == None
  {
    SidesOfInsertion(y);
    var lines := ["a", x, "b"];
    SplitOnOfJoin(lines);
    hide OldSide, NewSide, Changes, InsertBelow, SplitOn, Join;
    assert FileOf(lines + [[]]) == TextFile(lines, true);
    assert lines[0..2][1] == x;
  }

  lemma ApplyOne(f: TextFile, h: Numbered, side: seq<string>)
    requires 1 <= h.oldStart && 1 <= h.oldCount <= |f.lines| - (h.oldStart - 1) && f.terminated
    requires Changes(h.lines) && NewSide(h.lines) == side && |side| == h.newCount && h.newStart == h.oldStart
    requires f.lines[h.oldStart - 1..h.oldStart - 1 + h.oldCount] == OldSide(h.lines)
    ensures Apply(f, [h], 0, []) == Some(f.lines[..h.oldStart - 1] + side + f.lines[h.oldStart - 1 + h.oldCount..])
  {
    hide OldSide, NewSide, Changes;
    assert [h][1..] == [];
    assert [] + f.lines[0..h.oldStart - 1] + side == f.lines[..h.oldStart - 1] + side;
  }

  lemma HasSomeLine(block: string, ss: seq<Section>)
    requires Parse(block).Ok? && |ss| == |Parse(block).value|
    ensures RenderSections(ss) != []
  {
    hide ParseLines;
  }

  // ---- a second reconstruction changes nothing ---------------------------

  lemma {:induction false} RealHunkBehind(a: string, b: string, start: bool)
    requires HasRealHunk(b)
    ensures HasRealHunk(a + "\n" + b, start)
  {
    hide RealHunkAt;
    var s := a + "\n" + b;
    if a == [] {
      assert s[1..] == b;
    } else {
      assert s[1..] == a[1..] + "\n" + b;
      RealHunkBehind(a[1..], b, a[0] == '\n');
    }
  }

  predicate IsDigits(d: string) {
    d != [] && forall i | 0 <= i < |d| :: IsDigit(d[i])
  }

  /** `\d+(?:,\d+)?`. */
  predicate IsRange(r: string) {
    IsDigits(r) || exists k | 0 < k < |r| :: IsCounted(r, k)
  }

  predicate IsCounted(r: string, k: nat)
    requires k < |r|
  {
    IsDigits(r[..k]) && r[k] == ',' && IsDigits(r[k + 1..])
  }

  lemma AfterDigits(d: string, u: string)
    requires IsDigits(d) && u != [] && !IsDigit(u[0])
    ensures AfterRange(d + u)
         == if u[0] == ',' && DigitRun(u[1..]) > 0 then Ok(u[1..][DigitRun(u[1..])..]) else Ok(u)
  {
    DigitRunIs(d, u);
    hide IsDigit, DigitRun;
    assert (d + u)[|d|..] == u;
  }

  lemma RangeReads(r: string, rest: string)
    requires IsRange(r) && rest != [] && !IsDigit(rest[0]) && rest[0] != ','
    ensures AfterRange(r + rest) == Ok(rest)
  {
    hide AfterRange, DigitRun;
    if IsDigits(r) {
      AfterDigits(r, rest);
    } else {
      var k :| 0 < k < |r| && IsCounted(r, k);
      CountedReads(r[..k], r[k + 1..], rest);
      assert r + rest == r[..k] + ("," + (r[k + 1..] + rest));
    }
  }

  lemma CountedReads(d: string, e: string, rest: string)
    requires IsDigits(d) && IsDigits(e) && rest != [] && !IsDigit(rest[0])
    ensures AfterRange(d + ("," + (e + rest))) == Ok(rest)
  {
    hide AfterRange;
    var u := "," + (e + rest);
    AfterDigits(d, u);
    DigitRunIs(e, rest);
    hide DigitRun;
    assert u[1..] == e + rest && (e + rest)[|e|..] == rest;
  }

  lemma CountedIs(d: string, e: string)
    requires IsDigits(d) && IsDigits(e)
    ensures IsRange(d + "," + e)
  {
    hide IsDigits;
    var r := d + "," + e;
    assert |d| > 0 && |e| > 0 by { NotEmpty(d); NotEmpty(e); }
    assert r[..|d|] == d && r[|d| + 1..] == e;
    assert IsCounted(r, |d|);
  }

  lemma NotEmpty(d: string)
    requires IsDigits(d)
    ensures d != []
  {
  }

  lemma DigitsRead(t: string)
    ensures DigitRun(t) > 0 ==> IsDigits(t[..DigitRun(t)])
  {
    hide DigitRun;
  }

  lemma RangeRead(t: string) returns (r: string)
    requires AfterRange(t).Ok?
    ensures IsRange(r) && t == r + AfterRange(t).value
  {
    hide IsDigit, IsDigits, DigitRun, IsRange;
    var k := DigitRun(t);
    var d, u := t[..k], t[k..];
    DigitsRead(t);
    if StartsWith(u, ",") && DigitRun(u[1..]) > 0 {
      var m := DigitRun(u[1..]);
      DigitsRead(u[1..]);
      CountedIs(d, u[1..][..m]);
      r := d + "," + u[1..][..m];
      Rejoined(t, k, m);
    } else {
      DigitsAreARange(d);
      r := d;
    }
  }

  lemma Rejoined(t: string, k: nat, m: nat)
    requires k < |t| && t[k] == ',' && m <= |t[k..][1..]|
    ensures t == t[..k] + "," + t[k..][1..][..m] + t[k..][1..][m..]
  {
    var v := t[k..][1..];
    assert v == v[..m] + v[m..];
    assert t == t[..k] + "," + v;
  }

  lemma DigitsAreARange(d: string)
    requires IsDigits(d)
    ensures IsRange(d)
  {
  }

  /** `@@ -r +s @@` and whatever follows. */
  predicate NumberedHeader(t: string, r: string, s: string, more: string) {
    IsRange(r) && IsRange(s) && t == "@@ -" + r + " +" + s + " @@" + more
  }

  lemma HeaderAt(t: string, r: string, s: string, more: string)
    requires NumberedHeader(t, r, s, more)
    ensures RealHunkAt(t)
  {
    hide AfterRange, IsRange;
    var t3 := s + (" @@" + more);
    var t2 := " +" + t3;
    assert t == "@@ -" + (r + t2) && t[4..] == r + t2 && t2[2..] == t3;
    RangeReads(r, t2);
    RangeReads(s, " @@" + more);
  }

  lemma HeaderParts(t: string) returns (r: string, s: string, more: string)
    requires RealHunkAt(t)
    ensures NumberedHeader(t, r, s, more)
  {
    hide AfterRange, IsRange;
    var a := AfterRange(t[4..]).value;
    var b := AfterRange(a[2..]).value;
    r := RangeRead(t[4..]);
    s := RangeRead(a[2..]);
    more := b[3..];
    assert t == "@@ -" + (r + (" +" + (s + (" @@" + more))));
  }

  ghost predicate HeaderStarts(s: string, k: nat)
    requires k <= |s|
  {
    exists r, t, more :: NumberedHeader(s[k..], r, t, more)
  }

  lemma HeaderStartsIff(s: string, k: nat)
    requires k <= |s|
    ensures HeaderStarts(s, k) <==> RealHunkAt(s[k..])
  {
    hide RealHunkAt, NumberedHeader;
    if RealHunkAt(s[k..]) {
      var r, t, more := HeaderParts(s[k..]);
    }
    if r, t, more :| NumberedHeader(s[k..], r, t, more) {
      HeaderAt(s[k..], r, t, more);
    }
  }

  /** A block passes for a genuine patch exactly when some line of it starts with a numbered hunk header, its counts
      left out or not. */
  lemma {:induction false} GenuineIff(s: string, lineStart: bool)
    ensures HasRealHunk(s, lineStart) <==>
      exists k | 0 <= k <= |s| :: (if k == 0 then lineStart else s[k - 1] == '\n') && HeaderStarts(s, k)
  {
    hide HeaderStarts, RealHunkAt;
    HeaderStartsIff(s, 0);
    assert s[0..] == s;
    if s != [] {
      var u, next := s[1..], s[0] == '\n';
      GenuineIff(u, next);
      forall k | 0 <= k <= |u| ensures HeaderStarts(u, k) <==> HeaderStarts(s, k + 1) {
        assert u[k..] == s[k + 1..];
        HeaderStartsIff(u, k);
        HeaderStartsIff(s, k + 1);
      }
      if k :| 0 <= k <= |u| && (if k == 0 then next else u[k - 1] == '\n') && HeaderStarts(u, k) {
        assert s[k] == if k == 0 then s[0] else u[k - 1];
        assert HeaderStarts(s, k + 1);
      }
      if k :| 0 < k <= |s| && s[k - 1] == '\n' && HeaderStarts(s, k) {
        assert k > 1 ==> u[k - 2] == s[k - 1];
        assert HeaderStarts(u, k - 1);
      }
    }
  }

  lemma AfterRangeOfDecimals(a: nat, b: nat, rest: string)
    requires rest != [] && !IsDigit(rest[0])
    ensures AfterRange(Decimal(a) + ("," + (Decimal(b) + rest))) == Ok(rest)
  {
    var t := "," + (Decimal(b) + rest);
    DigitRunIs(DecimalNat(a), t);
    DigitRunIs(DecimalNat(b), rest);
    assert t[1..] == DecimalNat(b) + rest;
  }

  /** The header of a file's first hunk is a real hunk header, whatever follows it. */
  lemma HeaderIsReal(a: nat, b: nat, c: nat, d: nat, more: string)
    ensures HasRealHunk(Header(a, b, c, d) + more)
  {
    hide Decimal, AfterRange;
    var t3 := Decimal(c) + ("," + (Decimal(d) + (" @@" + more)));
    var t2 := " +" + t3;
    var t1 := Decimal(a) + ("," + (Decimal(b) + t2));
    assert Header(a, b, c, d) + more == "@@ -" + t1;
    assert ("@@ -" + t1)[4..] == t1 && t2[2..] == t3;
    AfterRangeOfDecimals(a, b, t2);
    AfterRangeOfDecimals(c, d, " @@" + more);
    assert RealHunkAt(Header(a, b, c, d) + more);
  }

  lemma JoinHead(ls: seq<string>)
    requires ls != []
    ensures exists more :: Join(ls) + "\n" == ls[0] + more
  {
    if |ls| == 1 {
      assert Join(ls) + "\n" == ls[0] + "\n";
    } else {
      assert Join(ls) + "\n" == ls[0] + ("\n" + Join(ls[1..]) + "\n");
    }
  }

  /** Some line of the text is the header of a first hunk. */
  lemma LineIsReal(ls: seq<string>, p: nat, a: nat, b: nat, c: nat, d: nat)
    requires p < |ls| && ls[p] == Header(a, b, c, d)
    ensures HasRealHunk(Join(ls) + "\n")
  {
    hide Join, Header, HasRealHunk;
    JoinHead(ls[p..]);
    var more :| Join(ls[p..]) + "\n" == ls[p] + more;
    HeaderIsReal(a, b, c, d, more);
    if p > 0 {
      assert ls == ls[..p] + ls[p..];
      JoinAppend(ls[..p], ls[p..]);
      RealHunkBehind(Join(ls[..p]), Join(ls[p..]) + "\n", true);
      assert Join(ls) + "\n" == Join(ls[..p]) + "\n" + (Join(ls[p..]) + "\n");
    } else {
      assert ls[0..] == ls;
    }
  }

  lemma {:induction false} FirstHeaderLine(ss: seq<Section>, k: nat) returns (p: nat)
    requires k < |ss| && ss[k].hunks != []
    ensures var h := ss[k].hunks[0];
      p < |RenderSections(ss)| && RenderSections(ss)[p] == Header(h.oldStart, h.oldCount, h.newStart, h.newCount)
  {
    hide Header;
    if k == 0 {
      p := 2;
    } else {
      var q := FirstHeaderLine(ss[1..], k - 1);
      p := 2 + |RenderHunks(ss[0].hunks)| + q;
    }
  }

  lemma {:induction false} RealHunkSurvivesNewline(s: string, start: bool)
    requires HasRealHunk(s, start)
    ensures HasRealHunk(s + "\n", start)
  {
    if start && RealHunkAt(s) {
      RealHunkLonger(s);
    } else {
      assert (s + "\n")[1..] == s[1..] + "\n";
      RealHunkSurvivesNewline(s[1..], s[0] == '\n');
    }
  }

  lemma AfterRangeLonger(t: string)
    requires AfterRange(t).Ok?
    ensures AfterRange(t + "\n") == Ok(AfterRange(t).value + "\n")
  {
    var k := DigitRun(t);
    var u := t[k..];
    DigitRunIs(t[..k], u + "\n");
    assert t + "\n" == t[..k] + (u + "\n");
    assert (t + "\n")[k..] == u + "\n";
    if StartsWith(u, ",") {
      var v := u[1..];
      var m := DigitRun(v);
      DigitRunIs(v[..m], v[m..] + "\n");
      assert v + "\n" == v[..m] + (v[m..] + "\n");
      assert (u + "\n")[1..] == v + "\n" && (v + "\n")[m..] == v[m..] + "\n";
    }
  }

  lemma RealHunkLonger(s: string)
    requires RealHunkAt(s)
    ensures RealHunkAt(s + "\n")
  {
    hide AfterRange;
    var a := AfterRange(s[4..]);
    assert (s + "\n")[4..] == s[4..] + "\n";
    AfterRangeLonger(s[4..]);
    assert (a.value + "\n")[2..] == a.value[2..] + "\n";
    AfterRangeLonger(a.value[2..]);
  }

  /** Reconstructing a second time returns the patch untouched, whatever files exist by then. */
  lemma ReconstructIsIdempotent(block: string, files: map<string, string>, files': map<string, string>)
    requires ReconstructSpec(block, files).Ok?
    ensures var text := ReconstructSpec(block, files).value; ReconstructSpec(text, files') == Ok(text)
  {
    hide Parse, SectionsSpec, RenderSections, Join, SectionSpec, NetAll, Header, HasRealHunk;
    var text := ReconstructSpec(block, files).value;
    if HasRealHunk(block) {
      RealHunkSurvivesNewline(block, true);
    } else {
      var fps := Parse(block).value;
      var ss := SectionsSpec(fps, files).value;
      SectionsIffAllAcceptable(fps, files);
      ParsedHasHunk(block);
      var k :| 0 <= k < |fps| && fps[k].hunks != [];
      FirstHunkNumbers(fps[k], files);
      var h := ss[k].hunks[0];
      var p := FirstHeaderLine(ss, k);
      LineIsReal(RenderSections(ss), p, h.oldStart, h.oldCount, h.newStart, h.newCount);
    }
  }

  lemma ParsedHasHunk(block: string)
    requires Parse(block).Ok?
    ensures HasHunk(Parse(block).value)
  {
    hide ParseLines;
  }

  lemma FirstHunkNumbers(fp: FilePatch, files: map<string, string>)
    requires SectionSpec(fp, files).Ok? && fp.hunks != []
    ensures var hs := SectionSpec(fp, files).value.hunks;
      hs != [] && 0 <= hs[0].oldStart && 0 <= hs[0].oldCount && 0 <= hs[0].newStart && 0 <= hs[0].newCount
  {
    hide Place, OldSide, NewSide, FileSpec;
    SectionPath(fp, files);
    NumberFacts(SourceOf(files, fp.path), fp.hunks, 0);
    assert NetAll(fp.hunks[..0]) == 0;
  }

  // ---- the illustrative form ---------------------------------------------

  /** A body line that survives being written with its mark: `--- ` and `+++ ` lines are taken for headers. */
  predicate Survives(b: BodyLine) {
    match b.kind
    case Context => true
    case Removal => !StartsWith(b.text, "-- ")
    case Addition => !StartsWith(b.text, "++ ")
  }

  /** Exactly the surviving body lines are read back as themselves; the others are lost to the header branches. */
  lemma BodyLineReadBackIff(st: Parsed, b: BodyLine)
    requires st.Valid() && st.inHunk
    ensures Step(st, Mark(b)) == Ok(st.AddLine(b)) <==> Survives(b)
  {
    hide MarkerAnchor, Strip;
    var raw, n := Mark(b), |st.files| - 1;
    assert raw[1..] == b.text && raw[0] == (match b.kind case Context => ' ' case Removal => '-' case Addition => '+');
    var f := st.files[n];
    var m := |f.hunks| - 1;
    assert |st.AddLine(b).files[n].hunks[m].body| == |f.hunks[m].body| + 1;
    match b.kind {
      case Context =>
      case Removal => PrefixBehind('-', b.text, "-- ");
      case Addition => PrefixBehind('+', b.text, "++ ");
    }
    if Survives(b) {
      assert BodyOf(raw) == b;
      assert Step(st, raw) == Ok(st.AddLine(BodyOf(raw)));
    } else if b.kind == Addition {
      assert |Step(st, raw).value.files| == |st.files| + 1;
    } else {
      assert Step(st, raw) == Ok(st);
    }
  }

  lemma PrefixBehind(c: char, text: string, p: string)
    ensures StartsWith([c] + text, [c] + p) <==> StartsWith(text, p)
  {
    if StartsWith([c] + text, [c] + p) {
      assert ([c] + text)[..|p| + 1][1..] == text[..|p|];
      assert text[..|p|] == p;
    }
  }

  /** Removing a line `-- x` is written `--- x`, and that line is dropped: the hunk removes nothing. Adding a line
      `++ x` is written `+++ x`, and that names a file: the hunk is over. */
  lemma DashedLinesAreLost(st: Parsed)
    requires st.Valid() && st.inHunk
    ensures Step(st, Mark(BodyLine(Removal, "-- x"))) == Ok(st)
    ensures Step(st, Mark(BodyLine(Addition, "++ x"))) == Ok(OpenHunk(st.files, "x", []))
  {
    hide MarkerAnchor;
    var gone, name := BodyLine(Removal, "-- x"), BodyLine(Addition, "++ x");
    assert Mark(gone) == "--- x" && Mark(name) == "+++ x";
    assert "--- x"[..4] == "--- " && "+++ x"[..4] == "+++ " && "+++ x"[4..] == "x";
    StripIs("x", 0, 1);
    assert "x"[0..1] == "x" && StripAb("x") == "x";
    var raw := "+++ x";
    assert raw[0] == '+' && !StartsWith(raw, "--- ") && StartsWith(raw, "+++ ");
    assert Step(st, raw) == Ok(Parsed(st.files + [FilePatch(StripAb(Strip(raw[4..])), [])], false));
  }

  function IllustrateHunk(h: Hunk): seq<string> {
    ["@@ " + h.anchor] + Marked(h.body)
  }

  function IllustrateHunks(hs: seq<Hunk>): seq<string> {
    if hs == [] then [] else IllustrateHunks(hs[..|hs| - 1]) + IllustrateHunk(hs[|hs| - 1])
  }

  /** The illustrative diff an auditor would write for these patches. */
  function Illustrate(fs: seq<FilePatch>): seq<string> {
    if fs == [] then []
    else
      var f := fs[|fs| - 1];
      Illustrate(fs[..|fs| - 1]) + (["--- a/" + f.path, "+++ b/" + f.path] + IllustrateHunks(f.hunks))
  }

  /** An anchor the marker pattern returns whole: it does not end in white space or `@`. */
  predicate PlainAnchor(a: string) {
    a == [] || (!IsSpace(a[|a| - 1]) && a[|a| - 1] != '@')
  }

  /** A path the header line returns whole. */
  predicate PlainPath(p: string) {
    p != [] && !IsSpace(p[|p| - 1])
  }

  predicate PlainHunk(h: Hunk) {
    PlainAnchor(h.anchor) && forall k | 0 <= k < |h.body| :: Survives(h.body[k])
  }

  predicate PlainFile(f: FilePatch) {
    PlainPath(f.path) && forall k | 0 <= k < |f.hunks| :: PlainHunk(f.hunks[k])
  }

  lemma {:induction false} ParseAppend(a: seq<string>, b: seq<string>, st: Parsed)
    requires st.Valid()
    ensures var r := ParseLines(a, st); ParseLines(a + b, st) == if r.Refused? then r else ParseLines(b, r.value)
  {
    hide Step;
    if a == [] {
      assert a + b == b;
    } else {
      assert (a + b)[1..] == a[1..] + b;
      if Step(st, a[0]).Ok? {
        ParseAppend(a[1..], b, Step(st, a[0]).value);
      }
    }
  }

  lemma {:induction false} StripKeepsLast(a: string)
    requires a != [] && !IsSpace(a[|a| - 1])
    ensures Strip(a) != [] && Strip(a)[|Strip(a)| - 1] == a[|a| - 1]
  {
    if IsSpace(a[0]) {
      StripKeepsLast(a[1..]);
    }
  }

  lemma {:induction false} AnchorReadsBack(a: string)
    requires PlainAnchor(a)
    ensures ShortestAnchor(a) == a
  {
    if a != [] {
      hide IsSpace, Strip;
      StripKeepsLast(a);
      AnchorReadsBack(a[1..]);
      assert [a[0]] + a[1..] == a;
    }
  }

  /** A character that is no white space survives stripping. */
  lemma StripKeeps(s: string, k: nat)
    requires k < |s| && !IsSpace(s[k])
    ensures s[k] in Strip(s)
  {
    hide Strip, IsSpace;
    assert !Blank(s);
    var i, j := Outermost(s);
    StripIs(s, i, j);
    assert forall x | 0 <= x < i :: s[..i][x] == s[x];
    assert forall x | j <= x < |s| :: s[j..][x - j] == s[x];
    assert s[i..j][k - i] == s[k];
  }

  lemma NotATail(s: string, k: nat)
    requires k < |s| && !IsSpace(s[k]) && s[k] != '@'
    ensures !MarkerTail(s)
  {
    hide IsSpace, Strip;
    StripKeeps(s, k);
  }

  lemma {:induction false} ClosedAnchorReads(a: string, close: string)
    requires PlainAnchor(a) && MarkerTail(close)
    ensures ShortestAnchor(a + close) == a
  {
    if a == [] {
      assert a + close == close;
    } else {
      hide IsSpace, MarkerTail;
      var s := a + close;
      NotATail(s, |a| - 1);
      assert s[1..] == a[1..] + close;
      ClosedAnchorReads(a[1..], close);
      assert [a[0]] + a[1..] == a;
    }
  }

  /** A marker names its anchor with or without a closing `@@`, and with or without a space behind the opening one. */
  lemma MarkerReads(a: string, close: string)
    requires PlainAnchor(a) && Strip(close) in ["", "@", "@@"]
    ensures MarkerAnchor("@@ " + a + close) == a
    ensures a != [] && !IsSpace(a[0]) ==> MarkerAnchor("@@" + a + close) == a
  {
    hide ShortestAnchor, Strip;
    ClosedAnchorReads(a, close);
    var spaced, bare := "@@ " + a + close, "@@" + a + close;
    assert spaced[2] == ' ' && spaced[2..][1..] == a + close;
    assert bare[2..] == a + close;
    if a != [] {
      assert bare[2] == a[0];
    }
  }

  /** A file header names its path with or without the `a/` or `b/` before it. */
  lemma HeaderNames(p: string, before: string)
    requires PlainPath(p) && !IsSpace(p[0]) && before in ["", "a/", "b/"]
    requires before == "" ==> !StartsWith(p, "a/") && !StartsWith(p, "b/")
    ensures StripAb(Strip(("+++ " + before + p)[4..])) == p
  {
    var s := before + p;
    assert ("+++ " + before + p)[4..] == s;
    StripIs(s, 0, |s|);
    assert s[0..|s|] == s && s[|before|..] == p;
  }

  /** What is no header, no marker and has no mark: skipped before the first hunk of a file, and inside a hunk a context
      line with all its text. A line that starts with `--- ` is skipped everywhere. */
  lemma OtherLines(st: Parsed, raw: string)
    requires st.Valid()
    ensures Step(st, "--- " + raw) == Ok(st)
    ensures !st.inHunk && !StartsWith(raw, "+++ ") && !StartsWith(raw, "@@") ==> Step(st, raw) == Ok(st)
    ensures st.inHunk && (raw == "" || raw[0] !in ['+', '-', '@', ' ']) ==>
      Step(st, raw) == Ok(st.AddLine(BodyLine(Context, raw)))
  {
    assert ("--- " + raw)[..4] == "--- ";
  }

  /** A block whose lines parse is malformed exactly when no file of it has a hunk. */
  lemma MalformedWithoutHunks(block: string, p: Parsed)
    requires ParseLines(SplitLines(block), Parsed([], false)) == Ok(p)
    ensures Parse(block) == if forall f | f in p.files :: f.hunks == [] then Refused(Malformed) else Ok(p.files)
  {
    hide ParseLines, SplitLines;
    if HasHunk(p.files) {
      var k :| 0 <= k < |p.files| && p.files[k].hunks != [];
      assert p.files[k] in p.files;
    }
  }

  lemma PathReadsBack(p: string)
    requires PlainPath(p)
    ensures StripAb(Strip(("+++ b/" + p)[4..])) == p
  {
    var s := "b/" + p;
    assert ("+++ b/" + p)[4..] == s;
    StripIs(s, 0, |s|);
    assert s[0..|s|] == s && s[2..] == p;
  }

  function OpenHunk(fs: seq<FilePatch>, path: string, hs: seq<Hunk>): Parsed {
    Parsed(fs + [FilePatch(path, hs)], hs != [])
  }

  lemma {:induction false} BodyParses(fs: seq<FilePatch>, path: string, hs: seq<Hunk>, anchor: string,
                                      body: seq<BodyLine>)
    requires forall k | 0 <= k < |body| :: Survives(body[k])
    ensures ParseLines(Marked(body), OpenHunk(fs, path, hs + [Hunk(anchor, [])]))
         == Ok(OpenHunk(fs, path, hs + [Hunk(anchor, body)]))
    decreases |body|
  {
    hide Step, Survives;
    var st := OpenHunk(fs, path, hs + [Hunk(anchor, [])]);
    if body != [] {
      var init, b := body[..|body| - 1], body[|body| - 1];
      BodyParses(fs, path, hs, anchor, init);
      assert Marked(body) == Marked(init) + [Mark(b)];
      ParseAppend(Marked(init), [Mark(b)], st);
      var mid := OpenHunk(fs, path, hs + [Hunk(anchor, init)]);
      BodyLineReadBackIff(mid, b);
      assert mid.AddLine(b) == OpenHunk(fs, path, hs + [Hunk(anchor, body)]) by {
        assert init + [b] == body;
        assert (hs + [Hunk(anchor, init)])[|hs| := Hunk(anchor, body)] == hs + [Hunk(anchor, body)];
        assert (fs + [FilePatch(path, hs + [Hunk(anchor, init)])])[|fs| := FilePatch(path, hs + [Hunk(anchor, body)])]
            == fs + [FilePatch(path, hs + [Hunk(anchor, body)])];
      }
      OneLineParse(Mark(b), mid);
    }
  }

  lemma OneLineParse(raw: string, st: Parsed)
    requires st.Valid()
    ensures ParseLines([raw], st) == Step(st, raw)
  {
    hide Step;
    assert [raw][1..] == [];
    var s := Step(st, raw);
    if s.Ok? {
      assert ParseLines([], s.value) == s;
    }
  }

  lemma HunkParses(fs: seq<FilePatch>, path: string, hs: seq<Hunk>, h: Hunk)
    requires PlainHunk(h)
    ensures ParseLines(IllustrateHunk(h), OpenHunk(fs, path, hs)) == Ok(OpenHunk(fs, path, hs + [h]))
  {
    hide ShortestAnchor, Survives;
    var st, raw := OpenHunk(fs, path, hs), "@@ " + h.anchor;
    AnchorReadsBack(h.anchor);
    assert raw[2..][1..] == h.anchor;
    assert MarkerAnchor(raw) == h.anchor;
    var begun := OpenHunk(fs, path, hs + [Hunk(h.anchor, [])]);
    assert Step(st, raw) == Ok(begun) by {
      assert st.files[|fs| := FilePatch(path, hs + [Hunk(h.anchor, [])])] == begun.files;
    }
    OneLineParse(raw, st);
    ParseAppend([raw], Marked(h.body), st);
    BodyParses(fs, path, hs, h.anchor, h.body);
  }

  lemma {:induction false} HunksParse(fs: seq<FilePatch>, path: string, hs: seq<Hunk>)
    requires forall k | 0 <= k < |hs| :: PlainHunk(hs[k])
    ensures ParseLines(IllustrateHunks(hs), OpenHunk(fs, path, [])) == Ok(OpenHunk(fs, path, hs))
    decreases |hs|
  {
    hide IllustrateHunk, Step, PlainHunk;
    if hs != [] {
      var init, h := hs[..|hs| - 1], hs[|hs| - 1];
      HunksParse(fs, path, init);
      ParseAppend(IllustrateHunks(init), IllustrateHunk(h), OpenHunk(fs, path, []));
      HunkParses(fs, path, init, h);
      assert init + [h] == hs;
    }
  }

  lemma {:induction false} FilesParse(fs: seq<FilePatch>)
    requires forall k | 0 <= k < |fs| :: PlainFile(fs[k])
    ensures var r := ParseLines(Illustrate(fs), Parsed([], false)); r.Ok? && r.value.files == fs
    decreases |fs|
  {
    hide IllustrateHunks, PlainHunk;
    if fs != [] {
      var init, f := fs[..|fs| - 1], fs[|fs| - 1];
      FilesParse(init);
      assert PlainFile(f);
      var st := ParseLines(Illustrate(init), Parsed([], false)).value;
      var head, l1, l2 := Illustrate(init), "--- a/" + f.path, "+++ b/" + f.path;
      ParseAppend(head, [l1, l2] + IllustrateHunks(f.hunks), Parsed([], false));
      ParseAppend([l1, l2], IllustrateHunks(f.hunks), st);
      assert [l1, l2] == [l1] + [l2];
      ParseAppend([l1], [l2], st);
      OneLineParse(l1, st);
      OneLineParse(l2, st);
      HeaderParses(st, f.path);
      HunksParse(init, f.path, f.hunks);
      assert init + [f] == fs;
    }
  }

  lemma HeaderParses(st: Parsed, path: string)
    requires st.Valid() && PlainPath(path)
    ensures Step(st, "--- a/" + path) == Ok(st)
    ensures Step(st, "+++ b/" + path) == Ok(OpenHunk(st.files, path, []))
  {
    hide Strip, StripAb, MarkerAnchor;
    PathReadsBack(path);
    var l1, l2 := "--- a/" + path, "+++ b/" + path;
    assert l1[..4] == "--- " && l2[..4] == "+++ " && l2[0] == '+';
  }

  /** Writing patches as an illustrative diff and parsing it returns the patches. */
  lemma {:induction false} ParseOfIllustration(fs: seq<FilePatch>)
    requires HasHunk(fs) && forall k | 0 <= k < |fs| :: PlainFile(fs[k])
    requires forall l | l in Illustrate(fs) :: NoBreak(l)
    ensures Parse(Join(Illustrate(fs))) == Ok(fs)
  {
    hide PlainFile, ParseLines, Illustrate;
    FilesParse(fs);
    LastLineNonEmpty(fs);
    SplitLinesOfJoin(Illustrate(fs));
  }

  lemma LastLineNonEmpty(fs: seq<FilePatch>)
    requires fs != []
    ensures Illustrate(fs) != [] && Illustrate(fs)[|Illustrate(fs)| - 1] != []
  {
    var f := fs[|fs| - 1];
    if f.hunks != [] {
      var h := f.hunks[|f.hunks| - 1];
      var last := IllustrateHunk(h);
      assert last[|last| - 1] != [];
    }
  }

  /** No text of such lines holds a numbered hunk header. */
  lemma {:induction false} NoHeaderNoRealHunk(lines: seq<string>)
    requires forall l | l in lines :: '\n' !in l && !StartsWith(l, "@@ -")
    ensures !HasRealHunk(Join(lines))
  {
    hide RealHunkAt;
    if lines == [] {
      NotAHeader([], []);
      assert Join(lines) == [] && [] + [] == Join(lines);
    } else if |lines| == 1 {
      assert lines[0] + [] == lines[0];
      LineWithoutHeader(lines[0], [], true);
    } else {
      NoHeaderNoRealHunk(lines[1..]);
      LineWithoutHeader(lines[0], "\n" + Join(lines[1..]), true);
      assert lines[0] + ("\n" + Join(lines[1..])) == Join(lines);
    }
  }

  /** A line that does not start a header, and what follows it: the end of the text, or a newline and no header. */
  lemma {:induction false} LineWithoutHeader(l: string, rest: string, lineStart: bool)
    requires '\n' !in l && (lineStart ==> !StartsWith(l, "@@ -"))
    requires rest == [] || (rest[0] == '\n' && !HasRealHunk(rest[1..]))
    ensures !HasRealHunk(l + rest, lineStart)
    decreases |l|
  {
    hide RealHunkAt;
    if lineStart {
      NotAHeader(l, rest);
    }
    if l == [] {
      assert l + rest == rest;
      if rest != [] {
        NotAHeader([], rest);
      }
    } else {
      assert (l + rest)[1..] == l[1..] + rest && (l + rest)[0] == l[0];
      LineWithoutHeader(l[1..], rest, false);
    }
  }

  lemma NotAHeader(l: string, rest: string)
    requires '\n' !in l && !StartsWith(l, "@@ -") && (rest == [] || rest[0] == '\n')
    ensures !RealHunkAt(l + rest)
  {
    var t := l + rest;
    if |l| < 4 && |t| >= 4 {
      assert t[..4][|l|] == '\n';
    } else if |l| >= 4 {
      assert t[..4] == l[..4];
    }
  }

  /** A block of two sections for one file, each with one insertion below its first line. */
  function TwiceBlock(x: string, y: string): string {
    Join(["--- a/f", "+++ b/f", "@@ a", "+" + x, "--- a/f", "+++ b/f", "@@ a", "+" + y])
  }

  /** The block is accepted, each of its sections is applicable to the file, and the patch emitted for it does not
      apply. */
  lemma BlockNamingAFileTwice(files: map<string, string>, x: string, y: string)
    requires NoBreak(x) && NoBreak(y) && x != "b" && !StartsWith(x, "++ ") && !StartsWith(y, "++ ")
    requires "f" in files && files["f"] == TwoLines()
    ensures var r := ReconstructSpec(TwiceBlock(x, y), files);
      && r.Ok? && Parse(TwiceBlock(x, y)).Ok? && AllApplicable(Parse(TwiceBlock(x, y)).value, files)
      && ApplyPatchText(files, r.value) == None
  {
    hide TwoLines, SectionsSpec, InTurn, AllApplicable, ApplyPatchText, HasRealHunk, Parse, Join, RenderSections,
      TwiceBlock, TwoInsertions, EditedFiles, NamedOnce;
    var fps := InsertionsParsed(x, y);
    FileNamedTwiceIsNumberedTwice(fps, files, x, y);
    EmittedTextAppliesAsTheBlockSays(TwiceBlock(x, y), files);
  }

  lemma InsertionsParsed(x: string, y: string) returns (fps: seq<FilePatch>)
    requires NoBreak(x) && NoBreak(y) && !StartsWith(x, "++ ") && !StartsWith(y, "++ ")
    ensures TwoInsertions(fps, x, y) && Parse(TwiceBlock(x, y)) == Ok(fps) && !HasRealHunk(TwiceBlock(x, y))
  {
    var f := FilePatch("f", [Hunk("a", [BodyLine(Addition, x)])]);
    var g := FilePatch("f", [Hunk("a", [BodyLine(Addition, y)])]);
    fps := [f, g];
    var lines := ["--- a/f", "+++ b/f", "@@ a", "+" + x, "--- a/f", "+++ b/f", "@@ a", "+" + y];
    InsertionIllustrated(f, x);
    InsertionIllustrated(g, y);
    assert fps[..1] == [f] && [f][..0] == [] && Illustrate([]) == [];
    hide IllustrateHunks;
    assert "--- a/" + "f" == "--- a/f" && "+++ b/" + "f" == "+++ b/f";
    assert Illustrate([f]) == ["--- a/f", "+++ b/f"] + ["@@ a", "+" + x];
    assert Illustrate(fps) == Illustrate([f]) + (["--- a/f", "+++ b/f"] + ["@@ a", "+" + y]);
    assert Illustrate(fps) == lines;
    hide Illustrate, HasRealHunk, ParseLines;
    TwiceLines(x, y, lines);
    ParseOfIllustration(fps);
    NoHeaderNoRealHunk(lines);
  }

  lemma InsertionIllustrated(f: FilePatch, x: string)
    requires f == FilePatch("f", [Hunk("a", [BodyLine(Addition, x)])]) && !StartsWith(x, "++ ")
    ensures PlainFile(f) && IllustrateHunks(f.hunks) == ["@@ a", "+" + x]
  {
    var h := f.hunks[0];
    assert f.hunks[..0] == [] && IllustrateHunks([]) == [];
    assert Marked(h.body) == ["+" + x];
    assert "@@ " + "a" == "@@ a";
    assert IllustrateHunk(h) == ["@@ a"] + ["+" + x];
    assert PlainHunk(h) && PlainPath("f");
  }

  lemma TwiceLines(x: string, y: string, lines: seq<string>)
    requires NoBreak(x) && NoBreak(y)
    requires lines == ["--- a/f", "+++ b/f", "@@ a", "+" + x, "--- a/f", "+++ b/f", "@@ a", "+" + y]
    ensures forall l | l in lines :: NoBreak(l) && '\n' !in l && !StartsWith(l, "@@ -")
  {
    forall l | l in lines ensures NoBreak(l) && '\n' !in l && !StartsWith(l, "@@ -") {
      assert l == "--- a/f" || l == "+++ b/f" || l == "@@ a" || l == "+" + x || l == "+" + y;
      assert l == "@@ a" || l[0] == '-' || l[0] == '+';
      assert "@@ -"[0] == '@' && "@@ -"[3] == '-' && "@@ a"[3] == 'a';
    }
  }
}
