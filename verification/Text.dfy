/** Strings as the Python sources use them: `str.strip`, `str.splitlines`, `str.split`,
    `"\n".join`, decimal integers, and the order `sorted` puts on strings. */
module Text {

  /** `str.isspace` on one character; `\s` in a regular expression matches the same set. */
  predicate IsSpace(c: char) {
    || '\t' <= c <= '\r'
    || '\U{1c}' <= c <= '\U{20}'
    || '\U{2000}' <= c <= '\U{200a}'
    || '\U{2028}' <= c <= '\U{2029}'
    || c == '\U{85}' || c == '\U{a0}' || c == '\U{1680}' || c == '\U{202f}' || c == '\U{205f}' || c == '\U{3000}'
  }

  /** The boundaries `str.splitlines` cuts at. */
  predicate IsLineBreak(c: char) {
    || '\n' <= c <= '\r'
    || '\U{1c}' <= c <= '\U{1e}'
    || '\U{2028}' <= c <= '\U{2029}'
    || c == '\U{85}'
  }

  predicate NoBreak(s: string) {
    forall i | 0 <= i < |s| :: !IsLineBreak(s[i])
  }

  predicate Blank(s: string) {
    forall i | 0 <= i < |s| :: IsSpace(s[i])
  }

  predicate StartsWith(s: string, p: string) {
    p <= s
  }

  lemma Assoc<T>(a: seq<T>, b: seq<T>, c: seq<T>)
    ensures a + b + c == a + (b + c)
  {
  }

  // ---- strip -------------------------------------------------------------

  function LStrip(s: string): string {
    if s != [] && IsSpace(s[0]) then LStrip(s[1..]) else s
  }

  function RStrip(s: string): string {
    if s != [] && IsSpace(s[|s| - 1]) then RStrip(s[..|s| - 1]) else s
  }

  function Strip(s: string): string {
    RStrip(LStrip(s))
  }

  lemma {:induction false} LStripIs(s: string, k: nat)
    requires k <= |s| && Blank(s[..k]) && (k == |s| || !IsSpace(s[k]))
    ensures LStrip(s) == s[k..]
  {
    if k > 0 {
      assert s[..k][0] == s[0];
      assert s[1..][..k - 1] == s[..k][1..];
      LStripIs(s[1..], k - 1);
      assert s[1..][k - 1..] == s[k..];
    }
  }

  lemma {:induction false} RStripIs(s: string, k: nat)
    requires k <= |s| && Blank(s[k..]) && (k == 0 || !IsSpace(s[k - 1]))
    ensures RStrip(s) == s[..k]
  {
    if k < |s| {
      var t := s[..|s| - 1];
      assert s[k..][|s| - 1 - k] == s[|s| - 1];
      assert t[k..] == s[k..][..|s| - 1 - k];
      RStripIs(t, k);
      assert t[..k] == s[..k];
    } else {
      assert s[..k] == s;
    }
  }

  /** What `strip` keeps when the text is not blank: the stretch between its outer non-space characters. */
  lemma StripIs(s: string, i: nat, j: nat)
    requires i < j <= |s| && Blank(s[..i]) && Blank(s[j..]) && !IsSpace(s[i]) && !IsSpace(s[j - 1])
    ensures Strip(s) == s[i..j]
  {
    LStripIs(s, i);
    assert s[i..][j - i..] == s[j..] && s[i..][..j - i] == s[i..j];
    RStripIs(s[i..], j - i);
  }

  lemma StripOfBlank(s: string)
    requires Blank(s)
    ensures Strip(s) == []
  {
    assert s[..|s|] == s;
    LStripIs(s, |s|);
  }

  /** A text with a character that is no white space has an outermost pair of them. */
  lemma {:induction false} Outermost(s: string) returns (i: nat, j: nat)
    requires !Blank(s)
    ensures i < j <= |s| && Blank(s[..i]) && Blank(s[j..]) && !IsSpace(s[i]) && !IsSpace(s[j - 1])
  {
    if !IsSpace(s[0]) && !IsSpace(s[|s| - 1]) {
      i, j := 0, |s|;
    } else if IsSpace(s[0]) {
      var t := s[1..];
      assert s == [s[0]] + t;
      i, j := Outermost(t);
      OneBefore(s[0], t, i, j);
      i, j := i + 1, j + 1;
    } else {
      var t := s[..|s| - 1];
      assert s == t + [s[|s| - 1]];
      i, j := Outermost(t);
      OneBehind(t, s[|s| - 1], i, j);
    }
  }

  /** Stripping leaves nothing exactly of a blank text, and nothing more the second time. */
  lemma StripEmptiesBlanks(s: string)
    ensures Strip(s) == [] <==> Blank(s)
    ensures Strip(Strip(s)) == [] <==> Blank(s)
  {
    hide Strip;
    if Blank(s) {
      StripOfBlank(s);
      StripOfBlank([]);
    } else {
      var i, j := Outermost(s);
      StripIs(s, i, j);
      StripIs(s[i..j], 0, j - i);
    }
  }

  lemma OneBefore(c: char, t: string, i: nat, j: nat)
    requires i < j <= |t| && Blank(t[..i]) && Blank(t[j..]) && IsSpace(c)
    ensures Blank(([c] + t)[..i + 1]) && Blank(([c] + t)[j + 1..])
  {
    hide IsSpace;
    assert ([c] + t)[..i + 1] == [c] + t[..i] && ([c] + t)[j + 1..] == t[j..];
  }

  lemma OneBehind(t: string, c: char, i: nat, j: nat)
    requires i < j <= |t| && Blank(t[..i]) && Blank(t[j..]) && IsSpace(c)
    ensures Blank((t + [c])[..i]) && Blank((t + [c])[j..])
  {
    hide IsSpace;
    assert (t + [c])[..i] == t[..i] && (t + [c])[j..] == t[j..] + [c];
  }

  // ---- split and join ----------------------------------------------------

  function FirstBreak(s: string): (k: nat)
    ensures k <= |s| && NoBreak(s[..k]) && (k < |s| ==> IsLineBreak(s[k]))
  {
    if s == [] || IsLineBreak(s[0]) then 0
    else
      var k := FirstBreak(s[1..]);
      assert s[..k + 1] == [s[0]] + s[1..][..k];
      k + 1
  }

  lemma {:induction false} FirstBreakIs(s: string, k: nat)
    requires k <= |s| && NoBreak(s[..k]) && (k < |s| ==> IsLineBreak(s[k]))
    ensures FirstBreak(s) == k
  {
    if k > 0 {
      assert s[..k][0] == s[0];
      assert s[1..][..k - 1] == s[..k][1..];
      FirstBreakIs(s[1..], k - 1);
    }
  }

  /** `str.splitlines`: "\r\n" is one boundary, and a final boundary opens no line. */
  function SplitLines(s: string): (ls: seq<string>)
    ensures forall l | l in ls :: NoBreak(l)
  {
    if s == [] then []
    else
      var k := FirstBreak(s);
      if k == |s| then
        assert s[..k] == s;
        [s]
      else
        var w := if s[k] == '\r' && k + 1 < |s| && s[k + 1] == '\n' then 2 else 1;
        [s[..k]] + SplitLines(s[k + w..])
  }

  /** `str.split(sep)` for a one-character separator: always at least one piece. */
  function SplitOn(s: string, sep: char): (ls: seq<string>)
    ensures |ls| >= 1
    ensures forall l | l in ls :: sep !in l
  {
    if s == [] then [[]]
    else
      var rest := SplitOn(s[1..], sep);
      if s[0] == sep then [[]] + rest
      else [[s[0]] + rest[0]] + rest[1..]
  }

  /** `"\n".join(lines)`. */
  function Join(lines: seq<string>): string {
    if lines == [] then []
    else if |lines| == 1 then lines[0]
    else lines[0] + "\n" + Join(lines[1..])
  }

  lemma {:induction false} JoinAppend(a: seq<string>, b: seq<string>)
    requires a != [] && b != []
    ensures Join(a + b) == Join(a) + "\n" + Join(b)
  {
    if |a| == 1 {
      assert (a + b)[1..] == b;
    } else {
      assert (a + b)[1..] == a[1..] + b;
      JoinAppend(a[1..], b);
      assert Join(a + b) == a[0] + "\n" + (Join(a[1..]) + "\n" + Join(b));
      assert Join(a + b) == Join(a) + "\n" + Join(b);
    }
  }

  lemma {:induction false} SplitLinesOfJoin(lines: seq<string>)
    requires forall l | l in lines :: NoBreak(l)
    requires lines != [] ==> lines[|lines| - 1] != []
    ensures SplitLines(Join(lines)) == lines
  {
    if lines == [] {
    } else if |lines| == 1 {
      var l := lines[0];
      assert l[..|l|] == l;
      FirstBreakIs(l, |l|);
    } else {
      var l, s := lines[0], Join(lines);
      assert s == l + ("\n" + Join(lines[1..]));
      assert s[..|l|] == l;
      FirstBreakIs(s, |l|);
      assert s[|l| + 1..] == Join(lines[1..]);
      SplitLinesOfJoin(lines[1..]);
    }
  }

  /** Joining the pieces between newlines gives the text back. */
  lemma {:induction false} JoinOfSplitOn(s: string)
    ensures Join(SplitOn(s, '\n')) == s
  {
    if s == [] {
      JoinOne([]);
    } else {
      hide Join;
      var rest := SplitOn(s[1..], '\n');
      JoinOfSplitOn(s[1..]);
      assert s == [s[0]] + s[1..];
      if s[0] == '\n' {
        JoinAfterBreak(rest);
      } else {
        JoinOnto(s[0], rest);
      }
    }
  }

  lemma JoinOne(l: string)
    ensures Join([l]) == l
  {
  }

  lemma JoinAfterBreak(ls: seq<string>)
    requires ls != []
    ensures Join([[]] + ls) == "\n" + Join(ls)
  {
    assert ([[]] + ls)[1..] == ls;
  }

  lemma JoinOnto(c: char, ls: seq<string>)
    requires ls != []
    ensures Join([[c] + ls[0]] + ls[1..]) == [c] + Join(ls)
  {
    var onto := [[c] + ls[0]] + ls[1..];
    assert onto[1..] == ls[1..];
    if |ls| > 1 {
      assert Join(onto) == [c] + ls[0] + "\n" + Join(ls[1..]);
      assert Join(ls) == ls[0] + "\n" + Join(ls[1..]);
      hide Join;
      Assoc([c], ls[0] + "\n", Join(ls[1..]));
      Assoc([c], ls[0], "\n");
    }
  }

  lemma {:induction false} SplitOnPiece(l: string, rest: string, sep: char)
    requires sep !in l
    ensures SplitOn(l + [sep] + rest, sep) == [l] + SplitOn(rest, sep)
  {
    var s := l + [sep] + rest;
    if l == [] {
      assert s[1..] == rest;
    } else {
      assert s[1..] == l[1..] + [sep] + rest;
      SplitOnPiece(l[1..], rest, sep);
      assert [l[0]] + l[1..] == l;
    }
  }

  /** A text written as lines, each ended by a newline, splits back into those lines. */
  lemma {:induction false} SplitOnOfJoin(lines: seq<string>)
    requires lines != []
    requires forall l | l in lines :: '\n' !in l
    ensures SplitOn(Join(lines) + "\n", '\n') == lines + [[]]
  {
    if |lines| == 1 {
      SplitOnPiece(lines[0], [], '\n');
      assert lines[0] + ['\n'] + [] == Join(lines) + "\n";
    } else {
      hide SplitOn;
      var tail := Join(lines[1..]);
      SplitOnPiece(lines[0], tail + "\n", '\n');
      assert Join(lines) == lines[0] + "\n" + tail;
      assert lines[0] + "\n" + tail + "\n" == lines[0] + ['\n'] + (tail + "\n");
      SplitOnOfJoin(lines[1..]);
    }
  }

  // ---- decimal numbers ---------------------------------------------------

  predicate IsDigit(c: char) {
    '0' <= c <= '9'
  }

  function Digit(d: nat): (c: char)
    requires d < 10
    ensures IsDigit(c)
  {
    '0' + d as char
  }

  function DecimalNat(n: nat): (s: string)
    ensures s != [] && forall i | 0 <= i < |s| :: IsDigit(s[i])
  {
    if n < 10 then [Digit(n)] else DecimalNat(n / 10) + [Digit(n % 10)]
  }

  /** `str(n)`. */
  function Decimal(n: int): string {
    if n < 0 then "-" + DecimalNat(-n) else DecimalNat(n)
  }

  function NatValue(s: string): nat
    requires forall i | 0 <= i < |s| :: IsDigit(s[i])
  {
    if s == [] then 0
    else
      assert IsDigit(s[|s| - 1]);
      10 * NatValue(s[..|s| - 1]) + (s[|s| - 1] - '0') as nat
  }

  lemma {:induction false} NatValueOfDecimal(n: nat)
    ensures NatValue(DecimalNat(n)) == n
  {
    if n >= 10 {
      var s := DecimalNat(n);
      assert s[..|s| - 1] == DecimalNat(n / 10);
      NatValueOfDecimal(n / 10);
    } else {
      assert DecimalNat(n)[..0] == [];
    }
  }

  /** How many characters at the front of `s` are digits. */
  function DigitRun(s: string): (k: nat)
    ensures k <= |s| && (forall i | 0 <= i < k :: IsDigit(s[i])) && (k < |s| ==> !IsDigit(s[k]))
  {
    if s == [] || !IsDigit(s[0]) then 0 else 1 + DigitRun(s[1..])
  }

  /** Reads the number at the front of a text that goes on with something that is not a digit. */
  lemma {:induction false} DigitRunIs(d: string, rest: string)
    requires forall i | 0 <= i < |d| :: IsDigit(d[i])
    requires rest == [] || !IsDigit(rest[0])
    ensures DigitRun(d + rest) == |d|
  {
    if d == [] {
      assert d + rest == rest;
    } else {
      assert (d + rest)[1..] == d[1..] + rest;
      DigitRunIs(d[1..], rest);
    }
  }

  // ---- the order on strings ----------------------------------------------

  /** Python's `<=` on strings. */
  predicate Leq(a: string, b: string) {
    a == [] || (b != [] && (a[0] < b[0] || (a[0] == b[0] && Leq(a[1..], b[1..]))))
  }

  /** It is decided where the two first differ: by the characters there, or by who ends first. */
  lemma {:induction false} LeqIsDecidedAt(a: string, b: string, k: nat)
    requires k <= |a| && k <= |b| && a[..k] == b[..k]
    ensures k == |a| ==> Leq(a, b)
    ensures k == |b| < |a| ==> !Leq(a, b)
    ensures k < |a| && k < |b| && a[k] != b[k] ==> (Leq(a, b) <==> a[k] < b[k])
  {
    if k > 0 {
      assert a[0] == a[..k][0] && b[0] == b[..k][0];
      assert a[1..][..k - 1] == a[..k][1..] && b[1..][..k - 1] == b[..k][1..];
      LeqIsDecidedAt(a[1..], b[1..], k - 1);
    }
  }

  lemma {:induction false} LeqTotal(a: string, b: string)
    ensures Leq(a, b) || Leq(b, a)
    ensures Leq(a, b) && Leq(b, a) ==> a == b
  {
    if a != [] && b != [] {
      LeqTotal(a[1..], b[1..]);
      assert a == [a[0]] + a[1..] && b == [b[0]] + b[1..];
    }
  }

  lemma {:induction false} LeqTransitive(a: string, b: string, c: string)
    requires Leq(a, b) && Leq(b, c)
    ensures Leq(a, c)
  {
    if a != [] && a[0] == b[0] == c[0] {
      LeqTransitive(a[1..], b[1..], c[1..]);
    }
  }
}
