/** The Python `str` operations the source relies on, over Unicode scalar
    values: `isspace`, `strip()`, `splitlines()`, `split("  ")`, `sep.join`,
    the substring test `t in s`, and ASCII `lower()`. */
module Strings {
  import opened Seqs

  /** Python's `str.isspace` for one character: ASCII 9-13 and 28-32, and the
      Unicode separators and spaces U+0085, U+00A0, U+1680, U+2000-U+200A,
      U+2028, U+2029, U+202F, U+205F and U+3000. */
  predicate IsSpace(c: char) {
    || ('\t' <= c <= '\r')
    || ('\U{1c}' <= c <= ' ')
    || c == '\U{85}' || c == '\U{a0}' || c == '\U{1680}'
    || ('\U{2000}' <= c <= '\U{200a}')
    || c == '\U{2028}' || c == '\U{2029}' || c == '\U{202f}' || c == '\U{205f}'
    || c == '\U{3000}'
  }

  /** The line boundaries of Python's `str.splitlines`: LF, VT, FF, CR, the
      file/group/record separators U+001C-U+001E, NEL, LS and PS. Every line
      boundary is whitespace. */
  predicate IsLineBreak(c: char)
    ensures IsLineBreak(c) ==> IsSpace(c)
  {
    || ('\n' <= c <= '\r')
    || ('\U{1c}' <= c <= '\U{1e}')
    || c == '\U{85}' || c == '\U{2028}' || c == '\U{2029}'
  }

  predicate Blank(s: string) {
    forall k :: 0 <= k < |s| ==> IsSpace(s[k])
  }

  predicate NoLineBreak(s: string) {
    forall k :: 0 <= k < |s| ==> !IsLineBreak(s[k])
  }

  predicate NoDoubleSpace(s: string) {
    forall k :: 0 <= k < |s| - 1 ==> !(s[k] == ' ' && s[k + 1] == ' ')
  }

  /** Number of whitespace characters `s.lstrip()` removes. */
  function LeadingSpaces(s: string): (n: nat)
    ensures n <= |s|
    ensures forall k :: 0 <= k < n ==> IsSpace(s[k])
    ensures n < |s| ==> !IsSpace(s[n])
    decreases |s|
  {
    if |s| > 0 && IsSpace(s[0]) then 1 + LeadingSpaces(s[1..]) else 0
  }

  /** Length of what `s.rstrip()` keeps. */
  function ContentEnd(s: string): (n: nat)
    ensures n <= |s|
    ensures forall k :: n <= k < |s| ==> IsSpace(s[k])
    ensures n > 0 ==> !IsSpace(s[n - 1])
    decreases |s|
  {
    if |s| > 0 && IsSpace(s[|s| - 1]) then ContentEnd(s[..|s| - 1]) else |s|
  }

  /** `r` sits at offset `a` of `s`, with only whitespace before and after it. */
  predicate StrippedAt(s: string, r: string, a: int) {
    && 0 <= a <= |s| - |r|
    && r == s[a..a + |r|]
    && (forall k :: 0 <= k < a ==> IsSpace(s[k]))
    && (forall k :: a + |r| <= k < |s| ==> IsSpace(s[k]))
  }

  /** `s.strip()`: the inner part of `s` left once whitespace is removed
      from both ends. */
  function Strip(s: string): (r: string)
    ensures exists a :: StrippedAt(s, r, a)
    ensures r == [] <==> Blank(s)
    ensures r != [] ==> !IsSpace(r[0]) && !IsSpace(r[|r| - 1])
    ensures NoLineBreak(s) ==> NoLineBreak(r)
    ensures NoDoubleSpace(s) ==> NoDoubleSpace(r)
    ensures s == [] || (!IsSpace(s[0]) && !IsSpace(s[|s| - 1])) ==> r == s
  {
    var a := LeadingSpaces(s);
    var t := s[a..];
    var e := ContentEnd(t);
    var r := t[..e];
    StripFacts(s, a, t, e, r);
    r
  }

  /** What `Strip` needs from the two counts it combines. */
  lemma StripFacts(s: string, a: nat, t: string, e: nat, r: string)
    requires a <= |s| && t == s[a..] && e <= |t| && r == t[..e]
    requires forall k :: 0 <= k < a ==> IsSpace(s[k])
    requires a < |s| ==> !IsSpace(s[a])
    requires forall k :: e <= k < |t| ==> IsSpace(t[k])
    requires e > 0 ==> !IsSpace(t[e - 1])
    ensures exists a' :: StrippedAt(s, r, a')
    ensures r == [] <==> Blank(s)
    ensures r != [] ==> !IsSpace(r[0]) && !IsSpace(r[|r| - 1])
    ensures NoLineBreak(s) ==> NoLineBreak(r)
    ensures NoDoubleSpace(s) ==> NoDoubleSpace(r)
    ensures s == [] || (!IsSpace(s[0]) && !IsSpace(s[|s| - 1])) ==> r == s
  {
    assert r == s[a..a + e];
    forall k | a + e <= k < |s| ensures IsSpace(s[k]) {
      assert s[k] == t[k - a];
    }
    if e > 0 {
      assert s[a + e - 1] == t[e - 1];
      assert r[0] == s[a] && r[e - 1] == s[a + e - 1];
    }
    assert StrippedAt(s, r, a);
    SliceKeeps(s, a, a + e);
    if s != [] && !IsSpace(s[0]) && !IsSpace(s[|s| - 1]) {
      assert a == 0;
      assert a + e == |s|;
    }
  }

  /** A slice keeps the character-class facts of the whole string. */
  lemma SliceKeeps(s: string, a: int, b: int)
    requires 0 <= a <= b <= |s|
    ensures NoLineBreak(s) ==> NoLineBreak(s[a..b])
    ensures NoDoubleSpace(s) ==> NoDoubleSpace(s[a..b])
    ensures Blank(s) ==> Blank(s[a..b])
  {
    forall k | 0 <= k < b - a ensures s[a..b][k] == s[a + k] { }
  }

  /** `s` is blank exactly when both sides of a blank middle part are. */
  lemma BlankAround(s: string, i: int, j: int)
    requires 0 <= i <= j <= |s|
    requires forall k :: i <= k < j ==> IsSpace(s[k])
    ensures Blank(s) <==> Blank(s[..i]) && Blank(s[j..])
  {
    if Blank(s[..i]) && Blank(s[j..]) {
      forall k | 0 <= k < |s| ensures IsSpace(s[k]) {
        if k < i {
          assert s[k] == s[..i][k];
        } else if k >= j {
          assert s[k] == s[j..][k - j];
        }
      }
    }
    SliceKeeps(s, 0, i);
    SliceKeeps(s, j, |s|);
    assert s[..i] == s[0..i] && s[j..] == s[j..|s|];
  }

  predicate AllBlank(ps: seq<string>) {
    forall j :: 0 <= j < |ps| ==> Blank(ps[j])
  }

  predicate AllNoLineBreak(ps: seq<string>) {
    forall j :: 0 <= j < |ps| ==> NoLineBreak(ps[j])
  }

  predicate AllNoDoubleSpace(ps: seq<string>) {
    forall j :: 0 <= j < |ps| ==> NoDoubleSpace(ps[j])
  }

  lemma AllCons(x: string, rest: seq<string>)
    ensures AllBlank([x] + rest) <==> Blank(x) && AllBlank(rest)
    ensures AllNoLineBreak([x] + rest) <==> NoLineBreak(x) && AllNoLineBreak(rest)
    ensures AllNoDoubleSpace([x] + rest) <==> NoDoubleSpace(x) && AllNoDoubleSpace(rest)
  {
    var ps := [x] + rest;
    assert ps[0] == x;
    assert forall j :: 0 <= j < |rest| ==> ps[j + 1] == rest[j];
  }

  /** Index of the first line boundary of `s`, or `|s|` when there is none. */
  function FirstLineBreak(s: string): (i: nat)
    ensures i <= |s|
    ensures i < |s| ==> IsLineBreak(s[i])
    decreases |s|
  {
    if |s| == 0 || IsLineBreak(s[0]) then 0 else 1 + FirstLineBreak(s[1..])
  }

  /** No line boundary comes before the first one. */
  lemma {:induction false} BeforeFirstLineBreak(s: string)
    ensures forall k :: 0 <= k < FirstLineBreak(s) ==> !IsLineBreak(s[k])
    decreases |s|
  {
    if |s| > 0 && !IsLineBreak(s[0]) {
      BeforeFirstLineBreak(s[1..]);
      forall k | 1 <= k < FirstLineBreak(s) ensures !IsLineBreak(s[k]) {
        assert s[k] == s[1..][k - 1];
      }
    }
  }

  /** Width of the boundary at `i`: CR LF counts as one boundary. */
  function BreakWidth(s: string, i: nat): (w: nat)
    requires i < |s| && IsLineBreak(s[i])
    ensures 1 <= w <= 2 && i + w <= |s|
    ensures forall k :: i <= k < i + w ==> IsLineBreak(s[k])
  {
    if s[i] == '\r' && i + 1 < |s| && s[i + 1] == '\n' then 2 else 1
  }

  /** `s.splitlines()`: the text between boundaries, with no trailing empty
      line for a final boundary. */
  function SplitLines(s: string): (lines: seq<string>)
    ensures AllNoLineBreak(lines)
    ensures AllBlank(lines) <==> Blank(s)
    ensures NoLineBreak(s) ==> lines == (if s == [] then [] else [s])
    decreases |s|
  {
    if s == [] then []
    else
      var i := FirstLineBreak(s);
      BeforeFirstLineBreak(s);
      if i == |s| then
        assert s[..i] == s;
        assert [s][0] == s;
        [s]
      else
        var w := BreakWidth(s, i);
        var rest := SplitLines(s[i + w..]);
        SplitLinesStep(s, i, w, rest);
        [s[..i]] + rest
  }

  lemma SplitLinesStep(s: string, i: nat, w: nat, rest: seq<string>)
    requires i + w <= |s| && i < |s| && w >= 1
    requires forall k :: 0 <= k < i ==> !IsLineBreak(s[k])
    requires forall k :: i <= k < i + w ==> IsLineBreak(s[k])
    requires AllNoLineBreak(rest) && (AllBlank(rest) <==> Blank(s[i + w..]))
    ensures AllNoLineBreak([s[..i]] + rest)
    ensures AllBlank([s[..i]] + rest) <==> Blank(s)
    ensures !NoLineBreak(s)
  {
    AllCons(s[..i], rest);
    BlankAround(s, i, i + w);
    assert IsLineBreak(s[i]);
  }

  /** `s` without its line boundaries. */
  function DropLineBreaks(s: string): (r: string)
    decreases |s|
  {
    if |s| == 0 then []
    else if IsLineBreak(s[0]) then DropLineBreaks(s[1..])
    else [s[0]] + DropLineBreaks(s[1..])
  }

  /** The non-whitespace characters of `s`, in order. */
  function NonSpace(s: string): (r: string)
    decreases |s|
  {
    if |s| == 0 then []
    else if IsSpace(s[0]) then NonSpace(s[1..])
    else [s[0]] + NonSpace(s[1..])
  }

  lemma {:induction false} DropLineBreaksAppend(a: string, b: string)
    ensures DropLineBreaks(a + b) == DropLineBreaks(a) + DropLineBreaks(b)
    decreases |a|
  {
    if |a| == 0 {
      assert a + b == b;
    } else {
      var ab := a + b;
      assert ab[0] == a[0];
      assert ab[1..] == a[1..] + b;
      DropLineBreaksAppend(a[1..], b);
      if !IsLineBreak(a[0]) {
        assert DropLineBreaks(ab) == [a[0]] + (DropLineBreaks(a[1..]) + DropLineBreaks(b));
      }
    }
  }

  lemma {:induction false} NonSpaceAppend(a: string, b: string)
    ensures NonSpace(a + b) == NonSpace(a) + NonSpace(b)
    decreases |a|
  {
    if |a| == 0 {
      assert a + b == b;
    } else {
      var ab := a + b;
      assert ab[0] == a[0];
      assert ab[1..] == a[1..] + b;
      NonSpaceAppend(a[1..], b);
      if !IsSpace(a[0]) {
        assert NonSpace(ab) == [a[0]] + (NonSpace(a[1..]) + NonSpace(b));
      }
    }
  }

  lemma {:induction false} DropLineBreaksOfLine(s: string)
    requires NoLineBreak(s)
    ensures DropLineBreaks(s) == s
    decreases |s|
  {
    if |s| > 0 {
      assert !IsLineBreak(s[0]);
      assert NoLineBreak(s[1..]) by {
        forall k | 0 <= k < |s| - 1 ensures !IsLineBreak(s[1..][k]) {
          assert s[1..][k] == s[k + 1];
        }
      }
      DropLineBreaksOfLine(s[1..]);
      assert s == [s[0]] + s[1..];
    }
  }

  /** Dropping the line boundaries at the front of `s`. */
  lemma {:induction false} DropLeadingBreaks(s: string, w: nat)
    requires w <= |s|
    requires forall k :: 0 <= k < w ==> IsLineBreak(s[k])
    ensures DropLineBreaks(s) == DropLineBreaks(s[w..])
    decreases w
  {
    if w > 0 {
      assert IsLineBreak(s[0]);
      assert DropLineBreaks(s) == DropLineBreaks(s[1..]);
      assert s[1..][w - 1..] == s[w..];
      DropLeadingBreaks(s[1..], w - 1);
    }
  }

  lemma {:induction false} NonSpaceOfBlank(s: string)
    requires Blank(s)
    ensures NonSpace(s) == []
    decreases |s|
  {
    if |s| > 0 {
      assert IsSpace(s[0]);
      assert Blank(s[1..]) by {
        forall k | 0 <= k < |s| - 1 ensures IsSpace(s[1..][k]) {
          assert s[1..][k] == s[k + 1];
        }
      }
      NonSpaceOfBlank(s[1..]);
    }
  }

  /** The pieces of `s.splitlines()`, put back together, are `s` without
      its line boundaries. */
  lemma {:induction false} SplitLinesConcat(s: string)
    ensures Concat(SplitLines(s)) == DropLineBreaks(s)
    decreases |s|
  {
    if s != [] {
      var i := FirstLineBreak(s);
      BeforeFirstLineBreak(s);
      if i == |s| {
        SingleLineConcat(s);
      } else {
        var w := BreakWidth(s, i);
        SplitLinesUnfold(s, i, w);
        SplitLinesConcat(s[i + w..]);
        ConcatStep(s, i, w, SplitLines(s[i + w..]));
      }
    }
  }

  /** A text with no line boundary splits into itself. */
  lemma SingleLineConcat(s: string)
    requires NoLineBreak(s)
    ensures Concat(SplitLines(s)) == DropLineBreaks(s)
  {
    DropLineBreaksOfLine(s);
  }

  /** The first line of `s`, then the lines after its first boundary. */
  lemma SplitLinesUnfold(s: string, i: nat, w: nat)
    requires i == FirstLineBreak(s) && i < |s|
    requires w == BreakWidth(s, i)
    ensures SplitLines(s) == [s[..i]] + SplitLines(s[i + w..])
  {
  }



  /** One line and its boundary, then the pieces of the rest. */
  lemma ConcatStep(s: string, i: nat, w: nat, rest: seq<string>)
    requires i + w <= |s|
    requires forall k :: 0 <= k < i ==> !IsLineBreak(s[k])
    requires forall k :: i <= k < i + w ==> IsLineBreak(s[k])
    requires Concat(rest) == DropLineBreaks(s[i + w..])
    ensures Concat([s[..i]] + rest) == DropLineBreaks(s)
  {
    ConcatCons(s[..i], rest);
    DropBreakAt(s, i, w);
  }

  /** Dropping line boundaries from a line, its boundary and the rest. */
  lemma DropBreakAt(s: string, i: nat, w: nat)
    requires i + w <= |s|
    requires forall k :: 0 <= k < i ==> !IsLineBreak(s[k])
    requires forall k :: i <= k < i + w ==> IsLineBreak(s[k])
    ensures DropLineBreaks(s) == s[..i] + DropLineBreaks(s[i + w..])
  {
    var line, tail := s[..i], s[i..];
    assert NoLineBreak(line) by {
      forall k | 0 <= k < |line| ensures !IsLineBreak(line[k]) {
        assert line[k] == s[k];
      }
    }
    DropLineBreaksOfLine(line);
    assert s == line + tail;
    DropLineBreaksAppend(line, tail);
    forall k | 0 <= k < w ensures IsLineBreak(tail[k]) {
      assert tail[k] == s[i + k];
    }
    DropLeadingBreaks(tail, w);
    assert tail[w..] == s[i + w..];
  }

  /** Line boundaries are whitespace, so dropping them keeps the
      non-whitespace text. */
  lemma {:induction false} NonSpaceIgnoresLineBreaks(s: string)
    ensures NonSpace(DropLineBreaks(s)) == NonSpace(s)
    decreases |s|
  {
    if |s| > 0 {
      NonSpaceIgnoresLineBreaks(s[1..]);
      var rest := DropLineBreaks(s[1..]);
      if !IsLineBreak(s[0]) {
        assert DropLineBreaks(s) == [s[0]] + rest;
        assert ([s[0]] + rest)[0] == s[0] && ([s[0]] + rest)[1..] == rest;
      } else {
        assert IsSpace(s[0]);
        assert DropLineBreaks(s) == rest;
      }
    }
  }

  /** `strip()` removes whitespace only. */
  lemma StripKeepsNonSpace(s: string)
    ensures NonSpace(Strip(s)) == NonSpace(s)
  {
    var r := Strip(s);
    var a :| StrippedAt(s, r, a);
    var b := a + |r|;
    assert s == s[..a] + r + s[b..];
    NonSpaceAppend(s[..a] + r, s[b..]);
    NonSpaceAppend(s[..a], r);
    NonSpaceOfBlank(s[..a]);
    NonSpaceOfBlank(s[b..]);
  }

  /** Index of the first two consecutive spaces of `s`, or `|s|`. */
  function FirstDoubleSpace(s: string): (i: nat)
    ensures i <= |s|
    ensures i < |s| ==> i + 1 < |s| && s[i] == ' ' && s[i + 1] == ' '
    ensures forall k :: 0 <= k < i && k + 1 < |s| ==> !(s[k] == ' ' && s[k + 1] == ' ')
    decreases |s|
  {
    if |s| < 2 then |s|
    else if s[0] == ' ' && s[1] == ' ' then 0
    else 1 + FirstDoubleSpace(s[1..])
  }

  /** `s.split("  ")`: the pieces between non-overlapping occurrences of two
      spaces, found left to right. */
  function SplitOnDoubleSpace(s: string): (pieces: seq<string>)
    ensures |pieces| >= 1
    ensures AllNoDoubleSpace(pieces)
    ensures NoLineBreak(s) ==> AllNoLineBreak(pieces)
    ensures AllBlank(pieces) <==> Blank(s)
    ensures NoDoubleSpace(s) ==> pieces == [s]
    decreases |s|
  {
    var i := FirstDoubleSpace(s);
    if i == |s| then
      assert [s][0] == s;
      [s]
    else
      var rest := SplitOnDoubleSpace(s[i + 2..]);
      SplitOnDoubleSpaceStep(s, i, rest);
      [s[..i]] + rest
  }

  lemma SplitOnDoubleSpaceStep(s: string, i: nat, rest: seq<string>)
    requires i + 1 < |s| && s[i] == ' ' && s[i + 1] == ' '
    requires forall k :: 0 <= k < i && k + 1 < |s| ==> !(s[k] == ' ' && s[k + 1] == ' ')
    requires AllNoDoubleSpace(rest)
    requires NoLineBreak(s[i + 2..]) ==> AllNoLineBreak(rest)
    requires AllBlank(rest) <==> Blank(s[i + 2..])
    ensures AllNoDoubleSpace([s[..i]] + rest)
    ensures NoLineBreak(s) ==> AllNoLineBreak([s[..i]] + rest)
    ensures AllBlank([s[..i]] + rest) <==> Blank(s)
    ensures !NoDoubleSpace(s)
  {
    AllCons(s[..i], rest);
    BlankAround(s, i, i + 2);
    SliceKeeps(s, 0, i);
    SliceKeeps(s, i + 2, |s|);
    assert s[..i] == s[0..i] && s[i + 2..] == s[i + 2..|s|];
    forall k | 0 <= k < i - 1 ensures !(s[..i][k] == ' ' && s[..i][k + 1] == ' ') {
      assert s[..i][k] == s[k] && s[..i][k + 1] == s[k + 1];
    }
  }

  /** `sep.join(parts)` */
  function Join(parts: seq<string>, sep: string): (r: string)
    ensures |parts| == 0 ==> r == []
    ensures |parts| == 1 ==> r == parts[0]
    ensures |parts| > 0 ==> |r| == |Concat(parts)| + (|parts| - 1) * |sep|
    decreases |parts|
  {
    if |parts| == 0 then []
    else if |parts| == 1 then parts[0]
    else parts[0] + sep + Join(parts[1..], sep)
  }

  /** Joining with a whitespace separator keeps exactly the parts'
      non-whitespace text. */
  lemma {:induction false} JoinKeepsNonSpace(parts: seq<string>, sep: string)
    requires Blank(sep)
    ensures NonSpace(Join(parts, sep)) == NonSpace(Concat(parts))
    decreases |parts|
  {
    if |parts| > 1 {
      JoinKeepsNonSpace(parts[1..], sep);
      assert Join(parts, sep) == parts[0] + sep + Join(parts[1..], sep);
      assert Concat(parts) == parts[0] + Concat(parts[1..]);
      NonSpaceAroundBlank(parts[0], sep, Join(parts[1..], sep), Concat(parts[1..]));
    }
  }

  lemma NonSpaceAroundBlank(x: string, sep: string, joined: string, concatenated: string)
    requires Blank(sep)
    requires NonSpace(joined) == NonSpace(concatenated)
    ensures NonSpace(x + sep + joined) == NonSpace(x + concatenated)
  {
    NonSpaceAppend(x + sep, joined);
    NonSpaceAppend(x, sep);
    NonSpaceOfBlank(sep);
    NonSpaceAppend(x, concatenated);
  }

  lemma JoinCons(x: string, rest: seq<string>, sep: string)
    requires |rest| >= 1
    ensures Join([x] + rest, sep) == x + sep + Join(rest, sep)
  {
    assert ([x] + rest)[1..] == rest;
  }

  /** Joining the pieces of `s.split("  ")` with two spaces gives `s` back. */
  lemma {:induction false} SplitOnDoubleSpaceJoin(s: string)
    ensures Join(SplitOnDoubleSpace(s), "  ") == s
    decreases |s|
  {
    var i := FirstDoubleSpace(s);
    if i < |s| {
      var rest := SplitOnDoubleSpace(s[i + 2..]);
      SplitOnDoubleSpaceJoin(s[i + 2..]);
      assert SplitOnDoubleSpace(s) == [s[..i]] + rest;
      JoinCons(s[..i], rest, "  ");
      DoubleSpaceSplitsAt(s, i);
    }
  }

  lemma DoubleSpaceSplitsAt(s: string, i: nat)
    requires i + 1 < |s| && s[i] == ' ' && s[i + 1] == ' '
    ensures s == s[..i] + "  " + s[i + 2..]
  {
    assert s[i..i + 2] == "  ";
    assert s == s[..i] + s[i..i + 2] + s[i + 2..];
  }

  predicate StartsWith(s: string, prefix: string) {
    |prefix| <= |s| && s[..|prefix|] == prefix
  }

  /** Python's substring test `t in s`. */
  predicate Contains(s: string, t: string)
    decreases |s|
  {
    StartsWith(s, t) || (|s| > 0 && Contains(s[1..], t))
  }

  predicate OccursAt(s: string, t: string, i: int) {
    0 <= i <= |s| - |t| && s[i..i + |t|] == t
  }

  /** `t in s` holds exactly when `t` occurs at some position of `s`. */
  lemma {:induction false} ContainsIffOccurs(s: string, t: string)
    ensures Contains(s, t) <==> exists i :: OccursAt(s, t, i)
    decreases |s|
  {
    if StartsWith(s, t) {
      assert OccursAt(s, t, 0);
    } else if |s| > 0 {
      ContainsIffOccurs(s[1..], t);
      if exists i :: OccursAt(s, t, i) {
        var i :| OccursAt(s, t, i);
        assert i > 0;
        assert s[1..][i - 1..i - 1 + |t|] == s[i..i + |t|];
        assert OccursAt(s[1..], t, i - 1);
      }
      if Contains(s[1..], t) {
        var i :| OccursAt(s[1..], t, i);
        assert s[1..][i..i + |t|] == s[i + 1..i + 1 + |t|];
        assert OccursAt(s, t, i + 1);
      }
    } else {
      assert forall i :: !OccursAt(s, t, i);
    }
  }

  /** ASCII `lower()` of one character. */
  function LowerChar(c: char): (d: char)
    ensures 'A' <= c <= 'Z' ==> d as int == c as int + 32
    ensures !('A' <= c <= 'Z') ==> d == c
  {
    if 'A' <= c <= 'Z' then (c as int + 32) as char else c
  }

  function UpperChar(c: char): (d: char)
    ensures 'a' <= c <= 'z' ==> d as int == c as int - 32
    ensures !('a' <= c <= 'z') ==> d == c
  {
    if 'a' <= c <= 'z' then (c as int - 32) as char else c
  }

  /** `s.lower()` on ASCII letters. */
  function Lower(s: string): (r: string)
    ensures |r| == |s|
    ensures forall k :: 0 <= k < |s| ==> r[k] == LowerChar(s[k])
    decreases |s|
  {
    if |s| == 0 then [] else [LowerChar(s[0])] + Lower(s[1..])
  }

  predicate HasNoUpper(t: string) {
    forall k :: 0 <= k < |t| ==> !('A' <= t[k] <= 'Z')
  }

  /** `s` spells `t` letter by letter in either case. */
  predicate CaseVariant(s: string, t: string) {
    |s| == |t| && forall k :: 0 <= k < |s| ==> s[k] == t[k] || s[k] == UpperChar(t[k])
  }

  /** Comparing `s.lower()` with a string free of capitals is a case-insensitive comparison. */
  lemma LowerMatchesCaseVariants(s: string, t: string)
    requires HasNoUpper(t)
    ensures Lower(s) == t <==> CaseVariant(s, t)
  {
    if CaseVariant(s, t) {
      forall k | 0 <= k < |s| ensures Lower(s)[k] == t[k] {
        assert s[k] == t[k] || s[k] == UpperChar(t[k]);
      }
    }
    if Lower(s) == t {
      forall k | 0 <= k < |s| ensures s[k] == t[k] || s[k] == UpperChar(t[k]) {
        assert LowerChar(s[k]) == t[k];
      }
    }
  }

}
