/** Python's `str.split()` with no argument: the words of a text, that is
    its maximal runs of non-whitespace characters. A clean-up that keeps the
    words of a text changes only the whitespace between them and never
    merges two words into one. */
module Words {
  import opened Seqs
  import opened Strings

  /** Length of the run of non-whitespace characters at the start of `s`. */
  function WordLength(s: string): (n: nat)
    ensures n <= |s|
    ensures forall k :: 0 <= k < n ==> !IsSpace(s[k])
    ensures n < |s| ==> IsSpace(s[n])
    decreases |s|
  {
    if |s| == 0 || IsSpace(s[0]) then 0 else 1 + WordLength(s[1..])
  }

  predicate IsWord(w: string) {
    |w| > 0 && forall k :: 0 <= k < |w| ==> !IsSpace(w[k])
  }

  predicate AllWords(ws: seq<string>) {
    forall j :: 0 <= j < |ws| ==> IsWord(ws[j])
  }

  /** `s.split()`: the words of `s`, in order. */
  function Split(s: string): (words: seq<string>)
    ensures AllWords(words)
    decreases |s|
  {
    if |s| == 0 then []
    else if IsSpace(s[0]) then Split(s[1..])
    else
      var n := WordLength(s);
      var rest := Split(s[n..]);
      WordsCons(s[..n], rest);
      [s[..n]] + rest
  }

  lemma WordsCons(w: string, rest: seq<string>)
    requires IsWord(w) && AllWords(rest)
    ensures AllWords([w] + rest)
  {
    var ws := [w] + rest;
    assert ws[0] == w;
    assert forall j :: 0 < j < |ws| ==> ws[j] == rest[j - 1];
  }

  /** The words of each part, part after part. */
  function SplitAll(parts: seq<string>): (words: seq<string>)
    decreases |parts|
  {
    if |parts| == 0 then [] else Split(parts[0]) + SplitAll(parts[1..])
  }

  lemma {:induction false} SplitAllAppend(a: seq<string>, b: seq<string>)
    ensures SplitAll(a + b) == SplitAll(a) + SplitAll(b)
    decreases |a|
  {
    if |a| == 0 {
      assert a + b == b;
    } else {
      assert (a + b)[0] == a[0];
      assert (a + b)[1..] == a[1..] + b;
      SplitAllAppend(a[1..], b);
    }
  }

  lemma SplitAllCons(x: string, rest: seq<string>)
    ensures SplitAll([x] + rest) == Split(x) + SplitAll(rest)
  {
    assert ([x] + rest)[0] == x;
    assert ([x] + rest)[1..] == rest;
  }

  /** Whitespace in front of a text adds no word. */
  lemma {:induction false} SplitAfterBlank(b: string, s: string)
    requires Blank(b)
    ensures Split(b + s) == Split(s)
    decreases |b|
  {
    if |b| == 0 {
      assert b + s == s;
    } else {
      var bs := b + s;
      assert bs[0] == b[0] && IsSpace(b[0]);
      assert bs[1..] == b[1..] + s;
      assert Blank(b[1..]) by {
        forall k | 0 <= k < |b| - 1 ensures IsSpace(b[1..][k]) {
          assert b[1..][k] == b[k + 1];
        }
      }
      SplitAfterBlank(b[1..], s);
    }
  }

  /** A word of `a` ends at the latest where whitespace follows `a`. */
  lemma {:induction false} WordLengthBeforeSpace(a: string, t: string)
    requires |t| > 0 && IsSpace(t[0])
    ensures WordLength(a + t) == WordLength(a)
    decreases |a|
  {
    var at := a + t;
    if |a| == 0 {
      assert at == t;
    } else {
      assert at[0] == a[0];
      if !IsSpace(a[0]) {
        assert at[1..] == a[1..] + t;
        WordLengthBeforeSpace(a[1..], t);
      }
    }
  }

  /** Non-empty whitespace between two texts keeps their words apart: the
      words of the whole are those of the first text, then those of the second. */
  lemma {:induction false} SplitAround(a: string, sep: string, b: string)
    requires |sep| > 0 && Blank(sep)
    ensures Split(a + sep + b) == Split(a) + Split(b)
    decreases |a|
  {
    var s := a + sep + b;
    if |a| == 0 {
      assert s == sep + b;
      SplitAfterBlank(sep, b);
    } else if IsSpace(a[0]) {
      assert s[0] == a[0];
      assert s[1..] == a[1..] + sep + b;
      SplitAround(a[1..], sep, b);
    } else {
      SplitWordAround(a, sep, b);
    }
  }

  /** The step of `SplitAround` when `a` starts with a word. */
  lemma {:induction false} SplitWordAround(a: string, sep: string, b: string)
    requires |sep| > 0 && Blank(sep)
    requires |a| > 0 && !IsSpace(a[0])
    ensures Split(a + sep + b) == Split(a) + Split(b)
    decreases |a|, 0
  {
    var s := a + sep + b;
    var t := sep + b;
    assert s == a + t;
    assert t[0] == sep[0] && IsSpace(t[0]);
    WordLengthBeforeSpace(a, t);
    var n := WordLength(a);
    assert s[0] == a[0];
    assert n >= 1;
    assert s[..n] == a[..n];
    assert s[n..] == a[n..] + sep + b;
    SplitAround(a[n..], sep, b);
    assert Split(s) == [a[..n]] + Split(s[n..]);
    assert Split(a) == [a[..n]] + Split(a[n..]);
  }

  /** Whitespace after a text adds no word. */
  lemma SplitBeforeBlank(a: string, t: string)
    requires Blank(t)
    ensures Split(a + t) == Split(a)
  {
    if |t| == 0 {
      assert a + t == a;
    } else {
      SplitAround(a, t, []);
      assert a + t + [] == a + t;
    }
  }

  /** `strip()` keeps the words. */
  lemma SplitOfStrip(s: string)
    ensures Split(Strip(s)) == Split(s)
  {
    var r := Strip(s);
    var a :| StrippedAt(s, r, a);
    var b := a + |r|;
    assert s == s[..a] + (r + s[b..]);
    assert Blank(s[..a]) by {
      forall k | 0 <= k < a ensures IsSpace(s[..a][k]) {
        assert s[..a][k] == s[k];
      }
    }
    assert Blank(s[b..]) by {
      forall k | 0 <= k < |s| - b ensures IsSpace(s[b..][k]) {
        assert s[b..][k] == s[b + k];
      }
    }
    SplitAfterBlank(s[..a], r + s[b..]);
    SplitBeforeBlank(r, s[b..]);
  }

  /** Joining with non-empty whitespace keeps every part's words apart. */
  lemma {:induction false} SplitOfJoin(parts: seq<string>, sep: string)
    requires |sep| > 0 && Blank(sep)
    ensures Split(Join(parts, sep)) == SplitAll(parts)
    decreases |parts|
  {
    if |parts| == 1 {
      SplitAllCons(parts[0], []);
      assert parts == [parts[0]] + [];
    } else if |parts| > 1 {
      var rest := parts[1..];
      SplitOfJoin(rest, sep);
      assert parts == [parts[0]] + rest;
      JoinCons(parts[0], rest, sep);
      SplitAround(parts[0], sep, Join(rest, sep));
      SplitAllCons(parts[0], rest);
    }
  }

  /** The lines of `splitlines()` hold the words of the text: no word spans
      a line boundary, and no two lines are merged. */
  lemma {:induction false} SplitOfLines(s: string)
    ensures SplitAll(SplitLines(s)) == Split(s)
    decreases |s|
  {
    if s != [] {
      var i := FirstLineBreak(s);
      BeforeFirstLineBreak(s);
      if i == |s| {
        assert NoLineBreak(s);
        assert SplitLines(s) == [s];
        SplitAllCons(s, []);
      } else {
        var w := BreakWidth(s, i);
        SplitLinesUnfold(s, i, w);
        SplitOfLines(s[i + w..]);
        SplitAllCons(s[..i], SplitLines(s[i + w..]));
        SplitAtBreak(s, i, w);
      }
    }
  }

  /** A line boundary separates the words before it from those after it. */
  lemma SplitAtBreak(s: string, i: nat, w: nat)
    requires i + w <= |s| && w > 0
    requires forall k :: i <= k < i + w ==> IsLineBreak(s[k])
    ensures Split(s) == Split(s[..i]) + Split(s[i + w..])
  {
    var head, sep, tail := s[..i], s[i..i + w], s[i + w..];
    forall k | 0 <= k < w ensures IsSpace(sep[k]) {
      assert sep[k] == s[i + k];
      assert IsLineBreak(sep[k]);
    }
    assert head + sep == s[..i + w];
    assert s[..i + w] + tail == s;
    SplitAround(head, sep, tail);
  }

  /** The pieces of `split("  ")` hold the words of the line. */
  lemma SplitOfDoubleSpacePieces(s: string)
    ensures SplitAll(SplitOnDoubleSpace(s)) == Split(s)
  {
    assert Blank("  ");
    SplitOfJoin(SplitOnDoubleSpace(s), "  ");
    SplitOnDoubleSpaceJoin(s);
  }
}
