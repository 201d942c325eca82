/** The whitespace clean-up applied to a web article's text before
    splitting: strip every line, split each on two spaces, strip every
    phrase, drop the empty ones and join the rest with one space. */
module WebText {
  import opened Seqs
  import opened Strings
  import Words

  /** A non-empty piece of clean text: no whitespace at either end, no line
      boundary, and never two spaces in a row. */
  predicate IsPhrase(p: string) {
    && |p| > 0
    && !IsSpace(p[0]) && !IsSpace(p[|p| - 1])
    && NoLineBreak(p)
    && NoDoubleSpace(p)
  }

  predicate AllPhrases(ps: seq<string>) {
    forall j :: 0 <= j < |ps| ==> IsPhrase(ps[j])
  }

  /** `(phrase.strip() for phrase in pieces)`, keeping the non-empty ones. */
  function KeepStripped(pieces: seq<string>): (phrases: seq<string>)
    ensures |phrases| <= |pieces|
    ensures AllNoLineBreak(pieces) && AllNoDoubleSpace(pieces) ==> AllPhrases(phrases)
    ensures phrases == [] <==> AllBlank(pieces)
    decreases |pieces|
  {
    if |pieces| == 0 then []
    else
      var p := Strip(pieces[0]);
      var rest := KeepStripped(pieces[1..]);
      AllCons(pieces[0], pieces[1..]);
      assert pieces == [pieces[0]] + pieces[1..];
      if p == [] then rest
      else
        PhrasesCons(p, rest);
        [p] + rest
  }

  lemma PhrasesCons(p: string, rest: seq<string>)
    ensures AllPhrases([p] + rest) <==> IsPhrase(p) && AllPhrases(rest)
  {
    var ps := [p] + rest;
    assert ps[0] == p;
    assert forall j :: 0 <= j < |rest| ==> ps[j + 1] == rest[j];
  }

  /** The phrases of one line of text. */
  function LinePhrases(line: string): (phrases: seq<string>)
    ensures NoLineBreak(line) ==> AllPhrases(phrases)
    ensures phrases == [] <==> Blank(line)
    ensures IsPhrase(line) ==> phrases == [line]
  {
    var stripped := Strip(line);
    var pieces := SplitOnDoubleSpace(stripped);
    assert Blank(stripped) <==> stripped == [];
    assert IsPhrase(line) ==> KeepStripped([line]) == [line] + KeepStripped([]);
    KeepStripped(pieces)
  }

  /** The phrases of all lines, line by line. */
  function TextPhrases(lines: seq<string>): (phrases: seq<string>)
    ensures AllNoLineBreak(lines) ==> AllPhrases(phrases)
    ensures phrases == [] <==> AllBlank(lines)
    decreases |lines|
  {
    if |lines| == 0 then []
    else
      var first := LinePhrases(lines[0]);
      var rest := TextPhrases(lines[1..]);
      TextPhrasesStep(lines, first, rest);
      first + rest
  }

  lemma TextPhrasesStep(lines: seq<string>, first: seq<string>, rest: seq<string>)
    requires |lines| > 0
    requires NoLineBreak(lines[0]) ==> AllPhrases(first)
    requires first == [] <==> Blank(lines[0])
    requires AllNoLineBreak(lines[1..]) ==> AllPhrases(rest)
    requires rest == [] <==> AllBlank(lines[1..])
    ensures AllNoLineBreak(lines) ==> AllPhrases(first + rest)
    ensures first + rest == [] <==> AllBlank(lines)
  {
    AllCons(lines[0], lines[1..]);
    assert lines == [lines[0]] + lines[1..];
    AllPhrasesConcat(first, rest);
  }

  lemma AllPhrasesConcat(a: seq<string>, b: seq<string>)
    ensures AllPhrases(a + b) <==> AllPhrases(a) && AllPhrases(b)
  {
    var ab := a + b;
    assert forall j :: 0 <= j < |a| ==> ab[j] == a[j];
    assert forall j :: 0 <= j < |b| ==> ab[|a| + j] == b[j];
  }

  /** The web-text clean-up of the document processor. */
  function CleanWebText(text: string): (clean: string)
    ensures clean != [] ==> !IsSpace(clean[0]) && !IsSpace(clean[|clean| - 1])
    ensures forall k :: 0 <= k < |clean| ==> !IsLineBreak(clean[k])
    ensures forall k :: 0 <= k < |clean| - 1 ==> !(clean[k] == ' ' && clean[k + 1] == ' ')
    ensures clean == [] <==> forall k :: 0 <= k < |text| ==> IsSpace(text[k])
  {
    var phrases := TextPhrases(SplitLines(text));
    JoinedPhrases(phrases);
    Join(phrases, " ")
  }

  /** Joining phrases with one space gives a phrase, or nothing at all. */
  lemma {:induction false} JoinedPhrases(ps: seq<string>)
    requires AllPhrases(ps)
    ensures Join(ps, " ") == [] <==> ps == []
    ensures ps != [] ==> IsPhrase(Join(ps, " "))
    decreases |ps|
  {
    if |ps| > 1 {
      PhrasesCons(ps[0], ps[1..]);
      assert ps == [ps[0]] + ps[1..];
      JoinedPhrases(ps[1..]);
      PhraseConcat(ps[0], Join(ps[1..], " "));
    } else if |ps| == 1 {
      assert IsPhrase(ps[0]);
    }
  }

  /** Two phrases joined by one space form a phrase. */
  lemma PhraseConcat(a: string, b: string)
    requires IsPhrase(a) && IsPhrase(b)
    ensures IsPhrase(a + " " + b)
  {
    var c := a + " " + b;
    assert forall k :: 0 <= k < |a| ==> c[k] == a[k];
    assert c[|a|] == ' ';
    assert forall k :: 0 <= k < |b| ==> c[|a| + 1 + k] == b[k];
    forall k | 0 <= k < |c| ensures !IsLineBreak(c[k]) {
      if k > |a| {
        assert c[k] == b[k - |a| - 1];
      }
    }
    forall k | 0 <= k < |c| - 1 ensures !(c[k] == ' ' && c[k + 1] == ' ') {
      if k + 1 < |a| {
      } else if k + 1 == |a| {
        assert c[k] == a[|a| - 1];
      } else if k == |a| {
        assert c[k + 1] == b[0];
      } else {
        assert c[k] == b[k - |a| - 1] && c[k + 1] == b[k - |a|];
      }
    }
  }

  /** Cleaning clean text changes nothing. */
  lemma {:induction false} CleanWebTextIdempotent(text: string)
    ensures CleanWebText(CleanWebText(text)) == CleanWebText(text)
  {
    var clean := CleanWebText(text);
    if clean != [] {
      assert IsPhrase(clean);
      assert SplitLines(clean) == [clean];
      assert TextPhrases([clean]) == LinePhrases(clean) + TextPhrases([]);
      assert Join([clean], " ") == clean;
    } else {
      assert SplitLines(clean) == [];
    }
  }

  /** Stripping the pieces and dropping the empty ones keeps their
      non-whitespace text. */
  lemma {:induction false} KeepStrippedKeepsText(pieces: seq<string>)
    ensures NonSpace(Concat(KeepStripped(pieces))) == NonSpace(Concat(pieces))
    decreases |pieces|
  {
    if |pieces| > 0 {
      var p := Strip(pieces[0]);
      var rest := KeepStripped(pieces[1..]);
      KeepStrippedKeepsText(pieces[1..]);
      StripKeepsNonSpace(pieces[0]);
      NonSpaceAppend(pieces[0], Concat(pieces[1..]));
      if p == [] {
        assert KeepStripped(pieces) == rest;
      } else {
        assert KeepStripped(pieces) == [p] + rest;
        assert ([p] + rest)[1..] == rest;
        NonSpaceAppend(p, Concat(rest));
      }
    }
  }

  /** The phrases of a line hold the line's non-whitespace text. */
  lemma LinePhrasesKeepText(line: string)
    ensures NonSpace(Concat(LinePhrases(line))) == NonSpace(line)
  {
    var stripped := Strip(line);
    assert LinePhrases(line) == KeepStripped(SplitOnDoubleSpace(stripped));
    PiecesKeepText(stripped);
    StripKeepsNonSpace(line);
  }

  /** Splitting at double spaces and stripping the pieces keeps the text. */
  lemma PiecesKeepText(s: string)
    ensures NonSpace(Concat(KeepStripped(SplitOnDoubleSpace(s)))) == NonSpace(s)
  {
    var pieces := SplitOnDoubleSpace(s);
    KeepStrippedKeepsText(pieces);
    assert Blank("  ");
    JoinKeepsNonSpace(pieces, "  ");
    SplitOnDoubleSpaceJoin(s);
  }

  /** The phrases of all lines hold the lines' non-whitespace text. */
  lemma {:induction false} TextPhrasesKeepText(lines: seq<string>)
    ensures NonSpace(Concat(TextPhrases(lines))) == NonSpace(Concat(lines))
    decreases |lines|
  {
    if |lines| > 0 {
      TextPhrasesKeepText(lines[1..]);
      LinePhrasesKeepText(lines[0]);
      var first := LinePhrases(lines[0]);
      var rest := TextPhrases(lines[1..]);
      assert TextPhrases(lines) == first + rest;
      ConcatAppend(first, rest);
      NonSpaceAppend(Concat(first), Concat(rest));
      NonSpaceAppend(lines[0], Concat(lines[1..]));
    }
  }

  /** The clean-up removes whitespace only: the non-whitespace characters of
      the result are those of the input, in the same order. */
  lemma CleanWebTextKeepsText(text: string)
    ensures NonSpace(CleanWebText(text)) == NonSpace(text)
  {
    var lines := SplitLines(text);
    var phrases := TextPhrases(lines);
    assert CleanWebText(text) == Join(phrases, " ");
    JoinKeepsNonSpace(phrases, " ");
    TextPhrasesKeepText(lines);
    SplitLinesConcat(text);
    NonSpaceIgnoresLineBreaks(text);
  }

  /** Stripping the pieces and dropping the empty ones keeps their words. */
  lemma {:induction false} KeepStrippedKeepsWords(pieces: seq<string>)
    ensures Words.SplitAll(KeepStripped(pieces)) == Words.SplitAll(pieces)
    decreases |pieces|
  {
    if |pieces| > 0 {
      var p := Strip(pieces[0]);
      var rest := KeepStripped(pieces[1..]);
      KeepStrippedKeepsWords(pieces[1..]);
      Words.SplitOfStrip(pieces[0]);
      Words.SplitAllCons(pieces[0], pieces[1..]);
      assert pieces == [pieces[0]] + pieces[1..];
      if p == [] {
        assert KeepStripped(pieces) == rest;
        assert Words.Split(p) == [];
      } else {
        assert KeepStripped(pieces) == [p] + rest;
        Words.SplitAllCons(p, rest);
      }
    }
  }

  /** Splitting at double spaces and stripping the pieces keeps the words. */
  lemma PiecesKeepWords(s: string)
    ensures Words.SplitAll(KeepStripped(SplitOnDoubleSpace(s))) == Words.Split(s)
  {
    KeepStrippedKeepsWords(SplitOnDoubleSpace(s));
    Words.SplitOfDoubleSpacePieces(s);
  }

  /** The phrases of a line hold the line's words. */
  lemma LinePhrasesKeepWords(line: string)
    ensures Words.SplitAll(LinePhrases(line)) == Words.Split(line)
  {
    var stripped := Strip(line);
    assert LinePhrases(line) == KeepStripped(SplitOnDoubleSpace(stripped));
    PiecesKeepWords(stripped);
    Words.SplitOfStrip(line);
  }

  /** The phrases of all lines hold the lines' words, line after line. */
  lemma {:induction false} TextPhrasesKeepWords(lines: seq<string>)
    ensures Words.SplitAll(TextPhrases(lines)) == Words.SplitAll(lines)
    decreases |lines|
  {
    if |lines| > 0 {
      TextPhrasesKeepWords(lines[1..]);
      LinePhrasesKeepWords(lines[0]);
      var first := LinePhrases(lines[0]);
      var rest := TextPhrases(lines[1..]);
      assert TextPhrases(lines) == first + rest;
      Words.SplitAllAppend(first, rest);
      Words.SplitAllCons(lines[0], lines[1..]);
      assert lines == [lines[0]] + lines[1..];
    }
  }

  /** The clean-up keeps the words of the text: it changes only the
      whitespace between them and never merges two words. */
  lemma CleanWebTextKeepsWords(text: string)
    ensures Words.Split(CleanWebText(text)) == Words.Split(text)
  {
    var lines := SplitLines(text);
    var phrases := TextPhrases(lines);
    assert CleanWebText(text) == Join(phrases, " ");
    assert Blank(" ");
    Words.SplitOfJoin(phrases, " ");
    TextPhrasesKeepWords(lines);
    Words.SplitOfLines(text);
  }
}
