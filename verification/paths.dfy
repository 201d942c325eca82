/** `os.path.splitext` as the POSIX path module implements it: the
    extension starts at the last dot of the final path component, and
    leading dots of that component do not start an extension. */
module Paths {

  /** `s.rfind(c)`: the last position of `c` in `s`, or -1. */
  function LastIndexOf(s: string, c: char): (r: int)
    ensures -1 <= r < |s|
    ensures r >= 0 ==> s[r] == c
    ensures forall k :: r < k < |s| ==> s[k] != c
    decreases |s|
  {
    if |s| == 0 then -1
    else if s[|s| - 1] == c then |s| - 1
    else LastIndexOf(s[..|s| - 1], c)
  }

  /** Some character of `s` is not a dot. */
  predicate HasNonDot(s: string) {
    exists k :: 0 <= k < |s| && s[k] != '.'
  }

  /** Where `os.path.splitext(p)[1]` begins: the last dot of the final
      component when some non-dot precedes it there, else `|p|`. */
  function ExtensionStart(p: string): (i: nat)
    ensures i <= |p|
    ensures i < |p| ==> p[i] == '.'
    ensures forall k :: i < k < |p| ==> p[k] != '.' && p[k] != '/'
  {
    var sep := LastIndexOf(p, '/');
    var dot := LastIndexOf(p, '.');
    if dot > sep && HasNonDot(p[sep + 1..dot]) then dot else |p|
  }

  /** `os.path.splitext(p)[1]`: empty, or a dot followed by characters that
      are neither dots nor separators. */
  function Extension(p: string): (ext: string)
    ensures ext == [] || ext[0] == '.'
    ensures forall k :: 1 <= k < |ext| ==> ext[k] != '.' && ext[k] != '/'
  {
    var i := ExtensionStart(p);
    assert forall k :: 0 <= k < |p| - i ==> p[i..][k] == p[i + k];
    p[i..]
  }

  /** The final component of `p` (everything after position `j`) has a
      character other than a dot before a later dot. */
  predicate DotAfterName(p: string, j: int, k: int) {
    0 <= j < k < |p| && p[j] != '.' && p[k] == '.' && forall m :: j <= m < |p| ==> p[m] != '/'
  }

  /** The extension is non-empty exactly when the final path component
      holds a dot somewhere after a character that is not a dot: `a.pdf`
      and `a..pdf` have one, `.pdf`, `..pdf` and `a.d/b` do not. */
  lemma ExtensionNonEmptyIff(p: string)
    ensures Extension(p) != [] <==> exists j, k :: DotAfterName(p, j, k)
  {
    if Extension(p) != [] {
      NonEmptyExtensionHasWitness(p);
    } else {
      EmptyExtensionHasNoWitness(p);
    }
  }

  lemma NonEmptyExtensionHasWitness(p: string)
    requires Extension(p) != []
    ensures exists j, k :: DotAfterName(p, j, k)
  {
    var sep := LastIndexOf(p, '/');
    var dot := LastIndexOf(p, '.');
    var named := dot > sep && HasNonDot(p[sep + 1..dot]);
    ExtensionFromDots(p, sep, dot, named);
    NamedDotIsWitness(p, sep, dot);
  }

  lemma EmptyExtensionHasNoWitness(p: string)
    requires Extension(p) == []
    ensures !exists j, k :: DotAfterName(p, j, k)
  {
    var sep := LastIndexOf(p, '/');
    var dot := LastIndexOf(p, '.');
    var named := dot > sep && HasNonDot(p[sep + 1..dot]);
    ExtensionFromDots(p, sep, dot, named);
    forall j, k | DotAfterName(p, j, k) ensures false {
      WitnessIsNamedDot(p, sep, dot, j, k);
    }
  }

  /** A last dot with a non-dot between it and the last separator is a witness. */
  lemma NamedDotIsWitness(p: string, sep: int, dot: int)
    requires -1 <= sep < dot < |p| && p[dot] == '.'
    requires forall m :: sep < m < |p| ==> p[m] != '/'
    requires HasNonDot(p[sep + 1..dot])
    ensures exists j, k :: DotAfterName(p, j, k)
  {
    var i :| 0 <= i < |p[sep + 1..dot]| && p[sep + 1..dot][i] != '.';
    assert p[sep + 1 + i] == p[sep + 1..dot][i];
    assert DotAfterName(p, sep + 1 + i, dot);
  }

  /** Any witness lies between the last separator and the last dot. */
  lemma WitnessIsNamedDot(p: string, sep: int, dot: int, j: int, k: int)
    requires -1 <= sep < |p| && (sep >= 0 ==> p[sep] == '/')
    requires -1 <= dot < |p| && forall m :: dot < m < |p| ==> p[m] != '.'
    requires DotAfterName(p, j, k)
    ensures dot > sep && HasNonDot(p[sep + 1..dot])
  {
    assert sep < j;
    assert k <= dot;
    assert p[sep + 1..dot][j - sep - 1] == p[j];
  }

  /** `s.rfind(c)` written as the scan it performs. */
  method RFind(s: string, c: char) returns (r: int)
    ensures r == LastIndexOf(s, c)
  {
    r := |s| - 1;
    while r >= 0 && s[r] != c
      invariant -1 <= r < |s|
      invariant forall k :: r < k < |s| ==> s[k] != c
      decreases r + 1
    {
      r := r - 1;
    }
    LastIndexUnique(s, c, r);
  }

  /** The last position of `c` is determined by its defining properties. */
  lemma LastIndexUnique(s: string, c: char, r: int)
    requires -1 <= r < |s|
    requires r >= 0 ==> s[r] == c
    requires forall k :: r < k < |s| ==> s[k] != c
    ensures r == LastIndexOf(s, c)
  {
  }

  /** `os.path.splitext(p)` as the POSIX implementation computes it: the two
      parts concatenate back to `p`, and the second is `Extension(p)`. */
  method SplitExt(p: string) returns (root: string, ext: string)
    ensures root + ext == p
    ensures ext == Extension(p)
  {
    var sepIndex := RFind(p, '/');
    var dotIndex := RFind(p, '.');
    if dotIndex > sepIndex {
      var filenameIndex := sepIndex + 1;
      while filenameIndex < dotIndex
        invariant sepIndex + 1 <= filenameIndex <= dotIndex
        invariant forall m :: sepIndex + 1 <= m < filenameIndex ==> p[m] == '.'
      {
        if p[filenameIndex] != '.' {
          NonDotWitness(p, sepIndex + 1, dotIndex, filenameIndex);
          ExtensionFromDots(p, sepIndex, dotIndex, true);
          return p[..dotIndex], p[dotIndex..];
        }
        filenameIndex := filenameIndex + 1;
      }
      OnlyDots(p, sepIndex + 1, dotIndex);
    }
    ExtensionFromDots(p, sepIndex, dotIndex, false);
    return p, [];
  }

  lemma NonDotWitness(p: string, a: int, b: int, m: int)
    requires 0 <= a <= m < b <= |p| && p[m] != '.'
    ensures HasNonDot(p[a..b])
  {
    assert p[a..b][m - a] == p[m];
  }

  lemma OnlyDots(p: string, a: int, b: int)
    requires 0 <= a <= b <= |p|
    requires forall m :: a <= m < b ==> p[m] == '.'
    ensures !HasNonDot(p[a..b])
  {
    forall k | 0 <= k < b - a ensures p[a..b][k] == '.' {
      assert p[a..b][k] == p[a + k];
    }
  }

  /** The two outcomes of `Extension` once the last separator and the last
      dot are known. */
  lemma ExtensionFromDots(p: string, sep: int, dot: int, named: bool)
    requires sep == LastIndexOf(p, '/') && dot == LastIndexOf(p, '.')
    requires named <==> dot > sep && HasNonDot(p[sep + 1..dot])
    ensures named ==> p[..dot] + p[dot..] == p && Extension(p) == p[dot..]
    ensures !named ==> Extension(p) == [] && p + [] == p
  {
    var i := ExtensionStart(p);
    assert Extension(p) == p[i..];
    if named {
      assert i == dot;
      assert p[..dot] + p[dot..] == p;
    } else {
      assert i == |p|;
      assert p + [] == p;
    }
  }
}
