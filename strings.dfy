/** String operations the form application relies on, written out as Python
    defines them: `str(n)` for integers, `str.lower`, `str.replace(c, '')`,
    the `in` operator on strings, and `os.path.basename` / `os.path.splitext`
    as `posixpath` implements them. */
module Strings {
  import opened Wrappers
  import Seqs

  // ---------------------------------------------------------------------------
  // Decimal numbers: Python's str() of an int, and the matching parser
  // ---------------------------------------------------------------------------

  predicate IsDigit(c: char) {
    '0' <= c <= '9'
  }

  function DigitChar(d: nat): (c: char)
    requires d < 10
    ensures IsDigit(c)
  {
    ('0' as int + d) as char
  }

  function DigitValue(c: char): (d: nat)
    requires IsDigit(c)
    ensures d < 10
  {
    c as int - '0' as int
  }

  /** `str(n)` for a natural number: its decimal digits, most significant first. */
  function NatToString(n: nat): (s: string)
    ensures |s| > 0
    ensures forall i :: 0 <= i < |s| ==> IsDigit(s[i])
    decreases n
  {
    if n < 10 then [DigitChar(n)] else NatToString(n / 10) + [DigitChar(n % 10)]
  }

  /** `str(i)` for any integer: a minus sign in front of negative numbers. */
  function IntToString(i: int): (s: string)
    ensures |s| > 0
  {
    if i < 0 then "-" + NatToString(-i) else NatToString(i)
  }

  /** Reads a non-empty run of decimal digits back into the number it denotes. */
  function ParseNat(s: string): Option<nat>
    decreases |s|
  {
    if |s| == 0 || !IsDigit(s[|s| - 1]) then None
    else if |s| == 1 then Some(DigitValue(s[0]))
    else match ParseNat(s[..|s| - 1])
      case None => None
      case Some(m) => Some(10 * m + DigitValue(s[|s| - 1]))
  }

  /** Reads an optionally negative decimal integer. */
  function ParseInt(s: string): Option<int> {
    if |s| > 0 && s[0] == '-' then
      match ParseNat(s[1..])
      case None => None
      case Some(n) => Some(-(n as int))
    else
      match ParseNat(s)
      case None => None
      case Some(n) => Some(n)
  }

  lemma {:induction false} ParseNatToString(n: nat)
    ensures ParseNat(NatToString(n)) == Some(n)
    decreases n
  {
    if n >= 10 {
      var s := NatToString(n);
      assert s[..|s| - 1] == NatToString(n / 10);
      ParseNatToString(n / 10);
    }
  }

  lemma ParseIntToString(i: int)
    ensures ParseInt(IntToString(i)) == Some(i)
  {
    var s := IntToString(i);
    if i < 0 {
      assert s[0] == '-' && s[1..] == NatToString(-i);
      ParseNatToString(-i);
    } else {
      assert IsDigit(s[0]);
      ParseNatToString(i);
    }
  }

  /** Different numbers print differently, so a printed index or tag identifies its row. */
  lemma NatToStringInjective(m: nat, n: nat)
    requires NatToString(m) == NatToString(n)
    ensures m == n
  {
    ParseNatToString(m);
    ParseNatToString(n);
  }

  // ---------------------------------------------------------------------------
  // Case, replacement and substring tests
  // ---------------------------------------------------------------------------

  predicate IsUpper(c: char) {
    'A' <= c <= 'Z'
  }

  function LowerChar(c: char): char {
    if IsUpper(c) then (c as int + 32) as char else c
  }

  /** `s.lower()` restricted to ASCII letters: each capital becomes its own
      small letter, no capital is left, and every other character stays where
      it was. */
  function Lower(s: string): (r: string)
    ensures |r| == |s|
    ensures forall i :: 0 <= i < |s| ==> !IsUpper(r[i])
    ensures forall i :: 0 <= i < |s| && !IsUpper(s[i]) ==> r[i] == s[i]
    ensures forall i :: 0 <= i < |s| && IsUpper(s[i]) ==> r[i] as int == s[i] as int + 32
  {
    seq(|s|, i requires 0 <= i < |s| => LowerChar(s[i]))
  }

  /** The test a character passes when it is not `c`. */
  function Other(c: char): char -> bool {
    x => x != c
  }

  /** `s.replace(c, '')`: every occurrence of `c` removed, the rest kept in order. */
  function RemoveChar(s: string, c: char): (r: string)
    ensures |r| <= |s|
  {
    Seqs.Filter(s, Other(c))
  }

  /** Removing `c` leaves no `c`, keeps every other character with its number
      of occurrences, and shortens the text by the occurrences of `c`. */
  lemma {:induction false} RemoveCharSpec(s: string, c: char)
    ensures c !in RemoveChar(s, c)
    ensures forall x :: x != c ==> (x in RemoveChar(s, c) <==> x in s)
    ensures forall x :: x != c ==> multiset(RemoveChar(s, c))[x] == multiset(s)[x]
    ensures |RemoveChar(s, c)| == |s| - multiset(s)[c]
  {
    Seqs.FilterMembers(s, Other(c));
    if s != [] {
      RemoveCharSpec(s[1..], c);
      assert s == [s[0]] + s[1..];
    }
  }

  /** Order is kept: a character other than `c` at position `i` lands right
      after what is kept of the characters before it. */
  lemma RemoveCharKeepsOrder(s: string, c: char, i: nat)
    requires i < |s| && s[i] != c
    ensures |RemoveChar(s[..i], c)| < |RemoveChar(s, c)|
    ensures RemoveChar(s, c)[|RemoveChar(s[..i], c)|] == s[i]
  {
    assert s == s[..i] + ([s[i]] + s[i + 1..]);
    RemoveCharAppend(s[..i], [s[i]] + s[i + 1..], c);
    RemoveCharAppend([s[i]], s[i + 1..], c);
    assert RemoveChar([s[i]], c) == [s[i]];
  }

  lemma RemoveCharAppend(a: string, b: string, c: char)
    ensures RemoveChar(a + b, c) == RemoveChar(a, c) + RemoveChar(b, c)
  {
    Seqs.FilterAppend(a, b, Other(c));
  }

  predicate IsPrefix(p: string, s: string) {
    |p| <= |s| && s[..|p|] == p
  }

  /** Python's `sub in s`. */
  predicate Contains(s: string, sub: string)
    decreases |s|
  {
    IsPrefix(sub, s) || (|s| > 0 && Contains(s[1..], sub))
  }

  /** `sub` found at position `i` of `s` is contained in `s`. */
  lemma {:induction false} ContainsAt(s: string, sub: string, i: nat)
    requires i + |sub| <= |s| && s[i..i + |sub|] == sub
    ensures Contains(s, sub)
    decreases i
  {
    if i == 0 {
      assert s[..|sub|] == sub;
    } else {
      assert s[1..][i - 1..i - 1 + |sub|] == s[i..i + |sub|];
      ContainsAt(s[1..], sub, i - 1);
    }
  }

  /** A string lacking one of the characters of `sub` does not contain `sub`. */
  lemma {:induction false} AbsentChar(s: string, sub: string, c: char)
    requires c in sub && c !in s
    ensures !Contains(s, sub)
    decreases |s|
  {
    if |s| > 0 {
      assert c !in s[1..];
      AbsentChar(s[1..], sub, c);
    }
  }

  // ---------------------------------------------------------------------------
  // Paths: os.path.basename and os.path.splitext (posixpath)
  // ---------------------------------------------------------------------------

  /** `s.rfind(c)`: the last index holding `c`, or -1. */
  function RFind(s: string, c: char): (i: int)
    ensures -1 <= i < |s|
    ensures i >= 0 ==> s[i] == c
    ensures forall j :: i < j < |s| ==> s[j] != c
    decreases |s|
  {
    if |s| == 0 then -1
    else if s[|s| - 1] == c then |s| - 1
    else RFind(s[..|s| - 1], c)
  }

  /** `os.path.basename(p)`: what follows the last '/'. */
  function Basename(p: string): string {
    p[RFind(p, '/') + 1..]
  }

  /** Some character of `p[lo..hi]` is not a dot. */
  predicate HasNonDot(p: string, lo: int, hi: int)
    requires 0 <= lo && hi <= |p|
  {
    exists k :: lo <= k < hi && p[k] != '.'
  }

  /** `os.path.splitext(p)[0]`: `p` without its extension. The extension starts
      at the last dot after the last '/', provided some character between that
      '/' and the dot is not a dot (so ".bashrc" and "..x" have none). */
  function SplitextRoot(p: string): string {
    var sepIndex := RFind(p, '/');
    var dotIndex := RFind(p, '.');
    if dotIndex > sepIndex && HasNonDot(p, sepIndex + 1, dotIndex) then p[..dotIndex] else p
  }

  /** `os.path.splitext(os.path.basename(p))[0]`: the file name without directory
      and extension. */
  function Stem(p: string): string {
    SplitextRoot(Basename(p))
  }

  lemma {:induction false} RFindLast(a: string, c: char, b: string)
    requires c !in b
    ensures RFind(a + [c] + b, c) == |a|
  {
    assert (a + [c] + b)[|a|] == c;
  }

  lemma {:induction false} RFindAbsent(s: string, c: char)
    requires c !in s
    ensures RFind(s, c) == -1
  {
  }

  lemma BasenameNoSlash(p: string)
    ensures '/' !in Basename(p)
  {
    var i := RFind(p, '/');
    var b := p[i + 1..];
    forall k | 0 <= k < |b|
      ensures b[k] != '/'
    {
      assert b[k] == p[i + 1 + k];
    }
  }

  lemma StemNoSlash(p: string)
    ensures '/' !in Stem(p)
  {
    var b := Basename(p);
    BasenameNoSlash(p);
    var r := SplitextRoot(b);
    assert IsPrefix(r, b);
    forall k | 0 <= k < |r|
      ensures r[k] != '/'
    {
      assert r[k] == b[k];
    }
  }

  lemma StemIsPrefix(p: string)
    ensures IsPrefix(Stem(p), Basename(p))
  {
  }

  /** The stem of "dir/name.ext" (or of "name.ext") is "name", whenever the
      extension holds no dot or slash and the name holds no slash and is not
      made solely of dots. */
  lemma StemOfPath(dir: string, name: string, ext: string)
    requires dir == [] || dir[|dir| - 1] == '/'
    requires '/' !in name && '/' !in ext && '.' !in ext
    requires exists k :: 0 <= k < |name| && name[k] != '.'
    ensures Stem(dir + name + "." + ext) == name
  {
    var b := name + "." + ext;
    assert dir + name + "." + ext == dir + b;
    BasenameAfterDir(dir, b);
    RootOfName(name, ext);
  }

  /** The base name of a path ending in a slash followed by `b` is `b`. */
  lemma BasenameAfterDir(dir: string, b: string)
    requires dir == [] || dir[|dir| - 1] == '/'
    requires '/' !in b
    ensures Basename(dir + b) == b
  {
    var p := dir + b;
    if dir == [] {
      RFindAbsent(p, '/');
      assert p == b;
    } else {
      var d := dir[..|dir| - 1];
      assert p == d + ['/'] + b;
      RFindLast(d, '/', b);
      assert p[|dir|..] == b;
    }
  }

  /** Splitting "name.ext" takes off ".ext" when `name` is not all dots. */
  lemma RootOfName(name: string, ext: string)
    requires '/' !in name && '/' !in ext && '.' !in ext
    requires exists k :: 0 <= k < |name| && name[k] != '.'
    ensures '/' !in name + "." + ext
    ensures SplitextRoot(name + "." + ext) == name
  {
    var b := name + "." + ext;
    assert b == name + ['.'] + ext;
    RFindLast(name, '.', ext);
    RFindAbsent(b, '/');
    var k :| 0 <= k < |name| && name[k] != '.';
    assert b[k] == name[k];
    assert HasNonDot(b, 0, |name|);
    assert b[..|name|] == name;
  }

  /** A file name without any dot is its own stem. */
  lemma StemWithoutDot(p: string)
    requires '.' !in Basename(p)
    ensures Stem(p) == Basename(p)
  {
    RFindAbsent(Basename(p), '.');
  }
}
