/** The Python string operations the catalog code relies on: `str.strip()`,
    `str.split(sep)`, `sep.join(parts)`, `str.lower()`, `str.lstrip(c)`,
    `str.startswith`, `str.replace` of one character and `str(int)`. */
module Text {

  /** Python's `str.isspace()`: the characters `str.strip()` removes and the
      character class `\s` of a `str` regular expression matches. */
  predicate IsSpace(c: char) {
    var n := c as int;
    (9 <= n <= 13) || (28 <= n <= 32) || n == 0x85 || n == 0xA0 || n == 0x1680
    || (0x2000 <= n <= 0x200A) || n == 0x2028 || n == 0x2029 || n == 0x202F
    || n == 0x205F || n == 0x3000
  }

  /** A string with no whitespace at either end. */
  predicate IsStripped(s: string) {
    s == [] || (!IsSpace(s[0]) && !IsSpace(s[|s| - 1]))
  }

  /** Drops the leading whitespace, and only that. */
  function LStrip(s: string): (r: string)
    ensures |r| <= |s| && r == s[|s| - |r|..]
    ensures forall i :: 0 <= i < |s| - |r| ==> IsSpace(s[i])
    ensures r == [] || !IsSpace(r[0])
  {
    if |s| > 0 && IsSpace(s[0]) then LStrip(s[1..]) else s
  }

  /** Drops the trailing whitespace, and only that. */
  function RStrip(s: string): (r: string)
    ensures |r| <= |s| && r == s[..|r|]
    ensures forall i :: |r| <= i < |s| ==> IsSpace(s[i])
    ensures r == [] || !IsSpace(r[|r| - 1])
  {
    if |s| > 0 && IsSpace(s[|s| - 1]) then RStrip(s[..|s| - 1]) else s
  }

  /** Python's `str.strip()` with no argument. */
  function Strip(s: string): (r: string)
    ensures IsStripped(r)
    ensures |r| <= |s|
    ensures forall c :: c in r ==> c in s
  {
    var t := LStrip(s);
    var r := RStrip(t);
    assert r == [] || r[0] == t[0];
    r
  }

  /** Stripping a string that is already stripped changes nothing; in particular
      `Strip` is idempotent. */
  lemma StripStripped(s: string)
    requires IsStripped(s)
    ensures Strip(s) == s
  {
  }

  /** Python's `s.split(sep)` for a one-character separator: the pieces between
      the separators, empty pieces included, and at least one piece. */
  function Split(s: string, sep: char): (parts: seq<string>)
    ensures |parts| >= 1
    ensures forall p :: p in parts ==> sep !in p
    decreases |s|
  {
    if s == [] then [""]
    else
      var rest := Split(s[1..], sep);
      if s[0] == sep then [""] + rest
      else [[s[0]] + rest[0]] + rest[1..]
  }

  /** Python's `sep.join(parts)` for a one-character separator. */
  function Join(parts: seq<string>, sep: char): string
  {
    if parts == [] then ""
    else if |parts| == 1 then parts[0]
    else parts[0] + [sep] + Join(parts[1..], sep)
  }

  /** Joining the pieces of a split gives back the original string. */
  lemma {:induction false} JoinSplit(s: string, sep: char)
    ensures Join(Split(s, sep), sep) == s
    decreases |s|
  {
    if s != [] {
      var rest := Split(s[1..], sep);
      JoinSplit(s[1..], sep);
      if s[0] == sep {
        assert Join(Split(s, sep), sep) == "" + [sep] + Join(rest, sep);
        assert s == [s[0]] + s[1..];
      } else if |rest| == 1 {
        assert s == [s[0]] + s[1..];
      } else {
        assert Join(rest, sep) == rest[0] + [sep] + Join(rest[1..], sep);
        assert rest[1..][..] == rest[1..];
        assert s == [s[0]] + s[1..];
      }
    }
  }

  lemma {:induction false} SplitNoSeparator(a: string, sep: char)
    requires sep !in a
    ensures Split(a, sep) == [a]
    decreases |a|
  {
    if a != [] {
      SplitNoSeparator(a[1..], sep);
      assert a == [a[0]] + a[1..];
    }
  }

  lemma {:induction false} SplitAtSeparator(a: string, b: string, sep: char)
    requires sep !in a
    ensures Split(a + [sep] + b, sep) == [a] + Split(b, sep)
    decreases |a|
  {
    if a == [] {
      assert ([sep] + b)[1..] == b;
    } else {
      SplitAtSeparator(a[1..], b, sep);
      assert (a + [sep] + b)[1..] == a[1..] + [sep] + b;
      assert a == [a[0]] + a[1..];
    }
  }

  /** Splitting the join of separator-free pieces gives back the pieces. */
  lemma {:induction false} SplitJoin(parts: seq<string>, sep: char)
    requires |parts| >= 1
    requires forall p :: p in parts ==> sep !in p
    ensures Split(Join(parts, sep), sep) == parts
    decreases |parts|
  {
    if |parts| == 1 {
      SplitNoSeparator(parts[0], sep);
    } else {
      SplitJoin(parts[1..], sep);
      SplitAtSeparator(parts[0], Join(parts[1..], sep), sep);
      assert parts == [parts[0]] + parts[1..];
    }
  }

  /** `Split` of a string seen as its first character and the rest. */
  lemma SplitCons(c: char, rest: string, sep: char)
    ensures var r := Split(rest, sep);
      Split([c] + rest, sep) == if c == sep then [""] + r else [[c] + r[0]] + r[1..]
  {
    assert ([c] + rest)[0] == c && ([c] + rest)[1..] == rest;
  }

  /** Splitting at a separator the caller wrote splits each side on its own. */
  lemma {:induction false} SplitConcat(a: string, b: string, sep: char)
    ensures Split(a + [sep] + b, sep) == Split(a, sep) + Split(b, sep)
    decreases |a|
  {
    if a == [] {
      SplitCons(sep, b, sep);
      assert a + [sep] + b == [sep] + b;
    } else {
      var a' := a[1..];
      SplitConcat(a', b, sep);
      SplitCons(a[0], a' + [sep] + b, sep);
      SplitCons(a[0], a', sep);
      assert a + [sep] + b == [a[0]] + (a' + [sep] + b);
      assert a == [a[0]] + a';
    }
  }

  /** Python's `str.lower()` on one character, for the ASCII letters. */
  function LowerChar(c: char): char {
    if 'A' <= c <= 'Z' then (c as int + 32) as char else c
  }

  /** Python's `str.lower()`, ASCII letters only. */
  function Lower(s: string): string {
    seq(|s|, i requires 0 <= i < |s| => LowerChar(s[i]))
  }

  /** Lower-casing twice is lower-casing once. */
  lemma LowerIdempotent(s: string)
    ensures Lower(Lower(s)) == Lower(s)
  {
  }

  /** Two strings that differ only in the case of their letters. */
  predicate EqualIgnoringCase(a: string, b: string) {
    |a| == |b| &&
    forall i :: 0 <= i < |a| ==>
      a[i] == b[i] || ('A' <= a[i] <= 'Z' && b[i] == (a[i] as int + 32) as char)
                   || ('A' <= b[i] <= 'Z' && a[i] == (b[i] as int + 32) as char)
  }

  /** Strings that differ only in letter case have the same lower-case form. */
  lemma LowerIgnoresCase(a: string, b: string)
    requires EqualIgnoringCase(a, b)
    ensures Lower(a) == Lower(b)
  {
  }

  /** Python's `s.lstrip(c)` for a single character `c`. */
  function LStripChar(s: string, c: char): (r: string)
    ensures |r| <= |s| && r == s[|s| - |r|..]
    ensures forall i :: 0 <= i < |s| - |r| ==> s[i] == c
    ensures r == [] || r[0] != c
  {
    if |s| > 0 && s[0] == c then LStripChar(s[1..], c) else s
  }

  /** Python's `s.find(c)`, with "not found" as `|s|` instead of -1. */
  function IndexOf(s: string, c: char): (i: nat)
    ensures i <= |s|
    ensures i < |s| ==> s[i] == c
    ensures c !in s[..i]
  {
    if s == [] then 0
    else if s[0] == c then 0
    else
      var j := IndexOf(s[1..], c);
      assert s[..j + 1] == [s[0]] + s[1..][..j];
      j + 1
  }

  /** The first occurrence is where `IndexOf` finds it. */
  lemma {:induction false} IndexOfFirst(s: string, c: char, i: nat)
    requires i < |s| && s[i] == c && c !in s[..i]
    ensures IndexOf(s, c) == i
  {
    if i > 0 {
      assert s[0] in s[..i];
      assert s[1..][..i - 1] == s[1..i];
      assert forall x :: x in s[1..i] ==> x in s[..i];
      IndexOfFirst(s[1..], c, i - 1);
    }
  }

  function Pow10(n: nat): (p: nat)
    ensures p >= 1
  {
    if n == 0 then 1 else 10 * Pow10(n - 1)
  }

  /** `n` digits denote a number below `10^n`. */
  lemma {:induction false} DigitsBound(s: string)
    requires AllDigits(s)
    ensures DigitsValue(s) < Pow10(|s|)
  {
    if s != [] {
      DigitsBound(s[..|s| - 1]);
    }
  }

  lemma AllDigitsConcat(a: string, b: string)
    requires AllDigits(a) && AllDigits(b)
    ensures AllDigits(a + b)
  {
    forall i | 0 <= i < |a + b| ensures IsDigit((a + b)[i]) {
      if i < |a| { assert (a + b)[i] == a[i]; } else { assert (a + b)[i] == b[i - |a|]; }
    }
  }

  /** Digits written one after the other: the first run is shifted left by the
      length of the second. */
  lemma {:induction false} DigitsConcat(a: string, b: string)
    requires AllDigits(a) && AllDigits(b)
    ensures AllDigits(a + b)
    ensures DigitsValue(a + b) == DigitsValue(a) * Pow10(|b|) + DigitsValue(b)
  {
    AllDigitsConcat(a, b);
    if b == [] {
      assert a + b == a;
    } else {
      var b' := b[..|b| - 1];
      var c := b[|b| - 1];
      assert (a + b)[..|a + b| - 1] == a + b';
      assert (a + b)[|a + b| - 1] == c;
      DigitsConcat(a, b');
      assert DigitsValue(a + b) == DigitsValue(a + b') * 10 + DigitValue(c);
      assert DigitsValue(b) == DigitsValue(b') * 10 + DigitValue(c);
      assert Pow10(|b|) == 10 * Pow10(|b'|);
      ShiftLeft(DigitsValue(a), Pow10(|b'|), DigitsValue(b'), DigitValue(c));
    }
  }

  /** Appending a digit to a shifted sum. */
  lemma ShiftLeft(x: int, p: int, y: int, d: int)
    ensures (x * p + y) * 10 + d == x * (10 * p) + (y * 10 + d)
  {
    assert x * (10 * p) == (x * p) * 10;
  }

  /** A suffix of a suffix of `s` is a suffix of `s`. */
  lemma SuffixOfSuffix(s: string, k: nat, u: string)
    requires k <= |s| && |u| <= |s| - k && u == s[k..][|s| - k - |u|..]
    ensures u == s[|s| - |u|..]
  {
    assert forall j :: 0 <= j < |u| ==> u[j] == s[k..][|s| - k - |u| + j];
  }

  /** What occurs in a suffix occurs in the whole string. */
  lemma InSuffix(s: string, k: nat, c: char)
    requires k <= |s| && c in s[k..]
    ensures c in s
  {
    var j :| 0 <= j < |s[k..]| && s[k..][j] == c;
    assert s[k + j] == c;
  }

  /** Two digits read as a number. */
  lemma TwoDigits(t: string)
    requires |t| == 2 && AllDigits(t)
    ensures DigitsValue(t) == DigitValue(t[0]) * 10 + DigitValue(t[1])
  {
    var head := t[..1];
    assert head[..0] == [] && head[0] == t[0];
    assert DigitsValue(head) == DigitValue(t[0]);
    assert t[..|t| - 1] == head;
  }

  /** Python's `s.startswith(prefix)`. */
  predicate StartsWith(s: string, prefix: string) {
    |prefix| <= |s| && s[..|prefix|] == prefix
  }

  /** Python's `s.replace(a, b)` for one-character `a` and `b`. */
  function ReplaceChar(s: string, from: char, to: char): (r: string)
    ensures |r| == |s|
    ensures from != to ==> from !in r
    ensures from !in s ==> r == s
  {
    seq(|s|, i requires 0 <= i < |s| => if s[i] == from then to else s[i])
  }

  predicate IsDigit(c: char) {
    '0' <= c <= '9'
  }

  predicate AllDigits(s: string) {
    forall i :: 0 <= i < |s| ==> IsDigit(s[i])
  }

  function DigitValue(c: char): int
    requires IsDigit(c)
  {
    c as int - '0' as int
  }

  /** The number a run of decimal digits denotes (Python's `int(s)`). */
  function DigitsValue(s: string): (n: nat)
    requires AllDigits(s)
  {
    if s == [] then 0 else DigitsValue(s[..|s| - 1]) * 10 + DigitValue(s[|s| - 1])
  }

  function DigitChar(d: int): (c: char)
    requires 0 <= d < 10
    ensures IsDigit(c) && DigitValue(c) == d
  {
    ('0' as int + d) as char
  }

  /** Python's `str(n)` for a natural number. */
  function NatToString(n: nat): (r: string)
    ensures |r| >= 1 && AllDigits(r)
  {
    if n < 10 then [DigitChar(n)] else NatToString(n / 10) + [DigitChar(n % 10)]
  }

  /** Python's `str(n)` for an integer. */
  function IntToString(n: int): string {
    if n < 0 then "-" + NatToString(-n) else NatToString(n)
  }

  /** `str(n)` is read back as `n` by `int(...)`. */
  lemma {:induction false} NatToStringRoundTrip(n: nat)
    ensures DigitsValue(NatToString(n)) == n
  {
    if n >= 10 {
      var s := NatToString(n);
      NatToStringRoundTrip(n / 10);
      assert s[..|s| - 1] == NatToString(n / 10);
    }
  }
}
