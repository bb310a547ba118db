/** The Python `str` built-ins the table puller is written with: `split` on a
    one-character separator, `join`, `strip` with no argument, and `str` of a
    natural number. Each is given as a function with the properties that the
    rest of the model relies on. */
module PyStr {

  /** The characters for which Python's `str.isspace` holds, which are the
      characters `str.strip()` removes. */
  predicate IsSpace(c: char) {
    c == '\t' || c == '\n' || c == '\U{b}' || c == '\U{c}' || c == '\r' ||
    c == '\U{1c}' || c == '\U{1d}' || c == '\U{1e}' || c == '\U{1f}' || c == ' ' ||
    c == '\U{85}' || c == '\U{a0}' || c == '\U{1680}' ||
    ('\U{2000}' <= c <= '\U{200a}') ||
    c == '\U{2028}' || c == '\U{2029}' || c == '\U{202f}' || c == '\U{205f}' ||
    c == '\U{3000}'
  }

  predicate AllSpace(s: string) {
    forall k :: 0 <= k < |s| ==> IsSpace(s[k])
  }

  /** `s` neither starts nor ends with white space. */
  predicate Trimmed(s: string) {
    s == [] || (!IsSpace(s[0]) && !IsSpace(s[|s| - 1]))
  }

  // ---------------------------------------------------------------------------
  // str.split(sep) for a one-character separator
  // ---------------------------------------------------------------------------

  /** `s.split(sep)`: the pieces of `s` between occurrences of `sep`. */
  function Split(s: string, sep: char): (parts: seq<string>)
    ensures |parts| >= 1
    ensures forall k :: 0 <= k < |parts| ==> sep !in parts[k]
  {
    if s == [] then [""]
    else
      assert s == [s[0]] + s[1..];
      var rest := Split(s[1..], sep);
      if s[0] == sep then [""] + rest
      else [[s[0]] + rest[0]] + rest[1..]
  }

  /** There is one piece more than there are separators. */
  lemma {:induction false} SplitCount(s: string, sep: char)
    ensures |Split(s, sep)| == multiset(s)[sep] + 1
  {
    if s != [] {
      SplitCount(s[1..], sep);
      assert s == [s[0]] + s[1..];
    }
  }

  /** `delim.join(parts)`. */
  function Join(parts: seq<string>, delim: string): string {
    if |parts| == 0 then ""
    else if |parts| == 1 then parts[0]
    else parts[0] + delim + Join(parts[1..], delim)
  }

  lemma {:induction false} SplitNoSeparator(s: string, sep: char)
    requires sep !in s
    ensures Split(s, sep) == [s]
  {
    if s != [] {
      assert s[0] in s;
      SplitNoSeparator(s[1..], sep);
      assert [s[0]] + s[1..] == s;
    }
  }

  /** Splitting is compositional: the separator cuts the text into the pieces
      of its left part followed by the pieces of its right part. */
  lemma {:induction false} SplitAt(a: string, b: string, sep: char)
    ensures Split(a + [sep] + b, sep) == Split(a, sep) + Split(b, sep)
  {
    var s := a + [sep] + b;
    if a == [] {
      assert s[1..] == b;
    } else {
      assert s[1..] == a[1..] + [sep] + b;
      SplitAt(a[1..], b, sep);
    }
  }

  /** A separator-free text before the first separator is the first piece. */
  lemma SplitLine(a: string, rest: string, sep: char)
    requires sep !in a
    ensures Split(a + [sep] + rest, sep) == [a] + Split(rest, sep)
  {
    SplitAt(a, rest, sep);
    SplitNoSeparator(a, sep);
  }

  /** Joining the pieces with the separator gives back the text. */
  lemma {:induction false} JoinSplit(s: string, sep: char)
    ensures Join(Split(s, sep), [sep]) == s
  {
    if s != [] {
      var rest := Split(s[1..], sep);
      JoinSplit(s[1..], sep);
      if s[0] != sep {
        var parts := Split(s, sep);
        assert parts[1..] == rest[1..];
        if |rest| > 1 {
          assert rest == [rest[0]] + rest[1..];
          assert Join(rest, [sep]) == rest[0] + [sep] + Join(rest[1..], [sep]);
        }
      } else {
        assert ([""] + rest)[1..] == rest;
      }
    }
  }

  /** Splitting a joined list gives back the list when no piece contains the
      separator. */
  lemma {:induction false} SplitJoin(parts: seq<string>, sep: char)
    requires |parts| >= 1
    requires forall k :: 0 <= k < |parts| ==> sep !in parts[k]
    ensures Split(Join(parts, [sep]), sep) == parts
  {
    SplitNoSeparator(parts[0], sep);
    if |parts| > 1 {
      var rest := Join(parts[1..], [sep]);
      SplitJoin(parts[1..], sep);
      SplitLine(parts[0], rest, sep);
      assert Join(parts, [sep]) == parts[0] + [sep] + rest;
      assert parts == [parts[0]] + parts[1..];
    }
  }

  /** A character of one of the parts is a character of the joined text. */
  lemma {:induction false} CharInJoin(parts: seq<string>, delim: string, k: nat, c: char)
    requires k < |parts| && c in parts[k]
    ensures c in Join(parts, delim)
  {
    if |parts| > 1 {
      if k > 0 {
        CharInJoin(parts[1..], delim, k - 1, c);
      }
      assert Join(parts, delim) == parts[0] + delim + Join(parts[1..], delim);
    }
  }

  // ---------------------------------------------------------------------------
  // str.strip()
  // ---------------------------------------------------------------------------

  function StripLeft(s: string): string {
    if s != [] && IsSpace(s[0]) then StripLeft(s[1..]) else s
  }

  function StripRight(s: string): string {
    if s != [] && IsSpace(s[|s| - 1]) then StripRight(s[..|s| - 1]) else s
  }

  /** `s.strip()`: `s` without its leading and trailing white space. */
  function Strip(s: string): (r: string)
    ensures |r| <= |s|
    ensures Trimmed(r)
    ensures r == [] <==> AllSpace(s)
  {
    var r := StripRight(StripLeft(s));
    assert |r| <= |s| && Trimmed(r) && (r == [] <==> AllSpace(s)) by {
      var i := StripLeftIndex(s);
      var t := s[i..];
      var j := StripRightIndex(t);
      assert r == t[..j];
      if AllSpace(s) {
        assert i == |s|;
      }
      if r == [] {
        assert s == s[..i] + t[j..];
      }
    }
    r
  }

  /** `StripLeft(s)` is `s` from its first non-space character on. */
  lemma {:induction false} StripLeftIndex(s: string) returns (i: nat)
    ensures i <= |s| && StripLeft(s) == s[i..] && AllSpace(s[..i])
    ensures i == |s| || !IsSpace(s[i])
  {
    if s != [] && IsSpace(s[0]) {
      var i' := StripLeftIndex(s[1..]);
      i := i' + 1;
      assert s[1..][i'..] == s[i..];
      assert s[..i] == [s[0]] + s[1..][..i'];
    } else {
      i := 0;
    }
  }

  /** `StripRight(s)` is `s` up to its last non-space character. */
  lemma {:induction false} StripRightIndex(s: string) returns (j: nat)
    ensures j <= |s| && StripRight(s) == s[..j] && AllSpace(s[j..])
    ensures j == 0 || !IsSpace(s[j - 1])
  {
    if s != [] && IsSpace(s[|s| - 1]) {
      var t := s[..|s| - 1];
      assert StripRight(s) == StripRight(t);
      j := StripRightIndex(t);
      assert t[..j] == s[..j];
      forall k | j <= k < |s| ensures IsSpace(s[k]) {
        if k < |s| - 1 {
          assert s[k] == t[j..][k - j];
        }
      }
    } else {
      j := |s|;
      assert s[..|s|] == s;
    }
  }

  lemma {:induction false} StripLeftSpaces(p: string, s: string)
    requires AllSpace(p)
    ensures StripLeft(p + s) == StripLeft(s)
  {
    if p != [] {
      assert (p + s)[1..] == p[1..] + s;
      StripLeftSpaces(p[1..], s);
    } else {
      assert p + s == s;
    }
  }

  lemma {:induction false} StripRightSpaces(s: string, q: string)
    requires AllSpace(q)
    ensures StripRight(s + q) == StripRight(s)
  {
    if q != [] {
      var t := s + q;
      assert t[..|t| - 1] == s + q[..|q| - 1];
      StripRightSpaces(s, q[..|q| - 1]);
    } else {
      assert s + q == s;
    }
  }

  /** `Strip` removes exactly the white space around a text that has none at
      its ends: this is the reference characterisation of `str.strip()`. */
  lemma StripPadded(p: string, s: string, q: string)
    requires AllSpace(p) && AllSpace(q) && Trimmed(s)
    ensures Strip(p + s + q) == s
  {
    StripLeftSpaces(p, s + q);
    assert p + s + q == p + (s + q);
    if s == [] {
      assert s + q == q;
      StripLeftSpaces(q, []);
      assert q + [] == q;
      assert StripLeft(q) == [];
    } else {
      assert StripLeft(s + q) == s + q;
      StripRightSpaces(s, q);
    }
  }

  /** The stripped text is the part of `s` between a white-space prefix and a
      white-space suffix. */
  lemma StripFactor(s: string) returns (i: nat, j: nat)
    ensures i <= j <= |s| && Strip(s) == s[i..j]
    ensures AllSpace(s[..i]) && AllSpace(s[j..])
  {
    i := StripLeftIndex(s);
    var t := s[i..];
    var j0 := StripRightIndex(t);
    j := i + j0;
    assert t[..j0] == s[i..j];
    assert t[j0..] == s[j..];
  }

  /** White space around a text makes no difference to its strip. */
  lemma StripIgnoresPadding(p: string, s: string, q: string)
    requires AllSpace(p) && AllSpace(q)
    ensures Strip(p + s + q) == Strip(s)
  {
    var i, j := StripFactor(s);
    Regroup(p, s, q, i, j);
    AllSpaceConcat(p, s[..i]);
    AllSpaceConcat(s[j..], q);
    StripPadded(p + s[..i], s[i..j], s[j..] + q);
  }

  lemma Regroup(p: string, s: string, q: string, i: nat, j: nat)
    requires i <= j <= |s|
    ensures p + s + q == (p + s[..i]) + s[i..j] + (s[j..] + q)
  {
    assert s == s[..i] + s[i..j] + s[j..];
  }

  lemma AllSpaceConcat(a: string, b: string)
    requires AllSpace(a) && AllSpace(b)
    ensures AllSpace(a + b)
  {
    forall k | 0 <= k < |a + b| ensures IsSpace((a + b)[k]) {
      if k >= |a| { assert (a + b)[k] == b[k - |a|]; }
    }
  }

  lemma StripIdempotent(s: string)
    ensures Strip(Strip(s)) == Strip(s)
  {
    StripPadded([], Strip(s), []);
    assert [] + Strip(s) + [] == Strip(s);
  }

  // ---------------------------------------------------------------------------
  // str(n) for a natural number
  // ---------------------------------------------------------------------------

  predicate IsDigit(c: char) {
    '0' <= c <= '9'
  }

  function DigitChar(d: nat): (c: char)
    requires d < 10
    ensures IsDigit(c)
  {
    "0123456789"[d]
  }

  function DigitValue(c: char): (d: nat)
    requires IsDigit(c)
    ensures d < 10
  {
    (c as int - '0' as int) as nat
  }

  /** `str(n)`: the decimal numeral of `n`, without leading zeros. */
  function DecimalString(n: nat): (s: string)
    ensures s != []
    ensures forall k :: 0 <= k < |s| ==> IsDigit(s[k])
    ensures s[0] == '0' ==> n == 0
  {
    if n < 10 then [DigitChar(n)]
    else DecimalString(n / 10) + [DigitChar(n % 10)]
  }

  /** The value of a numeral, as Python's `int` reads it. */
  function DecimalValue(s: string): nat
    requires forall k :: 0 <= k < |s| ==> IsDigit(s[k])
  {
    if s == [] then 0
    else DecimalValue(s[..|s| - 1]) * 10 + DigitValue(s[|s| - 1])
  }

  /** `int(str(n)) == n`. */
  lemma {:induction false} DecimalRoundTrip(n: nat)
    ensures DecimalValue(DecimalString(n)) == n
  {
    var s := DecimalString(n);
    if n >= 10 {
      DecimalRoundTrip(n / 10);
      assert s[..|s| - 1] == DecimalString(n / 10);
    }
  }
}
