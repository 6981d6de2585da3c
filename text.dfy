/** String helpers with Python's semantics: `str(int)`, `str.replace("::", "_")`,
    `sep.join(lines)` and the slice `s[:k]`. */
module Text {

  /** The decimal digit character for `d`. */
  function DigitChar(d: nat): (c: char)
    requires d < 10
    ensures '0' <= c <= '9'
    ensures c as int - '0' as int == d
  {
    ('0' as int + d) as char
  }

  /** Python's `str(n)` for a natural number: most significant digit first,
      no leading zeros. */
  function NatToString(n: nat): (r: string)
    ensures 1 <= |r|
    ensures forall i :: 0 <= i < |r| ==> '0' <= r[i] <= '9'
    ensures |r| == 1 <==> n < 10
  {
    if n < 10 then [DigitChar(n)] else NatToString(n / 10) + [DigitChar(n % 10)]
  }

  /** Python's `str(i)` for any integer. */
  function IntToString(i: int): (r: string)
    ensures 1 <= |r|
    ensures r[0] == '-' <==> i < 0
  {
    if i < 0 then "-" + NatToString(-i) else NatToString(i)
  }

  /** The number a string of decimal digits denotes, most significant digit first. */
  function DigitsValue(s: string): int
  {
    if s == [] then 0 else DigitsValue(s[..|s| - 1]) * 10 + (s[|s| - 1] as int - '0' as int)
  }

  /** The number a possibly signed decimal text denotes. */
  function SignedValue(s: string): int
  {
    if 0 < |s| && s[0] == '-' then -DigitsValue(s[1..]) else DigitsValue(s)
  }

  /** `str(n)` reads back as `n`, and has no leading zero unless it is "0". */
  lemma {:induction false} NatToStringValue(n: nat)
    ensures DigitsValue(NatToString(n)) == n
    ensures NatToString(n)[0] == '0' <==> n == 0
  {
    if 10 <= n {
      NatToStringValue(n / 10);
      var s := NatToString(n);
      assert s[..|s| - 1] == NatToString(n / 10);
    }
  }

  /** `str(i)` reads back as `i` for every integer. */
  lemma IntToStringValue(i: int)
    ensures SignedValue(IntToString(i)) == i
  {
    if i < 0 {
      NatToStringValue(-i);
      assert IntToString(i)[1..] == NatToString(-i);
    } else {
      NatToStringValue(i);
    }
  }

  /** Distinct numbers print differently. */
  lemma {:induction false} NatToStringInjective(a: nat, b: nat)
    requires NatToString(a) == NatToString(b)
    ensures a == b
  {
    var s := NatToString(a);
    if a < 10 {
      assert b < 10;
      assert DigitChar(a) == s[0] == DigitChar(b);
    } else {
      assert 10 <= b;
      assert DigitChar(a % 10) == s[|s| - 1] == DigitChar(b % 10);
      assert NatToString(a / 10) == s[..|s| - 1] == NatToString(b / 10);
      NatToStringInjective(a / 10, b / 10);
    }
  }

  /** Distinct integers print differently, so names built from them never collide. */
  lemma IntToStringInjective(a: int, b: int)
    requires IntToString(a) == IntToString(b)
    ensures a == b
  {
    if a < 0 {
      assert b < 0;
      assert NatToString(-a) == IntToString(a)[1..] == NatToString(-b);
      NatToStringInjective(-a, -b);
    } else {
      assert 0 <= b;
      NatToStringInjective(a, b);
    }
  }

  /** `s` has the separator "::" starting at index `i`. */
  predicate SeparatorAt(s: string, i: int)
  {
    0 <= i && i + 1 < |s| && s[i] == ':' && s[i + 1] == ':'
  }

  /** Python's `s.replace("::", "_")`: occurrences are replaced left to right
      without overlapping, so ":::" becomes "_:". No "::" is left over. */
  function ReplaceSeparator(s: string): (r: string)
    ensures forall i :: !SeparatorAt(r, i)
    ensures |r| == 0 <==> |s| == 0
    ensures 0 < |r| && r[0] == ':' ==> s[0] == ':' && (|s| == 1 || s[1] != ':')
  {
    if |s| < 2 then s
    else if s[0] == ':' && s[1] == ':' then
      var rest := ReplaceSeparator(s[2..]);
      assert forall i :: 1 <= i ==> (SeparatorAt("_" + rest, i) <==> SeparatorAt(rest, i - 1));
      "_" + rest
    else
      var rest := ReplaceSeparator(s[1..]);
      assert forall i :: 1 <= i ==> (SeparatorAt([s[0]] + rest, i) <==> SeparatorAt(rest, i - 1));
      [s[0]] + rest
  }

  /** A namespace without "::" is left as it is. */
  lemma {:induction false} ReplaceSeparatorKeeps(s: string)
    requires forall i :: !SeparatorAt(s, i)
    ensures ReplaceSeparator(s) == s
  {
    if 2 <= |s| {
      assert !SeparatorAt(s, 0);
      forall i ensures !SeparatorAt(s[1..], i) {
        assert SeparatorAt(s[1..], i) ==> SeparatorAt(s, i + 1);
      }
      ReplaceSeparatorKeeps(s[1..]);
      assert s == [s[0]] + s[1..];
    }
  }

  /** A leading "::" becomes "_" and the replacement goes on after it. */
  lemma ReplaceSeparatorAtSeparator(t: string)
    ensures ReplaceSeparator("::" + t) == "_" + ReplaceSeparator(t)
  {
    assert ("::" + t)[2..] == t;
  }

  /** A leading character that does not start "::" is kept and the replacement goes
      on after it. */
  lemma ReplaceSeparatorOther(c: char, t: string)
    requires !SeparatorAt([c] + t, 0)
    ensures ReplaceSeparator([c] + t) == [c] + ReplaceSeparator(t)
  {
    assert ([c] + t)[1..] == t;
  }

  /** Python's `sep.join(lines)`. */
  function Join(lines: seq<string>, sep: string): string
  {
    if |lines| == 0 then ""
    else if |lines| == 1 then lines[0]
    else lines[0] + sep + Join(lines[1..], sep)
  }

  /** The joined text starts with the first line and ends with the last one. */
  lemma {:induction false} JoinBounds(lines: seq<string>, sep: string)
    requires 0 < |lines|
    ensures lines[0] <= Join(lines, sep)
    ensures var j := Join(lines, sep); var last := lines[|lines| - 1];
      |last| <= |j| && j[|j| - |last|..] == last
  {
    if 1 < |lines| {
      JoinBounds(lines[1..], sep);
      var j, rest := Join(lines, sep), Join(lines[1..], sep);
      assert j == lines[0] + sep + rest;
      assert j[|j| - |rest|..] == rest;
    }
  }

  /** Python's `s[:k]` for `k >= 0`. */
  function Take(s: string, k: nat): (r: string)
    ensures r <= s
    ensures |r| == if |s| < k then |s| else k
  {
    if |s| < k then s else s[..k]
  }
}
