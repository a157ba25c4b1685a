/** String helpers with JavaScript semantics: `String.prototype.trim`,
    `startsWith`, first-occurrence `replace`, the `\D` and `\.` regular
    expression filters, and `Number.prototype.toString` on integers. */
module Text {
  import opened Wrappers
  import opened Selection

  /** The characters `trim` removes: ECMAScript WhiteSpace and LineTerminator. */
  predicate IsWhitespace(c: char) {
    var n := c as int;
    n == 0x09 || n == 0x0A || n == 0x0B || n == 0x0C || n == 0x0D || n == 0x20
    || n == 0xA0 || n == 0x1680 || (0x2000 <= n <= 0x200A) || n == 0x2028
    || n == 0x2029 || n == 0x202F || n == 0x205F || n == 0x3000 || n == 0xFEFF
  }

  /** Removes leading whitespace (see `TrimStartSpec`). */
  function TrimStart(s: string): (r: string)
    ensures |r| <= |s|
    decreases |s|
  {
    if s != [] && IsWhitespace(s[0]) then TrimStart(s[1..]) else s
  }

  /** Removes trailing whitespace (see `TrimEndSpec`). */
  function TrimEnd(s: string): (r: string)
    ensures |r| <= |s|
    decreases |s|
  {
    if s != [] && IsWhitespace(s[|s| - 1]) then TrimEnd(s[..|s| - 1]) else s
  }

  /** `TrimStart` leaves a suffix of `s` that does not begin with whitespace,
      and everything it cuts off is whitespace. */
  lemma {:induction false} TrimStartSpec(s: string)
    ensures var r := TrimStart(s);
      && r == s[|s| - |r|..]
      && (forall k :: 0 <= k < |s| - |r| ==> IsWhitespace(s[k]))
      && (r == [] || !IsWhitespace(r[0]))
    decreases |s|
  {
    if s != [] && IsWhitespace(s[0]) {
      TrimStartSpec(s[1..]);
    }
  }

  /** `TrimEnd` leaves a prefix of `s` that does not end with whitespace, and
      everything it cuts off is whitespace. */
  lemma {:induction false} TrimEndSpec(s: string)
    ensures var r := TrimEnd(s);
      && r == s[..|r|]
      && (forall k :: |r| <= k < |s| ==> IsWhitespace(s[k]))
      && (r == [] || !IsWhitespace(r[|r| - 1]))
    decreases |s|
  {
    if s != [] && IsWhitespace(s[|s| - 1]) {
      TrimEndSpec(s[..|s| - 1]);
      var r := TrimEnd(s);
      assert s[..|s| - 1][..|r|] == s[..|r|];
    }
  }

  /** `String.prototype.trim`: neither end of the result is whitespace. */
  function Trim(s: string): (r: string)
    ensures r == [] || (!IsWhitespace(r[0]) && !IsWhitespace(r[|r| - 1]))
  {
    TrimStartSpec(s);
    TrimEndSpec(TrimStart(s));
    var t := TrimStart(s);
    var r := TrimEnd(t);
    assert r != [] ==> r[0] == t[0];
    r
  }

  /** Trimming twice is trimming once. */
  lemma TrimIdempotent(s: string)
    ensures Trim(Trim(s)) == Trim(s)
  {
    var t := Trim(s);
    assert TrimStart(t) == t;
    assert TrimEnd(TrimStart(t)) == t;
  }

  /** `startsWith`. */
  predicate StartsWith(s: string, prefix: string) {
    |prefix| <= |s| && s[..|prefix|] == prefix
  }

  /** `String.prototype.replace` with a string pattern and a replacement
      containing no `$` patterns: only the first occurrence of `pattern` is
      replaced. */
  function ReplaceFirst(s: string, pattern: string, replacement: string): (r: string)
    ensures StartsWith(s, pattern) ==> r == replacement + s[|pattern|..]
    ensures |pattern| > |s| ==> r == s
    decreases |s|
  {
    if |s| < |pattern| then s
    else if s[..|pattern|] == pattern then replacement + s[|pattern|..]
    else [s[0]] + ReplaceFirst(s[1..], pattern, replacement)
  }

  /** The characters `\d` matches (no Unicode flag: ASCII digits only). */
  predicate IsDigit(c: char) {
    '0' <= c <= '9'
  }

  predicate AllDigits(s: string) {
    forall k :: 0 <= k < |s| ==> IsDigit(s[k])
  }

  /** `s.replace(/\D/g, "")`: the digits of `s`, in order. */
  function KeepDigits(s: string): (r: string)
    ensures AllDigits(r)
  {
    Filter(s, IsDigit)
  }

  /** `KeepDigits` keeps exactly the digits of `s`, in order: `idx` lists
      their positions, ascending, and covers every digit of `s`. */
  lemma KeepDigitsExact(s: string)
    ensures var r := KeepDigits(s);
      var idx := Kept(s, IsDigit);
      && |idx| == |r|
      && (forall k :: 0 <= k < |idx| ==> idx[k] < |s| && r[k] == s[idx[k]])
      && (forall k, l :: 0 <= k < l < |idx| ==> idx[k] < idx[l])
      && (forall i :: 0 <= i < |s| ==> (IsDigit(s[i]) <==> i in idx))
  {
    var idx := Kept(s, IsDigit);
    forall i | 0 <= i < |s| && i in idx ensures IsDigit(s[i]) {
      var k :| 0 <= k < |idx| && idx[k] == i;
    }
  }

  /** Whitespace is never a digit, so removing leading whitespace keeps the digits. */
  lemma KeepDigitsOfTrimStart(s: string)
    ensures KeepDigits(TrimStart(s)) == KeepDigits(s)
  {
    TrimStartSpec(s);
    var t := TrimStart(s);
    var cut := s[..|s| - |t|];
    assert s == cut + t;
    FilterAppend(cut, t, IsDigit);
    FilterDropsAll(cut, IsDigit);
  }

  /** Whitespace is never a digit, so removing trailing whitespace keeps the digits. */
  lemma KeepDigitsOfTrimEnd(s: string)
    ensures KeepDigits(TrimEnd(s)) == KeepDigits(s)
  {
    TrimEndSpec(s);
    var u := TrimEnd(s);
    var tail := s[|u|..];
    assert s == u + tail;
    FilterAppend(u, tail, IsDigit);
    FilterDropsAll(tail, IsDigit);
  }

  /** Trimming never changes the digits of a string. */
  lemma KeepDigitsOfTrim(s: string)
    ensures KeepDigits(Trim(s)) == KeepDigits(s)
  {
    KeepDigitsOfTrimStart(s);
    KeepDigitsOfTrimEnd(TrimStart(s));
  }

  /** Dropping a leading non-digit does not change the digits. */
  lemma KeepDigitsDropNonDigit(s: string)
    requires s != [] && !IsDigit(s[0])
    ensures KeepDigits(s[1..]) == KeepDigits(s)
  {
    assert s == [s[0]] + s[1..];
    FilterAppend([s[0]], s[1..], IsDigit);
    FilterDropsAll([s[0]], IsDigit);
  }

  /** A string of digits is its own digit filter. */
  lemma KeepDigitsOfDigits(s: string)
    requires AllDigits(s)
    ensures KeepDigits(s) == s
  {
    FilterKeepsAll(s, IsDigit);
  }

  predicate NotDot(c: char) {
    c != '.'
  }

  /** `s.replace(/\./g, "")`: `s` with every `.` removed, other characters in order. */
  function RemoveDots(s: string): (r: string)
    ensures '.' !in r
    ensures |r| <= |s|
  {
    var r := Filter(s, NotDot);
    assert forall k :: 0 <= k < |r| ==> NotDot(r[k]);
    r
  }

  /** `RemoveDots` keeps every character of `s` other than `.`, in order:
      `idx` lists their positions, ascending, and covers every non-dot of `s`. */
  lemma RemoveDotsExact(s: string)
    ensures var r := RemoveDots(s);
      var idx := Kept(s, NotDot);
      && |idx| == |r|
      && (forall k :: 0 <= k < |idx| ==> idx[k] < |s| && r[k] == s[idx[k]])
      && (forall k, l :: 0 <= k < l < |idx| ==> idx[k] < idx[l])
      && (forall i :: 0 <= i < |s| ==> (s[i] != '.' <==> i in idx))
  {
    var idx := Kept(s, NotDot);
    forall i | 0 <= i < |s| && i in idx ensures s[i] != '.' {
      var k :| 0 <= k < |idx| && idx[k] == i;
    }
  }

  /** The character of a decimal digit value. */
  function DigitChar(d: nat): (c: char)
    requires d < 10
    ensures IsDigit(c) && c as int - '0' as int == d
  {
    ('0' as int + d) as char
  }

  /** The decimal numeral of `n`, without leading zeros. */
  function NatToDecimal(n: nat): (r: string)
    ensures r != [] && AllDigits(r)
    ensures r[0] == '0' ==> r == "0"
    ensures r == "0" <==> n == 0
  {
    if n < 10 then [DigitChar(n)] else NatToDecimal(n / 10) + [DigitChar(n % 10)]
  }

  /** The value of a string of decimal digits. */
  function DigitsValue(s: string): nat
    requires AllDigits(s)
  {
    if s == [] then 0 else DigitsValue(s[..|s| - 1]) * 10 + (s[|s| - 1] as int - '0' as int)
  }

  /** `Number.prototype.toString()` on an integer: the canonical decimal
      numeral, with a `-` sign exactly for negatives, `"0"` for zero, no
      leading zero otherwise, and digits after the sign. */
  function IntToDecimal(n: int): (r: string)
    ensures r != []
    ensures r[0] == '-' <==> n < 0
    ensures n == 0 ==> r == "0"
    ensures n < 0 ==> |r| > 1 && AllDigits(r[1..]) && r[1] != '0'
    ensures n >= 0 ==> AllDigits(r) && (n != 0 ==> r[0] != '0')
  {
    if n < 0 then
      var m := NatToDecimal(-n);
      assert ("-" + m)[1..] == m;
      "-" + m
    else NatToDecimal(n)
  }

  /** Reads back an optionally signed decimal numeral; `None` for anything else. */
  function ParseDecimal(s: string): Option<int> {
    if s != [] && s[0] == '-' then
      (if |s| > 1 && AllDigits(s[1..]) then Some(0 - DigitsValue(s[1..]) as int) else None)
    else if s != [] && AllDigits(s) then Some(DigitsValue(s))
    else None
  }

  /** Reading back the numeral of a natural number gives that number. */
  lemma {:induction false} NatDecimalRoundTrip(n: nat)
    ensures DigitsValue(NatToDecimal(n)) == n
  {
    if n >= 10 {
      NatDecimalRoundTrip(n / 10);
      var r := NatToDecimal(n);
      assert r[..|r| - 1] == NatToDecimal(n / 10);
    }
  }

  /** `IntToDecimal` is a numeral for every integer: reading it back gives the
      integer, and it consists of digits after an optional leading `-`. */
  lemma IntDecimalRoundTrip(n: int)
    ensures ParseDecimal(IntToDecimal(n)) == Some(n)
  {
    if n < 0 {
      var r := IntToDecimal(n);
      assert r[1..] == NatToDecimal(-n);
      NatDecimalRoundTrip(-n);
    } else {
      NatDecimalRoundTrip(n);
    }
  }
}
