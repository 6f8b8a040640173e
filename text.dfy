/**
 * The pieces of Go's `strings` and `strconv` packages that the service's
 * request-side logic relies on, over strings as sequences of characters.
 */
module Text {
  import opened Wrappers

  const MaxInt64: int := 0x7FFF_FFFF_FFFF_FFFF
  const MinInt64: int := -0x8000_0000_0000_0000

  // ---------------------------------------------------------------------
  // unicode.IsSpace and strings.TrimSpace
  // ---------------------------------------------------------------------

  /** Go's unicode.IsSpace: the Latin-1 spaces and the Unicode White_Space runes. */
  predicate IsSpace(c: char) {
    var n := c as int;
    (9 <= n <= 13) || n == 32 || n == 0x85 || n == 0xA0 || n == 0x1680
    || (0x2000 <= n <= 0x200A) || n == 0x2028 || n == 0x2029 || n == 0x202F
    || n == 0x205F || n == 0x3000
  }

  predicate AllSpace(s: string) {
    forall i :: 0 <= i < |s| ==> IsSpace(s[i])
  }

  function TrimLeft(s: string): (r: string)
    ensures |r| <= |s| && r == s[|s| - |r|..]
    ensures r != [] ==> !IsSpace(r[0])
  {
    if s != [] && IsSpace(s[0]) then TrimLeft(s[1..]) else s
  }

  function TrimRight(s: string): (r: string)
    ensures |r| <= |s| && r == s[..|r|]
    ensures r != [] ==> !IsSpace(r[|r| - 1])
  {
    if s != [] && IsSpace(s[|s| - 1]) then TrimRight(s[..|s| - 1]) else s
  }

  /** strings.TrimSpace: drops leading and trailing white space. */
  function TrimSpace(s: string): (r: string)
    ensures |r| <= |s|
    ensures r != [] ==> !IsSpace(r[0]) && !IsSpace(r[|r| - 1])
  {
    TrimRight(TrimLeft(s))
  }

  lemma {:induction false} TrimLeftSpaces(pad: string, s: string)
    requires AllSpace(pad)
    ensures TrimLeft(pad + s) == TrimLeft(s)
  {
    if pad != [] {
      assert (pad + s)[1..] == pad[1..] + s;
      TrimLeftSpaces(pad[1..], s);
    } else {
      assert pad + s == s;
    }
  }

  lemma {:induction false} TrimRightSpaces(s: string, pad: string)
    requires AllSpace(pad)
    ensures TrimRight(s + pad) == TrimRight(s)
  {
    if pad != [] {
      assert (s + pad)[..|s + pad| - 1] == s + pad[..|pad| - 1];
      TrimRightSpaces(s, pad[..|pad| - 1]);
    } else {
      assert s + pad == s;
    }
  }

  /** Surrounding white space never changes what TrimSpace returns. */
  lemma {:induction false} TrimSpacePadded(pre: string, s: string, post: string)
    requires AllSpace(pre) && AllSpace(post)
    ensures TrimSpace(pre + s + post) == TrimSpace(s)
  {
    var sp := s + post;
    assert pre + s + post == pre + sp;
    TrimSpaceLeading(pre, sp);
    TrimSpaceTrailing(s, post);
  }

  lemma {:induction false} TrimSpaceLeading(pre: string, s: string)
    requires AllSpace(pre)
    ensures TrimSpace(pre + s) == TrimSpace(s)
  {
    TrimLeftSpaces(pre, s);
  }

  lemma {:induction false} TrimSpaceTrailing(s: string, post: string)
    requires AllSpace(post)
    ensures TrimSpace(s + post) == TrimSpace(s)
  {
    TrimLeftOfPadded(s, post);
    TrimRightSpaces(TrimLeft(s), post);
  }

  lemma {:induction false} TrimLeftOfPadded(s: string, post: string)
    requires AllSpace(post)
    ensures TrimRight(TrimLeft(s + post)) == TrimRight(TrimLeft(s) + post)
  {
    if s != [] && IsSpace(s[0]) {
      assert (s + post)[1..] == s[1..] + post;
      TrimLeftOfPadded(s[1..], post);
    } else if s == [] {
      assert s + post == post;
      TrimLeftSpaces(post, []);
      assert post + [] == post;
      TrimRightSpaces([], post);
      assert [] + post == post;
    }
  }

  // ---------------------------------------------------------------------
  // strings.ToUpper, HasPrefix, HasSuffix, Contains, Join, Split
  // ---------------------------------------------------------------------

  function UpperChar(c: char): char {
    if 'a' <= c <= 'z' then (c as int - 32) as char else c
  }

  /** strings.ToUpper restricted to ASCII letters. */
  function ToUpper(s: string): (r: string)
    ensures |r| == |s|
    ensures forall i :: 0 <= i < |s| ==> r[i] == UpperChar(s[i])
  {
    if s == [] then [] else [UpperChar(s[0])] + ToUpper(s[1..])
  }

  predicate HasPrefix(s: string, prefix: string) {
    |prefix| <= |s| && s[..|prefix|] == prefix
  }

  predicate HasSuffix(s: string, suffix: string) {
    |suffix| <= |s| && s[|s| - |suffix|..] == suffix
  }

  /** sub occurs in s starting at index i. */
  predicate OccursAt(s: string, sub: string, i: int) {
    0 <= i && i + |sub| <= |s| && s[i..i + |sub|] == sub
  }

  predicate Contains(s: string, sub: string) {
    exists i | 0 <= i <= |s| :: OccursAt(s, sub, i)
  }

  /** strings.Join. */
  function Join(parts: seq<string>, sep: string): string {
    if |parts| == 0 then ""
    else if |parts| == 1 then parts[0]
    else parts[0] + sep + Join(parts[1..], sep)
  }

  /** strings.Split with a one-character separator. */
  function Split(s: string, sep: char): (r: seq<string>)
    ensures |r| >= 1
  {
    if s == [] then [[]]
    else
      var rest := Split(s[1..], sep);
      if s[0] == sep then [[]] + rest else [[s[0]] + rest[0]] + rest[1..]
  }

  lemma {:induction false} SplitNoSep(p: string, tail: string, sep: char)
    requires sep !in p
    ensures Split(p + tail, sep) == [p + Split(tail, sep)[0]] + Split(tail, sep)[1..]
  {
    if p != [] {
      assert (p + tail)[1..] == p[1..] + tail;
      SplitNoSep(p[1..], tail, sep);
      assert [p[0]] + (p[1..] + Split(tail, sep)[0]) == p + Split(tail, sep)[0];
    } else {
      var t := Split(tail, sep);
      assert p + tail == tail;
      assert p + t[0] == t[0];
      assert [t[0]] + t[1..] == t;
    }
  }

  /** Splitting a joined list at the separator gives the list back. */
  lemma {:induction false} SplitJoin(parts: seq<string>, sep: char)
    requires |parts| > 0
    requires forall i :: 0 <= i < |parts| ==> sep !in parts[i]
    ensures Split(Join(parts, [sep]), sep) == parts
  {
    if |parts| == 1 {
      SplitNoSep(parts[0], [], sep);
      assert parts[0] + [] == parts[0];
    } else {
      var rest := Join(parts[1..], [sep]);
      SplitJoin(parts[1..], sep);
      assert parts[0] + [sep] + rest == parts[0] + ([sep] + rest);
      SplitNoSep(parts[0], [sep] + rest, sep);
      assert ([sep] + rest)[1..] == rest;
      assert Split([sep] + rest, sep) == [[]] + parts[1..];
      assert parts[0] + [] == parts[0];
      assert parts == [parts[0]] + parts[1..];
    }
  }

  /** A joined list of non-empty parts is empty exactly when the list is. */
  lemma {:induction false} JoinEmpty(parts: seq<string>, sep: string)
    requires forall i :: 0 <= i < |parts| ==> parts[i] != []
    ensures Join(parts, sep) == [] <==> parts == []
  {
  }

  // ---------------------------------------------------------------------
  // strconv: decimal integers
  // ---------------------------------------------------------------------

  predicate IsDigit(c: char) { '0' <= c <= '9' }

  predicate AllDigits(s: string) {
    forall i :: 0 <= i < |s| ==> IsDigit(s[i])
  }

  function DigitValue(c: char): nat
    requires IsDigit(c)
  {
    c as int - '0' as int
  }

  function DigitChar(d: nat): (c: char)
    requires d < 10
    ensures IsDigit(c) && DigitValue(c) == d
  {
    ('0' as int + d) as char
  }

  /** The number an unsigned decimal digit string denotes. */
  function DigitsValue(s: string): nat
    requires AllDigits(s)
  {
    if s == [] then 0 else 10 * DigitsValue(s[..|s| - 1]) + DigitValue(s[|s| - 1])
  }

  /** The decimal digits of n, without leading zeros (strconv.Itoa for n >= 0). */
  function FormatNat(n: nat): (s: string)
    ensures |s| > 0 && AllDigits(s)
  {
    if n < 10 then [DigitChar(n)] else FormatNat(n / 10) + [DigitChar(n % 10)]
  }

  /** strconv.Itoa. */
  function FormatInt(n: int): string {
    if n < 0 then "-" + FormatNat(-n) else FormatNat(n)
  }

  /**
   * strconv.ParseInt(s, 10, 64), and strconv.Atoi on a 64-bit platform:
   * an optional sign, at least one decimal digit and nothing else, and a
   * value inside the int64 range.
   */
  function ParseInt64(s: string): (r: Option<int>)
    ensures r.Some? ==> MinInt64 <= r.value <= MaxInt64
  {
    var signed := |s| > 0 && (s[0] == '-' || s[0] == '+');
    var digits := if signed then s[1..] else s;
    if digits == [] || !AllDigits(digits) then None
    else
      var v: int := if |s| > 0 && s[0] == '-' then -(DigitsValue(digits) as int) else DigitsValue(digits);
      if MinInt64 <= v <= MaxInt64 then Some(v) else None
  }

  lemma {:induction false} FormatNatValue(n: nat)
    ensures DigitsValue(FormatNat(n)) == n
  {
    if n >= 10 {
      var s := FormatNat(n / 10) + [DigitChar(n % 10)];
      assert s[..|s| - 1] == FormatNat(n / 10);
      FormatNatValue(n / 10);
    }
  }

  /** ParseInt64 reads back what FormatInt writes, for every int64. */
  lemma {:induction false} ParseFormatInt(n: int)
    requires MinInt64 <= n <= MaxInt64
    ensures ParseInt64(FormatInt(n)) == Some(n)
  {
    if n < 0 {
      FormatNatValue(-n);
      assert ("-" + FormatNat(-n))[1..] == FormatNat(-n);
    } else {
      FormatNatValue(n);
    }
  }

  /** A decimal number outside the int64 range is rejected (strconv.ErrRange), not clamped. */
  lemma {:induction false} ParseRejectsOutOfRange(n: int)
    requires n < MinInt64 || n > MaxInt64
    ensures ParseInt64(FormatInt(n)) == None
  {
    if n < 0 {
      var digits := FormatNat(-n);
      FormatNatValue(-n);
      assert ("-" + digits)[1..] == digits;
      assert DigitsValue(digits) > MaxInt64 + 1;
    } else {
      var digits := FormatNat(n);
      FormatNatValue(n);
      assert IsDigit(digits[0]);
      assert DigitsValue(digits) > MaxInt64;
    }
  }

  /** A sign with no digits after it is rejected. */
  lemma ParseRejectsBareSign(s: string)
    requires s == "+" || s == "-"
    ensures ParseInt64(s) == None
  {
  }

  /** Any character other than a digit, past an optional leading sign, is rejected. */
  lemma {:induction false} ParseRejectsNonDigit(s: string, i: nat)
    requires i < |s| && !IsDigit(s[i])
    requires i > 0 || (s[0] != '-' && s[0] != '+')
    ensures ParseInt64(s) == None
  {
    var signed := |s| > 0 && (s[0] == '-' || s[0] == '+');
    if signed {
      assert s[1..][i - 1] == s[i];
    }
  }
}
