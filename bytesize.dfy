/**
 * parseByteSize: sizes such as "250MB", "1gb", " 5 kb " or "500", with the
 * binary units KB = 2^10, MB = 2^20 and GB = 2^30, case-insensitive,
 * tolerant of surrounding white space, and refusing anything that does
 * not fit in a positive int64.
 */
module Sizes {
  import opened Wrappers
  import opened Text

  const KiB: int := 0x400
  const MiB: int := 0x10_0000
  const GiB: int := 0x4000_0000

  datatype Unit = Bytes | KB | MB | GB

  function Suffix(u: Unit): string {
    match u
    case Bytes => ""
    case KB => "KB"
    case MB => "MB"
    case GB => "GB"
  }

  function Multiplier(u: Unit): (n: int)
    ensures n >= 1
  {
    match u
    case Bytes => 1
    case KB => KiB
    case MB => MiB
    case GB => GiB
  }

  /** Why a size string is refused. */
  datatype SizeError =
    | EmptySize      // nothing but white space
    | InvalidValue   // the number is not a decimal int64
    | NotPositive    // zero or negative
    | Overflow       // value times unit exceeds the int64 range

  /**
   * The unit an (upper-cased, trimmed) size string ends with, GB tested
   * first, then MB, then KB, and the text in front of it.
   */
  function SplitUnit(t: string): (r: (Unit, string))
    ensures t == r.1 + Suffix(r.0)
    ensures r.0 == Bytes ==> !HasSuffix(t, "GB") && !HasSuffix(t, "MB") && !HasSuffix(t, "KB")
  {
    if HasSuffix(t, "GB") then (GB, t[..|t| - 2])
    else if HasSuffix(t, "MB") then (MB, t[..|t| - 2])
    else if HasSuffix(t, "KB") then (KB, t[..|t| - 2])
    else (Bytes, t)
  }

  /** What parseByteSize returns for s. */
  function ByteSize(s: string): Result<int, SizeError> {
    SizeOf(TrimSpace(ToUpper(s)))
  }

  /** The outcome for an upper-cased string with no surrounding white space. */
  function SizeOf(t: string): Result<int, SizeError> {
    if t == [] then Err(EmptySize)
    else
      var (unit, number) := SplitUnit(t);
      Scaled(unit, ParseInt64(TrimSpace(number)))
  }

  /** The outcome once the number in front of the unit has been parsed (or not). */
  function Scaled(unit: Unit, parsed: Option<int>): Result<int, SizeError> {
    match parsed
    case None => Err(InvalidValue)
    case Some(v) =>
      if v <= 0 then Err(NotPositive)
      else if v > MaxInt64 / Multiplier(unit) then Err(Overflow)
      else Ok(v * Multiplier(unit))
  }

  /**
   * parseByteSize as written: the string and the multiplier are updated
   * step by step, and the overflow test is made only for a multiplier
   * above one.
   */
  method ParseByteSize(input: string) returns (r: Result<int, SizeError>)
    ensures r == ByteSize(input)
    ensures r.Ok? ==> 0 < r.value <= MaxInt64
  {
    var s := TrimSpace(ToUpper(input));
    if s == "" {
      return Err(EmptySize);
    }
    var multiplier := 1;
    if HasSuffix(s, "GB") {
      multiplier := GiB;
      s := s[..|s| - 2];
    } else if HasSuffix(s, "MB") {
      multiplier := MiB;
      s := s[..|s| - 2];
    } else if HasSuffix(s, "KB") {
      multiplier := KiB;
      s := s[..|s| - 2];
    }
    s := TrimSpace(s);
    var parsed := ParseInt64(s);
    if parsed.None? {
      return Err(InvalidValue);
    }
    var value := parsed.value;
    if value <= 0 {
      return Err(NotPositive);
    }
    if multiplier > 1 && value > MaxInt64 / multiplier {
      return Err(Overflow);
    }
    ProductFits(value, multiplier);
    return Ok(value * multiplier);
  }

  lemma ProductFits(v: int, m: int)
    requires 0 < v <= MaxInt64 && m >= 1
    requires m == 1 || v <= MaxInt64 / m
    ensures 0 < v * m <= MaxInt64
  {
    if m > 1 {
      assert v * m <= (MaxInt64 / m) * m by {
        MulMonotone(v, MaxInt64 / m, m);
      }
    }
  }

  lemma MulMonotone(a: int, b: int, m: int)
    requires a <= b && m >= 0
    ensures a * m <= b * m
  {
  }

  /** A successful size is positive and fits in an int64. */
  lemma ByteSizeInRange(s: string)
    ensures ByteSize(s).Ok? ==> 0 < ByteSize(s).value <= MaxInt64
  {
    var t := TrimSpace(ToUpper(s));
    if t != [] {
      var (unit, number) := SplitUnit(t);
      var p := ParseInt64(TrimSpace(number));
      if p.Some? && p.value > 0 && p.value <= MaxInt64 / Multiplier(unit) {
        ProductFits(p.value, Multiplier(unit));
      }
    }
  }

  // ---------------------------------------------------------------------
  // Round trip: a positive decimal number with a unit suffix
  // ---------------------------------------------------------------------

  predicate NoLower(s: string) {
    forall i :: 0 <= i < |s| ==> !('a' <= s[i] <= 'z')
  }

  lemma ToUpperNoLower(s: string)
    requires NoLower(s)
    ensures ToUpper(s) == s
  {
  }

  /** A string whose ends are not white space is its own TrimSpace. */
  lemma {:induction false} TrimSpaceClean(s: string)
    requires s != [] && !IsSpace(s[0]) && !IsSpace(s[|s| - 1])
    ensures TrimSpace(s) == s
  {
  }

  /**
   * The decimal form of any int64 followed by a unit suffix reads back as
   * that number times the unit; it is refused as not positive when the
   * number is zero or negative, and as an overflow exactly when the
   * product leaves the int64 range.
   */
  lemma {:induction false} ByteSizeRoundTrip(v: int, u: Unit)
    requires MinInt64 <= v <= MaxInt64
    ensures v <= 0 ==> ByteSize(FormatInt(v) + Suffix(u)) == Err(NotPositive)
    ensures 0 < v && v * Multiplier(u) <= MaxInt64 ==> ByteSize(FormatInt(v) + Suffix(u)) == Ok(v * Multiplier(u))
    ensures 0 < v && v * Multiplier(u) > MaxInt64 ==> ByteSize(FormatInt(v) + Suffix(u)) == Err(Overflow)
  {
    CanonicalScaled(v, u);
    if v > 0 {
      ScaledPositive(u, v);
    }
  }

  lemma ScaledPositive(u: Unit, v: int)
    requires v > 0
    ensures v * Multiplier(u) <= MaxInt64 ==> Scaled(u, Some(v)) == Ok(v * Multiplier(u))
    ensures v * Multiplier(u) > MaxInt64 ==> Scaled(u, Some(v)) == Err(Overflow)
  {
    var m := Multiplier(u);
    if v * m <= MaxInt64 {
      DivBound(v, m);
    } else {
      MulBound(v, m);
    }
  }

  /** FormatInt writes digits after an optional minus sign, ending in a digit. */
  lemma FormatIntShape(v: int)
    ensures FormatInt(v) != []
    ensures forall i :: 0 <= i < |FormatInt(v)| ==> IsDigit(FormatInt(v)[i]) || FormatInt(v)[i] == '-'
    ensures IsDigit(FormatInt(v)[|FormatInt(v)| - 1])
  {
  }

  lemma NumberWithUnitClean(v: int, u: Unit)
    ensures TrimSpace(ToUpper(FormatInt(v) + Suffix(u))) == FormatInt(v) + Suffix(u)
  {
    var number := FormatInt(v);
    var t := number + Suffix(u);
    FormatIntShape(v);
    NumberNoLower(v);
    NoLowerAppend(number, Suffix(u));
    assert t[0] == number[0];
    assert t[|t| - 1] == (if u == Bytes then number[|number| - 1] else 'B');
    Printable(t[0]);
    Printable(t[|t| - 1]);
    CleanString(t);
  }

  /** A string with no lower-case letter and no white space at either end is its own normal form. */
  lemma CleanString(t: string)
    requires t != [] && NoLower(t) && !IsSpace(t[0]) && !IsSpace(t[|t| - 1])
    ensures TrimSpace(ToUpper(t)) == t
  {
    ToUpperNoLower(t);
    TrimSpaceClean(t);
  }

  /** A printable ASCII character is not white space. */
  lemma Printable(c: char)
    requires 32 < c as int < 0x85
    ensures !IsSpace(c)
  {
  }

  lemma NumberNoLower(v: int)
    ensures NoLower(FormatInt(v))
  {
    FormatIntShape(v);
  }

  lemma NoLowerAppend(a: string, b: string)
    requires NoLower(a) && NoLower(b)
    ensures NoLower(a + b)
  {
    assert forall i :: 0 <= i < |a + b| ==> (a + b)[i] == if i < |a| then a[i] else b[i - |a|];
  }

  lemma SplitNumberWithUnit(v: int, u: Unit)
    ensures SplitUnit(FormatInt(v) + Suffix(u)) == (u, FormatInt(v))
  {
    var number := FormatInt(v);
    FormatIntShape(v);
    var t := number + Suffix(u);
    assert t[..|t| - |Suffix(u)|] == number;
    if u == Bytes {
      assert t == number;
      assert t[|t| - 1] == number[|number| - 1];
    } else {
      assert t[|t| - 2] == Suffix(u)[0];
    }
  }

  lemma DivBound(v: int, m: int)
    requires v > 0 && m >= 1 && v * m <= MaxInt64
    ensures v <= MaxInt64 / m
  {
    var q, r := MaxInt64 / m, MaxInt64 % m;
    if v > q {
      MulMonotone(q + 1, v, m);
    }
  }

  lemma MulBound(v: int, m: int)
    requires v > 0 && m >= 1 && v * m > MaxInt64
    ensures v > MaxInt64 / m
  {
    if v <= MaxInt64 / m {
      MulMonotone(v, MaxInt64 / m, m);
    }
  }

  // ---------------------------------------------------------------------
  // White space and case
  // ---------------------------------------------------------------------

  lemma {:induction false} ToUpperAppend(a: string, b: string)
    ensures ToUpper(a + b) == ToUpper(a) + ToUpper(b)
  {
  }

  lemma {:induction false} ToUpperSpaces(pad: string)
    requires AllSpace(pad)
    ensures AllSpace(ToUpper(pad))
  {
  }

  /** White space around a size string never changes the outcome. */
  lemma {:induction false} ByteSizePadded(pre: string, s: string, post: string)
    requires AllSpace(pre) && AllSpace(post)
    ensures ByteSize(pre + s + post) == ByteSize(s)
  {
    ToUpperAppend(pre + s, post);
    ToUpperAppend(pre, s);
    ToUpperSpaces(pre);
    ToUpperSpaces(post);
    TrimSpacePadded(ToUpper(pre), ToUpper(s), ToUpper(post));
  }

  lemma {:induction false} ToUpperIdempotent(s: string)
    ensures ToUpper(ToUpper(s)) == ToUpper(s)
  {
  }

  /** Upper-casing the input first changes nothing: units are case-insensitive. */
  lemma ByteSizeCaseInsensitive(s: string)
    ensures ByteSize(ToUpper(s)) == ByteSize(s)
  {
    ToUpperIdempotent(s);
  }

  // ---------------------------------------------------------------------
  // Error cases
  // ---------------------------------------------------------------------

  /** Empty and all-white-space strings are refused as empty. */
  lemma {:induction false} ByteSizeBlank(s: string)
    requires AllSpace(s)
    ensures ByteSize(s) == Err(EmptySize)
  {
    ToUpperSpaces(s);
    assert ToUpper(s) == [] + ToUpper(s) + [];
    TrimSpacePadded([], ToUpper(s), []);
    assert TrimSpace(ToUpper(s)) == TrimSpace([]);
  }

  /** A unit with no number in front of it is not a valid value. */
  lemma ByteSizeUnitOnly(u: Unit)
    requires u != Bytes
    ensures ByteSize(Suffix(u)) == Err(InvalidValue)
  {
    UnitOnlyParts(u);
    ByteSizeOfParts(Suffix(u), Suffix(u), u, [], None);
  }

  lemma UnitOnlyParts(u: Unit)
    requires u != Bytes
    ensures TrimSpace(ToUpper(Suffix(u))) == Suffix(u)
    ensures SplitUnit(Suffix(u)) == (u, [])
    ensures ParseInt64(TrimSpace([])) == None
  {
    SuffixUpper(u);
    SuffixTrimmed(u);
    SuffixSplit(u);
    EmptyNumber();
  }

  lemma SuffixUpper(u: Unit)
    ensures ToUpper(Suffix(u)) == Suffix(u)
  {
  }

  lemma SuffixTrimmed(u: Unit)
    requires u != Bytes
    ensures TrimSpace(Suffix(u)) == Suffix(u)
  {
    var t := Suffix(u);
    assert !IsSpace(t[0]) && !IsSpace(t[1]);
    assert TrimLeft(t) == t;
  }

  lemma SuffixSplit(u: Unit)
    requires u != Bytes
    ensures SplitUnit(Suffix(u)) == (u, [])
  {
  }

  lemma EmptyNumber()
    ensures ParseInt64(TrimSpace([])) == None
  {
  }

  predicate UpperLetters(x: string) {
    forall i :: 0 <= i < |x| ==> 'A' <= x[i] <= 'Z'
  }

  /**
   * A number followed by letters that do not end in one of the three
   * units (such as "TB") is not a valid value.
   */
  lemma ByteSizeUnknownSuffix(v: int, x: string)
    requires x != [] && UpperLetters(x)
    requires !HasSuffix(x, "GB") && !HasSuffix(x, "MB") && !HasSuffix(x, "KB")
    ensures ByteSize(FormatInt(v) + x) == Err(InvalidValue)
  {
    var t := FormatInt(v) + x;
    assert TrimSpace(ToUpper(t)) == t by { LettersClean(v, x); }
    assert SplitUnit(t) == (Bytes, t) by { LettersSplit(v, x); }
    assert ParseInt64(TrimSpace(t)) == None by { LettersRejected(v, x); }
    InvalidNumber(t);
  }

  /** A clean string without a unit whose number does not parse is an invalid value. */
  lemma InvalidNumber(t: string)
    requires TrimSpace(ToUpper(t)) == t && t != []
    requires SplitUnit(t) == (Bytes, t)
    requires ParseInt64(TrimSpace(t)) == None
    ensures ByteSize(t) == Err(InvalidValue)
  {
    ByteSizeOfParts(t, t, Bytes, t, None);
  }

  lemma LettersRejected(v: int, x: string)
    requires x != [] && UpperLetters(x)
    ensures ParseInt64(TrimSpace(FormatInt(v) + x)) == None
  {
    LettersClean(v, x);
    FormatIntShape(v);
    RejectedAfter(FormatInt(v), x);
  }

  lemma RejectedAfter(number: string, x: string)
    requires number != [] && x != [] && !IsDigit(x[0])
    ensures ParseInt64(number + x) == None
  {
    var t := number + x;
    assert t[|number|] == x[0];
    ParseRejectsNonDigit(t, |number|);
  }

  lemma LettersClean(v: int, x: string)
    requires x != [] && UpperLetters(x)
    ensures TrimSpace(ToUpper(FormatInt(v) + x)) == FormatInt(v) + x
    ensures TrimSpace(FormatInt(v) + x) == FormatInt(v) + x
  {
    var number := FormatInt(v);
    var t := number + x;
    FormatIntShape(v);
    NumberNoLower(v);
    NoLowerAppend(number, x);
    assert t[0] == number[0];
    assert t[|t| - 1] == x[|x| - 1];
    Printable(t[0]);
    Printable(t[|t| - 1]);
    CleanString(t);
    TrimSpaceClean(t);
  }

  lemma LettersSplit(v: int, x: string)
    requires x != []
    requires !HasSuffix(x, "GB") && !HasSuffix(x, "MB") && !HasSuffix(x, "KB")
    ensures SplitUnit(FormatInt(v) + x) == (Bytes, FormatInt(v) + x)
  {
    var number := FormatInt(v);
    var t := number + x;
    FormatIntShape(v);
    if |x| == 1 {
      assert t[|t| - 2] == number[|number| - 1];
    } else {
      assert t[|t| - 2..] == x[|x| - 2..];
    }
  }

  /** White space between the number and its unit is dropped too. */
  lemma ByteSizeSpacedUnit(v: int, pad: string, u: Unit)
    requires MinInt64 <= v <= MaxInt64 && AllSpace(pad)
    ensures ByteSize(FormatInt(v) + pad + Suffix(u)) == ByteSize(FormatInt(v) + Suffix(u))
  {
    var number := FormatInt(v);
    if u == Bytes {
      assert number + pad + Suffix(u) == [] + number + pad;
      assert number + Suffix(u) == number;
      ByteSizePadded([], number, pad);
    } else {
      SpacedUnitScaled(v, pad, u);
      CanonicalScaled(v, u);
    }
  }

  lemma CanonicalScaled(v: int, u: Unit)
    requires MinInt64 <= v <= MaxInt64
    ensures ByteSize(FormatInt(v) + Suffix(u)) == Scaled(u, Some(v))
  {
    var number := FormatInt(v);
    var t := number + Suffix(u);
    CanonicalParts(v, u);
    ByteSizeOfParts(t, t, u, number, Some(v));
  }

  /** Each stage of ByteSize on the decimal form of an int64 followed by a unit. */
  lemma CanonicalParts(v: int, u: Unit)
    requires MinInt64 <= v <= MaxInt64
    ensures FormatInt(v) != []
    ensures TrimSpace(ToUpper(FormatInt(v) + Suffix(u))) == FormatInt(v) + Suffix(u)
    ensures SplitUnit(FormatInt(v) + Suffix(u)) == (u, FormatInt(v))
    ensures ParseInt64(TrimSpace(FormatInt(v))) == Some(v)
  {
    FormatIntShape(v);
    NumberWithUnitClean(v, u);
    SplitNumberWithUnit(v, u);
    CanonicalNumber(v);
  }

  lemma SpacedUnitScaled(v: int, pad: string, u: Unit)
    requires MinInt64 <= v <= MaxInt64 && AllSpace(pad) && u != Bytes
    ensures ByteSize(FormatInt(v) + pad + Suffix(u)) == Scaled(u, Some(v))
  {
    var number := FormatInt(v);
    var t := number + pad + Suffix(u);
    SpacedClean(v, pad, u);
    SpacedSplit(v, pad, u);
    TrimSpaceTrailing(number, pad);
    CanonicalNumber(v);
    ByteSizeOfParts(t, t, u, number + pad, Some(v));
  }

  /** The decimal form of an int64 has no surrounding white space and parses back. */
  lemma CanonicalNumber(v: int)
    requires MinInt64 <= v <= MaxInt64
    ensures TrimSpace(FormatInt(v)) == FormatInt(v)
    ensures ParseInt64(TrimSpace(FormatInt(v))) == Some(v)
  {
    FormatIntShape(v);
    TrimSpaceClean(FormatInt(v));
    ParseFormatInt(v);
  }

  /** ByteSize, assembled from the outcome of each of its stages. */
  lemma ByteSizeOfParts(s: string, t: string, u: Unit, number: string, parsed: Option<int>)
    requires TrimSpace(ToUpper(s)) == t && t != []
    requires SplitUnit(t) == (u, number)
    requires ParseInt64(TrimSpace(number)) == parsed
    ensures ByteSize(s) == Scaled(u, parsed)
  {
  }

  lemma SpacedClean(v: int, pad: string, u: Unit)
    requires AllSpace(pad) && u != Bytes
    ensures TrimSpace(ToUpper(FormatInt(v) + pad + Suffix(u))) == FormatInt(v) + pad + Suffix(u)
  {
    var number := FormatInt(v);
    var t := number + pad + Suffix(u);
    FormatIntShape(v);
    NumberNoLower(v);
    SpacesNoLower(pad);
    NoLowerAppend(number, pad);
    NoLowerAppend(number + pad, Suffix(u));
    assert t[0] == number[0];
    assert t[|t| - 1] == 'B';
    Printable(t[0]);
    Printable(t[|t| - 1]);
    CleanString(t);
  }

  lemma SpacesNoLower(pad: string)
    requires AllSpace(pad)
    ensures NoLower(pad)
  {
  }

  lemma SpacedSplit(v: int, pad: string, u: Unit)
    requires u != Bytes
    ensures SplitUnit(FormatInt(v) + pad + Suffix(u)) == (u, FormatInt(v) + pad)
  {
    var t := FormatInt(v) + pad + Suffix(u);
    assert t[..|t| - 2] == FormatInt(v) + pad;
    assert t[|t| - 2] == Suffix(u)[0];
  }

  // ---------------------------------------------------------------------
  // Examples
  // ---------------------------------------------------------------------

  lemma Megabytes()
    ensures ByteSize("250MB") == Ok(262144000)
  {
    var s := FormatInt(250) + Suffix(MB);
    assert s == "250MB";
    ByteSizeRoundTrip(250, MB);
    assert ByteSize(s) == Ok(262144000);
  }

  lemma Gigabyte()
    ensures ByteSize("1GB") == Ok(GiB)
  {
    var s := FormatInt(1) + Suffix(GB);
    assert s == "1GB";
    ByteSizeRoundTrip(1, GB);
    assert ByteSize(s) == Ok(GiB);
  }

  lemma LowerCaseGigabyte()
    ensures ByteSize("1gb") == Ok(GiB)
  {
    assert ByteSize("1gb") == ByteSize("1GB") by {
      assert ToUpper("1gb") == "1GB";
      ByteSizeCaseInsensitive("1gb");
    }
    Gigabyte();
  }

  lemma SpacedKilobytesUpper()
    ensures ByteSize("5 KB") == Ok(5120)
  {
    var s := FormatInt(5) + " " + Suffix(KB);
    assert s == "5 KB";
    ByteSizeSpacedUnit(5, " ", KB);
    ByteSizeRoundTrip(5, KB);
    assert ByteSize(s) == Ok(5120);
  }

  lemma SpacedKilobytesCase()
    ensures ByteSize("5 kb") == ByteSize("5 KB")
  {
    assert ByteSize("5 kb") == ByteSize("5 KB") by {
      assert ToUpper("5 kb") == "5 KB";
      ByteSizeCaseInsensitive("5 kb");
    }
  }

  lemma SpacedKilobytesPadded()
    ensures ByteSize(" 5 kb ") == ByteSize("5 kb")
  {
    assert " " + "5 kb" + " " == " 5 kb ";
    ByteSizePadded(" ", "5 kb", " ");
  }

  lemma SpacedKilobytes()
    ensures ByteSize(" 5 kb ") == Ok(5120)
  {
    SpacedKilobytesPadded();
    SpacedKilobytesCase();
    SpacedKilobytesUpper();
  }

  lemma NegativeMegabytes()
    ensures ByteSize("-5MB") == Err(NotPositive)
  {
    var s := FormatInt(-5) + Suffix(MB);
    assert s == "-5MB";
    ByteSizeRoundTrip(-5, MB);
    assert ByteSize(s) == Err(NotPositive);
  }

  lemma UnknownUnit()
    ensures ByteSize("10TB") == Err(InvalidValue)
  {
    var s := FormatInt(10) + "TB";
    assert s == "10TB";
    ByteSizeUnknownSuffix(10, "TB");
    assert ByteSize(s) == Err(InvalidValue);
  }

  lemma PlainBytes()
    ensures ByteSize("500") == Ok(500)
  {
    PlainClean();
    PlainSplit();
    PlainParsed();
    ByteSizeOfParts("500", "500", Bytes, "500", Some(500));
  }

  lemma PlainClean()
    ensures TrimSpace(ToUpper("500")) == "500"
  {
    assert ToUpper("500") == "500";
    PlainTrimmed();
  }

  lemma PlainSplit()
    ensures SplitUnit("500") == (Bytes, "500")
  {
  }

  lemma PlainParsed()
    ensures ParseInt64(TrimSpace("500")) == Some(500)
  {
    PlainTrimmed();
    PlainNumber();
  }

  lemma PlainTrimmed()
    ensures TrimSpace("500") == "500"
  {
    var t := "500";
    assert !IsSpace(t[0]) && !IsSpace(t[|t| - 1]);
    TrimSpaceClean(t);
  }

  lemma PlainNumber()
    ensures ParseInt64("500") == Some(500)
  {
    var n := FormatInt(500);
    assert n == "500";
    ParseFormatInt(500);
  }

  lemma Zero()
    ensures ByteSize("0") == Err(NotPositive)
  {
    var s := FormatInt(0) + Suffix(Bytes);
    assert s == "0";
    ByteSizeRoundTrip(0, Bytes);
    assert ByteSize(s) == Err(NotPositive);
  }

  lemma FractionalGigabytes()
    ensures ByteSize("1.5GB") == Err(InvalidValue)
  {
    FractionalClean();
    FractionalSplit();
    FractionalRejected();
    ByteSizeOfParts("1.5GB", "1.5GB", GB, "1.5", None);
  }

  lemma FractionalClean()
    ensures TrimSpace(ToUpper("1.5GB")) == "1.5GB"
  {
    var t := "1.5GB";
    assert ToUpper(t) == t;
    assert !IsSpace(t[0]) && !IsSpace(t[|t| - 1]);
    TrimSpaceClean(t);
  }

  lemma FractionalSplit()
    ensures SplitUnit("1.5GB") == (GB, "1.5")
  {
    var t := "1.5GB";
    assert t[|t| - 2..] == "GB";
    assert t[..|t| - 2] == "1.5";
  }

  lemma FractionalRejected()
    ensures ParseInt64(TrimSpace("1.5")) == None
  {
    FractionalTrimmed();
    FractionalNotInteger();
  }

  lemma FractionalTrimmed()
    ensures TrimSpace("1.5") == "1.5"
  {
    var n := "1.5";
    assert !IsSpace(n[0]) && !IsSpace(n[|n| - 1]);
    TrimSpaceClean(n);
  }

  lemma FractionalNotInteger()
    ensures ParseInt64("1.5") == None
  {
    var n := FormatInt(1) + ".5";
    assert n == "1.5";
    RejectedAfter(FormatInt(1), ".5");
  }
}
