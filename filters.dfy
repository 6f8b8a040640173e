/**
 * The filter-mask compiler of main.go: the bitmask constants, the parsing of
 * the `filters` query parameter into a mask, and the translation of a mask
 * into ffmpeg's comma-separated `-af` filter-chain expression.
 */
module Filters {
  import opened Wrappers
  import opened Text

  const FilterHighpass: int := 1
  const FilterLowpass: int := 2
  const FilterDenoiser: int := 4
  const FilterDeclick: int := 8
  const FilterDeesser: int := 16
  const FilterNormalize: int := 32
  /** Modifier bit: selects the speech profile of the denoiser, adds no stage. */
  const FilterDenoiserSpeechMode: int := 64
  /** The six stage bits; the speech modifier is not part of it. */
  const FilterAll: int := FilterHighpass + FilterLowpass + FilterDenoiser + FilterDeclick + FilterDeesser + FilterNormalize
  /** Every bit the service knows about (FilterAll | FilterDenoiserSpeechMode). */
  const KnownBits: int := FilterAll + FilterDenoiserSpeechMode

  /** The flag of bit k, in the order the constants are declared. */
  function FlagOf(k: nat): int
    requires k < 7
  {
    [FilterHighpass, FilterLowpass, FilterDenoiser, FilterDeclick, FilterDeesser, FilterNormalize,
     FilterDenoiserSpeechMode][k]
  }

  // ---------------------------------------------------------------------
  // Bits of a two's-complement integer
  // ---------------------------------------------------------------------

  function Pow2(k: nat): (p: nat)
    ensures p >= 1
  {
    if k == 0 then 1 else 2 * Pow2(k - 1)
  }

  /**
   * Go's `m & (1 << k) != 0`, that is bit k of m >> k. Dafny's division by 2
   * rounds towards minus infinity like an arithmetic shift, so negative m
   * have their two's-complement bits.
   */
  predicate Bit(m: int, k: nat)
    decreases k
  {
    if k == 0 then m % 2 == 1 else Bit(m / 2, k - 1)
  }

  /** The number of one bits of a natural number (a reference popcount). */
  function PopCount(x: nat): nat {
    if x == 0 then 0 else x % 2 + PopCount(x / 2)
  }

  lemma {:induction false} PopCountZero(x: nat)
    ensures PopCount(x) == 0 <==> x == 0
  {
    if x > 0 {
      PopCountZero(x / 2);
    }
  }

  /** The number of set bits among bits 0..k-1 of m. */
  function OnesBelow(m: int, k: nat): nat {
    if k == 0 then 0 else OnesBelow(m, k - 1) + (if Bit(m, k - 1) then 1 else 0)
  }

  lemma Pow2Values()
    ensures Pow2(0) == 1 && Pow2(1) == 2 && Pow2(2) == 4 && Pow2(3) == 8
    ensures Pow2(4) == 16 && Pow2(5) == 32 && Pow2(6) == 64 && Pow2(7) == 128
  {
  }

  /** Dividing by 2 and then by p is dividing by 2p (floor division). */
  lemma DivTwice(m: int, p: nat)
    requires p > 0
    ensures m / 2 / p == m / (2 * p)
  {
    var q, r := m / 2, m % 2;
    var a, b := q / p, q % p;
    assert m == (2 * p) * a + (2 * b + r);
    assert 0 <= 2 * b + r < 2 * p;
    ModUnique(m, 2 * p, a, 2 * b + r);
  }

  /** Bit k is the parity of m divided by 2^k: Go's `m >> k & 1`. */
  lemma {:induction false} BitDiv(m: int, k: nat)
    ensures Bit(m, k) <==> (m / Pow2(k)) % 2 == 1
    decreases k
  {
    if k > 0 {
      BitDiv(m / 2, k - 1);
      DivTwice(m, Pow2(k - 1));
    }
  }

  /**
   * The named flags are the bits of the mask: Go's test `m & FilterX != 0`
   * on a one-bit flag is bit k of m.
   */
  lemma NamedFlags(m: int, k: nat)
    requires k < 7
    ensures FlagOf(k) == Pow2(k)
    ensures Bit(m, k) <==> (m / FlagOf(k)) % 2 == 1
  {
    Pow2Values();
    BitDiv(m, k);
  }

  /** Reducing modulo 2^n keeps bits 0..n-1: Go's `x & (2^n - 1)`. */
  lemma {:induction false} ModBit(m: int, n: nat, k: nat)
    requires k < n
    ensures Bit(m % Pow2(n), k) <==> Bit(m, k)
    decreases k
  {
    if k == 0 {
      ModLowBit(m, n);
    } else {
      ModHalf(m, n);
      ModBit(m / 2, n - 1, k - 1);
    }
  }

  lemma ModLowBit(m: int, n: nat)
    requires 1 <= n
    ensures (m % Pow2(n)) % 2 == m % 2
  {
    var p, h := Pow2(n), Pow2(n - 1);
    var a, x := m / p, m % p;
    assert m == p * a + x;
    assert m == 2 * (h * a) + x;
    assert x == 2 * (x / 2) + x % 2;
    ModUnique(m, 2, h * a + x / 2, x % 2);
  }

  /** Halving commutes with reduction modulo 2^n. */
  lemma ModHalf(m: int, n: nat)
    requires 2 <= n
    ensures (m % Pow2(n)) / 2 == (m / 2) % Pow2(n - 1)
  {
    var p, h := Pow2(n), Pow2(n - 1);
    var a, x := m / p, m % p;
    assert m == p * a + x;
    assert m == 2 * (h * a) + x;
    assert m / 2 == h * a + x / 2;
    ModUnique(m / 2, h, a, x / 2);
  }

  /** Euclidean division by h is unique. */
  lemma ModUnique(n: int, h: int, a: int, y: int)
    requires h >= 1 && 0 <= y < h && n == h * a + y
    ensures n % h == y && n / h == a
  {
    var q, r := n / h, n % h;
    assert h * (q - a) == y - r;
    if q > a {
      MulAtLeast(h, q - a);
    } else if q < a {
      MulAtLeast(h, a - q);
    }
  }

  lemma {:induction false} MulAtLeast(h: int, d: nat)
    requires h >= 0 && d >= 1
    ensures h * d >= h
  {
    if d > 1 {
      MulAtLeast(h, d - 1);
      assert h * d == h * (d - 1) + h;
    }
  }

  /** A number below 2^n has no bit k >= n set. */
  lemma {:induction false} HighBitClear(x: int, n: nat, k: nat)
    requires 0 <= x < Pow2(n) && n <= k
    ensures !Bit(x, k)
  {
    if k > 0 {
      HighBitClear(x / 2, if n > 0 then n - 1 else 0, k - 1);
    }
  }

  lemma {:induction false} OnesBelowShift(x: int, n: nat)
    requires n >= 1
    ensures OnesBelow(x, n) == (if Bit(x, 0) then 1 else 0) + OnesBelow(x / 2, n - 1)
  {
    if n > 1 {
      OnesBelowShift(x, n - 1);
    }
  }

  /** On numbers below 2^n the popcount counts bits 0..n-1. */
  lemma {:induction false} PopCountBelow(x: nat, n: nat)
    requires x < Pow2(n)
    ensures PopCount(x) == OnesBelow(x, n)
  {
    if n == 0 {
    } else {
      OnesBelowShift(x, n);
      PopCountBelow(x / 2, n - 1);
    }
  }

  lemma {:induction false} OnesBelowMod(m: int, k: nat)
    requires k <= 6
    ensures OnesBelow(m % 64, k) == OnesBelow(m, k)
  {
    if k > 0 {
      OnesBelowMod(m, k - 1);
      Pow2Values();
      ModBit(m, 6, k - 1);
    }
  }

  // ---------------------------------------------------------------------
  // parseFilterMask
  // ---------------------------------------------------------------------

  /**
   * parseFilterMask: "" is no filtering, "true" and "all" are FilterAll,
   * a decimal integer is masked with `& 127`, anything else is 0.
   */
  function ParseFilterMask(param: string): (m: int)
    ensures 0 <= m <= KnownBits
    ensures param == "" ==> m == 0
    ensures param == "true" || param == "all" ==> m == FilterAll
  {
    if param == "" then 0
    else if param == "true" || param == "all" then FilterAll
    else match ParseInt64(param)
      case None => 0
      case Some(v) => v % 128
  }

  /**
   * A parsed integer, negative or above 127 included, is reduced to its
   * bits 0..6: the mask has exactly those bits of the integer and no other.
   */
  lemma ParseFilterMaskInteger(param: string, v: int, k: nat)
    requires ParseInt64(param) == Some(v)
    ensures ParseFilterMask(param) == v % 128
    ensures k < 7 ==> (Bit(ParseFilterMask(param), k) <==> Bit(v, k))
    ensures k >= 7 ==> !Bit(ParseFilterMask(param), k)
  {
    Pow2Values();
    if k < 7 {
      ModBit(v, 7, k);
    } else {
      HighBitClear(v % 128, 7, k);
    }
  }

  /** A value strconv.Atoi rejects selects no filter, and is not an error. */
  lemma ParseFilterMaskMalformed(param: string, i: nat)
    requires param != "true" && param != "all"
    requires i < |param| && !IsDigit(param[i])
    requires i > 0 || (param[0] != '-' && param[0] != '+')
    ensures ParseFilterMask(param) == 0
  {
    ParseRejectsNonDigit(param, i);
  }

  /** Whatever the reason strconv.Atoi rejects the parameter for, no filter is selected. */
  lemma ParseFilterMaskRejected(param: string)
    requires param != "true" && param != "all"
    requires ParseInt64(param) == None
    ensures ParseFilterMask(param) == 0
  {
  }

  /** A decimal number outside the int64 range selects no filter: Atoi fails before any masking. */
  lemma ParseFilterMaskOutOfRange(n: int)
    requires n < MinInt64 || n > MaxInt64
    ensures ParseFilterMask(FormatInt(n)) == 0
  {
    ParseRejectsOutOfRange(n);
    var s := FormatInt(n);
    assert s[0] == '-' || IsDigit(s[0]);
    assert s != "true" && s != "all";
  }

  /** "true" and "all" select the six stages but not the speech modifier. */
  lemma FilterAllBits(k: nat)
    ensures Bit(FilterAll, k) <==> k < 6
  {
    Pow2Values();
    if k >= 6 {
      HighBitClear(FilterAll, 6, k);
    }
  }

  // ---------------------------------------------------------------------
  // buildAudioFilter
  // ---------------------------------------------------------------------

  /** One filter stage; the denoiser carries its noise profile. */
  datatype Stage =
    | Highpass
    | Lowpass
    | Denoiser(speech: bool)
    | Declick
    | Deesser
    | Normalize

  /** A stage's place in the canonical order, which is also its mask bit. */
  function Rank(st: Stage): nat {
    match st
    case Highpass => 0
    case Lowpass => 1
    case Denoiser(_) => 2
    case Declick => 3
    case Deesser => 4
    case Normalize => 5
  }

  /** The stages in ffmpeg's filtergraph syntax, with their fixed parameters. */
  const HighpassText: string := "highpass=f=75:p=1"
  const LowpassText: string := "lowpass=f=7500:p=1"
  /** The denoiser at a -25 dB noise floor; the noise type letter follows. */
  const DenoiserText: string := "afftdn=nf=-25:nt="
  const DeclickText: string := "adeclick=t=2:w=10"
  const DeesserText: string := "deesser"
  const NormalizeText: string := "dynaudnorm"

  /** The denoiser's noise type: "s" (speech) or "w" (white noise). */
  function NoiseType(speech: bool): string {
    if speech then "s" else "w"
  }

  /** The stage in ffmpeg's filtergraph syntax. */
  function StageText(st: Stage): string {
    match st
    case Highpass => HighpassText
    case Lowpass => LowpassText
    case Denoiser(speech) => DenoiserText + NoiseType(speech)
    case Declick => DeclickText
    case Deesser => DeesserText
    case Normalize => NormalizeText
  }

  function StageTexts(stages: seq<Stage>): (r: seq<string>)
    ensures |r| == |stages|
  {
    if stages == [] then [] else [StageText(stages[0])] + StageTexts(stages[1..])
  }

  /** The stage that mask bit k (k < 6) switches on. */
  function StageOf(m: int, k: nat): (st: Stage)
    requires k < 6
    ensures Rank(st) == k
  {
    if k == 0 then Highpass
    else if k == 1 then Lowpass
    else if k == 2 then Denoiser(Bit(m, 6))
    else if k == 3 then Declick
    else if k == 4 then Deesser
    else Normalize
  }

  /** Stage k if mask m selects it, else nothing. */
  function Selected(m: int, k: nat): seq<Stage>
    requires k < 6
  {
    if Bit(m, k) then [StageOf(m, k)] else []
  }

  /** The stages mask m selects among the canonical stages 0..k-1. */
  function StagesBelow(m: int, k: nat): seq<Stage>
    requires k <= 6
  {
    if k == 0 then [] else StagesBelow(m, k - 1) + Selected(m, k - 1)
  }

  /** The stages of a mask. */
  function Stages(m: int): seq<Stage> {
    StagesBelow(m, 6)
  }

  /** The filter-chain expression buildAudioFilter returns for mask m. */
  function Chain(m: int): string {
    Join(StageTexts(Stages(m)), ",")
  }

  /**
   * buildAudioFilter: appends the selected stages one by one in canonical
   * order and joins them with ",".
   */
  method BuildAudioFilter(filterMask: int) returns (chain: string)
    ensures chain == Chain(filterMask)
  {
    if filterMask == 0 {
      ChainEmpty(filterMask);
      return "";
    }
    var filters: seq<string> := [];
    StageTextsOf(filterMask);
    ghost var before := filters;
    if Bit(filterMask, 0) {
      filters := filters + [HighpassText];
    }
    AppendStep(filterMask, 0, before, filters);
    before := filters;
    if Bit(filterMask, 1) {
      filters := filters + [LowpassText];
    }
    AppendStep(filterMask, 1, before, filters);
    before := filters;
    if Bit(filterMask, 2) {
      var noiseType := "w";
      if Bit(filterMask, 6) {
        noiseType := "s";
      }
      filters := filters + [DenoiserText + noiseType];
    }
    AppendStep(filterMask, 2, before, filters);
    before := filters;
    if Bit(filterMask, 3) {
      filters := filters + [DeclickText];
    }
    AppendStep(filterMask, 3, before, filters);
    before := filters;
    if Bit(filterMask, 4) {
      filters := filters + [DeesserText];
    }
    AppendStep(filterMask, 4, before, filters);
    before := filters;
    if Bit(filterMask, 5) {
      filters := filters + [NormalizeText];
    }
    AppendStep(filterMask, 5, before, filters);
    chain := Join(filters, ",");
  }

  lemma {:induction false} StageTextsAppend(a: seq<Stage>, b: seq<Stage>)
    ensures StageTexts(a + b) == StageTexts(a) + StageTexts(b)
  {
    if a != [] {
      assert (a + b)[1..] == a[1..] + b;
      StageTextsAppend(a[1..], b);
    } else {
      assert a + b == b;
    }
  }

  /** The text of each canonical stage, one fact per bit. */
  lemma StageTextsOf(m: int)
    ensures StageText(StageOf(m, 0)) == HighpassText
    ensures StageText(StageOf(m, 1)) == LowpassText
    ensures StageText(StageOf(m, 2)) == DenoiserText + NoiseType(Bit(m, 6))
    ensures StageText(StageOf(m, 3)) == DeclickText
    ensures StageText(StageOf(m, 4)) == DeesserText
    ensures StageText(StageOf(m, 5)) == NormalizeText
  {
  }

  /** One step of BuildAudioFilter: stage k's text is appended when bit k is set. */
  lemma AppendStep(m: int, k: nat, before: seq<string>, after: seq<string>)
    requires k < 6
    requires before == StageTexts(StagesBelow(m, k))
    requires Bit(m, k) ==> after == before + [StageText(StageOf(m, k))]
    requires !Bit(m, k) ==> after == before
    ensures after == StageTexts(StagesBelow(m, k + 1))
  {
    StageTextsAppend(StagesBelow(m, k), Selected(m, k));
  }

  // ---------------------------------------------------------------------
  // Properties of the filter chain
  // ---------------------------------------------------------------------

  lemma {:induction false} StagesBelowOrdered(m: int, k: nat)
    requires k <= 6
    ensures forall i :: 0 <= i < |StagesBelow(m, k)| ==> Rank(StagesBelow(m, k)[i]) < k
    ensures forall i, j :: 0 <= i < j < |StagesBelow(m, k)| ==>
              Rank(StagesBelow(m, k)[i]) < Rank(StagesBelow(m, k)[j])
  {
    if k > 0 {
      StagesBelowOrdered(m, k - 1);
    }
  }

  /** Stages always come out in the canonical order, whatever the mask. */
  lemma StagesOrdered(m: int)
    ensures forall i, j :: 0 <= i < j < |Stages(m)| ==> Rank(Stages(m)[i]) < Rank(Stages(m)[j])
  {
    StagesBelowOrdered(m, 6);
  }

  /** A set bit below k puts its stage among the stages below k. */
  lemma {:induction false} StagesBelowHas(m: int, k: nat, b: nat)
    requires b < k <= 6 && Bit(m, b)
    ensures StageOf(m, b) in StagesBelow(m, k)
  {
    assert StagesBelow(m, k) == StagesBelow(m, k - 1) + Selected(m, k - 1);
    if b < k - 1 {
      StagesBelowHas(m, k - 1, b);
    } else {
      assert Selected(m, b) == [StageOf(m, b)];
    }
  }

  /** Every stage below k has a rank below k whose bit is set. */
  lemma {:induction false} StagesBelowOnly(m: int, k: nat, st: Stage)
    requires k <= 6 && st in StagesBelow(m, k)
    ensures Rank(st) < k && Bit(m, Rank(st))
  {
    var prefix := StagesBelow(m, k - 1);
    assert StagesBelow(m, k) == prefix + Selected(m, k - 1);
    if st in prefix {
      StagesBelowOnly(m, k - 1, st);
    } else {
      assert st in Selected(m, k - 1);
    }
  }

  lemma StagesBelowSelect(m: int, k: nat, b: nat)
    requires b < k <= 6
    ensures (exists st :: st in StagesBelow(m, k) && Rank(st) == b) <==> Bit(m, b)
  {
    if exists st :: st in StagesBelow(m, k) && Rank(st) == b {
      var st :| st in StagesBelow(m, k) && Rank(st) == b;
      StagesBelowOnly(m, k, st);
    }
    if Bit(m, b) {
      StagesBelowHas(m, k, b);
    }
  }

  /**
   * Stage k (k < 6) is in the chain exactly when bit k is set; bits 6 and
   * up add no stage of their own.
   */
  lemma StagesSelect(m: int, k: nat)
    requires k < 6
    ensures (exists st :: st in Stages(m) && Rank(st) == k) <==> Bit(m, k)
  {
    StagesBelowSelect(m, 6, k);
  }

  lemma {:induction false} StagesBelowDenoiser(m: int, k: nat)
    requires k <= 6
    ensures forall st :: st in StagesBelow(m, k) && st.Denoiser? ==> st.speech == Bit(m, 6)
  {
    if k > 0 {
      StagesBelowDenoiser(m, k - 1);
    }
  }

  /**
   * The denoiser stage is present exactly when bit 2 (value 4) is set, and it uses
   * the speech profile exactly when bit 6 (value 64) is set.
   */
  lemma DenoiserProfile(m: int)
    ensures forall st :: st in Stages(m) && st.Denoiser? ==> st.speech == Bit(m, 6)
    ensures Bit(m, 2) <==> Denoiser(Bit(m, 6)) in Stages(m)
  {
    StagesBelowDenoiser(m, 6);
    StagesBelowSelect(m, 6, 2);
    assert Rank(Denoiser(Bit(m, 6))) == 2;
    if Bit(m, 2) {
      var st :| st in Stages(m) && Rank(st) == 2;
      match st
      case Denoiser(_) =>
      case Highpass =>
      case Lowpass =>
      case Declick =>
      case Deesser =>
      case Normalize =>
    }
  }

  lemma {:induction false} StagesBelowCount(m: int, k: nat)
    requires k <= 6
    ensures |StagesBelow(m, k)| == OnesBelow(m, k)
  {
    if k > 0 {
      StagesBelowCount(m, k - 1);
    }
  }

  /** The number of stages is the number of set bits among bits 0..5. */
  lemma StagesCount(m: int)
    ensures |Stages(m)| == PopCount(m % 64)
  {
    StagesBelowCount(m, 6);
    OnesBelowMod(m, 6);
    Pow2Values();
    PopCountBelow(m % 64, 6);
  }

  lemma StageTextShape(st: Stage)
    ensures StageText(st) != [] && ',' !in StageText(st)
  {
    if st.Denoiser? {
      assert StageText(st) == DenoiserText + NoiseType(st.speech);
      assert StageText(st)[0] == 'a';
    }
  }

  lemma {:induction false} StageTextsShape(stages: seq<Stage>)
    ensures forall i :: 0 <= i < |StageTexts(stages)| ==>
              StageTexts(stages)[i] != [] && ',' !in StageTexts(stages)[i]
  {
    if stages != [] {
      StageTextShape(stages[0]);
      StageTextsShape(stages[1..]);
    }
  }

  /** The chain is empty exactly when none of the six stage bits is set. */
  lemma ChainEmpty(m: int)
    ensures Chain(m) == "" <==> m % 64 == 0
  {
    StagesCount(m);
    PopCountZero(m % 64);
    StageTextsShape(Stages(m));
    JoinEmpty(StageTexts(Stages(m)), ",");
  }

  /**
   * A non-empty chain splits at "," into exactly the stage texts: no empty
   * stage, no leading or trailing comma.
   */
  lemma ChainSplits(m: int)
    requires Chain(m) != ""
    ensures Split(Chain(m), ',') == StageTexts(Stages(m))
  {
    StageTextsShape(Stages(m));
    SplitJoin(StageTexts(Stages(m)), ',');
  }
}
