/**
 * Translators: decoders from gene DNA to numbers (ga/translators.py).
 *
 * Python's `int(text, base)` is modelled on the text gene DNA can hold, the
 * symbols of the gene alphabets: there it fails (ValueError) exactly on text
 * that is empty or holds a character that is not a digit of the base. The
 * other syntax Python's `int` accepts (whitespace, a sign, underscores, a
 * `0b` prefix, non-ASCII digits) is not modelled.
 * Failures of the source (ValueError, IndexError) are `None` here.
 */
module Translators {
  import opened Wrappers
  import opened Genes
  import opened Chromosomes

  // ---------------------------------------------------------------------------
  // Numerals

  /** A base the translators parse in: 2 or 10. */
  predicate Radix(radix: nat) {
    radix == 2 || radix == 10
  }

  function Pow(radix: nat, n: nat): (p: nat)
    ensures radix > 0 ==> p > 0
  {
    if n == 0 then 1 else radix * Pow(radix, n - 1)
  }

  /** `c` is a digit of the base. */
  predicate IsDigit(c: char, radix: nat) {
    '0' <= c && (c as int) < ('0' as int) + radix
  }

  function DigitValue(c: char, radix: nat): (d: nat)
    requires IsDigit(c, radix)
    ensures d < radix
  {
    c as int - '0' as int
  }

  /** The digit character of `d`. */
  function DigitChar(d: nat, radix: nat): (c: char)
    requires d < radix && Radix(radix)
    ensures IsDigit(c, radix) && DigitValue(c, radix) == d
  {
    (('0' as int) + d) as char
  }

  /** Text `int(text, radix)` accepts: one or more digits of the base. */
  predicate IsNumeral(s: string, radix: nat) {
    |s| > 0 && forall i :: 0 <= i < |s| ==> IsDigit(s[i], radix)
  }

  predicate AllDigits(s: string, radix: nat) {
    forall i :: 0 <= i < |s| ==> IsDigit(s[i], radix)
  }

  /** The value of a string of digits, most significant first; it has fewer than |s| digits' worth of value. */
  function NumeralValue(s: string, radix: nat): (v: nat)
    requires AllDigits(s, radix) && Radix(radix)
    ensures v < Pow(radix, |s|)
    decreases |s|
  {
    if |s| == 0 then 0
    else
      var prefix := s[..|s| - 1];
      var d := DigitValue(s[|s| - 1], radix);
      var p := NumeralValue(prefix, radix);
      assert p * radix + d < Pow(radix, |s|) by {
        assert p + 1 <= Pow(radix, |s| - 1);
        MulMonotone(p + 1, Pow(radix, |s| - 1), radix);
      }
      p * radix + d
  }

  lemma MulMonotone(a: nat, b: nat, c: nat)
    requires a <= b
    ensures a * c <= b * c
  {
  }

  /** `int(s, base=radix)` on text of gene symbols: the value of a numeral, or None where Python raises ValueError. */
  function ParseInt(s: string, radix: nat): (r: Option<nat>)
    requires Radix(radix)
    ensures r.Some? <==> IsNumeral(s, radix)
    ensures r.Some? ==> r.value < Pow(radix, |s|)
  {
    if IsNumeral(s, radix) then Some(NumeralValue(s, radix)) else None
  }

  /** The numeral of exactly `width` digits (leading zeros included) that writes `n`. */
  function Numeral(n: nat, radix: nat, width: nat): (s: string)
    requires Radix(radix) && n < Pow(radix, width)
    ensures |s| == width && AllDigits(s, radix)
    decreases width
  {
    if width == 0 then ""
    else
      assert n / radix < Pow(radix, width - 1) by {
        DivBound(n, radix, Pow(radix, width - 1));
      }
      Numeral(n / radix, radix, width - 1) + [DigitChar(n % radix, radix)]
  }

  lemma DivBound(n: nat, radix: nat, p: nat)
    requires Radix(radix) && n < radix * p
    ensures n / radix < p
  {
    if radix == 2 {
      assert n / 2 < p;
    } else {
      assert n / 10 < p;
    }
  }

  /** Reading back a written numeral gives the number. */
  lemma {:induction false} NumeralRoundTrip(n: nat, radix: nat, width: nat)
    requires Radix(radix) && n < Pow(radix, width)
    ensures NumeralValue(Numeral(n, radix, width), radix) == n
    decreases width
  {
    if width > 0 {
      assert n / radix < Pow(radix, width - 1) by {
        DivBound(n, radix, Pow(radix, width - 1));
      }
      var s := Numeral(n, radix, width);
      var prefix := Numeral(n / radix, radix, width - 1);
      assert s[..|s| - 1] == prefix && s[|s| - 1] == DigitChar(n % radix, radix);
      NumeralRoundTrip(n / radix, radix, width - 1);
      assert NumeralValue(s, radix) == NumeralValue(prefix, radix) * radix + n % radix;
      DivModSplit(n, radix);
    }
  }

  lemma DivModSplit(n: nat, radix: nat)
    requires Radix(radix)
    ensures n == (n / radix) * radix + n % radix
  {
    if radix == 2 {
      assert n == 2 * (n / 2) + n % 2;
    } else {
      assert n == 10 * (n / 10) + n % 10;
    }
  }

  /** Writing the value of a numeral back at its own width gives the numeral: decoding is one-to-one at a fixed width. */
  lemma {:induction false} NumeralValueRoundTrip(s: string, radix: nat)
    requires Radix(radix) && AllDigits(s, radix)
    ensures Numeral(NumeralValue(s, radix), radix, |s|) == s
    decreases |s|
  {
    if |s| > 0 {
      var prefix := s[..|s| - 1];
      var d := DigitValue(s[|s| - 1], radix);
      var p := NumeralValue(prefix, radix);
      var n := NumeralValue(s, radix);
      assert n == p * radix + d;
      assert n / radix == p && n % radix == d by {
        DivMod(p, radix, d);
      }
      NumeralValueRoundTrip(prefix, radix);
      assert s == prefix + [s[|s| - 1]];
    }
  }

  lemma DivMod(p: nat, radix: nat, d: nat)
    requires Radix(radix) && d < radix
    ensures (p * radix + d) / radix == p && (p * radix + d) % radix == d
  {
    if radix == 2 {
      assert p * 2 + d == 2 * p + d;
    } else {
      assert p * 10 + d == 10 * p + d;
    }
  }

  // ---------------------------------------------------------------------------
  // Powers of ten, as exact reals

  /** `10 ** e` for an integer exponent, exact (the source gets a float for e < 0). */
  function Pow10(e: int): (r: real)
    ensures r > 0.0
  {
    if e >= 0 then Pow(10, e) as real else 1.0 / Pow(10, -e) as real
  }

  /** `base * 10 ** exponent`, exact. */
  function Scaled(base: int, exponent: int): (r: real)
    ensures (r > 0.0 <==> base > 0) && (r == 0.0 <==> base == 0)
  {
    base as real * Pow10(exponent)
  }

  // ---------------------------------------------------------------------------
  // The translators

  /** BinaryIntTranslator, BinaryFloatTranslator(significand_length, signed) and Base10IntTranslator. */
  datatype Translator =
    | BinaryInt
    | BinaryFloat(significandLength: nat, signed: bool)
    | Base10Int

  /** A translation product: an integer or a real number. */
  datatype Product = IntProduct(i: int) | RealProduct(r: real)

  /** BinaryIntTranslator.translate_gene: the unsigned base-2 value of the DNA. */
  function BinaryIntValue(dna: string): (r: Option<nat>)
    ensures r.Some? <==> IsNumeral(dna, 2)
    ensures r.Some? ==> r.value < Pow(2, |dna|)
  {
    ParseInt(dna, 2)
  }

  /** Base10IntTranslator.translate_gene: the decimal value of the DNA. */
  function Base10IntValue(dna: string): (r: Option<nat>)
    ensures r.Some? <==> IsNumeral(dna, 10)
    ensures r.Some? ==> r.value < Pow(10, |dna|)
  {
    ParseInt(dna, 10)
  }

  /**
   * The DNA fields BinaryFloatTranslator reads with significand length `len`: the
   * significand starts at 1 (signed) or 0; the exponent sign sits at 1 + len and the
   * exponent starts at len + 2 in both cases.
   */
  predicate FloatFieldsPresent(dna: string, len: nat) {
    len >= 1 && |dna| >= len + 3
  }

  function SignificandField(dna: string, len: nat, signed: bool): string
    requires FloatFieldsPresent(dna, len)
  {
    var start := if signed then 1 else 0;
    dna[start..start + len]
  }

  function ExponentField(dna: string, len: nat): string
    requires FloatFieldsPresent(dna, len)
  {
    dna[len + 2..]
  }

  /** A magnitude with the sign a sign character gives: '0' positive, any other character negative. */
  function Signed(c: char, n: nat): (v: int)
    ensures v == n || v == -(n as int)
    ensures v >= 0 <==> c == '0' || n == 0
  {
    if c == '0' then n else -(n as int)
  }

  /**
   * BinaryFloatTranslator.translate_gene: sign * significand * 10 ** (exponent sign *
   * exponent). None where the source raises: a DNA too short for the index 1 + len or for
   * non-empty fields (IndexError, ValueError on ''), or a field that is not binary.
   */
  function BinaryFloatValue(dna: string, len: nat, signed: bool): (r: Option<real>)
    ensures r.Some? <==>
      && FloatFieldsPresent(dna, len)
      && AllDigits(SignificandField(dna, len, signed), 2)
      && AllDigits(ExponentField(dna, len), 2)
  {
    if !FloatFieldsPresent(dna, len) then None
    else
      var sig := ParseInt(SignificandField(dna, len, signed), 2);
      var exp := ParseInt(ExponentField(dna, len), 2);
      if sig.None? || exp.None? then None
      else
        var base := if signed then Signed(dna[0], sig.value) else sig.value;
        var exponent := Signed(dna[1 + len], exp.value);
        Some(Scaled(base, exponent))
  }

  /** `translate_gene` of each translator. */
  function TranslateGene(t: Translator, g: GeneValue): (r: Option<Product>)
    ensures r.Some? ==> (t.BinaryFloat? <==> r.value.RealProduct?)
  {
    match t
    case BinaryInt =>
      (match BinaryIntValue(g.dna) case None => None case Some(v) => Some(IntProduct(v)))
    case Base10Int =>
      (match Base10IntValue(g.dna) case None => None case Some(v) => Some(IntProduct(v)))
    case BinaryFloat(len, signed) =>
      (match BinaryFloatValue(g.dna, len, signed) case None => None case Some(v) => Some(RealProduct(v)))
  }

  /** `translate_chromosome`: one product per gene, in gene order; None if any gene fails to translate. */
  function TranslateGenes(t: Translator, gs: seq<GeneValue>): (r: Option<seq<Product>>)
    ensures r.Some? <==> forall i :: 0 <= i < |gs| ==> TranslateGene(t, gs[i]).Some?
    ensures r.Some? ==> |r.value| == |gs| && forall i :: 0 <= i < |gs| ==> Some(r.value[i]) == TranslateGene(t, gs[i])
    decreases |gs|
  {
    if |gs| == 0 then Some([])
    else
      match TranslateGenes(t, gs[..|gs| - 1])
      case None => None
      case Some(front) =>
        match TranslateGene(t, gs[|gs| - 1])
        case None => None
        case Some(p) => Some(front + [p])
  }

  function TranslateChromosome(t: Translator, c: Chrom): (r: Option<seq<Product>>)
    ensures r.Some? <==> forall i :: 0 <= i < |c.genes| ==> TranslateGene(t, c.genes[i]).Some?
    ensures r.Some? ==> |r.value| == |c.genes| && forall i :: 0 <= i < |c.genes| ==> Some(r.value[i]) == TranslateGene(t, c.genes[i])
  {
    TranslateGenes(t, c.genes)
  }

  // ---------------------------------------------------------------------------
  // Properties

  /** A non-empty gene of the binary class always decodes, below 2 ** length; the decimal class likewise below 10 ** length. */
  lemma IntTranslatorsTotal(g: GeneValue)
    requires ValidDna(g.kind, g.dna) && |g.dna| > 0
    ensures g.kind == Binary ==> BinaryIntValue(g.dna).Some? && BinaryIntValue(g.dna).value < Pow(2, |g.dna|)
    ensures g.kind == Base10 ==> Base10IntValue(g.dna).Some? && Base10IntValue(g.dna).value < Pow(10, |g.dna|)
  {
    if g.kind == Binary {
      forall i | 0 <= i < |g.dna| ensures IsDigit(g.dna[i], 2) {
        assert g.dna[i] in "01";
      }
    }
    if g.kind == Base10 {
      forall i | 0 <= i < |g.dna| ensures IsDigit(g.dna[i], 10) {
        assert g.dna[i] in "0123456789";
      }
    }
  }

  /** Every unsigned integer below 2 ** width is the value of exactly one binary DNA of that width. */
  lemma BinaryIntRoundTrip(n: nat, width: nat)
    requires width > 0 && n < Pow(2, width)
    ensures BinaryIntValue(Numeral(n, 2, width)) == Some(n)
  {
    NumeralRoundTrip(n, 2, width);
  }

  /** The decimal translator reads back every number written with `width` decimal digits. */
  lemma Base10IntRoundTrip(n: nat, width: nat)
    requires width > 0 && n < Pow(10, width)
    ensures Base10IntValue(Numeral(n, 10, width)) == Some(n)
  {
    NumeralRoundTrip(n, 10, width);
  }

  /** The documented example: DNA "001111" with significand length 3 decodes to 3 * 10 ** -1. */
  lemma BinaryFloatExample()
    ensures BinaryFloatValue("001111", 3, true) == Some(0.3)
    ensures BinaryFloatValue("001111", 3, false) == Some(0.1)
  {
    var dna := "001111";
    assert SignificandField(dna, 3, true) == "011";
    assert NumeralValue("011", 2) == 3 by {
      assert "011"[..2] == "01" && "01"[..1] == "0" && "0"[..0] == "";
    }
    assert SignificandField(dna, 3, false) == "001";
    assert NumeralValue("001", 2) == 1 by {
      assert "001"[..2] == "00" && "00"[..1] == "0" && "0"[..0] == "";
    }
    assert ExponentField(dna, 3) == "1";
    assert NumeralValue("1", 2) == 1 by {
      assert "1"[..0] == "";
    }
  }

  /** The DNA of sign bit, `len` significand bits, exponent sign bit and exponent bits. */
  function FloatDna(negative: bool, sig: nat, len: nat, expNegative: bool, exp: nat, expWidth: nat): (dna: string)
    requires sig < Pow(2, len) && exp < Pow(2, expWidth)
    ensures |dna| == len + expWidth + 2
  {
    [if negative then '1' else '0'] + Numeral(sig, 2, len) + [if expNegative then '1' else '0'] + Numeral(exp, 2, expWidth)
  }

  /** Signed decoding of an encoded value: sign * significand * 10 ** (± exponent). */
  lemma BinaryFloatRoundTrip(negative: bool, sig: nat, len: nat, expNegative: bool, exp: nat, expWidth: nat)
    requires len > 0 && expWidth > 0 && sig < Pow(2, len) && exp < Pow(2, expWidth)
    ensures BinaryFloatValue(FloatDna(negative, sig, len, expNegative, exp, expWidth), len, true)
         == Some(Scaled(if negative then -(sig as int) else sig, if expNegative then -(exp as int) else exp))
  {
    var dna := FloatDna(negative, sig, len, expNegative, exp, expWidth);
    var s := Numeral(sig, 2, len);
    var e := Numeral(exp, 2, expWidth);
    var signChar := if negative then '1' else '0';
    var expChar := if expNegative then '1' else '0';
    assert dna == [signChar] + s + [expChar] + e;
    assert dna[0] == signChar && dna[1 + len] == expChar;
    assert SignificandField(dna, len, true) == s;
    assert ExponentField(dna, len) == e;
    NumeralRoundTrip(sig, 2, len);
    NumeralRoundTrip(exp, 2, expWidth);
    assert ParseInt(s, 2) == Some(sig) && ParseInt(e, 2) == Some(exp);
    assert Signed(dna[0], sig) == (if negative then -(sig as int) else sig);
    assert Signed(dna[1 + len], exp) == (if expNegative then -(exp as int) else exp);
  }

  /**
   * Unsigned decoding reads the significand from index 0 but still takes the exponent
   * sign from index 1 + len, so the character at index `len` is never read.
   */
  lemma UnsignedSkipsOneBit(dna: string, len: nat, c: char)
    requires FloatFieldsPresent(dna, len)
    ensures BinaryFloatValue(dna[len := c], len, false) == BinaryFloatValue(dna, len, false)
  {
    var other := dna[len := c];
    assert SignificandField(other, len, false) == SignificandField(dna, len, false);
    assert ExponentField(other, len) == ExponentField(dna, len);
  }
}
