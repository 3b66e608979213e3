// Delivery identifiers: UUID version 7 text.  The parser accepts every textual
// form the uuid library does and always returns the lower-case hyphenated one.
module DeliveryIds {
  import opened Prelude

  predicate IsHex(c: char) { IsDigit(c) || 'a' <= c <= 'f' || 'A' <= c <= 'F' }

  predicate AllHex(s: string) { forall i :: 0 <= i < |s| ==> IsHex(s[i]) }

  function Lowered(s: string): (r: string)
    ensures |r| == |s| && forall i :: 0 <= i < |s| ==> r[i] == ToLower(s[i])
  {
    seq(|s|, i requires 0 <= i < |s| => ToLower(s[i]))
  }

  function Hyphenate(d: string): (s: string)
    requires |d| == 32
    ensures |s| == 36 && Digits36(s) == Some(d)
  {
    var s := d[..8] + "-" + d[8..12] + "-" + d[12..16] + "-" + d[16..20] + "-" + d[20..];
    assert s[8] == '-' && s[13] == '-' && s[18] == '-' && s[23] == '-';
    assert s[..8] == d[..8] && s[9..13] == d[8..12] && s[14..18] == d[12..16];
    assert s[19..23] == d[16..20] && s[24..] == d[20..];
    assert Strip36(s) == d;
    s
  }

  function Strip36(s: string): string
    requires |s| == 36
  {
    s[..8] + s[9..13] + s[14..18] + s[19..23] + s[24..]
  }

  function Digits36(s: string): Option<string>
    requires |s| == 36
  {
    if s[8] == '-' && s[13] == '-' && s[18] == '-' && s[23] == '-' then Some(Strip36(s)) else None
  }

  /** The 32 digits of the simple, hyphenated, braced or URN form. */
  function Digits(s: string): Option<string> {
    if |s| == 32 then Some(s)
    else if |s| == 36 then Digits36(s)
    else if |s| == 38 && s[0] == '{' && s[37] == '}' then Digits36(s[1..37])
    else if |s| == 45 && s[..9] == "urn:uuid:" then Digits36(s[9..])
    else None
  }

  predicate IsVersion7(d: string)
    requires |d| == 32
  {
    d[12] == '7' && d[16] in "89abAB"
  }

  function Parse(s: string): Option<string> {
    match Digits(s)
    case None => None
    case Some(d) =>
      if AllHex(d) && IsVersion7(d) then Some(Hyphenate(Lowered(d))) else None
  }

  /** What the parser returns is a fixed point of the parser. */
  lemma ParseIsIdempotent(s: string)
    ensures Parse(s).Some? ==> Parse(Parse(s).value) == Parse(s)
  {
    if Parse(s).Some? {
      var d := Lowered(Digits(s).value);
      assert Digits(Parse(s).value) == Some(d);
      assert AllHex(d);
      assert Lowered(d) == d;
    }
  }

  /** Upper-case text parses, but not to itself. */
  lemma UpperCaseIsRespelled() returns (text: string)
    ensures Parse(text).Some? && !IsCanonical(text)
  {
    var digits := "0198C0DE" + "0000" + "7000" + "8000" + "000000000001";
    text := Hyphenate(digits);
    assert digits[4] == 'C' && digits[12] == '7' && digits[16] == '8';
    assert Parse(text) == Some(Hyphenate(Lowered(digits)));
    assert text[4] == 'C' && Parse(text).value[4] == 'c';
  }

  predicate IsCanonical(s: string) { Parse(s) == Some(s) }

  /** The simple, hyphenated, braced and URN spellings of 32 digits. */
  function Spellings(d: string): (r: seq<string>)
    requires |d| == 32
  {
    [d, Hyphenate(d), "{" + Hyphenate(d) + "}", "urn:uuid:" + Hyphenate(d)]
  }

  predicate IsId(d: string) { |d| == 32 && AllHex(d) && d[12] == '7' && d[16] in "89abAB" }

  lemma SpellingsHaveDigits(d: string, i: nat)
    requires |d| == 32 && i < 4
    ensures Digits(Spellings(d)[i]) == Some(d)
  {
    var h := Hyphenate(d);
    var braced, urn := "{" + h + "}", "urn:uuid:" + h;
    assert braced[1..37] == h && braced[0] == '{' && braced[37] == '}';
    assert urn[..9] == "urn:uuid:" && urn[9..] == h;
  }

  lemma DigitsAreSpelled(s: string)
    requires Digits(s).Some?
    ensures |Digits(s).value| == 32 && exists i :: 0 <= i < 4 && s == Spellings(Digits(s).value)[i]
  {
    var d := Digits(s).value;
    var h := if |s| == 36 then s else if |s| == 38 then s[1..37] else if |s| == 45 then s[9..] else "";
    if |s| == 32 {
      assert s == Spellings(d)[0];
    } else {
      HyphenateStrips(h);
      if |s| == 36 { assert s == Spellings(d)[1]; }
      else if |s| == 38 { assert s == "{" + h + "}"; assert s == Spellings(d)[2]; }
      else { assert s == "urn:uuid:" + h; assert s == Spellings(d)[3]; }
    }
  }

  /** The parser accepts exactly the four spellings, in any case, of the version 7 identifiers
      of the RFC 4122 variant, and answers with the lower-case hyphenated one. */
  lemma ParsesIff(s: string)
    ensures Parse(s).Some? <==> exists d, i :: IsId(d) && 0 <= i < 4 && s == Spellings(d)[i]
    ensures forall d, i :: IsId(d) && 0 <= i < 4 && s == Spellings(d)[i] ==> Parse(s) == Some(Hyphenate(Lowered(d)))
  {
    forall d, i | IsId(d) && 0 <= i < 4 && s == Spellings(d)[i] ensures Parse(s) == Some(Hyphenate(Lowered(d))) {
      SpellingsHaveDigits(d, i);
    }
    if Parse(s).Some? {
      DigitsAreSpelled(s);
      var d := Digits(s).value;
      assert IsId(d);
    }
  }

  predicate IsHyphenPlace(i: int) { i == 8 || i == 13 || i == 18 || i == 23 }

  /** The lower-case hyphenated spelling of a version 7, RFC 4122 identifier. */
  predicate IsSpelled(s: string) {
    && |s| == 36
    && (forall i :: 0 <= i < 36 ==> if IsHyphenPlace(i) then s[i] == '-' else IsLowerHex(s[i]))
    && s[14] == '7'
    && s[19] in "89ab"
  }

  lemma HyphenateStrips(s: string)
    requires |s| == 36 && s[8] == '-' && s[13] == '-' && s[18] == '-' && s[23] == '-'
    ensures |Strip36(s)| == 32 && Hyphenate(Strip36(s)) == s
  {
    var d := Strip36(s);
    assert d[..8] == s[..8] && d[8..12] == s[9..13] && d[12..16] == s[14..18];
    assert d[16..20] == s[19..23] && d[20..] == s[24..];
  }

  /** Where each digit of the hyphenated text stands among the 32. */
  function DigitOf(i: nat): nat
    requires i < 36
  {
    if i < 8 then i else if i < 13 then (if i == 8 then 0 else i - 1)
    else if i < 18 then (if i == 13 then 0 else i - 2)
    else if i < 23 then (if i == 18 then 0 else i - 3)
    else if i == 23 then 0 else i - 4
  }

  lemma HyphenatedAt(d: string, i: nat)
    requires |d| == 32 && i < 36
    ensures Hyphenate(d)[i] == if IsHyphenPlace(i) then '-' else d[DigitOf(i)]
  {
  }

  lemma SpelledIsCanonical(s: string)
    requires IsSpelled(s)
    ensures IsCanonical(s)
  {
    HyphenateStrips(s);
    var d := Strip36(s);
    forall k | 0 <= k < 32 ensures IsLowerHex(d[k]) {
      var i := if k < 8 then k else if k < 12 then k + 1 else if k < 16 then k + 2 else if k < 20 then k + 3 else k + 4;
      assert d[k] == s[i];
    }
    assert d[12] == s[14] && d[16] == s[19];
    assert Lowered(d) == d;
  }

  lemma CanonicalIsSpelled(s: string)
    requires IsCanonical(s)
    ensures IsSpelled(s)
  {
    var d := Digits(s).value;
    var low := Lowered(d);
    assert s == Hyphenate(low);
    forall i: nat | i < 36 ensures if IsHyphenPlace(i) then s[i] == '-' else IsLowerHex(s[i]) {
      HyphenatedAt(low, i);
      if !IsHyphenPlace(i) { assert IsHex(d[DigitOf(i)]) && low[DigitOf(i)] == ToLower(d[DigitOf(i)]); }
    }
    HyphenatedAt(low, 14);
    HyphenatedAt(low, 19);
  }

  /** The texts the parser leaves alone: 36 characters, hyphens at 8, 13, 18 and 23, every
      other one a lower-case hexadecimal digit, version 7 and an RFC 4122 variant. */
  lemma CanonicalIffSpelled(s: string)
    ensures IsCanonical(s) <==> IsSpelled(s)
  {
    if IsSpelled(s) { SpelledIsCanonical(s); }
    if IsCanonical(s) { CanonicalIsSpelled(s); }
  }

  /** The value space of `DeliveryId`: text the parser returns. */
  type DeliveryId = s: string | IsCanonical(s) witness
    (var d := "00000000" + "0000" + "7000" + "8000" + "000000000000";
     assert Lowered(d) == d;
     Hyphenate(d))
}
