// Role labels to slugs, and slugs with suffixes to canonical agent names.
// Strings here are sequences of Unicode characters.
module Slugs {
  import opened Prelude
  import opened DurableTasks

  const MAX_SLUG: nat := 25
  const RANDOM_SUFFIX_BYTES: nat := 6

  // ----- Slugs --------------------------------------------------------------

  /** One character of the label: the slug so far and whether a separator is due. */
  function Step(slug: string, separator: bool, c: char): (string, bool) {
    if IsAlphanumeric(c) then
      var joined := if separator && slug != "" && |slug| < MAX_SLUG then slug + "-" else slug;
      (if |joined| < MAX_SLUG then joined + [ToLower(c)] else joined, false)
    else (slug, true)
  }

  function Scan(text: string): (string, bool) {
    if text == "" then ("", false)
    else
      var (slug, separator) := Scan(text[..|text| - 1]);
      Step(slug, separator, text[|text| - 1])
  }

  function TrimHyphens(s: string): string {
    if s != "" && s[|s| - 1] == '-' then TrimHyphens(s[..|s| - 1]) else s
  }

  function Finish(slug: string): string {
    var trimmed := TrimHyphens(slug);
    if trimmed == "" || !IsLower(trimmed[0]) then "agent" else trimmed
  }

  function Slug(role: Option<string>): string {
    Finish(Scan(if role.Some? then role.value else "").0)
  }

  /** `canonical_slug`. */
  method CanonicalSlug(role: Option<string>) returns (slug: string)
    ensures slug == Slug(role)
  {
    var text := if role.Some? then role.value else "";
    slug := "";
    var separator := false;
    for i := 0 to |text|
      invariant (slug, separator) == Scan(text[..i])
    {
      assert text[..i + 1][..i] == text[..i];
      var c := text[i];
      if IsAlphanumeric(c) {
        if separator && slug != "" && |slug| < MAX_SLUG {
          slug := slug + "-";
        }
        separator := false;
        if |slug| < MAX_SLUG {
          slug := slug + [ToLower(c)];
        }
      } else {
        separator := true;
      }
    }
    assert text[..|text|] == text;
    ghost var scanned := slug;
    while slug != "" && slug[|slug| - 1] == '-'
      invariant TrimHyphens(slug) == TrimHyphens(scanned)
      decreases |slug|
    {
      slug := slug[..|slug| - 1];
    }
    if slug == "" || !IsLower(slug[0]) {
      slug := "agent";
    }
  }

  // ----- What a slug is -----------------------------------------------------

  /** The maximal runs of ASCII letters and digits, in lower case. */
  function Words(text: string): (words: seq<string>)
    ensures forall i :: 0 <= i < |words| ==> words[i] != ""
    ensures text != "" && IsAlphanumeric(text[|text| - 1]) ==> words != []
  {
    if text == "" then []
    else
      var before, c := text[..|text| - 1], text[|text| - 1];
      var words := Words(before);
      if !IsAlphanumeric(c) then words
      else if before != "" && IsAlphanumeric(before[|before| - 1]) then
        words[|words| - 1 := words[|words| - 1] + [ToLower(c)]]
      else words + [[ToLower(c)]]
  }

  function Join(words: seq<string>): string {
    if words == [] then ""
    else if |words| == 1 then words[0]
    else Join(words[..|words| - 1]) + "-" + words[|words| - 1]
  }

  function Cut(s: string): string { if |s| <= MAX_SLUG then s else s[..MAX_SLUG] }

  lemma CutGrows(s: string, c: char)
    ensures Cut(s + [c]) == if |Cut(s)| < MAX_SLUG then Cut(s) + [c] else Cut(s)
  {
    if |s| >= MAX_SLUG { assert (s + [c])[..MAX_SLUG] == s[..MAX_SLUG]; }
  }

  lemma JoinGrows(words: seq<string>, c: char)
    requires words != []
    ensures Join(words[|words| - 1 := words[|words| - 1] + [c]]) == Join(words) + [c]
  {
    var last := |words| - 1;
    assert words[last := words[last] + [c]][..last] == words[..last];
    if last > 0 {
      assert (Join(words[..last]) + "-" + words[last]) + [c] == Join(words[..last]) + "-" + (words[last] + [c]);
    }
  }

  lemma JoinExtends(words: seq<string>, word: string)
    requires words != [] && words[0] != ""
    ensures Join(words) != "" && Join(words + [word]) == Join(words) + "-" + word
  {
    assert (words + [word])[..|words|] == words;
  }

  /** A letter or digit right after another one, on the cut text. */
  lemma StepWithin(s: string, c: char)
    requires IsAlphanumeric(c)
    ensures Step(Cut(s), false, c) == (Cut(s + [ToLower(c)]), false)
  {
    CutGrows(s, ToLower(c));
  }

  /** A letter or digit after a separator. */
  lemma StepAcross(s: string, c: char)
    requires IsAlphanumeric(c) && s != ""
    ensures Step(Cut(s), true, c) == (Cut(s + "-" + [ToLower(c)]), false)
  {
    CutGrows(s, '-');
    CutGrows(s + "-", ToLower(c));
  }

  lemma StepFirst(separator: bool, c: char)
    requires IsAlphanumeric(c)
    ensures Step(Cut(Join([])), separator, c) == (Cut(Join([[ToLower(c)]])), false)
  {
    assert "" + [ToLower(c)] == [ToLower(c)];
  }

  /** The one-pass scan builds the words joined by hyphens, cut at 25 characters. */
  lemma {:induction false} ScanJoinsWords(text: string)
    ensures Scan(text) == (Cut(Join(Words(text))), text != "" && !IsAlphanumeric(text[|text| - 1]))
  {
    if text != "" {
      hide Join, Cut, IsAlphanumeric, ToLower;
      var before, c := text[..|text| - 1], text[|text| - 1];
      ScanJoinsWords(before);
      var words := Words(before);
      if IsAlphanumeric(c) {
        if before != "" && IsAlphanumeric(before[|before| - 1]) {
          JoinGrows(words, ToLower(c));
          StepWithin(Join(words), c);
        } else if words != [] {
          JoinExtends(words, [ToLower(c)]);
          StepAcross(Join(words), c);
        } else {
          StepFirst(before != "", c);
          assert words + [[ToLower(c)]] == [[ToLower(c)]];
        }
      }
    }
  }

  predicate SlugChar(c: char) { IsLower(c) || IsDigit(c) || c == '-' }

  /** Alphanumeric groups joined by single hyphens. */
  predicate Grouped(s: string) {
    && (forall i :: 0 <= i < |s| ==> SlugChar(s[i]))
    && (s != "" ==> s[0] != '-')
    && (forall i :: 0 < i < |s| && s[i] == '-' ==> s[i - 1] != '-')
  }

  predicate IsSlug(s: string) {
    1 <= |s| <= MAX_SLUG && IsLower(s[0]) && Grouped(s) && s[|s| - 1] != '-'
  }

  /** While scanning, a hyphen can end the slug only where the length limit cut it. */
  lemma {:induction false} ScanGroups(text: string)
    ensures var slug := Scan(text).0;
            |slug| <= MAX_SLUG && Grouped(slug) && (slug != "" && slug[|slug| - 1] == '-' ==> |slug| == MAX_SLUG)
  {
    if text != "" { ScanGroups(text[..|text| - 1]); }
  }

  /** `s` without the hyphen it may end in. */
  function WithoutLastHyphen(s: string): string {
    if s != "" && s[|s| - 1] == '-' then s[..|s| - 1] else s
  }

  /** The slug of a label, whatever the label: its words joined by hyphens, cut at 25
      characters, without a hyphen left at the cut; "agent" when that does not start
      with a letter. */
  lemma SlugMeaning(role: Option<string>)
    ensures IsSlug(Slug(role))
    ensures var joined := WithoutLastHyphen(Cut(Join(Words(if role.Some? then role.value else ""))));
            Slug(role) == if joined != "" && IsLower(joined[0]) then joined else "agent"
  {
    var text := if role.Some? then role.value else "";
    ScanGroups(text);
    ScanJoinsWords(text);
    var scanned := Scan(text).0;
    if scanned != "" && scanned[|scanned| - 1] == '-' {
      var cut := scanned[..|scanned| - 1];
      assert cut != "" && cut[|cut| - 1] != '-' by { assert scanned[|scanned| - 2] != '-'; }
      assert TrimHyphens(scanned) == cut;
    }
  }

  /** Scanning a prefix of a slug gives that prefix back, a final hyphen still pending. */
  lemma {:induction false} ScanOfSlug(s: string, i: nat)
    requires IsSlug(s) && i <= |s|
    ensures Scan(s[..i]) == if i > 0 && s[i - 1] == '-' then (s[..i - 1], true) else (s[..i], false)
  {
    if i > 0 {
      ScanOfSlug(s, i - 1);
      assert s[..i][..i - 1] == s[..i - 1];
      var c := s[i - 1];
      assert s[..i] == s[..i - 1] + [c];
      if i > 1 && s[i - 2] == '-' {
        assert c != '-';
        assert s[..i - 1] == s[..i - 2] + "-";
      }
    }
  }

  /** The slugs are exactly the labels normalisation leaves alone. */
  lemma FixedIffSlug(s: string)
    ensures Slug(Some(s)) == s <==> IsSlug(s)
  {
    SlugMeaning(Some(s));
    if IsSlug(s) {
      ScanOfSlug(s, |s|);
      assert s[..|s|] == s;
    }
  }

  lemma SlugIsIdempotent(role: Option<string>)
    ensures Slug(Some(Slug(role))) == Slug(role)
  {
    SlugMeaning(role);
    FixedIffSlug(Slug(role));
  }

  // ----- Canonical names ----------------------------------------------------

  predicate ValidSuffix(s: string) {
    4 <= |s| <= 8 && forall i :: 0 <= i < |s| ==> IsLower(s[i]) || '2' <= s[i] <= '7'
  }

  /** `canonical_name_from_parts`. */
  function NameFrom(slug: string, suffix: string): Option<string> {
    if Slug(Some(slug)) != slug || !ValidSuffix(suffix) then None
    else
      var name := slug + "-" + suffix;
      if ValidAgentName(name) then Some(name) else None
  }

  /** `validate_canonical_name`. */
  predicate ValidCanonicalName(name: string, slug: string) {
    && |name| > |slug|
    && name[..|slug|] == slug
    && name[|slug|] == '-'
    && NameFrom(slug, name[|slug| + 1..]) == Some(name)
  }

  /** A stored name passes validation exactly when it is some slug and suffix joined;
      parts that fit always make a name the agent grammar accepts. */
  lemma NamesValidateExactly(name: string, slug: string)
    ensures ValidCanonicalName(name, slug) <==> exists suffix :: NameFrom(slug, suffix) == Some(name)
  {
    forall suffix | NameFrom(slug, suffix) == Some(name) ensures ValidCanonicalName(name, slug) {
      assert name[|slug| + 1..] == suffix;
    }
  }

  lemma PartsFit(slug: string, suffix: string)
    ensures NameFrom(slug, suffix).Some? <==> IsSlug(slug) && ValidSuffix(suffix) && |slug| + |suffix| <= 31
  {
    FixedIffSlug(slug);
    if IsSlug(slug) && ValidSuffix(suffix) && |slug| + |suffix| <= 31 {
      var name := slug + "-" + suffix;
      forall i | 1 <= i < |name| ensures IsLower(name[i]) || IsDigit(name[i]) || name[i] == '_' || name[i] == '-' {
        if i < |slug| { assert SlugChar(slug[i]); }
      }
    }
  }

  /** A slug and a suffix, each valid alone, that are too long for a name. */
  lemma LongPartsMakeNoName() returns (slug: string, suffix: string)
    ensures IsSlug(slug) && ValidSuffix(suffix) && NameFrom(slug, suffix).None?
  {
    slug, suffix := seq(25, _ => 'a'), seq(7, _ => 'a');
    PartsFit(slug, suffix);
  }

  // ----- Suffixes from an identifier ----------------------------------------

  function Base32(c: char): (r: char)
    requires IsLowerHex(c)
    ensures 'a' <= r <= 'p'
  {
    ((if IsDigit(c) then c as int - '0' as int else c as int - 'a' as int + 10) + 'a' as int) as char
  }

  /** The last `n` hexadecimal digits, read from the end, fewer if there are fewer. */
  function LastDigits(id: string, n: nat): (digits: string)
    ensures |digits| <= n && forall i :: 0 <= i < |digits| ==> IsLowerHex(digits[i])
  {
    if n == 0 || id == "" then ""
    else if IsLowerHex(id[|id| - 1]) then [id[|id| - 1]] + LastDigits(id[..|id| - 1], n - 1)
    else LastDigits(id[..|id| - 1], n)
  }

  /** `RandomSuffix::suffix` on the text of the fresh identifier. */
  function RandomSuffix(id: string): Option<string> {
    var digits := LastDigits(id, RANDOM_SUFFIX_BYTES);
    if |digits| != RANDOM_SUFFIX_BYTES then None
    else Some(seq(|digits|, i requires 0 <= i < |digits| => Base32(digits[i])))
  }

  function HexValue(c: char): int
    requires IsLowerHex(c)
  {
    if '0' <= c <= '9' then c as int - '0' as int else c as int - 'a' as int + 10
  }

  /** A suffix is drawn exactly if the identifier has six hexadecimal digits; it spells the
      last six of them, last first, with the letters a to p, so that different digits draw
      different suffixes. */
  lemma RandomSuffixMeans(id: string)
    ensures RandomSuffix(id).Some? <==> |LastDigits(id, 6)| == 6
    ensures RandomSuffix(id).Some? ==>
              && |RandomSuffix(id).value| == 6
              && forall i :: 0 <= i < 6 ==>
                   RandomSuffix(id).value[i] as int == 'a' as int + HexValue(LastDigits(id, 6)[i])
  {
  }

  lemma {:induction false} LastDigitsOfHex(id: string, n: nat)
    requires n <= |id| && forall i :: |id| - n <= i < |id| ==> IsLowerHex(id[i])
    ensures |LastDigits(id, n)| == n && forall i :: 0 <= i < n ==> LastDigits(id, n)[i] == id[|id| - 1 - i]
  {
    if n > 0 {
      var init := id[..|id| - 1];
      LastDigitsOfHex(init, n - 1);
    }
  }

  /** A drawn suffix makes a name with the slug of every label: 25 + 1 + 6 is exactly the
      32 bytes a name may have. */
  lemma RandomSuffixFits(role: Option<string>, id: string)
    requires RandomSuffix(id).Some?
    ensures NameFrom(Slug(role), RandomSuffix(id).value).Some?
  {
    SlugMeaning(role);
    PartsFit(Slug(role), RandomSuffix(id).value);
  }
}
