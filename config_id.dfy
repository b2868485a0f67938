/**
 * `generate_config_id`'s pure part: the slug made from a display name and the
 * candidate identifier `slug + "_" + str(suffix)`.
 */
module ConfigId {
  import opened Text

  /** The two punctuation characters a slug may keep. */
  predicate IsSeparator(c: char) {
    c == '-' || c == '_'
  }

  /** The slug used when nothing of the name survives. */
  const DefaultBase: string := "cfg"

  /** The characters of `s` that are alphanumeric or a separator, in order. */
  function KeepIdChars(s: string, isAlnum: char -> bool): (r: string)
    ensures forall i :: 0 <= i < |r| ==> (isAlnum(r[i]) || IsSeparator(r[i])) && r[i] in s
    ensures forall i :: 0 <= i < |s| && (isAlnum(s[i]) || IsSeparator(s[i])) ==> s[i] in r
  {
    if s == [] then []
    else
      var rest := KeepIdChars(s[1..], isAlnum);
      assert forall i :: 1 <= i < |s| ==> s[i] == s[1..][i - 1];
      if isAlnum(s[0]) || IsSeparator(s[0]) then [s[0]] + rest else rest
  }

  /**
   * The slug of a display name: its lower-cased alphanumeric and separator
   * characters with separators trimmed from both ends, or "cfg" when that is empty.
   */
  function Slug(name: string, rules: CharRules): (base: string)
    ensures base != []
  {
    var trimmed := Trim(KeepIdChars(rules.lower(name), rules.isAlnum), IsSeparator);
    if trimmed == [] then DefaultBase else trimmed
  }

  /** A slug never starts or ends with a separator. */
  lemma SlugEnds(name: string, rules: CharRules, base: string)
    requires base == Slug(name, rules)
    ensures !IsSeparator(base[0]) && !IsSeparator(base[|base| - 1])
  {
    var trimmed := Trim(KeepIdChars(rules.lower(name), rules.isAlnum), IsSeparator);
    if trimmed == [] {
      assert base[0] == 'c' && base[2] == 'g';
    }
  }

  /** A name with no alphanumeric non-separator character, once lower-cased, gets the slug "cfg". */
  lemma SlugDefault(name: string, rules: CharRules, base: string)
    requires base == Slug(name, rules)
    requires var low := rules.lower(name);
      forall i :: 0 <= i < |low| ==> !rules.isAlnum(low[i]) || IsSeparator(low[i])
    ensures base == DefaultBase
  {
    var low := rules.lower(name);
    SlugOnlySeparators(low, rules.isAlnum, KeepIdChars(low, rules.isAlnum), Trim(KeepIdChars(low, rules.isAlnum), IsSeparator));
  }

  /** Every alphanumeric non-separator character of the lower-cased name is in the slug. */
  lemma SlugKeeps(name: string, rules: CharRules, base: string)
    requires base == Slug(name, rules)
    ensures var low := rules.lower(name);
      forall i :: 0 <= i < |low| && rules.isAlnum(low[i]) && !IsSeparator(low[i]) ==> low[i] in base
  {
    var low := rules.lower(name);
    SlugKeepsLetters(low, rules.isAlnum, KeepIdChars(low, rules.isAlnum), Trim(KeepIdChars(low, rules.isAlnum), IsSeparator));
  }

  /** Unless it is "cfg", a slug holds only alphanumeric and separator characters of the lower-cased name. */
  lemma SlugDrawn(name: string, rules: CharRules, base: string)
    requires base == Slug(name, rules)
    ensures base == DefaultBase
      || forall i :: 0 <= i < |base| ==> (rules.isAlnum(base[i]) || IsSeparator(base[i])) && base[i] in rules.lower(name)
  {
    var kept := KeepIdChars(rules.lower(name), rules.isAlnum);
    var trimmed := Trim(kept, IsSeparator);
    if trimmed != [] {
      var a := LeadingCount(kept, IsSeparator);
      forall i | 0 <= i < |base|
        ensures (rules.isAlnum(base[i]) || IsSeparator(base[i])) && base[i] in rules.lower(name)
      {
        assert base[i] == kept[a + i];
      }
    }
  }

  /** A name with nothing but separators and non-alphanumeric characters trims to nothing. */
  lemma SlugOnlySeparators(low: string, isAlnum: char -> bool, kept: string, trimmed: string)
    requires kept == KeepIdChars(low, isAlnum) && trimmed == Trim(kept, IsSeparator)
    requires forall i :: 0 <= i < |low| ==> !isAlnum(low[i]) || IsSeparator(low[i])
    ensures trimmed == []
  {
    forall k | 0 <= k < |kept| ensures IsSeparator(kept[k]) {
      var c := kept[k];
      assert c in low;
      var j :| 0 <= j < |low| && low[j] == c;
    }
  }

  /** Every alphanumeric non-separator character of the name survives trimming. */
  lemma SlugKeepsLetters(low: string, isAlnum: char -> bool, kept: string, trimmed: string)
    requires kept == KeepIdChars(low, isAlnum) && trimmed == Trim(kept, IsSeparator)
    ensures forall i :: 0 <= i < |low| && isAlnum(low[i]) && !IsSeparator(low[i]) ==> low[i] in trimmed
    ensures trimmed == [] ==> forall i :: 0 <= i < |low| ==> !isAlnum(low[i]) || IsSeparator(low[i])
  {
    forall i | 0 <= i < |low| && isAlnum(low[i]) && !IsSeparator(low[i])
      ensures low[i] in trimmed
    {
      var c := low[i];
      assert c in kept;
      var k :| 0 <= k < |kept| && kept[k] == c;
      TrimKeeps(kept, IsSeparator, k);
    }
  }

  /** Python's `f"{base}_{suffix}"`. */
  function Candidate(base: string, suffix: nat): (id: string)
    ensures |id| > |base| + 1 && id[..|base|] == base && id[|base|] == '_'
    ensures AllDigits(id[|base| + 1..])
  {
    var id := base + "_" + DecimalString(suffix);
    assert id[|base| + 1..] == DecimalString(suffix);
    id
  }

  /** A candidate is the slug, an underscore and the four digits of the suffix. */
  lemma CandidateShape(base: string, suffix: nat)
    requires 1000 <= suffix <= 9999
    ensures var id := Candidate(base, suffix);
      && |id| == |base| + 5
      && id[..|base|] == base
      && id[|base|] == '_'
      && AllDigits(id[|base| + 1..])
      && DigitsValue(id[|base| + 1..]) == suffix
  {
    var id := Candidate(base, suffix);
    FourDigits(suffix);
    DecimalRoundTrip(suffix);
    assert id[|base| + 1..] == DecimalString(suffix);
  }

  /** Different suffixes give different candidates for the same slug. */
  lemma CandidateInjective(base: string, m: nat, n: nat)
    requires Candidate(base, m) == Candidate(base, n)
    ensures m == n
  {
    var id := Candidate(base, m);
    assert id[|base| + 1..] == DecimalString(m);
    assert Candidate(base, n)[|base| + 1..] == DecimalString(n);
    DecimalRoundTrip(m);
    DecimalRoundTrip(n);
  }
}
