/**
 * The `Email` value object: an address checked once, when it is built, and kept in a
 * normalised form (lower case, no surrounding white space).
 */
module Emails {
  import opened Wrappers
  import opened Text

  const EmptyMessage := "Email cannot be empty"
  const FormatMessage := "Invalid email format"

  /** A validated, normalised address; `value` is what `getValue` and `toString` return. */
  datatype Email = Email(value: string) {
    function GetValue(): string { value }

    function ToString(): string { value }

    /** Two addresses are equal when their normalised values are. */
    predicate Equals(other: Email) { value == other.value }
  }

  /** A character of the class `[^\s@]`. */
  predicate IsAddressChar(c: char) {
    !IsSpace(c) && c != '@'
  }

  predicate AllAddressChars(s: string) {
    forall i :: 0 <= i < |s| ==> IsAddressChar(s[i])
  }

  /**
   * The language of the pattern `^[^\s@]+@[^\s@]+\.[^\s@]+$`: a local part, `@`, a domain
   * label, a dot and a last label, each part non-empty and free of white space and `@`.
   */
  ghost predicate MatchesPattern(s: string) {
    exists local, left, right ::
      |local| > 0 && |left| > 0 && |right| > 0 &&
      AllAddressChars(local) && AllAddressChars(left) && AllAddressChars(right) &&
      s == local + "@" + left + "." + right
  }

  /**
   * The pattern test, position by position: exactly one `@`, not first; no white space;
   * and a dot in the domain with at least one character on each side.
   */
  predicate IsWellFormed(s: string) {
    exists at | 0 < at < |s| ::
      s[at] == '@' &&
      (forall k | 0 <= k < |s| && k != at :: IsAddressChar(s[k])) &&
      (exists d | at + 1 < d < |s| - 1 :: s[d] == '.')
  }

  /** `new Email(input)`: validate the trimmed input, then keep it lower-cased and trimmed. */
  function Create(input: string): Result<Email> {
    var trimmed := Trim(input);
    if trimmed == [] then Err(EmptyMessage)
    else if !IsWellFormed(trimmed) then Err(FormatMessage)
    else Ok(Email(Trim(ToLower(input))))
  }

  // ---------------------------------------------------------------- the pattern

  /** The position-by-position test accepts exactly the language of the pattern. */
  lemma WellFormedIffPattern(s: string)
    ensures IsWellFormed(s) <==> MatchesPattern(s)
  {
    if IsWellFormed(s) {
      var at :| 0 < at < |s| && s[at] == '@' &&
        (forall k | 0 <= k < |s| && k != at :: IsAddressChar(s[k])) &&
        (exists d | at + 1 < d < |s| - 1 :: s[d] == '.');
      var d :| at + 1 < d < |s| - 1 && s[d] == '.';
      var local, left, right := s[..at], s[at + 1..d], s[d + 1..];
      assert AllAddressChars(local) by {
        forall i | 0 <= i < |local| ensures IsAddressChar(local[i]) {
          assert local[i] == s[i];
        }
      }
      assert AllAddressChars(left) by {
        forall i | 0 <= i < |left| ensures IsAddressChar(left[i]) {
          assert left[i] == s[at + 1 + i];
        }
      }
      assert AllAddressChars(right) by {
        forall i | 0 <= i < |right| ensures IsAddressChar(right[i]) {
          assert right[i] == s[d + 1 + i];
        }
      }
      assert s == local + "@" + left + "." + right;
    }
    if MatchesPattern(s) {
      var local, left, right :|
        |local| > 0 && |left| > 0 && |right| > 0 &&
        AllAddressChars(local) && AllAddressChars(left) && AllAddressChars(right) &&
        s == local + "@" + left + "." + right;
      PatternPositions(s, local, left, right);
    }
  }

  /** The witness positions of a split address. */
  lemma PatternPositions(s: string, local: string, left: string, right: string)
    requires |local| > 0 && |left| > 0 && |right| > 0
    requires AllAddressChars(local) && AllAddressChars(left) && AllAddressChars(right)
    requires s == local + "@" + left + "." + right
    ensures IsWellFormed(s)
  {
    var at, d := |local|, |local| + 1 + |left|;
    assert s[at] == '@' && s[d] == '.';
    forall k | 0 <= k < |s| && k != at ensures IsAddressChar(s[k]) {
      if k < at {
        assert s[k] == local[k];
      } else if k < d {
        assert s[k] == left[k - at - 1];
      } else if k > d {
        assert s[k] == right[k - d - 1];
      }
    }
  }

  /** Lower-casing keeps white space, `@` and `.` where they are, so the pattern does not see case. */
  lemma WellFormedLower(s: string)
    ensures IsWellFormed(ToLower(s)) <==> IsWellFormed(s)
  {
    var t := ToLower(s);
    forall k | 0 <= k < |s|
      ensures IsAddressChar(t[k]) <==> IsAddressChar(s[k])
      ensures t[k] == '@' <==> s[k] == '@'
      ensures t[k] == '.' <==> s[k] == '.'
    {
      LowerCharFacts(s[k]);
    }
    if IsWellFormed(s) {
      var at :| 0 < at < |s| && s[at] == '@' &&
        (forall k | 0 <= k < |s| && k != at :: IsAddressChar(s[k])) &&
        (exists d | at + 1 < d < |s| - 1 :: s[d] == '.');
      var d :| at + 1 < d < |s| - 1 && s[d] == '.';
      assert t[at] == '@' && t[d] == '.';
    }
    if IsWellFormed(t) {
      var at :| 0 < at < |t| && t[at] == '@' &&
        (forall k | 0 <= k < |t| && k != at :: IsAddressChar(t[k])) &&
        (exists d | at + 1 < d < |t| - 1 :: t[d] == '.');
      var d :| at + 1 < d < |t| - 1 && t[d] == '.';
      assert s[at] == '@' && s[d] == '.';
    }
  }

  // ---------------------------------------------------------------- properties of Create

  /** Blank input (empty after trimming) is refused with the empty-address message, and only blank input. */
  lemma CreateEmptyIffBlank(input: string)
    ensures Create(input) == Err(EmptyMessage) <==> IsBlank(input)
  {
    TrimEmptyIffBlank(input);
  }

  /**
   * Non-blank input is accepted exactly when its trimmed form matches the pattern; otherwise it
   * is refused with the format message.
   */
  lemma CreateAcceptsPattern(input: string)
    ensures Create(input).Ok? <==> MatchesPattern(Trim(input))
    ensures Create(input) == Err(FormatMessage) <==> !IsBlank(input) && !MatchesPattern(Trim(input))
  {
    TrimEmptyIffBlank(input);
    WellFormedIffPattern(Trim(input));
  }

  /**
   * The kept value is the trimmed input in lower case: it has no surrounding white space, no
   * capital, and still matches the pattern; `getValue` and `toString` both return it.
   */
  lemma CreateNormalises(input: string)
    requires Create(input).Ok?
    ensures var e := Create(input).value;
      e.value == ToLower(Trim(input)) && Trim(e.value) == e.value && NoUpper(e.value) &&
      IsWellFormed(e.value) && e.GetValue() == e.value && e.ToString() == e.value
  {
    TrimLowerCommute(input);
    TrimIdempotent(ToLower(input));
    ToLowerIdempotent(Trim(input));
    WellFormedLower(Trim(input));
  }

  /** Building an address again from its own value gives the same address. */
  lemma CreateIdempotent(input: string)
    requires Create(input).Ok?
    ensures Create(Create(input).value.value) == Create(input)
  {
    var v := Create(input).value.value;
    CreateNormalises(input);
    ToLowerIdempotent(v);
    assert |v| == |Trim(input)|;
  }

  /** Case does not matter: lower-casing the input first changes neither the verdict nor the value. */
  lemma CreateIgnoresCase(input: string)
    ensures Create(ToLower(input)) == Create(input)
  {
    var low := ToLower(input);
    TrimLowerCommute(input);
    WellFormedLower(Trim(input));
    ToLowerIdempotent(input);
    assert ToLower(low) == low;
    assert |Trim(low)| == |Trim(input)|;
  }

  /** Surrounding white space does not matter either. */
  lemma CreateIgnoresPadding(pre: string, input: string, post: string)
    requires IsBlank(pre) && IsBlank(post)
    ensures Create(pre + input + post) == Create(input)
  {
    var padded := pre + input + post;
    TrimPadded(pre, input, post);
    TrimLowerCommute(padded);
    TrimLowerCommute(input);
  }

  /** Two accepted inputs give equal addresses exactly when they agree after lower-casing and trimming. */
  lemma EqualsIffSameNormalForm(x: string, y: string)
    requires Create(x).Ok? && Create(y).Ok?
    ensures Create(x).value.Equals(Create(y).value) <==> ToLower(Trim(x)) == ToLower(Trim(y))
  {
    CreateNormalises(x);
    CreateNormalises(y);
  }
}
