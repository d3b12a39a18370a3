/**
 * The two field validators of the API: `validate_username` (a full match over `[\w.@+-]` plus
 * the reserved name "me") and `validate_year` (no later than the current year).
 */
module Validators {
  import opened Wrappers

  /** `\w`, restricted to ASCII: letters, digits and the underscore. */
  predicate IsWordChar(c: char) {
    ('a' <= c <= 'z') || ('A' <= c <= 'Z') || ('0' <= c <= '9') || c == '_'
  }

  /** The character class `[\w.@+-]`. */
  predicate IsUsernameChar(c: char) {
    IsWordChar(c) || c == '.' || c == '@' || c == '+' || c == '-'
  }

  /**
   * `re.search(r'^[\w.@+-]+\Z', value)` finds a match: `^` and `\Z` anchor the whole string
   * (so no trailing newline is tolerated) and `+` needs at least one character.
   */
  predicate MatchesUsernamePattern(s: string) {
    |s| > 0 && forall i :: 0 <= i < |s| ==> IsUsernameChar(s[i])
  }

  /** `re.sub(r'[\w.@+-]', '', value)`: the characters of `s` outside the class, in order. */
  function Unmatched(s: string): (r: string)
    ensures |r| <= |s|
    ensures forall i :: 0 <= i < |r| ==> !IsUsernameChar(r[i])
  {
    if s == [] then []
    else if IsUsernameChar(s[0]) then Unmatched(s[1..])
    else [s[0]] + Unmatched(s[1..])
  }

  /** Removing the allowed characters leaves nothing exactly when every character is allowed. */
  lemma {:induction false} UnmatchedEmptyIffAllAllowed(s: string)
    ensures Unmatched(s) == [] <==> forall i :: 0 <= i < |s| ==> IsUsernameChar(s[i])
  {
    if s != [] {
      UnmatchedEmptyIffAllAllowed(s[1..]);
      assert forall i :: 1 <= i < |s| ==> s[i] == s[1..][i - 1];
    }
  }

  /** `Unmatched` keeps every disallowed character as often as it occurs, and no allowed one. */
  lemma {:induction false} UnmatchedCounts(s: string)
    ensures forall c :: multiset(Unmatched(s))[c] == if IsUsernameChar(c) then 0 else multiset(s)[c]
  {
    if s != [] {
      UnmatchedCounts(s[1..]);
      assert s == [s[0]] + s[1..];
      assert multiset(s) == multiset([s[0]]) + multiset(s[1..]);
    }
  }

  /** `Unmatched` works character by character, so it keeps the original order across a split. */
  lemma {:induction false} UnmatchedConcat(a: string, b: string)
    ensures Unmatched(a + b) == Unmatched(a) + Unmatched(b)
  {
    if a != [] {
      assert (a + b)[0] == a[0];
      assert (a + b)[1..] == a[1..] + b;
      UnmatchedConcat(a[1..], b);
    } else {
      assert a + b == b;
    }
  }

  /** The two ways `validate_username` raises. */
  datatype UsernameError =
    | InvalidCharacters(found: string)  // the message lists the characters outside the class
    | ReservedName                      // the value is "me"

  const ReservedUsername: string := "me"

  /** `validate_username`: the pattern check first, then the reserved name; returns the value. */
  function ValidateUsername(value: string): (r: Result<string, UsernameError>)
    ensures r.Success? <==> MatchesUsernamePattern(value) && value != ReservedUsername
    ensures r.Success? ==> r.value == value
    ensures r == Failure(ReservedName) <==> value == ReservedUsername
    ensures r.Failure? && r.error.InvalidCharacters? <==> !MatchesUsernamePattern(value)
    ensures r.Failure? && r.error.InvalidCharacters? ==> r.error.found == Unmatched(value)
  {
    if !MatchesUsernamePattern(value) then Failure(InvalidCharacters(Unmatched(value)))
    else if value == ReservedUsername then Failure(ReservedName)
    else Success(value)
  }

  /** A rejected username always names at least one offending character, except the empty one. */
  lemma InvalidUsernameNamesOffenders(value: string)
    requires ValidateUsername(value).Failure? && ValidateUsername(value).error.InvalidCharacters?
    ensures value == [] <==> ValidateUsername(value).error.found == []
  {
    UnmatchedEmptyIffAllAllowed(value);
  }

  /** The empty string fails the pattern, and its report lists no characters. */
  lemma EmptyUsernameRejected()
    ensures ValidateUsername("") == Failure(InvalidCharacters(""))
  {
  }

  /** `\Z` rather than `$`: a trailing newline is reported as the last offending character. */
  lemma TrailingNewlineRejected(s: string)
    ensures ValidateUsername(s + "\n") == Failure(InvalidCharacters(Unmatched(s) + "\n"))
  {
    UnmatchedConcat(s, "\n");
    assert !IsUsernameChar((s + "\n")[|s|]);
    assert Unmatched("\n") == "\n";
  }

  /** `validate_year`: the value must lie in 1 .. the current year (the clock is a parameter). */
  function ValidateYear(value: int, currentYear: int): (accepted: bool) {
    0 < value <= currentYear
  }

  /** A year accepted once stays accepted as time passes; year 0 and negative years never pass. */
  lemma YearAcceptanceIsStable(value: int, year: int, later: int)
    requires year <= later
    ensures ValidateYear(value, year) ==> ValidateYear(value, later)
    ensures !ValidateYear(0, year) && (value < 0 ==> !ValidateYear(value, later))
    ensures ValidateYear(year, year) <==> year > 0
    ensures ValidateYear(year + 1, year) == false
  {
  }
}
