/** `validate_username`: the characters a username may hold are the word characters
    (`\w`, the parameter `isWord`) and `.`, `@`, `+`, `-`. */
module Validators {
  import opened Wrappers
  import Collections

  /** The character class `[\w.@+-]`. */
  predicate IsAllowed(c: char, isWord: char -> bool) {
    isWord(c) || c == '.' || c == '@' || c == '+' || c == '-'
  }

  /** How much of `value` the alternative `^[\w.@+-]+` matches: the longest prefix of
      allowed characters. */
  function AllowedPrefixLength(value: string, isWord: char -> bool): (k: nat)
    ensures k <= |value|
    ensures forall i :: 0 <= i < k ==> IsAllowed(value[i], isWord)
    ensures k < |value| ==> !IsAllowed(value[k], isWord)
  {
    if value == [] || !IsAllowed(value[0], isWord) then 0
    else 1 + AllowedPrefixLength(value[1..], isWord)
  }

  /** `re.sub(r'^[\w.@+-]+|\Z', '', value)`: the anchored alternative can only match at
      the start, and `\Z` only matches the empty string at the end, so the substitution
      removes the allowed prefix and keeps the rest. */
  function InvalidCharacters(value: string, isWord: char -> bool): string {
    value[AllowedPrefixLength(value, isWord)..]
  }

  /** `validate_username`: `Pass` when it returns, or the set of characters the
      ValidationError reports. */
  function ValidateUsername(value: string, isWord: char -> bool): Outcome<set<char>> {
    var rest := InvalidCharacters(value, isWord);
    if rest != [] then Fail(Collections.ToSet(rest)) else Pass
  }

  /** The validator raises exactly when some character is outside `[\w.@+-]`. */
  lemma ValidateUsernameRaisesIff(value: string, isWord: char -> bool)
    ensures ValidateUsername(value, isWord).Fail?
            <==> exists i :: 0 <= i < |value| && !IsAllowed(value[i], isWord)
  {
    var k := AllowedPrefixLength(value, isWord);
    if k < |value| {
      assert !IsAllowed(value[k], isWord);
    }
  }

  /** The empty username is accepted. */
  lemma ValidateUsernameEmpty(isWord: char -> bool)
    ensures ValidateUsername("", isWord) == Pass
  {
  }

  /** When it raises, the reported characters are all the characters from the first
      disallowed one to the end, allowed or not. */
  lemma ValidateUsernameReports(value: string, isWord: char -> bool, k: nat)
    requires k < |value| && !IsAllowed(value[k], isWord)
    requires forall i :: 0 <= i < k ==> IsAllowed(value[i], isWord)
    ensures ValidateUsername(value, isWord) == Fail(set j | k <= j < |value| :: value[j])
    ensures value[k] in ValidateUsername(value, isWord).error
  {
    var n := AllowedPrefixLength(value, isWord);
    assert n == k;
    var rest := value[k..];
    assert Collections.ToSet(rest) == set j | k <= j < |value| :: value[j] by {
      forall c ensures c in Collections.ToSet(rest) <==> c in set j | k <= j < |value| :: value[j] {
        if c in rest {
          var i :| 0 <= i < |rest| && rest[i] == c;
          assert value[k + i] == c;
        }
        if c in set j | k <= j < |value| :: value[j] {
          var j :| k <= j < |value| && value[j] == c;
          assert rest[j - k] == c;
        }
      }
    }
    assert value[k] == rest[0];
  }
}
