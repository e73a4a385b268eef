/**
 * The phone-number validator (calls/core/validators.py): a regular-expression
 * validator with pattern `^[0-9]*$`, message "Only numbers are allowed." and
 * code "Invalid phone number".
 *
 * The pattern is applied with Python's `re.search`. There `^` anchors at the
 * start of the string, `[0-9]*` consumes ASCII digits greedily, and `$`
 * matches at the end of the string OR just before a single newline that ends
 * the string. The model keeps that last rule, so "123\n" is accepted.
 */
module Validators {

  datatype ValidationResult = Accepted | Rejected(message: string, code: string)

  const Message := "Only numbers are allowed."
  const Code := "Invalid phone number"

  predicate IsDigit(c: char) {
    '0' <= c <= '9'
  }

  predicate AllDigits(s: string) {
    forall i :: 0 <= i < |s| ==> IsDigit(s[i])
  }

  /** The strings the pattern accepts, described without reference to matching. */
  predicate Valid(s: string) {
    AllDigits(s) || (|s| > 0 && s[|s| - 1] == '\n' && AllDigits(s[..|s| - 1]))
  }

  /** Where a greedy `[0-9]*` started at `i` stops: the first non-digit at or after `i`. */
  function DigitRun(s: string, i: nat): (k: nat)
    requires i <= |s|
    ensures i <= k <= |s|
    ensures forall j :: i <= j < k ==> IsDigit(s[j])
    ensures k < |s| ==> !IsDigit(s[k])
    decreases |s| - i
  {
    if i == |s| || !IsDigit(s[i]) then i else DigitRun(s, i + 1)
  }

  /** `^[0-9]*$`: the digit run from position 0 reaches the end, or stops at a final newline. */
  predicate Matches(s: string) {
    var k := DigitRun(s, 0);
    k == |s| || (k == |s| - 1 && s[k] == '\n')
  }

  /** `phone_number_validator(value)`: accepts exactly the strings the pattern matches. */
  function PhoneNumberValidator(value: string): (r: ValidationResult)
    ensures r.Accepted? <==> Valid(value)
    ensures r.Rejected? ==> r.message == "Only numbers are allowed." && r.code == "Invalid phone number"
  {
    if Matches(value) then Accepted else Rejected(Message, Code)
  }

  /** A string with a character other than a digit anywhere but in a final newline is rejected. */
  lemma NonDigitRejected(s: string, i: nat)
    requires i < |s| && !IsDigit(s[i])
    requires !(i == |s| - 1 && s[i] == '\n')
    ensures PhoneNumberValidator(s) == Rejected(Message, Code)
  {
    if |s| > 0 && s[|s| - 1] == '\n' {
      assert i < |s| - 1;
      assert s[..|s| - 1][i] == s[i];
    }
  }

  /** The rejected source number "XY999999999". */
  lemma LettersRejected()
    ensures PhoneNumberValidator("XY999999999") == Rejected("Only numbers are allowed.", "Invalid phone number")
  {
    NonDigitRejected("XY999999999", 0);
  }

  /** Every string of digits is accepted, the empty string included (`s := ""`). */
  lemma DigitsAccepted(s: string)
    requires AllDigits(s)
    ensures PhoneNumberValidator(s).Accepted?
  {
  }

  /** `$` matches before a final newline, so a digit string followed by one newline is accepted. */
  lemma TrailingNewlineAccepted(s: string)
    requires AllDigits(s)
    ensures PhoneNumberValidator(s + "\n").Accepted?
  {
    assert (s + "\n")[..|s|] == s;
  }

  /** Among newline-free strings, validity is preserved by concatenation. */
  lemma ConcatPreservesValidity(a: string, b: string)
    requires PhoneNumberValidator(a).Accepted? && PhoneNumberValidator(b).Accepted?
    requires '\n' !in a
    ensures PhoneNumberValidator(a + b).Accepted?
  {
    if !AllDigits(b) {
      var b' := b[..|b| - 1];
      assert (a + b)[..|a + b| - 1] == a + b';
    }
  }

  /** The newline allowance breaks closure under concatenation: "1\n" and "2" are valid, "1\n2" is not. */
  lemma ConcatWithNewlineNotClosed()
    ensures PhoneNumberValidator("1\n").Accepted?
    ensures PhoneNumberValidator("2").Accepted?
    ensures PhoneNumberValidator("1\n" + "2").Rejected?
  {
    assert "1\n"[..1] == "1";
    assert "1\n" + "2" == "1\n2";
    NonDigitRejected("1\n2", 1);
  }

  /**
   * Every substring of a valid string is valid: it either stops before the
   * final newline, and is all digits, or keeps it, and is digits followed by
   * that newline.
   */
  lemma SubstringPreservesValidity(s: string, i: nat, j: nat)
    requires PhoneNumberValidator(s).Accepted?
    requires i <= j <= |s|
    ensures PhoneNumberValidator(s[i..j]).Accepted?
  {
  }
}
