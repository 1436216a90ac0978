/**
 The four ASCII character classes shared by the strength scorer and the
 password generator.

 The scorer tests them as the regular expressions `[A-Z]`, `[a-z]`, `[0-9]`
 and `[^A-Za-z0-9]`; the generator samples from the alphabets
 `string.ascii_lowercase`, `string.ascii_uppercase`, `string.digits` and a
 fixed symbol string. The four classes partition all characters: every
 character, including whitespace and non-ASCII ones, is in exactly one.
 */
module CharClasses {

  predicate IsUpper(c: char) { 'A' <= c <= 'Z' }

  predicate IsLower(c: char) { 'a' <= c <= 'z' }

  predicate IsDigit(c: char) { '0' <= c <= '9' }

  /** `[^A-Za-z0-9]`: any character that is not an ASCII letter or digit. */
  predicate IsSpecial(c: char) { !IsUpper(c) && !IsLower(c) && !IsDigit(c) }

  datatype Class = Upper | Lower | Digit | Special

  predicate InClass(c: char, k: Class) {
    match k
    case Upper => IsUpper(c)
    case Lower => IsLower(c)
    case Digit => IsDigit(c)
    case Special => IsSpecial(c)
  }

  /** The one class a character belongs to. */
  function ClassOf(c: char): (k: Class)
    ensures InClass(c, k)
    ensures forall k' :: InClass(c, k') ==> k' == k
  {
    if IsUpper(c) then Upper
    else if IsLower(c) then Lower
    else if IsDigit(c) then Digit
    else Special
  }

  /** The `n` consecutive characters starting at `first`. */
  function CharRange(first: char, n: nat): (s: string)
    requires first as int + n <= 0xD800
    ensures |s| == n
    ensures forall i | 0 <= i < n :: s[i] as int == first as int + i
  {
    seq(n, i requires 0 <= i < n => (first as int + i) as char)
  }

  /** `string.ascii_lowercase`. */
  const AsciiLowercase: string := CharRange('a', 26)
  /** `string.ascii_uppercase`. */
  const AsciiUppercase: string := CharRange('A', 26)
  /** `string.digits`. */
  const Digits: string := CharRange('0', 10)
  /** `string.ascii_letters`: lower-case letters first. */
  const AsciiLetters: string := AsciiLowercase + AsciiUppercase
  /** The generator's symbol set. */
  const Symbols: string := "!@#$%^&*()_+-=[]{}|;:,.<>?"

  /** The alphabets spelled out. */
  lemma AlphabetLiterals()
    ensures AsciiLowercase == "abcdefghijklmnopqrstuvwxyz"
    ensures AsciiUppercase == "ABCDEFGHIJKLMNOPQRSTUVWXYZ"
    ensures Digits == "0123456789"
  {
  }

  /** `string.ascii_lowercase` holds exactly the lower-case class. */
  lemma LowercaseAlphabet(c: char)
    ensures c in AsciiLowercase <==> IsLower(c)
  {
    if IsLower(c) {
      assert AsciiLowercase[c as int - 'a' as int] == c;
    }
  }

  /** `string.ascii_uppercase` holds exactly the upper-case class. */
  lemma UppercaseAlphabet(c: char)
    ensures c in AsciiUppercase <==> IsUpper(c)
  {
    if IsUpper(c) {
      assert AsciiUppercase[c as int - 'A' as int] == c;
    }
  }

  /** `string.digits` holds exactly the digit class. */
  lemma DigitAlphabet(c: char)
    ensures c in Digits <==> IsDigit(c)
  {
    if IsDigit(c) {
      assert Digits[c as int - '0' as int] == c;
    }
  }

  /** Every generator symbol is special for the scorer. */
  lemma SymbolsAreSpecial(c: char)
    ensures c in Symbols ==> IsSpecial(c)
  {
  }

  /** Letters and digits together are exactly the non-special characters. */
  lemma AlphanumericAlphabet(c: char)
    ensures c in AsciiLetters + Digits <==> !IsSpecial(c)
  {
    LowercaseAlphabet(c);
    UppercaseAlphabet(c);
    DigitAlphabet(c);
  }
}
