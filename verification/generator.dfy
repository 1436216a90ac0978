/**
 The password generator `generate_secure_password`.

 The randomness is left open: the k-th call of `secrets.choice(alphabet)`
 returns `alphabet[draw(k) % |alphabet|]` for an arbitrary `draw`, so it may
 return any member of the alphabet, and `SystemRandom().shuffle` is an
 arbitrary function `shuffle` that rearranges its argument. Every promise
 below therefore holds for every outcome of the random source.
 */
module Generator {
  import opened CharClasses
  import Strength

  /** The length generated when none is requested. */
  const DefaultLength: int := 12

  /** Requested lengths below this are raised to it. */
  const MinGeneratedLength: nat := 8

  /** The length actually generated: the request, but at least eight. */
  function EffectiveLength(length: int): (n: nat)
    ensures n >= MinGeneratedLength && n >= length
    ensures n == MinGeneratedLength || n == length
  {
    if length < MinGeneratedLength then MinGeneratedLength else length
  }

  /** `chars`: letters and digits, and the symbols when they are wanted. */
  function Alphabet(includeSymbols: bool): string
  {
    if includeSymbols then AsciiLetters + Digits + Symbols else AsciiLetters + Digits
  }

  /** `secrets.choice(alphabet)` when the random source yields `draw`. */
  function Choice(alphabet: string, draw: nat): (c: char)
    requires |alphabet| > 0
    ensures c in alphabet
  {
    alphabet[draw % |alphabet|]
  }

  /** Every member of the alphabet is a possible choice. */
  lemma ChoiceReachesEveryMember(alphabet: string, c: char)
    requires c in alphabet
    ensures exists draw: nat :: Choice(alphabet, draw) == c
  {
    var i :| 0 <= i < |alphabet| && alphabet[i] == c;
    assert i % |alphabet| == i;
    assert Choice(alphabet, i) == c;
  }

  /** `shuffle` only rearranges the characters it is given. */
  ghost predicate IsShuffle(shuffle: seq<char> -> seq<char>)
  {
    forall s :: multiset(shuffle(s)) == multiset(s)
  }

  /** Some character of `s` satisfies `p`. */
  ghost predicate Has(s: string, p: char -> bool)
  {
    exists i :: 0 <= i < |s| && p(s[i])
  }

  /**
   `generate_secure_password(length, include_symbols)`; as in the program,
   the length defaults to twelve and symbols are included unless turned off.
   */
  method GenerateSecurePassword(draw: nat -> nat, shuffle: seq<char> -> seq<char>,
                                length: int := DefaultLength, includeSymbols: bool := true)
    returns (password: string)
    requires IsShuffle(shuffle)
    ensures |password| == EffectiveLength(length)
    ensures forall i | 0 <= i < |password| :: password[i] in Alphabet(includeSymbols)
    ensures Has(password, IsLower) && Has(password, IsUpper) && Has(password, IsDigit)
    ensures includeSymbols <==> Has(password, c => c in Symbols)
    ensures Strength.CheckPasswordStrength(password).criteriaMet == if includeSymbols then 4 else 3
    ensures Strength.CheckPasswordStrength(password).strength ==
      if includeSymbols then Strength.Forte else Strength.Media
  {
    var n := EffectiveLength(length);
    var chars := Alphabet(includeSymbols);
    var pool := [Choice(AsciiLowercase, draw(0)), Choice(AsciiUppercase, draw(1)), Choice(Digits, draw(2))];
    if includeSymbols {
      pool := pool + [Choice(Symbols, draw(3))];
    }
    LowercaseAlphabet(pool[0]);
    UppercaseAlphabet(pool[1]);
    DigitAlphabet(pool[2]);
    var seeded := |pool|;
    var i := 0;
    while i < n - seeded
      invariant 0 <= i <= n - seeded
      invariant |pool| == seeded + i
      invariant forall j | 0 <= j < |pool| :: pool[j] in chars
      invariant IsLower(pool[0]) && IsUpper(pool[1]) && IsDigit(pool[2])
      invariant includeSymbols ==> pool[3] in Symbols
    {
      pool := pool + [Choice(chars, draw(|pool|))];
      i := i + 1;
    }
    password := shuffle(pool);
    GeneratedProperties(pool, password, includeSymbols);
  }

  /** Called without arguments, the generator gives twelve characters rated `Forte`. */
  method DefaultPassword(draw: nat -> nat, shuffle: seq<char> -> seq<char>)
    returns (password: string)
    requires IsShuffle(shuffle)
    ensures |password| == 12
    ensures Has(password, c => c in Symbols)
    ensures Strength.CheckPasswordStrength(password).strength == Strength.Forte
  {
    password := GenerateSecurePassword(draw, shuffle);
  }

  /** What the shuffled pool inherits from the pool. */
  lemma GeneratedProperties(pool: string, password: string, includeSymbols: bool)
    requires multiset(password) == multiset(pool)
    requires |pool| >= MinGeneratedLength
    requires forall j | 0 <= j < |pool| :: pool[j] in Alphabet(includeSymbols)
    requires IsLower(pool[0]) && IsUpper(pool[1]) && IsDigit(pool[2])
    requires includeSymbols ==> pool[3] in Symbols
    ensures |password| == |pool|
    ensures forall i | 0 <= i < |password| :: password[i] in Alphabet(includeSymbols)
    ensures Has(password, IsLower) && Has(password, IsUpper) && Has(password, IsDigit)
    ensures includeSymbols <==> Has(password, c => c in Symbols)
    ensures Strength.CheckPasswordStrength(password).criteriaMet == if includeSymbols then 4 else 3
    ensures Strength.CheckPasswordStrength(password).strength ==
      if includeSymbols then Strength.Forte else Strength.Media
  {
    SameCharacters(pool, password);
    var chars := Alphabet(includeSymbols);
    forall i | 0 <= i < |password|
      ensures password[i] in chars
    {
      var j :| 0 <= j < |pool| && pool[j] == password[i];
    }
    assert Has(password, IsLower) by { assert pool[0] in password; }
    assert Has(password, IsUpper) by { assert pool[1] in password; }
    assert Has(password, IsDigit) by { assert pool[2] in password; }
    if includeSymbols {
      assert pool[3] in password;
    }
    SymbolFacts(password, includeSymbols);
    Score(password, includeSymbols);
  }

  /** Symbols, and so special characters, occur exactly when they are enabled. */
  lemma SymbolFacts(password: string, includeSymbols: bool)
    requires forall i | 0 <= i < |password| :: password[i] in Alphabet(includeSymbols)
    requires includeSymbols ==> exists i | 0 <= i < |password| :: password[i] in Symbols
    ensures includeSymbols <==> Has(password, c => c in Symbols)
    ensures includeSymbols <==> Has(password, IsSpecial)
  {
    if includeSymbols {
      var i :| 0 <= i < |password| && password[i] in Symbols;
      SymbolsAreSpecial(password[i]);
    } else {
      forall i | 0 <= i < |password|
        ensures !IsSpecial(password[i]) && password[i] !in Symbols
      {
        AlphanumericAlphabet(password[i]);
        SymbolsAreSpecial(password[i]);
      }
    }
  }

  /** A shuffle keeps the length, and every character on one side is on the other. */
  lemma SameCharacters(pool: string, password: string)
    requires multiset(password) == multiset(pool)
    ensures |password| == |pool|
    ensures forall i | 0 <= i < |password| :: password[i] in pool
    ensures forall j | 0 <= j < |pool| :: pool[j] in password
  {
    assert |password| == |multiset(password)| == |multiset(pool)| == |pool|;
    forall i | 0 <= i < |password|
      ensures password[i] in pool
    {
      assert password[i] in multiset(password);
    }
    forall j | 0 <= j < |pool|
      ensures pool[j] in password
    {
      assert pool[j] in multiset(pool);
    }
  }

  /** The scorer's verdict on a long password with lower, upper and digit. */
  lemma Score(password: string, special: bool)
    requires |password| >= MinGeneratedLength
    requires Has(password, IsLower) && Has(password, IsUpper) && Has(password, IsDigit)
    requires special <==> Has(password, IsSpecial)
    ensures Strength.CheckPasswordStrength(password).criteriaMet == if special then 4 else 3
    ensures Strength.CheckPasswordStrength(password).strength ==
      if special then Strength.Forte else Strength.Media
  {
    var i :| 0 <= i < |password| && IsLower(password[i]);
    assert InClass(password[i], Lower);
    var j :| 0 <= j < |password| && IsUpper(password[j]);
    assert InClass(password[j], Upper);
    var k :| 0 <= k < |password| && IsDigit(password[k]);
    assert InClass(password[k], Digit);
    if special {
      var m :| 0 <= m < |password| && IsSpecial(password[m]);
      assert InClass(password[m], Special);
    } else {
      assert !Strength.Occurs(password, Special);
    }
  }
}
