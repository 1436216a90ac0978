/**
 The script `proj1.py`: the scoring rule written out inline, as a function
 from the password to the lines the script prints.
 */
module Proj1 {
  import opened CharClasses
  import opened PyText
  import Strength

  const TooShort: string := "Senha muito pequena, minimo é 8 caracteres"

  /** The present/absent line for one character class. */
  function ClassLine(present: bool, what: string): string
  {
    if present then "Possui " + what else "Não possui " + what
  }

  /** The lines `proj1.py --password password` prints, in order. */
  function Report(password: string): (out: seq<string>)
    ensures |out| == if |password| >= 8 then 6 else 1
  {
    var upper := Strength.Search(password, Upper);
    var lower := Strength.Search(password, Lower);
    var digit := Strength.Search(password, Digit);
    var special := Strength.Search(password, Special);
    var criterio := Strength.BoolToInt(upper) + Strength.BoolToInt(lower)
      + Strength.BoolToInt(digit) + Strength.BoolToInt(special);
    if |password| >= 8 then
      [ "Tamanho: " + NatToString(|password|) + " caracteres",
        ClassLine(upper, "Maiuscula"),
        ClassLine(lower, "letra Minúscula"),
        ClassLine(digit, "Número"),
        ClassLine(special, "Caractere especial"),
        if criterio == 4 then "Senha: Forte"
        else if criterio == 3 then "Senha: Média"
        else "Senha: Fraca" ]
    else
      [TooShort]
  }

  /**
   A password is reported as too short, and nothing else is printed, exactly
   when the main scorer rates it `MuitoFraca`.
   */
  lemma ShortReportIffVeryWeak(password: string)
    ensures Report(password) == [TooShort] <==>
      Strength.CheckPasswordStrength(password).strength == Strength.MuitoFraca
  {
    if |password| >= 8 {
      assert Report(password)[0] != TooShort by {
        assert Report(password)[0][0] == 'T';
        assert TooShort[0] == 'S';
      }
    }
  }

  /**
   For a long enough password the script prints the length, one line per
   class in the order upper, lower, digit, special, and last the category,
   each agreeing with `check_password_strength`.
   */
  lemma LongReportAgrees(password: string)
    requires |password| >= 8
    ensures var out := Report(password);
      var v := Strength.CheckPasswordStrength(password);
      && out[0] == "Tamanho: " + NatToString(v.length) + " caracteres"
      && out[1] == ClassLine(v.hasUpper, "Maiuscula")
      && out[2] == ClassLine(v.hasLower, "letra Minúscula")
      && out[3] == ClassLine(v.hasDigit, "Número")
      && out[4] == ClassLine(v.hasSpecial, "Caractere especial")
      && out[5] == "Senha: " + v.strength.Label()
  {
  }

  /** The printed length reads back as the password's length. */
  lemma PrintedLengthReadsBack(password: string)
    requires |password| >= 8
    ensures var line := Report(password)[0];
      ParseInt(line[9..|line| - 11]) == Some(|password|)
  {
    var line := Report(password)[0];
    var digits := NatToString(|password|);
    assert line == "Tamanho: " + digits + " caracteres";
    assert line[9..|line| - 11] == digits;
    ParseNatToString(|password|);
  }
}
