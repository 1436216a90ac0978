/**
 The strength scorer `check_password_strength`: a total, pure function from
 a password to a verdict holding the length, four character-class flags, the
 number of classes present and a category chosen by a fixed precedence.
 */
module Strength {
  import opened CharClasses

  /** Passwords shorter than this are always rated `MuitoFraca`. */
  const MinLength: nat := 8

  /** The four ratings, weakest first, with the labels the program shows. */
  datatype Category = MuitoFraca | Fraca | Media | Forte
  {
    function Label(): string
    {
      match this
      case MuitoFraca => "Muito Fraca"
      case Fraca => "Fraca"
      case Media => "Média"
      case Forte => "Forte"
    }

    /** Position in the order weakest to strongest. */
    function Rank(): nat
    {
      match this
      case MuitoFraca => 0
      case Fraca => 1
      case Media => 2
      case Forte => 3
    }
  }

  /**
   The result dictionary, field by field: `tamanho`, `tem_maiuscula`,
   `tem_minuscula`, `tem_numero`, `tem_caractere_especial`,
   `tamanho_adequado`, `criterios_atendidos` and `forca`.
   */
  datatype Verdict = Verdict(
    length: nat,
    hasUpper: bool,
    hasLower: bool,
    hasDigit: bool,
    hasSpecial: bool,
    longEnough: bool,
    criteriaMet: nat,
    strength: Category)

  /** True iff some character of `s` is in class `k`. */
  ghost predicate Occurs(s: string, k: Class)
  {
    exists i :: 0 <= i < |s| && InClass(s[i], k)
  }

  /** `bool(re.search(pattern, s))` for the one-class pattern of `k`: a left-to-right scan. */
  function Search(s: string, k: Class): (found: bool)
    ensures found <==> Occurs(s, k)
  {
    if s == [] then false
    else if InClass(s[0], k) then true
    else
      var found := Search(s[1..], k);
      assert Occurs(s[1..], k) ==> Occurs(s, k) by {
        if Occurs(s[1..], k) {
          var i :| 0 <= i < |s[1..]| && InClass(s[1..][i], k);
          assert s[i + 1] == s[1..][i];
        }
      }
      assert Occurs(s, k) ==> Occurs(s[1..], k) by {
        if Occurs(s, k) {
          var i :| 0 <= i < |s| && InClass(s[i], k);
          assert i > 0;
          assert s[1..][i - 1] == s[i];
        }
      }
      found
  }

  /** Python's `int(b)` for a bool, as `sum` adds the flags. */
  function BoolToInt(b: bool): nat
  {
    if b then 1 else 0
  }

  /** `check_password_strength(password)`. */
  function CheckPasswordStrength(password: string): (v: Verdict)
    ensures v.length == |password|
    ensures v.hasUpper <==> Occurs(password, Upper)
    ensures v.hasLower <==> Occurs(password, Lower)
    ensures v.hasDigit <==> Occurs(password, Digit)
    ensures v.hasSpecial <==> Occurs(password, Special)
    ensures v.longEnough <==> |password| >= MinLength
    ensures v.criteriaMet ==
      BoolToInt(v.hasUpper) + BoolToInt(v.hasLower) + BoolToInt(v.hasDigit) + BoolToInt(v.hasSpecial)
    ensures v.criteriaMet <= 4
  {
    var upper := Search(password, Upper);
    var lower := Search(password, Lower);
    var digit := Search(password, Digit);
    var special := Search(password, Special);
    var longEnough := |password| >= MinLength;
    var criteria := BoolToInt(upper) + BoolToInt(lower) + BoolToInt(digit) + BoolToInt(special);
    var strength :=
      if !longEnough then MuitoFraca
      else if criteria == 4 then Forte
      else if criteria == 3 then Media
      else Fraca;
    Verdict(|password|, upper, lower, digit, special, longEnough, criteria, strength)
  }

  /** The classes that occur in `s`. */
  ghost function ClassesOf(s: string): set<Class>
  {
    set i | 0 <= i < |s| :: ClassOf(s[i])
  }

  /** `s`, with `k` added when `b` holds. */
  function Include(s: set<Class>, k: Class, b: bool): (t: set<Class>)
    requires k !in s
    ensures |t| == |s| + BoolToInt(b)
    ensures forall k' :: k' in t <==> k' in s || (b && k' == k)
  {
    if b then s + {k} else s
  }

  /** The classes whose flag is set. */
  function FlagSet(upper: bool, lower: bool, digit: bool, special: bool): (s: set<Class>)
    ensures |s| == BoolToInt(upper) + BoolToInt(lower) + BoolToInt(digit) + BoolToInt(special)
    ensures (Upper in s <==> upper) && (Lower in s <==> lower)
    ensures (Digit in s <==> digit) && (Special in s <==> special)
  {
    var s1 := Include({}, Upper, upper);
    var s2 := Include(s1, Lower, lower);
    var s3 := Include(s2, Digit, digit);
    Include(s3, Special, special)
  }

  /** A class is among `ClassesOf(s)` exactly when it occurs in `s`. */
  lemma ClassesOfOccurs(s: string, k: Class)
    ensures k in ClassesOf(s) <==> Occurs(s, k)
  {
    if k in ClassesOf(s) {
      var i :| 0 <= i < |s| && ClassOf(s[i]) == k;
      assert InClass(s[i], k);
    }
    if Occurs(s, k) {
      var i :| 0 <= i < |s| && InClass(s[i], k);
      assert ClassOf(s[i]) == k;
    }
  }

  /** The criteria count is the number of distinct character classes in the password. */
  lemma CriteriaCountsClasses(password: string)
    ensures CheckPasswordStrength(password).criteriaMet == |ClassesOf(password)|
  {
    var v := CheckPasswordStrength(password);
    var s := ClassesOf(password);
    var f := FlagSet(v.hasUpper, v.hasLower, v.hasDigit, v.hasSpecial);
    forall k: Class
      ensures k in s <==> k in f
    {
      ClassesOfOccurs(password, k);
      match k
      case Upper => assert k in f <==> v.hasUpper;
      case Lower => assert k in f <==> v.hasLower;
      case Digit => assert k in f <==> v.hasDigit;
      case Special => assert k in f <==> v.hasSpecial;
    }
    assert s == f;
  }

  /** Empty password: length 0, no flag set, rated `MuitoFraca`. */
  lemma EmptyPassword()
    ensures CheckPasswordStrength("") == Verdict(0, false, false, false, false, false, 0, MuitoFraca)
  {
  }

  /** Below eight characters the rating is `MuitoFraca` whatever the composition. */
  lemma ShortIsVeryWeak(password: string)
    requires |password| < MinLength
    ensures CheckPasswordStrength(password).strength == MuitoFraca
  {
  }

  /** `Forte` exactly for long passwords that use all four classes. */
  lemma StrongIff(password: string)
    ensures CheckPasswordStrength(password).strength == Forte <==>
      |password| >= MinLength && forall k: Class :: Occurs(password, k)
  {
    var v := CheckPasswordStrength(password);
    if v.strength != Forte && |password| >= MinLength {
      assert !v.hasUpper || !v.hasLower || !v.hasDigit || !v.hasSpecial;
    }
  }

  /** `Media` exactly for long passwords that use three of the four classes. */
  lemma MediumIff(password: string)
    ensures CheckPasswordStrength(password).strength == Media <==>
      |password| >= MinLength && |ClassesOf(password)| == 3
  {
    CriteriaCountsClasses(password);
  }

  /** `Fraca` exactly for long passwords that use at most two classes. */
  lemma WeakIff(password: string)
    ensures CheckPasswordStrength(password).strength == Fraca <==>
      |password| >= MinLength && |ClassesOf(password)| <= 2
  {
    CriteriaCountsClasses(password);
  }

  /** Appending characters never lowers the rating. */
  lemma AppendNeverWeakens(password: string, extra: string)
    ensures CheckPasswordStrength(password).strength.Rank()
         <= CheckPasswordStrength(password + extra).strength.Rank()
  {
    var p := password + extra;
    forall k: Class | Occurs(password, k)
      ensures Occurs(p, k)
    {
      var i :| 0 <= i < |password| && InClass(password[i], k);
      assert p[i] == password[i];
    }
  }

  /** `"Ab3$xxxx"`: eight characters, all four classes, `Forte`. */
  lemma StrongExample()
    ensures CheckPasswordStrength("Ab3$xxxx").strength == Forte
    ensures CheckPasswordStrength("Ab3$xxxx").criteriaMet == 4
  {
    var s := "Ab3$xxxx";
    assert InClass(s[0], Upper) && InClass(s[1], Lower);
    assert InClass(s[2], Digit) && InClass(s[3], Special);
  }

  /** `"alllowercase"`: one class only, `Fraca`. */
  lemma WeakExample()
    ensures CheckPasswordStrength("alllowercase").criteriaMet == 1
    ensures CheckPasswordStrength("alllowercase").strength == Fraca
  {
    var s := "alllowercase";
    forall i | 0 <= i < |s|
      ensures IsLower(s[i])
    {
    }
    OnlyLowerCase(s);
  }

  /** A long password of lower-case letters only meets one criterion and is `Fraca`. */
  lemma OnlyLowerCase(s: string)
    requires |s| >= MinLength
    requires forall i | 0 <= i < |s| :: IsLower(s[i])
    ensures CheckPasswordStrength(s).criteriaMet == 1
    ensures CheckPasswordStrength(s).strength == Fraca
  {
    assert InClass(s[0], Lower);
    assert !Occurs(s, Upper) && !Occurs(s, Digit) && !Occurs(s, Special);
  }
}
