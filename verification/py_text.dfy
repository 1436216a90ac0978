/**
 The few pieces of Python's `str` behaviour the checker relies on:
 `s.split(sep)` with a one-character separator, `int(s)` on a decimal
 string, and `str(n)` / f-string rendering of a non-negative integer.
 */
module PyText {
  import opened CharClasses

  datatype Option<T> = None | Some(value: T)

  // ---------------------------------------------------------------------------
  // str.split / str.join
  // ---------------------------------------------------------------------------

  /** Number of occurrences of `c` in `s`. */
  function Occurrences(s: string, c: char): nat
  {
    if s == [] then 0 else (if s[0] == c then 1 else 0) + Occurrences(s[1..], c)
  }

  /** `sep.join(parts)` for a one-character separator. */
  function Join(parts: seq<string>, sep: char): string
  {
    if |parts| == 0 then ""
    else if |parts| == 1 then parts[0]
    else parts[0] + [sep] + Join(parts[1..], sep)
  }

  /** Joining a non-empty part in front of a non-empty list. */
  lemma JoinCons(p: string, rest: seq<string>, sep: char)
    requires |rest| > 0
    ensures Join([p] + rest, sep) == p + [sep] + Join(rest, sep)
  {
    assert ([p] + rest)[1..] == rest;
  }

  /** `s.split(sep)`: the pieces of `s` between separators, empty pieces included. */
  function Split(s: string, sep: char): (parts: seq<string>)
    ensures |parts| == Occurrences(s, sep) + 1
    ensures forall i | 0 <= i < |parts| :: sep !in parts[i]
    ensures Join(parts, sep) == s
  {
    if s == [] then [""]
    else
      var rest := Split(s[1..], sep);
      if s[0] == sep then
        JoinCons("", rest, sep);
        [""] + rest
      else
        var parts := [[s[0]] + rest[0]] + rest[1..];
        assert Join(parts, sep) == s by {
          if |rest| > 1 {
            JoinCons(rest[0], rest[1..], sep);
            JoinCons([s[0]] + rest[0], rest[1..], sep);
            assert [rest[0]] + rest[1..] == rest;
          }
        }
        parts
  }

  /** A separator-free list is recovered from its join: `split` inverts `join`. */
  lemma {:induction false} SplitJoin(parts: seq<string>, sep: char)
    requires |parts| > 0
    requires forall i | 0 <= i < |parts| :: sep !in parts[i]
    ensures Split(Join(parts, sep), sep) == parts
    decreases |parts|, |parts[0]|
  {
    if |parts| == 1 {
      SplitFree(parts[0], sep);
    } else if parts[0] == [] {
      JoinCons(parts[0], parts[1..], sep);
      var s := Join(parts, sep);
      assert s == [sep] + Join(parts[1..], sep);
      assert s[1..] == Join(parts[1..], sep);
      SplitJoin(parts[1..], sep);
      assert [""] + parts[1..] == parts;
    } else {
      var s := Join(parts, sep);
      var tail := [parts[0][1..]] + parts[1..];
      JoinCons(parts[0], parts[1..], sep);
      JoinCons(parts[0][1..], parts[1..], sep);
      assert s[0] == parts[0][0];
      assert s[1..] == Join(tail, sep);
      SplitJoin(tail, sep);
      assert [s[0]] + tail[0] == parts[0];
      assert tail[1..] == parts[1..];
      assert [[s[0]] + tail[0]] + tail[1..] == parts;
    }
  }

  /** A string without the separator splits into itself alone. */
  lemma {:induction false} SplitFree(s: string, sep: char)
    requires sep !in s
    ensures Split(s, sep) == [s]
  {
    if s != [] {
      SplitFree(s[1..], sep);
    }
  }

  // ---------------------------------------------------------------------------
  // int(s)
  // ---------------------------------------------------------------------------

  /**
   The white space `int()` ignores at both ends: the ASCII characters
   `\t \n \v \f \r` and space, and the non-ASCII characters `str.isspace()`
   accepts. The separators U+001C..U+001F pass `str.isspace()` but are not
   ignored by `int()`.
   */
  predicate IsSpace(c: char)
  {
    || '\t' <= c <= '\r'
    || c == ' '
    || c == '\U{85}' || c == '\U{A0}' || c == '\U{1680}'
    || '\U{2000}' <= c <= '\U{200A}'
    || c == '\U{2028}' || c == '\U{2029}' || c == '\U{202F}' || c == '\U{205F}'
    || c == '\U{3000}'
  }

  /** `s` without the leading white space `int()` skips. */
  function LStrip(s: string): (t: string)
    ensures |t| <= |s| && t == s[|s| - |t|..]
    ensures forall k | 0 <= k < |s| - |t| :: IsSpace(s[k])
    ensures t == [] || !IsSpace(t[0])
  {
    if s != [] && IsSpace(s[0]) then
      var t := LStrip(s[1..]);
      assert s[1..][|s| - 1 - |t|..] == s[|s| - |t|..];
      assert forall k | 1 <= k < |s| - |t| :: s[k] == s[1..][k - 1];
      t
    else s
  }

  /** `s` without the trailing white space `int()` skips. */
  function RStrip(s: string): (t: string)
    ensures |t| <= |s| && t == s[..|t|]
    ensures forall k | |t| <= k < |s| :: IsSpace(s[k])
    ensures t == [] || !IsSpace(t[|t| - 1])
  {
    if s != [] && IsSpace(s[|s| - 1]) then
      var t := RStrip(s[..|s| - 1]);
      assert s[..|s| - 1][..|t|] == s[..|t|];
      assert forall k | |t| <= k < |s| - 1 :: s[k] == s[..|s| - 1][k];
      t
    else s
  }

  /** `s` without the white space `int()` skips at either end. */
  function Strip(s: string): (t: string)
    ensures t == [] || (!IsSpace(t[0]) && !IsSpace(t[|t| - 1]))
  {
    RStrip(LStrip(s))
  }

  /** Value of an ASCII digit. */
  function DigitValue(c: char): (d: nat)
    requires IsDigit(c)
    ensures d < 10
  {
    c as int - '0' as int
  }

  /** The ASCII digit of a value below ten. */
  function DigitChar(d: nat): (c: char)
    requires d < 10
    ensures IsDigit(c) && DigitValue(c) == d
  {
    (d + '0' as int) as char
  }

  predicate AllDigits(s: string)
  {
    forall i | 0 <= i < |s| :: IsDigit(s[i])
  }

  /** Value of a string of ASCII digits, most significant first. */
  function DigitsValue(s: string): nat
    requires AllDigits(s)
  {
    if s == [] then 0 else DigitsValue(s[..|s| - 1]) * 10 + DigitValue(s[|s| - 1])
  }

  /**
   The digit part `int()` accepts: ASCII digits, with single underscores
   allowed between two digits.
   */
  predicate IsDigitGroups(s: string)
  {
    && |s| > 0
    && IsDigit(s[0])
    && IsDigit(s[|s| - 1])
    && (forall i | 0 <= i < |s| :: IsDigit(s[i]) || s[i] == '_')
    && (forall i | 0 <= i < |s| - 1 :: s[i] == '_' ==> IsDigit(s[i + 1]))
  }

  /** `s` with its underscores removed. */
  function RemoveUnderscores(s: string): (t: string)
    requires forall i | 0 <= i < |s| :: IsDigit(s[i]) || s[i] == '_'
    ensures AllDigits(t)
  {
    if s == [] then []
    else if s[0] == '_' then RemoveUnderscores(s[1..])
    else [s[0]] + RemoveUnderscores(s[1..])
  }

  /** The unsigned part of `int(s)`: digit groups, or `None`. */
  function ParseUnsigned(t: string): (r: Option<nat>)
  {
    if IsDigitGroups(t) then Some(DigitsValue(RemoveUnderscores(t))) else None
  }

  /**
   `int(s)` for base ten: optional white space, an optional sign, digit
   groups, optional white space. `None` is the `ValueError` Python raises.
   */
  function ParseInt(s: string): (r: Option<int>)
  {
    ParseStripped(Strip(s))
  }

  /**
   What a successful `int(s)` has read: the text without its surrounding
   white space is non-empty and ends in a digit, and the value is negative
   only after a leading `-`.
   */
  lemma ParseIntAccepted(s: string)
    ensures ParseInt(s).Some? ==> var t := Strip(s);
      && |t| > 0 && IsDigit(t[|t| - 1])
      && (ParseInt(s).value < 0 ==> t[0] == '-')
  {
  }

  /** `int()` once the white space is gone. */
  function ParseStripped(t: string): (r: Option<int>)
    ensures r.Some? ==> |t| > 0 && IsDigit(t[|t| - 1]) && (r.value < 0 ==> t[0] == '-')
  {
    if |t| > 0 && (t[0] == '+' || t[0] == '-') then
      match ParseUnsigned(t[1..])
      case Some(v) => Some(if t[0] == '-' then -(v as int) else v as int)
      case None => None
    else
      match ParseUnsigned(t)
      case Some(v) => Some(v)
      case None => None
  }

  // ---------------------------------------------------------------------------
  // str(n)
  // ---------------------------------------------------------------------------

  /** Decimal rendering of a non-negative integer, as `str(n)` prints it. */
  function NatToString(n: nat): (s: string)
    ensures |s| > 0 && AllDigits(s)
    ensures |s| > 1 ==> s[0] != '0'
  {
    if n < 10 then [DigitChar(n)] else NatToString(n / 10) + [DigitChar(n % 10)]
  }

  /** `int(str(n)) == n`: reading back a rendered number gives the number. */
  lemma ParseNatToString(n: nat)
    ensures ParseInt(NatToString(n)) == Some(n)
  {
    ParseDigitString(NatToString(n));
    NatToStringValue(n);
  }

  /** A plain run of ASCII digits parses to its value. */
  lemma ParseDigitString(s: string)
    requires |s| > 0 && AllDigits(s)
    ensures ParseInt(s) == Some(DigitsValue(s))
  {
    DigitIsNotSpace(s[0]);
    DigitIsNotSpace(s[|s| - 1]);
    ParseUnstripped(s);
    UnsignedDigitString(s);
  }

  lemma DigitIsNotSpace(c: char)
    requires IsDigit(c)
    ensures !IsSpace(c) && c != '+' && c != '-'
  {
  }

  lemma ParseUnstripped(s: string)
    requires s == [] || (!IsSpace(s[0]) && !IsSpace(s[|s| - 1]))
    ensures ParseInt(s) == ParseStripped(s)
  {
    StripIdentity(s);
  }

  lemma UnsignedDigitString(s: string)
    requires |s| > 0 && AllDigits(s)
    ensures ParseUnsigned(s) == Some(DigitsValue(s))
  {
    assert IsDigitGroups(s);
    NoUnderscores(s);
  }

  lemma {:induction false} NatToStringValue(n: nat)
    ensures DigitsValue(NatToString(n)) == n
  {
    if n >= 10 {
      NatToStringValue(n / 10);
      var s := NatToString(n);
      assert s[..|s| - 1] == NatToString(n / 10);
    }
  }

  lemma StripIdentity(s: string)
    requires s == [] || (!IsSpace(s[0]) && !IsSpace(s[|s| - 1]))
    ensures Strip(s) == s
  {
    assert LStrip(s) == s;
  }

  lemma {:induction false} NoUnderscores(s: string)
    requires AllDigits(s)
    ensures RemoveUnderscores(s) == s
  {
    if s != [] {
      NoUnderscores(s[1..]);
    }
  }

  /** `int("3000000") == 3000000`. */
  lemma ParseMillions()
    ensures ParseInt("3000000") == Some(3000000)
  {
    assert NatToString(3) == "3";
    assert NatToString(30) == "30";
    assert NatToString(300) == "300";
    assert NatToString(3000) == "3000";
    assert NatToString(30000) == "30000";
    assert NatToString(300000) == "300000";
    assert NatToString(3000000) == "3000000";
    ParseNatToString(3000000);
  }

  /** `int(" 1_0\t") == 10`: white space around and an underscore between digits are accepted. */
  lemma ParsePadded()
    ensures ParseInt(" 1_0\t") == Some(10)
  {
    StripPadded();
    ParseGrouped();
  }

  lemma StripPadded()
    ensures Strip(" 1_0\t") == "1_0"
  {
    var s := " 1_0\t";
    var inner := "1_0\t";
    assert IsSpace(s[0]) && s[1..] == inner;
    assert !IsSpace(inner[0]);
    assert LStrip(s) == inner;
    assert IsSpace(inner[|inner| - 1]) && inner[..|inner| - 1] == "1_0";
    assert !IsSpace("1_0"[2]);
    assert RStrip(inner) == "1_0";
  }

  lemma ParseGrouped()
    ensures ParseStripped("1_0") == Some(10)
  {
    assert IsDigitGroups("1_0");
    assert RemoveUnderscores("1_0") == "10";
    assert DigitsValue("10") == 10 by {
      assert "10"[..1] == "1";
      assert "1"[..0] == "";
    }
  }

  /** `int("")` raises. */
  lemma ParseEmptyRejected()
    ensures ParseInt("") == None
  {
    ParseUnstripped("");
  }

  /** `int("+")` raises: a sign needs digits after it. */
  lemma ParseSignOnlyRejected()
    ensures ParseInt("+") == None
  {
    ParseUnstripped("+");
    assert "+"[1..] == "";
  }

  /** `int("5\x1f")` raises: the unit separator is not white space to `int()`. */
  lemma ParseUnitSeparatorRejected()
    ensures ParseInt("5\U{1F}") == None
  {
    var s := "5\U{1F}";
    assert s[0] == '5' && s[|s| - 1] == '\U{1F}';
    ParseUnstripped(s);
    assert !IsDigit(s[|s| - 1]);
    assert ParseUnsigned(s) == None;
  }
}
