/**
  Python's `int(text)` on the identifier taken from a request path, and
  `str(n)`, which the client uses to put an identifier into a path.

  `int` accepts an optional sign followed by decimal digits, where single
  underscores may separate digits; leading zeros are allowed. A request-line
  path never holds whitespace (the request line is split on it), and its
  characters are Latin-1, whose only decimal digits are the ASCII ones. The
  one refusal not modelled is the interpreter's limit on the number of
  digits (4300 by default in recent Python versions): here a text of any
  length is read.
 */
module IntText {
  import opened Options

  predicate IsDigit(c: char)
  {
    '0' <= c <= '9'
  }

  function DigitValue(c: char): nat
    requires IsDigit(c)
  {
    c as int - '0' as int
  }

  function DigitChar(d: nat): (c: char)
    requires d < 10
    ensures IsDigit(c) && DigitValue(c) == d
  {
    ('0' as int + d) as char
  }

  /** Digits with single underscores between them: Python's decimal digit run. */
  predicate DigitRun(t: string)
  {
    && |t| > 0
    && IsDigit(t[0])
    && IsDigit(t[|t| - 1])
    && (forall i :: 0 <= i < |t| ==> IsDigit(t[i]) || t[i] == '_')
    && (forall i :: 0 <= i < |t| - 1 && t[i] == '_' ==> t[i + 1] != '_')
  }

  /** The number a run of digits and underscores spells, underscores ignored. */
  function RunValue(t: string): nat
    requires forall i :: 0 <= i < |t| ==> IsDigit(t[i]) || t[i] == '_'
  {
    if |t| == 0 then 0
    else
      var init := t[..|t| - 1];
      var last := t[|t| - 1];
      if last == '_' then RunValue(init) else RunValue(init) * 10 + DigitValue(last)
  }

  predicate IsSign(c: char)
  {
    c == '+' || c == '-'
  }

  /** The digits of `t` in order, its underscores dropped. */
  function Digits(t: string): (d: string)
    ensures |d| <= |t|
    ensures forall i :: 0 <= i < |d| ==> d[i] != '_'
    ensures (forall i :: 0 <= i < |t| ==> IsDigit(t[i]) || t[i] == '_') ==>
      forall i :: 0 <= i < |d| ==> IsDigit(d[i])
  {
    if |t| == 0 then []
    else
      var init := Digits(t[..|t| - 1]);
      var last := t[|t| - 1];
      if last == '_' then init else init + [last]
  }

  /** Underscores carry no value: a run means what its digits alone mean. */
  lemma {:induction false} RunValueDigits(t: string)
    requires forall i :: 0 <= i < |t| ==> IsDigit(t[i]) || t[i] == '_'
    ensures RunValue(t) == RunValue(Digits(t))
  {
    if |t| > 0 {
      var init := t[..|t| - 1];
      RunValueDigits(init);
      var d := Digits(init);
      if t[|t| - 1] != '_' {
        assert (d + [t[|t| - 1]])[..|d|] == d;
      }
    }
  }

  /** A leading zero does not change the value of a run. */
  lemma {:induction false} LeadingZeroValue(t: string)
    requires forall i :: 0 <= i < |t| ==> IsDigit(t[i]) || t[i] == '_'
    ensures RunValue("0" + t) == RunValue(t)
  {
    var z := "0" + t;
    if |t| == 0 {
      assert z[..0] == "";
    } else {
      var init := t[..|t| - 1];
      LeadingZeroValue(init);
      assert z[..|z| - 1] == "0" + init;
      assert z[|z| - 1] == t[|t| - 1];
    }
  }

  /**
    `int(s)`, None standing for its ValueError. A text is accepted exactly
    when it is a digit run, optionally after one sign.
   */
  function ParseInt(s: string): (r: Option<int>)
    ensures r.Some? <==> DigitRun(s) || (|s| > 0 && IsSign(s[0]) && DigitRun(s[1..]))
  {
    if |s| > 0 && IsSign(s[0]) then
      var body := s[1..];
      if DigitRun(body) then
        var v: int := RunValue(body);
        var n: int := if s[0] == '-' then -v else v;
        Some(n)
      else None
    else if DigitRun(s) then Some(RunValue(s))
    else None
  }

  /**
    The value `int` gives an accepted text: the number its digits spell with
    the underscores dropped, negated after a minus.
   */
  lemma ParseIntValue(s: string)
    requires ParseInt(s).Some?
    ensures IsDigit(s[0]) ==> ParseInt(s).value == RunValue(Digits(s))
    ensures s[0] == '+' ==> ParseInt(s).value == RunValue(Digits(s[1..]))
    ensures s[0] == '-' ==> ParseInt(s).value == 0 - RunValue(Digits(s[1..]))
  {
    if IsSign(s[0]) {
      RunValueDigits(s[1..]);
    } else {
      RunValueDigits(s);
    }
  }

  /**
    Only signs, digits and underscores make up an accepted text, so "abc" or
    "" is refused, and only a leading minus gives a negative number.
   */
  lemma AcceptedShape(s: string)
    ensures ParseInt(s).Some? ==> |s| > 0
    ensures ParseInt(s).Some? ==> forall i :: 0 <= i < |s| ==> IsDigit(s[i]) || IsSign(s[i]) || s[i] == '_'
    ensures ParseInt(s).Some? && ParseInt(s).value < 0 ==> s[0] == '-'
  {
    if ParseInt(s).Some? && !DigitRun(s) {
      forall i | 0 < i < |s|
        ensures IsDigit(s[i]) || s[i] == '_'
      {
        assert s[i] == s[1..][i - 1];
      }
    }
  }

  /** A plus sign changes nothing and a minus sign negates, on every digit run. */
  lemma SignedParse(t: string)
    requires DigitRun(t)
    ensures ParseInt("+" + t) == ParseInt(t)
    ensures ParseInt("-" + t) == Some(-ParseInt(t).value)
  {
    var plus, minus := "+" + t, "-" + t;
    assert plus[1..] == t && IsSign(plus[0]);
    assert minus[1..] == t && IsSign(minus[0]);
    ParseRun(t);
    ParseSignedRun(plus);
    ParseSignedRun(minus);
  }

  /** Leading zeros are accepted and do not change the value. */
  lemma LeadingZeroParse(t: string)
    requires DigitRun(t)
    ensures ParseInt("0" + t) == ParseInt(t)
  {
    var z := "0" + t;
    assert z[1..] == t;
    LeadingZeroValue(t);
    assert DigitRun(z) by {
      forall i | 0 <= i < |z| - 1 && z[i] == '_'
        ensures z[i + 1] != '_'
      {
        assert z[i] == t[i - 1];
      }
    }
  }

  /** `str(n)` for a natural number. */
  function NatText(n: nat): (t: string)
    ensures |t| > 0 && forall i :: 0 <= i < |t| ==> IsDigit(t[i])
  {
    if n < 10 then [DigitChar(n)] else NatText(n / 10) + [DigitChar(n % 10)]
  }

  /** `str(n)`. */
  function Show(n: int): string
  {
    if n < 0 then "-" + NatText(-n) else NatText(n)
  }

  lemma {:induction false} NatTextValue(n: nat)
    ensures DigitRun(NatText(n))
    ensures RunValue(NatText(n)) == n
  {
    var t := NatText(n);
    if n >= 10 {
      NatTextValue(n / 10);
      assert t[..|t| - 1] == NatText(n / 10);
    } else {
      assert t[..|t| - 1] == [];
    }
  }

  /** Every integer written by `str` reads back through `int` as itself. */
  lemma ParseShow(n: int)
    ensures ParseInt(Show(n)) == Some(n)
  {
    if n < 0 {
      ParseShowNegative(n);
    } else {
      ParseShowNatural(n);
    }
  }

  lemma ParseShowNatural(n: int)
    requires n >= 0
    ensures ParseInt(Show(n)) == Some(n)
  {
    NatTextValue(n);
    ParseRun(NatText(n));
  }

  lemma ParseShowNegative(n: int)
    requires n < 0
    ensures ParseInt(Show(n)) == Some(n)
  {
    var t := NatText(-n);
    NatTextValue(-n);
    var s := "-" + t;
    assert Show(n) == s;
    assert s[1..] == t && s[0] == '-';
    ParseSignedRun(s);
  }

  /** A sign followed by a digit run reads as the run's value, negated after a minus. */
  lemma ParseSignedRun(s: string)
    requires |s| > 0 && IsSign(s[0]) && DigitRun(s[1..])
    ensures ParseInt(s) == Some(if s[0] == '-' then 0 - RunValue(s[1..]) else RunValue(s[1..]))
  {
  }

  /** A bare digit run reads as its value. */
  lemma ParseRun(t: string)
    requires DigitRun(t)
    ensures ParseInt(t) == Some(RunValue(t))
  {
    assert !IsSign(t[0]);
  }

  /** Texts `int` refuses: letters, nothing, a bare sign, a doubled underscore. */
  lemma ParseIntRejects()
    ensures ParseInt("abc") == None
    ensures ParseInt("") == None
    ensures ParseInt("-") == None
    ensures ParseInt("1__0") == None
  {
    assert !DigitRun("1__0") by { assert "1__0"[1] == '_' && "1__0"[2] == '_'; }
  }

  lemma AcceptsPlain()
    ensures ParseInt("1") == Some(1)
    ensures ParseInt("12") == Some(12)
  {
    assert "1"[..0] == "" && RunValue("1") == 1 && DigitRun("1");
    assert "12"[..1] == "1" && RunValue("12") == 12 && DigitRun("12");
    ParseRun("1");
    ParseRun("12");
  }

  lemma AcceptsSigned()
    ensures ParseInt("+7") == Some(7)
    ensures ParseInt("-3") == Some(-3)
  {
    assert "7"[..0] == "" && RunValue("7") == 7 && DigitRun("7");
    assert "3"[..0] == "" && RunValue("3") == 3 && DigitRun("3");
    assert "+7"[1..] == "7" && "-3"[1..] == "3";
    ParseSignedRun("+7");
    ParseSignedRun("-3");
  }

  lemma AcceptsLeadingZeros()
    ensures ParseInt("007") == Some(7)
  {
    assert "007"[..2] == "00" && "00"[..1] == "0" && "0"[..0] == "";
    assert RunValue("007") == 7 && DigitRun("007");
    ParseRun("007");
  }

  lemma AcceptsUnderscore()
    ensures ParseInt("1_0") == Some(10)
    ensures ParseInt("1_000") == Some(1000)
  {
    assert "1_0"[..2] == "1_" && "1_"[..1] == "1" && "1"[..0] == "";
    assert RunValue("1_0") == 10 && DigitRun("1_0");
    assert "1_000"[..4] == "1_00" && "1_00"[..3] == "1_0";
    assert RunValue("1_000") == 1000 && DigitRun("1_000");
    ParseRun("1_0");
    ParseRun("1_000");
  }

  /** Texts `int` accepts: signs, leading zeros and single underscores between digits. */
  lemma ParseIntAccepts()
    ensures ParseInt("1") == Some(1)
    ensures ParseInt("12") == Some(12)
    ensures ParseInt("+7") == Some(7)
    ensures ParseInt("-3") == Some(-3)
    ensures ParseInt("007") == Some(7)
    ensures ParseInt("1_0") == Some(10)
    ensures ParseInt("1_000") == Some(1000)
  {
    AcceptsPlain();
    AcceptsSigned();
    AcceptsLeadingZeros();
    AcceptsUnderscore();
  }
}
