/** Integers as text: Python's `int()` on a stripped base-10 string and the
    `f"{qty}"` rendering of an integer. */
module IntText {
  import opened Wrappers

  predicate IsDigit(c: char) {
    '0' <= c <= '9'
  }

  function DigitValue(c: char): nat
    requires IsDigit(c)
  {
    (c as int) - ('0' as int)
  }

  function DigitChar(d: nat): (c: char)
    requires d < 10
    ensures IsDigit(c) && DigitValue(c) == d
  {
    (('0' as int) + d) as char
  }

  /** The digit part `int()` accepts: ASCII digits, where a single `_` may
      stand between two digits (`1_000`). */
  predicate IsDigitGroups(s: string) {
    && |s| > 0
    && IsDigit(s[0])
    && IsDigit(s[|s| - 1])
    && (forall i :: 0 <= i < |s| ==> IsDigit(s[i]) || s[i] == '_')
    && (forall i :: 0 <= i < |s| - 1 ==> !(s[i] == '_' && s[i + 1] == '_'))
  }

  /** The number the digits of `s` spell, underscores ignored. */
  function DigitsValue(s: string): nat
    requires forall i :: 0 <= i < |s| ==> IsDigit(s[i]) || s[i] == '_'
  {
    if s == [] then 0
    else if s[|s| - 1] == '_' then DigitsValue(s[..|s| - 1])
    else DigitsValue(s[..|s| - 1]) * 10 + DigitValue(s[|s| - 1])
  }

  /** Python's `int(t)` for base 10 on a string with no surrounding
      whitespace: an optional sign, then digit groups. None is the
      `ValueError` it raises otherwise. */
  function ParseInt(t: string): (r: Option<int>)
    ensures r.Some? ==> |t| > 0 && IsDigit(t[|t| - 1])
    ensures r.Some? ==> forall i :: 0 <= i < |t| ==>
              IsDigit(t[i]) || t[i] == '_' || (i == 0 && (t[i] == '+' || t[i] == '-'))
    ensures r.Some? && r.value < 0 ==> t[0] == '-'
  {
    if |t| > 0 && (t[0] == '+' || t[0] == '-') then
      var digits := t[1..];
      if IsDigitGroups(digits) then
        assert forall i :: 1 <= i < |t| ==> t[i] == digits[i - 1];
        Some(if t[0] == '-' then 0 - DigitsValue(digits) else DigitsValue(digits))
      else
        None
    else if IsDigitGroups(t) then
      Some(DigitsValue(t))
    else
      None
  }

  /** `int()` accepts exactly an optional sign followed by digit groups. */
  lemma ParseIntAccepts(t: string)
    ensures ParseInt(t).Some? <==>
              IsDigitGroups(t) || (|t| > 0 && (t[0] == '+' || t[0] == '-') && IsDigitGroups(t[1..]))
  {
    if |t| > 0 && (t[0] == '+' || t[0] == '-') {
      assert !IsDigitGroups(t);
    }
  }

  /** `str(n)` for a natural number: its decimal digits, most significant
      first, without leading zeros. */
  function NatToString(n: nat): (r: string)
    ensures |r| > 0
    ensures forall i :: 0 <= i < |r| ==> IsDigit(r[i])
    ensures DigitsValue(r) == n
    ensures n > 0 ==> r[0] != '0'
    ensures n == 0 ==> r == "0"
  {
    if n < 10 then
      [DigitChar(n)]
    else
      var prefix := NatToString(n / 10);
      var r := prefix + [DigitChar(n % 10)];
      assert r[..|r| - 1] == prefix;
      r
  }

  /** `f"{q}"` for an integer: a minus sign exactly for negatives, then the
      digits without leading zeros (`"0"` for zero). `int()` reads it back. */
  function IntToString(q: int): (r: string)
    ensures |r| > 0 && IsDigit(r[|r| - 1])
    ensures forall i :: 0 <= i < |r| ==> IsDigit(r[i]) || (i == 0 && r[i] == '-')
    ensures ParseInt(r) == Some(q)
    ensures r[0] == '-' <==> q < 0
    ensures q < 0 ==> |r| > 1 && r[1] != '0'
    ensures q > 0 ==> r[0] != '0'
    ensures q == 0 <==> r == "0"
  {
    if q < 0 then
      var digits := NatToString(-q);
      var r := "-" + digits;
      assert r[1..] == digits;
      r
    else
      NatToString(q)
  }

  /** A leading zero adds nothing to the value of a digit text. */
  lemma {:induction false} LeadingZeroValue(t: string)
    requires forall i :: 0 <= i < |t| ==> IsDigit(t[i]) || t[i] == '_'
    ensures DigitsValue("0" + t) == DigitsValue(t)
  {
    var z := "0" + t;
    if t == [] {
      assert z[..0] == [];
    } else {
      assert z[..|z| - 1] == "0" + t[..|t| - 1];
      LeadingZeroValue(t[..|t| - 1]);
    }
  }

  /** An underscore between digit groups adds nothing to the value. */
  lemma {:induction false} UnderscoreValue(x: string, y: string)
    requires forall i :: 0 <= i < |x| ==> IsDigit(x[i]) || x[i] == '_'
    requires forall i :: 0 <= i < |y| ==> IsDigit(y[i]) || y[i] == '_'
    ensures DigitsValue(x + "_" + y) == DigitsValue(x + y)
  {
    var u := x + "_" + y;
    if y == [] {
      assert u[..|u| - 1] == x;
      assert x + y == x;
    } else {
      var w := x + y;
      assert u[..|u| - 1] == x + "_" + y[..|y| - 1];
      assert w[..|w| - 1] == x + y[..|y| - 1];
      UnderscoreValue(x, y[..|y| - 1]);
    }
  }

  /** `int()` ignores a leading zero: `int("007") == int("7")`. */
  lemma LeadingZeroIgnored(t: string)
    requires IsDigitGroups(t)
    ensures ParseInt("0" + t) == ParseInt(t)
  {
    var z := "0" + t;
    assert forall i :: 0 < i < |z| ==> z[i] == t[i - 1];
    assert z[|z| - 1] == t[|t| - 1];
    assert IsDigitGroups(z);
    LeadingZeroValue(t);
  }

  /** `int()` ignores a `+` sign and negates for a `-` sign. */
  lemma SignRead(t: string)
    requires IsDigitGroups(t)
    ensures ParseInt("+" + t) == ParseInt(t)
    ensures ParseInt("-" + t) == Some(0 - ParseInt(t).value)
  {
    assert ("+" + t)[1..] == t;
    assert ("-" + t)[1..] == t;
  }

  /** `int()` ignores an underscore between digit groups:
      `int("1_000") == int("1000")`. */
  lemma UnderscoreIgnored(a: string, b: string)
    requires IsDigitGroups(a) && IsDigitGroups(b)
    ensures ParseInt(a + "_" + b) == ParseInt(a + b)
  {
    var u := a + "_" + b;
    var w := a + b;
    assert forall i :: 0 <= i < |u| ==> IsDigit(u[i]) || u[i] == '_' by {
      forall i | 0 <= i < |u|
        ensures IsDigit(u[i]) || u[i] == '_'
      {
        if i > |a| {
          assert u[i] == b[i - |a| - 1];
        }
      }
    }
    assert forall i :: 0 <= i < |u| - 1 ==> !(u[i] == '_' && u[i + 1] == '_') by {
      forall i | 0 <= i < |u| - 1
        ensures !(u[i] == '_' && u[i + 1] == '_')
      {
        if i > |a| {
          assert u[i] == b[i - |a| - 1] && u[i + 1] == b[i - |a|];
        }
      }
    }
    assert IsDigitGroups(u);
    assert forall i :: 0 <= i < |w| - 1 ==> !(w[i] == '_' && w[i + 1] == '_') by {
      forall i | 0 <= i < |w| - 1
        ensures !(w[i] == '_' && w[i + 1] == '_')
      {
        if i >= |a| {
          assert w[i] == b[i - |a|];
        }
      }
    }
    assert forall i :: 0 <= i < |w| ==> IsDigit(w[i]) || w[i] == '_' by {
      forall i | 0 <= i < |w|
        ensures IsDigit(w[i]) || w[i] == '_'
      {
        if i >= |a| {
          assert w[i] == b[i - |a|];
        }
      }
    }
    assert IsDigitGroups(w);
    UnderscoreValue(a, b);
  }
}
