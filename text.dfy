/** The conventional optional value, used where the gateway's code raises. */
module Wrappers {
  datatype Option<+T> = None | Some(value: T)
}

/**
 * The small string operations the gateway relies on: ASCII case folding
 * (header names compare case-insensitively), decimal printing of a port (for
 * the `Host` header), decimal parsing (Python's `int` on a string) and
 * stripping a character from both ends of a string.
 */
module Text {
  import opened Wrappers

  function LowerChar(c: char): char {
    if 'A' <= c <= 'Z' then (c as int - 'A' as int + 'a' as int) as char else c
  }

  /** ASCII lower-casing; HTTP header names are ASCII tokens. */
  function Lower(s: string): string {
    seq(|s|, i requires 0 <= i < |s| => LowerChar(s[i]))
  }

  /** Two header names denote the same header when they agree up to ASCII case. */
  predicate SameName(a: string, b: string): (same: bool)
    ensures same <==> |a| == |b| && forall i :: 0 <= i < |a| ==> LowerChar(a[i]) == LowerChar(b[i])
  {
    assert |a| == |b| && (forall i :: 0 <= i < |a| ==> LowerChar(a[i]) == LowerChar(b[i])) ==> Lower(a) == Lower(b) by {
      if |a| == |b| && (forall i :: 0 <= i < |a| ==> LowerChar(a[i]) == LowerChar(b[i])) {
        assert forall i :: 0 <= i < |a| ==> Lower(a)[i] == Lower(b)[i];
      }
    }
    assert |Lower(a)| == |a| && |Lower(b)| == |b|;
    assert forall i :: 0 <= i < |a| ==> Lower(a)[i] == LowerChar(a[i]);
    assert forall i :: 0 <= i < |b| ==> Lower(b)[i] == LowerChar(b[i]);
    Lower(a) == Lower(b)
  }

  predicate IsDigit(c: char) {
    '0' <= c <= '9'
  }

  /** A non-empty run of decimal digits. */
  predicate IsNumeral(s: string) {
    |s| > 0 && forall i :: 0 <= i < |s| ==> IsDigit(s[i])
  }

  function DigitValue(c: char): (d: nat)
    requires IsDigit(c)
    ensures d < 10 && DigitChar(d) == c
  {
    c as int - '0' as int
  }

  function DigitChar(d: nat): char
    requires d < 10
  {
    ('0' as int + d) as char
  }

  /** Value of a string of decimal digits, most significant digit first. */
  function NumeralValue(s: string): nat
    requires forall i :: 0 <= i < |s| ==> IsDigit(s[i])
  {
    if s == [] then 0
    else NumeralValue(s[..|s| - 1]) * 10 + DigitValue(s[|s| - 1])
  }

  /** Decimal rendering of a natural number, as Python prints it. */
  function NatToString(n: nat): (s: string)
    ensures IsNumeral(s)
    ensures s[0] == '0' ==> n == 0
  {
    if n < 10 then [DigitChar(n)] else NatToString(n / 10) + [DigitChar(n % 10)]
  }

  /**
   * `int(s)` on a string: an optional sign followed by at least one decimal
   * digit; anything else is the ValueError case, `None`.
   */
  function ParseInt(s: string): (r: Option<int>)
    ensures r.Some? <==> IsNumeral(s) || (|s| > 0 && (s[0] == '+' || s[0] == '-') && IsNumeral(s[1..]))
    ensures r.Some? && IsNumeral(s) ==> r.value >= 0
    ensures r.Some? && s[0] == '-' ==> r.value <= 0
  {
    if |s| > 0 && (s[0] == '+' || s[0] == '-') && IsNumeral(s[1..]) then
      var v: int := NumeralValue(s[1..]);
      Some(if s[0] == '-' then -v else v)
    else if IsNumeral(s) then
      Some(NumeralValue(s))
    else
      None
  }

  lemma {:induction false} NumeralValueOfNatToString(n: nat)
    ensures NumeralValue(NatToString(n)) == n
  {
    var s := NatToString(n);
    if n >= 10 {
      NumeralValueOfNatToString(n / 10);
      assert s[..|s| - 1] == NatToString(n / 10);
    }
  }

  /** Printing and then parsing a natural number gives it back. */
  lemma ParseIntOfNatToString(n: nat)
    ensures ParseInt(NatToString(n)) == Some(n)
  {
    NumeralValueOfNatToString(n);
  }

  /** `k` zero digits, the padding `int` accepts in front of a numeral. */
  function Zeros(k: nat): (z: string)
    ensures |z| == k && forall i :: 0 <= i < k ==> z[i] == '0'
  {
    seq(k, i => '0')
  }

  lemma {:induction false} NumeralValueOfZeros(k: nat)
    ensures NumeralValue(Zeros(k)) == 0
  {
    if k > 0 {
      assert Zeros(k)[..k - 1] == Zeros(k - 1);
      NumeralValueOfZeros(k - 1);
    }
  }

  /** Leading zeros do not change the value of a digit string. */
  lemma {:induction false} NumeralValueOfPadded(k: nat, t: string)
    requires forall i :: 0 <= i < |t| ==> IsDigit(t[i])
    ensures forall i :: 0 <= i < |Zeros(k) + t| ==> IsDigit((Zeros(k) + t)[i])
    ensures NumeralValue(Zeros(k) + t) == NumeralValue(t)
  {
    var u := Zeros(k) + t;
    assert forall i :: 0 <= i < |u| ==> IsDigit(u[i]) by {
      forall i | 0 <= i < |u| ensures IsDigit(u[i]) {
        if i < k { assert u[i] == Zeros(k)[i]; } else { assert u[i] == t[i - k]; }
      }
    }
    if t == [] {
      assert u == Zeros(k);
      NumeralValueOfZeros(k);
    } else {
      var init := t[..|t| - 1];
      assert u[..|u| - 1] == Zeros(k) + init;
      assert u[|u| - 1] == t[|t| - 1];
      NumeralValueOfPadded(k, init);
    }
  }

  /**
   * `int` of a numeral with any number of leading zeros, and with an optional
   * `+` or `-` sign in front, is the number the digits denote.
   */
  lemma ParseIntPadded(k: nat, n: nat)
    ensures ParseInt(Zeros(k) + NatToString(n)) == Some(n)
    ensures ParseInt("+" + Zeros(k) + NatToString(n)) == Some(n)
    ensures ParseInt("-" + Zeros(k) + NatToString(n)) == Some(-(n as int))
  {
    var s := Zeros(k) + NatToString(n);
    NumeralValueOfPadded(k, NatToString(n));
    NumeralValueOfNatToString(n);
    assert IsNumeral(s);
    assert "+" + Zeros(k) + NatToString(n) == "+" + s;
    assert ("+" + s)[1..] == s;
    assert "-" + Zeros(k) + NatToString(n) == "-" + s;
    assert ("-" + s)[1..] == s;
  }

  /** A numeral without leading zeros is how its value prints. */
  lemma {:induction false} NatToStringOfNumeral(t: string)
    requires IsNumeral(t) && (t[0] == '0' ==> |t| == 1)
    ensures NatToString(NumeralValue(t)) == t
  {
    var d := DigitValue(t[|t| - 1]);
    if |t| == 1 {
      assert t[..0] == [];
    } else {
      var init := t[..|t| - 1];
      assert init[0] == t[0];
      NatToStringOfNumeral(init);
      var v := NumeralValue(init);
      assert v != 0;
      assert (v * 10 + d) / 10 == v && (v * 10 + d) % 10 == d;
      assert t == init + [t[|t| - 1]];
    }
  }

  /** Every numeral is some number's decimal rendering behind some leading zeros. */
  lemma NumeralIsPadded(s: string) returns (k: nat, n: nat)
    requires IsNumeral(s)
    ensures s == Zeros(k) + NatToString(n)
  {
    var t := TrimStart(s, '0');
    TrimStartIsSuffix(s, '0');
    if t == [] {
      k, n := |s| - 1, 0;
      assert NatToString(0) == "0";
      assert s == Zeros(k) + NatToString(n);
    } else {
      k := |s| - |t|;
      assert IsNumeral(t) by {
        forall i | 0 <= i < |t| ensures IsDigit(t[i]) {
          assert t[i] == s[k + i];
        }
      }
      n := NumeralValue(t);
      NatToStringOfNumeral(t);
      assert s[..k] == Zeros(k);
      assert s == s[..k] + s[k..];
    }
  }

  /**
   * What `int` returns on every string it accepts: the string is an optional
   * sign, leading zeros and the decimal rendering of some n, and the value is
   * n, negated under `-`.
   */
  lemma ParseIntAccepted(s: string) returns (sign: string, k: nat, n: nat)
    requires ParseInt(s).Some?
    ensures sign == "" || sign == "+" || sign == "-"
    ensures s == sign + Zeros(k) + NatToString(n)
    ensures ParseInt(s) == Some(if sign == "-" then -(n as int) else n)
  {
    if IsNumeral(s) {
      sign := "";
      k, n := NumeralIsPadded(s);
      assert s == sign + Zeros(k) + NatToString(n);
    } else {
      sign := [s[0]];
      k, n := NumeralIsPadded(s[1..]);
      assert s == [s[0]] + s[1..];
    }
    ParseIntPadded(k, n);
  }

  function TrimStart(s: string, c: char): (r: string)
    ensures r == [] || r[0] != c
  {
    if |s| > 0 && s[0] == c then TrimStart(s[1..], c) else s
  }

  function TrimEnd(s: string, c: char): (r: string)
    ensures r == [] || r[|r| - 1] != c
  {
    if |s| > 0 && s[|s| - 1] == c then TrimEnd(s[..|s| - 1], c) else s
  }

  /** TrimStart drops a prefix made only of `c`. */
  lemma {:induction false} TrimStartIsSuffix(s: string, c: char)
    ensures |TrimStart(s, c)| <= |s| && TrimStart(s, c) == s[|s| - |TrimStart(s, c)|..]
    ensures forall k :: 0 <= k < |s| - |TrimStart(s, c)| ==> s[k] == c
  {
    if |s| > 0 && s[0] == c {
      TrimStartIsSuffix(s[1..], c);
    }
  }

  /** TrimEnd drops a suffix made only of `c`. */
  lemma {:induction false} TrimEndIsPrefix(s: string, c: char)
    ensures |TrimEnd(s, c)| <= |s| && TrimEnd(s, c) == s[..|TrimEnd(s, c)|]
    ensures forall k :: |TrimEnd(s, c)| <= k < |s| ==> s[k] == c
  {
    if |s| > 0 && s[|s| - 1] == c {
      TrimEndIsPrefix(s[..|s| - 1], c);
    }
  }

  /** `s.strip(c)`: drop every leading and every trailing `c`. */
  function Strip(s: string, c: char): (r: string)
    ensures r == [] || (r[0] != c && r[|r| - 1] != c)
  {
    var t := TrimStart(s, c);
    TrimEndIsPrefix(t, c);
    TrimEnd(t, c)
  }

  /**
   * What `s.strip(c)` returns: a slice s[i..j] with only `c` characters
   * outside it, and neither starting nor ending with `c`; so it is the
   * longest such slice.
   */
  lemma StripIsSlice(s: string, c: char) returns (i: nat, j: nat)
    ensures i <= j <= |s| && Strip(s, c) == s[i..j]
    ensures forall k :: 0 <= k < i ==> s[k] == c
    ensures forall k :: j <= k < |s| ==> s[k] == c
  {
    var t := TrimStart(s, c);
    var r := TrimEnd(t, c);
    TrimStartIsSuffix(s, c);
    TrimEndIsPrefix(t, c);
    i := |s| - |t|;
    j := i + |r|;
    assert t == s[i..];
    assert r == t[..|r|];
    assert s[i..][..|r|] == s[i..j];
  }

  /** A string made only of `c` strips to the empty string, and only such a string does. */
  lemma StripEmptyIff(s: string, c: char)
    ensures Strip(s, c) == [] <==> forall k :: 0 <= k < |s| ==> s[k] == c
  {
    var i, j := StripIsSlice(s, c);
    if Strip(s, c) != [] {
      assert s[i] != c;
    }
  }
}
