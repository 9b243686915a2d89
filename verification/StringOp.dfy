/** string2ll of src/util/stringop.c: strict decimal parsing into 64 bits. */
module StringOp {

  const ULLONG_MAX: nat := 0xffff_ffff_ffff_ffff
  const LLONG_MAX: int := 0x7fff_ffff_ffff_ffff
  const LLONG_MIN: int := -0x8000_0000_0000_0000

  /** Arithmetic on unsigned long long, and its conversion to long long. */
  function Wrap(x: int): (r: nat)
    ensures r <= ULLONG_MAX && (0 <= x <= ULLONG_MAX ==> r == x)
  {
    x % (ULLONG_MAX + 1)
  }

  function ToSigned(x: nat): int { if x <= LLONG_MAX then x else x - (ULLONG_MAX + 1) }

  predicate IsDigit(c: char) { '0' <= c <= '9' }
  function Digit(c: char): (d: nat)
    requires IsDigit(c)
    ensures d <= 9
  {
    (c as int) - ('0' as int)
  }

  predicate AllDigits(s: string) { forall i :: 0 <= i < |s| ==> IsDigit(s[i]) }

  /** The number a digit string denotes. */
  function Nat(s: string): nat
    requires AllDigits(s)
  {
    if s == [] then 0 else 10 * Nat(s[..|s| - 1]) + Digit(s[|s| - 1])
  }

  /** The digit string of a positive number, and the decimal form of any number. */
  function Digits(n: nat): (s: string)
    ensures AllDigits(s) && (n > 0 ==> s != [] && s[0] != '0')
  {
    if n == 0 then "" else Digits(n / 10) + [('0' as int + n % 10) as char]
  }

  function Print(n: int): string {
    if n == 0 then "0" else if n < 0 then "-" + Digits(-n) else Digits(n)
  }

  predicate InRange(n: int) { LLONG_MIN <= n <= LLONG_MAX }

  lemma {:induction false} NatOfDigits(n: nat)
    ensures Nat(Digits(n)) == n
  {
    if n > 0 {
      NatOfDigits(n / 10);
      var s := Digits(n);
      assert s[..|s| - 1] == Digits(n / 10);
    }
  }

  lemma {:induction false} DigitsOfNat(s: string)
    requires AllDigits(s) && s != [] && s[0] != '0'
    ensures Nat(s) > 0 && Digits(Nat(s)) == s
  {
    var a, d := s[..|s| - 1], Digit(s[|s| - 1]);
    assert s == a + [s[|s| - 1]];
    if a == [] {
      assert Nat(a) == 0 && Digits(0) == "";
    } else {
      DigitsOfNat(a);
    }
    assert Nat(s) / 10 == Nat(a) && Nat(s) % 10 == d;
  }

  /** Reading on never makes the number smaller. */
  lemma {:induction false} NatGrows(s: string, k: nat)
    requires AllDigits(s) && k <= |s|
    ensures Nat(s[..k]) <= Nat(s)
    ensures k < |s| ==> 10 * Nat(s[..k]) + Digit(s[k]) <= Nat(s)
    decreases |s|
  {
    if k < |s| {
      var t := s[..|s| - 1];
      if k < |t| { NatGrows(t, k); }
      assert t[..k] == s[..k];
    } else {
      assert s[..k] == s;
    }
  }

  /** Digits without a leading zero. */
  predicate Plain(s: string) { s != [] && AllDigits(s) && s[0] != '0' }

  /** s is a number as the parser sees it: a lone zero, or a sign and digits. */
  predicate Denotes(s: string, n: int) {
    if s == "0" then n == 0
    else if s != [] && s[0] == '-' then Plain(s[1..]) && n + Nat(s[1..]) == 0
    else Plain(s) && n == Nat(s)
  }

  /** The strings the parser looks for are the printed numbers. */
  lemma DenotesExact(s: string, n: int)
    ensures s == Print(n) <==> Denotes(s, n)
  {
    if s == Print(n) { PrintDenotes(n); }
    if Denotes(s, n) && s != "0" {
      if s[0] == '-' {
        DigitsOfNat(s[1..]);
        assert s == "-" + s[1..];
      } else {
        DigitsOfNat(s);
      }
    }
  }

  lemma PrintDenotes(n: int)
    ensures Denotes(Print(n), n)
  {
    var m := if n < 0 then -n else n;
    if m > 0 {
      NatOfDigits(m);
      var s := Digits(m);
      assert Plain(s) && s[0] != '-' && s != "0";
      if n < 0 {
        assert Print(n)[1..] == s;
      }
    }
  }

  lemma TailSlice(s: string, o: nat, k: nat)
    requires o <= k < |s|
    ensures s[o..][..k - o] == s[o..k] && s[o..][k - o] == s[k]
  {}

  /** The digits from position o on denote a number too large once the prefix up
      to k does, together with the digit that follows. */
  lemma TooLarge(s: string, n: int, o: nat, k: nat)
    requires o < k < |s| && o == (if s[0] == '-' then 1 else 0) && |s| > 1
    requires AllDigits(s[o..k]) && IsDigit(s[k])
    requires 10 * Nat(s[o..k]) + Digit(s[k]) > ULLONG_MAX
    ensures !(Denotes(s, n) && InRange(n))
  {
    if Denotes(s, n) {
      var d := s[o..];
      assert s[0] != '-' ==> d == s;
      NatGrows(d, k - o);
      TailSlice(s, o, k);
    }
  }

  /** string2ll accepts exactly the decimal forms of the 64-bit numbers, and
      returns the number. */
  method String2ll(s: string) returns (ok: bool, value: int)
    ensures ok ==> InRange(value) && s == Print(value)
    ensures !ok ==> forall n :: InRange(n) ==> s != Print(n)
  {
    ok, value := Parse(s);
    if ok {
      DenotesExact(s, value);
    } else {
      forall n | InRange(n) ensures s != Print(n) { DenotesExact(s, n); }
    }
  }

  lemma NextDigit(s: string, o: nat, k: nat)
    requires o <= k < |s| && AllDigits(s[o..k]) && IsDigit(s[k])
    ensures AllDigits(s[o..k + 1]) && Nat(s[o..k + 1]) == 10 * Nat(s[o..k]) + Digit(s[k])
  {
    assert s[o..k + 1] == s[o..k] + [s[k]];
  }

  /** A string with something else behind its sign and digits denotes nothing. */
  lemma Trailing(s: string, o: nat, k: nat)
    requires o <= k < |s| && o == (if s[0] == '-' then 1 else 0) && !IsDigit(s[k])
    ensures forall n :: !Denotes(s, n)
  {
    assert s[o..][k - o] == s[k] && !AllDigits(s[o..]);
    assert o == 0 ==> s[o..] == s;
  }

  /** The code of string2ll. */
  method Parse(s: string) returns (ok: bool, value: int)
    ensures ok ==> InRange(value) && Denotes(s, value)
    ensures !ok ==> forall n :: InRange(n) ==> !Denotes(s, n)
  {
    ok, value := false, 0;
    var plen, negative := 0, false;
    if plen == |s| { return; }
    if |s| == 1 && s[0] == '0' {
      return true, 0;
    }
    if s[0] == '-' {
      negative := true;
      plen := 1;
      if plen == |s| { return; }
    }
    ghost var o := plen;
    var v: nat;
    if '1' <= s[plen] <= '9' {
      v := Digit(s[plen]);
      plen := plen + 1;
      assert s[o..plen] == [s[o]];
    } else {
      assert !Plain(s[o..]) && (o == 0 ==> s[o..] == s);
      return;
    }
    while plen < |s| && IsDigit(s[plen])
      invariant o < plen <= |s| && v <= ULLONG_MAX
      invariant AllDigits(s[o..plen]) && v == Nat(s[o..plen])
    {
      NextDigit(s, o, plen);
      if 10 * v + Digit(s[plen]) > ULLONG_MAX {
        forall n ensures !(Denotes(s, n) && InRange(n)) { TooLarge(s, n, o, plen); }
      }
      if v > ULLONG_MAX / 10 { return; }
      v := Wrap(v * 10);
      if v > ULLONG_MAX - Digit(s[plen]) { return; }
      v := Wrap(v + Digit(s[plen]));
      plen := plen + 1;
    }
    if plen < |s| {
      Trailing(s, o, plen);
      return;
    }
    assert s[o..plen] == s[o..] && (o == 0 ==> s[o..] == s);
    if negative {
      if v > 0x8000_0000_0000_0000 { return; }
      value := ToSigned(Wrap(0 - v));
    } else {
      if v > LLONG_MAX { return; }
      value := v;
    }
    ok := true;
  }
}
