/** The numeric codec `int2binary` (lc3as.py:377-386): an integer becomes a
    fixed-width string of '0'/'1' characters, most significant bit first. */
module Numeric {
  import opened Errors

  function Pow2(n: nat): (p: int)
    ensures p >= 1
  {
    if n == 0 then 1 else 2 * Pow2(n - 1)
  }

  predicate IsBits(s: string) {
    forall k :: 0 <= k < |s| ==> s[k] == '0' || s[k] == '1'
  }

  /** The unsigned value of a bit string. */
  function Unsigned(s: string): nat {
    if s == [] then 0 else 2 * Unsigned(s[..|s| - 1]) + (if s[|s| - 1] == '1' then 1 else 0)
  }

  /** The value of a non-empty bit string read as two's complement. */
  function Signed(s: string): int
    requires |s| > 0
  {
    Unsigned(s) - (if s[0] == '1' then Pow2(|s|) else 0)
  }

  /** The signed range test of int2binary. Python compares against `2 ** (length - 1)`,
      which is the float 0.5 when `length` is 0: then only 0 passes. */
  predicate SignedOutOfRange(num: int, length: nat) {
    if length == 0 then num != 0 else num < -Pow2(length - 1) || num >= Pow2(length - 1)
  }

  /** The unsigned range test of int2binary: there is no lower bound. */
  predicate UnsignedOutOfRange(num: int, length: nat) {
    num >= Pow2(length)
  }

  /** The low `n` bits of `x`, most significant first: what the shifting loop of
      int2binary leaves in `ret`. Python's `num & 1` and `num >>= 1` are `x % 2` and
      `x / 2` here, since both floor for a positive divisor. */
  function ToBits(x: int, n: nat): (s: string)
    ensures |s| == n && IsBits(s)
    decreases n
  {
    if n == 0 then "" else ToBits(x / 2, n - 1) + [if x % 2 == 1 then '1' else '0']
  }

  /** int2binary(num, length, signed) as a value. */
  function Int2Bin(num: int, length: nat, signed: bool): (r: Result<string>)
    ensures r.Err? <==> (if signed then SignedOutOfRange(num, length) else UnsignedOutOfRange(num, length))
    ensures r.Err? ==> r.error == Error(ValueError, None)
    ensures r.Ok? ==> |r.value| == length && IsBits(r.value) && Unsigned(r.value) == num % Pow2(length)
  {
    if signed && SignedOutOfRange(num, length) then Raise(ValueError)
    else if !signed && UnsignedOutOfRange(num, length) then Raise(ValueError)
    else
      ToBitsValue(num, length);
      Ok(ToBits(num, length))
  }

  /** int2binary as the source writes it: the range checks, then a loop that
      prepends the lowest bit of `num` and shifts `num` right, `length` times. */
  method Int2Binary(num: int, length: nat, signed: bool) returns (r: Result<string>)
    ensures r == Int2Bin(num, length, signed)
  {
    if signed && SignedOutOfRange(num, length) {
      return Raise(ValueError);
    }
    if !signed && UnsignedOutOfRange(num, length) {
      return Raise(ValueError);
    }
    var ret := "";
    var x := num;
    var i := 0;
    while i < length
      invariant 0 <= i <= length
      invariant ToBits(x, length - i) + ret == ToBits(num, length)
    {
      ret := [if x % 2 == 1 then '1' else '0'] + ret;
      x := x / 2;
      i := i + 1;
    }
    assert ToBits(x, 0) == "";
    assert ret == ToBits(num, length);
    return Ok(ret);
  }

  lemma ModOfSum(x: int, m: int, a: int, b: int)
    requires m > 0 && 0 <= b < m && x == a * m + b
    ensures x % m == b
  {
    var q, r := x / m, x % m;
    assert (q - a) * m == b - r by {
      assert x == q * m + r;
    }
    if q - a >= 1 {
      MulAtLeast(q - a, m);
    } else if a - q >= 1 {
      MulAtLeast(a - q, m);
    }
  }

  lemma MulAtLeast(k: int, m: int)
    requires k >= 1 && m > 0
    ensures k * m >= m
  {
    assert (k - 1) * m >= 0;
  }

  /** x modulo 2p, from x/2 modulo p and the lowest bit of x. */
  lemma HalfMod(x: int, p: int)
    requires p > 0
    ensures x % (2 * p) == 2 * ((x / 2) % p) + x % 2
  {
    var q := x / 2;
    var a, b := q / p, q % p;
    assert x == 2 * q + x % 2;
    assert q == a * p + b;
    assert 2 * (a * p) == a * (2 * p);
    ModOfSum(x, 2 * p, a, 2 * b + x % 2);
  }

  /** The bits of x, read back, are x modulo 2^n. */
  lemma {:induction false} ToBitsValue(x: int, n: nat)
    ensures Unsigned(ToBits(x, n)) == x % Pow2(n)
    decreases n
  {
    if n == 0 {
      assert x % 1 == 0;
    } else {
      var s := ToBits(x, n);
      assert s[..|s| - 1] == ToBits(x / 2, n - 1);
      ToBitsValue(x / 2, n - 1);
      assert Unsigned(s) == 2 * ((x / 2) % Pow2(n - 1)) + x % 2;
      HalfMod(x, Pow2(n - 1));
    }
  }

  lemma {:induction false} UnsignedBound(s: string)
    ensures Unsigned(s) < Pow2(|s|)
  {
    if s != [] {
      UnsignedBound(s[..|s| - 1]);
    }
  }

  /** The leading bit carries weight 2^(n-1). */
  lemma {:induction false} UnsignedLead(s: string)
    requires |s| > 0
    ensures Unsigned(s) == (if s[0] == '1' then Pow2(|s| - 1) else 0) + Unsigned(s[1..])
  {
    if |s| > 1 {
      var init := s[..|s| - 1];
      assert init[1..] == s[1..][..|s[1..]| - 1];
      UnsignedLead(init);
    } else {
      assert s[1..] == [];
    }
  }

  /** A signed value in range comes back as n-bit two's complement. */
  lemma SignedRoundTrip(num: int, n: nat)
    requires n >= 1 && -Pow2(n - 1) <= num < Pow2(n - 1)
    ensures Int2Bin(num, n, true).Ok?
    ensures Signed(Int2Bin(num, n, true).value) == num
  {
    var s := Int2Bin(num, n, true).value;
    UnsignedLead(s);
    UnsignedBound(s[1..]);
    if num >= 0 {
      ModOfSum(num, Pow2(n), 0, num);
    } else {
      ModOfSum(num, Pow2(n), -1, num + Pow2(n));
    }
  }

  /** A non-negative unsigned value in range comes back unchanged. */
  lemma UnsignedRoundTrip(num: int, n: nat)
    requires 0 <= num < Pow2(n)
    ensures Int2Bin(num, n, false).Ok?
    ensures Unsigned(Int2Bin(num, n, false).value) == num
  {
    ModOfSum(num, Pow2(n), 0, num);
  }

  /** An unsigned field accepts negative values: they wrap around modulo 2^n. */
  lemma NegativeUnsignedWraps(num: int, n: nat)
    requires -Pow2(n) <= num < 0
    ensures Int2Bin(num, n, false).Ok?
    ensures Unsigned(Int2Bin(num, n, false).value) == num + Pow2(n)
  {
    ModOfSum(num, Pow2(n), -1, num + Pow2(n));
  }

  /** A string of zeros has value zero. */
  lemma {:induction false} ZerosValue(n: nat)
    ensures Unsigned(seq(n, _ => '0')) == 0
  {
    if n > 0 {
      assert seq(n, _ => '0')[..n - 1] == seq(n - 1, _ => '0');
      ZerosValue(n - 1);
    }
  }
}
