/** The RBignum object of bignum.c: a sign flag and a digit buffer of some capacity of which
    the first len digits count. Where the digits are stored (in the object or on the heap) is
    not modelled. */
module Bignums {
  import opened Digits
  import opened Arith

  function Signed(sign: bool, mag: int): int {
    if sign then mag else -mag
  }

  class Bignum {
    var sign: bool        // RBIGNUM_SIGN: true for non-negative
    var len: nat          // RBIGNUM_LEN
    var ds: array<Digit>  // BDIGITS

    ghost predicate Valid()
      reads this
    {
      len <= ds.Length
    }

    /** The magnitude. */
    ghost function Mag(): nat
      requires Valid()
      reads this, ds
    {
      Val(ds[..len])
    }

    /** The integer this object denotes. */
    ghost function Int(): int
      requires Valid()
      reads this, ds
    {
      Signed(sign, Mag())
    }

    /** No leading zero digit, except that zero may be written with one digit. */
    ghost predicate Normal()
      requires Valid()
      reads this, ds
    {
      len <= 1 || ds[len - 1] != 0
    }

    /** bignew: the digits are unspecified. */
    constructor (n: nat, s: bool)
      ensures Valid() && fresh(ds) && len == ds.Length == n && sign == s
    {
      sign, len := s, n;
      ds := new Digit[n];
    }

    /** rb_uint2big for a value of one digit. */
    constructor FromDigit(d: Digit, s: bool)
      ensures Valid() && fresh(ds) && len == ds.Length == 1 && sign == s
      ensures ds[0] == d && Mag() == d
    {
      sign, len := s, 1;
      ds := new Digit[] [d];
      new;
      ValOne(ds[..1]);
    }

    /** rb_big_clone. */
    method Clone() returns (z: Bignum)
      requires Valid()
      ensures fresh(z) && fresh(z.ds) && z.Valid() && z.ds.Length == len
      ensures z.sign == sign && z.len == len && z.ds[..len] == ds[..len]
    {
      z := new Bignum(len, sign);
      forall i | 0 <= i < len {
        z.ds[i] := ds[i];
      }
    }

    /** rb_big_realloc to a capacity of n digits: those that fit are kept. Below the current length the
        number is one again only with the length that rb_big_resize sets. */
    method Realloc(n: nat)
      requires Valid()
      modifies this
      ensures fresh(ds) && ds.Length == n && len == old(len) && sign == old(sign)
      ensures forall i :: 0 <= i < n && i < len ==> ds[i] == old(ds[i])
      ensures len <= n ==> Valid() && ds[..len] == old(ds[..len])
    {
      var d := new Digit[n];
      forall i | 0 <= i < n && i < len {
        d[i] := ds[i];
      }
      ds := d;
    }

    /** rb_big_resize: digits above the old length are unspecified. */
    method Resize(n: nat)
      requires Valid()
      modifies this
      ensures Valid() && fresh(ds) && len == ds.Length == n && sign == old(sign)
      ensures forall i :: 0 <= i < n && i < old(len) ==> ds[i] == old(ds[i])
    {
      Realloc(n);
      len := n;
    }

    /** BIGZEROP. */
    method IsZero() returns (r: bool)
      requires Valid()
      ensures r <==> Mag() == 0
    {
      var i := len;
      while i > 0
        invariant 0 <= i <= len
        invariant forall k :: i <= k < len ==> ds[k] == 0
      {
        i := i - 1;
        if ds[i] != 0 {
          ValTop(ds[..len], i);
          return false;
        }
      }
      ValZero(ds[..len]);
      return true;
    }

    /** bigtrunc: drops leading zero digits. */
    method Truncate()
      requires Valid()
      modifies this
      ensures Valid() && Normal() && Mag() == old(Mag()) && sign == old(sign)
      ensures ds == old(ds) || fresh(ds)
      ensures len <= old(len) && (len == 0 <==> old(len) == 0)
    {
      if len == 0 { return; }
      var i := len - 1;
      ghost var s := ds[..len];
      while i != 0 && ds[i] == 0
        invariant 0 <= i < len
        invariant forall k :: i < k < len ==> ds[k] == 0
      {
        i := i - 1;
      }
      TrimValue(s, i + 1);
      Resize(i + 1);
      assert ds[..i + 1] == s[..i + 1];
    }

    /** bigfixize on the target's 32-bit long: a value of at most one digit is returned as a
        Fixnum when it lies in the 31-bit Fixnum range. */
    method Fixize() returns (isFix: bool, fix: int)
      requires Valid() && Normal()
      ensures isFix <==> FIXNUM_MIN <= Int() <= FIXNUM_MAX
      ensures isFix ==> fix == Int()
    {
      if len <= 1 {
        var num: int := if len == 1 then ds[0] else 0;
        ValOne(ds[..len]);
        if num < BIGRAD / 2 {  // num >= 0 as a long
          if sign {
            if num <= FIXNUM_MAX { return true, num; }
          } else if -num >= FIXNUM_MIN {
            return true, -num;
          }
        }
      } else {
        ValTop(ds[..len], len - 1);
        PowerMonotone(1, len - 1);
        assert Power(1) == BIGRAD;
      }
      return false, 0;
    }
  }

  const FIXNUM_MAX: int := 0x3fff_ffff
  const FIXNUM_MIN: int := -0x4000_0000

  /** Leading zero digits do not count. */
  lemma TrimValue(s: seq<Digit>, n: nat)
    requires n <= |s| && forall k :: n <= k < |s| ==> s[k] == 0
    ensures Val(s[..n]) == Val(s)
  {
    ValSplit(s, n);
    ValZero(s[n..]);
  }

  /** bignorm: truncates, then yields a Fixnum exactly when the value is in Fixnum range. */
  method Normalize(x: Bignum) returns (isFix: bool, fix: int)
    requires x.Valid()
    modifies x
    ensures x.Valid() && x.Normal() && x.Int() == old(x.Int()) && (x.ds == old(x.ds) || fresh(x.ds))
    ensures isFix <==> FIXNUM_MIN <= old(x.Int()) <= FIXNUM_MAX
    ensures isFix ==> fix == old(x.Int())
  {
    x.Truncate();
    isFix, fix := x.Fixize();
  }
}
