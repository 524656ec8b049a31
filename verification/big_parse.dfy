/** rb_cstr_to_inum of bignum.c: reading an integer literal in any radix. */
module BigParse {
  import opened Digits
  import opened Arith
  import opened Bignums
  import opened Radix

  datatype ParseResult = BadString | InvalidRadix | Number(value: int)

  /** A C string: reading at its length yields the terminator. */
  function At(s: string, i: nat): char {
    if i < |s| then s[i] else '\0'
  }

  predicate IsSpace(c: char) {
    c == ' ' || '\t' <= c <= '\r'
  }

  /** The first position from i on that is not white space. */
  function SkipSpaces(s: string, i: nat): (j: nat)
    requires i <= |s|
    ensures i <= j <= |s|
    decreases |s| - i
  {
    if i < |s| && IsSpace(s[i]) then SkipSpaces(s, i + 1) else i
  }

  /** The radix to use: given, negated, or told by the prefix. */
  function RealBase(s: string, p: nat, base: int): int {
    if base > 0 then base
    else if At(s, p) == '0' then
      var c := At(s, p + 1);
      if c in "xX" then 16 else if c in "bB" then 2 else if c in "oO" then 8 else if c in "dD" then 10 else 8
    else if base < -1 then -base
    else 10
  }

  /** Past the radix prefix, where the radix has one. */
  function SkipPrefix(s: string, p: nat, base: int): (j: nat)
    requires p <= |s|
    ensures p <= j <= |s|
  {
    var c := At(s, p + 1);
    if p + 1 < |s| && s[p] == '0' && ((base == 2 && c in "bB") || (base == 8 && c in "oO")
                                      || (base == 10 && c in "dD") || (base == 16 && c in "xX"))
    then p + 2 else p
  }

  /** Past zeros and single underscores that follow a zero. */
  function SqueezeZeros(s: string, i: nat, us: nat): (j: nat)
    requires i <= |s|
    ensures i <= j <= |s|
    decreases |s| - i
  {
    if At(s, i) == '0' && i < |s| then SqueezeZeros(s, i + 1, 0)
    else if At(s, i) == '_' && i < |s| && us + 1 < 2 then SqueezeZeros(s, i + 1, us + 1)
    else i
  }

  /** Where the digits start: leading zeros are skipped unless nothing else follows. */
  function DigitsStart(s: string, p: nat): (j: nat)
    requires p <= |s|
    ensures p <= j <= |s|
  {
    if At(s, p) == '0' && p < |s| then
      var j := SqueezeZeros(s, p + 1, 0);
      if j == |s| || IsSpace(s[j]) then j - 1 else j
    else p
  }

  /** One character the digit loop reads. */
  datatype Token = Underscore | Digit(d: nat) | Other

  function TokenAt(s: string, i: nat, base: nat): (t: Token)
    ensures t.Digit? ==> t.d < base && i < |s|
    ensures t.Underscore? ==> i < |s|
  {
    if i >= |s| then Other
    else if s[i] == '_' then Underscore
    else if 0 <= ConvDigit(s[i]) < base then Digit(ConvDigit(s[i]))
    else Other
  }

  /** What the digit loop finds from i on: where it stops, the number read, and whether two
      underscores in a row stopped it. */
  datatype Scanned = Scanned(end: nat, value: nat, doubled: bool)

  function Scan(s: string, i: nat, base: nat, nondigit: bool, acc: nat): (r: Scanned)
    requires i <= |s|
    ensures i <= r.end <= |s|
    decreases |s| - i
  {
    match TokenAt(s, i, base)
    case Underscore => if nondigit then Scanned(i, acc, true) else Scan(s, i + 1, base, true, acc)
    case Digit(d) => Scan(s, i + 1, base, false, acc * base + d)
    case Other => Scanned(i, acc, false)
  }

  /** The integer a C string denotes. Strict reading rejects anything but one literal with
      white space around it; lenient reading takes the longest literal in front. */
  function Parse(s: string, base0: int, strict: bool): ParseResult {
    var p0 := SkipSpaces(s, 0);
    var neg := At(s, p0) == '-';
    var p1 := if p0 < |s| && At(s, p0) in "+-" then p0 + 1 else p0;
    var fail := if strict then BadString else Number(0);
    if At(s, p1) in "+-" then fail
    else
      var base := RealBase(s, p1, base0);
      if base < 2 || 36 < base then InvalidRadix
      else
        var p := DigitsStart(s, SkipPrefix(s, p1, base));
        if !TokenAt(s, p, base).Digit? then fail
        else
          var r := Scan(s, p, base, false, 0);
          if strict && (r.doubled || At(s, r.end - 1) == '_' || SkipSpaces(s, r.end) < |s|) then BadString
          else Number(Signed(!neg, r.value))
  }

  /** Bits that one digit of a radix can take. */
  function DigitBits(base: nat): nat
    requires 2 <= base <= 36
  {
    if base == 2 then 1 else if base == 3 then 2 else if base <= 8 then 3
    else if base <= 16 then 4 else if base <= 32 then 5 else 6
  }

  lemma BaseFits(base: nat)
    requires 2 <= base <= 36
    ensures base <= Pow2(DigitBits(base))
  {
    assert Pow2(1) == 2 && Pow2(2) == 4 && Pow2(3) == 8 && Pow2(4) == 16 && Pow2(5) == 32 && Pow2(6) == 64;
  }

  lemma {:induction false} PowBits(base: nat, n: nat)
    requires 2 <= base <= 36
    ensures Pow(base, n) <= Pow2(DigitBits(base) * n)
  {
    if n > 0 {
      PowBits(base, n - 1);
      var b := DigitBits(base);
      BaseFits(base);
      assert b * n == b + b * (n - 1) by { MulSub(b, n, 1); }
      Pow2Add(b, b * (n - 1));
      MulLe(base, Pow2(b), Pow(base, n - 1));
      MulLe(Pow(base, n - 1), Pow2(b * (n - 1)), Pow2(b));
    }
  }

  lemma {:induction false} Pow2Less(a: nat, b: nat)
    requires a < b
    ensures Pow2(a) < Pow2(b)
    decreases b
  {
    if a + 1 < b {
      Pow2Less(a, b - 1);
    }
  }

  /** The allocation rb_cstr_to_inum makes is enough for any n digits. */
  lemma AllocationSuffices(base: nat, n: nat, len: nat)
    requires 2 <= base <= 36 && len == DigitBits(base) * n / BITSPERDIG + 1
    ensures Pow(base, n) < Power(len)
  {
    PowBits(base, n);
    PowerIsPow2(len);
    var b := DigitBits(base) * n;
    assert b < BITSPERDIG * (b / BITSPERDIG + 1);
    Pow2Less(b, BITSPERDIG * len);
  }

  /** The digits from i0 on times base, plus the carry. */
  method MultiplyDigits(zds: array<Digit>, i0: nat, blen: nat, base: nat, num0: nat, ghost c: Digit,
                        ghost y: seq<Digit>)
    returns (num: nat)
    requires 2 <= base <= 36 && i0 <= blen <= zds.Length == |y| && num0 < base && (i0 == 0 ==> num0 == c)
    requires (forall k :: i0 <= k < zds.Length ==> zds[k] == y[k]) && (i0 == 0 ==> 0 < blen)
    requires Columns(zds[..], [c], y, base, i0, if i0 == 0 then 0 else num0)
    modifies zds
    ensures num < base && Columns(zds[..], [c], y, base, blen, num)
    ensures forall k :: blen <= k < zds.Length ==> zds[k] == y[k]
  {
    hide Val, Power, Columns;
    var i := i0;
    num := num0;
    while i < blen
      invariant i0 <= i <= blen && 0 <= num < base
      invariant i == 0 ==> num == c
      invariant forall k :: i <= k < zds.Length ==> zds[k] == y[k]
      invariant Columns(zds[..], [c], y, base, i, if i == 0 then 0 else num)
    {
      ghost var before, num1 := zds[..], if i == 0 then 0 else num;
      CarryBelowBase(zds[i], base, num);
      num := num + zds[i] * base;
      zds[i] := num % BIGRAD;
      num := num / BIGRAD;
      ColumnsStep(before, zds[..], [c], y, base, i, num1, num);
      i := i + 1;
    }
  }

  /** The inner loop: z := z * base + c over blen digits, growing when the carry spills over. */
  method MultiplyAdd(zds: array<Digit>, blen0: nat, base: nat, c: nat) returns (blen: nat)
    requires 2 <= base <= 36 && c < base && 1 <= blen0 <= zds.Length
    requires forall k :: blen0 <= k < zds.Length ==> zds[k] == 0
    requires base * Val(zds[..]) + c < Power(zds.Length)
    modifies zds
    ensures Val(zds[..]) == base * old(Val(zds[..])) + c
    ensures blen0 <= blen <= zds.Length && forall k :: blen <= k < zds.Length ==> zds[k] == 0
  {
    hide Val, Power, Columns;
    ghost var y := zds[..];
    blen := blen0;
    var i, num := 0, c;
    ColumnsStart(zds[..], [c], y, base);
    while true
      invariant blen0 <= blen <= zds.Length && 0 <= i <= blen && 0 <= num < base && (i == 0 ==> num == c)
      invariant forall k :: i <= k < zds.Length ==> zds[k] == y[k]
      invariant Columns(zds[..], [c], y, base, i, if i == 0 then 0 else num)
      decreases zds.Length - blen
    {
      num := MultiplyDigits(zds, i, blen, base, num, c, y);
      i := blen;
      if num == 0 { break; }
      ColumnsTail(zds[..], c, y, base, blen, num);
      SpillFits(Val(zds[..blen]), blen, zds.Length, num, base * Val(y) + c);
      blen := blen + 1;
    }
    ColumnsTail(zds[..], c, y, base, blen, 0);
    TrimValue(zds[..], blen);
    assert zds[..][..blen] == zds[..blen];
  }

  lemma CarryBelowBase(d: Digit, base: nat, num: nat)
    requires num < base <= 36
    ensures 0 <= num + d * base < BIGRAD * base && (num + d * base) / BIGRAD < base
  {
    MulLe(d, BIGRAD - 1, base);
    MulSub(base, BIGRAD, 1);
    DivLess(num + d * base, BIGRAD, base);
  }

  lemma ColumnsTail(z: seq<Digit>, c: Digit, y: seq<Digit>, base: nat, n: nat, num: nat)
    requires 1 <= n <= |z| == |y| && Columns(z, [c], y, base, n, num)
    requires forall k :: n <= k < |y| ==> y[k] == 0
    ensures Val(z[..n]) + Power(n) * num == base * Val(y) + c
  {
    TrimValue(y, n);
    assert Upto([c], n) == [c] by { if n == 1 { assert [c][..1] == [c]; } }
    ValOne([c]);
  }

  lemma SpillFits(low: nat, n: nat, len: nat, num: nat, total: nat)
    requires num > 0 && low + Power(n) * num == total < Power(len)
    ensures n < len
  {
    MulLe(1, num, Power(n));
    if n >= len {
      PowerMonotone(len, n);
    }
  }

  /** The digit loop from bigparse on. */
  method ReadDigits(s: string, p: nat, base: nat, sign: bool) returns (z: Bignum, end: nat, doubled: bool)
    requires 2 <= base <= 36 && p < |s|
    ensures fresh(z) && fresh(z.ds) && z.Valid() && z.sign == sign
    ensures Scan(s, p, base, false, 0) == Scanned(end, z.Mag(), doubled)
  {
    hide Val, Pow, Power, Scan, TokenAt;
    var len := DigitBits(base) * (|s| - p) / BITSPERDIG + 1;
    AllocationSuffices(base, |s| - p, len);
    z := new Bignum(len, sign);
    var zds := z.ds;
    forall k | 0 <= k < len { zds[k] := 0; }
    ValZero(zds[..]);
    var blen := 1;
    var nondigit := false;
    end := p;
    doubled := false;
    ghost var whole, acc := Scan(s, p, base, false, 0), 0;
    PowZero(base);
    var go := true;
    while go
      invariant p <= end <= |s| && 1 <= blen <= zds.Length
      invariant forall k :: blen <= k < zds.Length ==> zds[k] == 0
      invariant Val(zds[..]) == acc < Pow(base, end - p)
      invariant go ==> whole == Scan(s, end, base, nondigit, acc) && !doubled
      invariant !go ==> whole == Scanned(end, acc, doubled)
      decreases |s| - end, go
      modifies zds
    {
      ScanUnfold(s, end, base, nondigit, acc);
      var t := ReadToken(s, end, base);
      match t
      case Underscore =>
        if nondigit {
          doubled, go := true, false;
        } else {
          PowRoom(base, end - p, acc, 0, |s| - p);
          nondigit, end := true, end + 1;
        }
      case Digit(d) =>
        PowRoom(base, end - p, acc, d, |s| - p);
        nondigit := false;
        blen := MultiplyAdd(zds, blen, base, d);
        acc := acc * base + d;
        end := end + 1;
      case Other =>
        go := false;
    }
    assert zds[..] == z.ds[..z.len];
  }

  method ReadToken(s: string, i: nat, base: nat) returns (t: Token)
    requires i <= |s|
    ensures t == TokenAt(s, i, base)
    ensures t.Digit? ==> t.d < base && i < |s|
    ensures t.Underscore? ==> i < |s|
  {
    t := TokenAt(s, i, base);
  }

  lemma ScanUnfold(s: string, i: nat, base: nat, nondigit: bool, acc: nat)
    requires i <= |s|
    ensures Scan(s, i, base, nondigit, acc) ==
            match TokenAt(s, i, base)
            case Underscore => if nondigit then Scanned(i, acc, true) else Scan(s, i + 1, base, true, acc)
            case Digit(d) => Scan(s, i + 1, base, false, acc * base + d)
            case Other => Scanned(i, acc, false)
  {
  }

  /** One more character keeps the number below the power its length allows. */
  lemma PowRoom(base: nat, n: nat, acc: nat, d: nat, most: nat)
    requires base >= 2 && acc < Pow(base, n) && d < base && n < most
    ensures acc < Pow(base, n + 1) && acc * base + d < Pow(base, n + 1) <= Pow(base, most)
    ensures acc * base == base * acc
  {
    MulLe(acc + 1, Pow(base, n), base);
    MulAdd(base, acc, 1);
    MulLe(1, base, acc);
    PowAdd(base, n + 1, most - n - 1);
    MulLe(1, Pow(base, most - n - 1), Pow(base, n + 1));
  }

  /** White space in front of the sign and the digits is skipped. */
  method SkipWhite(s: string, i: nat) returns (j: nat)
    requires i <= |s|
    ensures j == SkipSpaces(s, i)
  {
    j := i;
    while j < |s| && IsSpace(s[j])
      invariant i <= j <= |s| && SkipSpaces(s, i) == SkipSpaces(s, j)
    {
      j := j + 1;
    }
  }

  /** The loop that squeezes preceding zeros. */
  method SkipZeros(s: string, p: nat) returns (j: nat)
    requires p <= |s|
    ensures j == DigitsStart(s, p)
  {
    j := p;
    if At(s, j) == '0' && j < |s| {
      var us := 0;
      j := j + 1;
      while j < |s| && (s[j] == '0' || s[j] == '_')
        invariant p < j <= |s| && 0 <= us < 2
        invariant SqueezeZeros(s, p + 1, 0) == SqueezeZeros(s, j, us)
      {
        if s[j] == '_' {
          us := us + 1;
          if us >= 2 { break; }
        } else {
          us := 0;
        }
        j := j + 1;
      }
      if j == |s| || IsSpace(s[j]) { j := j - 1; }
    }
  }

  /** STRTOUL on a string that starts with a digit of the radix, taken to be exact. */
  method Strtoul(s: string, p: nat, base: nat) returns (val: nat, end: nat)
    requires 2 <= base <= 36 && p <= |s|
    ensures p <= end <= |s| && val < Pow(base, |s| - p)
    ensures Scan(s, p, base, false, 0) == Scan(s, end, base, false, val)
    ensures !TokenAt(s, end, base).Digit?
    ensures TokenAt(s, p, base).Digit? ==> p < end && s[end - 1] != '_'
  {
    hide Pow, Scan, TokenAt;
    val, end := 0, p;
    PowZero(base);
    var t := ReadToken(s, end, base);
    while t.Digit?
      invariant p <= end <= |s| && t == TokenAt(s, end, base)
      invariant val < Pow(base, end - p)
      invariant Scan(s, p, base, false, 0) == Scan(s, end, base, false, val)
      invariant end > p ==> s[end - 1] != '_'
      invariant t.Digit? ==> end < |s|
      invariant end == p ==> t == TokenAt(s, p, base)
      decreases |s| - end
    {
      ScanUnfold(s, end, base, false, val);
      TokenNotUnderscore(s, end, base);
      PowRoom(base, end - p, val, t.d, |s| - p);
      val := val * base + t.d;
      end := end + 1;
      t := ReadToken(s, end, base);
      TokenInside(s, end, base);
    }
    PowGrows(base, end - p, |s| - p);
  }

  lemma TokenNotUnderscore(s: string, i: nat, base: nat)
    requires TokenAt(s, i, base).Digit?
    ensures i < |s| && s[i] != '_'
  {
  }

  lemma TokenInside(s: string, i: nat, base: nat)
    ensures TokenAt(s, i, base).Digit? ==> i < |s|
  {
  }

  lemma PowGrows(base: nat, m: nat, n: nat)
    requires base >= 1 && m <= n
    ensures Pow(base, m) <= Pow(base, n)
  {
    PowAdd(base, m, n - m);
    MulLe(1, Pow(base, n - m), Pow(base, m));
  }

  datatype Status = Bad | BadRadix | Good

  /** A status and a bignum report a parse result. */
  ghost predicate Reports(status: Status, z: Bignum, r: ParseResult)
    reads z, z.ds
  {
    match r
    case BadString => status == Bad
    case InvalidRadix => status == BadRadix
    case Number(v) => status == Good && z.Valid() && z.Int() == v
  }

  /** rb_cstr_to_inum: both the single-word path and the multi-precision path yield the value the
      literal denotes. */
  method CstrToInum(s: string, base0: int, badcheck: bool) returns (status: Status, z: Bignum)
    ensures fresh(z) && fresh(z.ds) && Reports(status, z, Parse(s, base0, badcheck))
  {
    hide Val, Pow, Scan, SkipSpaces, DigitsStart, Power;
    z := new Bignum.FromDigit(0, true);
    var fail := if badcheck then Bad else Good;
    var str := SkipWhite(s, 0);
    var sign := At(s, str) != '-';
    if str < |s| && At(s, str) in "+-" { str := str + 1; }
    if At(s, str) in "+-" { return fail, z; }
    var base := RealBase(s, str, base0);
    if base < 2 || 36 < base { return BadRadix, z; }
    str := SkipZeros(s, SkipPrefix(s, str, base));
    var c := ReadToken(s, str, base);
    if !c.Digit? { return fail, z; }
    status, z := ReadLiteral(s, str, base, sign, badcheck);
  }

  /** rb_cstr_to_inum from the first digit on. */
  method ReadLiteral(s: string, str: nat, base: nat, sign: bool, badcheck: bool) returns (status: Status, z: Bignum)
    requires 2 <= base <= 36 && TokenAt(s, str, base).Digit?
    ensures fresh(z) && fresh(z.ds)
    ensures var r := Scan(s, str, base, false, 0);
            Reports(status, z,
                    if badcheck && (r.doubled || At(s, r.end - 1) == '_' || SkipSpaces(s, r.end) < |s|) then BadString
                    else Number(Signed(sign, r.value)))
  {
    hide Val, Pow, Scan, SkipSpaces, Power;
    TokenInside(s, str, base);
    var len := DigitBits(base) * (|s| - str);
    if len <= BITSPERDIG {
      var val, end := Strtoul(s, str, base);
      var t := ReadToken(s, end, base);
      if !(str < end && t.Underscore?) {
        ScanUnfold(s, end, base, false, val);
        WordFits(base, |s| - str);
        z := new Bignum.FromDigit(val, sign);
        if badcheck {
          end := SkipWhite(s, end);
          if end < |s| { return Bad, z; }
        }
        return Good, z;
      }
    }
    var end, doubled;
    ScanStarts(s, str, base);
    z, end, doubled := ReadDigits(s, str, base, sign);
    if badcheck {
      if doubled || At(s, end - 1) == '_' { return Bad, z; }
      end := SkipWhite(s, end);
      if end < |s| { return Bad, z; }
    }
    return Good, z;
  }

  lemma ScanStarts(s: string, i: nat, base: nat)
    requires i <= |s| && TokenAt(s, i, base).Digit?
    ensures Scan(s, i, base, false, 0).end > i
  {
  }

  lemma WordFits(base: nat, n: nat)
    requires 2 <= base <= 36 && DigitBits(base) * n <= BITSPERDIG
    ensures Pow(base, n) <= BIGRAD
  {
    hide Pow, Pow2, DigitBits;
    var bits := DigitBits(base) * n;
    PowBits(base, n);
    Pow2Digit();
    if bits < BITSPERDIG { Pow2Less(bits, BITSPERDIG); }
  }

  /** Scanning a string of digits reads what they denote. */
  lemma {:induction false} ScanDigits(s: string, i: nat, base: nat)
    requires 2 <= base <= 36 && i <= |s| && AllDigits(s[i..], base)
    ensures Scan(s, i, base, false, Denoted(s[..i], base)) == Scanned(|s|, Denoted(s, base), false)
    decreases |s| - i
  {
    if i == |s| {
      assert s[..i] == s;
    } else {
      assert s[i] == s[i..][0];
      assert s[..i + 1][..i] == s[..i];
      assert s[i + 1..] == s[i..][1..];
      ScanDigits(s, i + 1, base);
    }
  }

  lemma TokenShift(a: string, s: string, i: nat, base: nat)
    requires i <= |s|
    ensures TokenAt(a + s, |a| + i, base) == TokenAt(s, i, base)
  {
  }

  /** Scanning ignores what lies before the starting position. */
  lemma {:induction false} ScanShift(a: string, s: string, i: nat, base: nat, nondigit: bool, acc: nat)
    requires i <= |s|
    ensures var r := Scan(s, i, base, nondigit, acc);
            Scan(a + s, |a| + i, base, nondigit, acc) == Scanned(|a| + r.end, r.value, r.doubled)
    decreases |s| - i
  {
    hide TokenAt, Scan;
    var t := a + s;
    TokenShift(a, s, i, base);
    ScanUnfold(s, i, base, nondigit, acc);
    ScanUnfold(t, |a| + i, base, nondigit, acc);
    match TokenAt(s, i, base)
    case Underscore => if !nondigit { ScanShift(a, s, i + 1, base, true, acc); }
    case Digit(d) => ScanShift(a, s, i + 1, base, false, acc * base + d);
    case Other =>
  }

  /** Scanning a literal with an optional sign in front reads its digits to the end. */
  lemma ScanLiteral(a: string, digits: string, base: nat)
    requires 2 <= base <= 36 && AllDigits(digits, base)
    ensures Scan(a + digits, |a|, base, false, 0) == Scanned(|a + digits|, Denoted(digits, base), false)
  {
    assert digits[0..] == digits && digits[..0] == "";
    ScanDigits(digits, 0, base);
    ScanShift(a, digits, 0, base, false, 0);
  }

  /** A signed literal without leading zeros is read as what it denotes. */
  lemma LiteralParses(neg: bool, digits: string, base: nat, strict: bool)
    requires 2 <= base <= 36 && AllDigits(digits, base) && digits != ""
    requires digits[0] != '0' || digits == "0"
    ensures Parse((if neg then "-" else "") + digits, base, strict) == Number(Signed(!neg, Denoted(digits, base)))
  {
    hide Scan, Denoted;
    var a := if neg then "-" else "";
    var s, p := a + digits, |a|;
    assert s[p] == digits[0] && s[|s| - 1] == digits[|digits| - 1];
    assert SkipSpaces(s, 0) == 0;
    assert SkipPrefix(s, p, base) == p;
    assert DigitsStart(s, p) == p;
    ScanLiteral(a, digits, base);
    assert SkipSpaces(s, |s|) == |s|;
  }

  /** Printing then parsing is the identity, for every integer and every base, strict or not. */
  lemma PrintThenParse(v: int, base: nat, strict: bool)
    requires 2 <= base <= 36
    ensures Parse(Text(v, base), base, strict) == Number(v)
  {
    hide Parse, Canonical;
    if v == 0 {
      ZeroDigits(base);
      LiteralParses(false, "0", base, strict);
      assert "" + "0" == "0";
    } else {
      var x := if v < 0 then -v else v;
      CanonicalFacts(x, base);
      LiteralParses(v < 0, Canonical(x, base), base, strict);
      assert "" + Canonical(x, base) == Canonical(x, base);
    }
  }

  lemma ZeroDigits(base: nat)
    requires 2 <= base
    ensures AllDigits("0", base) && Denoted("0", base) == 0
  {
    assert "0"[..0] == "";
  }
}
