/** Which strings are integer literals and what they mean, by their parts: the law rb_cstr_to_inum keeps. */
module Literals {
  import opened Bignums
  import opened Radix
  import opened BigParse

  /** The characters that count as white space. */
  predicate Blank(c: char) {
    c in [' ', '\t', '\n', '\U{000B}', '\U{000C}', '\r']
  }

  predicate Blanks(s: string, i: nat, j: nat)
    requires i <= j <= |s|
  {
    forall k :: i <= k < j ==> Blank(s[k])
  }

  predicate IsDigit(c: char, radix: nat) {
    0 <= ConvDigit(c) < radix
  }

  /** The letters that stand behind a zero in front of the digits of a radix. */
  function Letters(radix: nat): string {
    if radix == 2 then "bB" else if radix == 8 then "oO" else if radix == 10 then "dD" else if radix == 16
        then "xX" else ""
  }

  /** Where the parts of a literal begin, and where it ends. */
  datatype Cut = Cut(sign: nat, prefix: nat, digits: nat, end: nat)

  predicate InOrder(s: string, cut: Cut) {
    cut.sign <= cut.prefix <= cut.digits < cut.end <= |s|
  }

  /** Digits of the radix from i to j, single underscores between them. */
  predicate Grouped(s: string, i: nat, j: nat, radix: nat)
    requires j <= |s|
  {
    && i < j && IsDigit(s[i], radix) && IsDigit(s[j - 1], radix)
    && (forall k :: i <= k < j ==> IsDigit(s[k], radix) || s[k] == '_')
    && (forall k :: i < k < j ==> s[k - 1] != '_' || s[k] != '_')
  }

  /** The radix a literal has: that of its prefix, which an explicit base has to agree with; without one the explicit
      base, or 8 behind a zero, or the base negated, or 10. */
  predicate Announced(s: string, cut: Cut, base: int, radix: nat)
    requires InOrder(s, cut)
  {
    var prefix := s[cut.prefix..cut.digits];
    && 2 <= radix <= 36 && (base > 0 ==> radix == base)
    && if prefix != "" then |prefix| == 2 && prefix[0] == '0' && prefix[1] in Letters(radix)
       else base > 0 || radix == if s[cut.digits] == '0' then 8 else if base < -1 then -base else 10
  }

  /** The string begins with a literal: white space, a sign, a prefix, digits. */
  predicate Literal(s: string, cut: Cut, base: int, radix: nat): (b: bool)
    ensures b ==> InOrder(s, cut)
  {
    && InOrder(s, cut) && Blanks(s, 0, cut.sign)
    && s[cut.sign..cut.prefix] in ["", "+", "-"]
    && Announced(s, cut, base, radix)
    && Grouped(s, cut.digits, cut.end, radix)
  }

  /** Nothing but white space follows. */
  predicate Alone(s: string, cut: Cut)
    requires InOrder(s, cut)
  {
    Blanks(s, cut.end, |s|)
  }

  /** The literal does not go on behind its end, nor is its zero the beginning of a prefix. */
  predicate Longest(s: string, cut: Cut, base: int, radix: nat)
    requires InOrder(s, cut)
  {
    cut.end < |s| ==>
      && !IsDigit(s[cut.end], radix)
      && (s[cut.end] == '_' && cut.end + 1 < |s| ==> !IsDigit(s[cut.end + 1], radix))
      && (cut.prefix == cut.digits && cut.end == cut.digits + 1 && s[cut.digits] == '0' ==>
            s[cut.end] !in if base > 0 then Letters(radix) else "xXbBoOdD")
  }

  /** Without its underscores. */
  function Dense(t: string): string {
    if t == "" then ""
    else
      var n := |t| - 1;
      if t[n] == '_' then Dense(t[..n]) else Dense(t[..n]) + [t[n]]
  }

  /** What the digits denote, with the sign. */
  function Meaning(s: string, cut: Cut, radix: nat): int
    requires InOrder(s, cut)
  {
    var x: int := Denoted(Dense(s[cut.digits..cut.end]), radix);
    if s[cut.sign..cut.prefix] == "-" then -x else x
  }

  // ----- characters -----

  lemma BlankSpace(c: char)
    ensures Blank(c) <==> IsSpace(c)
  {
  }

  lemma DigitIsPlain(c: char, radix: nat)
    requires radix <= 36 && IsDigit(c, radix)
    ensures !IsSpace(c) && c !in "+-" && c != '_'
  {
  }

  /** A letter of a prefix is no digit of its radix. */
  lemma LetterNoDigit(c: char, radix: nat)
    requires c in Letters(radix)
    ensures !IsDigit(c, radix) && c in "xXbBoOdD" && c != '_' && !Blank(c)
  {
  }

  // ----- white space -----

  lemma {:induction false} SkipTo(s: string, i: nat, j: nat)
    requires i <= j <= |s| && Blanks(s, i, j) && (j < |s| ==> !IsSpace(s[j]))
    ensures SkipSpaces(s, i) == j
    decreases j - i
  {
    if i < j {
      BlankSpace(s[i]);
      SkipTo(s, i + 1, j);
    }
  }

  lemma {:induction false} SkippedBlank(s: string, i: nat)
    requires i <= |s|
    ensures var j := SkipSpaces(s, i); Blanks(s, i, j) && (j < |s| ==> !IsSpace(s[j]))
    decreases |s| - i
  {
    if i < |s| {
      BlankSpace(s[i]);
      if IsSpace(s[i]) { SkippedBlank(s, i + 1); }
    }
  }

  // ----- scanning -----

  /** The scan has come to k with the number that the characters so far denote. */
  lemma {:induction false} ScanTo(s: string, i: nat, k: nat, j: nat, radix: nat)
    requires 2 <= radix <= 36 && i < k <= j <= |s| && Grouped(s, i, j, radix)
    ensures Scan(s, i, radix, false, 0) == Scan(s, k, radix, s[k - 1] == '_', Denoted(Dense(s[i..k]), radix))
    decreases k
  {
    hide Scan, ConvDigit, Grouped, IsDigit, Dense, Denoted;
    var t := s[i..k];
    assert t[..|t| - 1] == s[i..k - 1] && t[|t| - 1] == s[k - 1];
    GroupedAt(s, i, j, radix, k - 1);
    DenseSnoc(t, radix);
    if k - 1 > i {
      ScanTo(s, i, k - 1, j, radix);
      ScanStep(s, k - 1, radix, s[k - 2] == '_', Denoted(Dense(s[i..k - 1]), radix));
    } else {
      DenseNone(s[i..i], radix);
      ScanStep(s, i, radix, false, 0);
    }
    if s[k - 1] != '_' { DigitIsPlain(s[k - 1], radix); }
  }

  lemma GroupedAt(s: string, i: nat, j: nat, radix: nat, k: nat)
    requires j <= |s| && Grouped(s, i, j, radix) && i <= k < j
    ensures IsDigit(s[k], radix) || s[k] == '_'
    ensures k == i ==> IsDigit(s[k], radix) && s[k] != '_'
    ensures k > i && s[k - 1] == '_' ==> s[k] != '_'
  {
  }

  lemma DenseNone(t: string, radix: nat)
    requires t == ""
    ensures Denoted(Dense(t), radix) == 0
  {
  }

  lemma DenseSnoc(t: string, radix: nat)
    requires t != "" && (t[|t| - 1] == '_' || IsDigit(t[|t| - 1], radix))
    ensures var c, before := t[|t| - 1], Denoted(Dense(t[..|t| - 1]), radix);
            Denoted(Dense(t), radix) == if c == '_' then before else before * radix + ConvDigit(c)
  {
    var n := |t| - 1;
    if t[n] != '_' {
      var d := Dense(t);
      assert d[..|d| - 1] == Dense(t[..n]);
    }
  }

  lemma ScanStep(s: string, k: nat, radix: nat, nondigit: bool, acc: nat)
    requires 2 <= radix <= 36 && k < |s| && (IsDigit(s[k], radix) || (s[k] == '_' && !nondigit))
    ensures Scan(s, k, radix, nondigit, acc) ==
            if s[k] == '_' then Scan(s, k + 1, radix, true, acc)
            else Scan(s, k + 1, radix, false, acc * radix + ConvDigit(s[k]))
  {
    ScanUnfold(s, k, radix, nondigit, acc);
    if s[k] != '_' { DigitIsPlain(s[k], radix); }
  }

  /** Digits of the radix and single underscores are all that a scan passes. */
  lemma {:induction false} ScanGrouped(s: string, i: nat, radix: nat, nondigit: bool, acc: nat)
    requires 2 <= radix <= 36 && i <= |s|
    ensures var e := Scan(s, i, radix, nondigit, acc).end;
            && (forall k :: i <= k < e ==> IsDigit(s[k], radix) || s[k] == '_')
            && (forall k :: i < k < e ==> s[k - 1] != '_' || s[k] != '_')
            && (nondigit && i < e ==> s[i] != '_')
            && (e < |s| ==> !IsDigit(s[e], radix))
            && (e < |s| && s[e] == '_' ==> if e > i then s[e - 1] == '_' else nondigit)
    decreases |s| - i
  {
    hide Scan, ConvDigit;
    ScanUnfold(s, i, radix, nondigit, acc);
    TokenIs(s, i, radix);
    match TokenAt(s, i, radix)
    case Underscore => if !nondigit { ScanGrouped(s, i + 1, radix, true, acc); }
    case Digit(d) => ScanGrouped(s, i + 1, radix, false, acc * radix + d);
    case Other =>
  }

  lemma TokenIs(s: string, i: nat, radix: nat)
    requires radix <= 36
    ensures TokenAt(s, i, radix).Digit? <==> i < |s| && IsDigit(s[i], radix)
    ensures TokenAt(s, i, radix).Underscore? <==> i < |s| && s[i] == '_'
  {
    if i < |s| && IsDigit(s[i], radix) { DigitIsPlain(s[i], radix); }
  }

  // ----- leading zeros -----

  /** Squeezing zeros is scanning them. */
  lemma {:induction false} SqueezeScans(s: string, i: nat, us: nat, radix: nat)
    requires 2 <= radix <= 36 && i <= |s| && us <= 1
    ensures var j := SqueezeZeros(s, i, us);
            Scan(s, i, radix, us == 1, 0) == Scan(s, j, radix, if j > i then s[j - 1] == '_' else us == 1, 0)
    decreases |s| - i
  {
    hide Scan;
    ScanUnfold(s, i, radix, us == 1, 0);
    if At(s, i) == '0' && i < |s| {
      assert ConvDigit('0') == 0;
      SqueezeScans(s, i + 1, 0, radix);
    } else if At(s, i) == '_' && i < |s| && us == 0 {
      SqueezeScans(s, i + 1, 1, radix);
    }
  }

  /** Where squeezing stops: behind zeros and single underscores, at something else. */
  lemma {:induction false} Squeezed(s: string, i: nat, us: nat)
    requires 1 <= i <= |s| && us <= 1 && s[i - 1] == if us == 1 then '_' else '0'
    ensures var j := SqueezeZeros(s, i, us);
            && (forall k :: i - 1 <= k < j ==> s[k] in "0_")
            && (j < |s| ==> s[j] != '0' && (s[j] == '_' ==> s[j - 1] == '_'))
    decreases |s| - i
  {
    if At(s, i) == '0' && i < |s| {
      Squeezed(s, i + 1, 0);
    } else if At(s, i) == '_' && i < |s| && us == 0 {
      Squeezed(s, i + 1, 1);
    }
  }

  /** Starting behind the zeros finds the same number and the same end, if there is a digit to start at. */
  lemma StartSame(s: string, c: nat, radix: nat)
    requires 2 <= radix <= 36 && c <= |s| && TokenAt(s, DigitsStart(s, c), radix).Digit?
    ensures Scan(s, c, radix, false, 0) == Scan(s, DigitsStart(s, c), radix, false, 0)
    ensures c < |s| && IsDigit(s[c], radix)
  {
    hide Scan, ConvDigit, SqueezeZeros;
    assert ConvDigit('0') == 0 by { DigitOrder('0'); }
    var p := DigitsStart(s, c);
    TokenIs(s, p, radix);
    if At(s, c) == '0' && c < |s| {
      var j := SqueezeZeros(s, c + 1, 0);
      SqueezeScans(s, c + 1, 0, radix);
      Squeezed(s, c + 1, 0);
      ScanStep(s, c, radix, false, 0);
      if p == j {
        ScanUnfold(s, j, radix, true, 0);
        ScanUnfold(s, j, radix, false, 0);
      } else {
        assert s[p] in "0_";
        DigitIsPlain(s[p], radix);
        ScanStep(s, p, radix, false, 0);
      }
    }
  }

  // ----- what stands in front of the digits -----

  lemma SignFound(s: string, cut: Cut, base: int, radix: nat)
    requires Literal(s, cut, base, radix)
    ensures SkipSpaces(s, 0) == cut.sign && At(s, cut.prefix) !in "+-"
    ensures cut.prefix == if cut.sign < |s| && At(s, cut.sign) in "+-" then cut.sign + 1 else cut.sign
    ensures At(s, cut.sign) == '-' <==> s[cut.sign..cut.prefix] == "-"
  {
    hide SkipSpaces, ConvDigit;
    var sign := s[cut.sign..cut.prefix];
    PlainStart(s, cut, base, radix);
    assert sign != "" ==> sign[0] == s[cut.sign];
    SkipTo(s, 0, cut.sign);
  }

  /** Behind the sign stands a figure or a digit. */
  lemma PlainStart(s: string, cut: Cut, base: int, radix: nat)
    requires Literal(s, cut, base, radix)
    ensures !IsSpace(s[cut.prefix]) && s[cut.prefix] !in "+-" && s[cut.prefix] != '_'
  {
    hide ConvDigit, Grouped, Letters;
    GroupedAt(s, cut.digits, cut.end, radix, cut.digits);
    DigitIsPlain(s[cut.digits], radix);
    var prefix := s[cut.prefix..cut.digits];
    assert prefix != "" ==> prefix[0] == s[cut.prefix];
  }

  lemma RadixFound(s: string, cut: Cut, base: int, radix: nat)
    requires Literal(s, cut, base, radix) && Longest(s, cut, base, radix)
    ensures RealBase(s, cut.prefix, base) == radix && SkipPrefix(s, cut.prefix, radix) == cut.digits
  {
    hide ConvDigit, Grouped;
    var prefix := s[cut.prefix..cut.digits];
    if prefix != "" {
      assert prefix[0] == s[cut.prefix] && prefix[1] == s[cut.prefix + 1];
    } else {
      SecondCharacter(s, cut, base, radix);
    }
  }

  /** Without a prefix a zero is not followed by a letter of one. */
  lemma SecondCharacter(s: string, cut: Cut, base: int, radix: nat)
    requires Literal(s, cut, base, radix) && Longest(s, cut, base, radix) && cut.prefix == cut.digits
    ensures s[cut.digits] == '0' && cut.digits + 1 < |s| ==>
            s[cut.digits + 1] !in if base > 0 then Letters(radix) else "xXbBoOdD"
  {
    hide Grouped, Letters;
    var k := cut.digits + 1;
    if s[cut.digits] == '0' && k < cut.end {
      GroupedAt(s, cut.digits, cut.end, radix, k);
      if s[k] in Letters(radix) { LetterNoDigit(s[k], radix); }
      OctalDigit(s[k]);
    }
  }

  lemma OctalDigit(c: char)
    ensures IsDigit(c, 8) || c == '_' ==> c !in "xXbBoOdD"
  {
  }

  // ----- reading -----

  /** The digits are found, unless they are zeros with more than white space behind them. */
  lemma StartFound(s: string, cut: Cut, base: int, radix: nat)
    requires Literal(s, cut, base, radix)
    ensures TokenAt(s, DigitsStart(s, cut.digits), radix).Digit?
            || (!Alone(s, cut) && forall k :: cut.digits <= k < cut.end ==> s[k] in "0_")
  {
    hide ConvDigit, SqueezeZeros, Grouped;
    var c := cut.digits;
    var p := DigitsStart(s, c);
    TokenIs(s, p, radix);
    GroupedAt(s, c, cut.end, radix, c);
    if s[c] == '0' {
      var j := SqueezeZeros(s, c + 1, 0);
      Squeezed(s, c + 1, 0);
      if j < cut.end {
        GroupedAt(s, c, cut.end, radix, j);
        DigitIsPlain(s[j], radix);
      } else {
        LastDigit(s, cut, base, radix);
        if Alone(s, cut) && j > cut.end { assert s[cut.end] in "0_" && Blank(s[cut.end]); }
        if j < |s| { BlankSpace(s[j]); }
      }
    }
  }

  lemma LastDigit(s: string, cut: Cut, base: int, radix: nat)
    requires Literal(s, cut, base, radix)
    ensures IsDigit(s[cut.end - 1], radix) && s[cut.end - 1] != '_'
  {
    DigitIsPlain(s[cut.end - 1], radix);
  }

  lemma {:induction false} ZerosMean(t: string, radix: nat)
    requires radix >= 2 && forall k :: 0 <= k < |t| ==> t[k] in "0_"
    ensures Denoted(Dense(t), radix) == 0
    decreases |t|
  {
    hide Dense, Denoted, ConvDigit;
    if t == "" {
      DenseNone(t, radix);
    } else {
      ZerosMean(t[..|t| - 1], radix);
      DigitOrder('0');
      DenseSnoc(t, radix);
      assert 0 * radix == 0;
    }
  }

  /** The scan from the digits on stops behind the literal. */
  lemma ScanEnds(s: string, cut: Cut, base: int, radix: nat)
    requires Literal(s, cut, base, radix) && Longest(s, cut, base, radix)
    ensures var r := Scan(s, cut.digits, radix, false, 0);
            && r.value == Denoted(Dense(s[cut.digits..cut.end]), radix)
            && (Alone(s, cut) ==> r.end == cut.end && !r.doubled)
  {
    hide Scan, ConvDigit, Dense, Denoted, Grouped;
    var acc := Denoted(Dense(s[cut.digits..cut.end]), radix);
    LastDigit(s, cut, base, radix);
    ScanTo(s, cut.digits, cut.end, cut.end, radix);
    ScanUnfold(s, cut.end, radix, false, acc);
    TokenIs(s, cut.end, radix);
    if cut.end < |s| {
      ScanUnfold(s, cut.end + 1, radix, true, acc);
      TokenIs(s, cut.end + 1, radix);
    }
  }

  /** A literal is read as what it means; strict reading wants nothing but white space behind it. */
  lemma LiteralValue(s: string, cut: Cut, base: int, radix: nat, strict: bool)
    requires Literal(s, cut, base, radix) && Longest(s, cut, base, radix) && (strict ==> Alone(s, cut))
    ensures Parse(s, base, strict) == Number(Meaning(s, cut, radix))
  {
    hide Scan, ConvDigit, Dense, Denoted, Grouped, SkipSpaces, RealBase, SkipPrefix, DigitsStart, TokenAt, Longest;
    hide Letters;
    SignFound(s, cut, base, radix);
    RadixFound(s, cut, base, radix);
    StartFound(s, cut, base, radix);
    var p := DigitsStart(s, cut.digits);
    if TokenAt(s, p, radix).Digit? {
      StartSame(s, cut.digits, radix);
      ScanEnds(s, cut, base, radix);
      LastDigit(s, cut, base, radix);
      if strict { SkipTo(s, cut.end, |s|); }
    } else {
      ZerosMean(s[cut.digits..cut.end], radix);
    }
  }

  /** White space behind the literal ends it. */
  lemma AloneLongest(s: string, cut: Cut, base: int, radix: nat)
    requires Literal(s, cut, base, radix) && Alone(s, cut)
    ensures Longest(s, cut, base, radix)
  {
    hide ConvDigit, Grouped;
    if cut.end < |s| {
      BlankSpace(s[cut.end]);
      if IsDigit(s[cut.end], radix) { DigitIsPlain(s[cut.end], radix); }
    }
  }

  // ----- what is read is a literal -----

  /** Where the sign begins and where it ends. */
  predicate Front(s: string, sign: nat, prefix: nat) {
    && sign <= prefix <= |s| && Blanks(s, 0, sign) && (sign < |s| ==> !Blank(s[sign]))
    && prefix == if sign < |s| && s[sign] in "+-" then sign + 1 else sign
  }

  lemma FrontIs(s: string, sign: nat, prefix: nat)
    requires Front(s, sign, prefix)
    ensures SkipSpaces(s, 0) == sign
  {
    if sign < |s| { BlankSpace(s[sign]); }
    SkipTo(s, 0, sign);
  }

  lemma SignText(s: string, sign: nat, prefix: nat)
    requires Front(s, sign, prefix)
    ensures s[sign..prefix] in ["", "+", "-"]
  {
    assert s[sign..prefix] == if prefix > sign then [s[sign]] else [];
  }

  /** Where reading starts behind the sign. */
  function SignEnd(s: string): (prefix: nat)
    ensures Front(s, SkipSpaces(s, 0), prefix)
  {
    var sign := SkipSpaces(s, 0);
    SkippedBlank(s, 0);
    if sign < |s| then BlankSpace(s[sign]); if s[sign] in "+-" then sign + 1 else sign else sign
  }

  /** Whether a radix is found and a digit to start at. */
  predicate Readable(s: string, base: int) {
    var prefix := SignEnd(s);
    && At(s, prefix) !in "+-" && 2 <= RealBase(s, prefix, base) <= 36
    && var radix := RealBase(s, prefix, base);
       TokenAt(s, DigitsStart(s, SkipPrefix(s, prefix, radix)), radix).Digit?
  }

  /** What is read, from its first digit on. */
  function Scanning(s: string, base: int): Scanned
    requires Readable(s, base)
  {
    var radix := RealBase(s, SignEnd(s), base);
    Scan(s, DigitsStart(s, SkipPrefix(s, SignEnd(s), radix)), radix, false, 0)
  }

  /** The literal that is read. */
  lemma ReadLiteral(s: string, base: int) returns (cut: Cut, radix: nat)
    requires Readable(s, base)
    ensures radix == RealBase(s, SignEnd(s), base) && Literal(s, cut, base, radix) && Longest(s, cut, base, radix)
    ensures var r := Scanning(s, base);
            0 < r.end && cut.end == if s[r.end - 1] == '_' then r.end - 1 else r.end
  {
    hide Scan, ConvDigit, RealBase, SkipPrefix, DigitsStart, TokenAt, Grouped, Longest, Announced;
    var prefix := SignEnd(s);
    radix := RealBase(s, prefix, base);
    var c := SkipPrefix(s, prefix, radix);
    StartSame(s, c, radix);
    var e := Scan(s, c, radix, false, 0).end;
    var end := ScannedGroup(s, c, radix);
    cut := Cut(SkipSpaces(s, 0), prefix, c, end);
    SignText(s, cut.sign, prefix);
    PrefixAnnounced(s, cut, base, radix);
    NoFurther(s, cut, base, radix);
  }

  /** The characters of a scan, but for an underscore at the end, are grouped digits, and do not go on. */
  lemma ScannedGroup(s: string, c: nat, radix: nat) returns (end: nat)
    requires 2 <= radix <= 36 && c < |s| && IsDigit(s[c], radix)
    ensures var e := Scan(s, c, radix, false, 0).end; c < e && end == if s[e - 1] == '_' then e - 1 else e
    ensures end <= |s| && Grouped(s, c, end, radix)
    ensures end < |s| ==> !IsDigit(s[end], radix)
    ensures end + 1 < |s| && s[end] == '_' ==> !IsDigit(s[end + 1], radix)
  {
    hide Scan, ConvDigit;
    DigitIsPlain(s[c], radix);
    ScanGrouped(s, c, radix, false, 0);
    ScanStep(s, c, radix, false, 0);
    var e := Scan(s, c, radix, false, 0).end;
    end := if s[e - 1] == '_' then e - 1 else e;
    if end < |s| && IsDigit(s[end], radix) { DigitIsPlain(s[end], radix); }
  }

  lemma PrefixAnnounced(s: string, cut: Cut, base: int, radix: nat)
    requires InOrder(s, cut) && Front(s, cut.sign, cut.prefix) && 2 <= radix <= 36
    requires radix == RealBase(s, cut.prefix, base) && cut.digits == SkipPrefix(s, cut.prefix, radix)
    requires IsDigit(s[cut.digits], radix)
    ensures Announced(s, cut, base, radix)
  {
    hide ConvDigit;
    var prefix := s[cut.prefix..cut.digits];
    if prefix != "" {
      assert prefix[0] == s[cut.prefix] && prefix[1] == s[cut.prefix + 1];
    } else {
      assert s[cut.digits] == At(s, cut.prefix);
    }
  }

  lemma NoFurther(s: string, cut: Cut, base: int, radix: nat)
    requires InOrder(s, cut) && 2 <= radix <= 36
    requires radix == RealBase(s, cut.prefix, base) && cut.digits == SkipPrefix(s, cut.prefix, radix)
    requires cut.end < |s| ==> !IsDigit(s[cut.end], radix)
    requires cut.end + 1 < |s| && s[cut.end] == '_' ==> !IsDigit(s[cut.end + 1], radix)
    ensures Longest(s, cut, base, radix)
  {
    hide IsDigit;
  }

  lemma ParseUnfold(s: string, base: int, strict: bool)
    ensures Readable(s, base) ==>
              var r := Scanning(s, base);
              Parse(s, base, strict) ==
              if strict && (r.doubled || At(s, r.end - 1) == '_' || SkipSpaces(s, r.end) < |s|) then BadString
              else Number(Signed(At(s, SkipSpaces(s, 0)) != '-', r.value))
    ensures !Readable(s, base) ==> Parse(s, base, strict) in [InvalidRadix, if strict then BadString else Number(0)]
  {
    hide Scan, ConvDigit, RealBase, SkipPrefix, DigitsStart, TokenAt, SkipSpaces, Front, Signed;
  }

  // ----- the law of literals -----

  ghost predicate IsLiteral(s: string, base: int) {
    exists cut, radix :: Literal(s, cut, base, radix) && Alone(s, cut)
  }

  /** Strict reading takes exactly the literals with nothing but white space around them. */
  lemma StrictExactly(s: string, base: int)
    ensures Parse(s, base, true).Number? <==> IsLiteral(s, base)
  {
    hide Parse, Literal, Longest, Scan, SkipSpaces, Readable, Scanning;
    ParseUnfold(s, base, true);
    if Parse(s, base, true).Number? {
      var cut, radix := ReadLiteral(s, base);
      SkippedBlank(s, cut.end);
      assert Literal(s, cut, base, radix) && Alone(s, cut);
    }
    if cut, radix :| Literal(s, cut, base, radix) && Alone(s, cut) {
      AloneLongest(s, cut, base, radix);
      LiteralValue(s, cut, base, radix, true);
    }
  }

  /** The string begins with a literal of this value that does not go on. */
  ghost predicate Begins(s: string, base: int, v: int) {
    exists cut, radix ::
      Literal(s, cut, base, radix) && Longest(s, cut, base, radix) && v == Meaning(s, cut, radix)
  }

  /** Lenient reading gives the literal the string begins with, or zero if there is none. */
  lemma LenientExactly(s: string, base: int, v: int)
    requires Parse(s, base, false) != InvalidRadix
    ensures Parse(s, base, false) == Number(v) <==> Begins(s, base, v) || (v == 0 && forall w :: !Begins(s, base, w))
  {
    hide Parse, Literal, Longest, Scan, SkipSpaces, Readable, Scanning, Meaning;
    ParseUnfold(s, base, false);
    forall w | Begins(s, base, w) ensures Parse(s, base, false) == Number(w) {
      var cut, radix :| Literal(s, cut, base, radix) && Longest(s, cut, base, radix) && w == Meaning(s, cut, radix);
      LiteralValue(s, cut, base, radix, false);
    }
    if Readable(s, base) {
      var cut, radix := ReadLiteral(s, base);
      LiteralValue(s, cut, base, radix, false);
      assert Begins(s, base, Meaning(s, cut, radix));
    }
  }

  /** The radix is refused exactly if there is no second sign and the base, where no zero tells another, is neither 0
      nor -1 and not 2 to 36 or its negative. */
  lemma BadRadixExactly(s: string, base: int, strict: bool, sign: nat, prefix: nat)
    requires Front(s, sign, prefix)
    ensures Parse(s, base, strict) == InvalidRadix <==>
            && At(s, prefix) !in "+-"
            && (base == 1 || base > 36 || (base < -36 && At(s, prefix) != '0'))
  {
    hide Scan, ConvDigit, SkipPrefix, DigitsStart, TokenAt, SkipSpaces;
    FrontIs(s, sign, prefix);
  }
}
