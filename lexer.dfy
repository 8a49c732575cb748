/** The token classifiers of lc3as.py: the patterns `label_pattern`, `br_pattern`,
    `imm_pattern` and `reg_pattern` (lc3as.py:8-11) written as character-class
    predicates, and `calc_imm`, `get_register`, `is_keyword` and `is_label`. */
module Lexer {
  import opened Errors
  import opened Numeric
  import opened Opcodes

  /** Python's Unicode whitespace, the set behind both `\s` and `str.strip()`. */
  predicate IsSpace(c: char) {
    var n := c as int;
    (9 <= n <= 13) || (28 <= n <= 32) || n == 0x85 || n == 0xA0 || n == 0x1680
    || (0x2000 <= n <= 0x200A) || n == 0x2028 || n == 0x2029 || n == 0x202F
    || n == 0x205F || n == 0x3000
  }

  predicate IsDigit(c: char) { '0' <= c <= '9' }

  predicate IsHexDigit(c: char) { IsDigit(c) || 'a' <= c <= 'f' || 'A' <= c <= 'F' }

  predicate IsIdentStart(c: char) { c == '_' || 'a' <= c <= 'z' || 'A' <= c <= 'Z' }

  predicate IsIdentChar(c: char) { IsIdentStart(c) || IsDigit(c) }

  /** The text a pattern ending in `$` has to cover: Python's `$` also matches just
      before a newline that ends the string. */
  function Chomp(s: string): (t: string)
    ensures t == s || s == t + "\n"
  {
    if |s| > 0 && s[|s| - 1] == '\n' then s[..|s| - 1] else s
  }

  /** `str.upper()` on the ASCII letters. */
  function UpperChar(c: char): char {
    if 'a' <= c <= 'z' then (c as int - 32) as char else c
  }

  function Upper(s: string): (u: string)
    ensures |u| == |s| && forall k :: 0 <= k < |s| ==> u[k] == UpperChar(s[k])
  {
    if s == [] then [] else [UpperChar(s[0])] + Upper(s[1..])
  }

  // ----- literals: imm_pattern and calc_imm -----

  function DigitValue(c: char): nat {
    if IsDigit(c) then c as int - '0' as int
    else if 'a' <= c <= 'f' then c as int - 'a' as int + 10
    else if 'A' <= c <= 'F' then c as int - 'A' as int + 10
    else 0
  }

  /** `int(d, base)` for a string of digits. */
  function DigitsValue(d: string, base: nat): nat {
    if d == [] then 0 else DigitsValue(d[..|d| - 1], base) * base + DigitValue(d[|d| - 1])
  }

  /** `int(g, base)` for an optional '-' followed by digits. */
  function SignedValue(g: string, base: nat): int {
    if |g| > 0 && g[0] == '-' then -(DigitsValue(g[1..], base) as int) else DigitsValue(g, base)
  }

  predicate AllHex(h: string) { forall k :: 0 <= k < |h| ==> IsHexDigit(h[k]) }

  predicate AllDigits(d: string) { forall k :: 0 <= k < |d| ==> IsDigit(d[k]) }

  /** The length of the longest run of hex digits starting at `i`. */
  function HexRun(s: string, i: nat): (n: nat)
    requires i <= |s|
    ensures i + n <= |s| && AllHex(s[i..i + n])
    ensures i + n == |s| || !IsHexDigit(s[i + n])
    decreases |s| - i
  {
    if i < |s| && IsHexDigit(s[i]) then
      var n := 1 + HexRun(s, i + 1);
      assert s[i..i + n] == [s[i]] + s[i + 1..i + n];
      n
    else 0
  }

  /** Group 1 of imm_pattern, `^[xX](-?[0-9a-fA-F]+)`: an optional '-' and the
      longest run of hex digits after a leading x or X. Nothing after it matters. */
  function HexGroup(s: string): Option<string> {
    if |s| >= 1 && (s[0] == 'x' || s[0] == 'X') then
      if |s| >= 2 && s[1] == '-' && HexRun(s, 2) > 0 then Some(s[1..2 + HexRun(s, 2)])
      else if HexRun(s, 1) > 0 then Some(s[1..1 + HexRun(s, 1)])
      else None
    else None
  }

  /** Group 2 of imm_pattern, `#?(-?[0-9]+)$`: the whole text behind an optional '#'. */
  function DecGroup(s: string): Option<string> {
    var t := Chomp(s);
    var u := if |t| > 0 && t[0] == '#' then t[1..] else t;
    var d := if |u| > 0 && u[0] == '-' then u[1..] else u;
    if |d| > 0 && AllDigits(d) then Some(u) else None
  }

  /** `re.match(imm_pattern, s)` succeeds. */
  predicate IsImm(s: string) {
    HexGroup(s).Some? || DecGroup(s).Some?
  }

  /** calc_imm (lc3as.py:365-374). */
  function CalcImm(s: string): (r: Result<int>)
    ensures r.Ok? <==> IsImm(s)
    ensures r.Err? ==> r.error == Error(ValueError, None)
  {
    match HexGroup(s)
    case Some(g) => Ok(SignedValue(g, 16))
    case None =>
      match DecGroup(s)
      case Some(g) => Ok(SignedValue(g, 10))
      case None => Raise(ValueError)
  }

  /** A leading x or X, then a hex digit or '-' and a hex digit. */
  predicate HexLead(s: string) {
    |s| >= 2 && (s[0] == 'x' || s[0] == 'X')
    && (IsHexDigit(s[1]) || (s[1] == '-' && |s| >= 3 && IsHexDigit(s[2])))
  }

  /** Decimal digits, at least one, with an optional leading '#', '-' or "#-". */
  predicate DecimalShape(t: string) {
    |t| > 0 && IsDigit(t[|t| - 1])
    && forall k :: 0 <= k < |t| ==>
         IsDigit(t[k]) || (k == 0 && (t[k] == '#' || t[k] == '-')) || (k == 1 && t[k] == '-' && t[0] == '#')
  }

  /** calc_imm accepts exactly a hex lead or a whole decimal literal. */
  lemma CalcImmAccepts(s: string)
    ensures CalcImm(s).Ok? <==> HexLead(s) || DecimalShape(Chomp(s))
  {
    DecimalShapeIsDecGroup(Chomp(s));
  }

  /** The text behind an optional '#' and then an optional '-'. */
  function DigitPart(t: string): string {
    var u := if |t| > 0 && t[0] == '#' then t[1..] else t;
    if |u| > 0 && u[0] == '-' then u[1..] else u
  }

  /** A decimal literal is one whose digit part is a nonempty run of digits. */
  lemma DecimalShapeIsDecGroup(t: string)
    ensures DecimalShape(t) <==> |DigitPart(t)| > 0 && AllDigits(DigitPart(t))
  {
    if DecimalShape(t) {
      ShapeHasDigits(t);
    }
    if |DigitPart(t)| > 0 && AllDigits(DigitPart(t)) {
      DigitsHaveShape(t);
    }
  }

  lemma ShapeHasDigits(t: string)
    requires DecimalShape(t)
    ensures |DigitPart(t)| > 0 && AllDigits(DigitPart(t))
  {
    var d := DigitPart(t);
    var off := |t| - |d|;
    assert d == t[off..];
    assert IsDigit(t[|t| - 1]);
    forall k | 0 <= k < |d| ensures IsDigit(d[k]) {
      assert d[k] == t[k + off];
    }
  }

  lemma DigitsHaveShape(t: string)
    requires |DigitPart(t)| > 0 && AllDigits(DigitPart(t))
    ensures DecimalShape(t)
  {
    var d := DigitPart(t);
    var off := |t| - |d|;
    assert d == t[off..];
    forall k | 0 <= k < |t|
      ensures IsDigit(t[k]) || (k == 0 && (t[k] == '#' || t[k] == '-')) || (k == 1 && t[k] == '-' && t[0] == '#')
    {
      if k >= off {
        assert t[k] == d[k - off];
      }
    }
    assert t[|t| - 1] == d[|d| - 1];
  }

  /** A hex literal reads the longest run of hex digits after x/X (and an optional
      '-'); whatever follows the run is ignored. */
  lemma CalcImmHexPrefix(xc: char, neg: bool, h: string, rest: string)
    requires xc == 'x' || xc == 'X'
    requires |h| > 0 && AllHex(h)
    requires rest == [] || !IsHexDigit(rest[0])
    ensures var s := [xc] + (if neg then "-" else "") + h + rest;
            CalcImm(s) == Ok(if neg then -(DigitsValue(h, 16) as int) else DigitsValue(h, 16))
  {
    HexGroupOfPrefix(xc, neg, h, rest);
    SignedHex(neg, h);
  }

  /** Group 1 of imm_pattern is the sign and the whole run of hex digits. */
  lemma HexGroupOfPrefix(xc: char, neg: bool, h: string, rest: string)
    requires xc == 'x' || xc == 'X'
    requires |h| > 0 && AllHex(h)
    requires rest == [] || !IsHexDigit(rest[0])
    ensures HexGroup([xc] + (if neg then "-" else "") + h + rest) == Some((if neg then "-" else "") + h)
  {
    if neg {
      assert [xc] + "-" + h + rest == [xc] + ("-" + h + rest);
      HexGroupNegative(xc, h, rest);
    } else {
      assert [xc] + "" + h + rest == [xc] + (h + rest) && "" + h == h;
      HexGroupPositive(xc, h, rest);
    }
  }

  lemma HexGroupNegative(xc: char, h: string, rest: string)
    requires xc == 'x' || xc == 'X'
    requires |h| > 0 && AllHex(h)
    requires rest == [] || !IsHexDigit(rest[0])
    ensures HexGroup([xc] + ("-" + h + rest)) == Some("-" + h)
  {
    var s := [xc] + ("-" + h + rest);
    assert s[2..2 + |h|] == h;
    HexRunCovers(s, 2, h);
    assert s[1..2 + |h|] == "-" + h;
  }

  lemma HexGroupPositive(xc: char, h: string, rest: string)
    requires xc == 'x' || xc == 'X'
    requires |h| > 0 && AllHex(h)
    requires rest == [] || !IsHexDigit(rest[0])
    ensures HexGroup([xc] + (h + rest)) == Some(h)
  {
    var s := [xc] + (h + rest);
    assert s[1..1 + |h|] == h;
    HexRunCovers(s, 1, h);
    assert s[1] == h[0] && IsHexDigit(h[0]);
  }

  /** A run of hex digits followed by a non-digit (or the end) is what HexRun finds. */
  lemma {:induction false} HexRunCovers(s: string, i: nat, h: string)
    requires i + |h| <= |s| && s[i..i + |h|] == h && AllHex(h)
    requires i + |h| == |s| || !IsHexDigit(s[i + |h|])
    ensures HexRun(s, i) == |h|
    decreases |h|
  {
    if |h| > 0 {
      assert s[i] == h[0];
      assert s[i + 1..i + |h|] == h[1..];
      HexRunCovers(s, i + 1, h[1..]);
    }
  }

  /** Behind an optional '-', decimal digits make group 2 of imm_pattern. */
  lemma DecGroupOfDigits(t: string, u: string, d: string)
    requires |d| > 0 && AllDigits(d)
    requires u == d || u == "-" + d
    requires t == u || t == "#" + u
    ensures !HexLead(t) && HexGroup(t) == None
    ensures DecGroup(t) == Some(u)
  {
    assert t[|t| - 1] == d[|d| - 1];
    assert Chomp(t) == t;
    if t != u {
      assert t[1..] == u;
    } else if u != d {
      assert t[0] == '-';
    } else {
      assert t[0] == d[0];
    }
    if u != d {
      assert u[1..] == d;
    } else {
      assert u[0] == d[0];
    }
  }

  /** A decimal literal with optional '#' and '-' is read in base 10. */
  lemma CalcImmDecimal(hash: bool, neg: bool, d: string)
    requires |d| > 0 && AllDigits(d)
    ensures var s := (if hash then "#" else "") + ((if neg then "-" else "") + d);
            CalcImm(s) == Ok(if neg then -(DigitsValue(d, 10) as int) else DigitsValue(d, 10))
  {
    SignedDecimal(neg, d);
    CalcImmOfDecGroup(hash, (if neg then "-" else "") + d, d);
  }

  /** Decimal digits behind an optional '-' read as their value, negated after a '-'. */
  lemma SignedDecimal(neg: bool, d: string)
    requires |d| > 0 && AllDigits(d)
    ensures var u := (if neg then "-" else "") + d;
            (u == d || u == "-" + d)
            && SignedValue(u, 10) == if neg then -(DigitsValue(d, 10) as int) else DigitsValue(d, 10)
  {
    var u := (if neg then "-" else "") + d;
    if neg {
      assert u == "-" + d;
      assert u[0] == '-' && u[1..] == d;
    } else {
      assert u == d;
      assert u[0] == d[0];
    }
  }

  /** Hex digits behind an optional '-' read as their value, negated after a '-'. */
  lemma SignedHex(neg: bool, h: string)
    requires |h| > 0 && AllHex(h)
    ensures var u := (if neg then "-" else "") + h;
            SignedValue(u, 16) == if neg then -(DigitsValue(h, 16) as int) else DigitsValue(h, 16)
  {
    var u := (if neg then "-" else "") + h;
    if neg {
      assert u == "-" + h;
      assert u[0] == '-' && u[1..] == h;
    } else {
      assert u == h;
      assert u[0] == h[0];
    }
  }

  /** Group 2 of imm_pattern is read in base 10. */
  lemma CalcImmOfDecGroup(hash: bool, u: string, d: string)
    requires |d| > 0 && AllDigits(d)
    requires u == d || u == "-" + d
    ensures CalcImm((if hash then "#" else "") + u) == Ok(SignedValue(u, 10))
  {
    var s := (if hash then "#" else "") + u;
    if hash {
      assert s == "#" + u;
    } else {
      assert s == u;
    }
    DecGroupOfDigits(s, u, d);
  }

  // ----- registers: reg_pattern and get_register -----

  /** `re.match(reg_pattern, s)`: R or r and one digit 0-7. */
  predicate IsReg(s: string) {
    var t := Chomp(s);
    |t| == 2 && (t[0] == 'R' || t[0] == 'r') && '0' <= t[1] <= '7'
  }

  /** The register number, `int(word[1])`. */
  function RegNum(s: string): int
    requires |s| >= 2
  {
    s[1] as int - '0' as int
  }

  /** get_register (lc3as.py:358-362). */
  function GetRegister(s: string): (r: Result<string>)
    ensures r.Ok? <==> IsReg(s)
    ensures r.Ok? ==> |r.value| == 3 && IsBits(r.value) && Unsigned(r.value) == RegNum(s)
    ensures r.Err? ==> r.error == Error(ValueError, None)
  {
    if IsReg(s) then
      RegNumInRange(s);
      UnsignedRoundTrip(RegNum(s), 3);
      Int2Bin(RegNum(s), 3, false)
    else Raise(ValueError)
  }

  lemma RegNumInRange(s: string)
    requires IsReg(s)
    ensures 0 <= RegNum(s) < Pow2(3)
  {
    assert Chomp(s)[1] == s[1];
    assert Pow2(3) == 8;
  }

  // ----- keywords and labels -----

  /** `re.match(br_pattern, s)`: BR or br, then one to three of N, Z, P in either case. */
  predicate IsBrMnemonic(s: string) {
    var t := Chomp(s);
    3 <= |t| <= 5 && (t[..2] == "BR" || t[..2] == "br")
    && forall k :: 2 <= k < |t| ==> IsFlagLetter(t[k])
  }

  /** One of the condition letters N, Z, P in either case. */
  predicate IsFlagLetter(c: char) {
    c in "NZPnzp"
  }

  /** is_keyword (lc3as.py:340-342). */
  predicate IsKeyword(w: string) {
    Upper(w) in Keywords || IsBrMnemonic(w)
  }

  /** `re.match(label_pattern, s)`: a letter or '_', then letters, digits and '_'. */
  predicate IsIdent(t: string) {
    |t| > 0 && IsIdentStart(t[0]) && forall k :: 0 < k < |t| ==> IsIdentChar(t[k])
  }

  /** is_label (lc3as.py:345-355). */
  predicate IsLabel(w: string) {
    !IsKeyword(w) && IsIdent(Chomp(w)) && !IsImm(w) && !IsReg(w)
  }

  /** A label is never read as a register, an immediate, an instruction or a
      pseudo-op in any letter case. */
  lemma LabelIsNoOtherToken(w: string)
    requires IsLabel(w)
    ensures GetRegister(w).Err? && CalcImm(w).Err?
    ensures OpcodeNamed(Upper(w)).None? && PseudoNamed(Upper(w)).None? && !IsBrMnemonic(w)
  {
    KeywordsAreRegisteredNames(Upper(w));
  }
}
