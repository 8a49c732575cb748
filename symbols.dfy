/** Operand addresses: `expr_pattern` (lc3as.py:12), `calc_address`
    (lc3as.py:389-404) and `calc_offset` (lc3as.py:407-415). The global
    `symbol_table` and `pc` they read are parameters here. */
module Symbols {
  import opened Errors
  import opened Lexer

  /** The end of the run of identifier characters that starts at `j`. */
  function IdentEnd(s: string, j: nat): (k: nat)
    requires j <= |s|
    ensures j <= k <= |s| && forall p :: j <= p < k ==> IsIdentChar(s[p])
    ensures k == |s| || !IsIdentChar(s[k])
    decreases |s| - j
  {
    if j < |s| && IsIdentChar(s[j]) then IdentEnd(s, j + 1) else j
  }

  /** Hex digits behind an optional '-', at least one: `-?[0-9a-fA-F]+`. */
  predicate HexBody(u: string) {
    (|u| > 0 && AllHex(u)) || (|u| > 1 && u[0] == '-' && AllHex(u[1..]))
  }

  /** The whole text matches group 3 of expr_pattern: `[xX]` and a hex body, or
      a decimal literal with optional '#' and '-'. */
  predicate ImmText(t: string) {
    (|t| >= 2 && (t[0] == 'x' || t[0] == 'X') && HexBody(t[1..])) || DecimalShape(t)
  }

  /** `re.match(expr_pattern, s)`: its groups 1 (the label), 2 (`+` is true) and 3
      (the offset). The identifier part cannot give back characters, since `+` and
      `-` are not identifier characters, so the split point is unique. */
  function ExprMatch(s: string): (m: Option<(string, bool, string)>)
    ensures m.Some? ==> IsIdent(m.value.0) && ImmText(m.value.2)
    ensures m.Some? ==> s == m.value.0 + [if m.value.1 then '+' else '-'] + m.value.2
                        || s == m.value.0 + [if m.value.1 then '+' else '-'] + m.value.2 + "\n"
  {
    if |s| == 0 || !IsIdentStart(s[0]) then None
    else
      var n := IdentEnd(s, 1);
      if n < |s| && (s[n] == '+' || s[n] == '-') && ImmText(Chomp(s[n + 1..])) then
        assert s == s[..n] + [s[n]] + s[n + 1..];
        Some((s[..n], s[n] == '+', Chomp(s[n + 1..])))
      else None
  }

  /** calc_address (lc3as.py:389-404): a label's address, a label plus or minus an
      immediate, or else an immediate. A missing label is a ValueError. */
  function CalcAddress(word: string, table: map<string, int>): (r: Result<int>)
    ensures r.Err? ==> r.error == Error(ValueError, None)
  {
    if IsLabel(word) then
      if word in table then Ok(table[word]) else Raise(ValueError)
    else ExprAddress(word, table)
  }

  /** The part of calc_address after the label test: `label[+-]imm`, else an immediate. */
  function ExprAddress(word: string, table: map<string, int>): (r: Result<int>)
    ensures r.Err? ==> r.error == Error(ValueError, None)
  {
    match ExprMatch(word)
    case Some((name, plus, imm)) =>
      var v :- CalcImm(imm);
      if name in table then Ok(table[name] + (if plus then v else -v)) else Raise(ValueError)
    case None => CalcImm(word)
  }

  /** Text that is no identifier is no label. */
  lemma NotIdentIsNoLabel(w: string)
    requires !IsIdent(Chomp(w))
    ensures !IsLabel(w)
  {
  }

  /** calc_offset (lc3as.py:407-415): an immediate as it stands, otherwise an
      address taken relative to `pc`. Every failure is a ValueError. */
  function CalcOffset(word: string, table: map<string, int>, pc: int): (r: Result<int>)
    ensures r.Err? ==> r.error == Error(ValueError, None)
  {
    match CalcImm(word)
    case Ok(v) => Ok(v)
    case Err(_) =>
      match CalcAddress(word, table)
      case Ok(a) => Ok(a - pc)
      case Err(_) => Raise(ValueError)
  }

  // ----- properties -----

  /** An operand that is no immediate is an address taken relative to `pc`, as in
      `LD R0, DATA+1`, and a ValueError when it resolves to none. */
  lemma CalcOffsetOfAddress(w: string, table: map<string, int>, pc: int)
    requires CalcImm(w).Err?
    ensures CalcOffset(w, table, pc) ==
              if CalcAddress(w, table).Ok? then Ok(CalcAddress(w, table).value - pc) else Err(Error(ValueError, None))
  {
  }

  /** A label stands for its entry in the symbol table and is an error without one. */
  lemma CalcAddressOfLabel(w: string, table: map<string, int>)
    requires IsLabel(w)
    ensures w in table ==> CalcAddress(w, table) == Ok(table[w])
    ensures w !in table ==> CalcAddress(w, table) == Err(Error(ValueError, None))
  {
  }

  /** The text `L+imm` or `L-imm`. */
  function OffsetExpr(name: string, plus: bool, imm: string): string {
    name + [if plus then '+' else '-'] + imm
  }

  /** A decimal literal without sign, with or without '#'. */
  function DecimalText(hash: bool, d: string): string {
    (if hash then "#" else "") + d
  }

  /** The address of `name` moved up (`plus`) or down by `v`; an undefined name is a
      ValueError. */
  function Displaced(table: map<string, int>, name: string, plus: bool, v: int): Result<int> {
    if name in table then Ok(table[name] + (if plus then v else -v)) else Raise(ValueError)
  }

  /** `L+#n` and `L-#n` (and the same without '#') stand for L's address moved by n. */
  lemma CalcAddressOfOffsetLabel(name: string, plus: bool, hash: bool, d: string, table: map<string, int>)
    requires IsIdent(name) && |d| > 0 && AllDigits(d)
    ensures CalcAddress(OffsetExpr(name, plus, DecimalText(hash, d)), table) == Displaced(table, name, plus, DigitsValue(d, 10))
  {
    var imm := DecimalText(hash, d);
    ExprMatchOfOffsetLabel(name, plus, hash, d);
    UnsignedDecimal(hash, d);
    CalcAddressOfMatch(OffsetExpr(name, plus, imm), table, name, plus, imm, DigitsValue(d, 10));
  }

  /** Once expr_pattern has split a word that is no label, its address is the
      label's moved by the offset. */
  lemma CalcAddressOfMatch(w: string, table: map<string, int>, name: string, plus: bool, imm: string, v: int)
    requires !IsLabel(w) && ExprMatch(w) == Some((name, plus, imm)) && CalcImm(imm) == Ok(v)
    ensures CalcAddress(w, table) == Displaced(table, name, plus, v)
  {
    assert CalcAddress(w, table) == ExprAddress(w, table);
    ExprAddressOfMatch(w, table, name, plus, imm, v);
  }

  lemma ExprAddressOfMatch(w: string, table: map<string, int>, name: string, plus: bool, imm: string, v: int)
    requires ExprMatch(w) == Some((name, plus, imm)) && CalcImm(imm) == Ok(v)
    ensures ExprAddress(w, table) == Displaced(table, name, plus, v)
  {
  }

  lemma UnsignedDecimal(hash: bool, d: string)
    requires |d| > 0 && AllDigits(d)
    ensures CalcImm(DecimalText(hash, d)) == Ok(DigitsValue(d, 10) as int)
  {
    CalcImmDecimal(hash, false, d);
    assert ("" + d) == d;
  }

  /** expr_pattern splits `L+#n` into L, the sign and `#n`. */
  lemma ExprMatchOfOffsetLabel(name: string, plus: bool, hash: bool, d: string)
    requires IsIdent(name) && |d| > 0 && AllDigits(d)
    ensures !IsLabel(OffsetExpr(name, plus, DecimalText(hash, d)))
    ensures ExprMatch(OffsetExpr(name, plus, DecimalText(hash, d))) == Some((name, plus, DecimalText(hash, d)))
  {
    var sign: char := if plus then '+' else '-';
    var imm := DecimalText(hash, d);
    var w := OffsetExpr(name, plus, imm);
    var n := |name|;
    assert w[n] == sign;
    assert w[|w| - 1] == d[|d| - 1];
    assert !IsIdent(Chomp(w)) by {
      assert Chomp(w) == w;
      assert !IsIdentChar(w[n]);
    }
    NotIdentIsNoLabel(w);
    assert w[..n] == name;
    IdentEndCovers(w, name);
    assert w[n + 1..] == imm;
    assert imm[|imm| - 1] == d[|d| - 1];
    assert Chomp(imm) == imm;
    DecimalImmText(hash, d);
    assert w[0] == name[0];
  }

  lemma DecimalImmText(hash: bool, d: string)
    requires |d| > 0 && AllDigits(d)
    ensures ImmText(DecimalText(hash, d))
  {
    var t := DecimalText(hash, d);
    var off := |t| - |d|;
    assert t[|t| - 1] == d[|d| - 1];
    forall k | 0 <= k < |t|
      ensures IsDigit(t[k]) || (k == 0 && (t[k] == '#' || t[k] == '-')) || (k == 1 && t[k] == '-' && t[0] == '#')
    {
      if k >= off {
        assert t[k] == d[k - off];
      }
    }
  }

  /** The identifier run of `name + rest` stops where `name` does, when `rest`
      starts with a non-identifier character. */
  lemma IdentEndCovers(w: string, name: string)
    requires IsIdent(name) && |name| < |w| && w[..|name|] == name && !IsIdentChar(w[|name|])
    ensures IdentEnd(w, 1) == |name|
  {
    var j := |name|;
    while j > 1
      invariant 1 <= j <= |name| && IdentEnd(w, j) == |name|
    {
      assert w[j - 1] == name[j - 1];
      j := j - 1;
    }
  }

  /** A word that is no label and that expr_pattern does not split is read by
      calc_imm alone. */
  lemma CalcAddressOfImmediate(w: string, table: map<string, int>)
    requires !IsLabel(w) && ExprMatch(w).None?
    ensures CalcAddress(w, table) == CalcImm(w)
  {
  }

  /** A hex literal without sign, the usual `.FILL x3000`, is its own value as an
      address. */
  lemma CalcAddressOfHex(xc: char, h: string, table: map<string, int>)
    requires xc == 'x' || xc == 'X'
    requires |h| > 0 && AllHex(h)
    ensures CalcAddress([xc] + h, table) == Ok(DigitsValue(h, 16) as int)
  {
    HexWordIsImm(xc, h);
    HexWordUnsplit(xc, h);
    CalcAddressOfImmediate([xc] + h, table);
  }

  /** calc_imm reads `[xc] + h` as the hex value of `h`. */
  lemma HexWordIsImm(xc: char, h: string)
    requires xc == 'x' || xc == 'X'
    requires |h| > 0 && AllHex(h)
    ensures CalcImm([xc] + h) == Ok(DigitsValue(h, 16) as int)
  {
    assert [xc] + "" + h + "" == [xc] + h;
    CalcImmHexPrefix(xc, false, h, "");
  }

  /** expr_pattern does not split `[xc] + h`: it is one identifier. */
  lemma HexWordUnsplit(xc: char, h: string)
    requires xc == 'x' || xc == 'X'
    requires AllHex(h)
    ensures ExprMatch([xc] + h).None?
  {
    var w := [xc] + h;
    forall p | 1 <= p < |w|
      ensures IsIdentChar(w[p])
    {
      assert w[p] == h[p - 1];
    }
    IdentEndAll(w, 1);
  }

  /** The identifier run from `j` reaches the end when every character from `j` on
      is an identifier character. */
  lemma {:induction false} IdentEndAll(s: string, j: nat)
    requires j <= |s| && forall p :: j <= p < |s| ==> IsIdentChar(s[p])
    ensures IdentEnd(s, j) == |s|
    decreases |s| - j
  {
    if j < |s| {
      IdentEndAll(s, j + 1);
    }
  }

  /** A decimal literal is its own value as an address. */
  lemma CalcAddressOfDecimal(hash: bool, neg: bool, d: string, table: map<string, int>)
    requires |d| > 0 && AllDigits(d)
    ensures var w := (if hash then "#" else "") + ((if neg then "-" else "") + d);
            CalcAddress(w, table) == Ok(if neg then -(DigitsValue(d, 10) as int) else DigitsValue(d, 10))
  {
    var w := (if hash then "#" else "") + ((if neg then "-" else "") + d);
    CalcImmDecimal(hash, neg, d);
    DecimalIsNoIdent(hash, neg, d);
    NoIdentAddress(w, table);
  }

  /** A decimal literal neither starts nor forms an identifier. */
  lemma DecimalIsNoIdent(hash: bool, neg: bool, d: string)
    requires |d| > 0 && AllDigits(d)
    ensures var w := (if hash then "#" else "") + ((if neg then "-" else "") + d);
            |w| > 0 && !IsIdentStart(w[0]) && !IsIdent(Chomp(w))
  {
    var w := (if hash then "#" else "") + ((if neg then "-" else "") + d);
    if !hash && !neg {
      assert w[0] == d[0];
    }
    assert w[|w| - 1] == d[|d| - 1];
    assert Chomp(w) == w;
  }

  /** A word that does not start like an identifier is read by calc_imm alone. */
  lemma NoIdentAddress(w: string, table: map<string, int>)
    requires |w| > 0 && !IsIdentStart(w[0]) && !IsIdent(Chomp(w))
    ensures CalcAddress(w, table) == CalcImm(w)
  {
    NotIdentIsNoLabel(w);
    assert ExprMatch(w) == None;
  }

  /** `x-n` is read as the label `x` minus n, although calc_imm reads the same
      text as the hex immediate -n: calc_address tries the expression first. */
  lemma CalcAddressReadsMinusHexAsExpression(d: string, table: map<string, int>)
    requires |d| > 0 && AllDigits(d)
    ensures CalcAddress(OffsetExpr("x", false, d), table) == Displaced(table, "x", false, DigitsValue(d, 10))
    ensures CalcImm(OffsetExpr("x", false, d)) == Ok(-(DigitsValue(d, 16) as int))
  {
    MinusXAsExpression(d, table);
    MinusXAsImmediate(d);
  }

  lemma MinusXAsExpression(d: string, table: map<string, int>)
    requires |d| > 0 && AllDigits(d)
    ensures CalcAddress(OffsetExpr("x", false, d), table) == Displaced(table, "x", false, DigitsValue(d, 10))
  {
    assert DecimalText(false, d) == d;
    assert IsIdent("x");
    CalcAddressOfOffsetLabel("x", false, false, d, table);
  }

  lemma MinusXAsImmediate(d: string)
    requires |d| > 0 && AllDigits(d)
    ensures CalcImm(OffsetExpr("x", false, d)) == Ok(-(DigitsValue(d, 16) as int))
  {
    assert AllHex(d) by {
      forall k | 0 <= k < |d| ensures IsHexDigit(d[k]) {
        assert IsDigit(d[k]);
      }
    }
    CalcImmHexPrefix('x', true, d, "");
    assert ['x'] + "-" + d + "" == OffsetExpr("x", false, d);
  }

  /** An immediate operand is taken as the offset itself. */
  lemma CalcOffsetOfImmediate(w: string, table: map<string, int>, pc: int)
    requires CalcImm(w).Ok?
    ensures CalcOffset(w, table, pc) == CalcImm(w)
  {
  }

  /** A label operand becomes its distance from `pc`; an undefined one is an error. */
  lemma CalcOffsetOfLabel(w: string, table: map<string, int>, pc: int)
    requires IsLabel(w)
    ensures w in table ==> CalcOffset(w, table, pc) == Ok(table[w] - pc)
    ensures w !in table ==> CalcOffset(w, table, pc) == Err(Error(ValueError, None))
  {
    LabelIsNoOtherToken(w);
  }
}
