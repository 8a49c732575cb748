/** Where each encoder of lc3as.py puts its operands: the field layout of every
    LC-3 instruction format, read back out of the word the encoder returns, and
    the exact inputs each encoder accepts. */
module Layouts {
  import opened Errors
  import opened Numeric
  import opened Opcodes
  import opened Lexer
  import opened Symbols
  import opened Encoder

  // ----- reading fields back out of a concatenation -----

  /** A word made of an opcode, two 3-bit fields and a 6-bit field. */
  lemma Word4(a: string, b: string, c: string, d: string)
    requires IsBits(a) && IsBits(b) && IsBits(c) && IsBits(d)
    requires |a| == 4 && |b| == 3 && |c| == 3 && |d| == 6
    ensures var w := a + b + c + d;
            IsWord(w) && Bits(w, 15, 12) == a && Bits(w, 11, 9) == b && Bits(w, 8, 6) == c && Bits(w, 5, 0) == d
  {
    Layout(a, b, c, d);
  }

  /** A word made of an opcode, a 3-bit field and a 9-bit field. */
  lemma Word3(a: string, b: string, c: string)
    requires IsBits(a) && IsBits(b) && IsBits(c)
    requires |a| == 4 && |b| == 3 && |c| == 9
    ensures var w := a + b + c;
            IsWord(w) && Bits(w, 15, 12) == a && Bits(w, 11, 9) == b && Bits(w, 8, 0) == c
  {
    Layout(a, b, c, "");
    assert a + b + c + "" == a + b + c;
  }

  /** The low six bits split into a high and a low part. */
  lemma Low6(w: string, x: string, y: string)
    requires |w| == 16 && 1 <= |x| && 1 <= |y| && |x| + |y| == 6 && Bits(w, 5, 0) == x + y
    ensures Bits(w, 5, |y|) == x && Bits(w, |y| - 1, 0) == y
  {
    var t := w[10..16];
    assert t == x + y;
    assert w[10..10 + |x|] == t[..|x|];
    assert w[10 + |x|..16] == t[|x|..];
  }

  // ----- ADD and AND -----

  /** ADD/AND put DR in bits 11-9 and SR1 in bits 8-6; an immediate operand sets
      bit 5 and fills bits 4-0 with its 5-bit two's complement, a register
      operand leaves bits 5-3 zero and puts SR2 in bits 2-0. The instruction is
      accepted exactly when its first two operands are registers and its third is
      a register or an immediate in -16..15. */
  lemma OperateFields(op: Opcode, words: seq<string>)
    requires op == Add || op == And
    ensures OperateAsm(op, words).Ok? <==>
            3 < |words| && IsReg(words[1]) && IsReg(words[2])
            && (if IsImm(words[3]) then !SignedOutOfRange(CalcImm(words[3]).value, 5) else IsReg(words[3]))
    ensures var r := OperateAsm(op, words);
            r.Ok? ==> 3 < |words| && Bits(r.value, 15, 12) == OpcodeBits(op)
                      && Unsigned(Bits(r.value, 11, 9)) == RegNum(words[1])
                      && Unsigned(Bits(r.value, 8, 6)) == RegNum(words[2])
                      && (IsImm(words[3]) ==> Bits(r.value, 5, 5) == "1" && Signed(Bits(r.value, 4, 0)) == CalcImm(words[3]).value)
                      && (!IsImm(words[3]) ==> Bits(r.value, 5, 3) == "000" && Unsigned(Bits(r.value, 2, 0)) == RegNum(words[3]))
  {
    var r := OperateAsm(op, words);
    if r.Ok? {
      var dr := RegField(words, 1).value;
      var sr := RegField(words, 2).value;
      OpcodeBitsShape(op);
      if IsImm(words[3]) {
        var f := ImmField(words, 3, 5, true).value;
        BitsCat("1", f);
        Word4(OpcodeBits(op), dr, sr, "1" + f);
        Low6(r.value, "1", f);
      } else {
        var sr2 := GetRegister(words[3]).value;
        BitsCat("000", sr2);
        Word4(OpcodeBits(op), dr, sr, "000" + sr2);
        Low6(r.value, "000", sr2);
      }
    }
  }

  // ----- BR -----

  /** BR puts the three condition flags in bits 11-9, n first, and the 9-bit
      PC-relative offset of its operand in bits 8-0; it is accepted exactly when
      the operand is an immediate, or a label or label expression, whose offset
      fits in 9 signed bits. */
  lemma BrFields(words: seq<string>, table: map<string, int>, pc: int)
    requires |words| >= 1
    ensures var r := BrAsm(words, table, pc);
            (r.Ok? <==> 1 < |words| && CalcOffset(words[1], table, pc).Ok?
                        && !SignedOutOfRange(CalcOffset(words[1], table, pc).value, 9))
            && (r.Ok? ==> Bits(r.value, 15, 12) == OpcodeBits(Br)
                          && Bits(r.value, 11, 9) == Flags(HasLetter(words[0], 'n'), HasLetter(words[0], 'z'), HasLetter(words[0], 'p'))
                          && Signed(Bits(r.value, 8, 0)) == CalcOffset(words[1], table, pc).value)
  {
    var r := BrAsm(words, table, pc);
    if r.Ok? {
      var off := OffsetField(words, 1, 9, table, pc).value;
      var flags := Flags(HasLetter(words[0], 'n'), HasLetter(words[0], 'z'), HasLetter(words[0], 'p'));
      OpcodeBitsShape(Br);
      Word3(OpcodeBits(Br), flags, off);
      assert r.value == OpcodeBits(Br) + flags + off;
    }
  }

  /** br_asm as written: the same operand rule and offset field as BrFields, with
      each flag set by its lowercase letter alone. */
  lemma BrAsWrittenFields(words: seq<string>, table: map<string, int>, pc: int)
    requires |words| >= 1
    ensures var r := BrAsmAsWritten(words, table, pc);
            (r.Ok? <==> 1 < |words| && CalcOffset(words[1], table, pc).Ok?
                        && !SignedOutOfRange(CalcOffset(words[1], table, pc).value, 9))
            && (r.Ok? ==> Bits(r.value, 15, 12) == OpcodeBits(Br)
                          && Bits(r.value, 11, 9) == Flags('n' in words[0], 'z' in words[0], 'p' in words[0])
                          && Signed(Bits(r.value, 8, 0)) == CalcOffset(words[1], table, pc).value)
  {
    var r := BrAsmAsWritten(words, table, pc);
    if r.Ok? {
      var off := OffsetField(words, 1, 9, table, pc).value;
      var flags := Flags('n' in words[0], 'z' in words[0], 'p' in words[0]);
      OpcodeBitsShape(Br);
      Word3(OpcodeBits(Br), flags, off);
      assert r.value == OpcodeBits(Br) + flags + off;
    }
  }

  /** br_asm as written and corrected agree on when they succeed and on every bit
      but the flags; for an upper-case mnemonic the written one clears bits 11-9. */
  lemma BrAsWrittenClearsFlags(words: seq<string>, table: map<string, int>, pc: int)
    requires |words| >= 1 && words[0] == Upper(words[0])
    ensures BrAsmAsWritten(words, table, pc).Ok? <==> BrAsm(words, table, pc).Ok?
    ensures BrAsm(words, table, pc).Ok? ==>
              var w := BrAsm(words, table, pc).value;
              BrAsmAsWritten(words, table, pc).value == w[..4] + "000" + w[7..]
  {
    if BrAsm(words, table, pc).Ok? {
      var off := OffsetField(words, 1, 9, table, pc).value;
      var flags := Flags(HasLetter(words[0], 'n'), HasLetter(words[0], 'z'), HasLetter(words[0], 'p'));
      var w := OpcodeBits(Br) + flags + off;
      assert BrAsm(words, table, pc).value == w;
      BrAsWrittenDropsFlags(words, table, pc);
      assert Flags('n' in words[0], 'z' in words[0], 'p' in words[0]) == "000";
      assert w[..4] == OpcodeBits(Br) && w[7..] == off;
    }
  }

  /** The flags br_asm reads are the same in either letter case of the mnemonic. */
  lemma BrIgnoresCase(words: seq<string>, table: map<string, int>, pc: int)
    requires |words| >= 1
    ensures BrAsm(words, table, pc) == BrAsm([Upper(words[0])] + words[1..], table, pc)
  {
    var u := Upper(words[0]);
    var words' := [u] + words[1..];
    assert words'[1..] == words[1..];
    forall c | c in "nzp"
      ensures HasLetter(words[0], c) <==> HasLetter(u, c)
    {
      if c in words[0] {
        var k :| 0 <= k < |words[0]| && words[0][k] == c;
        assert u[k] == UpperChar(c);
      }
      if UpperChar(c) in words[0] {
        var k :| 0 <= k < |words[0]| && words[0][k] == UpperChar(c);
        assert u[k] == UpperChar(c);
      }
      if UpperChar(c) in u {
        var k :| 0 <= k < |u| && u[k] == UpperChar(c);
        assert words[0][k] == c || words[0][k] == UpperChar(c);
      }
    }
    assert HasLetter(words[0], 'n') == HasLetter(u, 'n');
    assert HasLetter(words[0], 'z') == HasLetter(u, 'z');
    assert HasLetter(words[0], 'p') == HasLetter(u, 'p');
  }

  /** As written, br_asm finds no flag in a mnemonic that is already upper case,
      which is the only form the parser hands it: every branch is encoded with
      n = z = p = 0, a branch that is never taken. */
  lemma BrAsWrittenDropsFlags(words: seq<string>, table: map<string, int>, pc: int)
    requires |words| >= 1 && words[0] == Upper(words[0])
    ensures var r := BrAsmAsWritten(words, table, pc);
            r.Ok? ==> Bits(r.value, 11, 9) == "000"
  {
  }

  /** The branch `BRz` as the parser hands it on (upper-cased), with any operand
      whose offset fits: br_asm as written sets no flag, the corrected one sets z. */
  lemma BrzExample(operand: string, table: map<string, int>, pc: int)
    requires OffsetField(["BRZ", operand], 1, 9, table, pc).Ok?
    ensures BrAsmAsWritten(["BRZ", operand], table, pc).Ok?
            && Bits(BrAsmAsWritten(["BRZ", operand], table, pc).value, 11, 9) == "000"
    ensures BrAsm(["BRZ", operand], table, pc).Ok?
            && Bits(BrAsm(["BRZ", operand], table, pc).value, 11, 9) == "010"
  {
    BrzLetters();
    BrAsWrittenDropsFlags(["BRZ", operand], table, pc);
  }

  /** BRZ is upper case and, in either case, holds z but neither n nor p. */
  lemma BrzLetters()
    ensures Upper("BRZ") == "BRZ"
    ensures Flags(HasLetter("BRZ", 'n'), HasLetter("BRZ", 'z'), HasLetter("BRZ", 'p')) == "010"
  {
    assert !HasLetter("BRZ", 'n') && HasLetter("BRZ", 'z') && !HasLetter("BRZ", 'p');
    assert Flags(false, true, false) == "010";
  }

  // ----- PC-relative loads and stores -----

  /** LD, LDI, LEA, ST and STI put their register in bits 11-9 and the 9-bit
      PC-relative offset in bits 8-0. */
  lemma RegOffsetFields(op: Opcode, words: seq<string>, table: map<string, int>, pc: int)
    requires op == Ld || op == Ldi || op == Lea || op == St || op == Sti
    ensures var r := RegOffsetAsm(op, words, table, pc);
            (r.Ok? <==> 2 < |words| && IsReg(words[1]) && CalcOffset(words[2], table, pc).Ok?
                        && !SignedOutOfRange(CalcOffset(words[2], table, pc).value, 9))
            && (r.Ok? ==> Bits(r.value, 15, 12) == OpcodeBits(op)
                          && Unsigned(Bits(r.value, 11, 9)) == RegNum(words[1])
                          && Signed(Bits(r.value, 8, 0)) == CalcOffset(words[2], table, pc).value)
  {
    var r := RegOffsetAsm(op, words, table, pc);
    if r.Ok? {
      var reg := RegField(words, 1).value;
      var off := OffsetField(words, 2, 9, table, pc).value;
      OpcodeBitsShape(op);
      Word3(OpcodeBits(op), reg, off);
      assert r.value == OpcodeBits(op) + reg + off;
    }
  }

  // ----- jumps -----

  /** JMP and JSRR put the base register in bits 8-6 and zeros elsewhere. */
  lemma BaseJumpFields(op: Opcode, words: seq<string>)
    requires op == Jmp || op == Jsrr
    ensures var r := BaseJumpAsm(op, words);
            (r.Ok? <==> 1 < |words| && IsReg(words[1]))
            && (r.Ok? ==> Bits(r.value, 15, 12) == OpcodeBits(op) && Bits(r.value, 11, 9) == "000"
                          && Unsigned(Bits(r.value, 8, 6)) == RegNum(words[1]) && Bits(r.value, 5, 0) == "000000")
  {
    var r := BaseJumpAsm(op, words);
    if r.Ok? {
      OpcodeBitsShape(op);
      Word4(OpcodeBits(op), "000", RegField(words, 1).value, "000000");
    }
  }

  /** JSR sets bit 11 and puts the 11-bit PC-relative offset in bits 10-0. */
  lemma JsrFields(words: seq<string>, table: map<string, int>, pc: int)
    ensures var r := JsrAsm(words, table, pc);
            (r.Ok? <==> 1 < |words| && CalcOffset(words[1], table, pc).Ok?
                        && !SignedOutOfRange(CalcOffset(words[1], table, pc).value, 11))
            && (r.Ok? ==> Bits(r.value, 15, 12) == OpcodeBits(Jsr) && Bits(r.value, 11, 11) == "1"
                          && Signed(Bits(r.value, 10, 0)) == CalcOffset(words[1], table, pc).value)
  {
    var r := JsrAsm(words, table, pc);
    if r.Ok? {
      var off := OffsetField(words, 1, 11, table, pc).value;
      OpcodeBitsShape(Jsr);
      Layout(OpcodeBits(Jsr), "1", off, "");
    }
  }

  // ----- base-relative loads and stores, NOT -----

  /** LDR puts DR in bits 11-9, the base register in bits 8-6 and a 6-bit signed
      immediate in bits 5-0. */
  lemma LdrFields(words: seq<string>)
    ensures var r := LdrAsm(words);
            (r.Ok? <==> 3 < |words| && IsReg(words[1]) && IsReg(words[2]) && IsImm(words[3])
                        && !SignedOutOfRange(CalcImm(words[3]).value, 6))
            && (r.Ok? ==> Bits(r.value, 15, 12) == OpcodeBits(Ldr)
                          && Unsigned(Bits(r.value, 11, 9)) == RegNum(words[1])
                          && Unsigned(Bits(r.value, 8, 6)) == RegNum(words[2])
                          && Signed(Bits(r.value, 5, 0)) == CalcImm(words[3]).value)
  {
    var r := LdrAsm(words);
    if r.Ok? {
      OpcodeBitsShape(Ldr);
      Word4(OpcodeBits(Ldr), RegField(words, 1).value, RegField(words, 2).value, ImmField(words, 3, 6, true).value);
    }
  }

  /** STR puts SR in bits 11-9, the base register in bits 8-6 and a 6-bit offset
      in bits 5-0; the offset goes through calc_offset, so a label there is taken
      relative to the PC. */
  lemma StrFields(words: seq<string>, table: map<string, int>, pc: int)
    ensures var r := StrAsm(words, table, pc);
            (r.Ok? <==> 3 < |words| && IsReg(words[1]) && IsReg(words[2]) && CalcOffset(words[3], table, pc).Ok?
                        && !SignedOutOfRange(CalcOffset(words[3], table, pc).value, 6))
            && (r.Ok? ==> Bits(r.value, 15, 12) == OpcodeBits(Str)
                          && Unsigned(Bits(r.value, 11, 9)) == RegNum(words[1])
                          && Unsigned(Bits(r.value, 8, 6)) == RegNum(words[2])
                          && Signed(Bits(r.value, 5, 0)) == CalcOffset(words[3], table, pc).value)
  {
    var r := StrAsm(words, table, pc);
    if r.Ok? {
      OpcodeBitsShape(Str);
      Word4(OpcodeBits(Str), RegField(words, 1).value, RegField(words, 2).value, OffsetField(words, 3, 6, table, pc).value);
    }
  }

  /** NOT puts DR in bits 11-9, SR in bits 8-6 and ones in bits 5-0. */
  lemma NotFields(words: seq<string>)
    ensures var r := NotAsm(words);
            (r.Ok? <==> 2 < |words| && IsReg(words[1]) && IsReg(words[2]))
            && (r.Ok? ==> Bits(r.value, 15, 12) == OpcodeBits(Not)
                          && Unsigned(Bits(r.value, 11, 9)) == RegNum(words[1])
                          && Unsigned(Bits(r.value, 8, 6)) == RegNum(words[2])
                          && Bits(r.value, 5, 0) == "111111")
  {
    var r := NotAsm(words);
    if r.Ok? {
      OpcodeBitsShape(Not);
      Word4(OpcodeBits(Not), RegField(words, 1).value, RegField(words, 2).value, "111111");
    }
  }

  // ----- TRAP and the fixed words -----

  /** TRAP puts zeros in bits 11-8 and the trap vector, reduced modulo 256, in
      bits 7-0. The vector is converted unsigned, so a negative one is accepted
      and wraps around. */
  lemma TrapFields(words: seq<string>)
    ensures var r := TrapAsm(words);
            (r.Ok? <==> 1 < |words| && IsImm(words[1]) && CalcImm(words[1]).value < 256)
            && (r.Ok? ==> Bits(r.value, 15, 12) == OpcodeBits(Trap) && Bits(r.value, 11, 8) == "0000"
                          && Unsigned(Bits(r.value, 7, 0)) == CalcImm(words[1]).value % 256)
  {
    var r := TrapAsm(words);
    assert Pow2(8) == 256 by { Pow2Of16(); }
    if r.Ok? {
      TrapWord(ImmField(words, 1, 8, false).value);
    }
  }

  lemma TrapWord(vect: string)
    requires |vect| == 8
    ensures var w := OpcodeBits(Trap) + ("0000" + vect);
            |w| == 16 && Bits(w, 15, 12) == OpcodeBits(Trap) && Bits(w, 11, 8) == "0000" && Bits(w, 7, 0) == vect
  {
    var w := OpcodeBits(Trap) + ("0000" + vect);
    OpcodeBitsShape(Trap);
    assert w == OpcodeBits(Trap) + "0000" + vect;
    Fields4(OpcodeBits(Trap), "0000", vect, "");
    assert OpcodeBits(Trap) + "0000" + vect + "" == w;
  }

  /** Appending a bit doubles the value and adds the bit. */
  lemma UnsignedSnoc(s: string, c: char)
    ensures Unsigned(s + [c]) == 2 * Unsigned(s) + (if c == '1' then 1 else 0)
  {
    assert (s + [c])[..|s|] == s;
  }

  /** The trap vector field of a word ending in `001000` or `001001` and two more bits. */
  lemma VectorValue(w: string, mid: char, x: char, y: char)
    requires |w| == 16 && w[8..] == "00100" + [mid, x, y]
    ensures Unsigned(Bits(w, 7, 0)) == 32 + (if mid == '1' then 4 else 0) + (if x == '1' then 2 else 0) + (if y == '1' then 1 else 0)
  {
    assert Bits(w, 7, 0) == "00100" + [mid, x, y];
    UnsignedSnoc("", '0');
    assert "" + ['0'] == "0";
    UnsignedSnoc("0", '0');
    assert "0" + ['0'] == "00";
    UnsignedSnoc("00", '1');
    assert "00" + ['1'] == "001";
    UnsignedSnoc("001", '0');
    assert "001" + ['0'] == "0010";
    UnsignedSnoc("0010", '0');
    assert "0010" + ['0'] == "00100";
    UnsignedSnoc("00100", mid);
    UnsignedSnoc("00100" + [mid], x);
    assert "00100" + [mid] + [x] == "00100" + [mid, x];
    UnsignedSnoc("00100" + [mid, x], y);
    assert "00100" + [mid, x] + [y] == "00100" + [mid, x, y];
  }

  /** The TRAP opcode and the four zero bits that follow it. */
  predicate TrapPrefix(w: string)
    requires |w| == 16
  {
    Bits(w, 15, 12) == OpcodeBits(Trap) && Bits(w, 11, 8) == "0000"
  }

  /** The trap aliases are TRAP words with their service routine's vector: GETC
      x20, OUT x21, PUTS x22, IN x23 and HALT x25. */
  lemma TrapAliasVectors()
    ensures TrapPrefix(FixedAsm(Getc)) && TrapPrefix(FixedAsm(Out)) && TrapPrefix(FixedAsm(Puts))
            && TrapPrefix(FixedAsm(In)) && TrapPrefix(FixedAsm(Halt))
    ensures Unsigned(Bits(FixedAsm(Getc), 7, 0)) == 0x20
    ensures Unsigned(Bits(FixedAsm(Out), 7, 0)) == 0x21
    ensures Unsigned(Bits(FixedAsm(Puts), 7, 0)) == 0x22
    ensures Unsigned(Bits(FixedAsm(In), 7, 0)) == 0x23
    ensures Unsigned(Bits(FixedAsm(Halt), 7, 0)) == 0x25
  {
    AliasWord(Getc, '0', '0', '0');
    AliasWord(Out, '0', '0', '1');
    AliasWord(Puts, '0', '1', '0');
    AliasWord(In, '0', '1', '1');
    AliasWord(Halt, '1', '0', '1');
  }

  /** A trap alias whose word ends in `00100`, `mid`, `x`, `y`. */
  lemma AliasWord(op: Opcode, mid: char, x: char, y: char)
    requires op == Getc || op == Halt || op == Out || op == In || op == Puts
    requires FixedAsm(op) == "1111000000100" + [mid, x, y]
    ensures TrapPrefix(FixedAsm(op))
    ensures Unsigned(Bits(FixedAsm(op), 7, 0)) == 32 + (if mid == '1' then 4 else 0) + (if x == '1' then 2 else 0) + (if y == '1' then 1 else 0)
  {
    var w := FixedAsm(op);
    assert w[8..] == "00100" + [mid, x, y];
    assert Bits(w, 15, 12) == "1111" == OpcodeBits(Trap);
    assert Bits(w, 11, 8) == "0000";
    VectorValue(w, mid, x, y);
  }

  /** RET is JMP R7, and RTI is its opcode followed by zeros. */
  lemma ReturnWords()
    ensures Bits(FixedAsm(Ret), 15, 12) == OpcodeBits(Jmp) && Unsigned(Bits(FixedAsm(Ret), 8, 6)) == 7
            && Bits(FixedAsm(Ret), 11, 9) == "000" && Bits(FixedAsm(Ret), 5, 0) == "000000"
    ensures Bits(FixedAsm(Rti), 15, 12) == OpcodeBits(Rti) && Unsigned(Bits(FixedAsm(Rti), 11, 0)) == 0
  {
    RetWord();
    RtiWord();
  }

  lemma RetWord()
    ensures Bits(FixedAsm(Ret), 15, 12) == OpcodeBits(Jmp) && Unsigned(Bits(FixedAsm(Ret), 8, 6)) == 7
            && Bits(FixedAsm(Ret), 11, 9) == "000" && Bits(FixedAsm(Ret), 5, 0) == "000000"
  {
    UnsignedSnoc("", '1');
    assert "" + ['1'] == "1";
    UnsignedSnoc("1", '1');
    assert "1" + ['1'] == "11";
    UnsignedSnoc("11", '1');
    assert "11" + ['1'] == "111";
    assert Bits(FixedAsm(Ret), 8, 6) == "111";
  }

  lemma RtiWord()
    ensures Bits(FixedAsm(Rti), 15, 12) == OpcodeBits(Rti) && Unsigned(Bits(FixedAsm(Rti), 11, 0)) == 0
  {
    ZerosValue(12);
    assert Bits(FixedAsm(Rti), 11, 0) == seq(12, _ => '0');
  }
}
