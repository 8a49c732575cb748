/** The instruction encoders of lc3as.py (lc3as.py:59-303): one function per
    register in `op_asm`, each turning the words of one instruction into a
    16-character string of '0'/'1'. The symbol table and `pc` that `calc_offset`
    reads are parameters. */
module Encoder {
  import opened Errors
  import opened Numeric
  import opened Opcodes
  import opened Lexer
  import opened Symbols

  /** A 16-bit instruction word, as `assemble` hands it to `int(instr, 2)`. */
  predicate IsWord(w: string) { |w| == 16 && IsBits(w) }

  /** Bits `hi` down to `lo` of a word, numbered 15 (leftmost) to 0 as in the
      LC-3 instruction set. */
  function Bits(w: string, hi: nat, lo: nat): string
    requires |w| == 16 && lo <= hi <= 15
  {
    w[15 - hi..16 - lo]
  }

  lemma BitsCat(a: string, b: string)
    requires IsBits(a) && IsBits(b)
    ensures IsBits(a + b)
  {
    assert forall k :: 0 <= k < |a| ==> (a + b)[k] == a[k];
    assert forall k :: |a| <= k < |a| + |b| ==> (a + b)[k] == b[k - |a|];
  }

  /** A word built from four fields has those fields at their places. */
  lemma Fields4(a: string, b: string, c: string, d: string)
    ensures var w := a + b + c + d;
            w[..|a|] == a && w[|a|..|a| + |b|] == b
            && w[|a| + |b|..|a| + |b| + |c|] == c && w[|a| + |b| + |c|..] == d
  {
    var w := a + b + c + d;
    assert w == a + (b + (c + d));
    assert w[|a|..] == b + (c + d);
    assert w[|a| + |b|..] == c + d;
  }

  /** Four bit fields make a bit string that holds each of them at its place. */
  lemma Layout(a: string, b: string, c: string, d: string)
    requires IsBits(a) && IsBits(b) && IsBits(c) && IsBits(d)
    ensures var w := a + b + c + d;
            IsBits(w) && w[..|a|] == a && w[|a|..|a| + |b|] == b
            && w[|a| + |b|..|a| + |b| + |c|] == c && w[|a| + |b| + |c|..] == d
  {
    BitsCat(a, b);
    BitsCat(a + b, c);
    BitsCat(a + b + c, d);
    Fields4(a, b, c, d);
  }

  /** A word of four fields behind a 4-bit prefix is a word with that prefix. */
  lemma OpcodeWord(a: string, b: string, c: string, d: string)
    requires |a| == 4 && |b| + |c| + |d| == 12
    requires IsBits(a) && IsBits(b) && IsBits(c) && IsBits(d)
    ensures IsWord(a + b + c + d) && (a + b + c + d)[..4] == a
  {
    Layout(a, b, c, d);
  }

  /** A branch word holds its flags in bits 11 to 9. */
  lemma BranchWord(flags: string, off: string)
    requires |flags| == 3 && |off| == 9 && IsBits(flags) && IsBits(off)
    ensures var w := OpcodeBits(Br) + flags + off + "";
            IsWord(w) && w[..4] == OpcodeBits(Br) && Bits(w, 11, 9) == flags
  {
    Layout(OpcodeBits(Br), flags, off, "");
  }

  lemma PrefixedWord(p: string, rest: string)
    requires |p| == 4 && |rest| == 12 && IsBits(p) && IsBits(rest)
    ensures IsWord(p + rest) && (p + rest)[..4] == p
  {
    BitsCat(p, rest);
  }

  lemma OpcodeBitsShape(op: Opcode)
    ensures |OpcodeBits(op)| == 4 && IsBits(OpcodeBits(op))
  {
  }

  // ----- operand fields -----

  /** `get_register(words[k])`. */
  function RegField(words: seq<string>, k: nat): (r: Result<string>)
    ensures r.Ok? <==> k < |words| && IsReg(words[k])
    ensures r.Ok? ==> |r.value| == 3 && IsBits(r.value) && Unsigned(r.value) == RegNum(words[k])
    ensures r.Err? ==> r.error.line == None && (r.error.exc == IndexError <==> k >= |words|)
  {
    var w :- Arg(words, k);
    GetRegister(w)
  }

  /** `int2binary(calc_offset(words[k]), n)`: a PC-relative field of `n` bits. */
  function OffsetField(words: seq<string>, k: nat, n: nat, table: map<string, int>, pc: int): (r: Result<string>)
    requires n >= 1
    ensures r.Ok? <==> k < |words| && CalcOffset(words[k], table, pc).Ok?
                       && !SignedOutOfRange(CalcOffset(words[k], table, pc).value, n)
    ensures r.Ok? ==> |r.value| == n && IsBits(r.value) && Signed(r.value) == CalcOffset(words[k], table, pc).value
    ensures r.Err? ==> r.error.line == None && (r.error.exc == IndexError <==> k >= |words|)
  {
    var w :- Arg(words, k);
    var off :- CalcOffset(w, table, pc);
    var f :- Int2Bin(off, n, true);
    SignedRoundTrip(off, n);
    Ok(f)
  }

  /** `int2binary(calc_imm(words[k]), n, signed)`: an immediate field of `n` bits. */
  function ImmField(words: seq<string>, k: nat, n: nat, signed: bool): (r: Result<string>)
    requires n >= 1
    ensures r.Ok? <==> k < |words| && IsImm(words[k])
                       && !(if signed then SignedOutOfRange(CalcImm(words[k]).value, n)
                            else UnsignedOutOfRange(CalcImm(words[k]).value, n))
    ensures r.Ok? ==> |r.value| == n && IsBits(r.value)
    ensures r.Ok? && signed ==> Signed(r.value) == CalcImm(words[k]).value
    ensures r.Ok? && !signed ==> Unsigned(r.value) == CalcImm(words[k]).value % Pow2(n)
    ensures r.Err? ==> r.error.line == None && (r.error.exc == IndexError <==> k >= |words|)
  {
    var w :- Arg(words, k);
    var v :- CalcImm(w);
    var f :- Int2Bin(v, n, signed);
    if signed then
      SignedRoundTrip(v, n);
      Ok(f)
    else Ok(f)
  }

  // ----- the encoders -----

  /** add_asm and and_asm (lc3as.py:60-92): DR, SR1, then SR2 or a 5-bit immediate.
      The fourth operand is an immediate when it looks like one, else a register. */
  function OperateAsm(op: Opcode, words: seq<string>): (r: Result<string>)
    requires op == Add || op == And
    ensures r.Ok? ==> IsWord(r.value) && r.value[..4] == OpcodeBits(op)
    ensures r.Err? ==> r.error.line == None
  {
    var dr :- RegField(words, 1);
    var sr :- RegField(words, 2);
    var w3 :- Arg(words, 3);
    if IsImm(w3) then
      var f :- ImmField(words, 3, 5, true);
      OpcodeBitsShape(op);
      BitsCat("1", f);
      OpcodeWord(OpcodeBits(op), dr, sr, "1" + f);
      Ok(OpcodeBits(op) + dr + sr + ("1" + f))
    else
      var sr2 :- GetRegister(w3);
      OpcodeBitsShape(op);
      BitsCat("000", sr2);
      OpcodeWord(OpcodeBits(op), dr, sr, "000" + sr2);
      Ok(OpcodeBits(op) + dr + sr + ("000" + sr2))
  }

  /** The condition flags n, z, p of a branch mnemonic, as three bits. */
  function Flags(n: bool, z: bool, p: bool): (f: string)
    ensures |f| == 3 && IsBits(f)
  {
    (if n then "1" else "0") + (if z then "1" else "0") + (if p then "1" else "0")
  }

  /** br_asm (lc3as.py:96-105) as written: a flag is set when its lowercase letter
      occurs in the mnemonic. */
  function BrAsmAsWritten(words: seq<string>, table: map<string, int>, pc: int): (r: Result<string>)
    requires |words| >= 1
    ensures r.Ok? ==> IsWord(r.value) && r.value[..4] == OpcodeBits(Br)
    ensures r.Ok? ==> Bits(r.value, 11, 9) == Flags('n' in words[0], 'z' in words[0], 'p' in words[0])
    ensures r.Err? ==> r.error.line == None
  {
    var off :- OffsetField(words, 1, 9, table, pc);
    var flags := Flags('n' in words[0], 'z' in words[0], 'p' in words[0]);
    BranchWord(flags, off);
    Ok(OpcodeBits(Br) + flags + off + "")
  }

  /** br_asm as evidently intended: a flag is set when its letter occurs in the
      mnemonic in either case, as br_pattern accepts both. */
  function BrAsm(words: seq<string>, table: map<string, int>, pc: int): (r: Result<string>)
    requires |words| >= 1
    ensures r.Ok? ==> IsWord(r.value) && r.value[..4] == OpcodeBits(Br)
    ensures r.Ok? ==> Bits(r.value, 11, 9) == Flags(HasLetter(words[0], 'n'), HasLetter(words[0], 'z'), HasLetter(words[0], 'p'))
    ensures r.Err? ==> r.error.line == None
  {
    var off :- OffsetField(words, 1, 9, table, pc);
    var flags := Flags(HasLetter(words[0], 'n'), HasLetter(words[0], 'z'), HasLetter(words[0], 'p'));
    BranchWord(flags, off);
    Ok(OpcodeBits(Br) + flags + off + "")
  }

  /** The lowercase letter `c` occurs in `s` in either case. */
  predicate HasLetter(s: string, c: char)
    requires 'a' <= c <= 'z'
  {
    c in s || UpperChar(c) in s
  }

  /** ld_asm, ldi_asm, lea_asm, st_asm and sti_asm (lc3as.py:145-253): a register
      and a 9-bit PC-relative offset. */
  function RegOffsetAsm(op: Opcode, words: seq<string>, table: map<string, int>, pc: int): (r: Result<string>)
    requires op == Ld || op == Ldi || op == Lea || op == St || op == Sti
    ensures r.Ok? ==> IsWord(r.value) && r.value[..4] == OpcodeBits(op)
    ensures r.Err? ==> r.error.line == None
  {
    var reg :- RegField(words, 1);
    var off :- OffsetField(words, 2, 9, table, pc);
    OpcodeBitsShape(op);
    OpcodeWord(OpcodeBits(op), reg, off, "");
    Ok(OpcodeBits(op) + reg + off + "")
  }

  /** jmp_asm and jsrr_asm (lc3as.py:109-141): a base register between zero fields. */
  function BaseJumpAsm(op: Opcode, words: seq<string>): (r: Result<string>)
    requires op == Jmp || op == Jsrr
    ensures r.Ok? ==> IsWord(r.value) && r.value[..4] == OpcodeBits(op)
    ensures r.Err? ==> r.error.line == None
  {
    var base :- RegField(words, 1);
    OpcodeBitsShape(op);
    OpcodeWord(OpcodeBits(op), "000", base, "000000");
    Ok(OpcodeBits(op) + "000" + base + "000000")
  }

  /** jsr_asm (lc3as.py:121-129): bit 11 set and an 11-bit PC-relative offset. */
  function JsrAsm(words: seq<string>, table: map<string, int>, pc: int): (r: Result<string>)
    ensures r.Ok? ==> IsWord(r.value) && r.value[..4] == OpcodeBits(Jsr)
    ensures r.Err? ==> r.error.line == None
  {
    var off :- OffsetField(words, 1, 11, table, pc);
    OpcodeBitsShape(Jsr);
    OpcodeWord(OpcodeBits(Jsr), "1", off, "");
    Ok(OpcodeBits(Jsr) + "1" + off + "")
  }

  /** ldr_asm (lc3as.py:171-181): DR, a base register and a 6-bit immediate. */
  function LdrAsm(words: seq<string>): (r: Result<string>)
    ensures r.Ok? ==> IsWord(r.value) && r.value[..4] == OpcodeBits(Ldr)
    ensures r.Err? ==> r.error.line == None
  {
    var dr :- RegField(words, 1);
    var base :- RegField(words, 2);
    var imm :- ImmField(words, 3, 6, true);
    OpcodeBitsShape(Ldr);
    OpcodeWord(OpcodeBits(Ldr), dr, base, imm);
    Ok(OpcodeBits(Ldr) + dr + base + imm)
  }

  /** str_asm (lc3as.py:257-267): SR, a base register and a 6-bit offset, which is
      read by calc_offset and so may be a label. */
  function StrAsm(words: seq<string>, table: map<string, int>, pc: int): (r: Result<string>)
    ensures r.Ok? ==> IsWord(r.value) && r.value[..4] == OpcodeBits(Str)
    ensures r.Err? ==> r.error.line == None
  {
    var sr :- RegField(words, 1);
    var base :- RegField(words, 2);
    var off :- OffsetField(words, 3, 6, table, pc);
    OpcodeBitsShape(Str);
    OpcodeWord(OpcodeBits(Str), sr, base, off);
    Ok(OpcodeBits(Str) + sr + base + off)
  }

  /** not_asm (lc3as.py:198-207): DR, SR and six ones. */
  function NotAsm(words: seq<string>): (r: Result<string>)
    ensures r.Ok? ==> IsWord(r.value) && r.value[..4] == OpcodeBits(Not)
    ensures r.Err? ==> r.error.line == None
  {
    var dr :- RegField(words, 1);
    var sr :- RegField(words, 2);
    OpcodeBitsShape(Not);
    OpcodeWord(OpcodeBits(Not), dr, sr, "111111");
    Ok(OpcodeBits(Not) + dr + sr + "111111")
  }

  /** trap_asm (lc3as.py:271-278): four zeros and an 8-bit unsigned trap vector. */
  function TrapAsm(words: seq<string>): (r: Result<string>)
    ensures r.Ok? ==> IsWord(r.value) && r.value[..4] == OpcodeBits(Trap)
    ensures r.Err? ==> r.error.line == None
  {
    var vect :- ImmField(words, 1, 8, false);
    OpcodeBitsShape(Trap);
    BitsCat("0000", vect);
    PrefixedWord(OpcodeBits(Trap), "0000" + vect);
    Ok(OpcodeBits(Trap) + ("0000" + vect))
  }

  /** The encoders that ignore their operands: ret_asm, rti_asm and the trap
      aliases getc_asm, halt_asm, out_asm, in_asm and puts_asm (lc3as.py:211-303). */
  function FixedAsm(op: Opcode): string
    requires op == Ret || op == Rti || op == Getc || op == Halt || op == Out || op == In || op == Puts
  {
    match op
    case Ret => "1100000111000000"
    case Rti => "1000000000000000"
    case Getc => "1111000000100000"
    case Halt => "1111000000100101"
    case Out => "1111000000100001"
    case In => "1111000000100011"
    case Puts => "1111000000100010"
  }

  /** `op_asm[name](words)`: the encoder registered for an opcode. */
  function OpAsm(op: Opcode, words: seq<string>, table: map<string, int>, pc: int): (r: Result<string>)
    requires |words| >= 1
    ensures r.Ok? ==> IsWord(r.value) && r.value[..4] == OpcodeBits(op)
    ensures r.Err? ==> r.error.line == None
  {
    match op
    case Add => OperateAsm(op, words)
    case And => OperateAsm(op, words)
    case Br => BrAsm(words, table, pc)
    case Jmp => BaseJumpAsm(op, words)
    case Jsrr => BaseJumpAsm(op, words)
    case Jsr => JsrAsm(words, table, pc)
    case Ld => RegOffsetAsm(op, words, table, pc)
    case Ldi => RegOffsetAsm(op, words, table, pc)
    case Lea => RegOffsetAsm(op, words, table, pc)
    case St => RegOffsetAsm(op, words, table, pc)
    case Sti => RegOffsetAsm(op, words, table, pc)
    case Ldr => LdrAsm(words)
    case Str => StrAsm(words, table, pc)
    case Not => NotAsm(words)
    case Trap => TrapAsm(words)
    case _ => FixedWordLayout(op); Ok(FixedAsm(op))
  }

  /** Every fixed word is a word with its opcode's prefix. */
  lemma FixedWordLayout(op: Opcode)
    requires op == Ret || op == Rti || op == Getc || op == Halt || op == Out || op == In || op == Puts
    ensures IsWord(FixedAsm(op)) && FixedAsm(op)[..4] == OpcodeBits(op)
  {
  }

  // ----- pseudo-ops without state -----

  /** The all-zero word that .BLKW reserves and that ends a .STRINGZ. */
  const Zero: string := "0000000000000000"

  /** fill_asm (lc3as.py:315-317): one word holding an address as 16 unsigned bits. */
  function FillAsm(words: seq<string>, table: map<string, int>): (r: Result<seq<string>>)
    ensures r.Ok? <==> 1 < |words| && CalcAddress(words[1], table).Ok? && CalcAddress(words[1], table).value < 0x1_0000
    ensures r.Ok? ==> |r.value| == 1 && IsWord(r.value[0])
                      && Unsigned(r.value[0]) == CalcAddress(words[1], table).value % 0x1_0000
    ensures r.Err? ==> r.error.line == None
  {
    Pow2Of16();
    var w :- Arg(words, 1);
    var a :- CalcAddress(w, table);
    var f :- Int2Bin(a, 16, false);
    Ok([f])
  }

  /** blkw_asm (lc3as.py:321-323): as many zero words as the immediate says; a
      count below zero gives none, as a Python list repeated a negative number of
      times is empty. */
  function BlkwAsm(words: seq<string>): (r: Result<seq<string>>)
    ensures r.Ok? <==> 1 < |words| && IsImm(words[1])
    ensures r.Ok? ==> var n := CalcImm(words[1]).value;
                      |r.value| == (if n < 0 then 0 else n) && forall k :: 0 <= k < |r.value| ==> r.value[k] == Zero
    ensures r.Err? ==> r.error.line == None && (r.error.exc == IndexError <==> |words| < 2)
  {
    var w :- Arg(words, 1);
    var n :- CalcImm(w);
    Ok(seq(if n < 0 then 0 else n, _ => Zero))
  }

  /** `int2binary(ord(c), 16, False)`: the word for one character of a .STRINGZ. */
  function CharWord(c: char): (r: Result<string>)
    ensures r.Ok? <==> c as int < 0x1_0000
    ensures r.Ok? ==> IsWord(r.value) && Unsigned(r.value) == c as int
    ensures r.Err? ==> r.error == Error(ValueError, None)
  {
    Pow2Of16();
    var w := Int2Bin(c as int, 16, false);
    if w.Ok? then UnsignedRoundTrip(c as int, 16); w else w
  }

  /** The words stringz_asm has produced once it has appended the code of every
      character from `i` on to `acc`, and then the terminating zero. */
  function StringzFrom(s: string, i: nat, acc: seq<string>): Result<seq<string>>
    requires i <= |s|
    decreases |s| - i
  {
    if i == |s| then Ok(acc + [Zero])
    else
      var w :- CharWord(s[i]);
      StringzFrom(s, i + 1, acc + [w])
  }

  /** What stringz_asm (lc3as.py:332-337) returns for the decoded string in `words[1]`. */
  function StringzWords(words: seq<string>): Result<seq<string>> {
    var s :- Arg(words, 1);
    StringzFrom(s, 0, [])
  }

  /** stringz_asm (lc3as.py:332-337): one 16-bit word per character code, then a zero word. */
  method StringzAsm(words: seq<string>) returns (r: Result<seq<string>>)
    ensures r == StringzWords(words)
  {
    if |words| < 2 {
      return Raise(IndexError);
    }
    var s := words[1];
    var instrs: seq<string> := [];
    for i := 0 to |s|
      invariant StringzFrom(s, i, instrs) == StringzFrom(s, 0, [])
    {
      var w := Int2Binary(s[i] as int, 16, false);
      assert w == CharWord(s[i]);
      if w.Err? {
        return Err(w.error);
      }
      instrs := instrs + [w.value];
    }
    r := Ok(instrs + [Zero]);
  }

  /** The words for the characters from `i` on succeed exactly when every one of
      them fits in 16 bits; otherwise the result is a ValueError. */
  lemma {:induction false} StringzFromSucceeds(s: string, i: nat, acc: seq<string>)
    requires i <= |s|
    ensures StringzFrom(s, i, acc).Ok? <==> forall k :: i <= k < |s| ==> s[k] as int < 0x1_0000
    ensures StringzFrom(s, i, acc).Err? ==> StringzFrom(s, i, acc).error == Error(ValueError, None)
    decreases |s| - i
  {
    if i < |s| {
      var w := CharWord(s[i]);
      if w.Ok? {
        StringzFromSucceeds(s, i + 1, acc + [w.value]);
      }
    }
  }

  /** On success the words extend `acc` by one word per character and a final zero. */
  lemma {:induction false} StringzFromShape(s: string, i: nat, acc: seq<string>)
    requires i <= |s| && StringzFrom(s, i, acc).Ok?
    ensures var v := StringzFrom(s, i, acc).value;
            |v| == |acc| + (|s| - i) + 1 && v[..|acc|] == acc && v[|v| - 1] == Zero
    decreases |s| - i
  {
    if i < |s| {
      var acc' := acc + [CharWord(s[i]).value];
      StringzFromShape(s, i + 1, acc');
      var v := StringzFrom(s, i + 1, acc').value;
      assert v[..|acc|] == v[..|acc'|][..|acc|];
    }
  }

  /** On success the word at each character's place is that character's code. */
  lemma {:induction false} StringzFromCodes(s: string, i: nat, acc: seq<string>, k: nat)
    requires i <= k < |s| && StringzFrom(s, i, acc).Ok?
    ensures var v := StringzFrom(s, i, acc).value;
            |v| == |acc| + (|s| - i) + 1 && IsWord(v[|acc| + (k - i)]) && Unsigned(v[|acc| + (k - i)]) == s[k] as int
    decreases |s| - i
  {
    var acc' := acc + [CharWord(s[i]).value];
    assert StringzFrom(s, i, acc) == StringzFrom(s, i + 1, acc');
    assert |acc'| == |acc| + 1;
    if k == i {
      StringzFromHead(s, i, acc');
      assert |acc'| - 1 == |acc| + (k - i);
    } else {
      StringzFromCodes(s, i + 1, acc', k);
      assert |acc'| + (k - (i + 1)) == |acc| + (k - i);
    }
  }

  /** The word just appended for character `i` stays in place. */
  lemma StringzFromHead(s: string, i: nat, acc': seq<string>)
    requires i < |s| && CharWord(s[i]).Ok? && |acc'| >= 1 && acc'[|acc'| - 1] == CharWord(s[i]).value
    requires StringzFrom(s, i + 1, acc').Ok?
    ensures var v := StringzFrom(s, i + 1, acc').value;
            |v| == |acc'| + (|s| - i - 1) + 1 && IsWord(v[|acc'| - 1]) && Unsigned(v[|acc'| - 1]) == s[i] as int
  {
    StringzFromShape(s, i + 1, acc');
    var v := StringzFrom(s, i + 1, acc').value;
    assert v[|acc'| - 1] == v[..|acc'|][|acc'| - 1];
  }

  /** .STRINGZ turns a string of n characters into n + 1 words: the character codes
      in order and then a zero word. A character beyond 16 bits is a ValueError, a
      missing operand an IndexError. */
  lemma StringzContents(words: seq<string>)
    ensures var r := StringzWords(words);
            (r.Ok? <==> 1 < |words| && forall k :: 0 <= k < |words[1]| ==> words[1][k] as int < 0x1_0000)
            && (r.Ok? ==> |r.value| == |words[1]| + 1 && r.value[|words[1]|] == Zero
                          && forall k :: 0 <= k < |words[1]| ==> IsWord(r.value[k]) && Unsigned(r.value[k]) == words[1][k] as int)
            && (r.Err? ==> r.error.line == None && (r.error.exc == IndexError <==> |words| < 2))
  {
    if 1 < |words| {
      assert StringzWords(words) == StringzFrom(words[1], 0, []);
      StringzFromSucceeds(words[1], 0, []);
      if StringzFrom(words[1], 0, []).Ok? {
        StringContents(words[1]);
      }
    }
  }

  /** The words of a string that fits: its codes in order, then a zero word. */
  lemma StringContents(s: string)
    requires StringzFrom(s, 0, []).Ok?
    ensures var v := StringzFrom(s, 0, []).value;
            |v| == |s| + 1 && v[|s|] == Zero
            && forall k :: 0 <= k < |s| ==> IsWord(v[k]) && Unsigned(v[k]) == s[k] as int
  {
    StringzFromShape(s, 0, []);
    var v := StringzFrom(s, 0, []).value;
    forall k | 0 <= k < |s|
      ensures IsWord(v[k]) && Unsigned(v[k]) == s[k] as int
    {
      StringCode(s, k);
    }
  }

  lemma StringCode(s: string, k: nat)
    requires k < |s| && StringzFrom(s, 0, []).Ok?
    ensures var v := StringzFrom(s, 0, []).value;
            k < |v| && IsWord(v[k]) && Unsigned(v[k]) == s[k] as int
  {
    StringzFromCodes(s, 0, [], k);
    var empty: seq<string> := [];
    assert |empty| + (k - 0) == k;
  }

  lemma Pow2Of16()
    ensures Pow2(16) == 0x1_0000
  {
    assert Pow2(1) == 2;
    assert Pow2(2) == 4;
    assert Pow2(3) == 8;
    assert Pow2(4) == 16;
    assert Pow2(5) == 32;
    assert Pow2(6) == 64;
    assert Pow2(7) == 128;
    assert Pow2(8) == 256;
    assert Pow2(9) == 512;
    assert Pow2(10) == 1024;
    assert Pow2(11) == 2048;
    assert Pow2(12) == 4096;
    assert Pow2(13) == 8192;
    assert Pow2(14) == 16384;
    assert Pow2(15) == 32768;
  }

  // ----- struct.pack -----

  newtype byte = x: int | 0 <= x < 256

  /** The two bytes `struct.pack('!H', v)` writes: big-endian, high byte first. */
  datatype Code = Code(hi: byte, lo: byte)

  /** `struct.pack('!H', int(instr, 2))` for a 16-bit word. */
  function Pack(w: string): (c: Code)
    requires IsWord(w)
    ensures c.hi as int * 256 + c.lo as int == Unsigned(w)
  {
    UnsignedBound(w);
    Pow2Of16();
    var v := Unsigned(w);
    Code((v / 256) as byte, (v % 256) as byte)
  }
}
