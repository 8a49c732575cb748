/** assemble (lc3as.py:39-56) and orig_asm (lc3as.py:306-310): one instruction
    record becomes its machine words, packed two bytes each. The globals these
    read and write (symbol_table, pc and orig_address) are passed in and out. */
module Assembly {
  import opened Errors
  import opened Numeric
  import opened Opcodes
  import opened Lexer
  import opened Symbols
  import opened Encoder
  import opened Layouts

  /** `s.startswith(p)`. */
  predicate StartsWith(s: string, p: string) {
    |p| <= |s| && s[..|p|] == p
  }

  /** orig_asm: `orig_address` becomes the operand before int2binary checks it, so
      an operand of 2^16 or more still moves the origin and then fails. */
  function OrigAsm(words: seq<string>, orig: int): (r: (Result<seq<string>>, int))
    ensures r.1 == (if 1 < |words| && IsImm(words[1]) then CalcImm(words[1]).value else orig)
    ensures r.0.Ok? <==> 1 < |words| && IsImm(words[1]) && CalcImm(words[1]).value < 0x1_0000
    ensures r.0.Ok? ==> |r.0.value| == 1 && IsWord(r.0.value[0]) && Unsigned(r.0.value[0]) == r.1 % 0x1_0000
    ensures r.0.Err? ==> r.0.error.line == None && (r.0.error.exc == IndexError <==> |words| < 2)
  {
    Pow2Of16();
    match Arg(words, 1)
    case Err(e) => (Err(e), orig)
    case Ok(w) =>
      match CalcImm(w)
      case Err(e) => (Err(e), orig)
      case Ok(v) =>
        match Int2Bin(v, 16, false)
        case Err(e) => (Err(e), v)
        case Ok(f) => (Ok([f]), v)
  }

  /** Every word .BLKW reserves is a zero word. */
  lemma ZeroIsWord()
    ensures IsWord(Zero) && Unsigned(Zero) == 0
  {
    assert Zero == seq(16, _ => '0');
    ZerosValue(16);
  }

  /** The instruction words `assemble` produces for one record, before packing:
      a BR-prefixed op must be a branch mnemonic, an opcode goes to its encoder, a
      pseudo-op to its handler, anything else is a ValueError. The second component
      is `orig_address` afterwards, which only .ORIG changes. */
  function Instrs(words: seq<string>, table: map<string, int>, orig: int, pc: int): (r: (Result<seq<string>>, int))
    ensures r.0.Ok? ==> forall k :: 0 <= k < |r.0.value| ==> IsWord(r.0.value[k])
    ensures r.0.Err? ==> r.0.error.line == None
    ensures r.1 != orig ==> |words| > 1 && words[0] == ".ORIG"
  {
    if |words| == 0 then (Raise(IndexError), orig)
    else if StartsWith(words[0], "BR") then
      if !IsBrMnemonic(words[0]) then (Raise(ValueError), orig)
      else (Single(BrAsm(words, table, pc)), orig)
    else match OpcodeNamed(words[0])
      case Some(op) => (Single(OpAsm(op, words, table, pc)), orig)
      case None =>
        match PseudoNamed(words[0])
        case None => (Raise(ValueError), orig)
        case Some(p) => PseudoNamedIsInverse(words[0], p); PseudoInstrs(p, words, table, orig)
  }

  /** `pseudo_asm[words[0]](words)`. */
  function PseudoInstrs(p: Pseudo, words: seq<string>, table: map<string, int>, orig: int): (r: (Result<seq<string>>, int))
    ensures r.0.Ok? ==> forall k :: 0 <= k < |r.0.value| ==> IsWord(r.0.value[k])
    ensures r.0.Err? ==> r.0.error.line == None
    ensures r.1 != orig ==> |words| > 1 && p == Orig
  {
    match p
    case Orig => OrigAsm(words, orig)
    case Fill => (FillAsm(words, table), orig)
    case Blkw => BlkwAllWords(words); (BlkwAsm(words), orig)
    case End => (Ok([]), orig)
    case Stringz => StringzAllWords(words); (StringzWords(words), orig)
  }

  lemma BlkwAllWords(words: seq<string>)
    ensures BlkwAsm(words).Ok? ==> forall k :: 0 <= k < |BlkwAsm(words).value| ==> IsWord(BlkwAsm(words).value[k])
  {
    ZeroIsWord();
  }

  lemma StringzAllWords(words: seq<string>)
    ensures StringzWords(words).Ok? ==> forall k :: 0 <= k < |StringzWords(words).value| ==> IsWord(StringzWords(words).value[k])
    ensures StringzWords(words).Err? ==> StringzWords(words).error.line == None
  {
    if 1 < |words| {
      assert StringzWords(words) == StringzFrom(words[1], 0, []);
      StringzFromSucceeds(words[1], 0, []);
      if StringzFrom(words[1], 0, []).Ok? {
        StringContents(words[1]);
        ZeroIsWord();
      }
    }
  }

  /** assemble's two ValueErrors of its own: an op that starts with BR but is no
      branch mnemonic, and an op that is neither an opcode nor a pseudo-op. */
  lemma AssembleRejects(words: seq<string>, table: map<string, int>, orig: int, pc: int)
    requires |words| > 0
    requires (StartsWith(words[0], "BR") && !IsBrMnemonic(words[0]))
             || (!StartsWith(words[0], "BR") && OpcodeNamed(words[0]).None? && PseudoNamed(words[0]).None?)
    ensures Assemble(words, table, orig, pc) == (Err(Error(ValueError, None)), orig)
  {
  }

  /** A bare BR is registered in `op_asm`, so pass 1 counts it as an instruction,
      but it does not match br_pattern, so assemble rejects it. */
  lemma BareBrRejected(words: seq<string>, table: map<string, int>, orig: int, pc: int)
    requires |words| > 0 && words[0] == "BR"
    ensures OpcodeNamed(words[0]) == Some(Br)
    ensures Assemble(words, table, orig, pc) == (Err(Error(ValueError, None)), orig)
  {
    assert StartsWith(words[0], "BR");
    assert !IsBrMnemonic(words[0]);
    AssembleRejects(words, table, orig, pc);
  }

  /** For a branch as the parser hands it on (upper case), the code's br_asm
      succeeds exactly when dispatch does here, and gives the same word with the
      flag bits 11-9 cleared. */
  lemma BranchAsWritten(words: seq<string>, table: map<string, int>, orig: int, pc: int)
    requires |words| > 0 && IsBrMnemonic(words[0]) && words[0] == Upper(words[0])
    ensures var r := Instrs(words, table, orig, pc).0;
            (r.Ok? <==> BrAsmAsWritten(words, table, pc).Ok?)
            && (r.Ok? ==> |r.value| == 1 && BrAsmAsWritten(words, table, pc).value == r.value[0][..4] + "000" + r.value[0][7..])
  {
    assert StartsWith(words[0], "BR");
    BrAsWrittenClearsFlags(words, table, pc);
  }

  /** The list `[op_asm[...](words)]` of one encoded word. */
  function Single(w: Result<string>): (r: Result<seq<string>>)
    ensures r.Ok? <==> w.Ok?
    ensures r.Ok? ==> r.value == [w.value]
    ensures r.Err? ==> r.error == w.error
  {
    var v :- w;
    Ok([v])
  }

  /** `[struct.pack('!H', int(instr, 2)) for instr in instrs]`. */
  function Packs(ws: seq<string>): (cs: seq<Code>)
    requires forall k :: 0 <= k < |ws| ==> IsWord(ws[k])
    ensures |cs| == |ws|
    ensures forall k :: 0 <= k < |ws| ==> cs[k].hi as int * 256 + cs[k].lo as int == Unsigned(ws[k])
  {
    seq(|ws|, k requires 0 <= k < |ws| => Pack(ws[k]))
  }

  /** assemble: the packed machine code of one record and `orig_address` afterwards. */
  function Assemble(words: seq<string>, table: map<string, int>, orig: int, pc: int): (r: (Result<seq<Code>>, int))
    ensures r.0.Ok? <==> Instrs(words, table, orig, pc).0.Ok?
    ensures r.0.Ok? ==> |r.0.value| == |Instrs(words, table, orig, pc).0.value|
    ensures r.0.Ok? ==> forall k :: 0 <= k < |r.0.value| ==>
              r.0.value[k].hi as int * 256 + r.0.value[k].lo as int == Unsigned(Instrs(words, table, orig, pc).0.value[k])
    ensures r.0.Err? ==> r.0.error == Instrs(words, table, orig, pc).0.error
    ensures r.1 == Instrs(words, table, orig, pc).1
  {
    var (instrs, orig') := Instrs(words, table, orig, pc);
    match instrs
    case Ok(ws) => (Ok(Packs(ws)), orig')
    case Err(e) => (Err(e), orig')
  }
}
