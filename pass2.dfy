/** Pass 2: pass2 (lc3as.py:506-520) assembles the records of pass 1 in order,
    setting the global `pc` before each to the origin plus the number of words
    emitted so far. */
module Pass2 {
  import opened Errors
  import opened Opcodes
  import opened Lexer
  import opened Encoder
  import opened Assembly
  import opened Pass1

  /** The module globals `symbol_table`, `orig_address` and `pc`. */
  datatype Globals = Globals(symbols: map<string, int>, orig: int, pc: int)

  /** The `except ValueError` of pass2: a ValueError gets the record's line number,
      anything else propagates as it is. */
  function AtLine(e: Error, n: nat): Error {
    if e.exc == ValueError then Error(ValueError, Some(n)) else e
  }

  /** What pass 2 calls for one record, as `assemble` (Assembly.Assemble) is: the
      words, the symbol table, `orig_address` and `pc` give the packed words and the
      new `orig_address`. The loop is written over it so that its properties rest
      only on what `assemble` promises. */
  type RecordAssembler = (seq<string>, map<string, int>, int, int) -> (Result<seq<Code>>, int)

  /** The loop from record `i` on, with `codes` emitted so far: the packed words and
      the globals afterwards. */
  function Pass2From(asm: RecordAssembler, records: seq<Record>, i: nat, codes: seq<Code>, g: Globals): (Result<seq<Code>>, Globals)
    requires i <= |records|
    decreases |records| - i
  {
    if i == |records| then (Ok(codes), g)
    else
      var pc := |codes| + g.orig;
      var a := asm(records[i].words, g.symbols, g.orig, pc);
      var g' := Globals(g.symbols, a.1, pc);
      match a.0
      case Err(e) => (Err(AtLine(e, records[i].line)), g')
      case Ok(cs) => Pass2From(asm, records, i + 1, codes + cs, g')
  }

  /** pass2. */
  function Pass2Run(records: seq<Record>, g: Globals): (Result<seq<Code>>, Globals) {
    Pass2From(Assemble, records, 0, [], g)
  }

  // ----- the reference: addresses as pass 1 counted them -----

  /** The address pass 1 gave record `k`: the origin plus the words of the records before it. */
  function Address(records: seq<Record>, k: nat, orig: int): int
    requires k <= |records|
  {
    orig + SumReserved(records[..k])
  }

  /** Assembly with every instruction's `pc` taken from pass 1: one past its own
      address, which is the incremented PC that LC-3 PC-relative operands count
      from. The .ORIG record does not read `pc`. */
  function ReferenceFrom(asm: RecordAssembler, records: seq<Record>, i: nat, codes: seq<Code>, symbols: map<string, int>, orig: int): Result<seq<Code>>
    requires i <= |records|
    decreases |records| - i
  {
    if i == |records| then Ok(codes)
    else
      var pc := if i == 0 then orig else Address(records, i, orig) + 1;
      match asm(records[i].words, symbols, orig, pc).0
      case Err(e) => Err(AtLine(e, records[i].line))
      case Ok(cs) => ReferenceFrom(asm, records, i + 1, codes + cs, symbols, orig)
  }

  function Reference(records: seq<Record>, symbols: map<string, int>, orig: int): Result<seq<Code>> {
    ReferenceFrom(Assemble, records, 0, [], symbols, orig)
  }

  /** Records as a successful pass 1 leaves them, with no negative .BLKW count. */
  predicate WellFormed(records: seq<Record>, orig: int) {
    |records| >= 1 && OrigRecord(records[0].words, orig)
    && (forall k :: 1 <= k < |records| ==> BodyRecord(records[k].words) && !NegativeBlkw(records[k].words))
  }

  predicate NegativeBlkw(words: seq<string>) {
    |words| >= 2 && words[0] == ".BLKW" && IsImm(words[1]) && CalcImm(words[1]).value < 0
  }

  // ----- properties -----

  lemma BodyRecordIsNoOrig(words: seq<string>)
    requires BodyRecord(words)
    ensures words[0] != ".ORIG"
  {
  }

  /** Pass 2 emits for every later record the number of words pass 1 counted for
      it: one per instruction or .FILL, the count of a .BLKW, the characters and a
      terminator for a .STRINGZ. */
  lemma EmittedWords(words: seq<string>, table: map<string, int>, orig: int, pc: int)
    requires BodyRecord(words) && !NegativeBlkw(words) && Instrs(words, table, orig, pc).0.Ok?
    ensures |Instrs(words, table, orig, pc).0.value| == Reserved(words)
  {
    var w0 := words[0];
    if !StartsWith(w0, "BR") && OpcodeNamed(w0).None? {
      var p := PseudoNamed(w0).value;
      PseudoNamedIsInverse(w0, p);
      if p == Stringz {
        StringzContents(words);
      }
    }
  }

  /** A negative .BLKW count is added to `cur_address` by pass 1 but emits no words
      in pass 2, so the addresses of everything after it disagree. */
  lemma NegativeBlkwMismatch(words: seq<string>, table: map<string, int>, orig: int, pc: int)
    requires NegativeBlkw(words)
    ensures Instrs(words, table, orig, pc).0 == Ok([])
    ensures Reserved(words) < 0
  {
    assert ".BLKW"[..2][0] == '.';
  }

  lemma SumReservedPrefix(records: seq<Record>, i: nat)
    requires i < |records|
    ensures SumReserved(records[..i + 1]) == SumReserved(records[..i]) + Reserved(records[i].words)
  {
    assert records[..i + 1] == records[..i] + [records[i]];
    SumReservedAppend(records[..i], records[i]);
  }

  /** What the loop needs of the assembler on the records from `k` on: it leaves
      `orig_address` at the origin and emits one word for the .ORIG record (which
      pass 1 counts as none) and the counted words for every other. */
  ghost predicate Counted(asm: RecordAssembler, records: seq<Record>, k: nat, symbols: map<string, int>, orig: int)
    requires k <= |records|
    decreases |records| - k
  {
    k == |records|
    || ((k == 0 ==> Reserved(records[0].words) == 0)
        && RecordCounted(asm, records, k, symbols, orig)
        && Counted(asm, records, k + 1, symbols, orig))
  }

  /** The same for record `k` alone, at the `pc` the loop reaches it with. */
  ghost predicate RecordCounted(asm: RecordAssembler, records: seq<Record>, k: nat, symbols: map<string, int>, orig: int)
    requires k < |records|
  {
    asm(records[k].words, symbols, orig, Emitted(records, k) + orig).1 == orig
    && (asm(records[k].words, symbols, orig, Emitted(records, k) + orig).0.Ok? ==>
          |asm(records[k].words, symbols, orig, Emitted(records, k) + orig).0.value| == if k == 0 then 1 else Reserved(records[k].words))
  }

  /** `assemble` on one record pass 1 produced. */
  lemma AssembleCountsRecord(records: seq<Record>, k: nat, symbols: map<string, int>, orig: int)
    requires k < |records| && WellFormed(records, orig)
    ensures RecordCounted(Assemble, records, k, symbols, orig)
  {
    var words := records[k].words;
    var pc := Emitted(records, k) + orig;
    if k == 0 {
      assert OrigRecord(words, orig);
    } else {
      BodyRecordIsNoOrig(words);
      if Instrs(words, symbols, orig, pc).0.Ok? {
        EmittedWords(words, symbols, orig, pc);
      }
    }
  }

  /** The .ORIG record reserves no words. */
  lemma OrigReservesNone(words: seq<string>, orig: int)
    requires OrigRecord(words, orig)
    ensures Reserved(words) == 0
  {
  }

  lemma {:induction false} AssembleCounts(records: seq<Record>, k: nat, symbols: map<string, int>, orig: int)
    requires k <= |records| && WellFormed(records, orig)
    ensures Counted(Assemble, records, k, symbols, orig)
    decreases |records| - k
  {
    if k < |records| {
      AssembleCountsRecord(records, k, symbols, orig);
      if k == 0 {
        OrigReservesNone(records[0].words, orig);
      }
      AssembleCounts(records, k + 1, symbols, orig);
    }
  }

  /** The words emitted for the first `i` records: one for the .ORIG and the counted
      words of the others. */
  function Emitted(records: seq<Record>, i: nat): int
    requires i <= |records|
  {
    if i == 0 then 0 else 1 + SumReserved(records[..i])
  }

  /** One record of the loop: `pc` is the reference's, `orig_address` stays, and
      the words emitted so far are the ones counted. */
  lemma FollowsStep(asm: RecordAssembler, records: seq<Record>, i: nat, codes: seq<Code>, symbols: map<string, int>, orig: int)
    requires i < |records| && Counted(asm, records, i, symbols, orig)
    requires |codes| == Emitted(records, i)
    ensures |codes| + orig == if i == 0 then orig else Address(records, i, orig) + 1
    ensures asm(records[i].words, symbols, orig, |codes| + orig).1 == orig
    ensures asm(records[i].words, symbols, orig, |codes| + orig).0.Ok? ==>
              |codes + asm(records[i].words, symbols, orig, |codes| + orig).0.value| == Emitted(records, i + 1)
    ensures Counted(asm, records, i + 1, symbols, orig)
  {
    SumReservedPrefix(records, i);
  }

  /** One turn of the loop. */
  lemma Pass2FromStep(asm: RecordAssembler, records: seq<Record>, i: nat, codes: seq<Code>, g: Globals)
    requires i < |records|
    ensures var pc := |codes| + g.orig;
            var a := asm(records[i].words, g.symbols, g.orig, pc);
            Pass2From(asm, records, i, codes, g)
              == if a.0.Err? then (Err(AtLine(a.0.error, records[i].line)), Globals(g.symbols, a.1, pc))
                 else Pass2From(asm, records, i + 1, codes + a.0.value, Globals(g.symbols, a.1, pc))
  {
  }

  /** A record that assembles: both loops go on with the same words appended. */
  lemma OkTurn(asm: RecordAssembler, records: seq<Record>, i: nat, codes: seq<Code>, symbols: map<string, int>, orig: int, pc: int)
    requires i < |records| && |codes| + orig == if i == 0 then orig else Address(records, i, orig) + 1
    requires asm(records[i].words, symbols, orig, |codes| + orig).1 == orig
    requires asm(records[i].words, symbols, orig, |codes| + orig).0.Ok?
    ensures Pass2From(asm, records, i, codes, Globals(symbols, orig, pc)).0
            == Pass2From(asm, records, i + 1, codes + asm(records[i].words, symbols, orig, |codes| + orig).0.value,
                         Globals(symbols, orig, |codes| + orig)).0
    ensures ReferenceFrom(asm, records, i, codes, symbols, orig)
            == ReferenceFrom(asm, records, i + 1, codes + asm(records[i].words, symbols, orig, |codes| + orig).0.value, symbols, orig)
  {
    Pass2FromOk(asm, records, i, codes, symbols, orig, pc);
    ReferenceFromOk(asm, records, i, codes, symbols, orig);
  }

  lemma Pass2FromOk(asm: RecordAssembler, records: seq<Record>, i: nat, codes: seq<Code>, symbols: map<string, int>, orig: int, pc: int)
    requires i < |records|
    requires asm(records[i].words, symbols, orig, |codes| + orig).1 == orig
    requires asm(records[i].words, symbols, orig, |codes| + orig).0.Ok?
    ensures Pass2From(asm, records, i, codes, Globals(symbols, orig, pc)).0
            == Pass2From(asm, records, i + 1, codes + asm(records[i].words, symbols, orig, |codes| + orig).0.value,
                         Globals(symbols, orig, |codes| + orig)).0
  {
    Pass2FromStep(asm, records, i, codes, Globals(symbols, orig, pc));
  }

  lemma ReferenceFromOk(asm: RecordAssembler, records: seq<Record>, i: nat, codes: seq<Code>, symbols: map<string, int>, orig: int)
    requires i < |records| && |codes| + orig == if i == 0 then orig else Address(records, i, orig) + 1
    requires asm(records[i].words, symbols, orig, |codes| + orig).0.Ok?
    ensures ReferenceFrom(asm, records, i, codes, symbols, orig)
            == ReferenceFrom(asm, records, i + 1, codes + asm(records[i].words, symbols, orig, |codes| + orig).0.value, symbols, orig)
  {
  }

  /** A record that fails: both loops stop with the same error. */
  lemma ErrTurn(asm: RecordAssembler, records: seq<Record>, i: nat, codes: seq<Code>, symbols: map<string, int>, orig: int, pc: int)
    requires i < |records| && |codes| + orig == if i == 0 then orig else Address(records, i, orig) + 1
    requires asm(records[i].words, symbols, orig, |codes| + orig).0.Err?
    ensures Pass2From(asm, records, i, codes, Globals(symbols, orig, pc)).0 == ReferenceFrom(asm, records, i, codes, symbols, orig)
    ensures Pass2From(asm, records, i, codes, Globals(symbols, orig, pc)).0.Err?
  {
    Pass2FromErr(asm, records, i, codes, symbols, orig, pc);
    ReferenceFromErr(asm, records, i, codes, symbols, orig);
  }

  lemma Pass2FromErr(asm: RecordAssembler, records: seq<Record>, i: nat, codes: seq<Code>, symbols: map<string, int>, orig: int, pc: int)
    requires i < |records| && asm(records[i].words, symbols, orig, |codes| + orig).0.Err?
    ensures Pass2From(asm, records, i, codes, Globals(symbols, orig, pc)).0
            == Err(AtLine(asm(records[i].words, symbols, orig, |codes| + orig).0.error, records[i].line))
  {
  }

  lemma ReferenceFromErr(asm: RecordAssembler, records: seq<Record>, i: nat, codes: seq<Code>, symbols: map<string, int>, orig: int)
    requires i < |records| && |codes| + orig == if i == 0 then orig else Address(records, i, orig) + 1
    requires asm(records[i].words, symbols, orig, |codes| + orig).0.Err?
    ensures ReferenceFrom(asm, records, i, codes, symbols, orig)
            == Err(AtLine(asm(records[i].words, symbols, orig, |codes| + orig).0.error, records[i].line))
  {
  }

  /** The loops agree from record `i` on, with `pc` the value left by the record before. */
  ghost predicate Agree(asm: RecordAssembler, records: seq<Record>, i: nat, codes: seq<Code>, symbols: map<string, int>, orig: int, pc: int)
    requires i <= |records|
  {
    Pass2From(asm, records, i, codes, Globals(symbols, orig, pc)).0 == ReferenceFrom(asm, records, i, codes, symbols, orig)
    && (ReferenceFrom(asm, records, i, codes, symbols, orig).Ok? ==>
          |ReferenceFrom(asm, records, i, codes, symbols, orig).value| == 1 + SumReserved(records))
  }

  lemma {:induction false} FollowsFrom(asm: RecordAssembler, records: seq<Record>, i: nat, codes: seq<Code>, symbols: map<string, int>, orig: int, pc: int)
    requires 0 < |records| && i <= |records| && Counted(asm, records, i, symbols, orig)
    requires |codes| == Emitted(records, i)
    ensures Agree(asm, records, i, codes, symbols, orig, pc)
    decreases |records| - i, 1
  {
    if i == |records| {
      assert records[..i] == records;
    } else {
      FollowsStep(asm, records, i, codes, symbols, orig);
      if asm(records[i].words, symbols, orig, |codes| + orig).0.Ok? {
        FollowsOk(asm, records, i, codes, asm(records[i].words, symbols, orig, |codes| + orig).0.value, symbols, orig, pc);
      } else {
        ErrTurn(asm, records, i, codes, symbols, orig, pc);
      }
    }
  }

  /** A record that assembles, followed by the rest of the loop. */
  lemma {:induction false} FollowsOk(asm: RecordAssembler, records: seq<Record>, i: nat, codes: seq<Code>, cs: seq<Code>, symbols: map<string, int>, orig: int, pc: int)
    requires 0 < |records| && i < |records| && Counted(asm, records, i + 1, symbols, orig)
    requires |codes| + orig == if i == 0 then orig else Address(records, i, orig) + 1
    requires asm(records[i].words, symbols, orig, |codes| + orig).1 == orig
    requires asm(records[i].words, symbols, orig, |codes| + orig).0 == Ok(cs)
    requires |codes + cs| == Emitted(records, i + 1)
    ensures Agree(asm, records, i, codes, symbols, orig, pc)
    decreases |records| - i, 0
  {
    FollowsFrom(asm, records, i + 1, codes + cs, symbols, orig, |codes| + orig);
    OkAgree(asm, records, i, codes, cs, symbols, orig, pc);
  }

  lemma OkAgree(asm: RecordAssembler, records: seq<Record>, i: nat, codes: seq<Code>, cs: seq<Code>, symbols: map<string, int>, orig: int, pc: int)
    requires i < |records| && |codes| + orig == if i == 0 then orig else Address(records, i, orig) + 1
    requires asm(records[i].words, symbols, orig, |codes| + orig).1 == orig
    requires asm(records[i].words, symbols, orig, |codes| + orig).0 == Ok(cs)
    requires Agree(asm, records, i + 1, codes + cs, symbols, orig, |codes| + orig)
    ensures Agree(asm, records, i, codes, symbols, orig, pc)
  {
    OkTurn(asm, records, i, codes, symbols, orig, pc);
    AgreeBack(asm, records, i, codes, cs, symbols, orig, pc, |codes| + orig);
  }

  /** Agreement carries back over a record both loops passed in the same way. */
  lemma AgreeBack(asm: RecordAssembler, records: seq<Record>, i: nat, codes: seq<Code>, cs: seq<Code>,
                  symbols: map<string, int>, orig: int, pc: int, pc': int)
    requires i < |records|
    requires Pass2From(asm, records, i, codes, Globals(symbols, orig, pc)).0
             == Pass2From(asm, records, i + 1, codes + cs, Globals(symbols, orig, pc')).0
    requires ReferenceFrom(asm, records, i, codes, symbols, orig) == ReferenceFrom(asm, records, i + 1, codes + cs, symbols, orig)
    requires Agree(asm, records, i + 1, codes + cs, symbols, orig, pc')
    ensures Agree(asm, records, i, codes, symbols, orig, pc)
  {
  }

  /** The addresses of the two passes agree: on records pass 1 produced (and no
      negative .BLKW), pass 2 assembles each instruction with `pc` one past the
      address pass 1 gave it, so a label operand becomes its distance from the
      incremented PC, and the output is the origin word followed by exactly the
      words pass 1 counted. */
  lemma Pass2FollowsPass1(records: seq<Record>, g: Globals)
    requires WellFormed(records, g.orig)
    ensures Pass2Run(records, g).0 == Reference(records, g.symbols, g.orig)
    ensures Pass2Run(records, g).0.Ok? ==> |Pass2Run(records, g).0.value| == 1 + SumReserved(records)
  {
    AssembleCounts(records, 0, g.symbols, g.orig);
    FollowsFrom(Assemble, records, 0, [], g.symbols, g.orig, g.pc);
  }

  /** Pass 1 hands pass 2 well-formed records: when parsing succeeds and no
      `.BLKW` reserves a negative count, the records Pass 1 returns are well
      formed, so pass 2 over them with Pass 1's symbols and origin is the reference
      assembly and emits one word for the header plus one per reserved word. */
  lemma ParseThenPass2(lines: seq<string>, symbols: map<string, int>, orig: int,
                       literal: string -> Option<string>, pc: int)
    ensures var (r, st) := Parse(lines, symbols, orig, literal);
            r.Ok? && (forall k :: 1 <= k < |r.value| ==> !NegativeBlkw(r.value[k].words)) ==>
              WellFormed(r.value, st.orig)
              && Pass2Run(r.value, Globals(st.symbols, st.orig, pc)).0 == Reference(r.value, st.symbols, st.orig)
              && (Pass2Run(r.value, Globals(st.symbols, st.orig, pc)).0.Ok? ==>
                    |Pass2Run(r.value, Globals(st.symbols, st.orig, pc)).0.value| == 1 + st.cur)
  {
    ParseRecords(lines, symbols, orig, literal);
    var (r, st) := Parse(lines, symbols, orig, literal);
    if r.Ok? && (forall k :: 1 <= k < |r.value| ==> !NegativeBlkw(r.value[k].words)) {
      Pass2FollowsPass1(r.value, Globals(st.symbols, st.orig, pc));
    }
  }

  /** The assembler reports its own errors without a line number. */
  ghost predicate Unnumbered(asm: RecordAssembler) {
    forall w, t, o, pc :: asm(w, t, o, pc).0.Err? ==> asm(w, t, o, pc).0.error.line == None
  }

  lemma {:induction false} ErrorsFrom(asm: RecordAssembler, records: seq<Record>, i: nat, codes: seq<Code>, g: Globals)
    requires i <= |records| && Unnumbered(asm)
    ensures var r := Pass2From(asm, records, i, codes, g).0;
            r.Err? ==> (r.error.exc == ValueError && exists k :: i <= k < |records| && r.error.line == Some(records[k].line))
                       || r.error == Error(IndexError, None)
    decreases |records| - i
  {
    if i < |records| {
      var pc := |codes| + g.orig;
      var a := asm(records[i].words, g.symbols, g.orig, pc);
      if a.0.Ok? {
        ErrorsFrom(asm, records, i + 1, codes + a.0.value, Globals(g.symbols, a.1, pc));
      }
    }
  }

  /** An error in pass 2 is a ValueError on the line of the record that failed, or
      an IndexError from a missing operand, which carries no line. */
  lemma Pass2Errors(records: seq<Record>, g: Globals)
    ensures var r := Pass2Run(records, g).0;
            r.Err? ==> (r.error.exc == ValueError && exists k :: 0 <= k < |records| && r.error.line == Some(records[k].line))
                       || r.error == Error(IndexError, None)
  {
    forall w, t, o, pc ensures Assemble(w, t, o, pc).0.Err? ==> Assemble(w, t, o, pc).0.error.line == None {
    }
    ErrorsFrom(Assemble, records, 0, [], g);
  }
}
