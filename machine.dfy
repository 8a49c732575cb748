/** The assembler with its module state: the globals `symbol_table`,
    `orig_address` and `pc` of lc3as.py (lines 18-20) become the fields of one
    object, and the functions that write them (orig_asm, assemble through it,
    parse and pass2) become its methods. Each method is proved to compute what
    the functions of Assembly, Pass1 and Pass2 state, so everything proved there
    holds for the object too. */
module Machine {
  import opened Errors
  import opened Numeric
  import opened Opcodes
  import opened Lexer
  import opened Tokens
  import opened Encoder
  import opened Assembly
  import opened Pass1
  import opened Pass2

  /** A line's outcome as parse's loop body leaves it in its variables: `stop`
      when the loop is left with `result`, the new state either way. */
  function AsStep(stop: bool, result: Result<seq<Record>>, st: PState): Step {
    if stop then Stop(result, st) else Next(st)
  }

  /** What parse leaves behind: its result and the globals `symbol_table` and
      `orig_address`. */
  function Outcome(p: (Result<seq<Record>>, PState)): (Result<seq<Record>>, map<string, int>, int) {
    (p.0, p.1.symbols, p.1.orig)
  }

  class Assembler {
    var symbolTable: map<string, int>
    var origAddress: int
    var pc: int

    /** The globals as the module defines them. */
    constructor ()
      ensures symbolTable == map[] && origAddress == 0 && pc == 0
    {
      symbolTable := map[];
      origAddress := 0;
      pc := 0;
    }

    /** orig_asm (lc3as.py:306-310): the operand becomes `orig_address` before
        int2binary checks that it fits in 16 bits. */
    method OrigAsm(words: seq<string>) returns (r: Result<seq<string>>)
      modifies this`origAddress
      ensures r == Assembly.OrigAsm(words, old(origAddress)).0
      ensures origAddress == Assembly.OrigAsm(words, old(origAddress)).1
    {
      if |words| < 2 {
        return Raise(IndexError);
      }
      var v := CalcImm(words[1]);
      if v.Err? {
        return Err(v.error);
      }
      origAddress := v.value;
      var instr := Int2Binary(origAddress, 16, false);
      if instr.Err? {
        return Err(instr.error);
      }
      return Ok([instr.value]);
    }

    /** assemble (lc3as.py:39-56) on the current globals: .ORIG goes to the
        method above, .STRINGZ to its loop, everything else to its encoder. */
    method Assemble(words: seq<string>) returns (r: Result<seq<Code>>)
      modifies this`origAddress
      ensures (r, origAddress) == Assembly.Assemble(words, old(symbolTable), old(origAddress), old(pc))
    {
      var instrs: Result<seq<string>>;
      if |words| == 0 || StartsWith(words[0], "BR") || OpcodeNamed(words[0]).Some? || PseudoNamed(words[0]).None? {
        instrs := Instrs(words, symbolTable, origAddress, pc).0;
      } else if PseudoNamed(words[0]) == Some(Orig) {
        instrs := OrigAsm(words);
      } else if PseudoNamed(words[0]) == Some(Stringz) {
        instrs := StringzAsm(words);
      } else {
        instrs := Instrs(words, symbolTable, origAddress, pc).0;
      }
      assert instrs == Instrs(words, old(symbolTable), old(origAddress), old(pc)).0;
      match instrs
      case Err(e) => r := Err(e);
      case Ok(ws) => r := Ok(Packs(ws));
    }

    /** The op tests of parse's loop body (lc3as.py:470-501) for a statement past
        the first, on the locals `cur_address` and `instrs`. They touch no global. */
    method OpStep(body: seq<string>, n: nat, cur: int, instrs: seq<Record>, first: bool, literal: string -> Option<string>)
      returns (stop: bool, result: Result<seq<Record>>, cur': int, instrs': seq<Record>)
      requires |body| >= 1
      ensures AsStep(stop, result, PState(symbolTable, origAddress, cur', instrs', first))
              == OpLine(body, n, PState(symbolTable, origAddress, cur, instrs, first), literal)
    {
      var op := body[0];
      stop, result, cur', instrs' := false, Ok([]), cur, instrs;
      if OpcodeNamed(op).Some? || IsBrMnemonic(op) {
        cur' := cur + 1;
        instrs' := instrs + [Record(n, body)];
      } else if PseudoNamed(op).Some? {
        if op == ".FILL" {
          cur' := cur + 1;
          instrs' := instrs + [Record(n, body)];
        } else if op == ".BLKW" {
          if |body| < 2 {
            return true, Raise(IndexError), cur, instrs;
          }
          var v := CalcImm(body[1]);
          if v.Err? {
            return true, Err(Error(ValueError, Some(n))), cur, instrs;
          }
          cur' := cur + v.value;
          instrs' := instrs + [Record(n, body)];
        } else if op == ".STRINGZ" {
          if |body| < 2 {
            return true, Raise(IndexError), cur, instrs;
          }
          match literal(body[1])
          case None =>
            return true, Err(Error(ValueError, Some(n))), cur, instrs;
          case Some(s) =>
            var words := body[1 := s];
            cur' := cur + |s| + 1;
            instrs' := instrs + [Record(n, words)];
        } else if op == ".END" {
          return true, Ok(instrs), cur, instrs;
        }
      } else {
        return true, Err(Error(ValueError, Some(n))), cur, instrs;
      }
    }

    /** parse's loop body (lc3as.py:447-501) for one line, its comment already
        removed: a blank line is skipped, and a leading label is bound in the
        symbol table to the address of the statement on its line. */
    method ParseOne(text: string, n: nat, cur: int, instrs: seq<Record>, first: bool, literal: string -> Option<string>)
      returns (stop: bool, result: Result<seq<Record>>, cur': int, instrs': seq<Record>, first': bool)
      modifies this`symbolTable, this`origAddress
      ensures AsStep(stop, result, PState(symbolTable, origAddress, cur', instrs', first'))
              == ParseLine(text, n, PState(old(symbolTable), old(origAddress), cur, instrs, first), literal)
    {
      if Strip(text) == [] {
        return false, Ok([]), cur, instrs, first;
      }
      var words := LineWords(text);
      stop, result, cur', instrs', first' := WordsStep(words, n, cur, instrs, first, literal, PState(symbolTable, origAddress, cur, instrs, first));
    }

    /** The words of a non-blank line: a leading label is bound to
        `cur_address + orig_address` and popped. */
    method WordsStep(words: seq<string>, n: nat, cur: int, instrs: seq<Record>, first: bool, literal: string -> Option<string>,
                     ghost st: PState)
      returns (stop: bool, result: Result<seq<Record>>, cur': int, instrs': seq<Record>, first': bool)
      requires st == PState(symbolTable, origAddress, cur, instrs, first)
      modifies this`symbolTable, this`origAddress
      ensures AsStep(stop, result, PState(symbolTable, origAddress, cur', instrs', first')) == ParseWords(words, n, st, literal)
    {
      if |words| == 0 {
        return true, Raise(IndexError), cur, instrs, first;
      }
      var body := BindLabel(words, cur, st);
      stop, result, cur', instrs', first' := StatementStep(body, n, cur, instrs, first, literal, Bind(words, st));
    }

    /** `symbol_table[words[0]] = cur_address + orig_address` and `words.pop(0)`
        when the line starts with a label. */
    method BindLabel(words: seq<string>, cur: int, ghost st: PState) returns (body: seq<string>)
      requires |words| > 0
      requires st == PState(symbolTable, origAddress, cur, st.records, st.first)
      modifies this`symbolTable
      ensures body == Body(words)
      ensures Bind(words, st) == st.(symbols := symbolTable)
    {
      body := words;
      if IsLabel(words[0]) {
        symbolTable := symbolTable[words[0] := cur + origAddress];
        body := words[1..];
      }
    }

    /** The statement after the label: the first must be .ORIG, whose operand
        becomes `orig_address` and whose record is kept; then the op tests. */
    method StatementStep(body: seq<string>, n: nat, cur: int, instrs: seq<Record>, first: bool, literal: string -> Option<string>,
                         ghost st: PState)
      returns (stop: bool, result: Result<seq<Record>>, cur': int, instrs': seq<Record>, first': bool)
      requires st == PState(symbolTable, origAddress, cur, instrs, first)
      modifies this`origAddress
      ensures AsStep(stop, result, PState(symbolTable, origAddress, cur', instrs', first')) == Statement(body, n, st, literal)
    {
      if |body| == 0 {
        return false, Ok([]), cur, instrs, first;
      }
      if !first {
        stop, result, cur', instrs' := OpStep(body, n, cur, instrs, first, literal);
        return stop, result, cur', instrs', first;
      }
      if body[0] != ".ORIG" {
        return true, Err(Error(ValueError, Some(n))), cur, instrs, first;
      }
      if |body| < 2 {
        return true, Raise(IndexError), cur, instrs, first;
      }
      var v := CalcImm(body[1]);
      if v.Err? {
        return true, Err(Error(ValueError, Some(n))), cur, instrs, first;
      }
      origAddress := v.value;
      stop, result, cur', instrs' := OpStep(body, n, cur, instrs + [Record(n, body)], false, literal);
      first' := false;
    }

    /** parse (lc3as.py:433-503) over the lines the file would yield, each with
        its newline, and with comments removed up to the first ';'. */
    method Parse(lines: seq<string>, literal: string -> Option<string>) returns (r: Result<seq<Record>>)
      modifies this`symbolTable, this`origAddress
      ensures (r, symbolTable, origAddress)
              == Outcome(ParseFrom(lines, 0, Start(old(symbolTable), old(origAddress)), literal, RemoveCommentIntended))
    {
      ghost var target := ParseFrom(lines, 0, Start(symbolTable, origAddress), literal, RemoveCommentIntended);
      var cur := 0;
      var instrs: seq<Record> := [];
      var first := true;
      var i := 0;
      while i < |lines|
        invariant i <= |lines|
        invariant ParseFrom(lines, i, PState(symbolTable, origAddress, cur, instrs, first), literal, RemoveCommentIntended) == target
      {
        var stop, result;
        stop, result, cur, instrs, first := ParseLineOf(lines, i, cur, instrs, first, literal);
        if stop {
          return result;
        }
        i := i + 1;
      }
      return Raise(ValueError);
    }

    /** Line `i + 1` of the file: remove_comment's yield, then the loop body. */
    method ParseLineOf(lines: seq<string>, i: nat, cur: int, instrs: seq<Record>, first: bool, literal: string -> Option<string>)
      returns (stop: bool, result: Result<seq<Record>>, cur': int, instrs': seq<Record>, first': bool)
      requires i < |lines|
      modifies this`symbolTable, this`origAddress
      ensures stop ==> (result, PState(symbolTable, origAddress, cur', instrs', first'))
                       == ParseFrom(lines, i, PState(old(symbolTable), old(origAddress), cur, instrs, first), literal, RemoveCommentIntended)
      ensures !stop ==> ParseFrom(lines, i + 1, PState(symbolTable, origAddress, cur', instrs', first'), literal, RemoveCommentIntended)
                        == ParseFrom(lines, i, PState(old(symbolTable), old(origAddress), cur, instrs, first), literal, RemoveCommentIntended)
    {
      ghost var st := PState(symbolTable, origAddress, cur, instrs, first);
      stop, result, cur', instrs', first' := ParseOne(RemoveCommentIntended(lines[i]), i + 1, cur, instrs, first, literal);
      ghost var st' := PState(symbolTable, origAddress, cur', instrs', first');
      ParseTurn(lines, i, st, literal, RemoveCommentIntended, AsStep(stop, result, st'));
    }

    /** pass2 (lc3as.py:506-520): `pc` is set before each record, and a
        ValueError gets the record's line. */
    method Pass2(instrs: seq<Record>) returns (r: Result<seq<Code>>)
      modifies this`origAddress, this`pc
      ensures r == Pass2Run(instrs, Globals(old(symbolTable), old(origAddress), old(pc))).0
      ensures Globals(symbolTable, origAddress, pc) == Pass2Run(instrs, Globals(old(symbolTable), old(origAddress), old(pc))).1
    {
      var codes: seq<Code> := [];
      var i := 0;
      while i < |instrs|
        invariant i <= |instrs|
        invariant Pass2From(Assembly.Assemble, instrs, i, codes, Globals(symbolTable, origAddress, pc))
                  == Pass2Run(instrs, Globals(old(symbolTable), old(origAddress), old(pc)))
      {
        ghost var g := Globals(symbolTable, origAddress, pc);
        pc := |codes| + origAddress;
        ghost var h := Globals(symbolTable, origAddress, pc);
        var c := Assemble(instrs[i].words);
        Pass2Turn(Assembly.Assemble, instrs, i, codes, g, h.pc, c, origAddress);
        if c.Err? {
          return Err(AtLine(c.error, instrs[i].line));
        }
        codes := codes + c.value;
        i := i + 1;
      }
      return Ok(codes);
    }
  }

  /** One turn of pass2's loop, on what the record assembler returned. */
  lemma Pass2Turn(asm: RecordAssembler, records: seq<Record>, i: nat, codes: seq<Code>, g: Globals, pc: int, c: Result<seq<Code>>, orig: int)
    requires i < |records| && pc == |codes| + g.orig
    requires (c, orig) == asm(records[i].words, g.symbols, g.orig, pc)
    ensures c.Err? ==> Pass2From(asm, records, i, codes, g)
                       == (Err(AtLine(c.error, records[i].line)), Globals(g.symbols, orig, pc))
    ensures c.Ok? ==> Pass2From(asm, records, i, codes, g)
                      == Pass2From(asm, records, i + 1, codes + c.value, Globals(g.symbols, orig, pc))
  {
    Pass2FromStep(asm, records, i, codes, g);
  }

  /** One turn of parse's loop, on what the line did. */
  lemma ParseTurn(lines: seq<string>, i: nat, st: PState, literal: string -> Option<string>, clean: string -> string, s: Step)
    requires i < |lines| && s == ParseLine(clean(lines[i]), i + 1, st, literal)
    ensures s.Stop? ==> ParseFrom(lines, i, st, literal, clean) == (s.result, s.st)
    ensures s.Next? ==> ParseFrom(lines, i, st, literal, clean) == ParseFrom(lines, i + 1, s.st, literal, clean)
  {
  }
}
