/** Pass 1: the line loop of parse (lc3as.py:433-503). It reads the source lines,
    fills the symbol table, sets `orig_address` from the first .ORIG and collects
    the instruction records that pass 2 assembles, counting in `cur_address` the
    words each record will occupy. */
module Pass1 {
  import opened Errors
  import opened Opcodes
  import opened Lexer
  import opened Tokens

  /** One entry `(index, words)` of the list `instrs`. */
  datatype Record = Record(line: nat, words: seq<string>)

  // ----- normalising the words of a line -----

  lemma UpperTwice(s: string)
    ensures Upper(Upper(s)) == Upper(s)
  {
  }

  lemma ChompUpper(s: string)
    ensures Chomp(Upper(s)) == Upper(Chomp(s))
  {
    if |s| > 0 && s[|s| - 1] == '\n' {
      assert Upper(s)[..|s| - 1] == Upper(s[..|s| - 1]);
    }
  }

  /** Upper-casing a branch mnemonic leaves a branch mnemonic. */
  lemma BrMnemonicUpper(s: string)
    ensures IsBrMnemonic(s) ==> IsBrMnemonic(Upper(s))
  {
    if IsBrMnemonic(s) {
      ChompUpper(s);
      BrLettersUpper(Chomp(s));
    }
  }

  lemma BrLettersUpper(t: string)
    requires |t| >= 2 && (t[..2] == "BR" || t[..2] == "br") && forall k :: 2 <= k < |t| ==> IsFlagLetter(t[k])
    ensures Upper(t)[..2] == "BR" && forall k :: 2 <= k < |t| ==> IsFlagLetter(Upper(t)[k])
  {
    BrPrefixUpper(t);
    FlagLettersUpper(t);
  }

  lemma BrPrefixUpper(t: string)
    requires |t| >= 2 && (t[..2] == "BR" || t[..2] == "br")
    ensures Upper(t)[..2] == "BR"
  {
    assert t[..2] == [t[0], t[1]];
    assert (t[0] == 'B' && t[1] == 'R') || (t[0] == 'b' && t[1] == 'r');
    var u := Upper(t);
    assert u[0] == 'B' && u[1] == 'R';
    assert u[..2] == [u[0], u[1]];
  }

  lemma FlagLettersUpper(t: string)
    requires forall k :: 2 <= k < |t| ==> IsFlagLetter(t[k])
    ensures forall k :: 2 <= k < |t| ==> IsFlagLetter(Upper(t)[k])
  {
    forall k | 2 <= k < |t|
      ensures IsFlagLetter(Upper(t)[k])
    {
      FlagLetterUpper(t[k]);
    }
  }

  lemma FlagLetterUpper(c: char)
    requires IsFlagLetter(c)
    ensures IsFlagLetter(UpperChar(c))
  {
    assert c == 'N' || c == 'Z' || c == 'P' || c == 'n' || c == 'z' || c == 'p';
  }

  /** One word of the comprehension in parse: `word.upper()` when that is a keyword,
      otherwise the word as it was. Normalising decides keywords exactly: the
      result is a keyword if and only if the word is one in some letter case. */
  function NormalWord(w: string): (u: string)
    ensures u == w || u == Upper(w)
    ensures IsKeyword(Upper(w)) ==> u == Upper(w)
    ensures IsKeyword(u) <==> IsKeyword(Upper(w))
  {
    UpperTwice(w);
    BrMnemonicUpper(w);
    if IsKeyword(Upper(w)) then Upper(w) else w
  }

  /** Every branch mnemonic that leaves the normalisation is upper case, which is
      why br_asm as written never sees a lowercase flag letter. */
  lemma NormalBranchIsUpper(w: string)
    requires IsBrMnemonic(NormalWord(w))
    ensures NormalWord(w) == Upper(NormalWord(w))
  {
    UpperTwice(w);
    BrMnemonicUpper(w);
  }

  function Normalize(words: seq<string>): (r: seq<string>)
    ensures |r| == |words| && forall k :: 0 <= k < |words| ==> r[k] == NormalWord(words[k])
  {
    seq(|words|, k requires 0 <= k < |words| => NormalWord(words[k]))
  }

  /** The normalised words of a line, once its comment is gone. */
  function LineWords(text: string): seq<string> {
    Normalize(Split(Strip(text)))
  }

  /** The words of a line after a leading label is popped. */
  function Body(words: seq<string>): seq<string> {
    if |words| > 0 && IsLabel(words[0]) then words[1..] else words
  }

  // ----- the state of the loop -----

  /** The variables parse updates: the globals `symbol_table` and `orig_address`,
      and the locals `cur_address`, `instrs` and `first_line`. */
  datatype PState = PState(symbols: map<string, int>, orig: int, cur: int, records: seq<Record>, first: bool)

  /** The state before the first line. */
  function Start(symbols: map<string, int>, orig: int): PState {
    PState(symbols, orig, 0, [], true)
  }

  /** What one line does: go on with a new state, or leave the loop with a result
      (the records at .END, or an error) and the state the globals were left in. */
  datatype Step = Next(st: PState) | Stop(result: Result<seq<Record>>, st: PState)

  /** The number of words pass 1 counts for a record: one for an instruction or
      .FILL, the count of a .BLKW, the characters and a terminator for .STRINGZ,
      none for .ORIG. */
  function Reserved(words: seq<string>): int {
    if |words| == 0 then 0
    else if OpcodeNamed(words[0]).Some? || IsBrMnemonic(words[0]) then 1
    else if words[0] == ".FILL" then 1
    else if words[0] == ".BLKW" && 1 < |words| && IsImm(words[1]) then CalcImm(words[1]).value
    else if words[0] == ".STRINGZ" && 1 < |words| then |words[1]| + 1
    else 0
  }

  /** The words counted for a sequence of records. */
  function SumReserved(records: seq<Record>): int {
    if records == [] then 0 else SumReserved(records[..|records| - 1]) + Reserved(records[|records| - 1].words)
  }

  /** `instrs.append((index, words))` together with the matching increment of `cur_address`. */
  function Append(st: PState, n: nat, words: seq<string>): PState {
    st.(cur := st.cur + Reserved(words), records := st.records + [Record(n, words)])
  }

  // ----- one line -----

  /** The body of the loop for a non-blank line past the first statement: the op
      decides how many words are reserved. `literal` stands for ast.literal_eval,
      mapping a .STRINGZ operand to the string it denotes or to failure. */
  function OpLine(body: seq<string>, n: nat, st: PState, literal: string -> Option<string>): (s: Step)
    requires |body| >= 1
    ensures s.st.symbols == st.symbols && s.st.orig == st.orig && s.st.first == st.first
  {
    var op := body[0];
    if OpcodeNamed(op).Some? || IsBrMnemonic(op) then Next(Append(st, n, body))
    else match PseudoNamed(op)
      case None => Stop(Err(Error(ValueError, Some(n))), st)
      case Some(Orig) => Next(st)
      case Some(Fill) => Next(Append(st, n, body))
      case Some(Blkw) =>
        if |body| < 2 then Stop(Raise(IndexError), st)
        else if IsImm(body[1]) then Next(Append(st, n, body))
        else Stop(Err(Error(ValueError, Some(n))), st)
      case Some(Stringz) =>
        if |body| < 2 then Stop(Raise(IndexError), st)
        else (match literal(body[1])
          case None => Stop(Err(Error(ValueError, Some(n))), st)
          case Some(s) => Next(Append(st, n, body[1 := s])))
      case Some(End) => Stop(Ok(st.records), st)
  }

  /** The first statement must be .ORIG with an immediate operand. Its record is
      kept, and control then falls through to the op tests, where .ORIG matches
      no branch. */
  function OrigLine(body: seq<string>, n: nat, st: PState, literal: string -> Option<string>): (s: Step)
    requires |body| >= 1
    ensures s.st.symbols == st.symbols
  {
    if body[0] != ".ORIG" then Stop(Err(Error(ValueError, Some(n))), st)
    else if |body| < 2 then Stop(Raise(IndexError), st)
    else match CalcImm(body[1])
      case Err(_) => Stop(Err(Error(ValueError, Some(n))), st)
      case Ok(v) => OpLine(body, n, st.(orig := v, records := st.records + [Record(n, body)], first := false), literal)
  }

  /** One line, numbered `n` from 1, its comment already removed. A blank line is
      skipped. */
  function ParseLine(text: string, n: nat, st: PState, literal: string -> Option<string>): Step {
    if Strip(text) == [] then Next(st) else ParseWords(LineWords(text), n, st, literal)
  }

  /** The words of a non-blank line. With none, `words[0]` raises; a leading label
      is bound before anything else is checked. */
  function ParseWords(words: seq<string>, n: nat, st: PState, literal: string -> Option<string>): Step {
    if |words| == 0 then Stop(Raise(IndexError), st)
    else Statement(Body(words), n, Bind(words, st), literal)
  }

  /** `symbol_table[words[0]] = cur_address + orig_address` for a leading label. */
  function Bind(words: seq<string>, st: PState): (st1: PState)
    ensures st1 == st.(symbols := st1.symbols)
  {
    if |words| > 0 && IsLabel(words[0]) then st.(symbols := st.symbols[words[0] := st.cur + st.orig]) else st
  }

  /** The statement after the label: nothing, the first statement, or a later one. */
  function Statement(body: seq<string>, n: nat, st: PState, literal: string -> Option<string>): Step {
    if |body| == 0 then Next(st)
    else if st.first then OrigLine(body, n, st, literal)
    else OpLine(body, n, st, literal)
  }

  /** The loop from line `i` on, each raw line first passed through `clean` (the
      comment remover). Running out of lines is an error without a line number. */
  function ParseFrom(lines: seq<string>, i: nat, st: PState, literal: string -> Option<string>,
                     clean: string -> string): (Result<seq<Record>>, PState)
    requires i <= |lines|
    decreases |lines| - i
  {
    if i == |lines| then (Err(Error(ValueError, None)), st)
    else match ParseLine(clean(lines[i]), i + 1, st, literal)
      case Next(st') => ParseFrom(lines, i + 1, st', literal, clean)
      case Stop(r, st') => (r, st')
  }

  /** parse, with comments removed up to the first ';'. */
  function Parse(lines: seq<string>, symbols: map<string, int>, orig: int, literal: string -> Option<string>): (Result<seq<Record>>, PState) {
    ParseFrom(lines, 0, Start(symbols, orig), literal, RemoveCommentIntended)
  }

  /** parse as written, with remove_comment's slice. */
  function ParseAsWritten(lines: seq<string>, symbols: map<string, int>, orig: int, literal: string -> Option<string>): (Result<seq<Record>>, PState) {
    ParseFrom(lines, 0, Start(symbols, orig), literal, RemoveComment)
  }

  // ----- what pass 1 maintains -----

  /** The record of the first statement: .ORIG and the immediate that became the origin. */
  predicate OrigRecord(words: seq<string>, orig: int) {
    2 <= |words| && words[0] == ".ORIG" && CalcImm(words[1]) == Ok(orig)
  }

  /** A record after the first: an opcode, a branch mnemonic, .FILL, a .BLKW with
      an immediate count, or a .STRINGZ with its decoded string. */
  predicate BodyRecord(words: seq<string>) {
    |words| >= 1
    && (OpcodeNamed(words[0]).Some? || IsBrMnemonic(words[0]) || words[0] == ".FILL"
        || (words[0] == ".BLKW" && 1 < |words| && IsImm(words[1]))
        || (words[0] == ".STRINGZ" && 1 < |words|))
  }

  /** Pass 1's bookkeeping: `cur_address` is the number of words the records so far
      occupy, `first_line` holds until the .ORIG record is kept, that record comes
      first and holds the origin, and every later record occupies memory. */
  predicate Inv(st: PState) {
    st.cur == SumReserved(st.records)
    && (st.first <==> st.records == [])
    && (st.records != [] ==> OrigRecord(st.records[0].words, st.orig))
    && forall k :: 1 <= k < |st.records| ==> BodyRecord(st.records[k].words)
  }

  lemma SumReservedAppend(records: seq<Record>, r: Record)
    ensures SumReserved(records + [r]) == SumReserved(records) + Reserved(r.words)
  {
    assert (records + [r])[..|records|] == records;
  }

  lemma AppendKeepsInv(st: PState, n: nat, words: seq<string>)
    requires Inv(st) && !st.first && BodyRecord(words)
    ensures Inv(Append(st, n, words))
  {
    SumReservedAppend(st.records, Record(n, words));
  }

  lemma OpLineKeepsInv(body: seq<string>, n: nat, st: PState, literal: string -> Option<string>)
    requires |body| >= 1 && Inv(st) && !st.first
    ensures Inv(OpLine(body, n, st, literal).st)
    ensures OpLine(body, n, st, literal).Stop? && OpLine(body, n, st, literal).result.Ok? ==>
            OpLine(body, n, st, literal).result.value == st.records && body[0] == ".END"
  {
    var op := body[0];
    if OpcodeNamed(op).Some? || IsBrMnemonic(op) {
      AppendKeepsInv(st, n, body);
    } else if PseudoNamed(op).Some? {
      var p := PseudoNamed(op).value;
      PseudoNamedIsInverse(op, p);
      match p
      case Fill => AppendKeepsInv(st, n, body);
      case Blkw => if |body| >= 2 && IsImm(body[1]) { AppendKeepsInv(st, n, body); }
      case Stringz =>
        if |body| >= 2 && literal(body[1]).Some? {
          AppendKeepsInv(st, n, body[1 := literal(body[1]).value]);
        }
      case _ =>
    }
  }

  lemma OrigLineKeepsInv(body: seq<string>, n: nat, st: PState, literal: string -> Option<string>)
    requires |body| >= 1 && Inv(st) && st.first
    ensures Inv(OrigLine(body, n, st, literal).st)
    ensures !(OrigLine(body, n, st, literal).Stop? && OrigLine(body, n, st, literal).result.Ok?)
  {
    if body[0] == ".ORIG" && |body| >= 2 && CalcImm(body[1]).Ok? {
      var st' := st.(orig := CalcImm(body[1]).value, records := st.records + [Record(n, body)], first := false);
      assert PseudoNamed(".ORIG") == Some(Orig);
      assert !IsBrMnemonic(".ORIG");
      assert OpcodeNamed(".ORIG").None?;
      assert Reserved(body) == 0;
      SumReservedAppend(st.records, Record(n, body));
      assert OrigLine(body, n, st, literal) == Next(st');
    }
  }

  /** One line keeps pass 1's bookkeeping; a line that ends the loop successfully
      is a .END after the .ORIG, and returns the records kept so far. */
  lemma StepKeepsInv(text: string, n: nat, st: PState, literal: string -> Option<string>)
    requires Inv(st)
    ensures Inv(ParseLine(text, n, st, literal).st)
    ensures var s := ParseLine(text, n, st, literal);
            s.Stop? && s.result.Ok? ==> s.result.value == s.st.records && !s.st.first && EndLine(text)
  {
    if Strip(text) != [] {
      WordsKeepInv(LineWords(text), n, st, literal);
    }
  }

  lemma WordsKeepInv(words: seq<string>, n: nat, st: PState, literal: string -> Option<string>)
    requires Inv(st)
    ensures Inv(ParseWords(words, n, st, literal).st)
    ensures var s := ParseWords(words, n, st, literal);
            s.Stop? && s.result.Ok? ==> s.result.value == s.st.records && !s.st.first
                                        && |Body(words)| > 0 && Body(words)[0] == ".END"
  {
    if |words| > 0 {
      StatementKeepsInv(Body(words), n, Bind(words, st), literal);
    }
  }

  lemma StatementKeepsInv(body: seq<string>, n: nat, st: PState, literal: string -> Option<string>)
    requires Inv(st)
    ensures Inv(Statement(body, n, st, literal).st)
    ensures var s := Statement(body, n, st, literal);
            s.Stop? && s.result.Ok? ==> s.result.value == s.st.records && !s.st.first && |body| > 0 && body[0] == ".END"
  {
    if |body| > 0 {
      if st.first {
        OrigLineKeepsInv(body, n, st, literal);
      } else {
        OpLineKeepsInv(body, n, st, literal);
      }
    }
  }

  /** A line whose statement is .END. */
  predicate EndLine(text: string) {
    var b := Body(LineWords(text));
    Strip(text) != [] && |b| > 0 && b[0] == ".END"
  }

  lemma {:induction false} ParseFromKeepsInv(lines: seq<string>, i: nat, st: PState, literal: string -> Option<string>, clean: string -> string)
    requires i <= |lines| && Inv(st)
    ensures var (r, st') := ParseFrom(lines, i, st, literal, clean);
            Inv(st') && (r.Ok? ==> r.value == st'.records && st'.records != [])
    ensures ParseFrom(lines, i, st, literal, clean).0.Ok? ==> exists j :: i <= j < |lines| && EndLine(clean(lines[j]))
    decreases |lines| - i
  {
    if i < |lines| {
      StepKeepsInv(clean(lines[i]), i + 1, st, literal);
      match ParseLine(clean(lines[i]), i + 1, st, literal)
      case Next(st') => ParseFromKeepsInv(lines, i + 1, st', literal, clean);
      case Stop(_, _) =>
    }
  }

  /** parse's result: on success the first record is the .ORIG whose operand is now
      `orig_address`, every later record occupies memory, `cur_address` is the
      number of words they occupy, and some line holds .END. Running out of lines
      without one is an error. */
  lemma ParseRecords(lines: seq<string>, symbols: map<string, int>, orig: int, literal: string -> Option<string>)
    ensures var (r, st) := Parse(lines, symbols, orig, literal);
            r.Ok? ==> |r.value| >= 1 && r.value == st.records && OrigRecord(r.value[0].words, st.orig)
                      && (forall k :: 1 <= k < |r.value| ==> BodyRecord(r.value[k].words))
                      && st.cur == SumReserved(r.value)
    ensures Parse(lines, symbols, orig, literal).0.Ok? ==>
            exists j :: 0 <= j < |lines| && EndLine(RemoveCommentIntended(lines[j]))
  {
    ParseFromKeepsInv(lines, 0, Start(symbols, orig), literal, RemoveCommentIntended);
  }

  /** ParseRecords for parse as written, with remove_comment's slice. */
  lemma ParseRecordsAsWritten(lines: seq<string>, symbols: map<string, int>, orig: int, literal: string -> Option<string>)
    ensures var (r, st) := ParseAsWritten(lines, symbols, orig, literal);
            r.Ok? ==> |r.value| >= 1 && r.value == st.records && OrigRecord(r.value[0].words, st.orig)
                      && (forall k :: 1 <= k < |r.value| ==> BodyRecord(r.value[k].words))
                      && st.cur == SumReserved(r.value)
    ensures ParseAsWritten(lines, symbols, orig, literal).0.Ok? ==>
            exists j :: 0 <= j < |lines| && EndLine(RemoveComment(lines[j]))
  {
    ParseFromKeepsInv(lines, 0, Start(symbols, orig), literal, RemoveComment);
  }

  /** A leading label is bound to `orig_address + cur_address`: the address of the
      statement on its line. Nothing else in the line touches the symbol table,
      and a line without a label leaves it unchanged. */
  lemma LabelBinding(words: seq<string>, n: nat, st: PState, literal: string -> Option<string>)
    ensures ParseWords(words, n, st, literal).st.symbols ==
              if |words| > 0 && IsLabel(words[0]) then st.symbols[words[0] := st.orig + st.cur] else st.symbols
  {
    if |words| > 0 {
      StatementKeepsSymbols(Body(words), n, Bind(words, st), literal);
    }
  }

  lemma StatementKeepsSymbols(body: seq<string>, n: nat, st: PState, literal: string -> Option<string>)
    ensures Statement(body, n, st, literal).st.symbols == st.symbols
  {
  }

  /** Lines after the one that ends the loop are never read. */
  lemma {:induction false} ParseIgnoresRest(lines: seq<string>, more: seq<string>, i: nat, st: PState,
                                           literal: string -> Option<string>, clean: string -> string)
    requires i <= |lines| && ParseFrom(lines, i, st, literal, clean).0 != Err(Error(ValueError, None))
    ensures ParseFrom(lines + more, i, st, literal, clean) == ParseFrom(lines, i, st, literal, clean)
    decreases |lines| - i
  {
    assert i < |lines|;
    assert (lines + more)[i] == lines[i];
    match ParseLine(clean(lines[i]), i + 1, st, literal)
    case Next(st') => ParseIgnoresRest(lines, more, i + 1, st', literal, clean);
    case Stop(_, _) =>
  }

  /** The first statement must be .ORIG: anything else is a ValueError on its line. */
  lemma FirstStatementIsOrig(words: seq<string>, n: nat, st: PState, literal: string -> Option<string>)
    requires st.first && |Body(words)| > 0 && Body(words)[0] != ".ORIG"
    ensures ParseWords(words, n, st, literal).Stop?
            && ParseWords(words, n, st, literal).result == Err(Error(ValueError, Some(n)))
  {
  }

  // ----- the symbol table -----

  /** `v` is the address of a record boundary: the origin plus the words of the
      first `j` records, for some `j`. */
  ghost predicate Boundary(st: PState, v: int) {
    exists j :: 0 <= j <= |st.records| && v == st.orig + SumReserved(st.records[..j])
  }

  /** Every entry of the symbol table is one it started with, the starting
      `orig_address` (a label on a line before or on the .ORIG), or the address of
      a record boundary; until the .ORIG is kept the origin is the starting one. */
  ghost predicate Labelled(st: PState, symbols0: map<string, int>, orig0: int) {
    (st.first ==> st.orig == orig0)
    && forall l :: l in st.symbols ==>
         (l in symbols0 && st.symbols[l] == symbols0[l]) || st.symbols[l] == orig0 || Boundary(st, st.symbols[l])
  }

  /** A later statement only ever appends to the records. */
  lemma OpLineGrows(body: seq<string>, n: nat, st: PState, literal: string -> Option<string>)
    requires |body| >= 1
    ensures st.records <= OpLine(body, n, st, literal).st.records
  {
    var op := body[0];
    if !(OpcodeNamed(op).Some? || IsBrMnemonic(op)) && PseudoNamed(op).Some? {
      var p := PseudoNamed(op).value;
      PseudoNamedIsInverse(op, p);
    }
  }

  lemma GrowKeepsLabelled(st: PState, st': PState, symbols0: map<string, int>, orig0: int)
    requires Labelled(st, symbols0, orig0) && !st.first && !st'.first
    requires st'.symbols == st.symbols && st'.orig == st.orig && st.records <= st'.records
    ensures Labelled(st', symbols0, orig0)
  {
    forall l | l in st'.symbols && Boundary(st, st'.symbols[l])
      ensures Boundary(st', st'.symbols[l])
    {
      var j :| 0 <= j <= |st.records| && st.symbols[l] == st.orig + SumReserved(st.records[..j]);
      assert st'.records[..j] == st.records[..j];
    }
  }

  /** Before the .ORIG is kept every entry is an old one or the starting origin. */
  lemma FirstLabels(st: PState, symbols0: map<string, int>, orig0: int)
    requires Labelled(st, symbols0, orig0) && Inv(st) && st.first
    ensures forall l :: l in st.symbols ==> (l in symbols0 && st.symbols[l] == symbols0[l]) || st.symbols[l] == orig0
  {
    forall l | l in st.symbols && Boundary(st, st.symbols[l])
      ensures st.symbols[l] == orig0
    {
      var j :| 0 <= j <= |st.records| && st.symbols[l] == st.orig + SumReserved(st.records[..j]);
      assert st.records[..j] == [];
    }
  }

  lemma BindKeepsLabelled(words: seq<string>, st: PState, symbols0: map<string, int>, orig0: int)
    requires Labelled(st, symbols0, orig0) && Inv(st)
    ensures Labelled(Bind(words, st), symbols0, orig0)
  {
    BindShape(words, st);
    BoundLabelled(st, Bind(words, st), if |words| > 0 then words[0] else "", symbols0, orig0);
  }

  /** Bind either leaves the state alone or binds the first word to `orig_address + cur_address`. */
  lemma BindShape(words: seq<string>, st: PState)
    ensures Bind(words, st) == st
            || (|words| > 0 && Bind(words, st) == st.(symbols := st.symbols[words[0] := st.cur + st.orig]))
  {
  }

  lemma BoundLabelled(st: PState, st1: PState, name: string, symbols0: map<string, int>, orig0: int)
    requires Labelled(st, symbols0, orig0) && Inv(st)
    requires st1 == st || st1 == st.(symbols := st.symbols[name := st.cur + st.orig])
    ensures Labelled(st1, symbols0, orig0)
  {
    if st1 != st {
      CurIsBoundary(st, symbols0, orig0);
      AddLabelKeepsLabelled(st, name, st.cur + st.orig, symbols0, orig0);
    }
  }

  /** `orig_address + cur_address` is the starting origin before the .ORIG and the
      boundary after the last record from then on. */
  lemma CurIsBoundary(st: PState, symbols0: map<string, int>, orig0: int)
    requires Labelled(st, symbols0, orig0) && Inv(st)
    ensures st.cur + st.orig == orig0 || Boundary(st, st.cur + st.orig)
  {
    if !st.first {
      assert st.records[..|st.records|] == st.records;
    }
  }

  /** Binding a label to the starting origin or to a record boundary. */
  lemma AddLabelKeepsLabelled(st: PState, name: string, v: int, symbols0: map<string, int>, orig0: int)
    requires Labelled(st, symbols0, orig0) && (v == orig0 || Boundary(st, v))
    ensures Labelled(st.(symbols := st.symbols[name := v]), symbols0, orig0)
  {
    var st1 := st.(symbols := st.symbols[name := v]);
    forall l | l in st1.symbols
      ensures (l in symbols0 && st1.symbols[l] == symbols0[l]) || st1.symbols[l] == orig0 || Boundary(st1, st1.symbols[l])
    {
      if l != name {
        assert st1.symbols[l] == st.symbols[l];
        assert Boundary(st1, st.symbols[l]) == Boundary(st, st.symbols[l]);
      }
    }
  }

  lemma StatementKeepsLabelled(body: seq<string>, n: nat, st: PState, literal: string -> Option<string>,
                               symbols0: map<string, int>, orig0: int)
    requires Labelled(st, symbols0, orig0) && Inv(st)
    ensures Labelled(Statement(body, n, st, literal).st, symbols0, orig0)
  {
    if |body| > 0 {
      var st' := Statement(body, n, st, literal).st;
      if !st.first {
        OpLineGrows(body, n, st, literal);
        GrowKeepsLabelled(st, st', symbols0, orig0);
      } else if st' != st {
        FirstLabels(st, symbols0, orig0);
        OrigLineKeepsInv(body, n, st, literal);
        assert !st'.first && st'.symbols == st.symbols;
      }
    }
  }

  lemma StepKeepsLabelled(text: string, n: nat, st: PState, literal: string -> Option<string>,
                          symbols0: map<string, int>, orig0: int)
    requires Labelled(st, symbols0, orig0) && Inv(st)
    ensures Labelled(ParseLine(text, n, st, literal).st, symbols0, orig0)
  {
    if Strip(text) != [] {
      var words := LineWords(text);
      if |words| > 0 {
        BindKeepsLabelled(words, st, symbols0, orig0);
        StatementKeepsLabelled(Body(words), n, Bind(words, st), literal, symbols0, orig0);
      }
    }
  }

  lemma {:induction false} ParseFromKeepsLabelled(lines: seq<string>, i: nat, st: PState, literal: string -> Option<string>,
                                                  clean: string -> string, symbols0: map<string, int>, orig0: int)
    requires i <= |lines| && Inv(st) && Labelled(st, symbols0, orig0)
    ensures Labelled(ParseFrom(lines, i, st, literal, clean).1, symbols0, orig0)
    decreases |lines| - i
  {
    if i < |lines| {
      StepKeepsInv(clean(lines[i]), i + 1, st, literal);
      StepKeepsLabelled(clean(lines[i]), i + 1, st, literal, symbols0, orig0);
      match ParseLine(clean(lines[i]), i + 1, st, literal)
      case Next(st') => ParseFromKeepsLabelled(lines, i + 1, st', literal, clean, symbols0, orig0);
      case Stop(_, _) =>
    }
  }

  /** What pass 1 leaves in the symbol table: every label is the address of a record
      boundary (the address of the statement on its line, or of the next one), so
      pass 2 reads it back as the place it labels. A label on or before the .ORIG
      line gets the origin from before the .ORIG instead, and entries that were
      there before are kept unless redefined. */
  lemma ParseLabels(lines: seq<string>, symbols0: map<string, int>, orig0: int, literal: string -> Option<string>)
    ensures var (r, st) := Parse(lines, symbols0, orig0, literal);
            r.Ok? ==> forall l :: l in st.symbols ==>
              (l in symbols0 && st.symbols[l] == symbols0[l]) || st.symbols[l] == orig0
              || exists j :: 0 <= j <= |r.value| && st.symbols[l] == st.orig + SumReserved(r.value[..j])
  {
    ParseFromKeepsInv(lines, 0, Start(symbols0, orig0), literal, RemoveCommentIntended);
    ParseFromKeepsLabelled(lines, 0, Start(symbols0, orig0), literal, RemoveCommentIntended, symbols0, orig0);
    LabelledEntries(Parse(lines, symbols0, orig0, literal).1, symbols0, orig0);
  }

  /** ParseLabels for parse as written, with remove_comment's slice. */
  lemma ParseLabelsAsWritten(lines: seq<string>, symbols0: map<string, int>, orig0: int, literal: string -> Option<string>)
    ensures var (r, st) := ParseAsWritten(lines, symbols0, orig0, literal);
            r.Ok? ==> forall l :: l in st.symbols ==>
              (l in symbols0 && st.symbols[l] == symbols0[l]) || st.symbols[l] == orig0
              || exists j :: 0 <= j <= |r.value| && st.symbols[l] == st.orig + SumReserved(r.value[..j])
  {
    ParseFromKeepsInv(lines, 0, Start(symbols0, orig0), literal, RemoveComment);
    ParseFromKeepsLabelled(lines, 0, Start(symbols0, orig0), literal, RemoveComment, symbols0, orig0);
    LabelledEntries(ParseAsWritten(lines, symbols0, orig0, literal).1, symbols0, orig0);
  }

  lemma LabelledEntries(st: PState, symbols0: map<string, int>, orig0: int)
    requires Labelled(st, symbols0, orig0)
    ensures forall l :: l in st.symbols ==>
              (l in symbols0 && st.symbols[l] == symbols0[l]) || st.symbols[l] == orig0
              || exists j :: 0 <= j <= |st.records| && st.symbols[l] == st.orig + SumReserved(st.records[..j])
  {
  }

  // ----- remove_comment as written -----

  /** A line's outcome depends only on its stripped text. */
  lemma ParseLineUsesStripped(a: string, b: string, n: nat, st: PState, literal: string -> Option<string>)
    requires Strip(a) == Strip(b)
    ensures ParseLine(a, n, st, literal) == ParseLine(b, n, st, literal)
  {
  }

  lemma {:induction false} ParseFromAgrees(lines: seq<string>, i: nat, st: PState, literal: string -> Option<string>)
    requires i <= |lines|
    requires forall k :: 0 <= k < |lines| ==> ';' in lines[k] || (|lines[k]| > 0 && lines[k][|lines[k]| - 1] == '\n')
    ensures ParseFrom(lines, i, st, literal, RemoveComment) == ParseFrom(lines, i, st, literal, RemoveCommentIntended)
    decreases |lines| - i
  {
    if i < |lines| {
      RemoveCommentAgreesOnFullLines(lines[i]);
      ParseLineUsesStripped(RemoveComment(lines[i]), RemoveCommentIntended(lines[i]), i + 1, st, literal);
      match ParseLine(RemoveCommentIntended(lines[i]), i + 1, st, literal)
      case Next(st') => ParseFromAgrees(lines, i + 1, st', literal);
      case Stop(_, _) =>
    }
  }

  /** The slice in remove_comment only matters on a last line without a newline:
      when every line ends in one or holds a ';', parse as written and parse with
      the corrected comment remover give the same result and the same globals. */
  lemma ParseAgreesOnFullLines(lines: seq<string>, symbols: map<string, int>, orig: int, literal: string -> Option<string>)
    requires forall k :: 0 <= k < |lines| ==> ';' in lines[k] || (|lines[k]| > 0 && lines[k][|lines[k]| - 1] == '\n')
    ensures ParseAsWritten(lines, symbols, orig, literal) == Parse(lines, symbols, orig, literal)
  {
    ParseFromAgrees(lines, 0, Start(symbols, orig), literal);
  }

  /** A program whose last line is `.END` without a newline: remove_comment as
      written leaves `.EN`, which is no op, and the line is a ValueError; with the
      whole line kept, the .END ends pass 1 with the records so far. */
  lemma FinalEndLost(n: nat, st: PState, literal: string -> Option<string>)
    requires !st.first
    ensures RemoveComment(".END") == ".EN"
    ensures ParseLine(RemoveComment(".END"), n, st, literal) == Stop(Err(Error(ValueError, Some(n))), st)
    ensures ParseLine(RemoveCommentIntended(".END"), n, st, literal) == Stop(Ok(st.records), st)
  {
    assert RemoveComment(".END") == ".END"[..3] == ".EN";
    assert RemoveCommentIntended(".END") == ".END";
    EnIsNoStatement();
    EndIsEnd();
    assert ParseLine(".EN", n, st, literal) == OpLine([".EN"], n, st, literal);
    assert ParseLine(".END", n, st, literal) == OpLine([".END"], n, st, literal);
    OpLineOfUnknown([".EN"], n, st, literal);
    OpLineOfEnd([".END"], n, st, literal);
  }

  /** A statement that names no op is a ValueError on its line. */
  lemma OpLineOfUnknown(body: seq<string>, n: nat, st: PState, literal: string -> Option<string>)
    requires |body| >= 1 && OpcodeNamed(body[0]).None? && !IsBrMnemonic(body[0]) && PseudoNamed(body[0]).None?
    ensures OpLine(body, n, st, literal) == Stop(Err(Error(ValueError, Some(n))), st)
  {
  }

  /** .END after the .ORIG returns the records kept so far. */
  lemma OpLineOfEnd(body: seq<string>, n: nat, st: PState, literal: string -> Option<string>)
    requires |body| >= 1 && OpcodeNamed(body[0]).None? && !IsBrMnemonic(body[0]) && PseudoNamed(body[0]) == Some(End)
    ensures OpLine(body, n, st, literal) == Stop(Ok(st.records), st)
  {
  }

  lemma EnIsNoStatement()
    ensures Strip(".EN") != [] && LineWords(".EN") == [".EN"] && Body([".EN"]) == [".EN"]
    ensures OpcodeNamed(".EN").None? && PseudoNamed(".EN").None? && !IsBrMnemonic(".EN")
  {
    SplitOfWord(".EN");
    EnIsNoKeyword();
    assert NormalWord(".EN") == ".EN";
    assert !IsIdent(".EN");
  }

  lemma EnIsNoKeyword()
    ensures !IsKeyword(".EN") && Upper(".EN") == ".EN"
    ensures OpcodeNamed(".EN").None? && PseudoNamed(".EN").None? && !IsBrMnemonic(".EN")
  {
    assert Upper(".EN") == ".EN";
    assert Chomp(".EN") == ".EN" && ".EN"[..2][0] == '.';
    KeywordsAreRegisteredNames(".EN");
  }

  lemma EndIsEnd()
    ensures Strip(".END") != [] && LineWords(".END") == [".END"] && Body([".END"]) == [".END"]
    ensures OpcodeNamed(".END").None? && PseudoNamed(".END") == Some(End) && !IsBrMnemonic(".END")
  {
    SplitOfWord(".END");
    assert Upper(".END") == ".END";
    KeywordsAreRegisteredNames(".END");
    assert IsKeyword(".END");
    assert !IsIdent(".END");
  }
}
