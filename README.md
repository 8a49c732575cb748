# A verified model of the lc3as two-pass LC-3 assembler

lc3as.py assembles LC-3 assembly into 16-bit machine words. Pass 1 (`parse`)
reads the source lines. It strips comments, splits each line into words and
upper-cases keywords. It binds every leading label to `orig_address +
cur_address` in the global `symbol_table`, and it collects the instruction
records `(line, words)`. It requires `.ORIG` first, stops at `.END`, and counts in
`cur_address` the words each record will occupy. Pass 2 (`pass2`) assembles the
records in order. Before each record it sets the global `pc` to the origin plus
the number of words emitted so far. `assemble` dispatches each record to the
encoder registered for its op. The model's dispatch takes the corrected br_asm
of the first finding below, and the lemma Assembly.BranchAsWritten gives the
word the code's br_asm emits in its place. The encoders build a string of sixteen '0'/'1'
characters through `int2binary`, `get_register`, `calc_imm`, `calc_address` and
`calc_offset`. Each word is then packed big-endian into two bytes.

The project models this in Dafny, one module per part of the program:

- `Errors`: the raised exceptions as values. Only the two classes the code's own
  `except` clauses tell apart are kept (ValueError, IndexError), with the line
  number where the code attaches one.
- `Numeric`: int2binary, as a function and as the shifting loop of the source.
- `Opcodes`: the decorator registry, as datatypes of opcodes and pseudo-ops with
  their registered names and the `keywords` list.
- `Lexer`: the regular expressions `imm_pattern`, `reg_pattern`, `br_pattern` and
  `label_pattern`, written as character-class predicates. It also holds
  `calc_imm`, `get_register`, `is_keyword` and `is_label`.
- `Tokens`: `split` (findall over `word_pattern`), `str.strip` and
  `remove_comment`.
- `Symbols`: `expr_pattern`, `calc_address` and `calc_offset`.
- `Encoder`: every `*_asm` encoder, the stateless pseudo-ops, `.STRINGZ` as its
  append loop, and `struct.pack`.
- `Layouts`: where each encoder puts each operand, bit by bit.
- `Assembly`: `assemble` and `orig_asm`, with the globals passed in and out.
- `Pass1`: the line loop of `parse`, one line at a time.
- `Pass2`: the loop of `pass2`, and its agreement with the addresses of pass 1.
- `Machine`: the class `Assembler`. Its fields are the globals `symbol_table`,
  `orig_address` and `pc`. Its methods are the code that updates them: orig_asm,
  assemble, the loop of parse and the loop of pass2. Each method is proved to
  compute what the functions of `Assembly`, `Pass1` and `Pass2` state.

The file is a parameter: `parse` takes the lines `readline` would return, each
still carrying its newline. `ast.literal_eval` on a `.STRINGZ` operand is a
parameter too: `literal: string -> Option<string>`, which gives the string the
operand denotes, or `None` when evaluation fails or gives no string.

The code behaves as follows in places a reader may not expect, and the model
does the same:

- Labels are case-sensitive, and a label defined twice silently takes the second
  address.
- A label on a line before the `.ORIG` statement, or on the `.ORIG` line itself,
  gets the origin from before the `.ORIG`.
- A bare `BR` passes pass 1, which finds `BR` in `op_asm`, but `assemble`
  rejects it because it does not match br_pattern.
- A negative `.BLKW` count is not rejected. Pass 1 adds it to `cur_address`, but
  pass 2 emits no words for it.
- Unsigned fields (TRAP, .ORIG, .FILL) accept negative values modulo 2^n.
- `x-n` is read by `calc_address` as the label `x` minus n, although `calc_imm`
  would read it as a hex immediate.

## Model

| member | source | states |
|---|---|---|
| Errors.Arg | lc3as.py:309 | `words[k]` is the word when `k` is in range, else an IndexError without a line |
| Numeric.Int2Bin | lc3as.py:377-386 | fails, with a ValueError, exactly when the signed test `num < -2^(n-1)` or `num >= 2^(n-1)` fires (only 0 passes at width 0), or the unsigned test `num >= 2^n` fires; on success `n` bits whose unsigned value is `num mod 2^n` |
| Numeric.Int2Binary | lc3as.py:377-386 | the range checks and the shift-and-prepend loop return exactly `Int2Bin` |
| Numeric.ToBitsValue | lc3as.py:383-386 | the `n` bits the loop leaves, read back, are `x mod 2^n` |
| Numeric.UnsignedBound | lc3as.py:383-386 | `n` bits are worth less than 2^n |
| Numeric.UnsignedLead | lc3as.py:383-386 | the leading bit of `n` bits weighs 2^(n-1) |
| Numeric.SignedRoundTrip | lc3as.py:377-386 | a signed value in range encodes without error and decodes back to itself as n-bit two's complement |
| Numeric.UnsignedRoundTrip | lc3as.py:381-386 | a value in `0 .. 2^n-1` encodes unsigned and decodes back to itself |
| Numeric.NegativeUnsignedWraps | lc3as.py:381-386 | an unsigned field accepts `-2^n <= num < 0` and holds `num + 2^n` |
| Opcodes.OpcodeNamed | lc3as.py:14-28 | `s in op_asm` and `op_asm[s]`: whatever it finds is registered under `s` |
| Opcodes.PseudoNamed | lc3as.py:15-36 | `s in pseudo_asm` and `pseudo_asm[s]`: whatever it finds is registered under `s` |
| Opcodes.OpcodeNamedName | lc3as.py:23-28 | looking up the name an opcode is registered under finds that opcode |
| Opcodes.NamedOpcodeName | lc3as.py:23-28 | whatever the lookup finds is registered under the name looked up |
| Opcodes.OpcodeNamedIsInverse | lc3as.py:23-28 | `op_asm` lookup and registration are inverse: lookup finds `op` iff the name is `op`'s |
| Opcodes.PseudoNamedIsInverse | lc3as.py:31-36 | the same for `pseudo_asm` |
| Opcodes.KeywordsAreRegisteredNames | lc3as.py:23-36 | a name is in `keywords` iff it is registered in `op_asm` or `pseudo_asm` |
| Opcodes.KeywordIsRegistered | lc3as.py:23-36 | every entry of `keywords` is registered |
| Opcodes.UnlistedIsUnregistered | lc3as.py:23-36 | a name outside `keywords` is in neither table |
| Lexer.Chomp | lc3as.py:8-12 | the text a pattern ending in `$` must cover is the word or the word less one final newline |
| Lexer.IsImm | lc3as.py:10 | definition of `re.match(imm_pattern, s)`: `x`/`X`, an optional `-` and a hex digit, or the whole word a decimal literal; characterised by Lexer.CalcImmAccepts |
| Lexer.IsReg | lc3as.py:11 | definition of `re.match(reg_pattern, s)`: `R` or `r` and a digit 0-7, then the end or a final newline; used by Lexer.GetRegister |
| Lexer.IsBrMnemonic | lc3as.py:9 | definition of `re.match(br_pattern, s)`: `BR` or `br` and one to three of `NZPnzp`; kept by upper-casing (Pass1.BrMnemonicUpper) |
| Lexer.IsIdent | lc3as.py:8 | definition of `re.match(label_pattern, s)`: a letter or `_`, then letters, digits and `_` |
| Lexer.IsKeyword | lc3as.py:340-342 | definition of is_keyword: the upper case is in `keywords`, or the word is a branch mnemonic; Opcodes.KeywordsAreRegisteredNames says what `keywords` holds |
| Lexer.IsLabel | lc3as.py:345-355 | definition of is_label: an identifier that is no keyword, immediate or register; Lexer.LabelIsNoOtherToken states what it excludes |
| Lexer.Upper | lc3as.py:452-453 | `str.upper()` maps every character and keeps the length |
| Lexer.HexRun | lc3as.py:10 | finds the longest run of hex digits at a position: all hex, and followed by the end or a non-hex character |
| Lexer.CalcImm | lc3as.py:365-374 | succeeds iff the word matches imm_pattern; otherwise a ValueError |
| Lexer.CalcImmAccepts | lc3as.py:365-374 | calc_imm accepts exactly an x/X followed by a hex digit or `-` and a hex digit, or a whole decimal literal with an optional `#` and `-` |
| Lexer.CalcImmHexPrefix | lc3as.py:365-369 | `x[-]h rest`, with `h` the maximal hex run, reads as the hex value of `h`, negated after `-`; the rest is ignored |
| Lexer.HexGroupOfPrefix | lc3as.py:10 | group 1 of imm_pattern is the sign and the whole hex run |
| Lexer.HexRunCovers | lc3as.py:10 | a hex run followed by a non-hex character is the run the scanner finds |
| Lexer.DecimalShapeIsDecGroup | lc3as.py:10 | a decimal literal is exactly a text whose digit part is a non-empty run of digits |
| Lexer.DecGroupOfDigits | lc3as.py:10 | `[#][-]digits` is no hex literal and its group 2 is `[-]digits` |
| Lexer.CalcImmDecimal | lc3as.py:365-371 | `[#][-]digits` reads as the decimal value, negated after `-` |
| Lexer.CalcImmOfDecGroup | lc3as.py:370-371 | group 2 of imm_pattern is read in base 10 |
| Lexer.SignedDecimal | lc3as.py:371 | `int(g, 10)` of `[-]digits` is the digits' value, negated after `-` |
| Lexer.SignedHex | lc3as.py:369 | `int(g, 16)` of `[-]hexdigits` is the digits' value, negated after `-` |
| Lexer.GetRegister | lc3as.py:358-362 | succeeds iff the word matches `^[Rr][0-7]$`, giving 3 bits worth the register number; else a ValueError |
| Lexer.RegNumInRange | lc3as.py:358-361 | a register number fits in 3 bits |
| Lexer.LabelIsNoOtherToken | lc3as.py:345-355 | a label is no register, no immediate, and no opcode, pseudo-op or branch mnemonic in any letter case |
| Tokens.QuoteScan | lc3as.py:7 | finds the first closing quote or newline: none of them before it |
| Tokens.RunEnd | lc3as.py:7 | finds the end of the longest run without commas or whitespace |
| Tokens.ConsTokenises | lc3as.py:7 | one quoted or unquoted token in front of a tokenisation of the rest is a tokenisation |
| Tokens.SepTokenises | lc3as.py:7 | a separator in front of a tokenisation of the rest is one too |
| Tokens.QuotedTokenises | lc3as.py:7 | the scan takes a shortest quoted run where one closes |
| Tokens.RunTokenises | lc3as.py:7 | the scan takes a maximal unquoted run elsewhere |
| Tokens.SpansFrom | lc3as.py:419 | definition of the scan `re.findall` makes over word_pattern from a position; Tokens.SpansFromTokenises states what it finds |
| Tokens.SpansFromTokenises | lc3as.py:418-419 | the spans findall reports are in bounds, non-empty, non-overlapping and in order; each is a shortest quoted run or a maximal run without commas or whitespace; only separators lie between and around them |
| Tokens.SpanIsToken | lc3as.py:7 | every span's text is non-empty, has no newline, and is quoted at both ends or holds no separator |
| Tokens.Slices | lc3as.py:419 | one word per span, the text of that span |
| Tokens.Split | lc3as.py:418-419 | every word split returns is a token |
| Tokens.Strip | lc3as.py:444 | `str.strip()` is a slice `s[a..b]` with only whitespace before `a` and after `b`; it is empty iff the line is all whitespace, and otherwise starts and ends with a non-space |
| Tokens.SplitOfWord | lc3as.py:444-451 | a line that is one word without separators or a leading quote strips and splits to that word |
| Tokens.Find | lc3as.py:429 | `find(';')` is the index of the first ';', or -1 when there is none |
| Tokens.RemoveComment | lc3as.py:428-430 | with a ';' the text before the first ';'; without one the line less its last character |
| Tokens.RemoveComments | lc3as.py:422-430 | the generator yields, for every line in order, its RemoveComment |
| Tokens.RemoveCommentIntended | lc3as.py:422-430 | the longest prefix before any ';' |
| Tokens.RemoveCommentAgreesOnFullLines | lc3as.py:428-430 | on a line that ends in a newline or holds a ';', the two comment removers agree once stripped |
| Tokens.StripIgnoresTrailingSpace | lc3as.py:444 | a trailing space does not change the stripped line |
| Symbols.IdentEnd | lc3as.py:12 | finds the end of the identifier run at a position |
| Symbols.ExprMatch | lc3as.py:12 | a match of expr_pattern splits the word into an identifier, a sign and an immediate text, which put back together give the word (less a final newline) |
| Symbols.CalcAddress | lc3as.py:389-404 | every failure of calc_address is a ValueError |
| Symbols.ExprAddress | lc3as.py:398-404 | the same for the part after the label test |
| Symbols.NotIdentIsNoLabel | lc3as.py:345-355 | a word that is no identifier is no label |
| Symbols.CalcAddressOfLabel | lc3as.py:395-403 | a label is its symbol-table entry, and a ValueError when undefined |
| Symbols.CalcAddressOfOffsetLabel | lc3as.py:398-401 | `L+#n` and `L-#n` are L's address moved up or down by n, and a ValueError when L is undefined |
| Symbols.CalcAddressOfMatch | lc3as.py:398-401 | a word split by expr_pattern is its label's address moved by the offset |
| Symbols.ExprAddressOfMatch | lc3as.py:398-401 | the same for the part after the label test |
| Symbols.UnsignedDecimal | lc3as.py:365-371 | `[#]digits` reads as its decimal value |
| Symbols.ExprMatchOfOffsetLabel | lc3as.py:12 | expr_pattern splits `L+#n` into L, the sign and `#n`, and the word is no label |
| Symbols.DecimalImmText | lc3as.py:12 | `[#]digits` matches group 3 of expr_pattern |
| Symbols.IdentEndCovers | lc3as.py:12 | the identifier run of `name + rest` stops where `name` does |
| Symbols.CalcAddressOfDecimal | lc3as.py:404 | a decimal literal is its own value as an address |
| Symbols.CalcAddressOfHex | lc3as.py:404 | an unsigned hex literal such as `x3000` is its own value as an address, although `x` could start an identifier |
| Symbols.CalcAddressOfImmediate | lc3as.py:398-404 | a word that is no label and that expr_pattern does not split is whatever calc_imm makes of it, value or ValueError |
| Symbols.DecimalIsNoIdent | lc3as.py:8 | a decimal literal neither starts nor forms an identifier |
| Symbols.NoIdentAddress | lc3as.py:395-404 | a word that does not start like an identifier goes to calc_imm alone |
| Symbols.CalcAddressReadsMinusHexAsExpression | lc3as.py:395-404 | `x-n` is read as the label `x` minus n, while calc_imm reads it as the hex immediate -n |
| Symbols.MinusXAsExpression | lc3as.py:398-401 | `x-n` as an address is `x`'s entry less n |
| Symbols.MinusXAsImmediate | lc3as.py:365-369 | `x-n` as an immediate is minus the hex value of n |
| Symbols.CalcOffset | lc3as.py:407-415 | every failure of calc_offset is a ValueError |
| Symbols.CalcOffsetOfImmediate | lc3as.py:408-409 | an immediate operand is the offset unchanged |
| Symbols.CalcOffsetOfLabel | lc3as.py:407-415 | a label operand is its address minus `pc`, and a ValueError when undefined |
| Symbols.CalcOffsetOfAddress | lc3as.py:410-414 | an operand that is no immediate is its calc_address value minus `pc`, and a ValueError when calc_address fails |
| Encoder.OpcodeWord | lc3as.py:65-74 | four bit fields behind a 4-bit opcode make a 16-bit word that starts with the opcode |
| Encoder.BranchWord | lc3as.py:101-104 | a branch word holds its flags in bits 11-9 |
| Encoder.RegField | lc3as.py:66 | `get_register(words[k])`: 3 bits worth the register number; an IndexError exactly when the operand is missing |
| Encoder.OffsetField | lc3as.py:152 | `int2binary(calc_offset(words[k]), n)` succeeds iff the offset resolves and fits in n signed bits, and decodes to the offset |
| Encoder.ImmField | lc3as.py:179 | `int2binary(calc_imm(words[k]), n, signed)` succeeds iff the operand is an immediate in range; it decodes signed to the value or unsigned to the value mod 2^n |
| Encoder.Flags | lc3as.py:102 | the three condition flags n, z, p as three bits |
| Encoder.OperateAsm | lc3as.py:60-92 | ADD and AND give a 16-bit word starting with their opcode; errors carry no line |
| Encoder.BrAsmAsWritten | lc3as.py:96-105 | br_asm as written: bits 11-9 are set by the lowercase letters n, z, p of the mnemonic |
| Encoder.BrAsm | lc3as.py:96-105 | corrected br_asm: bits 11-9 are set by the letters n, z, p in either case |
| Encoder.RegOffsetAsm | lc3as.py:145-253 | LD, LDI, LEA, ST and STI give a word starting with their opcode |
| Encoder.BaseJumpAsm | lc3as.py:109-141 | JMP and JSRR give a word starting with their opcode |
| Encoder.JsrAsm | lc3as.py:121-129 | JSR gives a word starting with 0100 |
| Encoder.LdrAsm | lc3as.py:171-181 | LDR gives a word starting with 0110 |
| Encoder.StrAsm | lc3as.py:257-267 | STR gives a word starting with 0111 |
| Encoder.NotAsm | lc3as.py:198-207 | NOT gives a word starting with 1001 |
| Encoder.TrapAsm | lc3as.py:271-278 | TRAP gives a word starting with 1111 |
| Encoder.OpAsm | lc3as.py:49-50 | every registered encoder returns a 16-bit word starting with its opcode's four bits, or an error without a line; BR goes to the corrected br_asm |
| Encoder.FixedAsm | lc3as.py:210-303 | definition of the constant words of RET, RTI and the trap aliases; Encoder.FixedWordLayout, Layouts.ReturnWords and Layouts.TrapAliasVectors state their layout |
| Encoder.FixedWordLayout | lc3as.py:211-303 | RET, RTI and the trap aliases return constant 16-bit words starting with their opcode |
| Encoder.FillAsm | lc3as.py:314-317 | .FILL succeeds iff the operand resolves to an address below 2^16, giving one word worth the address mod 2^16 |
| Encoder.BlkwAsm | lc3as.py:320-323 | .BLKW n gives n zero words (none when n < 0); an IndexError exactly when the operand is missing |
| Encoder.CharWord | lc3as.py:335 | a character's word succeeds iff its code is below 2^16, and is worth that code |
| Encoder.StringzFrom | lc3as.py:333-336 | definition of the append loop from character `i` on; Encoder.StringzFromSucceeds, StringzFromShape and StringzFromCodes state what it returns |
| Encoder.StringzWords | lc3as.py:331-337 | definition of stringz_asm on the words of a record; Encoder.StringzContents states its words and errors |
| Encoder.StringzAsm | lc3as.py:331-337 | the append loop returns exactly StringzWords |
| Encoder.StringzFromSucceeds | lc3as.py:334-335 | the loop succeeds iff every remaining character fits in 16 bits, else a ValueError |
| Encoder.StringzFromShape | lc3as.py:333-336 | on success the words extend the accumulator by one per character and end with a zero word |
| Encoder.StringzFromCodes | lc3as.py:334-335 | on success each character's word is a 16-bit word worth its code |
| Encoder.StringzContents | lc3as.py:331-337 | .STRINGZ of n characters gives n+1 words, the codes in order and a zero word; errors are a ValueError for a wide character or an IndexError for a missing operand |
| Encoder.StringContents | lc3as.py:333-337 | the words of a string that fits are its codes in order, then a zero word |
| Encoder.Pack | lc3as.py:56 | `struct.pack('!H', ...)`: the high byte times 256 plus the low byte is the word's value |
| Layouts.OperateFields | lc3as.py:60-92 | ADD/AND succeed iff DR and SR1 are registers and operand 3 is an imm5 in range or a register; DR in bits 11-9, SR1 in 8-6, then bit 5 set with imm5 in 4-0, or 000 and SR2 in 2-0 |
| Layouts.BrAsWrittenFields | lc3as.py:96-105 | br_asm as written succeeds iff the offset resolves and fits in 9 signed bits; bits 11-9 are the lowercase letters n, z, p and bits 8-0 the offset |
| Layouts.BrAsWrittenClearsFlags | lc3as.py:102 | for an upper-case mnemonic, br_asm as written and corrected succeed alike and differ only in bits 11-9, which the written one leaves 000 |
| Layouts.BrFields | lc3as.py:96-105 | BR succeeds iff the offset resolves and fits in 9 signed bits; flags n, z, p in bits 11-9 and the offset in 8-0 |
| Layouts.BrIgnoresCase | lc3as.py:96-105 | the corrected br_asm gives the same word for the mnemonic in either case |
| Layouts.BrAsWrittenDropsFlags | lc3as.py:102 | as written, br_asm sets no flag for an upper-case mnemonic, which is what parse hands it |
| Layouts.BrzExample | lc3as.py:102 | `BRZ` gets flags 000 as written and 010 corrected |
| Layouts.BrzLetters | lc3as.py:102 | `BRZ` is upper case and holds z but neither n nor p |
| Layouts.RegOffsetFields | lc3as.py:145-253 | LD, LDI, LEA, ST, STI succeed iff the register is valid and the offset fits in 9 signed bits; register in bits 11-9, offset in 8-0 |
| Layouts.BaseJumpFields | lc3as.py:109-141 | JMP/JSRR succeed iff the base is a register; it sits in bits 8-6 between zeros |
| Layouts.JsrFields | lc3as.py:121-129 | JSR succeeds iff the offset fits in 11 signed bits; bit 11 set and the offset in 10-0 |
| Layouts.LdrFields | lc3as.py:171-181 | LDR succeeds iff both registers are valid and the immediate fits in 6 signed bits; fields in 11-9, 8-6, 5-0 |
| Layouts.StrFields | lc3as.py:257-267 | STR succeeds iff both registers are valid and the offset, read by calc_offset, fits in 6 signed bits; fields in 11-9, 8-6, 5-0 |
| Layouts.NotFields | lc3as.py:198-207 | NOT succeeds iff both registers are valid; DR in 11-9, SR in 8-6, ones in 5-0 |
| Layouts.TrapFields | lc3as.py:271-278 | TRAP succeeds iff the operand is an immediate below 256; zeros in 11-8 and the vector mod 256 in 7-0 |
| Layouts.TrapAliasVectors | lc3as.py:281-303 | GETC, OUT, PUTS, IN and HALT are TRAP words with vectors x20, x21, x22, x23 and x25 |
| Layouts.AliasWord | lc3as.py:281-303 | a trap alias's constant is a TRAP word with the vector its low bits spell |
| Layouts.VectorValue | lc3as.py:281-303 | the value of the vector field of such a word |
| Layouts.ReturnWords | lc3as.py:210-227 | RET is JMP R7, and RTI is its opcode followed by zeros |
| Layouts.RetWord | lc3as.py:210-217 | RET is JMP with base register 7 |
| Layouts.RtiWord | lc3as.py:220-227 | RTI is 1000 followed by twelve zeros |
| Assembly.OrigAsm | lc3as.py:306-311 | `orig_address` becomes the operand whenever it is an immediate, even one too wide; success iff the operand is an immediate below 2^16, giving one word worth it mod 2^16; an IndexError exactly when the operand is missing |
| Assembly.Instrs | lc3as.py:45-55 | every word dispatch returns is a 16-bit word, errors carry no line, and only `.ORIG` with an operand moves `orig_address`; BR goes to the corrected br_asm |
| Assembly.BranchAsWritten | lc3as.py:45-48 | for a branch as parse hands it on, the code's br_asm succeeds exactly when dispatch does and emits the same word with bits 11-9 cleared |
| Assembly.PseudoInstrs | lc3as.py:52-55 | the same for the pseudo-op handlers |
| Assembly.AssembleRejects | lc3as.py:45-55 | a BR-prefixed op that is no branch mnemonic, or an op that is neither opcode nor pseudo-op, is a ValueError |
| Assembly.BareBrRejected | lc3as.py:45-50 | a bare BR is registered as an opcode but assemble rejects it |
| Assembly.BlkwAllWords | lc3as.py:320-323 | .BLKW gives only 16-bit words |
| Assembly.StringzAllWords | lc3as.py:331-337 | .STRINGZ gives only 16-bit words and errors without a line |
| Assembly.Single | lc3as.py:48-50 | `[op_asm[...](words)]` is the one word, or its error |
| Assembly.Packs | lc3as.py:56 | one packed pair per word, each worth that word |
| Assembly.Assemble | lc3as.py:39-56 | assemble fails exactly when dispatch fails, with its error; on success it returns one packed pair per instruction word, in order, whose high byte times 256 plus low byte is that word's value; `orig_address` is left as dispatch leaves it |
| Pass1.UpperTwice | lc3as.py:452-453 | upper-casing twice is upper-casing once |
| Pass1.BrMnemonicUpper | lc3as.py:452-455 | an upper-cased branch mnemonic is still one |
| Pass1.NormalWord | lc3as.py:452-455 | a word becomes its upper case exactly when that is a keyword; the result is a keyword iff the word is one in some letter case |
| Pass1.Normalize | lc3as.py:452-455 | the comprehension normalises each word in place |
| Pass1.NormalBranchIsUpper | lc3as.py:452-455 | every branch mnemonic the normalisation hands on is upper case |
| Pass1.LineWords | lc3as.py:444-455 | definition of the normalised words of a stripped line |
| Pass1.Body | lc3as.py:457-459 | definition of the words after a leading label is popped |
| Pass1.Reserved | lc3as.py:474-496 | definition of the words pass 1 counts for a record; Pass2.EmittedWords compares it with what pass 2 emits |
| Pass1.ParseLine | lc3as.py:444-501 | definition of one line of the loop: a blank line is skipped, any other is split and handled; Pass1.StepKeepsInv and Pass1.StepKeepsLabelled state what it keeps |
| Pass1.ParseWords | lc3as.py:457-501 | definition of the handling of a line's words: an empty list raises IndexError, a label is bound, then the statement; Pass1.LabelBinding and Pass1.WordsKeepInv |
| Pass1.Statement | lc3as.py:461-501 | definition of the statement after the label: nothing, the first statement, or a later one; Pass1.StatementKeepsInv |
| Pass1.ParseFrom | lc3as.py:449-503 | definition of the loop from line `i` on, with the comment remover as a parameter; Pass1.ParseFromKeepsInv and Pass1.ParseFromKeepsLabelled |
| Pass1.Parse | lc3as.py:433-503 | definition of parse with the corrected remove_comment; Pass1.ParseRecords and Pass1.ParseLabels state its result |
| Pass1.ParseAsWritten | lc3as.py:433-503 | definition of parse with remove_comment as written; Pass1.ParseRecordsAsWritten and Pass1.ParseLabelsAsWritten state its result |
| Pass1.OpLine | lc3as.py:474-501 | a statement past the first never changes the symbol table, `orig_address` or `first_line` |
| Pass1.OrigLine | lc3as.py:464-473 | the first statement never changes the symbol table |
| Pass1.Bind | lc3as.py:457-459 | binding a label changes only the symbol table |
| Pass1.AppendKeepsInv | lc3as.py:474-496 | appending a record that occupies memory keeps `cur_address` the sum of the words counted |
| Pass1.OpLineKeepsInv | lc3as.py:474-501 | a later statement keeps pass 1's bookkeeping, and only `.END` ends the loop with success, returning the records |
| Pass1.OrigLineKeepsInv | lc3as.py:464-473 | the first statement keeps the bookkeeping and never ends the loop with success |
| Pass1.StatementKeepsInv | lc3as.py:461-501 | the statement after the label keeps the bookkeeping; success only at `.END` |
| Pass1.WordsKeepInv | lc3as.py:457-501 | the words of a line keep the bookkeeping; success only at `.END` |
| Pass1.StepKeepsInv | lc3as.py:449-501 | one line keeps the bookkeeping; a successful stop is an `.END` line after the `.ORIG` and returns the records so far |
| Pass1.ParseFromKeepsInv | lc3as.py:449-503 | the loop keeps the bookkeeping; success returns the records and needs an `.END` line |
| Pass1.ParseRecordsAsWritten | lc3as.py:433-503 | the same as Pass1.ParseRecords for parse with remove_comment as written |
| Pass1.ParseRecords | lc3as.py:433-503 | on success the first record is the `.ORIG` whose operand is now `orig_address`, every later record occupies memory, `cur_address` is the number of words counted, and some line holds `.END`; running out of lines is an error |
| Pass1.LabelBinding | lc3as.py:457-459 | a leading label is bound to `orig_address + cur_address`, overwriting any earlier binding; nothing else in a line touches the symbol table |
| Pass1.StatementKeepsSymbols | lc3as.py:461-501 | a statement leaves the symbol table alone |
| Pass1.ParseIgnoresRest | lc3as.py:497-498 | lines after the one that ends the loop are never read |
| Pass1.FirstStatementIsOrig | lc3as.py:464-466 | a first statement other than `.ORIG` is a ValueError on its line |
| Pass1.OpLineGrows | lc3as.py:474-501 | a later statement only appends records |
| Pass1.GrowKeepsLabelled | lc3as.py:474-501 | appending records keeps every label at a record boundary |
| Pass1.FirstLabels | lc3as.py:457-458 | before the `.ORIG` every entry is an old one or the starting origin |
| Pass1.BindKeepsLabelled | lc3as.py:457-458 | binding a label keeps every entry an old one, the starting origin, or a boundary |
| Pass1.BindShape | lc3as.py:457-458 | binding either leaves the state or binds the first word to `orig_address + cur_address` |
| Pass1.BoundLabelled | lc3as.py:457-458 | binding any name to `orig_address + cur_address` keeps the entries labelled |
| Pass1.CurIsBoundary | lc3as.py:458 | `orig_address + cur_address` is the starting origin before the `.ORIG` and the record boundary after the last record from then on |
| Pass1.AddLabelKeepsLabelled | lc3as.py:458 | binding a name to the origin or to a boundary keeps the entries labelled |
| Pass1.StatementKeepsLabelled | lc3as.py:461-501 | a statement keeps the entries labelled |
| Pass1.StepKeepsLabelled | lc3as.py:449-501 | a line keeps the entries labelled |
| Pass1.ParseFromKeepsLabelled | lc3as.py:449-503 | the loop keeps the entries labelled |
| Pass1.ParseLabelsAsWritten | lc3as.py:457-458 | the same as Pass1.ParseLabels for parse with remove_comment as written |
| Pass1.ParseLabels | lc3as.py:457-458 | after a successful parse every symbol-table entry is an entry from before, the origin from before, or the address of a record boundary |
| Pass1.LabelledEntries | lc3as.py:457-458 | what the labelled state says of each entry |
| Pass1.ParseLineUsesStripped | lc3as.py:444 | a line's outcome depends only on its stripped text |
| Pass1.ParseFromAgrees | lc3as.py:428-430 | when every line ends in a newline or holds a ';', the loop over either comment remover gives the same result |
| Pass1.ParseAgreesOnFullLines | lc3as.py:428-430 | parse as written and parse with the corrected remove_comment agree on such files, in result and globals |
| Pass1.FinalEndLost | lc3as.py:430 | a final `.END` without a newline becomes `.EN` and is a ValueError as written, while the corrected remover ends pass 1 with the records |
| Pass1.OpLineOfUnknown | lc3as.py:500-501 | a statement that names no op is a ValueError on its line |
| Pass1.OpLineOfEnd | lc3as.py:497-498 | `.END` returns the records kept so far |
| Pass1.EnIsNoStatement | lc3as.py:500-501 | `.EN` is a one-word line that names no op |
| Pass1.EnIsNoKeyword | lc3as.py:452-455 | `.EN` is no keyword in any case |
| Pass1.EndIsEnd | lc3as.py:497-498 | `.END` is a one-word line naming the pseudo-op .END |
| Pass2.AtLine | lc3as.py:518-519 | definition of the `except ValueError` of pass2: a ValueError gets the record's line, an IndexError passes unchanged |
| Pass2.Pass2From | lc3as.py:513-520 | definition of the loop of pass2 from record `i` on, over any record assembler; Pass2.Pass2FromOk and Pass2.Pass2FromErr state one turn |
| Pass2.Pass2Run | lc3as.py:506-520 | definition of pass2 over Assembly.Assemble; Pass2.Pass2FollowsPass1 and Pass2.Pass2Errors state its result |
| Pass2.Reference | lc3as.py:513-517 | an independent definition of assembly in which each instruction's `pc` is one past the address pass 1 gave it; Pass2.Pass2FollowsPass1 proves pass2 equal to it |
| Pass2.EmittedWords | lc3as.py:474-496 | a record pass 1 kept emits in pass 2 exactly the words pass 1 counted for it, unless it is a negative .BLKW |
| Pass2.NegativeBlkwMismatch | lc3as.py:482-487 | a negative `.BLKW` emits no words but counts negatively in pass 1 |
| Pass2.AssembleCountsRecord | lc3as.py:513-517 | assemble leaves `orig_address` at the origin and emits the counted words for each record, one for the `.ORIG` |
| Pass2.OrigReservesNone | lc3as.py:464-473 | the `.ORIG` record counts no words in pass 1 |
| Pass2.AssembleCounts | lc3as.py:513-517 | the same for every record from `k` on |
| Pass2.FollowsStep | lc3as.py:515 | at each record the loop's `pc` is one past pass 1's address of that record |
| Pass2.Pass2FromStep | lc3as.py:513-519 | one turn of pass2's loop: `pc` set, the record assembled, a ValueError given the record's line |
| Pass2.OkTurn | lc3as.py:515-517 | a record that assembles makes both loops go on with the same words appended |
| Pass2.Pass2FromOk | lc3as.py:515-517 | the same for pass2's loop |
| Pass2.ReferenceFromOk | lc3as.py:515-517 | the same for the reference |
| Pass2.ErrTurn | lc3as.py:518-519 | a record that fails makes both loops stop with the same error |
| Pass2.Pass2FromErr | lc3as.py:518-519 | the same for pass2's loop |
| Pass2.ReferenceFromErr | lc3as.py:518-519 | the same for the reference |
| Pass2.FollowsFrom | lc3as.py:513-520 | from any record on, pass2 equals the reference and emits one word plus the counted words |
| Pass2.FollowsOk | lc3as.py:513-520 | the same after a record that assembled |
| Pass2.OkAgree | lc3as.py:513-520 | agreement carries back over a record that assembled |
| Pass2.AgreeBack | lc3as.py:513-520 | agreement carries back over a record both loops passed alike |
| Pass2.Pass2FollowsPass1 | lc3as.py:506-520 | on records from pass 1 with no negative .BLKW, pass2 assembles each instruction with `pc` one past its pass-1 address, and emits exactly 1 + the words pass 1 counted |
| Pass2.ParseThenPass2 | lc3as.py:433-520 | when parse succeeds and no .BLKW is negative, its records are well formed, so pass2 over them with parse's symbols and origin is the reference assembly and emits 1 + `cur_address` words |
| Pass2.ErrorsFrom | lc3as.py:513-519 | an error from the loop is a ValueError on some record's line, or a lineless IndexError |
| Pass2.Pass2Errors | lc3as.py:506-520 | an error from pass2 is a ValueError on the line of a record, or an IndexError from a missing operand without a line |
| Machine.Assembler.constructor | lc3as.py:18-20 | the globals start as an empty table, origin 0 and `pc` 0 |
| Machine.Assembler.OrigAsm | lc3as.py:306-311 | orig_asm on the object returns Assembly.OrigAsm and writes its new origin to `origAddress` |
| Machine.Assembler.Assemble | lc3as.py:39-56 | assemble on the object returns Assembly.Assemble's words and leaves its `orig_address`; only `origAddress` changes |
| Machine.Assembler.OpStep | lc3as.py:474-501 | the op tests update `cur_address` and `instrs` as OpLine does, and change no global |
| Machine.Assembler.ParseOne | lc3as.py:449-501 | one line's loop body updates the locals and the globals as ParseLine does |
| Machine.Assembler.WordsStep | lc3as.py:451-501 | the same for the words of a non-blank line |
| Machine.Assembler.BindLabel | lc3as.py:457-459 | binds a leading label and pops it, as Bind and Body say |
| Machine.Assembler.StatementStep | lc3as.py:461-501 | the first-statement test and the op tests update the state as Statement does |
| Machine.Assembler.Parse | lc3as.py:433-503 | the loop of parse returns ParseFrom's result and leaves `symbolTable` and `origAddress` as it does |
| Machine.Assembler.ParseLineOf | lc3as.py:443-501 | one turn of the loop, with comment removal, moves ParseFrom on by one line or ends it |
| Machine.Assembler.Pass2 | lc3as.py:506-520 | the loop of pass2 returns Pass2Run's codes and leaves the globals, `pc` among them, as it does |
| Machine.Pass2Turn | lc3as.py:513-519 | one turn of pass2's loop, on what assemble returned |
| Machine.ParseTurn | lc3as.py:449-501 | one turn of parse's loop, on what the line did |

## Left out

- main, argparse, output-file naming, writing the .obj file and printing the error (lc3as.py:523-545): I/O.
- The `open` and `readline` of parse (lc3as.py:441-443): the lines are a parameter, each with its newline.
- A general regular-expression engine: the six patterns are written as predicates and scanners for exactly what they match.
- `ast.literal_eval` (lc3as.py:490): a parameter `literal`, so the escapes and quoting rules of Python literals are not modelled; the `isinstance(..., str)` test is folded into `literal` returning `None`.
- Message texts: an error keeps only its class (ValueError or IndexError) and the line number the code attaches; other exception classes do not arise from the code modelled.
- Lexer.Upper: `str.upper()` maps only the ASCII letters. The non-ASCII characters whose upper case is ASCII (such as U+0131 and U+017F) or longer than one character are not modelled.
- Tokens.Split: its own contract says only that every word is a token. That the words are exactly the spans findall reports is stated by Tokens.SpansFromTokenises about the scan Split slices.
- Symbols.CalcAddress, Symbols.ExprAddress and Symbols.CalcOffset: their own contracts say only that every failure is a ValueError. What they resolve to is stated case by case in lemmas. For calc_address, CalcAddressOfLabel covers labels, CalcAddressOfMatch, CalcAddressOfOffsetLabel and ExprAddressOfMatch cover words split by expr_pattern whose offset calc_imm reads (an offset it refuses is a ValueError by CalcAddress's own contract), and CalcAddressOfImmediate covers every other word. CalcAddressOfDecimal and CalcAddressOfHex cover decimal and unsigned hex literals. For calc_offset, CalcOffsetOfImmediate, CalcOffsetOfLabel and CalcOffsetOfAddress together cover every operand.
- Encoder.OperateAsm, Encoder.RegOffsetAsm, Encoder.BaseJumpAsm, Encoder.JsrAsm, Encoder.LdrAsm, Encoder.StrAsm, Encoder.NotAsm and Encoder.TrapAsm: their own contracts state only the word shape and opcode. The operand fields and the exact success conditions are the Layouts lemmas.
- Machine.Assembler.Parse and Machine.Assembler.ParseLineOf: they use the corrected remove_comment (Tokens.RemoveCommentIntended), like Pass1.Parse. The code as written is Pass1.ParseAsWritten, and Pass1.ParseAgreesOnFullLines shows the two agree when every line ends in a newline or holds a ';'.
- Assembly.Instrs: it sends BR to the corrected br_asm (Encoder.BrAsm) of the first finding, not to br_asm as written (lc3as.py:48, 95-105). For a branch as parse hands it on (upper case, Pass1.NormalBranchIsUpper), the code emits the same word with bits 11-9 cleared, so `BRz` gives flags 000 there and 010 here. Assembly.BranchAsWritten states this exactly.
- Encoder.OpAsm: its BR case is the corrected br_asm, as in Assembly.Instrs.
- Assembly.Assemble: its words come from Assembly.Instrs, so a branch word has the corrected flags.
- Pass2.Pass2Run and Pass2.Reference: they assemble with Assembly.Assemble, so their branch words have the corrected flags. Pass2.Pass2FollowsPass1 is about addresses and word counts, and on those the two encodings agree: they succeed alike and emit one word (Layouts.BrAsWrittenClearsFlags).
- Machine.Assembler.Assemble and Machine.Assembler.Pass2: they compute Assembly.Assemble and Pass2.Pass2Run, so their branch words have the corrected flags.
- Encoder.StringzAsm: a Python `str` can hold a lone surrogate (from `.STRINGZ "\ud800"`), which stringz_asm encodes as 0xD800. A Dafny `char` cannot hold one, so such strings are not modelled.
- `struct.pack` is modelled as the pair (value / 256, value % 256) of a 16-bit value; its range error cannot arise, since every word has 16 bits.
- The IndexError of parse's .STRINGZ branch when the operand is missing arises while the error message itself is formatted (lc3as.py:494). The model gives the IndexError directly.

## Findings

| source | as written | input that shows it | evidently intended | confidence | as-written member | corrected member |
|---|---|---|---|---|---|---|
| lc3as.py:102 | br_asm sets a flag when the lowercase letter n, z or p occurs in the mnemonic, but parse has already upper-cased every branch mnemonic (lc3as.py:452-455) | `BRz LOOP`: parse hands on `BRZ`, and br_asm encodes flags 000 | the flags of the mnemonic in either case, since br_pattern accepts both (`BRZ` gives 010) | not executed | Encoder.BrAsmAsWritten, Layouts.BrAsWrittenFields, Layouts.BrAsWrittenDropsFlags, Layouts.BrAsWrittenClearsFlags, Layouts.BrzExample, Assembly.BranchAsWritten | Encoder.BrAsm, Layouts.BrFields, Layouts.BrIgnoresCase |
| lc3as.py:430 | `line[:index]` with `index == -1` drops the last character of a line without ';' | a file whose last line is `.END` with no newline: the line becomes `.EN`, and parse raises a ValueError | keep the whole line when it has no ';' | not executed | Tokens.RemoveComment, Pass1.ParseAsWritten, Pass1.FinalEndLost | Tokens.RemoveCommentIntended, Pass1.Parse, Pass1.ParseAgreesOnFullLines |
