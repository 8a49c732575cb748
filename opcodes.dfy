/** The opcode and pseudo-op registry. In lc3as.py the decorators `reg_op_asm` and
    `reg_pseudo` (lc3as.py:23-36) fill the dictionaries `op_asm` and `pseudo_asm`
    and the list `keywords` when the module loads; here the registry is a fixed
    pair of datatypes with their names. */
module Opcodes {
  import opened Errors

  datatype Opcode =
    | Add | And | Br | Jmp | Jsr | Jsrr | Ld | Ldi | Ldr | Lea | Not
    | Ret | Rti | St | Sti | Str | Trap | Getc | Halt | Out | In | Puts

  datatype Pseudo = Orig | Fill | Blkw | End | Stringz

  /** The key under which each encoder is registered in `op_asm`. */
  function OpName(op: Opcode): string {
    match op
    case Add => "ADD"   case And => "AND"   case Br => "BR"     case Jmp => "JMP"
    case Jsr => "JSR"   case Jsrr => "JSRR" case Ld => "LD"     case Ldi => "LDI"
    case Ldr => "LDR"   case Lea => "LEA"   case Not => "NOT"   case Ret => "RET"
    case Rti => "RTI"   case St => "ST"     case Sti => "STI"   case Str => "STR"
    case Trap => "TRAP" case Getc => "GETC" case Halt => "HALT" case Out => "OUT"
    case In => "IN"     case Puts => "PUTS"
  }

  /** The key under which each pseudo-op is registered in `pseudo_asm`. */
  function PseudoName(p: Pseudo): string {
    match p
    case Orig => ".ORIG" case Fill => ".FILL" case Blkw => ".BLKW" case End => ".END"
    case Stringz => ".STRINGZ"
  }

  /** The lookup `s in op_asm` / `op_asm[s]`. */
  function OpcodeNamed(s: string): (r: Option<Opcode>)
    ensures r.Some? ==> OpName(r.value) == s
  {
    if s == "ADD" then Some(Add) else if s == "AND" then Some(And)
    else if s == "BR" then Some(Br) else if s == "JMP" then Some(Jmp)
    else if s == "JSR" then Some(Jsr) else if s == "JSRR" then Some(Jsrr)
    else if s == "LD" then Some(Ld) else if s == "LDI" then Some(Ldi)
    else if s == "LDR" then Some(Ldr) else if s == "LEA" then Some(Lea)
    else if s == "NOT" then Some(Not) else if s == "RET" then Some(Ret)
    else if s == "RTI" then Some(Rti) else if s == "ST" then Some(St)
    else if s == "STI" then Some(Sti) else if s == "STR" then Some(Str)
    else if s == "TRAP" then Some(Trap) else if s == "GETC" then Some(Getc)
    else if s == "HALT" then Some(Halt) else if s == "OUT" then Some(Out)
    else if s == "IN" then Some(In) else if s == "PUTS" then Some(Puts)
    else None
  }

  /** The lookup `s in pseudo_asm` / `pseudo_asm[s]`. */
  function PseudoNamed(s: string): (r: Option<Pseudo>)
    ensures r.Some? ==> PseudoName(r.value) == s
  {
    if s == ".ORIG" then Some(Orig) else if s == ".FILL" then Some(Fill)
    else if s == ".BLKW" then Some(Blkw) else if s == ".END" then Some(End)
    else if s == ".STRINGZ" then Some(Stringz)
    else None
  }

  /** The list `keywords`, in registration order: every opcode, then every pseudo-op. */
  const Keywords: seq<string> := [
    "ADD", "AND", "BR", "JMP", "JSR", "JSRR", "LD", "LDI", "LDR", "LEA", "NOT",
    "RET", "RTI", "ST", "STI", "STR", "TRAP", "GETC", "HALT", "OUT", "IN", "PUTS",
    ".ORIG", ".FILL", ".BLKW", ".END", ".STRINGZ"]

  /** The first four bits of every word an opcode's encoder returns. */
  function OpcodeBits(op: Opcode): string {
    match op
    case Add => "0001"  case And => "0101"  case Br => "0000"   case Jmp => "1100"
    case Jsr => "0100"  case Jsrr => "0100" case Ld => "0010"   case Ldi => "1010"
    case Ldr => "0110"  case Lea => "1110"  case Not => "1001"  case Ret => "1100"
    case Rti => "1000"  case St => "0011"   case Sti => "1011"  case Str => "0111"
    case Trap => "1111" case Getc => "1111" case Halt => "1111" case Out => "1111"
    case In => "1111"   case Puts => "1111"
  }

  /** Looking up an opcode's registered name finds that opcode. */
  lemma OpcodeNamedName(op: Opcode)
    ensures OpcodeNamed(OpName(op)) == Some(op)
  {
    if op in {Add, And, Br, Jmp, Jsr, Jsrr, Ld, Ldi, Ldr, Lea, Not} {
      EarlyOpcodeNamed(op);
    } else if op in {Ret, Rti, St, Sti, Str} {
      MiddleOpcodeNamed(op);
    } else {
      LateOpcodeNamed(op);
    }
  }

  lemma EarlyOpcodeNamed(op: Opcode)
    requires op in {Add, And, Br, Jmp, Jsr, Jsrr, Ld, Ldi, Ldr, Lea, Not}
    ensures OpcodeNamed(OpName(op)) == Some(op)
  {
    match op
    case Add => case And => case Br => case Jmp => case Jsr => case Jsrr =>
    case Ld => case Ldi => case Ldr => case Lea => case Not =>
  }

  lemma MiddleOpcodeNamed(op: Opcode)
    requires op in {Ret, Rti, St, Sti, Str}
    ensures OpcodeNamed(OpName(op)) == Some(op)
  {
    match op
    case Ret => case Rti => case St => case Sti => case Str =>
  }

  lemma LateOpcodeNamed(op: Opcode)
    requires op in {Trap, Getc, Halt, Out, In, Puts}
    ensures OpcodeNamed(OpName(op)) == Some(op)
  {
    match op
    case Trap => case Getc => case Halt => case Out => case In => case Puts =>
  }

  /** Whatever the lookup finds is registered under the name looked up. */
  lemma NamedOpcodeName(s: string)
    ensures OpcodeNamed(s).Some? ==> OpName(OpcodeNamed(s).value) == s
  {
  }

  /** The opcode registry is a bijection between the datatype and its names. */
  lemma OpcodeNamedIsInverse(s: string, op: Opcode)
    ensures OpcodeNamed(s) == Some(op) <==> s == OpName(op)
  {
    OpcodeNamedName(op);
    NamedOpcodeName(s);
  }

  lemma PseudoNamedIsInverse(s: string, p: Pseudo)
    ensures PseudoNamed(s) == Some(p) <==> s == PseudoName(p)
  {
  }

  /** `keywords` holds exactly the registered names of both tables. */
  lemma KeywordsAreRegisteredNames(s: string)
    ensures s in Keywords <==> OpcodeNamed(s).Some? || PseudoNamed(s).Some?
  {
    if s in Keywords {
      KeywordIsRegistered(s);
    } else {
      UnlistedIsUnregistered(s);
    }
  }

  lemma KeywordIsRegistered(s: string)
    requires s in Keywords
    ensures OpcodeNamed(s).Some? || PseudoNamed(s).Some?
  {
  }

  lemma UnlistedIsUnregistered(s: string)
    requires s !in Keywords
    ensures OpcodeNamed(s).None? && PseudoNamed(s).None?
  {
  }
}
