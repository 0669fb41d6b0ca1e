/**
 * The instruction decoder of src/instr.rs: the opcode numbering of `OpPrefix`,
 * the decoded `Instr`, and `next_instr_point`, which reads one instruction at a
 * byte cursor. The `&mut` iterator of the source is modelled as the whole byte
 * stream plus the cursor position; the width returned is how far it advanced.
 */
module Instructions {
  import opened Wrappers

  newtype byte = x: int | 0 <= x < 256

  /** Opcode tags; `UNKNOWN` is the catch-all for every other byte value. */
  datatype OpPrefix =
    | CONSTANT | ADD | SUBTRACT | MULTIPLY | DIVIDE | NEGATE | RETURN
    | UNKNOWN(raw: byte)

  /** `u8::from(prefix)`: the tag's byte, or the raw byte of a catch-all. The seven tags take the bytes 0 to 6. */
  function IntoPrimitive(p: OpPrefix): (b: byte)
    ensures !p.UNKNOWN? ==> b <= 6
  {
    match p
    case CONSTANT => 0
    case ADD => 1
    case SUBTRACT => 2
    case MULTIPLY => 3
    case DIVIDE => 4
    case NEGATE => 5
    case RETURN => 6
    case UNKNOWN(b) => b
  }

  /** `OpPrefix::from(byte)`: total; bytes 7..255 land in the catch-all. */
  function FromPrimitive(b: byte): (p: OpPrefix)
    ensures IntoPrimitive(p) == b
    ensures p.UNKNOWN? <==> b > 6
  {
    if b == 0 then CONSTANT
    else if b == 1 then ADD
    else if b == 2 then SUBTRACT
    else if b == 3 then MULTIPLY
    else if b == 4 then DIVIDE
    else if b == 5 then NEGATE
    else if b == 6 then RETURN
    else UNKNOWN(b)
  }

  /** A catch-all prefix holding a tag's own byte is not what decoding produces. */
  predicate Canonical(p: OpPrefix) {
    p.UNKNOWN? ==> p.raw > 6
  }

  /** Byte -> prefix -> byte is the identity; prefix -> byte -> prefix is exactly on canonical prefixes. */
  lemma PrefixRoundTrip(p: OpPrefix)
    ensures FromPrimitive(IntoPrimitive(p)) == p <==> Canonical(p)
  {
  }

  datatype Instr =
    | Constant(idx: byte)
    | Add | Subtract | Multiply | Divide | Negate | Return

  datatype InstrResult = Good(instr: Instr) | BadOp(bytes: seq<byte>)

  /** The opcode tag an instruction is written with. */
  function PrefixOf(i: Instr): (p: OpPrefix)
    ensures Canonical(p) && !p.UNKNOWN?
  {
    match i
    case Constant(_) => CONSTANT
    case Add => ADD
    case Subtract => SUBTRACT
    case Multiply => MULTIPLY
    case Divide => DIVIDE
    case Negate => NEGATE
    case Return => RETURN
  }

  /** The byte encoding a chunk holds for an instruction: opcode, then the operand of Constant. */
  function Encode(i: Instr): (bs: seq<byte>)
    ensures |bs| == (if i.Constant? then 2 else 1)
    ensures FromPrimitive(bs[0]) == PrefixOf(i)
  {
    [IntoPrimitive(PrefixOf(i))] + (if i.Constant? then [i.idx] else [])
  }

  /** The encoding of a list of instructions, one after another. */
  function EncodeAll(instrs: seq<Instr>): seq<byte> {
    if |instrs| == 0 then [] else Encode(instrs[0]) + EncodeAll(instrs[1..])
  }

  /**
   * `next_instr_point`: decodes the instruction starting at `pos`.
   * None when no byte is left; otherwise the result and the number of bytes
   * consumed, one or two, all of them within the input.
   */
  function NextInstrPoint(code: seq<byte>, pos: nat): (r: Option<(InstrResult, nat)>)
    ensures r.None? <==> pos >= |code|
    ensures r.Some? ==> 1 <= r.value.1 <= 2 && pos + r.value.1 <= |code|
  {
    if pos >= |code| then None
    else
      var prefix := FromPrimitive(code[pos]);
      match prefix
      case CONSTANT =>
        if pos + 1 < |code| then Some((Good(Constant(code[pos + 1])), 2))
        else Some((BadOp([IntoPrimitive(prefix)]), 1))
      case ADD => Some((Good(Add), 1))
      case SUBTRACT => Some((Good(Subtract), 1))
      case MULTIPLY => Some((Good(Multiply), 1))
      case DIVIDE => Some((Good(Divide), 1))
      case NEGATE => Some((Good(Negate), 1))
      case RETURN => Some((Good(Return), 1))
      case UNKNOWN(b) => Some((BadOp([b]), 1))
  }

  /**
   * What the decoder consumed: a good result consumed exactly its own
   * encoding; a bad one consumed one byte, which is an unknown opcode or a
   * CONSTANT with no operand.
   */
  lemma DecodeConsumes(code: seq<byte>, pos: nat)
    requires pos < |code|
    ensures var (res, width) := NextInstrPoint(code, pos).value;
      && (res.Good? ==> Encode(res.instr) == code[pos..pos + width])
      && (res.BadOp? <==>
            FromPrimitive(code[pos]).UNKNOWN? || (code[pos] == 0 && pos + 1 == |code|))
      && (res.BadOp? ==> width == 1 && res.bytes == [code[pos]])
  {
  }

  /** Round trip: an encoded instruction decodes back to itself, consuming its whole encoding. */
  lemma {:induction false} DecodeEncode(pre: seq<byte>, i: Instr, post: seq<byte>)
    ensures NextInstrPoint(pre + Encode(i) + post, |pre|) == Some((Good(i), |Encode(i)|))
  {
    var code := pre + Encode(i) + post;
    assert code[|pre|] == Encode(i)[0];
    if i.Constant? {
      assert code[|pre| + 1] == i.idx;
    }
  }

  /** Decoding is injective on good results: the consumed bytes determine the instruction. */
  lemma GoodDecodeIsEncoding(code: seq<byte>, pos: nat, i: Instr, width: nat)
    requires NextInstrPoint(code, pos) == Some((Good(i), width))
    ensures code[pos..pos + width] == Encode(i) && width == |Encode(i)|
  {
  }
}
