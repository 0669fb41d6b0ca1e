/**
 * The stack machine of src/vm.rs. `Exec` is the run loop as a function of the
 * code, the constant pool, the instruction pointer and the stack; the class
 * `VM` holds those as fields and its `Run` method is proved to end in the
 * state `Exec` describes.
 *
 * vm.rs decodes with `chunk.read(ip)`, which chunk.rs does not define; here it
 * is the shared decoder applied to the code from `ip` on, and an `ip` past the
 * end panics as slicing there would. vm.rs also matches on six
 * instructions (Nil, True, False, Equal, Greater, Less) that the decoder has
 * no opcode for: `Op` holds them, and `Lift` shows the decoder never yields them.
 */
module VirtualMachine {
  import opened Wrappers
  import opened Instructions
  import Values
  import Chunks

  type Value = Values.Value

  datatype Op =
    | Constant(idx: byte)
    | Nil | True | False
    | Equal | Greater | Less
    | Add | Subtract | Multiply | Divide | Negate
    | Return

  /** The decoder's instruction as the machine sees it; the six literal and comparison ops have no encoding. */
  function Lift(i: Instr): (op: Op)
    ensures !(op.Nil? || op.True? || op.False? || op.Equal? || op.Greater? || op.Less?)
    ensures i.Constant? <==> op.Constant?
    ensures i.Constant? ==> op.idx == i.idx
  {
    match i
    case Constant(idx) => Op.Constant(idx)
    case Add => Op.Add
    case Subtract => Op.Subtract
    case Multiply => Op.Multiply
    case Divide => Op.Divide
    case Negate => Op.Negate
    case Return => Op.Return
  }

  /** `chunk.read(ip)`: the decoded op, or the raw bytes of a bad one, with its width. */
  function Read(code: seq<byte>, ip: nat): (r: Option<(Result<Op, seq<byte>>, nat)>)
    ensures r.None? <==> ip >= |code|
    ensures r.Some? ==> ip < ip + r.value.1 <= |code|
  {
    match NextInstrPoint(code, ip)
    case None => None
    case Some((Good(i), width)) => Some((Ok(Lift(i)), width))
    case Some((BadOp(bytes), width)) => Some((Err(bytes), width))
  }

  datatype InterpretError = CompileError | RuntimeError

  /** How a run ends: with the `InterpretResult` of vm.rs, or by a panic of the host process. */
  datatype Halt = Exit(result: Result<(), InterpretError>) | Panic

  /** The final state of a run, with the value `Return` printed as `RESULT:` if it ran. */
  datatype Halted = Halted(halt: Halt, printed: Option<Value>, ip: nat, stack: seq<Value>)

  /** One pass through the loop body: go on at the new state, or stop. */
  datatype StepResult = Continue(ip: nat, stack: seq<Value>) | Stop(halted: Halted)

  /** `stack_pop`: the top value and the rest, or Nil and the empty stack. */
  function Pop(stack: seq<Value>): (Value, seq<Value>) {
    if |stack| == 0 then (Values.Nil, []) else (stack[|stack| - 1], stack[..|stack| - 1])
  }

  /** An empty stack pops Nil and stays empty; any other pops its top and keeps the rest. */
  lemma PopTop(stack: seq<Value>)
    ensures var (v, rest) := Pop(stack);
      && (stack == [] ==> v == Values.Nil && rest == [])
      && (stack != [] ==> stack == rest + [v])
  {
    if stack != [] {
      var (v, rest) := Pop(stack);
      assert stack == stack[..|stack| - 1] + [stack[|stack| - 1]];
    }
  }

  /** A binary operation checked by the value layer: pop b, pop a, push `f(a, b)` or stop with RuntimeError. */
  function Binary(f: (Value, Value) -> Result<Value, ()>, ip: nat, stack: seq<Value>): StepResult {
    var (b, s1) := Pop(stack);
    var (a, s2) := Pop(s1);
    match f(a, b)
    case Ok(v) => Continue(ip, s2 + [v])
    case Err(_) => Stop(Halted(Exit(Err(RuntimeError)), None, ip, s2))
  }

  /** A comparison: pop b, pop a, push the boolean `f(a, b)`. */
  function Compare(f: (Value, Value) -> bool, ip: nat, stack: seq<Value>): StepResult {
    var (b, s1) := Pop(stack);
    var (a, s2) := Pop(s1);
    Continue(ip, s2 + [Values.Bool(f(a, b))])
  }

  /**
   * The effect of one op, after `ip` already moved past it. A constant index
   * outside the pool panics, as indexing the pool would.
   */
  function Execute(consts: seq<Value>, ops: Values.ValueOps, op: Op, ip: nat, stack: seq<Value>): (r: StepResult)
    ensures r.Continue? ==> r.ip == ip
    ensures r.Stop? ==> r.halted.ip == ip
  {
    match op
    case Constant(idx) =>
      if idx as int < |consts| then Continue(ip, stack + [consts[idx]])
      else Stop(Halted(Panic, None, ip, stack))
    case Nil => Continue(ip, stack + [Values.Nil])
    case True => Continue(ip, stack + [Values.Bool(true)])
    case False => Continue(ip, stack + [Values.Bool(false)])
    case Equal => Compare(ops.equal, ip, stack)
    case Greater => Compare(ops.greater, ip, stack)
    case Less => Compare(ops.less, ip, stack)
    case Add => Binary(ops.checkedAdd, ip, stack)
    case Subtract => Binary(ops.checkedSub, ip, stack)
    case Multiply => Binary(ops.checkedMul, ip, stack)
    case Divide => Binary(ops.checkedDiv, ip, stack)
    case Negate =>
      var (a, s1) := Pop(stack);
      (match ops.checkedNeg(a)
       case Ok(v) => Continue(ip, s1 + [v])
       case Err(_) => Stop(Halted(Exit(Err(RuntimeError)), None, ip, s1)))
    case Return =>
      var (v, s1) := Pop(stack);
      Stop(Halted(Exit(Ok(())), Some(v), ip, s1))
  }

  /**
   * One iteration of the run loop: decode at `ip`, stop with Ok when nothing
   * is left, advance `ip` by the width, then stop on a bad op or execute.
   * Reading slices the code at `ip`, so an `ip` past the end panics.
   * A step that goes on moves `ip` strictly forward and stays within the code.
   */
  function Step(code: seq<byte>, consts: seq<Value>, ops: Values.ValueOps, ip: nat, stack: seq<Value>): (r: StepResult)
    ensures r.Continue? ==> ip < r.ip <= |code|
    ensures r.Stop? && r.halted.halt == Exit(Ok(())) && r.halted.printed.None? ==> ip == r.halted.ip == |code|
  {
    if ip > |code| then Stop(Halted(Panic, None, ip, stack))
    else match Read(code, ip)
    case None => Stop(Halted(Exit(Ok(())), None, ip, stack))
    case Some((Err(_), width)) => Stop(Halted(Exit(Err(RuntimeError)), None, ip + width, stack))
    case Some((Ok(op), width)) => Execute(consts, ops, op, ip + width, stack)
  }

  /**
   * The whole run from `ip` with `stack`; it ends because `ip` strictly
   * increases. A run that ends with a plain Ok, nothing printed, ran off the
   * end of the code.
   */
  function Exec(code: seq<byte>, consts: seq<Value>, ops: Values.ValueOps, ip: nat, stack: seq<Value>): (h: Halted)
    ensures h.halt == Exit(Ok(())) && h.printed.None? ==> h.ip == |code|
    decreases |code| - ip
  {
    match Step(code, consts, ops, ip, stack)
    case Continue(ip', stack') => Exec(code, consts, ops, ip', stack')
    case Stop(h) => h
  }

  /** A run whose next step goes on is the run from the state that step reaches. */
  lemma ExecContinue(code: seq<byte>, consts: seq<Value>, ops: Values.ValueOps, ip: nat, stack: seq<Value>)
    requires Step(code, consts, ops, ip, stack).Continue?
    ensures var s := Step(code, consts, ops, ip, stack);
      Exec(code, consts, ops, ip, stack) == Exec(code, consts, ops, s.ip, s.stack)
  {
  }

  /** A run whose next step stops ends in the state that step stops in. */
  lemma ExecStop(code: seq<byte>, consts: seq<Value>, ops: Values.ValueOps, ip: nat, stack: seq<Value>)
    requires Step(code, consts, ops, ip, stack).Stop?
    ensures Exec(code, consts, ops, ip, stack) == Step(code, consts, ops, ip, stack).halted
  {
  }

  /** The offsets at which a run decodes an instruction, in order. */
  function Trace(code: seq<byte>, consts: seq<Value>, ops: Values.ValueOps, ip: nat, stack: seq<Value>): seq<nat>
    decreases |code| - ip
  {
    if ip >= |code| then []
    else
      match Step(code, consts, ops, ip, stack)
      case Continue(ip', stack') => [ip] + Trace(code, consts, ops, ip', stack')
      case Stop(_) => [ip]
  }

  /** The offsets of a listing. */
  function Offsets(l: seq<(InstrResult, nat)>): (r: seq<nat>)
    ensures |r| == |l| && forall k :: 0 <= k < |l| ==> r[k] == l[k].1
  {
    if |l| == 0 then [] else [l[0].1] + Offsets(l[1..])
  }

  /**
   * The machine and the disassembler agree on instruction boundaries: the
   * offsets a run decodes at are a prefix of the offsets the disassembler lists.
   */
  lemma {:induction false} TraceFollowsListing(code: seq<byte>, consts: seq<Value>, ops: Values.ValueOps, ip: nat, stack: seq<Value>)
    requires ip <= |code|
    ensures var t := Trace(code, consts, ops, ip, stack);
      t <= Offsets(Chunks.Listing(code, ip))
    decreases |code| - ip
  {
    if ip < |code| {
      var (res, width) := NextInstrPoint(code, ip).value;
      assert Chunks.Listing(code, ip) == [(res, ip)] + Chunks.Listing(code, ip + width);
      match Step(code, consts, ops, ip, stack)
      case Continue(ip', stack') =>
        assert ip' == ip + width;
        TraceFollowsListing(code, consts, ops, ip', stack');
      case Stop(_) =>
    }
  }

  /** The values a list of Constant ops pushes. */
  function Pushed(consts: seq<Value>, idxs: seq<byte>): (r: seq<Value>)
    requires forall k :: 0 <= k < |idxs| ==> idxs[k] as int < |consts|
    ensures |r| == |idxs|
  {
    if |idxs| == 0 then [] else [consts[idxs[0]]] + Pushed(consts, idxs[1..])
  }

  /** The k-th value pushed is the constant the k-th index names. */
  lemma {:induction false} PushedValues(consts: seq<Value>, idxs: seq<byte>)
    requires forall k :: 0 <= k < |idxs| ==> idxs[k] as int < |consts|
    ensures forall k :: 0 <= k < |idxs| ==> Pushed(consts, idxs)[k] == consts[idxs[k]]
    decreases |idxs|
  {
    if idxs != [] {
      PushedValues(consts, idxs[1..]);
    }
  }

  function Constants(idxs: seq<byte>): (r: seq<Instr>)
    ensures |r| == |idxs| && forall k :: 0 <= k < |idxs| ==> r[k] == Instructions.Constant(idxs[k])
  {
    if |idxs| == 0 then [] else [Instructions.Constant(idxs[0])] + Constants(idxs[1..])
  }

  /** A Constant whose index is in the pool pushes that constant and goes on. */
  lemma StepConstant(code: seq<byte>, consts: seq<Value>, ops: Values.ValueOps, ip: nat, stack: seq<Value>)
    requires ip + 1 < |code| && code[ip] == 0 && code[ip + 1] as int < |consts|
    ensures Exec(code, consts, ops, ip, stack) == Exec(code, consts, ops, ip + 2, stack + [consts[code[ip + 1]]])
  {
    assert NextInstrPoint(code, ip) == Some((Good(Instructions.Constant(code[ip + 1])), 2));
    assert Step(code, consts, ops, ip, stack) == Continue(ip + 2, stack + [consts[code[ip + 1]]]);
  }

  /** The code holds, from `pos` on, one Constant instruction per index of `idxs`, each inside the pool. */
  ghost predicate ConstantsAt(code: seq<byte>, pos: nat, idxs: seq<byte>, consts: seq<Value>)
    decreases |idxs|
  {
    if |idxs| == 0 then pos <= |code|
    else
      && pos + 1 < |code| && code[pos] == 0 && code[pos + 1] == idxs[0] && idxs[0] as int < |consts|
      && ConstantsAt(code, pos + 2, idxs[1..], consts)
  }

  /** Byte by byte, the layout `ConstantsAt` describes. */
  lemma {:induction false} ConstantsAtFromBytes(code: seq<byte>, pos: nat, idxs: seq<byte>, consts: seq<Value>)
    requires pos + 2 * |idxs| <= |code|
    requires forall k :: 0 <= k < |idxs| ==>
      code[pos + 2 * k] == 0 && code[pos + 2 * k + 1] == idxs[k] && idxs[k] as int < |consts|
    ensures ConstantsAt(code, pos, idxs, consts)
    decreases |idxs|
  {
    if |idxs| > 0 {
      var tail := idxs[1..];
      assert code[pos + 2 * 0] == 0;
      forall k | 0 <= k < |tail|
        ensures code[pos + 2 + 2 * k] == 0 && code[pos + 2 + 2 * k + 1] == tail[k] && tail[k] as int < |consts|
      {
        assert pos + 2 + 2 * k == pos + 2 * (k + 1);
      }
      ConstantsAtFromBytes(code, pos + 2, tail, consts);
    }
  }

  /**
   * Running over a sequence of Constant instructions whose indices are in the
   * pool pushes their values in order and goes on right after them.
   */
  lemma {:induction false} PushesRun(code: seq<byte>, pos: nat, idxs: seq<byte>, consts: seq<Value>, ops: Values.ValueOps,
                                     stack: seq<Value>, end: nat, final: seq<Value>)
    requires ConstantsAt(code, pos, idxs, consts)
    requires forall k :: 0 <= k < |idxs| ==> idxs[k] as int < |consts|
    requires end == pos + 2 * |idxs| && final == stack + Pushed(consts, idxs)
    ensures Exec(code, consts, ops, pos, stack) == Exec(code, consts, ops, end, final)
    decreases |idxs|
  {
    if |idxs| > 0 {
      var top := stack + [consts[idxs[0]]];
      StepConstant(code, consts, ops, pos, stack);
      PushedFirst(consts, idxs, stack);
      PushesRun(code, pos + 2, idxs[1..], consts, ops, top, end, final);
    } else {
      assert final == stack by {
        assert |Pushed(consts, idxs)| == 0;
      }
    }
  }

  lemma PushedFirst(consts: seq<Value>, idxs: seq<byte>, stack: seq<Value>)
    requires idxs != []
    requires forall k :: 0 <= k < |idxs| ==> idxs[k] as int < |consts|
    ensures stack + [consts[idxs[0]]] + Pushed(consts, idxs[1..]) == stack + Pushed(consts, idxs)
  {
    assert Pushed(consts, idxs) == [consts[idxs[0]]] + Pushed(consts, idxs[1..]);
  }

  /** The encoding of constant pushes: opcode 0 then the index, for each index in turn. */
  lemma {:induction false} EncodeConstants(idxs: seq<byte>)
    ensures var bs := EncodeAll(Constants(idxs));
      && |bs| == 2 * |idxs|
      && forall k :: 0 <= k < |idxs| ==> bs[2 * k] == 0 && bs[2 * k + 1] == idxs[k]
    decreases |idxs|
  {
    if idxs != [] {
      assert Constants(idxs)[1..] == Constants(idxs[1..]);
      EncodeConstants(idxs[1..]);
      var bs := EncodeAll(Constants(idxs));
      var rest := EncodeAll(Constants(idxs[1..]));
      assert bs == [0, idxs[0]] + rest;
      forall k | 0 <= k < |idxs|
        ensures bs[2 * k] == 0 && bs[2 * k + 1] == idxs[k]
      {
        if k > 0 {
          assert bs[2 * k] == rest[2 * (k - 1)];
          assert bs[2 * k + 1] == rest[2 * (k - 1) + 1];
        }
      }
    }
  }

  /** Return pops one value (Nil on an empty stack), prints it and ends the run with Ok. */
  lemma ExecReturn(code: seq<byte>, consts: seq<Value>, ops: Values.ValueOps, ip: nat, stack: seq<Value>)
    requires ip < |code| && code[ip] == 6
    ensures Exec(code, consts, ops, ip, stack) ==
      Halted(Exit(Ok(())), Some(Pop(stack).0), ip + 1, Pop(stack).1)
  {
    assert NextInstrPoint(code, ip) == Some((Good(Instructions.Return), 1));
  }

  /** Puts the encoding of constant pushes at the start of a longer code. */
  lemma ConstantsAtStart(idxs: seq<byte>, post: seq<byte>, consts: seq<Value>)
    requires forall k :: 0 <= k < |idxs| ==> idxs[k] as int < |consts|
    ensures |EncodeAll(Constants(idxs))| == 2 * |idxs|
    ensures ConstantsAt(EncodeAll(Constants(idxs)) + post, 0, idxs, consts)
  {
    EncodeConstants(idxs);
    var mid := EncodeAll(Constants(idxs));
    var code := mid + post;
    forall k | 0 <= k < |idxs|
      ensures code[0 + 2 * k] == 0 && code[0 + 2 * k + 1] == idxs[k]
    {
      assert code[2 * k] == mid[2 * k] && code[2 * k + 1] == mid[2 * k + 1];
    }
    ConstantsAtFromBytes(code, 0, idxs, consts);
  }

  /**
   * A chunk of constant pushes followed by Return ends Ok, printing the last
   * value pushed and leaving the values before it on the stack.
   */
  lemma PushesThenReturn(idxs: seq<byte>, post: seq<byte>, consts: seq<Value>, ops: Values.ValueOps)
    requires |idxs| > 0
    requires forall k :: 0 <= k < |idxs| ==> idxs[k] as int < |consts|
    ensures var code := EncodeAll(Constants(idxs)) + [6] + post;
      var values := Pushed(consts, idxs);
      Exec(code, consts, ops, 0, []) ==
        Halted(Exit(Ok(())), Some(consts[idxs[|idxs| - 1]]), 2 * |idxs| + 1, values[..|values| - 1])
  {
    var mid := EncodeAll(Constants(idxs));
    var code := mid + [6] + post;
    assert code == mid + ([6] + post);
    ConstantsAtStart(idxs, [6] + post, consts);
    PushesRun(code, 0, idxs, consts, ops, [], 2 * |idxs|, [] + Pushed(consts, idxs));
    assert [] + Pushed(consts, idxs) == Pushed(consts, idxs);
    ExecReturn(code, consts, ops, 2 * |idxs|, Pushed(consts, idxs));
    PushedValues(consts, idxs);
  }

  /** A chunk of constant pushes and nothing else ends Ok at the end of the code, printing nothing. */
  lemma PushesWithoutReturn(idxs: seq<byte>, consts: seq<Value>, ops: Values.ValueOps, stack: seq<Value>)
    requires forall k :: 0 <= k < |idxs| ==> idxs[k] as int < |consts|
    ensures var code := EncodeAll(Constants(idxs));
      Exec(code, consts, ops, 0, stack) == Halted(Exit(Ok(())), None, |code|, stack + Pushed(consts, idxs))
  {
    var code := EncodeAll(Constants(idxs));
    assert code == code + [];
    ConstantsAtStart(idxs, [], consts);
    PushesRun(code, 0, idxs, consts, ops, stack, |code|, stack + Pushed(consts, idxs));
  }

  /** A chunk of constant pushes cut off inside a final CONSTANT halts with RuntimeError. */
  lemma TruncatedConstantFails(idxs: seq<byte>, consts: seq<Value>, ops: Values.ValueOps)
    requires forall k :: 0 <= k < |idxs| ==> idxs[k] as int < |consts|
    ensures var code := EncodeAll(Constants(idxs)) + [0];
      Exec(code, consts, ops, 0, []).halt == Exit(Err(RuntimeError))
  {
    var code := EncodeAll(Constants(idxs)) + [0];
    ConstantsAtStart(idxs, [0], consts);
    PushesRun(code, 0, idxs, consts, ops, [], 2 * |idxs|, [] + Pushed(consts, idxs));
    assert NextInstrPoint(code, 2 * |idxs|) == Some((BadOp([0]), 1));
  }

  /** Comparisons take the right operand from the top: `a` under `b` becomes the one value `Bool(f(a, b))`. */
  lemma CompareOperands(f: (Value, Value) -> bool, ip: nat, s: seq<Value>, a: Value, b: Value)
    ensures Compare(f, ip, s + [a, b]) == Continue(ip, s + [Values.Bool(f(a, b))])
  {
    assert (s + [a, b])[..|s| + 1] == s + [a];
    assert (s + [a])[..|s|] == s;
  }

  /** On a stack too short for two operands, comparisons read each missing operand as Nil. */
  lemma CompareUnderflow(f: (Value, Value) -> bool, ip: nat, b: Value)
    ensures Compare(f, ip, [b]) == Continue(ip, [Values.Bool(f(Values.Nil, b))])
    ensures Compare(f, ip, []) == Continue(ip, [Values.Bool(f(Values.Nil, Values.Nil))])
  {
    assert [b][..0] == [];
  }

  /** At the end of the code the run stops at once with a plain Ok, printing nothing. */
  lemma EndIsOk(code: seq<byte>, consts: seq<Value>, ops: Values.ValueOps, stack: seq<Value>)
    ensures Exec(code, consts, ops, |code|, stack) == Halted(Exit(Ok(())), None, |code|, stack)
  {
    assert Read(code, |code|).None?;
  }

  /** An `ip` past the end of the code, as a run resumed on a shorter chunk can have, panics at once. */
  lemma PastEndPanics(code: seq<byte>, consts: seq<Value>, ops: Values.ValueOps, ip: nat, stack: seq<Value>)
    requires ip > |code|
    ensures Exec(code, consts, ops, ip, stack) == Halted(Panic, None, ip, stack)
  {
  }

  /** Binary ops take the right operand from the top: `a` under `b` becomes the one value `f(a, b)`. */
  lemma BinaryOperands(f: (Value, Value) -> Result<Value, ()>, ip: nat, s: seq<Value>, a: Value, b: Value)
    ensures Binary(f, ip, s + [a, b]) ==
      match f(a, b)
      case Ok(v) => Continue(ip, s + [v])
      case Err(_) => Stop(Halted(Exit(Err(RuntimeError)), None, ip, s))
  {
    assert (s + [a, b])[..|s| + 1] == s + [a];
    assert (s + [a])[..|s|] == s;
  }

  /** On a stack too short for two operands, `stack_pop` supplies Nil for each missing one. */
  lemma BinaryUnderflow(f: (Value, Value) -> Result<Value, ()>, ip: nat, b: Value)
    ensures Binary(f, ip, [b]) ==
      match f(Values.Nil, b)
      case Ok(v) => Continue(ip, [v])
      case Err(_) => Stop(Halted(Exit(Err(RuntimeError)), None, ip, []))
    ensures Binary(f, ip, []) ==
      match f(Values.Nil, Values.Nil)
      case Ok(v) => Continue(ip, [v])
      case Err(_) => Stop(Halted(Exit(Err(RuntimeError)), None, ip, []))
  {
    assert [b][..0] == [];
  }

  /** The checked operation behind opcodes 1 to 4. */
  function Arithmetic(ops: Values.ValueOps, opcode: byte): (Value, Value) -> Result<Value, ()>
    requires 1 <= opcode <= 4
  {
    if opcode == 1 then ops.checkedAdd
    else if opcode == 2 then ops.checkedSub
    else if opcode == 3 then ops.checkedMul
    else ops.checkedDiv
  }

  /**
   * ADD, SUBTRACT, MULTIPLY and DIVIDE move `ip` past their one byte, then
   * replace the two top values by the checked result, or stop with
   * RuntimeError when the check fails.
   */
  lemma StepArithmetic(code: seq<byte>, consts: seq<Value>, ops: Values.ValueOps, ip: nat, s: seq<Value>, a: Value, b: Value)
    requires ip < |code| && 1 <= code[ip] <= 4
    ensures Step(code, consts, ops, ip, s + [a, b]) ==
      match Arithmetic(ops, code[ip])(a, b)
      case Ok(v) => Continue(ip + 1, s + [v])
      case Err(_) => Stop(Halted(Exit(Err(RuntimeError)), None, ip + 1, s))
  {
    assert NextInstrPoint(code, ip).value.1 == 1;
    BinaryOperands(Arithmetic(ops, code[ip]), ip + 1, s, a, b);
  }

  /** NEGATE replaces the top value by its checked negation, or stops with RuntimeError. */
  lemma StepNegate(code: seq<byte>, consts: seq<Value>, ops: Values.ValueOps, ip: nat, s: seq<Value>, a: Value)
    requires ip < |code| && code[ip] == 5
    ensures Step(code, consts, ops, ip, s + [a]) ==
      match ops.checkedNeg(a)
      case Ok(v) => Continue(ip + 1, s + [v])
      case Err(_) => Stop(Halted(Exit(Err(RuntimeError)), None, ip + 1, s))
  {
    assert NextInstrPoint(code, ip) == Some((Good(Instructions.Negate), 1));
    assert (s + [a])[..|s|] == s;
  }

  /** NEGATE on an empty stack negates the Nil that `stack_pop` supplies. */
  lemma NegateUnderflow(code: seq<byte>, consts: seq<Value>, ops: Values.ValueOps, ip: nat)
    requires ip < |code| && code[ip] == 5
    ensures Step(code, consts, ops, ip, []) ==
      match ops.checkedNeg(Values.Nil)
      case Ok(v) => Continue(ip + 1, [v])
      case Err(_) => Stop(Halted(Exit(Err(RuntimeError)), None, ip + 1, []))
  {
    assert NextInstrPoint(code, ip) == Some((Good(Instructions.Negate), 1));
  }

  /** A bad op (an unknown byte, or CONSTANT as the last byte) ends the run with RuntimeError just past it. */
  lemma BadOpFails(code: seq<byte>, consts: seq<Value>, ops: Values.ValueOps, ip: nat, stack: seq<Value>)
    requires ip < |code|
    requires code[ip] > 6 || (code[ip] == 0 && ip + 1 == |code|)
    ensures Exec(code, consts, ops, ip, stack) == Halted(Exit(Err(RuntimeError)), None, ip + 1, stack)
  {
    assert NextInstrPoint(code, ip).value == (BadOp([code[ip]]), 1);
  }

  /** A CONSTANT whose index lies outside the pool panics, as indexing the pool would. */
  lemma ConstantOutsidePoolPanics(code: seq<byte>, consts: seq<Value>, ops: Values.ValueOps, ip: nat, stack: seq<Value>)
    requires ip + 1 < |code| && code[ip] == 0 && code[ip + 1] as int >= |consts|
    ensures Exec(code, consts, ops, ip, stack) == Halted(Panic, None, ip + 2, stack)
  {
    assert NextInstrPoint(code, ip) == Some((Good(Instructions.Constant(code[ip + 1])), 2));
  }

  class VM {
    var chunk: Chunks.Chunk
    var ip: nat
    var stack: seq<Value>

    /** `VM::new`: owns the chunk, starts at offset 0 with an empty stack. */
    constructor (chunk: Chunks.Chunk)
      ensures this.chunk == chunk && ip == 0 && stack == []
    {
      this.chunk := chunk;
      ip := 0;
      stack := [];
    }

    /** `stack_push`. */
    method StackPush(v: Value)
      modifies this
      ensures stack == old(stack) + [v]
      ensures chunk == old(chunk) && ip == old(ip)
    {
      stack := stack + [v];
    }

    /** `stack_pop`: the top value, or Nil when the stack is empty. */
    method StackPop() returns (v: Value)
      modifies this
      ensures (v, stack) == Pop(old(stack))
      ensures chunk == old(chunk) && ip == old(ip)
    {
      if |stack| == 0 {
        v := Values.Nil;
      } else {
        v := stack[|stack| - 1];
        stack := stack[..|stack| - 1];
      }
    }

    /** Pops b then a and pushes `f(a, b)`; reports whether the checked op failed. */
    method BinaryOp(f: (Value, Value) -> Result<Value, ()>) returns (failed: bool)
      modifies this
      ensures chunk == old(chunk) && ip == old(ip)
      ensures Binary(f, ip, old(stack)) ==
        if failed then Stop(Halted(Exit(Err(RuntimeError)), None, ip, stack)) else Continue(ip, stack)
    {
      var b := StackPop();
      var a := StackPop();
      match f(a, b) {
        case Ok(v) =>
          StackPush(v);
          failed := false;
        case Err(_) =>
          failed := true;
      }
    }

    /** Pops b then a and pushes the boolean `f(a, b)`. */
    method CompareOp(f: (Value, Value) -> bool)
      modifies this
      ensures chunk == old(chunk) && ip == old(ip)
      ensures Compare(f, ip, old(stack)) == Continue(ip, stack)
    {
      var b := StackPop();
      var a := StackPop();
      StackPush(Values.Bool(f(a, b)));
    }

    /** The body of the `match instr` in `run`: applies `op` to the stack. */
    method ExecuteOp(op: Op, ops: Values.ValueOps) returns (stop: Option<(Halt, Option<Value>)>)
      modifies this
      ensures chunk == old(chunk) && ip == old(ip)
      ensures Execute(chunk.consts, ops, op, ip, old(stack)) ==
        if stop.None? then Continue(ip, stack) else Stop(Halted(stop.value.0, stop.value.1, ip, stack))
    {
      match op {
        case Constant(idx) =>
          if idx as int >= |chunk.consts| {
            return Some((Panic, None));
          }
          StackPush(chunk.consts[idx]);
        case Nil =>
          StackPush(Values.Nil);
        case True =>
          StackPush(Values.Bool(true));
        case False =>
          StackPush(Values.Bool(false));
        case Equal =>
          CompareOp(ops.equal);
        case Greater =>
          CompareOp(ops.greater);
        case Less =>
          CompareOp(ops.less);
        case Add =>
          var failed := BinaryOp(ops.checkedAdd);
          if failed { return Some((Exit(Err(RuntimeError)), None)); }
        case Subtract =>
          var failed := BinaryOp(ops.checkedSub);
          if failed { return Some((Exit(Err(RuntimeError)), None)); }
        case Multiply =>
          var failed := BinaryOp(ops.checkedMul);
          if failed { return Some((Exit(Err(RuntimeError)), None)); }
        case Divide =>
          var failed := BinaryOp(ops.checkedDiv);
          if failed { return Some((Exit(Err(RuntimeError)), None)); }
        case Negate =>
          var a := StackPop();
          match ops.checkedNeg(a) {
            case Ok(v) =>
              StackPush(v);
            case Err(_) =>
              return Some((Exit(Err(RuntimeError)), None));
          }
        case Return =>
          var v := StackPop();
          return Some((Exit(Ok(())), Some(v)));
      }
      return None;
    }

    /**
     * One pass through the body of the `run` loop: decode at `ip`, stop with
     * Ok when nothing is left, advance `ip` past the instruction, then execute
     * it or stop on a bad op. An `ip` past the end panics when the code is sliced.
     */
    method StepOp(ops: Values.ValueOps) returns (stop: Option<(Halt, Option<Value>)>)
      modifies this
      ensures chunk == old(chunk)
      ensures Step(chunk.code, chunk.consts, ops, old(ip), old(stack)) ==
        if stop.None? then Continue(ip, stack) else Stop(Halted(stop.value.0, stop.value.1, ip, stack))
    {
      if ip > |chunk.code| {
        return Some((Panic, None));
      }
      var res := Read(chunk.code, ip);
      if res.None? {
        return Some((Exit(Ok(())), None));
      }
      var (ires, len) := res.value;
      ip := ip + len;
      match ires {
        case Ok(op) =>
          stop := ExecuteOp(op, ops);
        case Err(_) =>
          stop := Some((Exit(Err(RuntimeError)), None));
      }
    }

    /**
     * `run`: repeats the loop body until it stops, and ends in the state
     * `Exec` gives for the starting `ip` and stack.
     */
    method Run(ops: Values.ValueOps) returns (halt: Halt, printed: Option<Value>)
      modifies this
      ensures chunk == old(chunk)
      ensures Exec(chunk.code, chunk.consts, ops, old(ip), old(stack)) == Halted(halt, printed, ip, stack)
    {
      ghost var final := Exec(chunk.code, chunk.consts, ops, ip, stack);
      while true
        invariant chunk == old(chunk)
        invariant Exec(chunk.code, chunk.consts, ops, ip, stack) == final
        decreases |chunk.code| - ip
      {
        ghost var ip0, stack0 := ip, stack;
        var stop := StepOp(ops);
        if stop.Some? {
          ExecStop(chunk.code, chunk.consts, ops, ip0, stack0);
          return stop.value.0, stop.value.1;
        }
        ExecContinue(chunk.code, chunk.consts, ops, ip0, stack0);
      }
    }

    /**
     * `interpret`: with no chunk from the compiler, CompileError and nothing
     * changes; otherwise the chunk replaces the current one and runs from the
     * current `ip` and stack, which are not reset.
     */
    method Interpret(compiled: Option<Chunks.Chunk>, ops: Values.ValueOps) returns (halt: Halt, printed: Option<Value>)
      modifies this
      ensures compiled.None? ==>
        halt == Exit(Err(CompileError)) && printed.None?
        && chunk == old(chunk) && ip == old(ip) && stack == old(stack)
      ensures compiled.Some? ==>
        && chunk == compiled.value
        && Exec(chunk.code, chunk.consts, ops, old(ip), old(stack)) == Halted(halt, printed, ip, stack)
    {
      if compiled.Some? {
        chunk := compiled.value;
        halt, printed := Run(ops);
      } else {
        halt, printed := Exit(Err(CompileError)), None;
      }
    }
  }
}
