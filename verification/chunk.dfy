/**
 * A chunk of bytecode (src/chunk.rs): an append-only byte stream, a constant
 * pool indexed by one byte, and a line table `lineBegins` whose entry L is the
 * offset of the first byte written on line L. `CodeIterator` walks the code
 * with the shared decoder; `DisasmAll` pairs every decoded instruction with
 * its offset and the line label it is printed with.
 */
module Chunks {
  import opened Wrappers
  import opened Instructions
  import opened Values

  /** `usize::MAX` on a 64-bit target. */
  const USIZE_MAX: nat := 0xFFFF_FFFF_FFFF_FFFF

  /** The constant pool is indexed by one byte. */
  const MAX_CONSTS: nat := 256

  const POOL_FULL: string := "const pool size should not exceed 256"

  ghost predicate Sorted(s: seq<nat>) {
    forall i, j :: 0 <= i < j < |s| ==> s[i] <= s[j]
  }

  /**
   * The line table invariant: it starts at offset 0, never decreases, never
   * points past the code, and its length is a usize.
   */
  ghost predicate LineTable(lineBegins: seq<nat>, codeLen: nat) {
    && 1 <= |lineBegins| <= USIZE_MAX
    && lineBegins[0] == 0
    && Sorted(lineBegins)
    && forall i :: 0 <= i < |lineBegins| ==> lineBegins[i] <= codeLen
  }

  /** Binary search for the partition point of `b <= x` between `lo` and `hi`. */
  function Search(s: seq<nat>, x: nat, lo: nat, hi: nat): (p: nat)
    requires Sorted(s) && lo <= hi <= |s|
    requires forall k :: 0 <= k < lo ==> s[k] <= x
    requires forall k :: hi <= k < |s| ==> x < s[k]
    ensures lo <= p <= hi
    ensures forall k :: 0 <= k < p ==> s[k] <= x
    ensures forall k :: p <= k < |s| ==> x < s[k]
    decreases hi - lo
  {
    if lo == hi then lo
    else
      var mid := (lo + hi) / 2;
      if s[mid] <= x then Search(s, x, mid + 1, hi) else Search(s, x, lo, mid)
  }

  /** `partition_point(|&b| b <= x)` on a sorted slice: the number of leading entries <= x. */
  function PartitionPoint(s: seq<nat>, x: nat): (p: nat)
    requires Sorted(s)
    ensures p <= |s|
    ensures forall k :: 0 <= k < p ==> s[k] <= x
    ensures forall k :: p <= k < |s| ==> x < s[k]
  {
    Search(s, x, 0, |s|)
  }

  /**
   * The line lookup of `disasm_all`: `partition_point(..).wrapping_sub(1)`.
   * On a line table it never wraps and gives the greatest line whose begin
   * offset is at most `offset`.
   */
  function LineNo(lineBegins: seq<nat>, offset: nat): (line: nat)
    requires Sorted(lineBegins)
    ensures |lineBegins| > 0 && lineBegins[0] <= offset ==>
      && line < |lineBegins|
      && lineBegins[line] <= offset
      && forall k :: line < k < |lineBegins| ==> offset < lineBegins[k]
    ensures !(|lineBegins| > 0 && lineBegins[0] <= offset) ==> line == USIZE_MAX
  {
    var p := PartitionPoint(lineBegins, offset);
    if p == 0 then USIZE_MAX else p - 1
  }

  /**
   * On the table `WriteExample` builds (five bytes on line 123, then two on
   * line 125), offsets 0 to 4 belong to line 123 and offsets 5 and 6 to line
   * 125; the skipped lines, 0 to 122 and 124, are never reported.
   */
  lemma LineExample()
    ensures var lb := seq(124, _ => 0) + [5, 5];
      && LineNo(lb, 0) == 123 && LineNo(lb, 4) == 123
      && LineNo(lb, 5) == 125 && LineNo(lb, 6) == 125
      && forall off: nat :: LineNo(lb, off) == 123 || LineNo(lb, off) == 125
  {
    var lb: seq<nat> := seq(124, _ => 0) + [5, 5];
    assert lb[123] == 0 && lb[124] == 5 && lb[125] == 5;
  }

  /** What a `CodeIterator` yields from `pos` on: each decoded result with the offset it starts at. */
  function Listing(code: seq<byte>, pos: nat): seq<(InstrResult, nat)>
    decreases |code| - pos
  {
    match NextInstrPoint(code, pos)
    case None => []
    case Some((res, width)) => [(res, pos)] + Listing(code, pos + width)
  }

  /** Where entry `k` of a listing ends: at the next entry's offset, or at the end of the code. */
  function EndOf(code: seq<byte>, l: seq<(InstrResult, nat)>, k: nat): nat {
    if k + 1 < |l| then l[k + 1].1 else |code|
  }

  /** A listing is empty exactly at the end of the code, and otherwise starts at `pos`. */
  lemma ListingStart(code: seq<byte>, pos: nat)
    requires pos <= |code|
    ensures var l := Listing(code, pos);
      && (|l| == 0 <==> pos == |code|)
      && (|l| > 0 ==> l[0].1 == pos)
  {
  }

  /**
   * The offsets of a listing tile the code: each entry is exactly the
   * decoder's result at its offset and reaches to the next entry's offset
   * (so offsets strictly increase), and the last entry ends at the end of the code.
   */
  lemma {:induction false} ListingTiles(code: seq<byte>, pos: nat, k: nat)
    requires pos <= |code|
    requires k < |Listing(code, pos)|
    ensures var l := Listing(code, pos);
      && pos <= l[k].1 < EndOf(code, l, k) <= |code|
      && NextInstrPoint(code, l[k].1) == Some((l[k].0, EndOf(code, l, k) - l[k].1))
    decreases k
  {
    var (res, width) := NextInstrPoint(code, pos).value;
    var l := Listing(code, pos);
    var rest := Listing(code, pos + width);
    assert l == [(res, pos)] + rest;
    ListingStart(code, pos + width);
    if k > 0 {
      ListingTiles(code, pos + width, k - 1);
      assert l[k] == rest[k - 1];
      assert EndOf(code, l, k) == EndOf(code, rest, k - 1);
    }
  }

  /**
   * Decoding a stream of encoded instructions yields exactly those
   * instructions, each at the offset where its encoding starts.
   */
  lemma {:induction false} ListingOfEncoding(pre: seq<byte>, instrs: seq<Instr>)
    ensures var l := Listing(pre + EncodeAll(instrs), |pre|);
      && |l| == |instrs|
      && forall k :: 0 <= k < |instrs| ==>
           l[k] == (Good(instrs[k]), |pre| + |EncodeAll(instrs[..k])|)
    decreases |instrs|
  {
    var code := pre + EncodeAll(instrs);
    if |instrs| == 0 {
      assert code == pre;
    } else {
      var i, rest := instrs[0], instrs[1..];
      var pre' := pre + Encode(i);
      assert code == pre + Encode(i) + EncodeAll(rest);
      assert code == pre' + EncodeAll(rest);
      DecodeEncode(pre, i, EncodeAll(rest));
      ListingOfEncoding(pre', rest);
      var l := Listing(code, |pre|);
      var l' := Listing(code, |pre'|);
      assert l == [(Good(i), |pre|)] + l';
      forall k | 0 <= k < |instrs|
        ensures l[k] == (Good(instrs[k]), |pre| + |EncodeAll(instrs[..k])|)
      {
        if k == 0 {
          assert instrs[..0] == [];
        } else {
          assert instrs[..k][0] == i && instrs[..k][1..] == rest[..k - 1];
          assert EncodeAll(instrs[..k]) == Encode(i) + EncodeAll(rest[..k - 1]);
        }
      }
    }
  }

  /** How a line is shown in a disassembly row: a line number, or `   |` when unchanged. */
  datatype LineLabel = Continued | Line(no: nat)

  /** One printed row of `disasm_all`, before formatting. */
  datatype Row = Row(offset: nat, lineLabel: LineLabel, res: InstrResult)

  /** The line label of row `k`: continued when its line equals the previous row's line. */
  ghost predicate LabelledAt(lineBegins: seq<nat>, rows: seq<Row>, k: nat)
    requires Sorted(lineBegins) && k < |rows|
  {
    rows[k].lineLabel ==
      if k > 0 && LineNo(lineBegins, rows[k - 1].offset) == LineNo(lineBegins, rows[k].offset)
      then Continued
      else Line(LineNo(lineBegins, rows[k].offset))
  }

  /** The label of a row at `offset`, after a row at `prev` if there is one. */
  function Label(lineBegins: seq<nat>, prev: Option<nat>, offset: nat): LineLabel
    requires Sorted(lineBegins)
  {
    var lineNo := LineNo(lineBegins, offset);
    if prev.Some? && LineNo(lineBegins, prev.value) == lineNo then Continued else Line(lineNo)
  }

  /** The rows `disasm_all` prints for a listing, built one entry at a time. */
  function Rows(lineBegins: seq<nat>, l: seq<(InstrResult, nat)>): (rows: seq<Row>)
    requires Sorted(lineBegins)
    ensures |rows| == |l|
    decreases |l|
  {
    if |l| == 0 then []
    else
      var init := l[..|l| - 1];
      var prev := if |init| == 0 then None else Some(init[|init| - 1].1);
      Rows(lineBegins, init) + [Row(l[|l| - 1].1, Label(lineBegins, prev, l[|l| - 1].1), l[|l| - 1].0)]
  }

  /**
   * The rows of a listing: one per entry, in order, with its offset and
   * result, and each labelled against the row before it.
   */
  lemma {:induction false} RowsLabelled(lineBegins: seq<nat>, l: seq<(InstrResult, nat)>)
    requires Sorted(lineBegins)
    ensures var rows := Rows(lineBegins, l);
      && (forall k :: 0 <= k < |l| ==> rows[k].offset == l[k].1 && rows[k].res == l[k].0)
      && forall k :: 0 <= k < |l| ==> LabelledAt(lineBegins, rows, k)
    decreases |l|
  {
    if |l| > 0 {
      var init := l[..|l| - 1];
      var rows := Rows(lineBegins, l);
      var front := Rows(lineBegins, init);
      RowsLabelled(lineBegins, init);
      assert rows[..|init|] == front;
      forall k | 0 <= k < |l|
        ensures rows[k].offset == l[k].1 && rows[k].res == l[k].0 && LabelledAt(lineBegins, rows, k)
      {
        if k < |init| {
          assert rows[k] == front[k] && l[k] == init[k];
          assert LabelledAt(lineBegins, front, k);
          if k > 0 {
            assert rows[k - 1] == front[k - 1];
          }
        } else if k > 0 {
          assert rows[k - 1] == front[k - 1] && init[k - 1] == l[k - 1];
        }
      }
    }
  }

  /** Rows of a listing extended by one entry: the rows so far and one more. */
  lemma RowsSnoc(lineBegins: seq<nat>, l: seq<(InstrResult, nat)>, x: (InstrResult, nat))
    requires Sorted(lineBegins)
    ensures var prev := if |l| == 0 then None else Some(l[|l| - 1].1);
      Rows(lineBegins, l + [x]) == Rows(lineBegins, l) + [Row(x.1, Label(lineBegins, prev, x.1), x.0)]
  {
    assert (l + [x])[..|l|] == l;
  }

  /**
   * Whether `disasm_all` can print a decoded result: printing a Constant looks
   * its index up in the pool and unwraps the lookup, so the index must lie in it.
   */
  predicate Printable(consts: seq<Value>, res: InstrResult) {
    res.Good? && res.instr.Constant? ==> res.instr.idx as int < |consts|
  }

  /** The entries of a listing printed before the first one that cannot be. */
  function Shown(consts: seq<Value>, l: seq<(InstrResult, nat)>): seq<(InstrResult, nat)>
    decreases |l|
  {
    if |l| == 0 || !Printable(consts, l[0].0) then [] else [l[0]] + Shown(consts, l[1..])
  }

  /**
   * What is shown is a prefix of the listing whose entries are all printable,
   * and it stops short only at an entry that is not.
   */
  lemma {:induction false} ShownPrefix(consts: seq<Value>, l: seq<(InstrResult, nat)>)
    ensures var r := Shown(consts, l);
      && |r| <= |l| && r == l[..|r|]
      && (forall k :: 0 <= k < |r| ==> Printable(consts, r[k].0))
      && (|r| < |l| ==> !Printable(consts, l[|r|].0))
    decreases |l|
  {
    if |l| > 0 && Printable(consts, l[0].0) {
      ShownPrefix(consts, l[1..]);
      var r' := Shown(consts, l[1..]);
      assert l[..|r'| + 1] == [l[0]] + l[1..][..|r'|];
    }
  }

  /** Entries that are all printable are shown, and showing goes on after them. */
  lemma {:induction false} ShownAppend(consts: seq<Value>, a: seq<(InstrResult, nat)>, b: seq<(InstrResult, nat)>)
    requires forall k :: 0 <= k < |a| ==> Printable(consts, a[k].0)
    ensures Shown(consts, a + b) == a + Shown(consts, b)
    decreases |a|
  {
    if |a| > 0 {
      assert (a + b)[0] == a[0] && (a + b)[1..] == a[1..] + b;
      ShownAppend(consts, a[1..], b);
      assert a == [a[0]] + a[1..];
    } else {
      assert a + b == b;
    }
  }

  /** Moving one listed entry from the part still to come to the part done. */
  lemma ListingAppend(done: seq<(InstrResult, nat)>, x: (InstrResult, nat), rest: seq<(InstrResult, nat)>)
    ensures done + ([x] + rest) == (done + [x]) + rest
  {
  }

  class Chunk {
    var code: seq<byte>
    var lineBegins: seq<nat>
    var consts: seq<Value>

    ghost predicate Valid()
      reads this
    {
      LineTable(lineBegins, |code|)
    }

    /** `Chunk::new`. */
    constructor ()
      ensures Valid()
      ensures code == [] && lineBegins == [0] && consts == []
    {
      code, lineBegins, consts := [], [0], [];
    }

    /**
     * `write`: appends `b`, first extending the line table up to `line` with
     * the current code length. A line below the last recorded one panics, and
     * so does `usize::MAX`, whose successor overflows; a panic changes nothing.
     */
    method Write(b: byte, line: nat) returns (panicked: bool)
      requires Valid() && line <= USIZE_MAX
      modifies this
      ensures Valid()
      ensures panicked <==> line == USIZE_MAX || line + 1 < |old(lineBegins)|
      ensures panicked ==>
        code == old(code) && lineBegins == old(lineBegins) && consts == old(consts)
      ensures !panicked ==>
        && code == old(code) + [b]
        && consts == old(consts)
        && |lineBegins| == line + 1
        && lineBegins[..|old(lineBegins)|] == old(lineBegins)
        && forall k :: |old(lineBegins)| <= k <= line ==> lineBegins[k] == |old(code)|
    {
      if line == USIZE_MAX {
        return true;
      }
      var curLen := |lineBegins|;
      var targetLen := line + 1;
      if curLen < targetLen {
        var currBytes := |code|;
        var added := seq(targetLen - curLen, _ => currBytes);
        assert forall k :: 0 <= k < |added| ==> added[k] == currBytes;
        lineBegins := lineBegins + added;
      } else if curLen > targetLen {
        return true;
      }
      code := code + [b];
      return false;
    }

    /**
     * `add_const`: pushes `v` and returns its index. The push happens first;
     * the index is then converted to a byte, which panics once the pool held
     * 256 values already.
     */
    method AddConst(v: Value) returns (r: Result<byte, string>)
      requires Valid()
      modifies this
      ensures Valid()
      ensures consts == old(consts) + [v]
      ensures code == old(code) && lineBegins == old(lineBegins)
      ensures r.Ok? <==> |old(consts)| < MAX_CONSTS
      ensures r.Ok? ==> r.value as int == |old(consts)|
      ensures r.Err? ==> r.error == POOL_FULL
    {
      var l := |consts|;
      consts := consts + [v];
      if l < MAX_CONSTS {
        r := Ok(l as byte);
      } else {
        r := Err(POOL_FULL);
      }
    }

    /**
     * `disasm_all`, without the printing: one row per decoded instruction, in
     * order, with its offset; the line label shows the line number except when
     * it equals the previous row's line, which is then shown as continued.
     * Printing a Constant whose index lies outside the pool panics: the rows
     * are those printed before it, and `panicked` reports it.
     */
    method DisasmAll() returns (rows: seq<Row>, panicked: bool)
      requires Valid()
      ensures rows == Rows(lineBegins, Shown(consts, Listing(code, 0)))
      ensures panicked <==> |Shown(consts, Listing(code, 0))| < |Listing(code, 0)|
    {
      var it := new CodeIterator(code);
      var prevLineNo := USIZE_MAX;
      ghost var done: seq<(InstrResult, nat)> := [];
      rows := [];
      while true
        invariant fresh(it) && it.Valid() && it.code == code
        invariant Listing(code, 0) == done + Listing(code, it.offset)
        invariant forall k :: 0 <= k < |done| ==> Printable(consts, done[k].0)
        invariant rows == Rows(lineBegins, done)
        invariant prevLineNo == if |done| == 0 then USIZE_MAX else LineNo(lineBegins, done[|done| - 1].1)
        decreases |code| - it.offset
      {
        var item := it.Next();
        if item.None? {
          assert Listing(code, 0) == done by {
            assert Listing(code, it.offset) == [];
            assert done + [] == done;
          }
          ShownAppend(consts, done, []);
          return rows, false;
        }
        var (res, offset) := item.value;
        if !Printable(consts, res) {
          ShownAppend(consts, done, [item.value] + Listing(code, it.offset));
          assert Shown(consts, [item.value] + Listing(code, it.offset)) == [];
          assert Shown(consts, Listing(code, 0)) == done by {
            assert done + [] == done;
          }
          assert |Listing(code, 0)| == |done| + 1 + |Listing(code, it.offset)|;
          return rows, true;
        }
        var lineNo := LineNo(lineBegins, offset);
        var lineLabel;
        if prevLineNo == lineNo {
          lineLabel := Continued;
        } else {
          prevLineNo := lineNo;
          lineLabel := Line(lineNo);
        }
        RowsSnoc(lineBegins, done, item.value);
        ListingAppend(done, item.value, Listing(code, it.offset));
        done := done + [item.value];
        rows := rows + [Row(offset, lineLabel, res)];
      }
    }
  }

  /** A new chunk accepts 256 constants, at indices 0 to 255; the 257th `add_const` panics. */
  method PoolCapacity(v: Value) returns (indices: seq<byte>, last: Result<byte, string>)
    ensures |indices| == MAX_CONSTS
    ensures forall k :: 0 <= k < |indices| ==> indices[k] as int == k
    ensures last == Err(POOL_FULL)
  {
    var c := new Chunk();
    indices := [];
    while |indices| < MAX_CONSTS
      invariant fresh(c) && c.Valid()
      invariant |indices| <= MAX_CONSTS && |c.consts| == |indices|
      invariant forall k :: 0 <= k < |indices| ==> indices[k] as int == k
    {
      var r := c.AddConst(v);
      indices := indices + [r.value];
    }
    last := c.AddConst(v);
  }

  /** A new chunk written with five bytes on line 123 and then two on line 125 has the table of `LineExample`. */
  method WriteExample() returns (lineBegins: seq<nat>)
    ensures lineBegins == seq(124, _ => 0) + [5, 5]
  {
    var c := new Chunk();
    var p := c.Write(0, 123);
    assert c.lineBegins == seq(124, _ => 0);
    var k := 1;
    while k < 5
      invariant 1 <= k <= 5
      invariant fresh(c) && c.Valid()
      invariant |c.code| == k && c.lineBegins == seq(124, _ => 0)
    {
      p := c.Write(0, 123);
      assert c.lineBegins == c.lineBegins[..124];
      k := k + 1;
    }
    p := c.Write(0, 125);
    assert c.lineBegins == c.lineBegins[..124] + [5, 5];
    p := c.Write(0, 125);
    assert c.lineBegins == c.lineBegins[..126];
    lineBegins := c.lineBegins;
  }

  /** The state of `CodeIterator`: the code, the underlying byte cursor and the offset it reports. */
  class CodeIterator {
    const code: seq<byte>
    var iter: nat
    var offset: nat

    /** The reported offset is always the number of bytes the cursor consumed. */
    ghost predicate Valid()
      reads this
    {
      iter == offset <= |code|
    }

    /** `CodeIterator::new`. */
    constructor (code: seq<byte>)
      ensures Valid() && this.code == code && offset == 0
    {
      this.code := code;
      iter, offset := 0, 0;
    }

    /**
     * `next`: decodes at the cursor and reports the offset it started from.
     * The items produced from a given offset on are exactly its `Listing`.
     */
    method Next() returns (item: Option<(InstrResult, nat)>)
      requires Valid()
      modifies this
      ensures Valid()
      ensures Listing(code, old(offset)) == if item.None? then [] else [item.value] + Listing(code, offset)
      ensures item.None? <==> old(offset) == |code|
      ensures item.None? ==> offset == old(offset)
      ensures item.Some? ==> item.value.1 == old(offset) < offset
    {
      var prevOffset := offset;
      var next := NextInstrPoint(code, iter);
      if next.None? {
        return None;
      }
      var (res, len) := next.value;
      iter := iter + len;
      offset := offset + len;
      return Some((res, prevOffset));
    }
  }
}
