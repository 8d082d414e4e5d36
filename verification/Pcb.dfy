/** A process control block as the Kernel and the CPU exchange it: its bytes, what reading
    them back gives, and how far the two agree (Kernel/src/functions/serialization.c). */
module Pcb {
  import opened Wrappers
  import opened Bytes

  type u64 = x: int | 0 <= x < 0x1_0000_0000_0000_0000
  /** A C string, without its final NUL. */
  type Key = k: seq<byte> | 0 !in k

  datatype Position = Position(page: i32, off: i32, size: i32)
  datatype Instruction = Instruction(start: u32, offset: u32)
  datatype Context = Context(vars: map<Key, Position>, args: seq<Position>, retPos: i32, retVar: Option<Position>)

  /** The file table is not sent, and is not part of the model. */
  datatype Pcb = Pcb(pid: i32, pc: u64, codePages: u64, codeCount: u64, labelCount: u64, stackPosition: u64,
                     maxStackPosition: u64, exitCode: i32, code: seq<Instruction>, labels: seq<byte>, stack: seq<Context>)

  const MAX_ARGS := 10
  const POSITION_SIZE := 12
  const INSTRUCTION_SIZE := 8
  const FIXED_SIZE := 32

  /** The sizes the C structures hold. */
  predicate ContextFits(c: Context) {
    |c.vars| < 0x1_0000_0000 && |c.args| <= MAX_ARGS
  }

  predicate Fits(p: Pcb) {
    && p.codeCount == |p.code| < 0x1_0000_0000 && p.labelCount == |p.labels| < 0x1_0000_0000
    && |p.stack| < 0x1_0000_0000
    && forall c :: c in p.stack ==> ContextFits(c)
  }

  // ----- encoding

  /** A missing position is three times -1. */
  function EncodePosition(p: Option<Position>): (r: seq<byte>)
    ensures |r| == POSITION_SIZE
  {
    match p
    case None => EncodeI32(-1) + EncodeI32(-1) + EncodeI32(-1)
    case Some(q) => EncodeI32(q.page) + EncodeI32(q.off) + EncodeI32(q.size)
  }

  function EncodeArg(p: Position): (r: seq<byte>)
    ensures |r| == POSITION_SIZE
  {
    EncodePosition(Some(p))
  }

  function EncodeInstruction(i: Instruction): (r: seq<byte>)
    ensures |r| == INSTRUCTION_SIZE
  {
    EncodeU32(i.start) + EncodeU32(i.offset)
  }

  /** The order in which a dictionary is iterated: every key once. */
  ghost predicate IsOrder(order: seq<Key>, vars: map<Key, Position>) {
    |order| == |vars| && forall k :: k in order <==> k in vars
  }

  function EncodeEntry(k: Key, p: Position): seq<byte> {
    k + [0] + EncodeArg(p)
  }

  /** The keys are keys of the dictionary. */
  ghost predicate Known(vars: map<Key, Position>, order: seq<Key>) {
    forall k :: k in order ==> k in vars
  }

  function EncodeEntries(vars: map<Key, Position>, order: seq<Key>): seq<byte>
    requires Known(vars, order)
  {
    if order == [] then [] else EncodeEntry(order[0], vars[order[0]]) + EncodeEntries(vars, order[1..])
  }

  function EncodeDict(vars: map<Key, Position>, order: seq<Key>): seq<byte>
    requires IsOrder(order, vars) && |vars| < 0x1_0000_0000
  {
    EncodeU32(|vars|) + EncodeEntries(vars, order)
  }

  function EncodeElems<T>(a: seq<T>, enc: T -> seq<byte>): seq<byte> {
    if a == [] then [] else enc(a[0]) + EncodeElems(a[1..], enc)
  }

  function EncodeArray<T>(a: seq<T>, enc: T -> seq<byte>): seq<byte>
    requires |a| < 0x1_0000_0000
  {
    EncodeU32(|a|) + EncodeElems(a, enc)
  }

  function EncodeContext(c: Context, order: seq<Key>): seq<byte>
    requires ContextFits(c) && IsOrder(order, c.vars)
  {
    EncodeDict(c.vars, order) + (EncodeArray(c.args, EncodeArg) + (EncodePosition(c.retVar) + EncodeI32(c.retPos)))
  }

  /** One iteration order for each context. */
  ghost predicate AreOrders(orders: seq<seq<Key>>, stack: seq<Context>) {
    |orders| == |stack| && forall i :: 0 <= i < |stack| ==> IsOrder(orders[i], stack[i].vars)
  }

  function EncodeContexts(stack: seq<Context>, orders: seq<seq<Key>>): seq<byte>
    requires AreOrders(orders, stack) && forall c :: c in stack ==> ContextFits(c)
  {
    if stack == [] then [] else EncodeContext(stack[0], orders[0]) + EncodeContexts(stack[1..], orders[1..])
  }

  function EncodeStack(stack: seq<Context>, orders: seq<seq<Key>>): seq<byte>
    requires AreOrders(orders, stack) && |stack| < 0x1_0000_0000 && forall c :: c in stack ==> ContextFits(c)
  {
    EncodeU32(|stack|) + EncodeContexts(stack, orders)
  }

  /** The assignment of a `size_t` to a 32-bit unsigned. */
  function Truncated(x: u64): u32 {
    x % 0x1_0000_0000
  }

  function EncodeFixed(p: Pcb): (r: seq<byte>)
    ensures |r| == FIXED_SIZE
  {
    EncodeI32(p.pid) + (EncodeU32(Truncated(p.pc)) + (EncodeU32(Truncated(p.codePages)) +
    (EncodeU32(Truncated(p.codeCount)) + (EncodeU32(Truncated(p.labelCount)) + (EncodeU32(Truncated(p.stackPosition)) +
    (EncodeU32(Truncated(p.maxStackPosition)) + EncodeI32(p.exitCode)))))))
  }

  function EncodePcb(p: Pcb, orders: seq<seq<Key>>): seq<byte>
    requires Fits(p) && AreOrders(orders, p.stack)
  {
    EncodeFixed(p) + (EncodeArray(p.code, EncodeInstruction) + (p.labels + EncodeStack(p.stack, orders)))
  }

  // ----- decoding

  /** A value and the offset after its bytes; `Outside` when the source would read past the
      data, write past the argument array, or fail its final assertion. */
  datatype Decoded<T> = Outside | Decoded(value: T, next: nat)

  function ReadU32(b: seq<byte>, off: nat): u32
    requires off + 4 <= |b|
  {
    DecodeU32(b[off..off + 4])
  }

  function ReadI32(b: seq<byte>, off: nat): i32
    requires off + 4 <= |b|
  {
    DecodeI32(b[off..off + 4])
  }

  function DecodePosition(b: seq<byte>): Position
    requires |b| == POSITION_SIZE
  {
    Position(ReadI32(b, 0), ReadI32(b, 4), ReadI32(b, 8))
  }

  function DecodeInstruction(b: seq<byte>): Instruction
    requires |b| == INSTRUCTION_SIZE
  {
    Instruction(ReadU32(b, 0), ReadU32(b, 4))
  }

  /** Where the string at `off` ends, or the length of the data. */
  function NulAt(b: seq<byte>, off: nat): (r: nat)
    requires off <= |b|
    ensures off <= r <= |b| && (r < |b| ==> b[r] == 0)
    ensures 0 !in b[off..r]
    decreases |b| - off
  {
    if off == |b| || b[off] == 0 then off
    else
      var r := NulAt(b, off + 1);
      assert b[off..r] == [b[off]] + b[off + 1..r];
      r
  }

  function DecodeEntries(b: seq<byte>, off: nat, n: nat, acc: map<Key, Position>): Decoded<map<Key, Position>>
    requires off <= |b|
    decreases n
  {
    if n == 0 then Decoded(acc, off)
    else
      var nul := NulAt(b, off);
      var next := nul + 1 + POSITION_SIZE;
      if next > |b| then Outside
      else DecodeEntries(b, next, n - 1, acc[b[off..nul] := DecodePosition(b[nul + 1..next])])
  }

  function DecodeDict(b: seq<byte>, off: nat): Decoded<map<Key, Position>> {
    if off + 4 > |b| then Outside else DecodeEntries(b, off + 4, ReadU32(b, off), map[])
  }

  function DecodeElems<T>(b: seq<byte>, off: nat, n: nat, size: nat, dec: seq<byte> --> T, acc: seq<T>): Decoded<seq<T>>
    requires forall x: seq<byte> :: |x| == size ==> dec.requires(x)
    decreases n
  {
    if n == 0 then Decoded(acc, off)
    else if off + size > |b| then Outside
    else DecodeElems(b, off + size, n - 1, size, dec, acc + [dec(b[off..off + size])])
  }

  function DecodeArray<T>(b: seq<byte>, off: nat, size: nat, dec: seq<byte> --> T): Decoded<seq<T>>
    requires forall x: seq<byte> :: |x| == size ==> dec.requires(x)
  {
    if off + 4 > |b| then Outside else DecodeElems(b, off + 4, ReadU32(b, off), size, dec, [])
  }

  const MISSING := Position(-1, -1, -1)

  /** The sentinel reads back as a missing position. */
  function Present(p: Position): Option<Position> {
    if p == MISSING then None else Some(p)
  }

  function DecodeContext(b: seq<byte>, off: nat): Decoded<Context> {
    var vars := DecodeDict(b, off);
    if vars.Outside? then Outside
    else
      var args := DecodeArray(b, vars.next, POSITION_SIZE, DecodePosition);
      if args.Outside? || |args.value| > MAX_ARGS || args.next + POSITION_SIZE + 4 > |b| then Outside
      else
        var ret := Present(DecodePosition(b[args.next..args.next + POSITION_SIZE]));
        var retPos := ReadI32(b, args.next + POSITION_SIZE);
        Decoded(Context(vars.value, args.value, retPos, ret), args.next + POSITION_SIZE + 4)
  }

  function DecodeContexts(b: seq<byte>, off: nat, n: nat, acc: seq<Context>): Decoded<seq<Context>>
    decreases n
  {
    if n == 0 then Decoded(acc, off)
    else
      var c := DecodeContext(b, off);
      if c.Outside? then Outside else DecodeContexts(b, c.next, n - 1, acc + [c.value])
  }

  function DecodeStack(b: seq<byte>, off: nat): Decoded<seq<Context>> {
    if off + 4 > |b| then Outside else DecodeContexts(b, off + 4, ReadU32(b, off), [])
  }

  function DecodePcb(b: seq<byte>): Decoded<Pcb> {
    if FIXED_SIZE > |b| then Outside
    else
      var labelCount := ReadU32(b, 16);
      var code := DecodeArray(b, FIXED_SIZE, INSTRUCTION_SIZE, DecodeInstruction);
      if code.Outside? || code.next + labelCount > |b| then Outside
      else
        var labels := b[code.next..code.next + labelCount];
        var stack := DecodeStack(b, code.next + labelCount);
        if stack.Outside? || stack.next != |b| then Outside
        else Decoded(Pcb(ReadI32(b, 0), ReadU32(b, 4), ReadU32(b, 8), ReadU32(b, 12), labelCount, ReadU32(b, 20),
                         ReadU32(b, 24), ReadI32(b, 28), code.value, labels, stack.value), stack.next)
  }

  // ----- what comes back

  function NormalizeContext(c: Context): Context {
    Context(c.vars, c.args, c.retPos, if c.retVar == Some(MISSING) then None else c.retVar)
  }

  function NormalizeStack(stack: seq<Context>): (r: seq<Context>)
    ensures |r| == |stack| && forall i :: 0 <= i < |r| ==> r[i] == NormalizeContext(stack[i])
  {
    if stack == [] then [] else [NormalizeContext(stack[0])] + NormalizeStack(stack[1..])
  }

  function Normalize(p: Pcb): Pcb {
    Pcb(p.pid, Truncated(p.pc), Truncated(p.codePages), p.codeCount, p.labelCount, Truncated(p.stackPosition),
        Truncated(p.maxStackPosition), p.exitCode, p.code, p.labels, NormalizeStack(p.stack))
  }

  /** The bytes `x` stand at `off`. */
  predicate At(b: seq<byte>, off: nat, x: seq<byte>) {
    off + |x| <= |b| && b[off..off + |x|] == x
  }

  lemma AtSplit(b: seq<byte>, off: nat, x: seq<byte>, y: seq<byte>)
    requires At(b, off, x + y)
    ensures At(b, off, x) && At(b, off + |x|, y)
  {
    assert b[off..off + |x|] == (x + y)[..|x|];
    assert b[off + |x|..off + |x| + |y|] == (x + y)[|x|..];
  }

  lemma ReadU32At(b: seq<byte>, off: nat, x: u32)
    requires At(b, off, EncodeU32(x))
    ensures ReadU32(b, off) == x
  {
    U32RoundTrip(x);
    hide EncodeU32, DecodeU32;
  }

  lemma ReadI32At(b: seq<byte>, off: nat, x: i32)
    requires At(b, off, EncodeI32(x))
    ensures ReadI32(b, off) == x
  {
    I32RoundTrip(x);
    hide EncodeI32, DecodeI32;
  }

  lemma PositionRoundTrip(p: Option<Position>)
    ensures DecodePosition(EncodePosition(p)) == if p.Some? then p.value else MISSING
  {
    hide EncodeI32, ReadI32;
    var q := if p.Some? then p.value else MISSING;
    var b := EncodePosition(p);
    ThreeParts(EncodeI32(q.page), EncodeI32(q.off), EncodeI32(q.size));
    ReadI32At(b, 0, q.page);
    ReadI32At(b, 4, q.off);
    ReadI32At(b, 8, q.size);
  }

  lemma ThreeParts(x: seq<byte>, y: seq<byte>, z: seq<byte>)
    requires |x| == |y| == |z| == 4
    ensures At(x + y + z, 0, x) && At(x + y + z, 4, y) && At(x + y + z, 8, z)
  {
  }

  lemma InstructionRoundTrip(i: Instruction)
    ensures DecodeInstruction(EncodeInstruction(i)) == i
  {
    hide EncodeU32, ReadU32;
    var b := EncodeInstruction(i);
    assert At(b, 0, EncodeU32(i.start) + EncodeU32(i.offset));
    AtSplit(b, 0, EncodeU32(i.start), EncodeU32(i.offset));
    ReadU32At(b, 0, i.start);
    ReadU32At(b, 4, i.offset);
  }

  lemma {:induction false} NulAtKey(b: seq<byte>, off: nat, k: Key)
    requires At(b, off, k + [0])
    ensures NulAt(b, off) == off + |k|
    decreases |k|
  {
    AtTail(b, off, k + [0]);
    if k != [] {
      assert (k + [0])[1..] == k[1..] + [0];
      NulAtKey(b, off + 1, k[1..]);
    }
  }

  lemma AtTail(b: seq<byte>, off: nat, x: seq<byte>)
    requires At(b, off, x) && x != []
    ensures off < |b| && b[off] == x[0] && At(b, off + 1, x[1..])
  {
    assert b[off..off + |x|][0] == b[off];
    assert b[off + 1..off + |x|] == b[off..off + |x|][1..];
  }

  lemma EntryAt(b: seq<byte>, off: nat, k: Key, p: Position)
    requires At(b, off, EncodeEntry(k, p))
    ensures var nul := NulAt(b, off);
            var next := nul + 1 + POSITION_SIZE;
            && next == off + |EncodeEntry(k, p)| <= |b|
            && b[off..nul] == k && DecodePosition(b[nul + 1..next]) == p
  {
    hide EncodePosition, DecodePosition, NulAt;
    AtSplit(b, off, k + [0], EncodeArg(p));
    NulAtKey(b, off, k);
    AtSplit(b, off, k, [0]);
    PositionRoundTrip(Some(p));
  }

  /** What was read so far and what is still to come make up the dictionary. */
  ghost predicate Partial(vars: map<Key, Position>, order: seq<Key>, acc: map<Key, Position>) {
    && (forall k :: k in vars ==> k in acc || k in order)
    && (forall k :: k in acc ==> k in vars && acc[k] == vars[k])
  }

  lemma PartialNext(vars: map<Key, Position>, order: seq<Key>, acc: map<Key, Position>)
    requires Known(vars, order) && Partial(vars, order, acc)
    ensures order == [] ==> acc == vars
    ensures order != [] ==> order[0] in vars && Known(vars, order[1..]) && Partial(vars, order[1..], acc[order[0] := vars[order[0]]])
  {
    if order == [] {
      assert acc.Keys == vars.Keys;
    } else {
      assert order == [order[0]] + order[1..];
    }
  }

  lemma EntriesUnrolled(vars: map<Key, Position>, order: seq<Key>)
    requires Known(vars, order)
    ensures order == [] ==> EncodeEntries(vars, order) == []
    ensures order != [] ==>
              order[0] in vars && Known(vars, order[1..]) &&
              EncodeEntries(vars, order) == EncodeEntry(order[0], vars[order[0]]) + EncodeEntries(vars, order[1..])
  {
  }

  lemma NoEntryRead(b: seq<byte>, off: nat, acc: map<Key, Position>)
    requires off <= |b|
    ensures DecodeEntries(b, off, 0, acc) == Decoded(acc, off)
  {
  }

  lemma EntryRead(b: seq<byte>, off: nat, n: nat, acc: map<Key, Position>, k: Key, p: Position)
    requires n > 0 && At(b, off, EncodeEntry(k, p))
    ensures off + |EncodeEntry(k, p)| <= |b|
    ensures DecodeEntries(b, off, n, acc) == DecodeEntries(b, off + |EncodeEntry(k, p)|, n - 1, acc[k := p])
  {
    hide EncodeEntry, DecodePosition, NulAt;
    EntryAt(b, off, k, p);
  }

  /** The entries read back the dictionary, in whatever order they were written. */
  lemma {:induction false} EntriesRoundTrip(b: seq<byte>, off: nat, vars: map<Key, Position>, order: seq<Key>, acc: map<Key, Position>)
    requires Known(vars, order) && Partial(vars, order, acc) && At(b, off, EncodeEntries(vars, order))
    ensures off <= |b|
    ensures DecodeEntries(b, off, |order|, acc) == Decoded(vars, off + |EncodeEntries(vars, order)|)
    decreases |order|
  {
    hide EncodeEntry, DecodePosition, NulAt, At, Partial, Known, DecodeEntries, EncodeEntries, EncodeArg, IsOrder;
    PartialNext(vars, order, acc);
    AtMeans(b, off, EncodeEntries(vars, order));
    EntriesUnrolled(vars, order);
    if order == [] {
      NoEntryRead(b, off, acc);
    } else {
      var k := order[0];
      AtSplit(b, off, EncodeEntry(k, vars[k]), EncodeEntries(vars, order[1..]));
      EntryRead(b, off, |order|, acc, k, vars[k]);
      EntriesRoundTrip(b, off + |EncodeEntry(k, vars[k])|, vars, order[1..], acc[k := vars[k]]);
    }
  }

  lemma DictRoundTrip(b: seq<byte>, off: nat, vars: map<Key, Position>, order: seq<Key>)
    requires IsOrder(order, vars) && |vars| < 0x1_0000_0000 && At(b, off, EncodeDict(vars, order))
    ensures DecodeDict(b, off) == Decoded(vars, off + |EncodeDict(vars, order)|)
  {
    hide EncodeU32, ReadU32, EncodeEntries, DecodeEntries;
    AtSplit(b, off, EncodeU32(|vars|), EncodeEntries(vars, order));
    ReadU32At(b, off, |vars|);
    EntriesRoundTrip(b, off + 4, vars, order, map[]);
  }

  ghost predicate Inverse<T(!new)>(enc: T -> seq<byte>, dec: seq<byte> --> T, size: nat) {
    && (forall x: seq<byte> :: |x| == size ==> dec.requires(x))
    && forall v: T :: |enc(v)| == size && dec(enc(v)) == v
  }

  lemma {:induction false} ElemsRoundTrip<T(!new)>(b: seq<byte>, off: nat, a: seq<T>, size: nat, enc: T -> seq<byte>,
                                             dec: seq<byte> --> T, acc: seq<T>)
    requires Inverse(enc, dec, size) && At(b, off, EncodeElems(a, enc))
    ensures DecodeElems(b, off, |a|, size, dec, acc) == Decoded(acc + a, off + |EncodeElems(a, enc)|)
    decreases |a|
  {
    if a == [] {
      assert acc + a == acc;
    } else {
      AtSplit(b, off, enc(a[0]), EncodeElems(a[1..], enc));
      assert dec(b[off..off + size]) == a[0];
      ElemsRoundTrip(b, off + size, a[1..], size, enc, dec, acc + [a[0]]);
      assert acc + [a[0]] + a[1..] == acc + a;
    }
  }

  lemma ArrayRoundTrip<T(!new)>(b: seq<byte>, off: nat, a: seq<T>, size: nat, enc: T -> seq<byte>, dec: seq<byte> --> T)
    requires Inverse(enc, dec, size) && |a| < 0x1_0000_0000 && At(b, off, EncodeArray(a, enc))
    ensures DecodeArray(b, off, size, dec) == Decoded(a, off + |EncodeArray(a, enc)|)
  {
    hide EncodeU32, ReadU32, EncodeElems, DecodeElems;
    AtSplit(b, off, EncodeU32(|a|), EncodeElems(a, enc));
    ReadU32At(b, off, |a|);
    ElemsRoundTrip(b, off + 4, a, size, enc, dec, []);
    assert [] + a == a;
  }

  lemma ArgsInverse()
    ensures Inverse(EncodeArg, DecodePosition, POSITION_SIZE)
  {
    hide EncodePosition, DecodePosition;
    forall p { PositionRoundTrip(Some(p)); }
  }

  lemma InstructionsInverse()
    ensures Inverse(EncodeInstruction, DecodeInstruction, INSTRUCTION_SIZE)
  {
    hide EncodeInstruction, DecodeInstruction;
    forall i { InstructionRoundTrip(i); }
  }

  /** A context's decoder consumes just the bytes its encoder produced. */
  lemma ContextRoundTrip(b: seq<byte>, off: nat, c: Context, order: seq<Key>)
    requires ContextFits(c) && IsOrder(order, c.vars) && At(b, off, EncodeContext(c, order))
    ensures DecodeContext(b, off) == Decoded(NormalizeContext(c), off + |EncodeContext(c, order)|)
  {
    hide EncodeDict, DecodeDict, EncodeArray, DecodeArray, EncodePosition, DecodePosition, EncodeI32, ReadI32, IsOrder;
    hide Inverse, At;
    ArgsInverse();
    var d, a, v, r := EncodeDict(c.vars, order), EncodeArray(c.args, EncodeArg), EncodePosition(c.retVar), EncodeI32(c.retPos);
    AtSplit(b, off, d, a + (v + r));
    AtSplit(b, off + |d|, a, v + r);
    AtSplit(b, off + |d| + |a|, v, r);
    DictRoundTrip(b, off, c.vars, order);
    ArrayRoundTrip(b, off + |d|, c.args, POSITION_SIZE, EncodeArg, DecodePosition);
    AtMeans(b, off + |d| + |a|, v);
    AtMeans(b, off + |d| + |a| + |v|, r);
    PositionRoundTrip(c.retVar);
    ReadI32At(b, off + |d| + |a| + |v|, c.retPos);
  }

  lemma AtMeans(b: seq<byte>, off: nat, x: seq<byte>)
    requires At(b, off, x)
    ensures off + |x| <= |b| && b[off..off + |x|] == x
  {
  }

  lemma {:induction false} ContextsRoundTrip(b: seq<byte>, off: nat, stack: seq<Context>, orders: seq<seq<Key>>, acc: seq<Context>)
    requires AreOrders(orders, stack) && forall c :: c in stack ==> ContextFits(c)
    requires At(b, off, EncodeContexts(stack, orders))
    ensures DecodeContexts(b, off, |stack|, acc) == Decoded(acc + NormalizeStack(stack), off + |EncodeContexts(stack, orders)|)
    decreases |stack|
  {
    hide EncodeContext, DecodeContext, IsOrder, ContextFits;
    if stack == [] {
      assert acc + NormalizeStack(stack) == acc;
    } else {
      var x := EncodeContext(stack[0], orders[0]);
      AtSplit(b, off, x, EncodeContexts(stack[1..], orders[1..]));
      ContextRoundTrip(b, off, stack[0], orders[0]);
      ContextsRoundTrip(b, off + |x|, stack[1..], orders[1..], acc + [NormalizeContext(stack[0])]);
      assert acc + [NormalizeContext(stack[0])] + NormalizeStack(stack[1..]) == acc + NormalizeStack(stack);
    }
  }

  lemma StackRoundTrip(b: seq<byte>, off: nat, stack: seq<Context>, orders: seq<seq<Key>>)
    requires AreOrders(orders, stack) && |stack| < 0x1_0000_0000 && forall c :: c in stack ==> ContextFits(c)
    ensures At(b, off, EncodeStack(stack, orders)) ==>
              DecodeStack(b, off) == Decoded(NormalizeStack(stack), off + |EncodeStack(stack, orders)|)
  {
    hide EncodeU32, ReadU32, EncodeContexts, DecodeContexts, AreOrders, ContextFits;
    if !At(b, off, EncodeStack(stack, orders)) {
      return;
    }
    AtSplit(b, off, EncodeU32(|stack|), EncodeContexts(stack, orders));
    ReadU32At(b, off, |stack|);
    ContextsRoundTrip(b, off + 4, stack, orders, []);
    assert [] + NormalizeStack(stack) == NormalizeStack(stack);
  }

  lemma FixedRoundTrip(b: seq<byte>, p: Pcb)
    requires At(b, 0, EncodeFixed(p))
    ensures FIXED_SIZE <= |b|
    ensures ReadI32(b, 0) == p.pid && ReadU32(b, 4) == Truncated(p.pc) && ReadU32(b, 8) == Truncated(p.codePages)
    ensures ReadU32(b, 12) == Truncated(p.codeCount) && ReadU32(b, 16) == Truncated(p.labelCount)
    ensures ReadU32(b, 20) == Truncated(p.stackPosition) && ReadU32(b, 24) == Truncated(p.maxStackPosition)
    ensures ReadI32(b, 28) == p.exitCode
  {
    hide EncodeU32, EncodeI32, ReadU32, ReadI32, Truncated, At;
    var x1, x2, x3, x4 := Truncated(p.pc), Truncated(p.codePages), Truncated(p.codeCount), Truncated(p.labelCount);
    var x5, x6 := Truncated(p.stackPosition), Truncated(p.maxStackPosition);
    var r6 := EncodeU32(x6) + EncodeI32(p.exitCode);
    var r5 := EncodeU32(x5) + r6;
    var r4 := EncodeU32(x4) + r5;
    var r3 := EncodeU32(x3) + r4;
    var r2 := EncodeU32(x2) + r3;
    AtSplit(b, 0, EncodeI32(p.pid), EncodeU32(x1) + r2);
    AtSplit(b, 4, EncodeU32(x1), r2);
    AtSplit(b, 8, EncodeU32(x2), r3);
    AtSplit(b, 12, EncodeU32(x3), r4);
    AtSplit(b, 16, EncodeU32(x4), r5);
    AtSplit(b, 20, EncodeU32(x5), r6);
    AtSplit(b, 24, EncodeU32(x6), EncodeI32(p.exitCode));
    AtMeans(b, 28, EncodeI32(p.exitCode));
    ReadI32At(b, 0, p.pid);
    ReadU32At(b, 4, x1);
    ReadU32At(b, 8, x2);
    ReadU32At(b, 12, x3);
    ReadU32At(b, 16, x4);
    ReadU32At(b, 20, x5);
    ReadU32At(b, 24, x6);
    ReadI32At(b, 28, p.exitCode);
  }

  /** Decoding a block's bytes gives the block back, up to 32-bit fields and missing return
      positions, for any order of its dictionaries; no byte is left over. */
  lemma PcbRoundTrip(p: Pcb, orders: seq<seq<Key>>)
    requires Fits(p) && AreOrders(orders, p.stack)
    ensures DecodePcb(EncodePcb(p, orders)) == Decoded(Normalize(p), |EncodePcb(p, orders)|)
  {
    hide EncodeFixed, EncodeArray, DecodeArray, EncodeStack, DecodeStack, EncodeInstruction, DecodeInstruction;
    hide AreOrders, At, Inverse, ReadU32, ReadI32, ContextFits, NormalizeStack;
    var b := EncodePcb(p, orders);
    var f, c, s := EncodeFixed(p), EncodeArray(p.code, EncodeInstruction), EncodeStack(p.stack, orders);
    WholeAt(b);
    AtSplit(b, 0, f, c + (p.labels + s));
    AtSplit(b, |f|, c, p.labels + s);
    AtSplit(b, |f| + |c|, p.labels, s);
    FixedRoundTrip(b, p);
    InstructionsInverse();
    ArrayRoundTrip(b, FIXED_SIZE, p.code, INSTRUCTION_SIZE, EncodeInstruction, DecodeInstruction);
    AtMeans(b, |f| + |c|, p.labels);
    StackRoundTrip(b, |f| + |c| + |p.labels|, p.stack, orders);
  }

  lemma WholeAt(b: seq<byte>)
    ensures At(b, 0, b)
  {
  }

  /** Every field fits 32 bits. */
  predicate Narrow(p: Pcb) {
    && p.pc < 0x1_0000_0000 && p.codePages < 0x1_0000_0000
    && p.stackPosition < 0x1_0000_0000 && p.maxStackPosition < 0x1_0000_0000
  }

  /** No context returns into the position that stands for a missing one. */
  predicate NoSentinel(p: Pcb) {
    forall i :: 0 <= i < |p.stack| ==> p.stack[i].retVar != Some(MISSING)
  }

  /** The block comes back unchanged if and only if its fields fit 32 bits and no return
      position is the sentinel. */
  lemma SameBlockBack(p: Pcb, orders: seq<seq<Key>>)
    requires Fits(p) && AreOrders(orders, p.stack)
    ensures DecodePcb(EncodePcb(p, orders)) == Decoded(p, |EncodePcb(p, orders)|) <==> Narrow(p) && NoSentinel(p)
  {
    hide EncodePcb, DecodePcb, Fits, AreOrders, Normalize;
    PcbRoundTrip(p, orders);
    SameNormalized(p);
  }

  lemma SameNormalized(p: Pcb)
    ensures Normalize(p) == p <==> Narrow(p) && NoSentinel(p)
  {
    if NoSentinel(p) {
      assert NormalizeStack(p.stack) == p.stack;
    }
    if i :| 0 <= i < |p.stack| && p.stack[i].retVar == Some(MISSING) {
      assert NormalizeStack(p.stack)[i] != p.stack[i];
    }
    hide NormalizeStack, NoSentinel;
  }

  /** Blocks with the same bytes come back the same. */
  lemma SameBytesSameBlock(p: Pcb, q: Pcb, orders: seq<seq<Key>>, orders': seq<seq<Key>>)
    requires Fits(p) && Fits(q) && AreOrders(orders, p.stack) && AreOrders(orders', q.stack)
    ensures EncodePcb(p, orders) == EncodePcb(q, orders') ==> Normalize(p) == Normalize(q)
  {
    PcbRoundTrip(p, orders);
    PcbRoundTrip(q, orders');
  }
}
