/** The serializer and the deserializer as the source runs them: sizes computed first, bytes
    copied into buffers at moving offsets (Kernel/src/functions/serialization.c). */
module Serialization {
  import opened Wrappers
  import opened Bytes
  import opened Pcb

  // ----- buffers

  /** `memcpy(data + off, src, |src|)` when everything before `off` is already written. */
  method Append(data: array<byte>, off: nat, src: seq<byte>) returns (next: nat)
    requires off + |src| <= data.Length
    modifies data
    ensures next == off + |src| && data[..next] == old(data[..off]) + src
  {
    for k := 0 to |src|
      invariant data[..off + k] == old(data[..off]) + src[..k]
    {
      data[off + k] := src[k];
      assert data[..off + k + 1] == data[..off + k] + [src[k]];
    }
    next := off + |src|;
    assert src[..|src|] == src;
  }

  method Allocate(size: nat) returns (data: array<byte>)
    ensures fresh(data) && data.Length == size
  {
    data := new byte[size](_ => 0);
  }

  method Reallocate(data: array<byte>, size: nat) returns (grown: array<byte>)
    requires size >= data.Length
    ensures fresh(grown) && grown.Length == size && grown[..data.Length] == data[..]
  {
    grown := Allocate(size);
    var _ := Append(grown, 0, data[..]);
  }

  // ----- dictionaries

  /** The keys as `dictionary_iterator` visits them: in some order, the same each time. */
  method Iteration(vars: map<Key, Position>) returns (order: seq<Key>)
    ensures IsOrder(order, vars)
  {
    order := [];
    var rest := vars.Keys;
    while rest != {}
      invariant rest <= vars.Keys && |order| + |rest| == |vars|
      invariant forall k :: k in order <==> k in vars && k !in rest
      decreases |rest|
    {
      var k :| k in rest;
      order, rest := order + [k], rest - {k};
    }
  }

  lemma {:induction false} EntriesSplit(vars: map<Key, Position>, a: seq<Key>, b: seq<Key>)
    requires Known(vars, a + b)
    ensures Known(vars, a) && Known(vars, b)
    ensures EncodeEntries(vars, a + b) == EncodeEntries(vars, a) + EncodeEntries(vars, b)
  {
    hide EncodeEntry;
    assert forall k :: k in a ==> k in a + b;
    assert forall k :: k in b ==> k in a + b;
    if a == [] {
      assert a + b == b;
    } else {
      assert (a + b)[1..] == a[1..] + b;
      EntriesSplit(vars, a[1..], b);
    }
  }

  /** One entry more. */
  lemma EntriesNext(vars: map<Key, Position>, order: seq<Key>, i: nat)
    requires i < |order| && Known(vars, order)
    ensures Known(vars, order[..i]) && Known(vars, order[..i + 1])
    ensures EncodeEntries(vars, order[..i + 1]) == EncodeEntries(vars, order[..i]) + EncodeEntry(order[i], vars[order[i]])
    ensures |EncodeEntries(vars, order[..i + 1])| <= |EncodeEntries(vars, order)|
  {
    hide EncodeEntry;
    assert order[..i + 1] == order[..i] + [order[i]];
    EntriesSplit(vars, order[..i], [order[i]]);
    assert [order[i]][1..] == [];
    assert order == order[..i + 1] + order[i + 1..];
    EntriesSplit(vars, order[..i + 1], order[i + 1..]);
  }

  method DictSize(vars: map<Key, Position>, order: seq<Key>) returns (size: nat)
    requires IsOrder(order, vars) && |vars| < 0x1_0000_0000
    ensures size == |EncodeDict(vars, order)|
  {
    size := 4 + |vars| * POSITION_SIZE;
    for i := 0 to |order|
      invariant size == 4 + (|order| - i) * POSITION_SIZE + |EncodeEntries(vars, order[..i])|
    {
      EntriesNext(vars, order, i);
      size := size + |order[i]| + 1;
    }
    assert order[..|order|] == order;
  }

  /** `serialize_static_type_dict` */
  method SerializeDict(vars: map<Key, Position>) returns (data: array<byte>, ghost order: seq<Key>)
    requires |vars| < 0x1_0000_0000
    ensures fresh(data) && IsOrder(order, vars) && data[..] == EncodeDict(vars, order)
  {
    hide EncodeU32, EncodeArg;
    var keys := Iteration(vars);
    var size := DictSize(vars, keys);
    data := Allocate(size);
    var offset := Append(data, 0, EncodeU32(|vars|));
    for i := 0 to |keys|
      invariant offset == 4 + |EncodeEntries(vars, keys[..i])| && offset <= data.Length == size
      invariant data[..offset] == EncodeU32(|vars|) + EncodeEntries(vars, keys[..i])
    {
      EntriesNext(vars, keys, i);
      offset := AppendEntry(data, offset, keys[i], vars[keys[i]]);
    }
    assert keys[..|keys|] == keys;
    assert data[..offset] == data[..];
    order := keys;
  }

  method AppendEntry(data: array<byte>, off: nat, key: Key, value: Position) returns (next: nat)
    requires off + |EncodeEntry(key, value)| <= data.Length
    modifies data
    ensures next == off + |EncodeEntry(key, value)|
    ensures data[..next] == old(data[..off]) + EncodeEntry(key, value)
  {
    hide EncodeArg;
    next := Append(data, off, key + [0]);
    next := Append(data, next, EncodeArg(value));
  }

  /** `string_length` */
  method StringLength(b: seq<byte>, off: nat) returns (length: nat)
    requires off <= |b| && NulAt(b, off) < |b|
    ensures off + length == NulAt(b, off)
  {
    length := 0;
    while b[off + length] != 0
      invariant off + length <= NulAt(b, off) && NulAt(b, off + length) == NulAt(b, off)
      decreases NulAt(b, off) - (off + length)
    {
      length := length + 1;
    }
  }

  /** `deserialize_static_type_dict` */
  method DeserializeDict(b: seq<byte>, base: nat) returns (vars: map<Key, Position>, byteSize: nat)
    requires DecodeDict(b, base).Decoded?
    ensures DecodeDict(b, base) == Decoded(vars, base + byteSize)
  {
    hide ReadU32, DecodePosition, NulAt;
    vars := map[];
    byteSize := 0;
    var elemCount := ReadU32(b, base);
    byteSize := byteSize + 4;
    for i := 0 to elemCount
      invariant base + byteSize <= |b|
      invariant DecodeEntries(b, base + byteSize, elemCount - i, vars) == DecodeDict(b, base)
    {
      var key, value, size := DeserializeEntry(b, base + byteSize);
      byteSize := byteSize + size;
      vars := vars[key := value];
    }
  }

  /** One turn of its loop. */
  method DeserializeEntry(b: seq<byte>, base: nat) returns (key: Key, value: Position, byteSize: nat)
    requires base <= |b| && NulAt(b, base) + 1 + POSITION_SIZE <= |b|
    ensures base + byteSize == NulAt(b, base) + 1 + POSITION_SIZE
    ensures key == b[base..NulAt(b, base)]
    ensures value == DecodePosition(b[NulAt(b, base) + 1..base + byteSize])
  {
    hide DecodePosition, NulAt;
    var length := StringLength(b, base);
    key := b[base..base + length];
    byteSize := length + 1;
    value := DecodePosition(b[base + byteSize..base + byteSize + POSITION_SIZE]);
    byteSize := byteSize + POSITION_SIZE;
  }

  // ----- arrays

  lemma {:induction false} ElemsSplit<T>(a: seq<T>, b: seq<T>, enc: T -> seq<byte>)
    ensures EncodeElems(a + b, enc) == EncodeElems(a, enc) + EncodeElems(b, enc)
  {
    if a == [] {
      assert a + b == b;
    } else {
      assert (a + b)[1..] == a[1..] + b;
      ElemsSplit(a[1..], b, enc);
    }
  }

  lemma ElemsNext<T>(a: seq<T>, i: nat, enc: T -> seq<byte>)
    requires i < |a|
    ensures EncodeElems(a[..i + 1], enc) == EncodeElems(a[..i], enc) + enc(a[i])
  {
    assert a[..i + 1] == a[..i] + [a[i]];
    ElemsSplit(a[..i], [a[i]], enc);
    assert [a[i]][1..] == [];
  }

  /** `serialize_static_type_array`: the offset ends at the size computed beforehand. */
  method SerializeArray<T>(a: seq<T>, size: nat, enc: T -> seq<byte>) returns (data: array<byte>)
    requires |a| < 0x1_0000_0000 && forall v :: v in a ==> |enc(v)| == size
    ensures fresh(data) && data[..] == EncodeArray(a, enc)
  {
    hide EncodeU32, EncodeElems;
    ElemsLength(a, size, enc);
    data := Allocate(4 + |a| * size);
    var offset := Append(data, 0, EncodeU32(|a|));
    assert a[0..] == a && a[..0] == [];
    NoElems(enc);
    for i := 0 to |a|
      invariant 0 <= offset && offset + |EncodeElems(a[i..], enc)| == data.Length
      invariant data[..offset] == EncodeU32(|a|) + EncodeElems(a[..i], enc)
    {
      ElemsNext(a, i, enc);
      ElemsFrom(a, i, enc);
      offset := Append(data, offset, enc(a[i]));
    }
    assert a[..|a|] == a && a[|a|..] == [];
    assert offset == data.Length;
    assert data[..offset] == data[..];
  }

  lemma NoElems<T>(enc: T -> seq<byte>)
    ensures EncodeElems([], enc) == []
  {
  }

  lemma ElemsFrom<T>(a: seq<T>, i: nat, enc: T -> seq<byte>)
    requires i < |a|
    ensures EncodeElems(a[i..], enc) == enc(a[i]) + EncodeElems(a[i + 1..], enc)
  {
    assert a[i..][1..] == a[i + 1..];
  }

  /** The size computed beforehand. */
  lemma {:induction false} ElemsLength<T>(a: seq<T>, size: nat, enc: T -> seq<byte>)
    requires forall v :: v in a ==> |enc(v)| == size
    ensures |EncodeElems(a, enc)| == |a| * size
  {
    if a != [] {
      ElemsLength(a[1..], size, enc);
      Times(|a| - 1, size);
    }
  }

  lemma Times(m: nat, size: nat)
    ensures (m + 1) * size == m * size + size
  {
  }

  /** `deserialize_static_type_array` */
  method DeserializeArray<T>(b: seq<byte>, base: nat, size: nat, dec: seq<byte> --> T) returns (a: seq<T>, byteSize: nat)
    requires forall x: seq<byte> :: |x| == size ==> dec.requires(x)
    requires DecodeArray(b, base, size, dec).Decoded?
    ensures DecodeArray(b, base, size, dec) == Decoded(a, base + byteSize)
  {
    hide ReadU32;
    var elemCount := ReadU32(b, base);
    byteSize := 4;
    a := [];
    for i := 0 to elemCount
      invariant DecodeElems(b, base + byteSize, elemCount - i, size, dec, a) == DecodeArray(b, base, size, dec)
    {
      a := a + [dec(b[base + byteSize..base + byteSize + size])];
      byteSize := byteSize + size;
    }
  }

  // ----- contexts and the stack

  /** `stack_context_serialize` */
  method SerializeContext(c: Context) returns (data: array<byte>, ghost order: seq<Key>)
    requires ContextFits(c)
    ensures fresh(data) && IsOrder(order, c.vars) && data[..] == EncodeContext(c, order)
  {
    hide EncodeDict, EncodeArray, EncodeArg, EncodePosition, EncodeI32, IsOrder;
    var vars;
    vars, order := SerializeDict(c.vars);
    ArgSizes(c.args);
    var args := SerializeArray(c.args, POSITION_SIZE, EncodeArg);
    data := Allocate(vars.Length + args.Length + POSITION_SIZE + 4);
    ghost var v, a := vars[..], args[..];
    assert |v| == vars.Length && |a| == args.Length;
    var offset := Append(data, 0, vars[..]);
    offset := Append(data, offset, args[..]);
    offset := Append(data, offset, EncodePosition(c.retVar));
    offset := Append(data, offset, EncodeI32(c.retPos));
    assert data[..offset] == data[..];
    FourParts(v, a, EncodePosition(c.retVar), EncodeI32(c.retPos));
  }

  lemma ArgSizes(args: seq<Position>)
    ensures forall p :: p in args ==> |EncodeArg(p)| == POSITION_SIZE
  {
  }

  lemma FourParts(a: seq<byte>, b: seq<byte>, c: seq<byte>, d: seq<byte>)
    ensures [] + a + b + c + d == a + (b + (c + d))
  {
  }

  /** `stack_context_deserialize` */
  method DeserializeContext(b: seq<byte>, base: nat) returns (c: Context, byteSize: nat)
    requires DecodeContext(b, base).Decoded?
    ensures DecodeContext(b, base) == Decoded(c, base + byteSize)
  {
    hide DecodeDict, DecodeArray, DecodePosition, ReadI32;
    var vars, varsSize := DeserializeDict(b, base);
    var args, argsSize := DeserializeArray(b, base + varsSize, POSITION_SIZE, DecodePosition);
    var at := base + varsSize + argsSize;
    var retVar := Some(DecodePosition(b[at..at + POSITION_SIZE]));
    if retVar.value.page == -1 && retVar.value.off == -1 && retVar.value.size == -1 {
      retVar := None;
    }
    var retPos := ReadI32(b, at + POSITION_SIZE);
    c := Context(vars, args, retPos, retVar);
    byteSize := varsSize + argsSize + POSITION_SIZE + 4;
  }

  lemma {:induction false} ContextsNext(stack: seq<Context>, orders: seq<seq<Key>>, i: nat, order: seq<Key>)
    requires i < |stack| && AreOrders(orders, stack[..i]) && IsOrder(order, stack[i].vars)
    requires forall c :: c in stack ==> ContextFits(c)
    ensures AreOrders(orders + [order], stack[..i + 1])
    ensures EncodeContexts(stack[..i + 1], orders + [order]) == EncodeContexts(stack[..i], orders) + EncodeContext(stack[i], order)
    decreases i
  {
    hide EncodeContext, IsOrder, ContextFits;
    var longer := orders + [order];
    assert forall k :: 0 <= k < i ==> longer[k] == orders[k] && stack[..i][k] == stack[..i + 1][k];
    if i == 0 {
      assert stack[..1][1..] == [] && longer[1..] == [];
    } else {
      assert stack[..i][1..] == stack[1..][..i - 1] && stack[..i + 1][1..] == stack[1..][..i];
      assert longer[1..] == orders[1..] + [order];
      ContextsNext(stack[1..], orders[1..], i - 1, order);
    }
  }

  /** `stack_serialize` */
  method SerializeStack(stack: seq<Context>) returns (data: array<byte>, ghost orders: seq<seq<Key>>)
    requires |stack| < 0x1_0000_0000 && forall c :: c in stack ==> ContextFits(c)
    ensures fresh(data) && AreOrders(orders, stack) && data[..] == EncodeStack(stack, orders)
  {
    hide EncodeU32, EncodeContexts, EncodeContext, AreOrders, ContextFits, IsOrder;
    data := Allocate(4);
    var offset := Append(data, 0, EncodeU32(|stack|));
    orders := [];
    NoContexts(stack);
    assert data[..4] == data[..];
    for i := 0 to |stack|
      invariant fresh(data) && AreOrders(orders, stack[..i])
      invariant forall c :: c in stack[..i] ==> ContextFits(c)
      invariant data[..] == EncodeU32(|stack|) + EncodeContexts(stack[..i], orders)
    {
      var context, order := SerializeContext(stack[i]);
      ghost var before, more := data[..], context[..];
      var byteSize := data.Length;
      data := Reallocate(data, byteSize + context.Length);
      assert data[..byteSize] == before;
      offset := Append(data, byteSize, context[..]);
      assert data[..] == data[..offset] == before + more;
      ContextsNext(stack, orders, i, order);
      orders := orders + [order];
    }
    assert stack[..|stack|] == stack;
  }

  lemma NoContexts(stack: seq<Context>)
    ensures AreOrders([], stack[..0]) && EncodeContexts(stack[..0], []) == []
  {
  }

  /** `stack_deserialize` */
  method DeserializeStack(b: seq<byte>, base: nat) returns (stack: seq<Context>, byteSize: nat)
    requires DecodeStack(b, base).Decoded?
    ensures DecodeStack(b, base) == Decoded(stack, base + byteSize)
  {
    hide ReadU32, DecodeContext;
    var stackCount := ReadU32(b, base);
    byteSize := 4;
    stack := [];
    for i := 0 to stackCount
      invariant DecodeContexts(b, base + byteSize, stackCount - i, stack) == DecodeStack(b, base)
    {
      var context, size := DeserializeContext(b, base + byteSize);
      stack := stack + [context];
      byteSize := byteSize + size;
    }
  }

  // ----- the block

  function Concat(fields: seq<seq<byte>>): seq<byte> {
    if fields == [] then [] else fields[0] + Concat(fields[1..])
  }

  lemma {:induction false} ConcatSplit(a: seq<seq<byte>>, b: seq<seq<byte>>)
    ensures Concat(a + b) == Concat(a) + Concat(b)
  {
    if a == [] {
      assert a + b == b;
    } else {
      assert (a + b)[1..] == a[1..] + b;
      ConcatSplit(a[1..], b);
    }
  }

  lemma ConcatNext(fields: seq<seq<byte>>, i: nat)
    requires i < |fields|
    ensures Concat(fields[..i + 1]) == Concat(fields[..i]) + fields[i]
    ensures |Concat(fields[..i + 1])| <= |Concat(fields)|
  {
    assert fields[..i + 1] == fields[..i] + [fields[i]];
    ConcatSplit(fields[..i], [fields[i]]);
    var last := [fields[i]];
    assert |last[1..]| == 0 && Concat(last) == fields[i] + Concat(last[1..]);
    assert fields == fields[..i + 1] + fields[i + 1..];
    ConcatSplit(fields[..i + 1], fields[i + 1..]);
  }

  /** The last two loops of `pcb_serialize`. */
  method Join(fields: seq<seq<byte>>) returns (data: array<byte>)
    ensures fresh(data) && data[..] == Concat(fields)
  {
    var size: nat := 0;
    for i := 0 to |fields|
      invariant size == |Concat(fields[..i])|
    {
      ConcatNext(fields, i);
      size := size + |fields[i]|;
    }
    assert fields[..|fields|] == fields;
    data := Allocate(size);
    var offset: nat := 0;
    for i := 0 to |fields|
      invariant offset == |Concat(fields[..i])| && offset <= size == data.Length
      invariant data[..offset] == Concat(fields[..i])
    {
      ConcatNext(fields, i);
      offset := Append(data, offset, fields[i]);
    }
    assert data[..offset] == data[..];
  }

  lemma FieldsJoined(a: seq<byte>, b: seq<byte>, c: seq<byte>, d: seq<byte>, e: seq<byte>, f: seq<byte>, g: seq<byte>,
                     h: seq<byte>, rest: seq<seq<byte>>)
    ensures Concat([a, b, c, d, e, f, g, h] + rest) == (a + (b + (c + (d + (e + (f + (g + h))))))) + Concat(rest)
  {
    ConcatSplit([a, b, c, d, e, f, g, h], rest);
    assert [a, b, c, d, e, f, g, h] == [a, b, c, d] + [e, f, g, h];
    ConcatSplit([a, b, c, d], [e, f, g, h]);
    ConcatFour(a, b, c, d);
    ConcatFour(e, f, g, h);
    hide Concat;
    assert (a + b + c + d) + (e + f + g + h) == a + (b + (c + (d + (e + (f + (g + h))))));
  }

  lemma ConcatFour(a: seq<byte>, b: seq<byte>, c: seq<byte>, d: seq<byte>)
    ensures Concat([a, b, c, d]) == a + b + c + d
  {
    var none: seq<seq<byte>> := [];
    assert [a, b, c, d][1..] == [b, c, d] && [b, c, d][1..] == [c, d] && [c, d][1..] == [d] && [d][1..] == none;
    assert Concat(none) == [] && Concat([d]) == d;
    assert Concat([c, d]) == c + d && Concat([b, c, d]) == b + (c + d);
  }

  lemma ConcatThree(a: seq<byte>, b: seq<byte>, c: seq<byte>)
    ensures Concat([a, b, c]) == a + (b + c)
  {
    var none: seq<seq<byte>> := [];
    assert [a, b, c][1..] == [b, c] && [b, c][1..] == [c] && [c][1..] == none;
    assert Concat(none) == [] && Concat([c]) == c;
  }

  /** `pcb_serialize` */
  method SerializePcb(p: Pcb) returns (data: array<byte>, ghost orders: seq<seq<Key>>)
    requires Fits(p)
    ensures fresh(data) && AreOrders(orders, p.stack) && data[..] == EncodePcb(p, orders)
  {
    hide EncodeU32, EncodeI32, EncodeArray, EncodeStack, EncodeInstruction, AreOrders, ContextFits, Truncated, Concat;
    InstructionSizes(p.code);
    var code := SerializeArray(p.code, INSTRUCTION_SIZE, EncodeInstruction);
    var stack;
    stack, orders := SerializeStack(p.stack);
    var fixed := [EncodeI32(p.pid), EncodeU32(Truncated(p.pc)), EncodeU32(Truncated(p.codePages)),
                  EncodeU32(Truncated(p.codeCount)), EncodeU32(Truncated(p.labelCount)),
                  EncodeU32(Truncated(p.stackPosition)), EncodeU32(Truncated(p.maxStackPosition)), EncodeI32(p.exitCode)];
    var rest := [code[..], p.labels[..p.labelCount], stack[..]];
    FieldsJoined(fixed[0], fixed[1], fixed[2], fixed[3], fixed[4], fixed[5], fixed[6], fixed[7], rest);
    ConcatThree(rest[0], rest[1], rest[2]);
    data := Join(fixed + rest);
    assert p.labels[..p.labelCount] == p.labels;
  }

  lemma InstructionSizes(code: seq<Instruction>)
    ensures forall i :: i in code ==> |EncodeInstruction(i)| == INSTRUCTION_SIZE
  {
  }

  /** `pcb_deserialize` */
  method DeserializePcb(b: seq<byte>) returns (p: Pcb)
    requires DecodePcb(b).Decoded?
    ensures DecodePcb(b) == Decoded(p, |b|)
  {
    hide DecodeArray, DecodeStack, DecodeInstruction, ReadI32, ReadU32;
    var pid, pc, codePages, codeCount := ReadI32(b, 0), ReadU32(b, 4), ReadU32(b, 8), ReadU32(b, 12);
    var labelCount, stackPosition, maxStackPosition := ReadU32(b, 16), ReadU32(b, 20), ReadU32(b, 24);
    var exitCode := ReadI32(b, 28);
    var offset := FIXED_SIZE;
    var code, codeSize := DeserializeArray(b, offset, INSTRUCTION_SIZE, DecodeInstruction);
    offset := offset + codeSize;
    var labels := b[offset..offset + labelCount];
    offset := offset + labelCount;
    var stack, stackSize := DeserializeStack(b, offset);
    offset := offset + stackSize;
    assert |b| == offset;
    p := Pcb(pid, pc, codePages, codeCount, labelCount, stackPosition, maxStackPosition, exitCode, code, labels, stack);
  }

  /** What `cpu_send_pcb` on one side and the reception on the other make of a block. */
  method Exchange(p: Pcb) returns (q: Pcb)
    requires Fits(p)
    ensures q == Normalize(p)
    ensures q == p <==> Narrow(p) && NoSentinel(p)
  {
    hide EncodePcb, DecodePcb, Fits, AreOrders, Normalize, Narrow, NoSentinel;
    var data, orders := SerializePcb(p);
    PcbRoundTrip(p, orders);
    SameBlockBack(p, orders);
    q := DeserializePcb(data[..]);
  }
}
