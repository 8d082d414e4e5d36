/** The comparison of two control blocks: when it accepts, when it rejects, and when it
    follows a null pointer (Kernel/src/functions/serialization.c, the `*_compare` functions). */
module PcbCompare {
  import opened Wrappers
  import opened Pcb

  datatype Verdict = Same | Differ | Fault

  /** `position_compare` checks for a missing original, not for a missing copy. */
  function PositionVerdict(original: Option<Position>, copy: Option<Position>): Verdict {
    if original.None? then (if copy.None? then Same else Differ)
    else if copy.None? then Fault
    else if original == copy then Same else Differ
  }

  function ContextVerdict(original: Context, copy: Context): Verdict {
    if original.(retVar := None) != copy.(retVar := None) then Differ
    else PositionVerdict(original.retVar, copy.retVar)
  }

  /** The verdict on the first contexts that are not the same. */
  function StackVerdict(original: seq<Context>, copy: seq<Context>): Verdict
    requires |original| == |copy|
  {
    if original == [] then Same
    else
      var first := ContextVerdict(original[0], copy[0]);
      if first != Same then first else StackVerdict(original[1..], copy[1..])
  }

  function PcbVerdict(original: Pcb, copy: Pcb): Verdict {
    if original.(stack := []) != copy.(stack := []) || |original.stack| != |copy.stack| then Differ
    else StackVerdict(original.stack, copy.stack)
  }

  // ----- the functions

  method ComparePosition(original: Option<Position>, copy: Option<Position>) returns (v: Verdict)
    ensures v == PositionVerdict(original, copy)
  {
    if original.None? {
      return if copy.None? then Same else Differ;
    }
    if copy.None? {
      return Fault;
    }
    var same := original.value.page == copy.value.page && original.value.off == copy.value.off &&
      original.value.size == copy.value.size;
    return if same then Same else Differ;
  }

  /** `dictionary_compare`, in whatever order the original is iterated. */
  method CompareDict(original: map<Key, Position>, copy: map<Key, Position>) returns (same: bool)
    ensures same <==> original == copy
  {
    if |original| != |copy| {
      assert original.Keys == copy.Keys ==> |original.Keys| == |copy.Keys|;
      return false;
    }
    same := true;
    var rest := original.Keys;
    while rest != {}
      invariant rest <= original.Keys
      invariant same <==> forall k :: k in original && k !in rest ==> k in copy && original[k] == copy[k]
      decreases |rest|
    {
      var k :| k in rest;
      rest := rest - {k};
      if same {
        same := k in copy && original[k] == copy[k];
      }
    }
    if same {
      SameSizeSameMap(original, copy);
    }
  }

  lemma SameSizeSameMap(a: map<Key, Position>, b: map<Key, Position>)
    requires |a| == |b| && forall k :: k in a ==> k in b && a[k] == b[k]
    ensures a == b
  {
    assert a.Keys <= b.Keys;
    assert |b.Keys - a.Keys| == |b.Keys| - |a.Keys|;
    assert a.Keys == b.Keys;
  }

  method CompareContext(original: Context, copy: Context) returns (v: Verdict)
    ensures v == ContextVerdict(original, copy)
  {
    var same := CompareDict(original.vars, copy.vars);
    if !same {
      return Differ;
    }
    if |original.args| != |copy.args| {
      return Differ;
    }
    for i := 0 to |original.args|
      invariant original.args[..i] == copy.args[..i]
    {
      v := ComparePosition(Some(original.args[i]), Some(copy.args[i]));
      if v != Same {
        return v;
      }
      assert original.args[i] == copy.args[i];
    }
    assert original.args == original.args[..|original.args|] == copy.args;
    if original.retPos != copy.retPos {
      return Differ;
    }
    v := ComparePosition(original.retVar, copy.retVar);
  }

  method CompareStack(original: seq<Context>, copy: seq<Context>) returns (v: Verdict)
    ensures v == if |original| != |copy| then Differ else StackVerdict(original, copy)
  {
    if |original| != |copy| {
      return Differ;
    }
    for i := 0 to |original|
      invariant StackVerdict(original[i..], copy[i..]) == StackVerdict(original, copy)
    {
      v := CompareContext(original[i], copy[i]);
      assert original[i..][1..] == original[i + 1..] && copy[i..][1..] == copy[i + 1..];
      if v != Same {
        return v;
      }
    }
    v := Same;
  }

  method ComparePcb(original: Pcb, copy: Pcb) returns (v: Verdict)
    requires Fits(original) && Fits(copy)
    ensures v == PcbVerdict(original, copy)
  {
    if original.pid != copy.pid || original.pc != copy.pc || original.codePages != copy.codePages ||
       original.codeCount != copy.codeCount || original.labelCount != copy.labelCount ||
       original.stackPosition != copy.stackPosition || original.maxStackPosition != copy.maxStackPosition ||
       original.exitCode != copy.exitCode
    {
      return Differ;
    }
    for i := 0 to original.codeCount
      invariant original.code[..i] == copy.code[..i]
    {
      if original.code[i].start != copy.code[i].start || original.code[i].offset != copy.code[i].offset {
        return Differ;
      }
      assert original.code[i] == copy.code[i];
    }
    assert original.code == original.code[..|original.code|] == copy.code;
    for i := 0 to original.labelCount
      invariant original.labels[..i] == copy.labels[..i]
    {
      if original.labels[i] != copy.labels[i] {
        return Differ;
      }
    }
    assert original.labels == original.labels[..|original.labels|] == copy.labels;
    v := CompareStack(original.stack, copy.stack);
  }

  // ----- what the verdicts mean

  lemma {:induction false} StackSame(a: seq<Context>, b: seq<Context>)
    requires |a| == |b|
    ensures StackVerdict(a, b) == Same <==> a == b
  {
    if a != [] {
      assert a == [a[0]] + a[1..] && b == [b[0]] + b[1..];
      StackSame(a[1..], b[1..]);
    }
  }

  /** Only equal blocks are accepted, and equal blocks always are. */
  lemma AcceptsEqual(a: Pcb, b: Pcb)
    ensures PcbVerdict(a, b) == Same <==> a == b
  {
    if |a.stack| == |b.stack| {
      StackSame(a.stack, b.stack);
    }
    hide StackVerdict;
    assert a == b <==> a.(stack := []) == b.(stack := []) && a.stack == b.stack;
  }

  lemma {:induction false} NormalizedStackVerdict(stack: seq<Context>)
    ensures StackVerdict(stack, NormalizeStack(stack)) ==
            if exists i :: 0 <= i < |stack| && stack[i].retVar == Some(MISSING) then Fault else Same
  {
    if stack != [] {
      NormalizedStackVerdict(stack[1..]);
      assert NormalizeStack(stack)[1..] == NormalizeStack(stack[1..]);
      if i :| 0 <= i < |stack| && stack[i].retVar == Some(MISSING) {
        assert i > 0 ==> stack[1..][i - 1].retVar == Some(MISSING);
      }
      if i :| 0 <= i < |stack| - 1 && stack[1..][i].retVar == Some(MISSING) {
        assert stack[i + 1].retVar == Some(MISSING);
      }
    }
  }

  /** A block compared with what came back of it is accepted when its fields fit 32 bits
      and no return position is the sentinel; a sentinel makes the comparison follow a null
      pointer. */
  lemma RoundTripVerdict(p: Pcb)
    ensures PcbVerdict(p, Normalize(p)) == if !Narrow(p) then Differ else if NoSentinel(p) then Same else Fault
  {
    NormalizedStackVerdict(p.stack);
    hide StackVerdict, NormalizeStack;
  }
}
