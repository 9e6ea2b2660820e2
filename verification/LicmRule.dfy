/** Which instructions the hoisting rule is about, in terms of what they do instead of their opcodes. */
module LicmRule {
  import Bits
  import opened Ir
  import opened Semantics
  import opened Memory
  import opened Licm

  /** The answer for these operands depends on nothing else, and the world stays as it is. */
  ghost predicate WorldFree(i: Instr) {
    forall inp: Input, a: seq<int>, w: World, w': World :: |a| == |i.args| ==>
      var r, r' := Eval(inp, i.op, i.ty, a, w), Eval(inp, i.op, i.ty, a, w');
      if r.Value? then r'.Value? && r'.v == r.v && r.w == w else r' == r
  }

  /** Whatever the values of the operands that are no literals, there is an answer. */
  ghost predicate NeverFaults(i: Instr) {
    forall inp: Input, a: seq<int>, w: World ::
      |a| == |i.args| && (forall k :: 0 <= k < |a| && i.args[k].Lit? ==> a[k] == i.args[k].val) ==>
        Eval(inp, i.op, i.ty, a, w).Value?
  }

  /** An instruction that produces a value, with the operands its operation takes; accesses have a size. */
  predicate ValueProducing(i: Instr) {
    && !i.ty.Void? && !i.op.Dbg?
    && (Arity(i.op).Some? ==> Arity(i.op).value == |i.args|)
    && (i.op.Load? || i.op.Store? ==> i.op.bytes > 0)
  }

  function SomeInput(): Input {
    Input(k => 0, k => 0, map[], (c, a, w) => Reply(0, map[]))
  }

  lemma LoadLooks(n: nat)
    requires n > 0
    ensures ReadBytes(map[], 0, n) != ReadBytes(map[0 := 1], 0, n)
  {
    assert ReadBytes(map[], 0, n) == 256 * ReadBytes(map[], 1, n - 1);
    assert ReadBytes(map[0 := 1], 0, n) == 1 + 256 * ReadBytes(map[0 := 1], 1, n - 1);
  }

  /** Loads, stores and calls read or change the world. */
  lemma TouchesWorld(i: Instr)
    requires ValueProducing(i) && (i.op.Load? || i.op.Store? || i.op.Call?)
    ensures !WorldFree(i)
  {
    var inp := SomeInput();
    var w, w' := World(map[], []), World(map[0 := 1], []);
    var a := seq(|i.args|, k => 0);
    var r, r' := Eval(inp, i.op, i.ty, a, w), Eval(inp, i.op, i.ty, a, w');
    if i.op.Load? {
      LoadLooks(i.op.bytes);
    } else if i.op.Store? {
      WriteKeys(map[], 0, i.op.bytes, 0);
      assert 0 in WriteBytes(map[], 0, i.op.bytes, 0);
    } else {
      assert |r.w.hist| == 1;
    }
    assert r.Value? && !(r'.Value? && r'.v == r.v && r.w == w);
  }

  lemma ArithmeticIsWorldFree(i: Instr)
    requires ValueProducing(i) && !(i.op.Load? || i.op.Store? || i.op.Call?)
    ensures WorldFree(i) && Eligible(i)
  {
  }

  /** A value-producing instruction is eligible if and only if it neither reads nor changes anything but its operands. */
  lemma EligibleIff(i: Instr)
    requires ValueProducing(i)
    ensures Eligible(i) <==> WorldFree(i)
  {
    if i.op.Load? || i.op.Store? || i.op.Call? {
      TouchesWorld(i);
    } else {
      ArithmeticIsWorldFree(i);
    }
  }

  /** Operands that agree with the literals, a division's divisor being zero unless it is one of them. */
  function Zeros(i: Instr): seq<int> {
    seq(|i.args|, k requires 0 <= k < |i.args| => if i.args[k].Lit? then i.args[k].val else 0)
  }

  lemma WrapZero(w: nat)
    ensures Bits.Wrap(0, w) == 0
  {
    Bits.WrapSmall(0, w);
  }

  /** An eligible instruction may be executed speculatively if and only if it never faults. */
  lemma SpeculatableIff(i: Instr)
    requires Eligible(i)
    ensures Speculatable(i) <==> NeverFaults(i)
  {
    if Speculatable(i) {
      forall inp: Input, a: seq<int>, w: World |
        |a| == |i.args| && (forall k :: 0 <= k < |a| && i.args[k].Lit? ==> a[k] == i.args[k].val)
        ensures Eval(inp, i.op, i.ty, a, w).Value?
      {
        PureEval(inp, i, a, w);
      }
    } else {
      var w := World(map[], []);
      WrapZero(Width(i.ty));
      assert !Eval(SomeInput(), i.op, i.ty, Zeros(i), w).Value?;
    }
  }
}
