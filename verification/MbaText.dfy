/** What the substitutions leave, read off the rewritten instructions. */
module MbaText {
  import opened Ir
  import opened Mba

  ghost predicate ByteSum(i: Instr) {
    i.op == Add && i.ty == Int(8) && |i.args| == 2
  }

  ghost predicate IntDifference(i: Instr) {
    i.op == Sub && i.ty.Int? && |i.args| == 2
  }

  /** ((((a ^ b) + 2 * (a & b)) * 39 + 23) * 151) + 111 under the name of the sum of a and b, by way of n to n + 6. */
  ghost predicate SumText(i: Instr, n: Id, piece: seq<Instr>)
    requires ByteSum(i)
  {
    var a, b, t := i.args[0], i.args[1], Int(8);
    && |piece| == 8
    && piece[0] == Instr(n, Xor, t, [a, b])
    && piece[1] == Instr(n + 1, And, t, [a, b])
    && piece[2] == Instr(n + 2, Mul, t, [Lit(2), Local(n + 1)])
    && piece[3] == Instr(n + 3, Add, t, [Local(n), Local(n + 2)])
    && piece[4] == Instr(n + 4, Mul, t, [Lit(39), Local(n + 3)])
    && piece[5] == Instr(n + 5, Add, t, [Lit(23), Local(n + 4)])
    && piece[6] == Instr(n + 6, Mul, t, [Lit(151), Local(n + 5)])
    && piece[7] == Instr(i.id, Add, t, [Lit(111), Local(n + 6)])
  }

  /** (a + ~b) + 1 under the name of the difference of a and b, by way of n and n + 1. */
  ghost predicate DifferenceText(i: Instr, n: Id, piece: seq<Instr>)
    requires IntDifference(i)
  {
    var a, b := i.args[0], i.args[1];
    && |piece| == 3
    && piece[0] == Instr(n, Xor, i.ty, [b, Lit(-1)])
    && piece[1] == Instr(n + 1, Add, i.ty, [a, Local(n)])
    && piece[2] == Instr(i.id, Add, i.ty, [Local(n + 1), Lit(1)])
  }

  /** What stands for the instruction: its substitution on names not below low, or the instruction itself. */
  ghost predicate PieceText(r: Rule, i: Instr, low: Id, piece: seq<Instr>) {
    if r == AddRule && ByteSum(i) then exists n :: n >= low && SumText(i, n, piece)
    else if r == SubRule && IntDifference(i) then exists n :: n >= low && DifferenceText(i, n, piece)
    else piece == [i]
  }

  /** The k-th part of the body, cut at these positions, stands for the k-th instruction. */
  ghost predicate PartText(r: Rule, orig: seq<Instr>, low: Id, body: seq<Instr>, at: seq<nat>, k: nat)
    requires k < |orig| && |at| == |orig| + 1
  {
    at[k] <= at[k + 1] <= |body| && PieceText(r, orig[k], low, body[at[k]..at[k + 1]])
  }

  /** The body cut at these positions gives what stands for each of the original instructions, in order. */
  ghost predicate CutAt(r: Rule, orig: seq<Instr>, low: Id, body: seq<Instr>, at: seq<nat>) {
    && |at| == |orig| + 1 && at[0] == 0 && at[|orig|] == |body|
    && forall k :: 0 <= k < |orig| ==> PartText(r, orig, low, body, at, k)
  }

  ghost predicate BodyText(r: Rule, orig: seq<Instr>, low: Id, body: seq<Instr>) {
    exists at :: CutAt(r, orig, low, body, at)
  }

  lemma PieceIs(r: Rule, i: Instr, low: Id, n: Id)
    requires n >= low
    ensures PieceText(r, i, low, Piece(r, i, n))
  {
    if r == AddRule && ByteSum(i) {
      assert SumText(i, n, Piece(r, i, n));
    } else if r == SubRule && IntDifference(i) {
      assert DifferenceText(i, n, Piece(r, i, n));
    }
  }

  lemma PartKept(r: Rule, orig: seq<Instr>, i: Instr, low: Id, body: seq<Instr>, piece: seq<Instr>, at: seq<nat>, k: nat)
    requires k < |orig| && |at| == |orig| + 1 && PartText(r, orig, low, body, at, k)
    ensures PartText(r, orig + [i], low, body + piece, at + [|body| + |piece|], k)
  {
    hide PieceText;
    assert (body + piece)[at[k]..at[k + 1]] == body[at[k]..at[k + 1]];
  }

  lemma CutMore(r: Rule, orig: seq<Instr>, i: Instr, low: Id, body: seq<Instr>, piece: seq<Instr>, at: seq<nat>)
    requires CutAt(r, orig, low, body, at) && PieceText(r, i, low, piece)
    ensures CutAt(r, orig + [i], low, body + piece, at + [|body| + |piece|])
  {
    var n, all, cuts := |orig|, body + piece, at + [|body| + |piece|];
    hide PieceText;
    assert PartText(r, orig + [i], low, all, cuts, n) by {
      assert all[cuts[n]..cuts[n + 1]] == piece;
    }
    forall k | 0 <= k < n
      ensures PartText(r, orig + [i], low, all, cuts, k)
    {
      PartKept(r, orig, i, low, body, piece, at, k);
    }
  }

  lemma {:induction false} RewriteText(r: Rule, orig: seq<Instr>, low: Id, n: Id)
    requires n >= low
    ensures BodyText(r, orig, low, Rewrite(r, orig, n))
    decreases |orig|
  {
    hide PieceText, Piece, After;
    if orig == [] {
      assert CutAt(r, orig, low, [], [0]);
    } else {
      var front, last := orig[..|orig| - 1], orig[|orig| - 1];
      RewriteText(r, front, low, n);
      var at :| CutAt(r, front, low, Rewrite(r, front, n), at);
      var m := After(r, front, n);
      hide CutAt;
      PieceIs(r, last, low, m);
      CutMore(r, front, last, low, Rewrite(r, front, n), Piece(r, last, m), at);
      assert front + [last] == orig;
    }
  }

  /** Where an instruction of the body comes from. */
  lemma CutHolds(r: Rule, orig: seq<Instr>, low: Id, body: seq<Instr>, at: seq<nat>, m: nat, n: nat) returns (k: nat)
    requires CutAt(r, orig, low, body, at) && n <= |orig| && m < at[n]
    ensures k < n && at[k] <= m < at[k + 1]
    decreases n
  {
    hide PieceText;
    assert PartText(r, orig, low, body, at, n - 1);
    if m >= at[n - 1] {
      k := n - 1;
    } else {
      k := CutHolds(r, orig, low, body, at, m, n - 1);
    }
  }

  /** After the subtraction pass no integer subtraction is left. */
  lemma NoDifferenceLeft(orig: seq<Instr>, low: Id, body: seq<Instr>, c: Instr)
    requires BodyText(SubRule, orig, low, body) && c in body
    ensures !IntDifference(c)
  {
    var at :| CutAt(SubRule, orig, low, body, at);
    var m :| 0 <= m < |body| && body[m] == c;
    var k := CutHolds(SubRule, orig, low, body, at, m, |orig|);
    assert PartText(SubRule, orig, low, body, at, k);
    var piece := body[at[k]..at[k + 1]];
    assert piece[m - at[k]] == c && PieceText(SubRule, orig[k], low, piece);
  }

  // How many there are

  ghost predicate Substituted(r: Rule, i: Instr) {
    (r == AddRule && ByteSum(i)) || (r == SubRule && IntDifference(i))
  }

  /** The positions of the instructions to substitute. */
  ghost function Spots(r: Rule, body: seq<Instr>): set<nat> {
    set k: nat | k < |body| && Substituted(r, body[k])
  }

  lemma {:induction false} CountIs(r: Rule, body: seq<Instr>)
    ensures Count(r, body) == |Spots(r, body)|
    decreases |body|
  {
    if body == [] {
      assert Spots(r, body) == {};
    } else {
      var n := |body| - 1;
      CountIs(r, body[..n]);
      if Substituted(r, body[n]) {
        assert Spots(r, body) == Spots(r, body[..n]) + {n};
      } else {
        assert Spots(r, body) == Spots(r, body[..n]);
      }
    }
  }
}
