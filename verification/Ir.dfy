/**
 A small SSA intermediate representation: functions made of labelled basic blocks,
 each with PHI nodes, a straight-line body and one terminator.
 */
module Ir {

  type Id = nat
  type Label = nat

  datatype Option<+T> = None | Some(value: T)

  datatype Ty = Void | Int(width: nat) | Ptr

  /** Literals, parameters and globals are available everywhere; Local is the result of an instruction. */
  datatype Operand = Lit(val: int) | Arg(index: nat) | Global(index: nat) | Local(id: Id)

  datatype Op =
    | Add | Sub | Mul | UDiv | And | Or | Xor
    | CmpEq | CmpUlt
    | Cast
    | Load(bytes: nat) | Store(bytes: nat)
    | Call(callee: nat)
    | Dbg

  datatype Instr = Instr(id: Id, op: Op, ty: Ty, args: seq<Operand>)

  datatype Edge = Edge(from: Label, val: Operand)

  datatype Phi = Phi(id: Id, ty: Ty, edges: seq<Edge>)

  datatype Case = Case(key: int, dest: Label)

  datatype Term =
    | Br(dest: Label)
    | CondBr(cond: Operand, ifTrue: Label, ifFalse: Label)
    | Switch(on: Operand, default: Label, cases: seq<Case>)
    | IndirectBr(addr: Operand, dests: seq<Label>)
    | Ret(val: Operand)
    | Unreachable

  datatype Block = Block(phis: seq<Phi>, body: seq<Instr>, term: Term)

  /** nextId and nextLabel bound every name in use, so they supply fresh ones. */
  datatype Fn = Fn(params: seq<Ty>, globals: seq<Ty>, entry: Label,
                   blocks: map<Label, Block>, nextId: Id, nextLabel: Label)

  /** The labels a terminator can jump to. */
  function Succs(t: Term): set<Label> {
    match t
    case Br(d) => {d}
    case CondBr(_, a, b) => {a, b}
    case Switch(_, d, cases) => {d} + set k | 0 <= k < |cases| :: cases[k].dest
    case IndirectBr(_, dests) => set k | 0 <= k < |dests| :: dests[k]
    case Ret(_) => {}
    case Unreachable => {}
  }

  /** The values a terminator reads. */
  function TermArgs(t: Term): seq<Operand> {
    match t
    case Br(_) => []
    case CondBr(c, _, _) => [c]
    case Switch(v, _, _) => [v]
    case IndirectBr(a, _) => [a]
    case Ret(v) => [v]
    case Unreachable => []
  }

  function Preds(f: Fn, l: Label): set<Label> {
    set p | p in f.blocks && l in Succs(f.blocks[p].term)
  }

  /** The PHI's value for an incoming edge: the first entry for that block. */
  function Incoming(edges: seq<Edge>, from: Label): Option<Operand> {
    if edges == [] then None
    else if edges[0].from == from then Some(edges[0].val)
    else Incoming(edges[1..], from)
  }

  /** The instruction ids that produce a value among the first k instructions. */
  function BodyDefs(body: seq<Instr>, k: nat): set<Id>
    requires k <= |body|
  {
    set j | 0 <= j < k && !body[j].ty.Void? :: body[j].id
  }

  function PhiDefs(phis: seq<Phi>): set<Id> {
    set j | 0 <= j < |phis| :: phis[j].id
  }

  /** The values defined by a block once its PHIs and the first k body instructions have run. */
  function DefsUpTo(b: Block, k: nat): set<Id>
    requires k <= |b.body|
  {
    PhiDefs(b.phis) + BodyDefs(b.body, k)
  }

  function Defs(b: Block): set<Id> {
    DefsUpTo(b, |b.body|)
  }

  /** The instructions whose ids are not listed. */
  function Without(body: seq<Instr>, ids: set<Id>): seq<Instr> {
    if body == [] then []
    else (if body[0].id in ids then [] else [body[0]]) + Without(body[1..], ids)
  }
}
