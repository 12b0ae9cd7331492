/** Basic blocks, the machine that runs them, and the builder that places
    instructions and moves its insert point. */
module BasicBlocks {
  import opened Structured

  type Reg = nat
  type Label = nat

  datatype Inst =
    | Const(dst: Reg, b: bool)
    | Eval(dst: Reg, id: nat)
    | Not(dst: Reg, src: Reg)
    | Compare(dst: Reg, callee: nat, lhs: Reg, rhs: Reg)
    | Pack(dst: Reg, srcs: seq<Reg>)
    | Br(dest: Label)
    | CondBr(cond: Reg, ifTrue: Label, ifFalse: Label)
    | Ret(src: Reg)
    | Unreachable

  type Block = seq<Inst>

  // ---------- running blocks ----------

  datatype Machine =
    | Running(block: Label, pc: nat, regs: map<Reg, Value>, h: History)
    | Halted(v: Value, h: History)
    | Trapped(h: History)     // `unreachable`, an undefined register, or the end of an open block

  function Step(w: World, code: seq<Block>, m: Machine): Machine {
    if !m.Running? then m
    else if m.block >= |code| || m.pc >= |code[m.block]| then Trapped(m.h)
    else
      match code[m.block][m.pc]
      case Const(dst, b) => m.(pc := m.pc + 1, regs := m.regs[dst := Truth(b)])
      case Eval(dst, id) =>
        var v := w.value(m.h, id);
        Running(m.block, m.pc + 1, m.regs[dst := v], m.h + [Evaluated(id, v)])
      case Not(dst, src) =>
        if src !in m.regs then Trapped(m.h)
        else m.(pc := m.pc + 1, regs := m.regs[dst := Truth(!IsTrue(m.regs[src]))])
      case Compare(dst, callee, lhs, rhs) =>
        if lhs !in m.regs || rhs !in m.regs then Trapped(m.h)
        else
          var eq := w.equal(m.h, callee, m.regs[lhs], m.regs[rhs]);
          Running(m.block, m.pc + 1, m.regs[dst := Truth(eq)],
                  m.h + [Compared(callee, m.regs[lhs], m.regs[rhs], eq)])
      case Pack(dst, srcs) =>
        if exists i :: 0 <= i < |srcs| && srcs[i] !in m.regs then Trapped(m.h)
        else m.(pc := m.pc + 1,
                regs := m.regs[dst := Tuple(seq(|srcs|, i requires 0 <= i < |srcs| => m.regs[srcs[i]]))])
      case Br(dest) => m.(block := dest, pc := 0)
      case CondBr(cond, ifTrue, ifFalse) =>
        if cond !in m.regs then Trapped(m.h)
        else m.(block := if IsTrue(m.regs[cond]) then ifTrue else ifFalse, pc := 0)
      case Ret(src) => if src in m.regs then Halted(m.regs[src], m.h) else Trapped(m.h)
      case Unreachable => Trapped(m.h)
  }

  function Run(w: World, code: seq<Block>, m: Machine, k: nat): Machine
    decreases k
  {
    if k == 0 then m else Run(w, code, Step(w, code, m), k - 1)
  }

  lemma {:induction false} RunAdd(w: World, code: seq<Block>, m: Machine, k: nat, l: nat)
    ensures Run(w, code, Run(w, code, m, k), l) == Run(w, code, m, k + l)
    decreases k
  {
    if k > 0 { RunAdd(w, code, Step(w, code, m), k - 1, l); }
  }

  lemma {:induction false} RunStopped(w: World, code: seq<Block>, m: Machine, k: nat)
    requires !m.Running?
    ensures Run(w, code, m, k) == m
    decreases k
  {
    if k > 0 { RunStopped(w, code, m, k - 1); }
  }

  // ---------- a function under construction ----------

  predicate IsTerminator(i: Inst) { i.Br? || i.CondBr? || i.Ret? || i.Unreachable? }

  /** LLVM's `getTerminator`: the last instruction, when it is a terminator. */
  predicate Terminated(b: Block) { b != [] && IsTerminator(b[|b| - 1]) }

  predicate TargetsBelow(i: Inst, n: nat) {
    match i
    case Br(d) => d < n
    case CondBr(_, t, e) => t < n && e < n
    case _ => true
  }

  /** Nothing follows a terminator, and branches go to existing blocks. */
  ghost predicate WellFormed(b: Block, n: nat) {
    forall j :: 0 <= j < |b| ==> TargetsBelow(b[j], n) && (IsTerminator(b[j]) ==> j == |b| - 1)
  }

  /** Every created block, the order of those attached to the function, the insert
      point, and the next unused register. */
  datatype Fn = Fn(blocks: seq<Block>, layout: seq<Label>, cur: Label, next: Reg)

  predicate Valid(f: Fn) { f.cur < |f.blocks| }

  predicate Open(f: Fn)
    requires Valid(f)
  {
    !Terminated(f.blocks[f.cur])
  }

  function Place(f: Fn, i: Inst): (r: Fn)
    requires Valid(f)
  {
    f.(blocks := f.blocks[f.cur := f.blocks[f.cur] + [i]])
  }

  /** A block that is created but belongs to no function yet. */
  function Create(f: Fn): Fn { f.(blocks := f.blocks + [[]]) }

  /** A block created at the end of the function. */
  function CreateInParent(f: Fn): Fn {
    f.(blocks := f.blocks + [[]], layout := f.layout + [|f.blocks|])
  }

  function MoveTo(f: Fn, b: Label): Fn { f.(cur := b) }

  function InsertAfter(layout: seq<Label>, at: Label, b: Label): seq<Label> {
    if layout == [] then [b]
    else if layout[0] == at then [at, b] + layout[1..]
    else [layout[0]] + InsertAfter(layout[1..], at, b)
  }

  /** Attach `b` behind the insert block, then insert into `b`. */
  function Append(f: Fn, b: Label): Fn {
    f.(layout := InsertAfter(f.layout, f.cur, b), cur := b)
  }

  /** A branch, unless the insert block has a terminator already. */
  function TerminateWithBr(f: Fn, dest: Label): Fn
    requires Valid(f)
  {
    if Open(f) then Place(f, Br(dest)) else f
  }

  lemma {:induction false} InsertAfterContents(layout: seq<Label>, at: Label, b: Label)
    requires at in layout
    ensures forall x :: x in InsertAfter(layout, at, b) <==> x in layout || x == b
    ensures multiset(InsertAfter(layout, at, b)) == multiset(layout) + multiset{b}
    ensures layout[0] == InsertAfter(layout, at, b)[0]
  {
    assert layout == [layout[0]] + layout[1..];
    if layout[0] != at {
      InsertAfterContents(layout[1..], at, b);
    } else {
      assert InsertAfter(layout, at, b) == [at, b] + layout[1..];
    }
  }

  /** The block goes right behind the one that was asked for. */
  lemma {:induction false} InsertedBehind(layout: seq<Label>, i: nat, b: Label)
    requires i < |layout| && layout[i] !in layout[..i]
    ensures InsertAfter(layout, layout[i], b) == layout[..i + 1] + [b] + layout[i + 1..]
    decreases layout
  {
    if i > 0 {
      assert layout[0] == layout[..i][0];
      assert layout[1..][..i - 1] == layout[..i][1..];
      InsertedBehind(layout[1..], i - 1, b);
      assert layout[..i + 1] == [layout[0]] + layout[1..][..i];
    }
  }
}
