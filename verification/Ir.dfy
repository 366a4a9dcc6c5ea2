/** The block IR as the front end emits it, and what running it can be observed to do. */
module Ir {
  datatype Option<+T> = None | Some(value: T)

  /** An operand: nothing, a frame local by index, or a boolean constant in read-only data. */
  datatype Ref = NoRef | Local(i: nat) | ConstRef(b: bool)

  /** Labels are indices of blocks. `Do` is any instruction with an effect on program data and no result, `DoWith`
      one that also mentions an extern symbol, `Ext` a call of an extern proc, and `Eval` any instruction that
      produces a boolean. */
  datatype Instr =
    | Do(a: nat)
    | DoWith(a: nat, sym: nat)
    | Ext(sym: nat)
    | Eval(l: nat, dst: Ref)
    | Xor(dst: Ref, src: Ref)              // xor true, src -> dst
    | Mov(dst: Ref, src: Ref, size: nat)   // size is the byte size of the destination's type
    | Call(p: nat)
    | Jmp(target: nat)
    | Jmpz(cond: Ref, target: nat)
    | Jmpnz(cond: Ref, target: nat)
    | Ret(res: Ref)
    | Label(id: nat)
    | Comment

  /** What a run does to program data. The history of events stands for the data itself: everything the
      opaque instructions read is a function of what was done before. */
  datatype Event =
    | EvDo(a: nat)
    | EvExt(sym: nat)
    | EvLeaf(l: nat, b: bool)
    | EvCall(p: nat)
    | EvRet(v: Option<bool>)

  type Trace = seq<Event>

  /** The outcome of a leaf, given everything that happened before. */
  type Oracle = (nat, Trace) -> bool

  type Temps = map<nat, bool>

  /** Every extern symbol that some code calls or mentions is one of those with an address. */
  ghost predicate Known(st: seq<Instr>, natives: set<nat>) {
    && (forall s | Ext(s) in st :: s in natives)
    && (forall a, s | DoWith(a, s) in st :: s in natives)
  }

  predicate HasTarget(i: Instr) { i.Jmp? || i.Jmpz? || i.Jmpnz? }

  /** The value of an operand; a fresh frame is zeroed. */
  function Value(r: Ref, m: Temps): bool {
    match r
    case NoRef => false
    case ConstRef(b) => b
    case Local(i) => if i in m then m[i] else false
  }

  function Assign(r: Ref, v: bool, m: Temps): Temps {
    if r.Local? then m[r.i := v] else m
  }

  function RetValue(r: Ref, m: Temps): Option<bool> {
    if r.NoRef? then None else Some(Value(r, m))
  }

  /** Trace and locals together: the state of one activation. */
  datatype State = State(tr: Trace, m: Temps)

  /** Effect of the instructions that neither jump, call nor return. */
  function Effect(w: Oracle, i: Instr, s: State): State {
    match i
    case Do(a) => s.(tr := s.tr + [EvDo(a)])
    case DoWith(a, _) => s.(tr := s.tr + [EvDo(a)])
    case Ext(sym) => s.(tr := s.tr + [EvExt(sym)])
    case Eval(l, dst) =>
      var b := w(l, s.tr);
      State(s.tr + [EvLeaf(l, b)], Assign(dst, b, s.m))
    case Xor(dst, src) => s.(m := Assign(dst, !Value(src, s.m), s.m))
    case Mov(dst, src, size) => if size == 0 then s else s.(m := Assign(dst, Value(src, s.m), s.m))
    case _ => s
  }
}
