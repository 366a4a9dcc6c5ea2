/** Linear bytecode: blocks flattened, comments dropped, jumps to the next block left out, labels replaced
    by instruction positions. */
module Bytecode {
  import opened Ir
  import opened Machine

  /** A bytecode instruction; A is whatever identifies a callee. */
  datatype Bc<A> =
    | Plain(i: Instr)
    | Goto(pc: nat)
    | GotoZ(cond: Ref, pc: nat)
    | GotoNz(cond: Ref, pc: nat)
    | Enter(callee: A)
    | Leave(res: Ref)

  /** Which instructions survive: no labels or comments, and no jump to the label that comes next. */
  predicate Keeps(st: seq<Instr>, i: nat)
    requires i < |st|
  {
    match st[i]
    case Label(_) => false
    case Comment => false
    case Jmp(l) => NextLabel(st, i + 1) != Some(l)
    case _ => true
  }

  /** The first label at or behind a position. */
  function NextLabel(st: seq<Instr>, i: nat): Option<nat>
    decreases |st| - i
  {
    if i >= |st| then None else if st[i].Label? then Some(st[i].id) else NextLabel(st, i + 1)
  }

  function KeptUpTo(st: seq<Instr>, n: nat): seq<Instr>
    requires n <= |st|
  {
    if n == 0 then [] else KeptUpTo(st, n - 1) + (if Keeps(st, n - 1) then [st[n - 1]] else [])
  }

  function Min(a: nat, b: nat): nat { if a < b then a else b }

  /** The bytecode position of a stream position. */
  function PcOf(st: seq<Instr>, n: nat): nat { |KeptUpTo(st, Min(n, |st|))| }

  /** Label l is the first one at or behind a position, namely at j. */
  ghost predicate FirstLabel(st: seq<Instr>, i: nat, j: nat, l: nat) {
    i <= j < |st| && st[j] == Label(l) && forall k | i <= k < j :: !st[k].Label?
  }

  ghost predicate ComesNext(st: seq<Instr>, i: nat, l: nat) { exists j: nat :: FirstLabel(st, i, j, l) }

  lemma {:induction false} NextLabelIs(st: seq<Instr>, i: nat, l: nat)
    ensures NextLabel(st, i) == Some(l) <==> ComesNext(st, i, l)
    decreases |st| - i
  {
    if i < |st| {
      NextLabelIs(st, i + 1, l);
      forall j: nat | FirstLabel(st, i, j, l) ensures if st[i].Label? then j == i else FirstLabel(st, i + 1, j, l) {
        if j > i { assert !st[i].Label?; }
      }
      if st[i] == Label(l) {
        assert FirstLabel(st, i, i, l);
      } else if !st[i].Label? && NextLabel(st, i) == Some(l) {
        var j: nat :| FirstLabel(st, i + 1, j, l);
        assert FirstLabel(st, i, j, l);
      }
    }
  }

  /** An instruction leaves no bytecode exactly if it is a label, a comment, or a jump to the label that comes next. */
  lemma LeavesNothing(st: seq<Instr>, i: nat)
    requires i < |st|
    ensures PcOf(st, i + 1) == PcOf(st, i) <==>
              || st[i].Label? || st[i] == Comment
              || (st[i].Jmp? && ComesNext(st, i + 1, st[i].target))
    ensures PcOf(st, i) <= PcOf(st, i + 1) <= PcOf(st, i) + 1
  {
    if st[i].Jmp? { NextLabelIs(st, i + 1, st[i].target); }
    hide NextLabel, ComesNext;
  }

  function LabelPc(st: seq<Instr>, l: nat): nat { PcOf(st, Find(st, l)) }

  function Final(st: seq<Instr>, i: Instr): Bc<nat> {
    match i
    case Jmp(l) => Goto(LabelPc(st, l))
    case Jmpz(c, l) => GotoZ(c, LabelPc(st, l))
    case Jmpnz(c, l) => GotoNz(c, LabelPc(st, l))
    case Call(q) => Enter(q)
    case Ret(r) => Leave(r)
    case _ => Plain(i)
  }

  function BcOf(st: seq<Instr>): (bc: seq<Bc<nat>>)
    ensures |bc| == PcOf(st, |st|)
  {
    var kept := KeptUpTo(st, |st|);
    seq(|kept|, k requires 0 <= k < |kept| => Final(st, kept[k]))
  }

  type BcCode = seq<seq<Bc<nat>>>

  function Translated(code: Code): (bc: BcCode)
    ensures |bc| == |code|
    ensures forall p | 0 <= p < |code| :: bc[p] == BcOf(code[p])
  {
    seq(|code|, p requires 0 <= p < |code| => BcOf(code[p]))
  }

  // --- Running bytecode ---

  function StepBc(bc: BcCode, w: Oracle, c: Config): Config {
    if !c.Run? then c else
    if c.frames == [] then Stuck(c.tr) else
    var f, rest := c.frames[0], c.frames[1..];
    if f.p >= |bc| || f.pc >= |bc[f.p]| then Stuck(c.tr) else
    match bc[f.p][f.pc]
    case Goto(pc) => Run([f.(pc := pc)] + rest, c.tr)
    case GotoZ(x, pc) => Run([f.(pc := if Value(x, f.m) then f.pc + 1 else pc)] + rest, c.tr)
    case GotoNz(x, pc) => Run([f.(pc := if Value(x, f.m) then pc else f.pc + 1)] + rest, c.tr)
    case Enter(q) =>
      if q >= |bc| then Stuck(c.tr) else
      Run([Frame(q, 0, map[]), f.(pc := f.pc + 1)] + rest, c.tr + [EvCall(q)])
    case Leave(r) => Back(rest, c.tr + [EvRet(RetValue(r, f.m))], RetValue(r, f.m))
    case Plain(i) =>
      var s := Effect(w, i, State(c.tr, f.m));
      Run([Frame(f.p, f.pc + 1, s.m)] + rest, s.tr)
  }

  function StepsBc(bc: BcCode, w: Oracle, c: Config, k: nat): Config
    decreases k
  {
    if k == 0 then c else StepsBc(bc, w, StepBc(bc, w, c), k - 1)
  }

  lemma {:induction false} StepsBcAdd(bc: BcCode, w: Oracle, c: Config, k: nat, j: nat)
    ensures StepsBc(bc, w, c, k + j) == StepsBc(bc, w, StepsBc(bc, w, c, k), j)
    decreases k
  {
    if k > 0 { StepsBcAdd(bc, w, StepBc(bc, w, c), k - 1, j); }
  }

  lemma {:induction false} EndsStayBc(bc: BcCode, w: Oracle, c: Config, k: nat)
    requires !c.Run?
    ensures StepsBc(bc, w, c, k) == c
    decreases k
  {
    if k > 0 { EndsStayBc(bc, w, c, k - 1); }
  }

  // --- What translation needs of a stream ---

  /** Behind an unconditional jump, a block has nothing but comments. */
  ghost predicate JumpsLast(st: seq<Instr>) {
    forall i | 0 <= i < |st| && st[i].Jmp? :: CommentsOnly(st, i + 1)
  }

  predicate CommentsOnly(st: seq<Instr>, i: nat)
    decreases |st| - i
  {
    i >= |st| || st[i].Label? || (st[i].Comment? && CommentsOnly(st, i + 1))
  }

  ghost predicate Translatable(st: seq<Instr>) {
    && UniqueLabels(st)
    && JumpsLast(st)
    && forall i | 0 <= i < |st| && HasTarget(st[i]) :: Label(st[i].target) in st
  }

  ghost predicate AllTranslatable(code: Code) { forall p | 0 <= p < |code| :: Translatable(code[p]) }

  // --- Positions ---

  lemma {:induction false} KeptPrefix(st: seq<Instr>, i: nat, n: nat)
    requires i < n <= |st| && Keeps(st, i)
    ensures PcOf(st, i) < |KeptUpTo(st, n)| && KeptUpTo(st, n)[PcOf(st, i)] == st[i]
    decreases n
  {
    if i < n - 1 { KeptPrefix(st, i, n - 1); }
  }

  /** The bytecode instruction at a kept stream position. */
  lemma BcAt(st: seq<Instr>, i: nat)
    requires i < |st| && Keeps(st, i)
    ensures PcOf(st, i) < |BcOf(st)| && BcOf(st)[PcOf(st, i)] == Final(st, st[i])
    ensures PcOf(st, i + 1) == PcOf(st, i) + 1
  {
    KeptPrefix(st, i, |st|);
  }

  lemma SkipsAt(st: seq<Instr>, i: nat)
    requires i < |st| && !Keeps(st, i)
    ensures PcOf(st, i + 1) == PcOf(st, i)
  {}

  /** A dropped jump and the comments behind it take no room: the target has the jump's own position. */
  lemma {:induction false} NothingBetween(st: seq<Instr>, i: nat, l: nat)
    requires CommentsOnly(st, i) && NextLabel(st, i) == Some(l) && UniqueLabels(st) && i <= |st|
    ensures Find(st, l) < |st| && i <= Find(st, l) && PcOf(st, Find(st, l)) == PcOf(st, i)
    decreases |st| - i
  {
    if st[i].Label? {
      FindUnique(st, i, l);
    } else {
      NothingBetween(st, i + 1, l);
      SkipsAt(st, i);
    }
  }

  // --- Simulation ---

  /** The same configuration, with bytecode positions. */
  function MapFrame(code: Code, f: Frame): Frame {
    if f.p < |code| then f.(pc := PcOf(code[f.p], f.pc)) else f
  }

  function MapFrames(code: Code, fs: seq<Frame>): (r: seq<Frame>)
    ensures |r| == |fs|
  {
    seq(|fs|, k requires 0 <= k < |fs| => MapFrame(code, fs[k]))
  }

  function MapConfig(code: Code, c: Config): Config {
    if c.Run? then Run(MapFrames(code, c.frames), c.tr) else c
  }

  lemma MapCons(code: Code, f: Frame, rest: seq<Frame>)
    ensures MapFrames(code, [f] + rest) == [MapFrame(code, f)] + MapFrames(code, rest)
    ensures MapFrames(code, [f] + rest)[1..] == MapFrames(code, rest)
  {}

  /** Whether the next step of a configuration is invisible to the bytecode. */
  predicate Silent(code: Code, c: Config) {
    c.Run? && c.frames != [] && c.frames[0].p < |code| && c.frames[0].pc < |code[c.frames[0].p]| &&
    !Keeps(code[c.frames[0].p], c.frames[0].pc)
  }

  lemma SilentStep(code: Code, w: Oracle, c: Config)
    requires AllTranslatable(code) && Silent(code, c)
    ensures MapConfig(code, Step(code, w, c)) == MapConfig(code, c)
    ensures var d := Step(code, w, c);
            d.Run? && d.frames != [] && d.frames[0].p == c.frames[0].p &&
            c.frames[0].pc < d.frames[0].pc <= |code[c.frames[0].p]|
  {
    var f, rest := c.frames[0], c.frames[1..];
    var st := code[f.p];
    assert c.frames == [f] + rest;
    MapCons(code, f, rest);
    SkipsAt(st, f.pc);
    if st[f.pc].Jmp? {
      var l := st[f.pc].target;
      SkippedJump(st, f.pc);
      hide *;
      StepJmp(code, w, c);
      MapCons(code, f.(pc := Find(st, l)), rest);
      SameMapped(code, f, f.(pc := Find(st, l)));
      MapIs(code, c, f, rest);
      MapIs(code, Step(code, w, c), f.(pc := Find(st, l)), rest);
    } else {
      hide PcOf, AllTranslatable;
      MapCons(code, f.(pc := f.pc + 1), rest);
      assert f == Frame(f.p, f.pc, f.m);
    }
  }

  lemma SkippedJump(st: seq<Instr>, i: nat)
    requires Translatable(st) && i < |st| && st[i].Jmp? && !Keeps(st, i)
    ensures var t := Find(st, st[i].target); i < t < |st| && PcOf(st, t) == PcOf(st, i)
  {
    assert CommentsOnly(st, i + 1);
    SkipsAt(st, i);
    NothingBetween(st, i + 1, st[i].target);
  }

  lemma StepJmp(code: Code, w: Oracle, c: Config)
    requires c.Run? && c.frames != []
    requires var f := c.frames[0]; f.p < |code| && f.pc < |code[f.p]| && code[f.p][f.pc].Jmp?
    ensures var f := c.frames[0];
            Step(code, w, c) == Run([f.(pc := Find(code[f.p], code[f.p][f.pc].target))] + c.frames[1..], c.tr)
  {}

  lemma SameMapped(code: Code, f: Frame, g: Frame)
    requires f.p == g.p < |code| && f.m == g.m && PcOf(code[f.p], f.pc) == PcOf(code[f.p], g.pc)
    ensures MapFrame(code, f) == MapFrame(code, g)
  {}

  lemma MapIs(code: Code, c: Config, f: Frame, rest: seq<Frame>)
    requires c.Run? && c.frames == [f] + rest
    ensures MapConfig(code, c) == Run([MapFrame(code, f)] + MapFrames(code, rest), c.tr)
  {
    MapCons(code, f, rest);
  }

  lemma VisibleStep(code: Code, w: Oracle, c: Config)
    requires AllTranslatable(code) && !Silent(code, c)
    ensures MapConfig(code, Step(code, w, c)) == StepBc(Translated(code), w, MapConfig(code, c))
  {
    if c.Run? && c.frames != [] {
      var f, rest := c.frames[0], c.frames[1..];
      assert c.frames == [f] + rest;
      MapCons(code, f, rest);
      if f.p < |code| && f.pc < |code[f.p]| {
        VisibleInstr(code, w, f, rest, c.tr);
      }
    }
  }

  lemma VisibleInstr(code: Code, w: Oracle, f: Frame, rest: seq<Frame>, tr: Trace)
    requires AllTranslatable(code) && f.p < |code| && f.pc < |code[f.p]| && Keeps(code[f.p], f.pc)
    ensures MapConfig(code, Step(code, w, Run([f] + rest, tr))) ==
            StepBc(Translated(code), w, Run([MapFrame(code, f)] + MapFrames(code, rest), tr))
  {
    FetchBoth(code, f);
    hide AllTranslatable, Keeps;
    if HasTarget(code[f.p][f.pc]) {
      VisibleJump(code, w, f, rest, tr);
    } else {
      VisibleOther(code, w, f, rest, tr);
    }
  }

  /** What FetchBoth gives. */
  ghost predicate FetchAgrees(code: Code, f: Frame) {
    var g := MapFrame(code, f);
    && f.p < |code| && f.pc < |code[f.p]|
    && |Translated(code)| == |code| && g.p == f.p && g.pc < |Translated(code)[f.p]|
    && Translated(code)[f.p][g.pc] == Final(code[f.p], code[f.p][f.pc])
    && PcOf(code[f.p], f.pc) == g.pc && PcOf(code[f.p], f.pc + 1) == g.pc + 1
  }

  lemma VisibleJump(code: Code, w: Oracle, f: Frame, rest: seq<Frame>, tr: Trace)
    requires FetchAgrees(code, f) && HasTarget(code[f.p][f.pc])
    ensures MapConfig(code, Step(code, w, Run([f] + rest, tr))) ==
            StepBc(Translated(code), w, Run([MapFrame(code, f)] + MapFrames(code, rest), tr))
  {
    hide Translated, PcOf, MapFrames, Find, Keeps, BcOf, UniqueLabels, Effect;
    assert ([f] + rest)[1..] == rest;
    assert ([MapFrame(code, f)] + MapFrames(code, rest))[1..] == MapFrames(code, rest);
    MapCons(code, f.(pc := Find(code[f.p], code[f.p][f.pc].target)), rest);
    MapCons(code, f.(pc := f.pc + 1), rest);
  }

  lemma VisibleOther(code: Code, w: Oracle, f: Frame, rest: seq<Frame>, tr: Trace)
    requires FetchAgrees(code, f) && !HasTarget(code[f.p][f.pc]) && Keeps(code[f.p], f.pc)
    ensures MapConfig(code, Step(code, w, Run([f] + rest, tr))) ==
            StepBc(Translated(code), w, Run([MapFrame(code, f)] + MapFrames(code, rest), tr))
  {
    hide Translated, PcOf, MapFrames;
    var i := code[f.p][f.pc];
    assert ([f] + rest)[1..] == rest;
    assert ([MapFrame(code, f)] + MapFrames(code, rest))[1..] == MapFrames(code, rest);
    if i.Call? {
      CallMaps(code, i.p, f.(pc := f.pc + 1), rest);
    } else if !i.Ret? {
      hide Effect;
      MapCons(code, Frame(f.p, f.pc + 1, Effect(w, i, State(tr, f.m)).m), rest);
    }
  }

  /** Both machines fetch corresponding instructions, and their next positions correspond. */
  lemma FetchBoth(code: Code, f: Frame)
    requires f.p < |code| && f.pc < |code[f.p]| && Keeps(code[f.p], f.pc)
    ensures FetchAgrees(code, f)
  {
    BcAt(code[f.p], f.pc);
    hide PcOf, BcOf, Keeps;
  }

  lemma CallMaps(code: Code, q: nat, next: Frame, rest: seq<Frame>)
    ensures q < |code| ==>
              MapFrames(code, [Frame(q, 0, map[]), next] + rest) ==
              [Frame(q, 0, map[]), MapFrame(code, next)] + MapFrames(code, rest)
  {
    if q < |code| {
      var top := Frame(q, 0, map[]);
      StartPc(code[q]);
      MapCons(code, top, [next] + rest);
      MapCons(code, next, rest);
      assert MapFrame(code, top) == top;
      hide MapFrames, MapFrame;
      assert [top, next] + rest == [top] + ([next] + rest);
    }
  }

  lemma StartPc(st: seq<Instr>)
    ensures PcOf(st, 0) == 0
  {}

  /** Everything the stream does, the bytecode does, in no more steps. */
  lemma {:induction false} Forward(code: Code, w: Oracle, c: Config, k: nat) returns (j: nat)
    requires AllTranslatable(code)
    ensures j <= k && StepsBc(Translated(code), w, MapConfig(code, c), j) == MapConfig(code, Steps(code, w, c, k))
    decreases k
  {
    if k == 0 { return 0; }
    var d := Step(code, w, c);
    j := Forward(code, w, d, k - 1);
    if Silent(code, c) {
      SilentStep(code, w, c);
    } else {
      VisibleStep(code, w, c);
      j := j + 1;
    }
  }

  /** One bytecode step is some number of stream steps. */
  lemma {:induction false} BackwardOne(code: Code, w: Oracle, c: Config) returns (k: nat)
    requires AllTranslatable(code)
    ensures MapConfig(code, Steps(code, w, c, k)) == StepBc(Translated(code), w, MapConfig(code, c))
    decreases if c.Run? && c.frames != [] && c.frames[0].p < |code| && c.frames[0].pc < |code[c.frames[0].p]|
              then |code[c.frames[0].p]| - c.frames[0].pc else 0
  {
    var d := Step(code, w, c);
    if Silent(code, c) {
      SilentStep(code, w, c);
      k := BackwardOne(code, w, d);
      k := k + 1;
    } else {
      VisibleStep(code, w, c);
      k := 1;
      assert Steps(code, w, c, 1) == Steps(code, w, d, 0);
    }
  }

  /** Everything the bytecode does, the stream does. */
  lemma {:induction false} Backward(code: Code, w: Oracle, c: Config, j: nat) returns (k: nat)
    requires AllTranslatable(code)
    ensures MapConfig(code, Steps(code, w, c, k)) == StepsBc(Translated(code), w, MapConfig(code, c), j)
    decreases j
  {
    if j == 0 { return 0; }
    var k1 := BackwardOne(code, w, c);
    var d := Steps(code, w, c, k1);
    var k2 := Backward(code, w, d, j - 1);
    StepsAdd(code, w, c, k1, k2);
    k := k1 + k2;
  }
}
