/** Running the emitted streams: block by block with fall-through, labels being positions that do nothing. */
module Machine {
  import opened Ir
  import opened Trees

  /** One activation: which proc, where in its stream, and its locals. */
  datatype Frame = Frame(p: nat, pc: nat, m: Temps)

  /** The active frame comes first. */
  datatype Config =
    | Run(frames: seq<Frame>, tr: Trace)
    | Halt(tr: Trace, v: Option<bool>)
    | Stuck(tr: Trace)

  type Code = seq<seq<Instr>>

  /** Where a label is placed, or the end of the stream. */
  function Find(code: seq<Instr>, l: nat): (k: nat)
    ensures k <= |code|
    ensures k < |code| ==> code[k] == Label(l)
    ensures forall j | 0 <= j < k :: code[j] != Label(l)
  {
    if code == [] then 0 else if code[0] == Label(l) then 0 else 1 + Find(code[1..], l)
  }

  /** The caller goes on, or there is none. */
  function Back(rest: seq<Frame>, tr: Trace, v: Option<bool>): Config {
    if rest == [] then Halt(tr, v) else Run(rest, tr)
  }

  function Step(code: Code, w: Oracle, c: Config): Config {
    if !c.Run? then c else
    if c.frames == [] then Stuck(c.tr) else
    var f, rest := c.frames[0], c.frames[1..];
    if f.p >= |code| || f.pc >= |code[f.p]| then Stuck(c.tr) else
    match code[f.p][f.pc]
    case Jmp(l) => Run([f.(pc := Find(code[f.p], l))] + rest, c.tr)
    case Jmpz(x, l) =>
      Run([f.(pc := if Value(x, f.m) then f.pc + 1 else Find(code[f.p], l))] + rest, c.tr)
    case Jmpnz(x, l) =>
      Run([f.(pc := if Value(x, f.m) then Find(code[f.p], l) else f.pc + 1)] + rest, c.tr)
    case Call(q) =>
      if q >= |code| then Stuck(c.tr) else
      Run([Frame(q, 0, map[]), f.(pc := f.pc + 1)] + rest, c.tr + [EvCall(q)])
    case Ret(r) => Back(rest, c.tr + [EvRet(RetValue(r, f.m))], RetValue(r, f.m))
    case i =>
      var s := Effect(w, i, State(c.tr, f.m));
      Run([Frame(f.p, f.pc + 1, s.m)] + rest, s.tr)
  }

  function Steps(code: Code, w: Oracle, c: Config, k: nat): Config
    decreases k
  {
    if k == 0 then c else Steps(code, w, Step(code, w, c), k - 1)
  }

  lemma {:induction false} StepsAdd(code: Code, w: Oracle, c: Config, k: nat, j: nat)
    ensures Steps(code, w, c, k + j) == Steps(code, w, Steps(code, w, c, k), j)
    decreases k
  {
    if k > 0 { StepsAdd(code, w, Step(code, w, c), k - 1, j); }
  }

  lemma {:induction false} EndsStay(code: Code, w: Oracle, c: Config, k: nat)
    requires !c.Run?
    ensures Steps(code, w, c, k) == c
    decreases k
  {
    if k > 0 { EndsStay(code, w, c, k - 1); }
  }

  function At(p: nat, pc: nat, s: State, rest: seq<Frame>): Config {
    Run([Frame(p, pc, s.m)] + rest, s.tr)
  }

  // --- Well-formed code ---

  ghost predicate UniqueLabels(code: seq<Instr>) {
    forall i, j | 0 <= i < j < |code| && code[i].Label? && code[j].Label? :: code[i].id != code[j].id
  }

  /** Jumps occur only as the tree's own, and every call names a proc. */
  predicate WfTree(t: Tree, procs: nat) {
    match t
    case Nil => true
    case Op(i) => !HasTarget(i) && (i.Call? ==> i.p < procs) && (i.Mov? ==> i.size > 0)
    case Then(a, b) => WfTree(a, procs) && WfTree(b, procs)
    case When(_, body, _) => WfTree(body, procs)
    case Choose(_, _, x, y, _, _) => WfTree(x, procs) && WfTree(y, procs)
    case Loop(h, _, body, _, _) => WfTree(h, procs) && WfTree(body, procs)
  }

  /** Control cannot reach the end of the tree. */
  predicate Terminal(t: Tree) {
    match t
    case Op(i) => i.Ret?
    case Then(a, b) => Terminal(a) || Terminal(b)
    case Choose(_, _, x, y, _, _) => Terminal(x) && Terminal(y)
    case _ => false
  }

  lemma {:induction false} TerminalNeverDone(trees: seq<Tree>, w: Oracle, n: nat, t: Tree, s: State)
    requires Terminal(t)
    ensures !Exec(trees, w, n, t, s).Done?
    decreases t
  {
    match t
    case Op(i) =>
    case Then(a, b) =>
      var o := Exec(trees, w, n, a, s);
      if Terminal(a) { TerminalNeverDone(trees, w, n, a, s); }
      else if o.Done? { TerminalNeverDone(trees, w, n, b, o.s); }
    case Choose(_, _, x, y, _, _) =>
      TerminalNeverDone(trees, w, n, x, s);
      TerminalNeverDone(trees, w, n, y, s);
  }

  function Streams(trees: seq<Tree>): (code: Code)
    ensures |code| == |trees|
    ensures forall p | 0 <= p < |trees| :: code[p] == Flatten(trees[p])
  {
    seq(|trees|, p requires 0 <= p < |trees| => Flatten(trees[p]))
  }

  ghost predicate WfTrees(trees: seq<Tree>) {
    forall p | 0 <= p < |trees| :: WfTree(trees[p], |trees|) && Terminal(trees[p]) && UniqueLabels(Flatten(trees[p]))
  }

  // --- Tree execution is machine execution ---

  /** k steps from c realise the outcome o; a run out of fuel is still going after at least n steps. */
  ghost predicate Realises(code: Code, w: Oracle, c: Config, k: nat, o: Outcome, n: nat, p: nat, pc: nat, rest: seq<Frame>) {
    var d := Steps(code, w, c, k);
    match o
    case Done(s) => d == At(p, pc, s, rest)
    case Returned(tr, v) => d == Back(rest, tr, v)
    case Timeout(tr) => k >= n && d.Run? && d.tr == tr
  }

  lemma Chain(code: Code, w: Oracle, c: Config, k: nat, d: Config, j: nat, o: Outcome, n: nat, n': nat, p: nat, pc: nat, rest: seq<Frame>)
    requires Steps(code, w, c, k) == d
    requires Realises(code, w, d, j, o, n', p, pc, rest) && n <= n' + k
    ensures Realises(code, w, c, k + j, o, n, p, pc, rest)
  {
    StepsAdd(code, w, c, k, j);
  }

  lemma FindUnique(code: seq<Instr>, i: nat, l: nat)
    requires UniqueLabels(code) && i < |code| && code[i] == Label(l)
    ensures Find(code, l) == i
  {}

  /** One step of an instruction that is not a jump, call or return. */
  lemma StepPlain(code: Code, w: Oracle, p: nat, pc: nat, s: State, rest: seq<Frame>)
    requires p < |code| && pc < |code[p]|
    requires var i := code[p][pc]; !HasTarget(i) && !i.Call? && !i.Ret?
    ensures Steps(code, w, At(p, pc, s, rest), 1) == At(p, pc + 1, Effect(w, code[p][pc], s), rest)
  {
    assert ([Frame(p, pc, s.m)] + rest)[1..] == rest;
    assert Steps(code, w, At(p, pc, s, rest), 1) == Steps(code, w, Step(code, w, At(p, pc, s, rest)), 0);
  }

  /** A taken jump and the label it lands on: two steps. */
  lemma StepJump(code: Code, w: Oracle, p: nat, pc: nat, to: nat, s: State, rest: seq<Frame>)
    requires p < |code| && pc < |code[p]| && to < |code[p]| && UniqueLabels(code[p])
    requires var i := code[p][pc];
             HasTarget(i) && code[p][to] == Label(i.target) &&
             (i.Jmpz? ==> !Value(i.cond, s.m)) && (i.Jmpnz? ==> Value(i.cond, s.m))
    ensures Steps(code, w, At(p, pc, s, rest), 2) == At(p, to + 1, s, rest)
  {
    var i := code[p][pc];
    FindUnique(code[p], to, i.target);
    assert ([Frame(p, pc, s.m)] + rest)[1..] == rest;
    assert Step(code, w, At(p, pc, s, rest)) == At(p, to, s, rest);
    StepPlain(code, w, p, to, s, rest);
    assert Steps(code, w, At(p, pc, s, rest), 2) == Steps(code, w, At(p, to, s, rest), 1);
  }

  /** A conditional jump not taken. */
  lemma StepThrough(code: Code, w: Oracle, p: nat, pc: nat, s: State, rest: seq<Frame>)
    requires p < |code| && pc < |code[p]|
    requires var i := code[p][pc]; (i.Jmpz? && Value(i.cond, s.m)) || (i.Jmpnz? && !Value(i.cond, s.m))
    ensures Steps(code, w, At(p, pc, s, rest), 1) == At(p, pc + 1, s, rest)
  {
    assert ([Frame(p, pc, s.m)] + rest)[1..] == rest;
    assert Steps(code, w, At(p, pc, s, rest), 1) == Steps(code, w, Step(code, w, At(p, pc, s, rest)), 0);
  }

  /** Where a piece of code sits in its proc's stream. */
  ghost predicate Placed(code: Code, p: nat, pc: nat, piece: seq<Instr>) {
    p < |code| && pc + |piece| <= |code[p]| && forall i | 0 <= i < |piece| :: code[p][pc + i] == piece[i]
  }

  lemma PlacedSplit(code: Code, p: nat, pc: nat, a: seq<Instr>, b: seq<Instr>)
    requires Placed(code, p, pc, a + b)
    ensures Placed(code, p, pc, a) && Placed(code, p, pc + |a|, b)
  {
    forall i | 0 <= i < |a| ensures code[p][pc + i] == a[i] {
      assert (a + b)[i] == a[i];
    }
    forall i | 0 <= i < |b| ensures code[p][pc + |a| + i] == b[i] {
      assert (a + b)[|a| + i] == b[i];
    }
  }

  lemma WhenLayout(code: Code, p: nat, pc: nat, t: Tree) returns (b: nat, e: nat)
    requires t.When? && Placed(code, p, pc, Flatten(t))
    ensures b == pc + 1 && e == b + |Flatten(t.body)| && e + 2 == pc + |Flatten(t)| <= |code[p]|
    ensures code[p][pc] == Jmpz(t.cond, t.end) && code[p][e] == Jmp(t.end) && code[p][e + 1] == Label(t.end)
    ensures Placed(code, p, b, Flatten(t.body))
  {
    var jump, tail := [Jmpz(t.cond, t.end)], [Jmp(t.end), Label(t.end)];
    PlacedSplit(code, p, pc, jump + Flatten(t.body), tail);
    PlacedSplit(code, p, pc, jump, Flatten(t.body));
    b := pc + 1;
    e := b + |Flatten(t.body)|;
    assert code[p][pc + 0] == jump[0] && code[p][e + 0] == tail[0] && code[p][e + 1] == tail[1];
  }

  lemma ChooseLayout(code: Code, p: nat, pc: nat, t: Tree) returns (x: nat, m: nat, y: nat, e: nat)
    requires t.Choose? && Placed(code, p, pc, Flatten(t))
    ensures x == pc + 1 && m == x + |Flatten(t.thn)| && y == m + 2 && e == y + |Flatten(t.els)|
    ensures e + 2 == pc + |Flatten(t)| <= |code[p]|
    ensures code[p][pc] == CondJump(t.onZero, t.cond, t.alt)
    ensures code[p][m] == Jmp(t.end) && code[p][m + 1] == Label(t.alt)
    ensures code[p][e] == Jmp(t.end) && code[p][e + 1] == Label(t.end)
    ensures Placed(code, p, x, Flatten(t.thn)) && Placed(code, p, y, Flatten(t.els))
  {
    var jump, thn, mid, els, tail := [CondJump(t.onZero, t.cond, t.alt)], Flatten(t.thn), [Jmp(t.end), Label(t.alt)],
                                     Flatten(t.els), [Jmp(t.end), Label(t.end)];
    PlacedSplit(code, p, pc, jump + thn + mid + els, tail);
    PlacedSplit(code, p, pc, jump + thn + mid, els);
    PlacedSplit(code, p, pc, jump + thn, mid);
    PlacedSplit(code, p, pc, jump, thn);
    x := pc + 1;
    m := x + |thn|;
    y := m + 2;
    e := y + |els|;
    assert code[p][pc + 0] == jump[0] && code[p][m + 0] == mid[0] && code[p][m + 1] == mid[1];
    assert code[p][e + 0] == tail[0] && code[p][e + 1] == tail[1];
  }

  lemma LoopLayout(code: Code, p: nat, pc: nat, t: Tree) returns (h: nat, j: nat, b: nat, e: nat)
    requires t.Loop? && Placed(code, p, pc, Flatten(t))
    ensures h == pc + 2 && j == h + |Flatten(t.head)| && b == j + 1 && e == b + |Flatten(t.body)|
    ensures e + 2 == pc + |Flatten(t)| <= |code[p]|
    ensures code[p][pc] == Jmp(t.loop) && code[p][pc + 1] == Label(t.loop) && code[p][j] == Jmpz(t.cond, t.end)
    ensures code[p][e] == Jmp(t.loop) && code[p][e + 1] == Label(t.end)
    ensures Placed(code, p, h, Flatten(t.head)) && Placed(code, p, b, Flatten(t.body))
  {
    var top, head, jump, body, tail := [Jmp(t.loop), Label(t.loop)], Flatten(t.head), [Jmpz(t.cond, t.end)],
                                       Flatten(t.body), [Jmp(t.loop), Label(t.end)];
    PlacedSplit(code, p, pc, top + head + jump + body, tail);
    PlacedSplit(code, p, pc, top + head + jump, body);
    PlacedSplit(code, p, pc, top + head, jump);
    PlacedSplit(code, p, pc, top, head);
    h := pc + 2;
    j := h + |head|;
    b := j + 1;
    e := b + |body|;
    assert code[p][pc + 0] == top[0] && code[p][pc + 1] == top[1] && code[p][j + 0] == jump[0];
    assert code[p][e + 0] == tail[0] && code[p][e + 1] == tail[1];
  }

  lemma {:induction false} Simulate(code: Code, trees: seq<Tree>, w: Oracle, n: nat, p: nat, pc: nat, t: Tree, s: State, rest: seq<Frame>) returns (k: nat)
    requires code == Streams(trees) && WfTrees(trees) && WfTree(t, |trees|)
    requires Placed(code, p, pc, Flatten(t))
    ensures Realises(code, w, At(p, pc, s, rest), k, Exec(trees, w, n, t, s), n, p, pc + |Flatten(t)|, rest)
    decreases n, t, 4
  {
    match t
    case Nil => k := 0;
    case Op(i) => k := SimulateOp(code, trees, w, n, p, pc, i, s, rest);
    case Then(_, _) => k := SimulateThen(code, trees, w, n, p, pc, t, s, rest);
    case When(_, _, _) => k := SimulateWhen(code, trees, w, n, p, pc, t, s, rest);
    case Choose(_, _, _, _, _, _) => k := SimulateChoose(code, trees, w, n, p, pc, t, s, rest);
    case Loop(_, _, _, _, _) => k := SimulateLoop(code, trees, w, n, p, pc, t, s, rest);
  }

  lemma {:induction false} SimulateOp(code: Code, trees: seq<Tree>, w: Oracle, n: nat, p: nat, pc: nat, i: Instr, s: State, rest: seq<Frame>) returns (k: nat)
    requires code == Streams(trees) && WfTrees(trees) && WfTree(Op(i), |trees|)
    requires Placed(code, p, pc, [i])
    ensures Realises(code, w, At(p, pc, s, rest), k, Exec(trees, w, n, Op(i), s), n, p, pc + 1, rest)
    decreases n, Op(i), 0
  {
    assert code[p][pc + 0] == [i][0];
    var c := At(p, pc, s, rest);
    assert ([Frame(p, pc, s.m)] + rest)[1..] == rest;
    if i.Call? {
      if n == 0 { k := 0; return; }
      var caller := Frame(p, pc + 1, s.m);
      var s0 := State(s.tr + [EvCall(i.p)], map[]);
      var t := trees[i.p];
      assert Placed(code, i.p, 0, Flatten(t));
      var j := Simulate(code, trees, w, n - 1, i.p, 0, t, s0, [caller] + rest);
      assert Step(code, w, c) == At(i.p, 0, s0, [caller] + rest) by {
        assert [Frame(i.p, 0, map[]), caller] + rest == [Frame(i.p, 0, map[])] + ([caller] + rest);
      }
      k := 1 + j;
      assert Steps(code, w, c, k) == Steps(code, w, Step(code, w, c), j);
      TerminalNeverDone(trees, w, n - 1, t, s0);
    } else if i.Ret? {
      k := 1;
      assert Steps(code, w, c, 1) == Steps(code, w, Step(code, w, c), 0);
    } else {
      k := 1;
      StepPlain(code, w, p, pc, s, rest);
    }
  }

  lemma {:induction false} SimulateThen(code: Code, trees: seq<Tree>, w: Oracle, n: nat, p: nat, pc: nat, t: Tree, s: State, rest: seq<Frame>) returns (k: nat)
    requires code == Streams(trees) && WfTrees(trees) && t.Then? && WfTree(t, |trees|)
    requires Placed(code, p, pc, Flatten(t))
    ensures Realises(code, w, At(p, pc, s, rest), k, Exec(trees, w, n, t, s), n, p, pc + |Flatten(t)|, rest)
    decreases n, t, 2
  {
    PlacedSplit(code, p, pc, Flatten(t.a), Flatten(t.b));
    k := Simulate(code, trees, w, n, p, pc, t.a, s, rest);
    var o := Exec(trees, w, n, t.a, s);
    if o.Done? {
      var mid := pc + |Flatten(t.a)|;
      var j := Simulate(code, trees, w, n, p, mid, t.b, o.s, rest);
      Chain(code, w, At(p, pc, s, rest), k, At(p, mid, o.s, rest), j,
            Exec(trees, w, n, t.b, o.s), n, n, p, pc + |Flatten(t)|, rest);
      k := k + j;
    }
  }

  /** An arm of a conditional: i steps reach the piece, and if the piece ends normally it jumps to a label. */
  lemma Arm(code: Code, w: Oracle, c: Config, i: nat, p: nat, pc: nat, s: State, rest: seq<Frame>,
            j: nat, o: Outcome, n: nat, at: nat, to: nat) returns (k: nat)
    requires Steps(code, w, c, i) == At(p, pc, s, rest)
    requires Realises(code, w, At(p, pc, s, rest), j, o, n, p, at, rest)
    requires p < |code| && at < |code[p]| && to < |code[p]| && UniqueLabels(code[p])
    requires code[p][at].Jmp? && code[p][to] == Label(code[p][at].target)
    ensures Realises(code, w, c, k, o, n, p, to + 1, rest)
    ensures k >= i + j
  {
    StepsAdd(code, w, c, i, j);
    k := i + j;
    if o.Done? {
      StepJump(code, w, p, at, to, o.s, rest);
      StepsAdd(code, w, c, k, 2);
      k := k + 2;
    }
  }

  lemma {:induction false} SimulateWhen(code: Code, trees: seq<Tree>, w: Oracle, n: nat, p: nat, pc: nat, t: Tree, s: State, rest: seq<Frame>) returns (k: nat)
    requires code == Streams(trees) && WfTrees(trees) && t.When? && WfTree(t, |trees|)
    requires Placed(code, p, pc, Flatten(t))
    ensures Realises(code, w, At(p, pc, s, rest), k, Exec(trees, w, n, t, s), n, p, pc + |Flatten(t)|, rest)
    decreases n, t, 2
  {
    assert UniqueLabels(code[p]);
    hide Steps, Step, Flatten, UniqueLabels, WfTrees, Terminal;
    var b, e := WhenLayout(code, p, pc, t);
    if !Value(t.cond, s.m) {
      StepJump(code, w, p, pc, e + 1, s, rest);
      k := 2;
    } else {
      StepThrough(code, w, p, pc, s, rest);
      k := Simulate(code, trees, w, n, p, b, t.body, s, rest);
      k := Arm(code, w, At(p, pc, s, rest), 1, p, b, s, rest, k, Exec(trees, w, n, t.body, s), n, e, e + 1);
    }
  }

  lemma {:induction false} SimulateChoose(code: Code, trees: seq<Tree>, w: Oracle, n: nat, p: nat, pc: nat, t: Tree, s: State, rest: seq<Frame>) returns (k: nat)
    requires code == Streams(trees) && WfTrees(trees) && t.Choose? && WfTree(t, |trees|)
    requires Placed(code, p, pc, Flatten(t))
    ensures Realises(code, w, At(p, pc, s, rest), k, Exec(trees, w, n, t, s), n, p, pc + |Flatten(t)|, rest)
    decreases n, t, 2
  {
    if Value(t.cond, s.m) == t.onZero {
      k := SimulateThn(code, trees, w, n, p, pc, t, s, rest);
    } else {
      k := SimulateEls(code, trees, w, n, p, pc, t, s, rest);
    }
  }

  lemma {:induction false} ArmIs(trees: seq<Tree>, w: Oracle, n: nat, t: Tree, s: State)
    requires t.Choose?
    ensures Exec(trees, w, n, t, s) == Exec(trees, w, n, if Value(t.cond, s.m) == t.onZero then t.thn else t.els, s)
  {}

  lemma Labelled(code: Code, trees: seq<Tree>, p: nat, pc: nat, piece: seq<Instr>)
    requires code == Streams(trees) && WfTrees(trees) && Placed(code, p, pc, piece)
    ensures UniqueLabels(code[p])
  {
    hide Flatten, UniqueLabels, Terminal;
  }

  lemma {:induction false} SimulateThn(code: Code, trees: seq<Tree>, w: Oracle, n: nat, p: nat, pc: nat, t: Tree, s: State, rest: seq<Frame>) returns (k: nat)
    requires code == Streams(trees) && WfTrees(trees) && t.Choose? && WfTree(t, |trees|)
    requires Placed(code, p, pc, Flatten(t)) && Value(t.cond, s.m) == t.onZero
    ensures Realises(code, w, At(p, pc, s, rest), k, Exec(trees, w, n, t, s), n, p, pc + |Flatten(t)|, rest)
    decreases n, t, 1
  {
    hide Steps, Step, Realises, Flatten, UniqueLabels, WfTrees, Terminal, Exec;
    ArmIs(trees, w, n, t, s);
    Labelled(code, trees, p, pc, Flatten(t));
    var x, m, y, e := ChooseLayout(code, p, pc, t);
    StepThrough(code, w, p, pc, s, rest);
    k := Simulate(code, trees, w, n, p, x, t.thn, s, rest);
    k := Arm(code, w, At(p, pc, s, rest), 1, p, x, s, rest, k, Exec(trees, w, n, t.thn, s), n, m, e + 1);
  }

  lemma {:induction false} SimulateEls(code: Code, trees: seq<Tree>, w: Oracle, n: nat, p: nat, pc: nat, t: Tree, s: State, rest: seq<Frame>) returns (k: nat)
    requires code == Streams(trees) && WfTrees(trees) && t.Choose? && WfTree(t, |trees|)
    requires Placed(code, p, pc, Flatten(t)) && Value(t.cond, s.m) != t.onZero
    ensures Realises(code, w, At(p, pc, s, rest), k, Exec(trees, w, n, t, s), n, p, pc + |Flatten(t)|, rest)
    decreases n, t, 1
  {
    hide Steps, Step, Realises, Flatten, UniqueLabels, WfTrees, Terminal, Exec;
    ArmIs(trees, w, n, t, s);
    Labelled(code, trees, p, pc, Flatten(t));
    var x, m, y, e := ChooseLayout(code, p, pc, t);
    StepJump(code, w, p, pc, m + 1, s, rest);
    k := Simulate(code, trees, w, n, p, y, t.els, s, rest);
    k := Arm(code, w, At(p, pc, s, rest), 2, p, y, s, rest, k, Exec(trees, w, n, t.els, s), n, e, e + 1);
  }

  lemma {:induction false} SimulateLoop(code: Code, trees: seq<Tree>, w: Oracle, n: nat, p: nat, pc: nat, t: Tree, s: State, rest: seq<Frame>) returns (k: nat)
    requires code == Streams(trees) && WfTrees(trees) && t.Loop? && WfTree(t, |trees|)
    requires Placed(code, p, pc, Flatten(t))
    ensures Realises(code, w, At(p, pc, s, rest), k, Exec(trees, w, n, t, s), n, p, pc + |Flatten(t)|, rest)
    decreases n, t, 3
  {
    if n == 0 { k := 0; return; }
    var h, _, _, e := LoopLayout(code, p, pc, t);
    StepJump(code, w, p, pc, pc + 1, s, rest);
    k := Iterate(code, trees, w, n, p, pc, t, s, rest);
    Chain(code, w, At(p, pc, s, rest), 2, At(p, h, s, rest), k, Exec(trees, w, n, t, s), n, n, p, e + 2, rest);
    k := 2 + k;
  }

  /** The loop from behind its label. */
  lemma {:induction false} Iterate(code: Code, trees: seq<Tree>, w: Oracle, n: nat, p: nat, pc: nat, t: Tree, s: State, rest: seq<Frame>) returns (k: nat)
    requires code == Streams(trees) && WfTrees(trees) && t.Loop? && WfTree(t, |trees|) && n > 0
    requires Placed(code, p, pc, Flatten(t))
    ensures Realises(code, w, At(p, pc + 2, s, rest), k, Exec(trees, w, n, t, s), n, p, pc + |Flatten(t)|, rest)
    decreases n, t, 2
  {
    hide Steps, Step, Realises, Flatten, UniqueLabels, WfTrees, Terminal, Exec, AfterHead;
    var h, j, b, e := LoopLayout(code, p, pc, t);
    LoopIs(trees, w, n, t, s);
    k := Simulate(code, trees, w, n, p, h, t.head, s, rest);
    var o := Exec(trees, w, n, t.head, s);
    if o.Done? {
      var k2 := Test(code, trees, w, n, p, pc, t, j, o.s, rest);
      Chain(code, w, At(p, h, s, rest), k, At(p, j, o.s, rest), k2, AfterHead(trees, w, n, t, o.s), n, n, p, e + 2, rest);
      k := k + k2;
    } else {
      Unfinished(code, w, At(p, h, s, rest), k, o, n, p, j, e + 2, rest);
    }
  }

  lemma LoopIs(trees: seq<Tree>, w: Oracle, n: nat, t: Tree, s: State)
    requires t.Loop? && n > 0
    ensures var o := Exec(trees, w, n, t.head, s);
            Exec(trees, w, n, t, s) == if o.Done? then AfterHead(trees, w, n, t, o.s) else o
  {}

  /** Where a run that does not end normally would have gone on does not matter. */
  lemma Unfinished(code: Code, w: Oracle, c: Config, k: nat, o: Outcome, n: nat, p: nat, pc: nat, pc': nat, rest: seq<Frame>)
    requires Realises(code, w, c, k, o, n, p, pc, rest) && !o.Done?
    ensures Realises(code, w, c, k, o, n, p, pc', rest)
  {}

  /** What a loop does once its condition has been computed. */
  function AfterHead(trees: seq<Tree>, w: Oracle, n: nat, t: Tree, s: State): Outcome
    requires t.Loop? && n > 0
  {
    if !Value(t.cond, s.m) then Done(s) else
    var o := Exec(trees, w, n, t.body, s);
    if o.Done? then Exec(trees, w, n - 1, t, o.s) else o
  }

  lemma {:induction false} Test(code: Code, trees: seq<Tree>, w: Oracle, n: nat, p: nat, pc: nat, t: Tree, j: nat, s: State, rest: seq<Frame>) returns (k: nat)
    requires code == Streams(trees) && WfTrees(trees) && t.Loop? && WfTree(t, |trees|) && n > 0
    requires Placed(code, p, pc, Flatten(t)) && j == pc + 2 + |Flatten(t.head)|
    ensures Realises(code, w, At(p, j, s, rest), k, AfterHead(trees, w, n, t, s), n, p, pc + |Flatten(t)|, rest)
    decreases n, t, 1
  {
    var h, _, b, e := LoopLayout(code, p, pc, t);
    assert UniqueLabels(code[p]);
    hide Steps, Step, Flatten, UniqueLabels, WfTrees, WfTree, Terminal, Exec, Placed;
    if !Value(t.cond, s.m) {
      StepJump(code, w, p, j, e + 1, s, rest);
      k := 2;
    } else {
      k := Once(code, trees, w, n, p, pc, t, j, s, rest);
      var o := Exec(trees, w, n, t.body, s);
      if o.Done? {
        var again := Again(code, trees, w, n - 1, p, pc, t, o.s, rest);
        Chain(code, w, At(p, j, s, rest), k, At(p, h, o.s, rest), again, Exec(trees, w, n - 1, t, o.s), n, n - 1, p, e + 2, rest);
        k := k + again;
      }
    }
  }

  /** The loop once more, if there is fuel. */
  lemma {:induction false} Again(code: Code, trees: seq<Tree>, w: Oracle, n: nat, p: nat, pc: nat, t: Tree, s: State, rest: seq<Frame>) returns (k: nat)
    requires code == Streams(trees) && WfTrees(trees) && t.Loop? && WfTree(t, |trees|)
    requires Placed(code, p, pc, Flatten(t))
    ensures Realises(code, w, At(p, pc + 2, s, rest), k, Exec(trees, w, n, t, s), n, p, pc + |Flatten(t)|, rest)
    decreases n, t, 3
  {
    if n > 0 {
      k := Iterate(code, trees, w, n, p, pc, t, s, rest);
    } else {
      k := 0;
    }
  }

  /** The body once, and back behind the loop's label. */
  lemma {:induction false} Once(code: Code, trees: seq<Tree>, w: Oracle, n: nat, p: nat, pc: nat, t: Tree, j: nat, s: State, rest: seq<Frame>) returns (k: nat)
    requires code == Streams(trees) && WfTrees(trees) && t.Loop? && WfTree(t, |trees|) && n > 0
    requires Placed(code, p, pc, Flatten(t)) && j == pc + 2 + |Flatten(t.head)| && Value(t.cond, s.m)
    ensures Realises(code, w, At(p, j, s, rest), k, Exec(trees, w, n, t.body, s), n, p, pc + 2, rest) && k >= 1
    decreases n, t, 0
  {
    var h, _, b, e := LoopLayout(code, p, pc, t);
    assert UniqueLabels(code[p]);
    hide Steps, Step, Realises, Flatten, UniqueLabels, WfTrees, Terminal, Exec;
    StepThrough(code, w, p, j, s, rest);
    k := Simulate(code, trees, w, n, p, b, t.body, s, rest);
    k := Arm(code, w, At(p, j, s, rest), 1, p, b, s, rest, k, Exec(trees, w, n, t.body, s), n, e, pc + 1);
  }
}
