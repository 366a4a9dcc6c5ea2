/** The whole way: source to trees to streams to bytecode. */
module Pipeline {
  import opened Ir
  import S = Source
  import opened Trees
  import opened Lowering
  import opened LoweringMeaning
  import opened LoweringShape
  import opened Machine
  import opened Bytecode

  /** Procs lowered in order, each with the labels free at the time. */
  function LowerFrom(src: seq<S.Stmt>, first: nat, logging: bool): (g: Program)
    ensures g.src == src && g.logging == logging && |g.trees| == |g.starts| == |src|
  {
    if src == [] then Program([], [], [], logging) else
    var c := LowerProc(src[0], first, logging);
    var rest := LowerFrom(src[1..], c.env.nextLabel, logging);
    Program(src, [c.t] + rest.trees, [first] + rest.starts, logging)
  }

  lemma {:induction false} LoweredEach(src: seq<S.Stmt>, first: nat, logging: bool, p: nat)
    requires p < |src|
    ensures var g := LowerFrom(src, first, logging); g.trees[p] == LowerProc(src[p], g.starts[p], logging).t
  {
    var c := LowerProc(src[0], first, logging);
    if p > 0 { LoweredEach(src[1..], c.env.nextLabel, logging, p - 1); }
  }

  lemma LoweredCompiled(src: seq<S.Stmt>, first: nat, logging: bool)
    requires S.WfProg(src)
    ensures LowerFrom(src, first, logging).Compiled()
  {
    forall p | 0 <= p < |src|
      ensures var g := LowerFrom(src, first, logging); g.trees[p] == LowerProc(src[p], g.starts[p], logging).t
    {
      LoweredEach(src, first, logging, p);
    }
  }

  lemma CompiledWf(g: Program)
    requires g.Compiled()
    ensures WfTrees(g.trees)
    ensures AllTranslatable(Streams(g.trees))
  {
    var procs := |g.src|;
    forall p | 0 <= p < procs
      ensures WfTree(g.trees[p], procs) && Terminal(g.trees[p]) && Translatable(Flatten(g.trees[p]))
    {
      LowerProcGood(g.src[p], g.starts[p], g.logging, procs);
      ProcTerminal(g.src[p], g.starts[p], g.logging);
      UniqueFlat(g.trees[p]);
      JumpsFlat(g.trees[p], procs);
      TargetsFlat(g.trees[p], procs);
    }
  }

  function Start(p: nat): Config { Run([Frame(p, 0, map[])], []) }

  function Bc(g: Program): BcCode { Translated(Streams(g.trees)) }

  lemma StartMaps(code: Code, p: nat)
    ensures MapConfig(code, Start(p)) == Start(p)
  {
    if p < |code| { StartPc(code[p]); }
  }

  /** The stream machine realises the source run. */
  lemma StreamRun(g: Program, w: Oracle, n: nat, p: nat) returns (k: nat)
    requires g.Compiled() && p < |g.src|
    ensures var d := Steps(Streams(g.trees), w, Start(p), k);
            match S.RunProc(g.src, w, n, p, [])
            case Returned(tr, v) => d == Halt(tr, v)
            case o => k >= n && d.Run? && d.tr == o.tr
  {
    CompiledWf(g);
    LowerProcRight(g, w, n, p, []);
    var code, s := Streams(g.trees), State([], map[]);
    k := Simulate(code, g.trees, w, n, p, 0, g.trees[p], s, []);
    TerminalNeverDone(g.trees, w, n, g.trees[p], s);
    assert At(p, 0, s, []) == Start(p);
  }

  /** What the bytecode reaches for good, the stream reaches. */
  lemma StreamEnds(g: Program, w: Oracle, p: nat, k: nat) returns (j: nat)
    requires g.Compiled() && !StepsBc(Bc(g), w, Start(p), k).Run?
    ensures Steps(Streams(g.trees), w, Start(p), j) == StepsBc(Bc(g), w, Start(p), k)
  {
    CompiledWf(g);
    StartMaps(Streams(g.trees), p);
    j := Backward(Streams(g.trees), w, Start(p), k);
  }

  lemma EndsAgree(code: Code, w: Oracle, c: Config, k: nat, j: nat)
    requires !Steps(code, w, c, k).Run? && k <= j
    ensures Steps(code, w, c, j) == Steps(code, w, c, k)
  {
    StepsAdd(code, w, c, k, j - k);
    EndsStay(code, w, Steps(code, w, c, k), j - k);
  }

  ghost predicate SourceReturns(src: seq<S.Stmt>, w: Oracle, p: nat, tr: Trace, v: Option<bool>)
    requires p < |src|
  {
    exists n: nat :: S.RunProc(src, w, n, p, []) == S.Returned(tr, v)
  }

  ghost predicate BytecodeReturns(bc: BcCode, w: Oracle, p: nat, tr: Trace, v: Option<bool>) {
    exists k: nat :: StepsBc(bc, w, Start(p), k) == Halt(tr, v)
  }

  lemma SourceToBytecode(g: Program, w: Oracle, n: nat, p: nat) returns (k: nat)
    requires g.Compiled() && p < |g.src|
    ensures var d := StepsBc(Bc(g), w, Start(p), k);
            match S.RunProc(g.src, w, n, p, [])
            case Returned(tr, v) => d == Halt(tr, v)
            case o => d.Run? && d.tr == o.tr
  {
    CompiledWf(g);
    StartMaps(Streams(g.trees), p);
    var j := StreamRun(g, w, n, p);
    k := Forward(Streams(g.trees), w, Start(p), j);
  }

  /** When the bytecode ends, the source has ended the same way; in particular it never gets stuck. */
  lemma BytecodeToSource(g: Program, w: Oracle, p: nat, k: nat) returns (n: nat)
    requires g.Compiled() && p < |g.src| && !StepsBc(Bc(g), w, Start(p), k).Run?
    ensures var d := StepsBc(Bc(g), w, Start(p), k);
            d.Halt? && S.RunProc(g.src, w, n, p, []) == S.Returned(d.tr, d.v)
  {
    var code := Streams(g.trees);
    var j := StreamEnds(g, w, p, k);
    n := j + 1;
    var i := StreamRun(g, w, n, p);
    if i >= j {
      EndsAgree(code, w, Start(p), j, i);
    } else {
      EndsAgree(code, w, Start(p), i, j);
    }
  }

  /** Compiled and interpreted, a proc returns with a history and a result exactly when its source does. */
  lemma BytecodeAgreesWithSource(src: seq<S.Stmt>, first: nat, logging: bool, w: Oracle, p: nat, tr: Trace, v: Option<bool>)
    requires S.WfProg(src) && p < |src|
    ensures SourceReturns(src, w, p, tr, v) <==> BytecodeReturns(Bc(LowerFrom(src, first, logging)), w, p, tr, v)
  {
    var g := LowerFrom(src, first, logging);
    LoweredCompiled(src, first, logging);
    if SourceReturns(src, w, p, tr, v) {
      var n: nat :| S.RunProc(src, w, n, p, []) == S.Returned(tr, v);
      var k := SourceToBytecode(g, w, n, p);
    }
    if BytecodeReturns(Bc(g), w, p, tr, v) {
      var k: nat :| StepsBc(Bc(g), w, Start(p), k) == Halt(tr, v);
      var n := BytecodeToSource(g, w, p, k);
    }
  }

  lemma {:induction false} StreamHistoryGrows(code: Code, w: Oracle, c: Config, k: nat)
    ensures c.tr <= Steps(code, w, c, k).tr
    decreases k
  {
    if k > 0 { StreamHistoryGrows(code, w, Step(code, w, c), k - 1); }
  }

  /** Whatever history the bytecode has reached, the source reaches it too. */
  lemma HistoryOfSource(g: Program, w: Oracle, p: nat, k: nat) returns (n: nat)
    requires g.Compiled() && p < |g.src|
    ensures StepsBc(Bc(g), w, Start(p), k).tr <= S.RunProc(g.src, w, n, p, []).tr
  {
    hide Step, Streams;
    CompiledWf(g);
    var code, c := Streams(g.trees), Start(p);
    StartMaps(code, p);
    n := Backward(code, w, c, k);
    var i := StreamRun(g, w, n, p);
    if i < n {
      EndsAgree(code, w, c, i, n);
    } else {
      StepsAdd(code, w, c, n, i - n);
      StreamHistoryGrows(code, w, Steps(code, w, c, n), i - n);
    }
  }

  /** Returning or not, source and bytecode go through the same histories: each one of the source is one of the
      bytecode, each one of the bytecode is on the way to one of the source, and the bytecode never gets stuck. */
  lemma RunningAgrees(src: seq<S.Stmt>, first: nat, logging: bool, w: Oracle, p: nat, n: nat)
    requires S.WfProg(src) && p < |src|
    ensures exists k: nat :: Reached(src, first, logging, w, p, k).tr == S.RunProc(src, w, n, p, []).tr
    ensures exists k: nat :: Reached(src, first, logging, w, p, n).tr <= S.RunProc(src, w, k, p, []).tr
    ensures !Reached(src, first, logging, w, p, n).Stuck?
  {
    var g := LowerFrom(src, first, logging);
    LoweredCompiled(src, first, logging);
    var k := SourceToBytecode(g, w, n, p);
    assert Reached(src, first, logging, w, p, k).tr == S.RunProc(src, w, n, p, []).tr;
    var m := HistoryOfSource(g, w, p, n);
    if !Reached(src, first, logging, w, p, n).Run? {
      var _ := BytecodeToSource(g, w, p, n);
    }
  }

  /** Where the bytecode of a program is after n steps of a proc. */
  function Reached(src: seq<S.Stmt>, first: nat, logging: bool, w: Oracle, p: nat, n: nat): Config {
    StepsBc(Bc(LowerFrom(src, first, logging)), w, Start(p), n)
  }

  // --- A return inside a deferred statement ---

  /** A deferred return is harmless if it is conditional, or if a label is compiled before its scope is left. */
  lemma DeferredReturns(c: S.Expr, a: nat)
    ensures S.ExitsProc(S.List([S.Defer(S.If(c, S.Return(None), None)), S.Act(a)]))
    ensures S.ExitsProc(S.List([S.Defer(S.Return(None)), S.If(c, S.Act(a), None)]))
    ensures !S.ExitsProc(S.List([S.Defer(S.Return(None)), S.Act(a)]))
  {
    var ret, act, branch := S.Defer(S.Return(None)), S.Act(a), S.If(c, S.Act(a), None);
    var deferred := S.Defer(S.If(c, S.Return(None), None));
    ExitsTwo(deferred, act);
    ExitsTwo(ret, branch);
    ExitsTwo(ret, act);
    hide S.ExitsProc, S.ExitsAll, S.RaisedAll;
    assert S.ExitsScope(S.Return(None), false) && S.ExitsScope(act, !S.Branches(c));
    assert S.Exits(deferred.s, false) && !S.Raised(deferred, false) && S.Exits(branch, true);
  }

  lemma ExitsTwo(x: S.Stmt, y: S.Stmt)
    requires !S.NeverEnds(x) && !S.NeverEnds(y)
    ensures var f := S.Raised(x, false);
            S.ExitsProc(S.List([x, y])) <==> S.Exits(x, false) && S.Exits(y, f) && !S.Raised(y, f)
  {
    ReturnsTwo(x, y);
    var s := S.List([x, y]);
    assert S.Exits(s, false) == S.ExitsAll(s.ss, false) && S.Raised(s, false) == S.RaisedAll(s.ss, false);
    hide S.Exits, S.Raised, S.NeverEnds, S.ExitsAll, S.RaisedAll;
  }

  lemma ReturnsTwo(x: S.Stmt, y: S.Stmt)
    ensures S.RaisedAll([x, y], false) == S.Raised(y, S.Raised(x, false))
    ensures S.ExitsAll([x, y], false) == (S.Exits(x, false) && (S.NeverEnds(x) || S.Exits(y, S.Raised(x, false))))
    ensures S.NeverEnds(S.List([x, y])) <==> S.NeverEnds(x) || S.NeverEnds(y)
  {
    assert [x, y][1..] == [y] && [y][1..] == [];
    assert S.RaisedAll([y], S.Raised(x, false)) == S.Raised(y, S.Raised(x, false));
    assert S.ExitsAll([y], S.Raised(x, false)) == S.Exits(y, S.Raised(x, false));
    assert x in [x, y] && y in [x, y];
    hide S.Exits, S.Raised;
  }

  /** defer { return }; act 1. The source acts and returns. */
  lemma DeferredReturnSource(w: Oracle, n: nat)
    ensures var body := S.List([S.Defer(S.Return(None)), S.Act(1)]);
            S.RunProc([body], w, n, 0, []) == S.Returned([EvDo(1), EvRet(None)], None)
  {
    var d := S.Return(None);
    var ss := [S.Defer(d), S.Act(1)];
    var prog := [S.List(ss)];
    var st: S.Defers := [[d]];
    assert ss[1..] == [S.Act(1)] && ss[1..][1..] == [];
    var none: S.Defers := [[]];
    assert [d] + none[0] == [d];
    assert none[1..] == [] && [[d] + none[0]] + none[1..] == st;
    assert S.Exec(prog, w, n, ss[0], [[]], []) == S.Done(st, []);
    assert S.ExecAll(prog, w, n, ss[1..], st, []) == S.Done(st, [EvDo(1)]);
    assert S.ExecAll(prog, w, n, ss, [[]], []) == S.Done(st, [EvDo(1)]);
    var popped: S.Defers := [[]];
    assert [st[0][1..]] + st[1..] == popped;
    assert popped[1..] == [];
    assert S.UnwindAll(prog, w, n, popped[1..], [EvDo(1)]) == S.Done([], [EvDo(1)]);
    assert S.Unwind(prog, w, n, popped, [EvDo(1)]) == S.Done(popped, [EvDo(1)]);
    assert S.UnwindAll(prog, w, n, popped, [EvDo(1)]) == S.Done([], [EvDo(1)]);
    assert S.Exec(prog, w, n, d, popped, [EvDo(1)]) == S.Returned([EvDo(1), EvRet(None)], None);
    assert S.RunBody(prog, w, n, prog[0], []) == S.Returned([EvDo(1), EvRet(None)], None);
  }

  /** The emitted code acts and falls off its end, because recording the deferred return left the block
      marked as having returned: neither the defers nor a final return are emitted. */
  lemma DeferredReturnFallsOff(w: Oracle, n: nat)
    ensures var body := S.List([S.Defer(S.Return(None)), S.Act(1)]);
            var t := LowerProc(body, 0, false).t;
            Flatten(t) == [Label(0), Do(1)] && Exec([t], w, n, t, State([], map[])).Done?
  {
    DeferredReturnCode();
    var act := Then(Nil, Then(Op(Do(1)), Nil));
    var t := Then(Op(Label(0)), Then(act, Then(Nil, Nil)));
    var s := State([], map[]);
    ExecThen([t], w, n, Op(Label(0)), Then(act, Then(Nil, Nil)), s);
    ExecThen([t], w, n, act, Then(Nil, Nil), s);
    ExecThen([t], w, n, Nil, Then(Op(Do(1)), Nil), s);
    ExecThen([t], w, n, Op(Do(1)), Nil, s);
    assert Flatten(act) == [Do(1)] by { assert Flatten(Then(Op(Do(1)), Nil)) == [Do(1)]; }
    hide LowerProc;
  }

  lemma DeferredReturnCode()
    ensures LowerProc(S.List([S.Defer(S.Return(None)), S.Act(1)]), 0, false).t ==
            Then(Op(Label(0)), Then(Then(Nil, Then(Op(Do(1)), Nil)), Then(Nil, Nil)))
  {
    var ss := [S.Defer(S.Return(None)), S.Act(1)];
    var env := BodyEnv(0, false);
    assert ss[1..] == [S.Act(1)] && ss[1..][1..] == [];
    var c := Lower(ss[0], env);
    assert c.t == Nil && c.env.hasReturn;
    assert Lower(S.Act(1), c.env) == StmtCode(Op(Do(1)), c.env) && LowerAll([], c.env) == StmtCode(Nil, c.env);
    assert ss[1..][0] == S.Act(1);
    assert LowerAll(ss[1..], c.env) == StmtCode(Then(Op(Do(1)), Nil), c.env);
    assert Lower(S.List(ss), env) == LowerAll(ss, env) == StmtCode(Then(Nil, Then(Op(Do(1)), Nil)), c.env);
    hide Lower, LowerAll;
  }
}
