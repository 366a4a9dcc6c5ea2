/** From source procs to a run of the interpreter: compile, load, invoke. */
module EndToEnd {
  import opened Ir
  import opened Storage
  import S = Source
  import opened Trees
  import opened Lowering
  import opened LoweringMeaning
  import opened Machine
  import opened Bytecode
  import opened FrontEnd
  import opened Pipeline
  import opened Assembly
  import opened RunContext
  import CallStack
  import opened Translator
  import opened Execution
  import opened Interp

  /** Calls in a well-formed tree's stream name procs. */
  lemma {:induction false} CallsFlat(t: Tree, procs: nat)
    requires WfTree(t, procs)
    ensures forall i | 0 <= i < |Flatten(t)| && Flatten(t)[i].Call? :: Flatten(t)[i].p < procs
  {
    match t
    case Nil =>
    case Op(_) =>
    case Then(a, b) => CallsFlat(a, procs); CallsFlat(b, procs);
    case When(_, body, _) => CallsFlat(body, procs);
    case Choose(_, _, x, y, _, _) => CallsFlat(x, procs); CallsFlat(y, procs);
    case Loop(h, _, body, _, _) => CallsFlat(h, procs); CallsFlat(body, procs);
  }

  /** What the compiler stored is what the run context needs: translatable streams, known procs, and exactly the
      lowered code. */
  lemma AssembledLoaded(c: Compiler, g: Program, ctx: RunCtx)
    requires g.Compiled() && ctx.ir == c.ir && c.Idle() && Orderly(c.ir.hist) && |c.ir.procs| == |g.trees|
    requires forall p | 0 <= p < |g.trees| :: Stream(c.ir.hist, p) == Flatten(g.trees[p])
    ensures ctx.Loaded() && ctx.Code() == Streams(g.trees)
  {
    CompiledWf(g);
    forall p | 0 <= p < |g.trees|
      ensures ctx.Code()[p] == Flatten(g.trees[p])
      ensures forall i | 0 <= i < |Flatten(g.trees[p])| && Flatten(g.trees[p])[i].Call? :: Flatten(g.trees[p])[i].p < |g.trees|
    {
      StoredIsLowered(c, p, g.trees[p]);
      CallsFlat(g.trees[p], |g.trees|);
    }
    hide Unsplit, Flatten, AllTranslatable;
    assert ctx.Code() == Streams(g.trees);
  }

  /** A context in which everything is finished holds the bytecode of its streams. */
  lemma LoadedTabled(ctx: RunCtx)
    requires ctx.Loaded() && ctx.Ok({}) && ctx.Framed()
    ensures Tabled(ctx.procs, CodesOf(ctx.procs), Translated(ctx.Code()))
  {
    var procs, codes, code := ctx.procs, CodesOf(ctx.procs), ctx.Code();
    var bc := Translated(code);
    hide AllPoint, Known, Unsplit, BcOf, AllTranslatable, Translated;
    forall q: nat | Has(procs, q)
      ensures procs[q].id == q && q < |bc| && AllPoint(codes[q], bc[q], procs) && procs[q].frameAlign > 0
    {
      assert Sound(codes[q], code[q], procs, ctx.natives);
    }
  }

  /** Load a proc and run it on a fresh interpreter. */
  method LoadRun(ctx: RunCtx, ghost g: Program, p: nat, world: World, data: nat, fuel: nat)
    returns (loaded: bool, o: Ending, ghost tr: Trace)
    requires g.Compiled() && p < |g.src| && Quiet(world)
    requires ctx.Loaded() && ctx.Code() == Streams(g.trees) && ctx.procs == []
    modifies ctx
    ensures loaded <==> Resolvable(Streams(g.trees), ctx.natives, p)
    ensures loaded ==> Outcomes(g.src, world.w, p, o, tr) && Agrees(Pipeline.Bc(g), world.w, Start(p), tr, fuel, o)
  {
    hide Streams, RunCtx.Loaded, Resolvable, Quiet, Outcomes, Tabled, Translated, Sound, Agrees;
    assert ctx.Ok({}) && ctx.Framed();
    loaded := ctx.Load(p);
    o, tr := Wrong, [];
    if loaded {
      LoadedTabled(ctx);
      assert ctx.procs[p].id == p && ctx.procs[p].frameAlign > 0 by { TabledAt(ctx.procs, CodesOf(ctx.procs), Translated(ctx.Code()), p); }
      var interp := new Interp(world, data, ctx.procs, Translated(ctx.Code()));
      o := interp.Invoke(ctx.procs[p], 0, 0, fuel);
      tr := interp.trace;
      RunIsSource(g, world.w, p, fuel, o, tr);
    }
  }

  lemma TabledAt(procs: ProcTable, codes: seq<seq<Bc<BcProc?>>>, bc: BcCode, p: nat)
    requires Tabled(procs, codes, bc) && Has(procs, p)
    ensures procs[p].id == p && procs[p].frameAlign > 0
  {
    hide AllPoint;
  }

  /** Compile a program, load one of its procs and run it on a fresh interpreter. Loading succeeds exactly when
      everything the proc can reach has an address; then the run never goes wrong, it is over only when the source
      has returned with the same history, and while it goes on its history is one the source goes through, by as
      many steps as there were rounds. */
  method CompileLoadRun(c: Compiler, src: seq<S.Stmt>, natives: set<nat>, p: nat, world: World, data: nat, fuel: nat)
    returns (loaded: bool, o: Ending, ghost tr: Trace)
    requires c.Idle() && c.ir.procs == [] && c.ir.hist == [] && S.WfProg(src) && p < |src|
    requires Quiet(world)
    modifies c, c.ir
    ensures var g := LowerFrom(src, old(c.env).nextLabel, c.logging);
            && (loaded <==> Resolvable(Streams(g.trees), natives, p))
            && (loaded ==> Outcomes(src, world.w, p, o, tr) && Agrees(Pipeline.Bc(g), world.w, Start(p), tr, fuel, o))
  {
    ghost var g := LowerFrom(src, c.env.nextLabel, c.logging);
    LoweredCompiled(src, c.env.nextLabel, c.logging);
    CompileProgram(c, src);
    var ctx := new RunCtx(c.ir, natives, 0);
    AssembledLoaded(c, g, ctx);
    hide S.WfProg, LowerFrom, Streams, RunCtx.Loaded, Resolvable, Quiet, Outcomes, Orderly, Compiler.Idle, Program.Compiled;
    loaded, o, tr := LoadRun(ctx, g, p, world, data, fuel);
  }

  /** What a run may end in, in terms of the source alone: a run given up has a history the source has too. */
  ghost predicate Outcomes(src: seq<S.Stmt>, w: Oracle, p: nat, o: Ending, tr: Trace)
    requires p < |src|
  {
    match o
    case Ended => exists v :: SourceReturns(src, w, p, tr, v)
    case OutOfFuel =>
      && (exists n: nat :: tr <= S.RunProc(src, w, n, p, []).tr)
      && (forall tr', v | SourceReturns(src, w, p, tr', v) :: tr <= tr')
    case Wrong => false
  }

  lemma {:induction false} HistoryGrows(bc: BcCode, w: Oracle, c: Config, k: nat)
    ensures c.tr <= StepsBc(bc, w, c, k).tr
    decreases k
  {
    if k > 0 { HistoryGrows(bc, w, StepBc(bc, w, c), k - 1); }
  }

  /** A run that has ended stays as it is. */
  lemma Ends(bc: BcCode, w: Oracle, c: Config, k: nat, n: nat)
    requires !StepsBc(bc, w, c, k).Run? && k <= n
    ensures StepsBc(bc, w, c, n) == StepsBc(bc, w, c, k)
  {
    StepsBcAdd(bc, w, c, k, n - k);
    EndsStayBc(bc, w, StepsBc(bc, w, c, k), n - k);
  }

  lemma NotYet(g: Program, w: Oracle, p: nat, fuel: nat, tr: Trace, v: Option<bool>)
    requires g.Compiled() && p < |g.src| && StepsBc(Pipeline.Bc(g), w, Start(p), fuel).Run? && SourceReturns(g.src, w, p, tr, v)
    ensures StepsBc(Pipeline.Bc(g), w, Start(p), fuel).tr <= tr
  {
    hide StepBc, S.RunProc, Program.Compiled, Pipeline.Bc;
    var n: nat :| S.RunProc(g.src, w, n, p, []) == S.Returned(tr, v);
    var k := SourceToBytecode(g, w, n, p);
    if k <= fuel { Ends(Pipeline.Bc(g), w, Start(p), k, fuel); }
    StepsBcAdd(Pipeline.Bc(g), w, Start(p), fuel, k - fuel);
    HistoryGrows(Pipeline.Bc(g), w, StepsBc(Pipeline.Bc(g), w, Start(p), fuel), k - fuel);
  }

  lemma RunIsSource(g: Program, w: Oracle, p: nat, fuel: nat, o: Ending, tr: Trace)
    requires g.Compiled() && p < |g.src|
    requires Agrees(Pipeline.Bc(g), w, Start(p), tr, fuel, o)
    ensures Outcomes(g.src, w, p, o, tr)
  {
    hide Pipeline.Bc;
    match o
    case Ended =>
      var k: nat :| k <= fuel && StepsBc(Pipeline.Bc(g), w, Start(p), k).Halt? && StepsBc(Pipeline.Bc(g), w, Start(p), k).tr == tr;
      var n := BytecodeToSource(g, w, p, k);
      assert SourceReturns(g.src, w, p, tr, StepsBc(Pipeline.Bc(g), w, Start(p), k).v);
    case OutOfFuel =>
      var n := HistoryOfSource(g, w, p, fuel);
      forall tr', v | SourceReturns(g.src, w, p, tr', v) ensures tr <= tr' { NotYet(g, w, p, fuel, tr', v); }
    case Wrong =>
      var k: nat :| k <= fuel && StepsBc(Pipeline.Bc(g), w, Start(p), k).Stuck?;
      var n := BytecodeToSource(g, w, p, k);
  }

  /** Every history of the source is reached by every large enough number of rounds, and the end if it returns. */
  lemma EnoughRounds(g: Program, w: Oracle, p: nat, n: nat) returns (k: nat)
    requires g.Compiled() && p < |g.src|
    ensures forall fuel: nat, o, tr | fuel >= k && Agrees(Pipeline.Bc(g), w, Start(p), tr, fuel, o) ::
              var so := S.RunProc(g.src, w, n, p, []);
              !o.Wrong? && so.tr <= tr && (so.Returned? ==> o.Ended? && tr == so.tr)
  {
    k := SourceToBytecode(g, w, n, p);
    forall fuel: nat, o, tr | fuel >= k && Agrees(Pipeline.Bc(g), w, Start(p), tr, fuel, o)
      ensures var so := S.RunProc(g.src, w, n, p, []);
              !o.Wrong? && so.tr <= tr && (so.Returned? ==> o.Ended? && tr == so.tr)
    {
      RunIsSource(g, w, p, fuel, o, tr);
      RoundsReach(Pipeline.Bc(g), w, Start(p), k, fuel, o, tr);
    }
  }

  lemma RoundsReach(bc: BcCode, w: Oracle, c: Config, k: nat, fuel: nat, o: Ending, tr: Trace)
    requires k <= fuel && Agrees(bc, w, c, tr, fuel, o) && !o.Wrong?
    ensures StepsBc(bc, w, c, k).tr <= tr
    ensures !StepsBc(bc, w, c, k).Run? ==> o.Ended? && tr == StepsBc(bc, w, c, k).tr
  {
    var d := StepsBc(bc, w, c, k);
    hide StepBc;
    if o.Ended? {
      var j: nat :| j <= fuel && StepsBc(bc, w, c, j).Halt? && StepsBc(bc, w, c, j).tr == tr;
      Ends(bc, w, c, j, fuel);
    }
    if !d.Run? { Ends(bc, w, c, k, fuel); }
    StepsBcAdd(bc, w, c, k, fuel - k);
    HistoryGrows(bc, w, d, fuel - k);
  }
}
