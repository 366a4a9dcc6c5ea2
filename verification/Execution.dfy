/** What one instruction does to the interpreter's state, and which bytecode configuration a state stands for. */
module Execution {
  import opened Ir
  import M = Machine
  import opened Bytecode
  import opened Translator
  import opened RunContext
  import opened CallStack
  import opened Arena

  type Locals = map<nat, Temps>   // by frame address

  /** A proc the native side invokes, with the argument and result pointers it passes. */
  datatype Callback = Callback(proc: BcProc, args: nat, ret: nat)

  /** The world outside: leaf outcomes, argument counts, what natives call back, and how much they put on the
      stack. */
  datatype World = World(w: Oracle, argc: BcProc -> nat, nativeArgc: nat -> nat, callbacks: (nat, Trace) -> seq<Callback>,
                         extra: nat -> nat)

  /** Natives that never call back. */
  ghost predicate Quiet(world: World) { forall a, tr :: world.callbacks(a, tr) == [] }

  datatype Ending = Ended | OutOfFuel | Wrong

  function Fetched(s: Ctx): Ctx
    requires s.pc.At?
  {
    s.(pc := At(s.pc.proc, s.pc.index + 1))
  }

  /** What a fetched instruction does to the context and the activities on the stack. */
  ghost predicate Executes(data: nat, f: StackState, i: Bc<BcProc?>, m: Temps, world: World, b: StackState)
    requires f.ctx.pc.At?
  {
    match i
    case Goto(k) => b == GoTo(f, k)
    case GotoZ(c, k) => b == if Value(c, m) then f else GoTo(f, k)
    case GotoNz(c, k) => b == if Value(c, m) then GoTo(f, k) else f
    case Enter(callee) =>
      callee != null && callee.frameAlign > 0 &&
      (var l := Layer.Call(f.ctx, callee, world.argc(callee)); b == StackState(Entered(data, l), [l] + f.layers))
    case Leave(_) => f.ctx.control != [] && f.layers != [] && b == StackState(CallStack.Ret(f.ctx), f.layers[1..])
    case Plain(_) => b == f
  }

  function GoTo(f: StackState, k: nat): StackState
    requires f.ctx.pc.At?
  {
    f.(ctx := f.ctx.(pc := At(f.ctx.pc.proc, k)))
  }

  /** One round: fetch, advance, execute. */
  ghost predicate Steps(data: nat, a: StackState, i: Bc<BcProc?>, m: Temps, world: World, b: StackState)
    requires a.ctx.pc.At?
  {
    Executes(data, a.(ctx := Fetched(a.ctx)), i, m, world, b)
  }

  /** What an instruction does to the running proc's locals and to the history, given natives that never call
      back. A call's locals start empty. */
  ghost predicate Acts(w: Oracle, i: Bc<BcProc?>, f0: nat, l0: Locals, t0: Trace, f1: nat, l1: Locals, t1: Trace)
    requires f0 in l0
  {
    match i
    case Enter(callee) => callee != null && l1 == l0[f1 := map[]] && t1 == t0 + [EvCall(callee.id)]
    case Leave(r) => l1 == l0 && t1 == t0 + [EvRet(RetValue(r, l0[f0]))]
    case Plain(i) =>
      var s := Effect(w, i, Ir.State(t0, l0[f0]));
      l1 == l0[f0 := s.m] && t1 == s.tr
    case _ => l1 == l0 && t1 == t0
  }

  /** There is an instruction, and if it is a call, something to call. */
  predicate CanRun(code: seq<Bc<BcProc?>>, k: nat) {
    k < |code| && (code[k].Enter? ==> code[k].callee != null && code[k].callee.frameAlign > 0)
  }

  /** Every proc on the stack has locals. */
  ghost predicate HasLocals(s: Ctx, layers: seq<Layer>, locals: set<nat>)
    decreases |layers|
  {
    layers == [] ||
    ((layers[0].Native? || s.frame in locals) && HasLocals(layers[0].before, layers[1..], locals))
  }

  lemma {:induction false} MoreLocals(s: Ctx, layers: seq<Layer>, locals: set<nat>, locals': set<nat>)
    requires HasLocals(s, layers, locals) && locals <= locals'
    ensures HasLocals(s, layers, locals')
    decreases |layers|
  {
    if layers != [] { MoreLocals(layers[0].before, layers[1..], locals, locals'); }
  }

  lemma NativeLinked(data: nat, before: Ctx, l: Layer, layers: seq<Layer>, locals: set<nat>)
    requires Linked(data, before, layers) && HasLocals(before, layers, locals) && !Outside(layers)
    requires l.Native? && l.before == before && l.ffi == before.ffi
    ensures Linked(data, Entered(data, l), [l] + layers) && HasLocals(Entered(data, l), [l] + layers, locals)
  {
    assert ([l] + layers)[1..] == layers;
  }

  /** The running frame lies above everything its caller uses, and has locals. */
  lemma FrameAbove(data: nat, s: Ctx, layers: seq<Layer>)
    requires Linked(data, s, layers) && !Outside(layers)
    ensures data + layers[0].before.size < s.frame <= data + s.size
  {
    OwnFrame(data, s, layers);
    MemoryStacked(data, layers[0]);
    hide Linked, Memory;
  }

  /** Locals at and below an address are as they were. */
  ghost predicate Kept(a: Locals, b: Locals, upTo: nat) {
    forall x | x <= upTo && x in a :: x in b && b[x] == a[x]
  }

  // --- One round, inside an invocation ---

  /** Inside the invocation entry, begun in the context base: only calls lie above it. */
  ghost predicate Inside(base: StackState, entry: Layer, m: StackState) {
    && entry.Entry? && entry.before == base.ctx && |m.layers| > |base.layers|
    && m.layers[|m.layers| - |base.layers| - 1..] == [entry] + base.layers
    && forall j | 0 <= j < |m.layers| - |base.layers| - 1 :: m.layers[j].Call?
  }

  lemma InsideTop(base: StackState, entry: Layer, m: StackState)
    requires Inside(base, entry, m)
    ensures |m.layers| > |base.layers|
    ensures !Outside(m.layers)
    ensures |m.layers| == |base.layers| + 1 ==> m.layers[0] == entry && m.layers[1..] == base.layers
    ensures |m.layers| > |base.layers| + 1 ==> m.layers[0].Call?
  {
    var k := |m.layers| - |base.layers| - 1;
    assert m.layers[k] == m.layers[k..][0];
    if k == 0 { assert m.layers[1..] == m.layers[k..][1..]; }
  }

  lemma {:induction false} InsideSize(data: nat, base: StackState, entry: Layer, m: StackState)
    requires Inside(base, entry, m) && Linked(data, m.ctx, m.layers)
    ensures base.ctx.size <= m.layers[0].before.size
    decreases |m.layers|
  {
    InsideTop(base, entry, m);
    if |m.layers| > |base.layers| + 1 {
      var m' := StackState(m.layers[0].before, m.layers[1..]);
      InsideBelow(base, entry, m);
      InsideSize(data, base, entry, m');
      LeaveRestores(data, m'.ctx, m'.layers);
    }
  }

  lemma InsideBelow(base: StackState, entry: Layer, m: StackState)
    requires Inside(base, entry, m) && |m.layers| > |base.layers| + 1
    ensures Inside(base, entry, StackState(m.layers[0].before, m.layers[1..]))
  {
    var k := |m.layers| - |base.layers| - 1;
    assert m.layers[1..][k - 1..] == m.layers[k..];
  }

  lemma InsideAbove(base: StackState, entry: Layer, m: StackState, s: Ctx, l: Layer)
    requires Inside(base, entry, m) && l.Call?
    ensures Inside(base, entry, StackState(s, [l] + m.layers))
  {
    var k := |m.layers| - |base.layers| - 1;
    assert ([l] + m.layers)[k + 1..] == m.layers[k..];
  }

  /** The invocation is over: the context is base's, except for what the loop itself restores. */
  ghost predicate Over(base: StackState, m: StackState) {
    && m.ctx.pc == Nowhere && m.layers == base.layers
    && m.ctx.(pc := base.ctx.pc, ffi := base.ctx.ffi) == base.ctx
  }

  lemma FetchedLinked(data: nat, a: StackState)
    requires Linked(data, a.ctx, a.layers) && !Outside(a.layers)
    ensures a.ctx.pc.At? && a.ctx.instr == a.ctx.pc.proc && Linked(data, Fetched(a.ctx), a.layers)
  {}

  /** Jumping within the proc. */
  lemma GoneLinked(data: nat, f: StackState, b: StackState)
    requires Linked(data, f.ctx, f.layers) && !Outside(f.layers) && f.ctx.pc.At?
    requires Moves(f, b)
    ensures Linked(data, b.ctx, b.layers) && b.ctx.pc.At? && b.layers == f.layers
  {}

  lemma CallLeft(data: nat, f: StackState)
    requires f.layers != [] && Linked(data, f.ctx, f.layers) && f.layers[0].Call? && f.ctx.control != []
    ensures CallStack.Ret(f.ctx) == f.layers[0].before
    ensures Linked(data, f.layers[0].before, f.layers[1..]) && f.layers[0].before.pc.At?
  {
    LeaveRestores(data, f.ctx, f.layers);
  }

  lemma EntryLeft(data: nat, f: StackState)
    requires f.layers != [] && Linked(data, f.ctx, f.layers) && f.layers[0].Entry? && f.ctx.control != []
    ensures var b := CallStack.Ret(f.ctx);
            var before := f.layers[0].before;
            b.pc == Nowhere && b.(pc := before.pc, ffi := before.ffi) == before
  {
    LeaveRestores(data, f.ctx, f.layers);
  }

  lemma InsideSame(base: StackState, entry: Layer, m: StackState, s: Ctx)
    requires Inside(base, entry, m)
    ensures Inside(base, entry, StackState(s, m.layers))
  {}

  lemma EnterInside(data: nat, base: StackState, entry: Layer, f: StackState, l: Layer)
    requires Inside(base, entry, f) && Linked(data, f.ctx, f.layers) && f.ctx.pc.At?
    requires l.Call? && l.before == f.ctx && Fits(l)
    ensures var b := StackState(Entered(data, l), [l] + f.layers);
            Inside(base, entry, b) && Linked(data, b.ctx, b.layers) && b.ctx.pc.At?
  {
    InsideTop(base, entry, f);
    hide Inside;
    InsideAbove(base, entry, f, Entered(data, l), l);
    assert ([l] + f.layers)[1..] == f.layers;
  }

  lemma LeaveInside(data: nat, base: StackState, entry: Layer, f: StackState)
    requires Inside(base, entry, f) && Linked(data, f.ctx, f.layers) && f.ctx.control != []
    ensures f.layers != []
    ensures var b := StackState(CallStack.Ret(f.ctx), f.layers[1..]);
            if |f.layers| == |base.layers| + 1 then Over(base, b)
            else Inside(base, entry, b) && Linked(data, b.ctx, b.layers) && b.ctx.pc.At?
  {
    InsideTop(base, entry, f);
    assert entry.Entry? && entry.before == base.ctx;
    hide Inside, Linked, Outside;
    if |f.layers| == |base.layers| + 1 {
      EntryLeft(data, f);
    } else {
      CallLeft(data, f);
      InsideBelow(base, entry, f);
    }
  }

  lemma StepInside(data: nat, base: StackState, entry: Layer, a: StackState, i: Bc<BcProc?>, m: Temps, world: World, b: StackState)
    requires Inside(base, entry, a) && Linked(data, a.ctx, a.layers)
    requires a.ctx.pc.At? && Steps(data, a, i, m, world, b)
    ensures if i.Leave? && |a.layers| == |base.layers| + 1 then Over(base, b)
            else Inside(base, entry, b) && Linked(data, b.ctx, b.layers) && b.ctx.pc.At?
  {
    var f := StackState(Fetched(a.ctx), a.layers);
    StepsExecute(data, a, i, m, world, b);
    FetchedLinked(data, a);
    hide *;
    InsideTop(base, entry, a);
    InsideSame(base, entry, a, f.ctx);
    if i.Enter? {
      EnterInside(data, base, entry, f, Layer.Call(f.ctx, i.callee, world.argc(i.callee)));
    } else if i.Leave? {
      LeaveInside(data, base, entry, f);
    } else {
      GoneLinked(data, f, b);
      InsideSame(base, entry, f, b.ctx);
    }
  }

  lemma StepsExecute(data: nat, a: StackState, i: Bc<BcProc?>, m: Temps, world: World, b: StackState)
    requires a.ctx.pc.At? && Steps(data, a, i, m, world, b)
    ensures var f := StackState(Fetched(a.ctx), a.layers);
            && f.ctx.pc.At?
            && (i.Enter? ==>
                  i.callee != null && i.callee.frameAlign > 0 &&
                  (var l := Layer.Call(f.ctx, i.callee, world.argc(i.callee));
                   Fits(l) && b == StackState(Entered(data, l), [l] + f.layers)))
            && (i.Leave? ==> f.ctx.control != [] && f.layers != [] && b == StackState(CallStack.Ret(f.ctx), f.layers[1..]))
            && (!i.Enter? && !i.Leave? ==> Moves(f, b))
  {
    hide Entered, CallStack.Ret;
  }

  /** Nothing changes but, at most, the next instruction within the proc. */
  ghost predicate Moves(f: StackState, b: StackState)
    requires f.ctx.pc.At?
  {
    b == f || exists k: nat :: b == GoTo(f, k)
  }

  // --- Which configuration of the bytecode machine a state stands for ---

  /** Each proc of the table is its own number's bytecode, with callees from the table. */
  ghost predicate Tabled(procs: ProcTable, codes: seq<seq<Bc<BcProc?>>>, bc: BcCode) {
    && |codes| == |procs|
    && forall q: nat | Has(procs, q) ::
         procs[q].id == q && q < |bc| && AllPoint(codes[q], bc[q], procs) && procs[q].frameAlign > 0
  }

  /** From the running proc out to the invocation: procs, positions and locals. */
  ghost predicate Shows(s: Ctx, layers: seq<Layer>, locals: Locals, procs: ProcTable, fs: seq<M.Frame>)
    decreases |layers|
  {
    && layers != [] && !layers[0].Native? && fs != [] && s.pc.At? && s.frame in locals
    && fs[0] == M.Frame(fs[0].p, s.pc.index, locals[s.frame])
    && Has(procs, fs[0].p) && procs[fs[0].p] == s.pc.proc
    && if layers[0].Call? then Shows(layers[0].before, layers[1..], locals, procs, fs[1..]) else |fs| == 1
  }

  lemma {:induction false} ShowsKept(data: nat, s: Ctx, layers: seq<Layer>, locals: Locals, locals': Locals, procs: ProcTable, fs: seq<M.Frame>)
    requires Linked(data, s, layers) && Shows(s, layers, locals, procs, fs) && Kept(locals, locals', data + s.size)
    ensures Shows(s, layers, locals', procs, fs)
    decreases |layers|
  {
    FrameAbove(data, s, layers);
    LeaveRestores(data, s, layers);
    if layers[0].Call? {
      ShowsKept(data, layers[0].before, layers[1..], locals, locals', procs, fs[1..]);
    }
  }

  /** The instruction the interpreter fetches points like the one the bytecode machine fetches. */
  lemma FetchPoints(s: Ctx, layers: seq<Layer>, locals: Locals, procs: ProcTable, codes: seq<seq<Bc<BcProc?>>>, bc: BcCode, fs: seq<M.Frame>)
    requires Tabled(procs, codes, bc) && Shows(s, layers, locals, procs, fs)
    ensures fs[0].p < |bc| && |codes[fs[0].p]| == |bc[fs[0].p]| && fs[0].pc == s.pc.index
    ensures s.pc.index < |bc[fs[0].p]| ==> Points(codes[fs[0].p][s.pc.index], bc[fs[0].p][s.pc.index], procs)
  {
    hide Points;
  }

  /** Same proc, another position, other locals for it. */
  lemma ShowsTop(data: nat, s: Ctx, s': Ctx, layers: seq<Layer>, la: Locals, lb: Locals, procs: ProcTable, fs: seq<M.Frame>)
    requires Linked(data, s, layers) && Shows(s, layers, la, procs, fs)
    requires s'.frame == s.frame && s'.pc.At? && s'.pc.proc == s.pc.proc
    requires s.frame in lb && Kept(la, lb, data + layers[0].before.size)
    ensures Shows(s', layers, lb, procs, [M.Frame(fs[0].p, s'.pc.index, lb[s.frame])] + fs[1..])
  {
    var fs' := [M.Frame(fs[0].p, s'.pc.index, lb[s.frame])] + fs[1..];
    assert fs'[1..] == fs[1..];
    if layers[0].Call? {
      LeaveRestores(data, s, layers);
      ShowsKept(data, layers[0].before, layers[1..], la, lb, procs, fs[1..]);
    }
  }

  lemma KeptLess(la: Locals, lb: Locals, x: nat, y: nat)
    requires Kept(la, lb, x) && y <= x
    ensures Kept(la, lb, y)
  {}

  /** A call: the caller's frame, advanced, below a fresh one. */
  lemma ShowsCall(data: nat, f: Ctx, layers: seq<Layer>, l: Layer, s': Ctx, la: Locals, lb: Locals, procs: ProcTable, q: nat, fs: seq<M.Frame>)
    requires Linked(data, f, layers) && Shows(f, layers, la, procs, fs)
    requires l.Call? && l.before == f && Has(procs, q) && s'.pc == At(procs[q], 0)
    requires data + f.size < s'.frame && lb == la[s'.frame := map[]]
    ensures Shows(s', [l] + layers, lb, procs, [M.Frame(q, 0, map[])] + fs)
  {
    assert ([M.Frame(q, 0, map[])] + fs)[1..] == fs;
    assert ([l] + layers)[1..] == layers;
    ShowsKept(data, f, layers, la, lb, procs, fs);
  }

  /** After a round: the state stands for the machine's next configuration, or the invocation is over and so is
      the machine's run. */
  ghost predicate Follows(b: StackState, lb: Locals, tb: Trace, procs: ProcTable, c: M.Config) {
    if c.Halt? then b.ctx.pc == Nowhere && c.tr == tb
    else c.Run? && c.tr == tb && Shows(b.ctx, b.layers, lb, procs, c.frames)
  }

  lemma JumpAgrees(data: nat, world: World, a: StackState, b: StackState, i: Bc<BcProc?>, la: Locals, lb: Locals,
                   ta: Trace, tb: Trace, procs: ProcTable, bc: BcCode, fs: seq<M.Frame>)
    requires Linked(data, a.ctx, a.layers) && Shows(a.ctx, a.layers, la, procs, fs)
    requires fs[0].p < |bc| && fs[0].pc < |bc[fs[0].p]| && Points(i, bc[fs[0].p][fs[0].pc], procs)
    requires i.Goto? || i.GotoZ? || i.GotoNz?
    requires Steps(data, a, i, la[a.ctx.frame], world, b)
    requires Acts(world.w, i, a.ctx.frame, la, ta, b.ctx.frame, lb, tb)
    ensures Follows(b, lb, tb, procs, StepBc(bc, world.w, M.Run(fs, ta)))
  {
    ShowsTop(data, a.ctx, b.ctx, a.layers, la, lb, procs, fs);
    assert b.layers == a.layers;
    hide Linked, Shows;
    assert StepBc(bc, world.w, M.Run(fs, ta)) == M.Run([M.Frame(fs[0].p, b.ctx.pc.index, la[a.ctx.frame])] + fs[1..], ta);
  }

  lemma PlainAgrees(data: nat, world: World, a: StackState, b: StackState, i: Bc<BcProc?>, la: Locals, lb: Locals,
                    ta: Trace, tb: Trace, procs: ProcTable, bc: BcCode, fs: seq<M.Frame>)
    requires Linked(data, a.ctx, a.layers) && Shows(a.ctx, a.layers, la, procs, fs)
    requires fs[0].p < |bc| && fs[0].pc < |bc[fs[0].p]| && Points(i, bc[fs[0].p][fs[0].pc], procs)
    requires i.Plain?
    requires Steps(data, a, i, la[a.ctx.frame], world, b)
    requires Acts(world.w, i, a.ctx.frame, la, ta, b.ctx.frame, lb, tb)
    ensures Follows(b, lb, tb, procs, StepBc(bc, world.w, M.Run(fs, ta)))
  {
    hide Effect;
    FrameAbove(data, a.ctx, a.layers);
    ShowsTop(data, a.ctx, b.ctx, a.layers, la, lb, procs, fs);
    hide Linked, Shows;
    assert bc[fs[0].p][fs[0].pc] == Plain(i.i);
    assert fs[0].m == la[a.ctx.frame];
  }

  lemma CallAgrees(data: nat, world: World, a: StackState, b: StackState, i: Bc<BcProc?>, la: Locals, lb: Locals,
                   ta: Trace, tb: Trace, procs: ProcTable, codes: seq<seq<Bc<BcProc?>>>, bc: BcCode, fs: seq<M.Frame>)
    requires Linked(data, a.ctx, a.layers) && Shows(a.ctx, a.layers, la, procs, fs)
    requires Linked(data, b.ctx, b.layers)
    requires fs[0].p < |bc| && fs[0].pc < |bc[fs[0].p]| && Points(i, bc[fs[0].p][fs[0].pc], procs)
    requires i.Enter? && Tabled(procs, codes, bc)
    requires Steps(data, a, i, la[a.ctx.frame], world, b)
    requires Acts(world.w, i, a.ctx.frame, la, ta, b.ctx.frame, lb, tb)
    ensures Follows(b, lb, tb, procs, StepBc(bc, world.w, M.Run(fs, ta)))
  {
    var q := bc[fs[0].p][fs[0].pc].callee;
    var f := Fetched(a.ctx);
    assert Has(procs, q) && procs[q] == i.callee && procs[q].id == q && q < |bc|;
    ShowsTop(data, a.ctx, f, a.layers, la, la, procs, fs);
    FetchedLinked(data, a);
    FrameAbove(data, b.ctx, b.layers);
    StepsExecute(data, a, i, la[a.ctx.frame], world, b);
    var l := Layer.Call(f, i.callee, world.argc(i.callee));
    EnteredPc(data, l);
    var fs' := [M.Frame(fs[0].p, f.pc.index, la[a.ctx.frame])] + fs[1..];
    hide Linked, Shows, Entered, Tabled, Steps;
    ShowsCall(data, f, a.layers, l, b.ctx, la, lb, procs, q, fs');
    CallFrames(M.Frame(q, 0, map[]), fs'[0], fs[1..]);
    assert StepBc(bc, world.w, M.Run(fs, ta)) == M.Run([M.Frame(q, 0, map[])] + fs', tb);
  }

  lemma CallFrames(top: M.Frame, next: M.Frame, rest: seq<M.Frame>)
    ensures [top, next] + rest == [top] + ([next] + rest)
  {}

  lemma EnteredPc(data: nat, l: Layer)
    requires l.Call? && Fits(l)
    ensures Entered(data, l).pc == At(l.proc, 0)
  {}

  lemma LeaveAgrees(data: nat, world: World, a: StackState, b: StackState, i: Bc<BcProc?>, la: Locals, lb: Locals,
                    ta: Trace, tb: Trace, procs: ProcTable, bc: BcCode, fs: seq<M.Frame>)
    requires Linked(data, a.ctx, a.layers) && Shows(a.ctx, a.layers, la, procs, fs)
    requires fs[0].p < |bc| && fs[0].pc < |bc[fs[0].p]| && Points(i, bc[fs[0].p][fs[0].pc], procs)
    requires i.Leave?
    requires Steps(data, a, i, la[a.ctx.frame], world, b)
    requires Acts(world.w, i, a.ctx.frame, la, ta, b.ctx.frame, lb, tb)
    ensures Follows(b, lb, tb, procs, StepBc(bc, world.w, M.Run(fs, ta)))
  {
    StepsExecute(data, a, i, la[a.ctx.frame], world, b);
    FetchedLinked(data, a);
    var f := StackState(Fetched(a.ctx), a.layers);
    var c := StepBc(bc, world.w, M.Run(fs, ta));
    assert c == M.Back(fs[1..], ta + [EvRet(RetValue(i.res, la[a.ctx.frame]))], RetValue(i.res, la[a.ctx.frame]));
    hide Linked, Entered, Steps, CallStack.Ret, RetValue;
    if a.layers[0].Call? {
      CallLeft(data, f);
      assert fs[1..] != [];
    } else {
      EntryLeft(data, f);
    }
  }

  /** Every round of the interpreter is a step of the bytecode machine. */
  lemma RoundAgrees(data: nat, world: World, base: StackState, entry: Layer, a: StackState, b: StackState, i: Bc<BcProc?>,
                    la: Locals, lb: Locals, ta: Trace, tb: Trace, procs: ProcTable, codes: seq<seq<Bc<BcProc?>>>, bc: BcCode,
                    fs: seq<M.Frame>)
    requires Inside(base, entry, a) && Linked(data, a.ctx, a.layers) && Shows(a.ctx, a.layers, la, procs, fs)
    requires Tabled(procs, codes, bc) && a.ctx.pc.index < |codes[fs[0].p]| && i == codes[fs[0].p][a.ctx.pc.index]
    requires Steps(data, a, i, la[a.ctx.frame], world, b)
    requires Acts(world.w, i, a.ctx.frame, la, ta, b.ctx.frame, lb, tb)
    ensures Follows(b, lb, tb, procs, StepBc(bc, world.w, M.Run(fs, ta)))
  {
    FetchPoints(a.ctx, a.layers, la, procs, codes, bc, fs);
    hide *;
    if i.Goto? || i.GotoZ? || i.GotoNz? {
      JumpAgrees(data, world, a, b, i, la, lb, ta, tb, procs, bc, fs);
    } else if i.Plain? {
      PlainAgrees(data, world, a, b, i, la, lb, ta, tb, procs, bc, fs);
    } else if i.Enter? {
      StepInside(data, base, entry, a, i, la[a.ctx.frame], world, b);
      CallAgrees(data, world, a, b, i, la, lb, ta, tb, procs, codes, bc, fs);
    } else {
      LeaveAgrees(data, world, a, b, i, la, lb, ta, tb, procs, bc, fs);
    }
  }

  /** When the interpreter finds nothing to run, the machine is stuck too. */
  lemma NothingToRun(s: Ctx, layers: seq<Layer>, la: Locals, t: Trace, procs: ProcTable, codes: seq<seq<Bc<BcProc?>>>, bc: BcCode,
                     w: Oracle, fs: seq<M.Frame>)
    requires Tabled(procs, codes, bc) && Shows(s, layers, la, procs, fs) && !CanRun(codes[fs[0].p], s.pc.index)
    ensures StepBc(bc, w, M.Run(fs, t)).Stuck?
  {
    FetchPoints(s, layers, la, procs, codes, bc, fs);
    hide Linked, Shows;
  }

  /** How a run with a number of rounds to spend compares with the bytecode machine's from a configuration. */
  ghost predicate Agrees(bc: BcCode, w: Oracle, c: M.Config, t: Trace, fuel: nat, o: Ending) {
    match o
    case Ended => exists n: nat :: n <= fuel && StepsBc(bc, w, c, n).Halt? && StepsBc(bc, w, c, n).tr == t
    case OutOfFuel => StepsBc(bc, w, c, fuel).Run? && StepsBc(bc, w, c, fuel).tr == t
    case Wrong => exists n: nat :: n <= fuel && StepsBc(bc, w, c, n).Stuck?
  }

  lemma StepsBcSnoc(bc: BcCode, w: Oracle, c: M.Config, n: nat)
    ensures StepsBc(bc, w, c, n + 1) == StepBc(bc, w, StepsBc(bc, w, c, n))
  {
    StepsBcAdd(bc, w, c, n, 1);
    hide StepBc;
    var d := StepsBc(bc, w, c, n);
    assert StepsBc(bc, w, d, 1) == StepsBc(bc, w, StepBc(bc, w, d), 0);
  }

  // --- The invocation loop ---

  /** What the loop keeps: inside the invocation or just out of it, with locals for every proc on the stack and
      the locals below the invocation untouched. */
  ghost predicate Looping(data: nat, base: StackState, entry: Layer, m: StackState, l0: Locals, l: Locals) {
    && (if m.ctx.pc.At?
        then Inside(base, entry, m) && Linked(data, m.ctx, m.layers) && HasLocals(m.ctx, m.layers, l.Keys)
        else Over(base, m))
    && Kept(l0, l, data + base.ctx.size) && l0.Keys <= l.Keys
  }

  lemma LoopStarts(data: nat, base: StackState, entry: Layer, b: StackState, l0: Locals, l1: Locals)
    requires Linked(data, base.ctx, base.layers) && HasLocals(base.ctx, base.layers, l0.Keys) && Outside(base.layers)
    requires entry.Entry? && entry.before == base.ctx && Fits(entry)
    requires b == StackState(Entered(data, entry), [entry] + base.layers) && l1 == l0[b.ctx.frame := map[]]
    ensures Looping(data, base, entry, b, l0, l1) && b.ctx.pc == At(entry.proc, 0)
  {
    assert b.layers[1..] == base.layers;
    assert LayerOk(data, b.ctx, entry, base.layers);
    assert Linked(data, b.ctx, b.layers);
    FrameAbove(data, b.ctx, b.layers);
    MoreLocals(base.ctx, base.layers, l0.Keys, l1.Keys);
    hide Linked;
  }

  lemma LoopReady(data: nat, base: StackState, entry: Layer, m: StackState, l0: Locals, l: Locals)
    requires Looping(data, base, entry, m, l0, l) && m.ctx.pc.At?
    ensures Linked(data, m.ctx, m.layers) && HasLocals(m.ctx, m.layers, l.Keys)
    ensures !Outside(m.layers) && m.layers != [] && m.ctx.frame in l
  {
    InsideTop(base, entry, m);
    hide Linked, Inside, Kept;
  }

  lemma LoopEnds(data: nat, base: StackState, entry: Layer, m: StackState, l0: Locals, l: Locals)
    requires Looping(data, base, entry, m, l0, l) && !m.ctx.pc.At?
    ensures m.ctx.(pc := base.ctx.pc, ffi := base.ctx.ffi) == base.ctx && m.layers == base.layers
    ensures Kept(l0, l, data + base.ctx.size) && l0.Keys <= l.Keys
  {
    hide Kept;
  }

  lemma LoopGoesOn(data: nat, base: StackState, entry: Layer, a: StackState, i: Bc<BcProc?>, m: Temps, world: World, b: StackState,
                   l0: Locals, la: Locals, lb: Locals)
    requires Looping(data, base, entry, a, l0, la) && a.ctx.pc.At? && a.layers != []
    requires Steps(data, a, i, m, world, b)
    requires Kept(la, lb, data + a.layers[0].before.size) && la.Keys <= lb.Keys && (i.Enter? ==> b.ctx.frame in lb)
    ensures Looping(data, base, entry, b, l0, lb)
  {
    InsideSize(data, base, entry, a);
    StepInside(data, base, entry, a, i, m, world, b);
    KeptLess(la, lb, data + a.layers[0].before.size, data + base.ctx.size);
    MoreLocals(a.ctx, a.layers, la.Keys, lb.Keys);
    StepsExecute(data, a, i, m, world, b);
    InsideTop(base, entry, a);
    hide Linked, Inside, Over, Steps, Entered, Moves, CallStack.Ret;
    if b.ctx.pc.At? { StillLocals(data, a, i, m, world, b, lb.Keys); }
  }

  lemma StillLocals(data: nat, a: StackState, i: Bc<BcProc?>, m: Temps, world: World, b: StackState, locals: set<nat>)
    requires a.layers != [] && !a.layers[0].Native? && HasLocals(a.ctx, a.layers, locals)
    requires Linked(data, a.ctx, a.layers) && a.ctx.pc.At? && Steps(data, a, i, m, world, b) && b.ctx.pc.At?
    requires i.Enter? ==> b.ctx.frame in locals
    ensures HasLocals(b.ctx, b.layers, locals)
  {
    StepsExecute(data, a, i, m, world, b);
    FetchedLinked(data, a);
    var f := StackState(Fetched(a.ctx), a.layers);
    if i.Enter? {
      var l := Layer.Call(f.ctx, i.callee, world.argc(i.callee));
      assert b.layers[1..] == f.layers;
      hide Linked, Entered, Steps, Start;
    } else if i.Leave? {
      if a.layers[0].Call? { CallLeft(data, f); } else { EntryLeft(data, f); }
      hide Linked, Entered, Steps, Start;
    } else {
      hide Linked, Entered, Steps, Start;
    }
  }

  /** The loop's refinement invariant is kept by a round. */
  lemma LoopAgrees(data: nat, base: StackState, entry: Layer, a: StackState, i: Bc<BcProc?>, world: World, b: StackState,
                   l0: Locals, la: Locals, lb: Locals, ta: Trace, tb: Trace, procs: ProcTable, codes: seq<seq<Bc<BcProc?>>>,
                   bc: BcCode, c: M.Config)
    requires Looping(data, base, entry, a, l0, la) && a.ctx.pc.At? && a.ctx.frame in la
    requires Tabled(procs, codes, bc) && Follows(a, la, ta, procs, c)
    requires forall q: nat | Has(procs, q) && procs[q] == a.ctx.pc.proc :: a.ctx.pc.index < |codes[q]| && i == codes[q][a.ctx.pc.index]
    requires Steps(data, a, i, la[a.ctx.frame], world, b)
    requires Acts(world.w, i, a.ctx.frame, la, ta, b.ctx.frame, lb, tb)
    ensures Follows(b, lb, tb, procs, StepBc(bc, world.w, c))
  {
    hide Linked, Inside, Kept, Steps, Acts, Tabled, StepBc;
    RoundAgrees(data, world, base, entry, a, b, i, la, lb, ta, tb, procs, codes, bc, c.frames);
  }

  lemma ShowsStart(data: nat, m: StackState, entry: Layer, locals: Locals, t: Trace, procs: ProcTable, proc: BcProc, c: M.Config)
    requires m.layers != [] && m.layers[0] == entry && entry.Entry?
    requires m.ctx.pc == At(proc, 0) && m.ctx.frame in locals && locals[m.ctx.frame] == map[]
    requires Has(procs, proc.id) && procs[proc.id] == proc && c == M.Run([M.Frame(proc.id, 0, map[])], t)
    ensures Follows(m, locals, t, procs, c)
  {}

  lemma StillRunning(bc: BcCode, w: Oracle, c: M.Config, m: StackState, l: Locals, t: Trace, procs: ProcTable, fuel: nat)
    requires m.ctx.pc.At? && Follows(m, l, t, procs, StepsBc(bc, w, c, fuel))
    ensures Agrees(bc, w, c, t, fuel, OutOfFuel)
  {
    hide Shows;
  }

  lemma HasEnded(bc: BcCode, w: Oracle, c: M.Config, m: StackState, l: Locals, t: Trace, procs: ProcTable, fuel: nat, n: nat)
    requires !m.ctx.pc.At? && Follows(m, l, t, procs, StepsBc(bc, w, c, n)) && n <= fuel
    ensures Agrees(bc, w, c, t, fuel, Ended)
  {}

  lemma GoneWrong(bc: BcCode, w: Oracle, c: M.Config, a: StackState, la: Locals, ta: Trace, procs: ProcTable,
                  codes: seq<seq<Bc<BcProc?>>>, fuel: nat, n: nat, t: Trace)
    requires a.ctx.pc.At? && Follows(a, la, ta, procs, StepsBc(bc, w, c, n)) && n < fuel && Tabled(procs, codes, bc)
    requires forall q: nat | Has(procs, q) && procs[q] == a.ctx.pc.proc :: !CanRun(codes[q], a.ctx.pc.index)
    ensures Agrees(bc, w, c, t, fuel, Wrong)
  {
    var d := StepsBc(bc, w, c, n);
    hide Tabled, StepBc, CanRun;
    StepsBcSnoc(bc, w, c, n);
    NothingToRun(a.ctx, a.layers, la, ta, procs, codes, bc, w, d.frames);
    assert d == M.Run(d.frames, ta);
  }
}
