/** What calls, returns, native calls and invocations do to the interpreter's context and its stack. */
module CallStack {
  import opened Arena
  import opened Translator

  const PTR: nat := 8
  const CONTROL_SIZE: nat := 56

  /** Where the next instruction is; Nowhere is the null that ends an invocation. */
  datatype Pc = Nowhere | At(proc: BcProc, index: nat)

  /** A saved context, stored at an address on the stack. */
  datatype Control = Control(address: nat, stackFrame: nat, frame: nat, arg: nat, instr: BcProc?, ret: nat, pc: Pc)

  datatype Ctx = Ctx(size: nat, control: seq<Control>, stackFrame: nat, frame: nat, arg: nat, instr: BcProc?,
                     ret: nat, pc: Pc, ffi: nat)

  const IDLE := Ctx(0, [], 0, 0, 0, null, 0, Nowhere, 0)

  // --- The operations ---

  function JumpCall(data: nat, s: Ctx, proc: BcProc, args: nat, ret: nat, stackFrame: nat): Ctx
    requires proc.frameAlign > 0
  {
    var control := Start(data, s.size, PTR);
    var frame := Start(data, control + CONTROL_SIZE, proc.frameAlign);
    var saved := Control(data + control, s.stackFrame, s.frame, s.arg, s.instr, s.ret, s.pc);
    Ctx(frame + proc.frameSize, [saved] + s.control, stackFrame, data + frame, args, proc, ret, At(proc, 0), s.ffi)
  }

  /** The argument pointers and behind them the result pointer, then the frame. */
  function CallJmp(data: nat, s: Ctx, proc: BcProc, argc: nat): Ctx
    requires proc.frameAlign > 0
  {
    var argv := Start(data, s.size, PTR);
    JumpCall(data, s.(size := argv + PTR * (argc + 1)), proc, data + argv, data + argv + PTR * argc, s.size)
  }

  function Ret(s: Ctx): Ctx
    requires s.control != []
  {
    var saved := s.control[0];
    Ctx(s.stackFrame, s.control[1..], saved.stackFrame, saved.frame, saved.arg, saved.instr, saved.ret, saved.pc, s.ffi)
  }

  /** Argument pointers and argument types of a native call, and whatever the native side puts behind them. */
  function NativeSize(data: nat, size: nat, argc: nat, extra: nat): nat {
    Start(data, Start(data, size, PTR) + PTR * argc, PTR) + PTR * argc + extra
  }

  lemma NoPadding(data: nat, size: nat)
    ensures Start(data, size, 1) == size
  {}

  // --- What is on the stack ---

  /** One activity on the stack, with the context as it was when it began. */
  datatype Layer =
    | Call(before: Ctx, proc: BcProc, argc: nat)
    | Entry(before: Ctx, proc: BcProc, args: nat, ret: nat)
    | Native(before: Ctx, argc: nat, extra: nat, ffi: nat)   // with the foreign-call context it is given

  predicate Fits(l: Layer) { l.Native? || l.proc.frameAlign > 0 }

  function Entered(data: nat, l: Layer): Ctx
    requires Fits(l)
  {
    match l
    case Call(before, proc, argc) => CallJmp(data, before, proc, argc)
    case Entry(before, proc, args, ret) =>
      JumpCall(data, before.(pc := Nowhere, ffi := proc.ffi), proc, args, ret, before.size)
    case Native(before, argc, extra, _) => before.(size := NativeSize(data, before.size, argc, extra))
  }

  function Left(s: Ctx, l: Layer): Ctx
    requires l.Native? || s.control != []
  {
    match l
    case Call(_, _, _) => Ret(s)
    case Entry(before, _, _, _) => Ret(s).(pc := before.pc, ffi := before.ffi)
    case Native(before, _, _, _) => s.(size := before.size)
  }

  /** Equal but for the next instruction. */
  predicate SamePlace(a: Ctx, b: Ctx) { a.(pc := b.pc) == b }

  /** Native code, or nobody, is in control. */
  predicate Outside(layers: seq<Layer>) { layers == [] || layers[0].Native? }

  ghost predicate LayerOk(data: nat, s: Ctx, l: Layer, below: seq<Layer>) {
    && Fits(l) && SamePlace(s, Entered(data, l))
    && (l.Entry? <==> Outside(below))
    && (if l.Native? then s.pc == l.before.pc && l.ffi == s.ffi else s.pc.At? && s.pc.proc == s.instr)
  }

  /** The context is the top activity's, which began in a context that was the next one's, and so on down. */
  ghost predicate Linked(data: nat, s: Ctx, layers: seq<Layer>)
    decreases |layers|
  {
    layers == [] || (LayerOk(data, s, layers[0], layers[1..]) && Linked(data, layers[0].before, layers[1..]))
  }

  /** Leaving undoes entering: size, control list, bases, result pointer and next instruction. */
  lemma LeaveRestores(data: nat, s: Ctx, layers: seq<Layer>)
    requires layers != [] && Linked(data, s, layers)
    ensures s.control != [] || layers[0].Native?
    ensures Left(s, layers[0]) == layers[0].before
    ensures layers[0].before.size <= s.size
    ensures !layers[0].Native? ==> s.stackFrame == layers[0].before.size
  {
    var l := layers[0];
    if !l.Native? {
      var b := l.before;
      assert s.control[1..] == b.control;
    }
  }

  /** No invocation among the first n activities. */
  predicate NoEntry(layers: seq<Layer>, n: nat)
    requires n <= |layers|
  {
    forall k | 0 <= k < n :: !layers[k].Entry?
  }

  /** Whatever runs on top of an invocation, its calls and native calls included, does so in the foreign-call context
      of the proc invoked, and this is what the native calls are given. */
  lemma {:induction false} FfiOfEntry(data: nat, s: Ctx, layers: seq<Layer>, e: nat)
    requires Linked(data, s, layers) && e < |layers| && layers[e].Entry? && NoEntry(layers, e)
    ensures s.ffi == layers[e].proc.ffi
    ensures forall k | 0 <= k < e && layers[k].Native? :: layers[k].ffi == layers[e].proc.ffi
    decreases e
  {
    if e > 0 {
      var rest := layers[1..];
      assert NoEntry(rest, e - 1) by { assert forall k | 0 <= k < e - 1 :: rest[k] == layers[k + 1]; }
      FfiOfEntry(data, layers[0].before, rest, e - 1);
      forall k | 0 <= k < e && layers[k].Native? ensures layers[k].ffi == layers[e].proc.ffi {
        if k > 0 { assert rest[k - 1] == layers[k]; }
      }
    }
  }

  /** Under every activity there is the invocation it belongs to. */
  lemma {:induction false} EntryBelow(data: nat, s: Ctx, layers: seq<Layer>) returns (e: nat)
    requires Linked(data, s, layers) && layers != []
    ensures e < |layers| && layers[e].Entry? && NoEntry(layers, e)
    decreases |layers|
  {
    if layers[0].Entry? {
      e := 0;
    } else {
      var rest := layers[1..];
      var d := EntryBelow(data, layers[0].before, rest);
      e := d + 1;
      forall k | 0 <= k < e ensures !layers[k].Entry? {
        if k > 0 { assert rest[k - 1] == layers[k]; }
      }
    }
  }

  // --- Runs ---

  datatype StackState = StackState(ctx: Ctx, layers: seq<Layer>)

  datatype Move =
    | DoInvoke(proc: BcProc, args: nat, ret: nat)
    | DoCall(proc: BcProc, argc: nat)
    | DoNative(argc: nat, extra: nat)
    | DoGo(index: nat)   // fetching, jumping, or any other instruction
    | DoLeave            // return, end of an invocation, end of a native call

  function NewLayer(s: Ctx, mv: Move): Layer
    requires mv.DoInvoke? || mv.DoCall? || mv.DoNative?
  {
    match mv
    case DoInvoke(proc, args, ret) => Entry(s, proc, args, ret)
    case DoCall(proc, argc) => Call(s, proc, argc)
    case DoNative(argc, extra) => Native(s, argc, extra, s.ffi)
  }

  ghost predicate Enabled(m: StackState, mv: Move) {
    match mv
    case DoInvoke(proc, _, _) => Outside(m.layers) && proc.frameAlign > 0
    case DoCall(proc, _) => !Outside(m.layers) && proc.frameAlign > 0
    case DoNative(_, _) => !Outside(m.layers)
    case DoGo(_) => !Outside(m.layers) && m.ctx.instr != null
    case DoLeave => m.layers != [] && (m.layers[0].Native? || m.ctx.control != [])
  }

  ghost function Moved(data: nat, m: StackState, mv: Move): StackState
    requires Enabled(m, mv)
  {
    match mv
    case DoGo(k) => m.(ctx := m.ctx.(pc := At(m.ctx.instr, k)))
    case DoLeave => StackState(Left(m.ctx, m.layers[0]), m.layers[1..])
    case _ => var l := NewLayer(m.ctx, mv); StackState(Entered(data, l), [l] + m.layers)
  }

  ghost predicate Runs(data: nat, m: StackState, moves: seq<Move>)
    decreases |moves|
  {
    moves == [] || (Enabled(m, moves[0]) && Runs(data, Moved(data, m, moves[0]), moves[1..]))
  }

  ghost function RunAll(data: nat, m: StackState, moves: seq<Move>): StackState
    requires Runs(data, m, moves)
    decreases |moves|
  {
    if moves == [] then m else RunAll(data, Moved(data, m, moves[0]), moves[1..])
  }

  lemma MovedLinked(data: nat, m: StackState, mv: Move)
    requires Linked(data, m.ctx, m.layers) && Enabled(m, mv)
    ensures var m' := Moved(data, m, mv); Linked(data, m'.ctx, m'.layers)
  {
    match mv
    case DoGo(k) =>
    case DoLeave => LeaveRestores(data, m.ctx, m.layers);
    case _ =>
      var l := NewLayer(m.ctx, mv);
      assert ([l] + m.layers)[1..] == m.layers;
  }

  lemma {:induction false} RunsLinked(data: nat, m: StackState, moves: seq<Move>)
    requires Linked(data, m.ctx, m.layers) && Runs(data, m, moves)
    ensures var m' := RunAll(data, m, moves); Linked(data, m'.ctx, m'.layers)
    decreases |moves|
  {
    if moves != [] {
      MovedLinked(data, m, moves[0]);
      RunsLinked(data, Moved(data, m, moves[0]), moves[1..]);
    }
  }

  // --- Coming back ---

  ghost predicate NeverBelow(data: nat, m: StackState, moves: seq<Move>, n: nat)
    requires Runs(data, m, moves)
    decreases |moves|
  {
    |m.layers| >= n && (moves == [] || NeverBelow(data, Moved(data, m, moves[0]), moves[1..], n))
  }

  /** The same context; while its own code runs, the next instruction may be another one. */
  predicate Same(base: StackState, s: Ctx) { SamePlace(s, base.ctx) && (Outside(base.layers) ==> s == base.ctx) }

  /** m's activities are base's with others on top, the lowest of which began in base's context. */
  predicate Above(base: StackState, m: StackState) {
    var k := |m.layers| - |base.layers|;
    && k >= 0 && m.layers[k..] == base.layers
    && Same(base, if k == 0 then m.ctx else m.layers[k - 1].before)
  }

  lemma LeaveAbove(data: nat, base: StackState, m: StackState)
    requires Linked(data, m.ctx, m.layers) && Above(base, m) && |m.layers| > |base.layers|
    ensures m.ctx.control != [] || m.layers[0].Native?
    ensures Above(base, StackState(Left(m.ctx, m.layers[0]), m.layers[1..]))
  {
    var k := |m.layers| - |base.layers|;
    LeaveRestores(data, m.ctx, m.layers);
    hide Linked, Left, SamePlace, Outside, Same;
    assert m.layers[1..][k - 1..] == m.layers[k..];
    if k > 1 { assert m.layers[1..][k - 2] == m.layers[k - 1]; }
  }

  lemma EnterAbove(base: StackState, m: StackState, s: Ctx, l: Layer)
    requires Above(base, m) && l.before == m.ctx
    ensures Above(base, StackState(s, [l] + m.layers))
  {
    var k := |m.layers| - |base.layers|;
    hide SamePlace, Outside, Same;
    assert ([l] + m.layers)[k + 1..] == m.layers[k..];
    if k > 0 { assert ([l] + m.layers)[k] == m.layers[k - 1]; }
  }

  lemma MovedAbove(data: nat, base: StackState, m: StackState, mv: Move)
    requires Linked(data, m.ctx, m.layers) && Enabled(m, mv) && Above(base, m)
    requires |Moved(data, m, mv).layers| >= |base.layers|
    ensures Above(base, Moved(data, m, mv))
  {
    hide Linked, Entered, Left;
    match mv
    case DoGo(_) =>
    case DoLeave => LeaveAbove(data, base, m);
    case _ =>
      var l := NewLayer(m.ctx, mv);
      EnterAbove(base, m, Entered(data, l), l);
  }

  /** Whatever runs, calls, native calls and re-entrant invocations nested to any depth: as long as base's own
      activities have not ended, they are untouched, and whenever nothing is left above them the context is
      base's again. */
  lemma {:induction false} RunsAbove(data: nat, base: StackState, m: StackState, moves: seq<Move>)
    requires Linked(data, m.ctx, m.layers) && Above(base, m)
    requires Runs(data, m, moves) && NeverBelow(data, m, moves, |base.layers|)
    ensures Above(base, RunAll(data, m, moves))
    decreases |moves|
  {
    if moves != [] {
      var m' := Moved(data, m, moves[0]);
      MovedLinked(data, m, moves[0]);
      MovedAbove(data, base, m, moves[0]);
      RunsAbove(data, base, m', moves[1..]);
    }
  }

  /** A finished invocation, first or re-entrant, leaves the context exactly as it found it. */
  lemma InvokeRestores(data: nat, m: StackState, moves: seq<Move>)
    requires Linked(data, m.ctx, m.layers) && Outside(m.layers)
    requires Runs(data, m, moves) && NeverBelow(data, m, moves, |m.layers|)
    requires |RunAll(data, m, moves).layers| == |m.layers|
    ensures RunAll(data, m, moves) == m
  {
    RunsAbove(data, m, m, moves);
  }

  /** A finished call, with everything it led to, gives its caller back everything but what comes next. */
  lemma CallRestores(data: nat, m: StackState, moves: seq<Move>)
    requires Linked(data, m.ctx, m.layers)
    requires Runs(data, m, moves) && NeverBelow(data, m, moves, |m.layers|)
    requires |RunAll(data, m, moves).layers| == |m.layers|
    ensures var m' := RunAll(data, m, moves);
            m'.layers == m.layers && SamePlace(m'.ctx, m.ctx) &&
            (!Outside(m.layers) ==> m'.ctx.pc.At? && m'.ctx.pc.proc == m.ctx.instr)
  {
    RunsAbove(data, m, m, moves);
    RunsLinked(data, m, moves);
  }

  // --- Memory ---

  datatype Region = Region(begin: nat, end: nat, align: nat)

  /** One allocation. */
  function Allocated(data: nat, size: nat, n: nat, align: nat): Region
    requires align > 0
  {
    var start := Start(data, size, align);
    Region(start, start + n, align)
  }

  function Memory(data: nat, l: Layer): seq<Region>
    requires Fits(l)
  {
    var low := l.before.size;
    match l
    case Call(before, proc, argc) =>
      var argv := Allocated(data, low, PTR * (argc + 1), PTR);
      [argv] + Frames(data, argv.end, proc)
    case Entry(_, proc, _, _) => Frames(data, low, proc)
    case Native(_, argc, extra, _) =>
      var argv := Allocated(data, low, PTR * argc, PTR);
      var argt := Allocated(data, argv.end, PTR * argc, PTR);
      [argv, argt, Allocated(data, argt.end, extra, 1)]
  }

  /** Control frame and proc frame. */
  function Frames(data: nat, size: nat, proc: BcProc): seq<Region>
    requires proc.frameAlign > 0
  {
    var control := Allocated(data, size, CONTROL_SIZE, PTR);
    [control, Allocated(data, control.end, proc.frameSize, proc.frameAlign)]
  }

  /** Everything on the stack, outermost first. */
  function Occupied(data: nat, layers: seq<Layer>): seq<Region>
    requires forall k | 0 <= k < |layers| :: Fits(layers[k])
  {
    if layers == [] then [] else Occupied(data, layers[1..]) + Memory(data, layers[0])
  }

  predicate AlignedAt(data: nat, r: Region) { r.align > 0 && (data + r.begin) % r.align == 0 }

  /** In order, aligned, and between two marks. */
  ghost predicate Stacked(data: nat, rs: seq<Region>, low: nat, high: nat) {
    && low <= high
    && (forall i | 0 <= i < |rs| :: AlignedAt(data, rs[i]) && low <= rs[i].begin <= rs[i].end <= high)
    && (forall i, j | 0 <= i < j < |rs| :: rs[i].end <= rs[j].begin)
  }

  lemma StackedJoin(data: nat, xs: seq<Region>, ys: seq<Region>, low: nat, mid: nat, high: nat)
    requires Stacked(data, xs, low, mid) && Stacked(data, ys, mid, high)
    ensures Stacked(data, xs + ys, low, high)
  {
    hide AlignedAt;
  }

  lemma AllocatedStacked(data: nat, size: nat, n: nat, align: nat)
    requires align > 0
    ensures var r := Allocated(data, size, n, align); Stacked(data, [r], size, r.end)
  {
    hide AlignUp;
  }

  lemma FramesStacked(data: nat, size: nat, proc: BcProc)
    requires proc.frameAlign > 0
    ensures var rs := Frames(data, size, proc); |rs| == 2 && Stacked(data, rs, size, rs[1].end)
  {
    var control := Allocated(data, size, CONTROL_SIZE, PTR);
    var frame := Allocated(data, control.end, proc.frameSize, proc.frameAlign);
    AllocatedStacked(data, size, CONTROL_SIZE, PTR);
    AllocatedStacked(data, control.end, proc.frameSize, proc.frameAlign);
    hide Start, Stacked;
    StackedJoin(data, [control], [frame], size, control.end, frame.end);
    assert [control] + [frame] == Frames(data, size, proc);
  }

  lemma CallMemory(data: nat, l: Layer)
    requires Fits(l) && l.Call?
    ensures var argv := Allocated(data, l.before.size, PTR * (l.argc + 1), PTR);
            && l.proc.frameAlign > 0 && Memory(data, l) == [argv] + Frames(data, argv.end, l.proc)
            && Entered(data, l).size == Frames(data, argv.end, l.proc)[1].end
  {
    hide Start, JumpCall, Frames;
    var argv := Allocated(data, l.before.size, PTR * (l.argc + 1), PTR);
    var s, args, ret := l.before.(size := argv.end), data + argv.begin, data + argv.begin + PTR * l.argc;
    assert Entered(data, l) == JumpCall(data, s, l.proc, args, ret, l.before.size);
    JumpCallFrames(data, s, l.proc, args, ret, l.before.size, JumpCall(data, s, l.proc, args, ret, l.before.size));
  }

  lemma CallStacked(data: nat, l: Layer)
    requires Fits(l) && l.Call?
    ensures Stacked(data, Memory(data, l), l.before.size, Entered(data, l).size)
  {
    hide Start, Stacked, Memory, Entered, Frames, Allocated;
    var argv := Allocated(data, l.before.size, PTR * (l.argc + 1), PTR);
    AllocatedStacked(data, l.before.size, PTR * (l.argc + 1), PTR);
    FramesStacked(data, argv.end, l.proc);
    CallMemory(data, l);
    StackedJoin(data, [argv], Frames(data, argv.end, l.proc), l.before.size, argv.end, Entered(data, l).size);
  }

  lemma NativeStacked(data: nat, l: Layer)
    requires l.Native?
    ensures Stacked(data, Memory(data, l), l.before.size, Entered(data, l).size)
  {
    var argv := Allocated(data, l.before.size, PTR * l.argc, PTR);
    var argt := Allocated(data, argv.end, PTR * l.argc, PTR);
    var more := Allocated(data, argt.end, l.extra, 1);
    AllocatedStacked(data, l.before.size, PTR * l.argc, PTR);
    AllocatedStacked(data, argv.end, PTR * l.argc, PTR);
    AllocatedStacked(data, argt.end, l.extra, 1);
    assert more.end == Entered(data, l).size;
    hide Start, Stacked;
    StackedJoin(data, [argv], [argt], l.before.size, argv.end, argt.end);
    StackedJoin(data, [argv] + [argt], [more], l.before.size, argt.end, more.end);
    assert [argv] + [argt] + [more] == Memory(data, l);
  }

  lemma MemoryStacked(data: nat, l: Layer)
    requires Fits(l)
    ensures Stacked(data, Memory(data, l), l.before.size, Entered(data, l).size)
  {
    match l
    case Call(_, _, _) => CallStacked(data, l);
    case Entry(before, proc, _, _) =>
      FramesStacked(data, before.size, proc);
      hide Start, Stacked;
    case Native(_, _, _, _) => NativeStacked(data, l);
  }

  lemma {:induction false} LinkedFits(data: nat, s: Ctx, layers: seq<Layer>, k: nat)
    requires Linked(data, s, layers) && k < |layers|
    ensures Fits(layers[k])
    decreases k
  {
    if k > 0 { LinkedFits(data, layers[0].before, layers[1..], k - 1); }
  }

  /** In every reachable state the argument arrays, control frames and proc frames on the stack are aligned,
      pairwise disjoint and nested, all within the part of the arena in use. */
  lemma {:induction false} StackInOrder(data: nat, s: Ctx, layers: seq<Layer>)
    requires Linked(data, s, layers)
    ensures forall k | 0 <= k < |layers| :: Fits(layers[k])
    ensures Stacked(data, Occupied(data, layers), 0, s.size)
    decreases |layers|
  {
    forall k | 0 <= k < |layers| ensures Fits(layers[k]) { LinkedFits(data, s, layers, k); }
    if layers != [] {
      var l := layers[0];
      StackInOrder(data, l.before, layers[1..]);
      MemoryStacked(data, l);
      hide Stacked, Memory, Entered;
      StackedJoin(data, Occupied(data, layers[1..]), Memory(data, l), 0, l.before.size, s.size);
    }
  }

  /** The running proc's frame is the top region, and its control frame, holding the saved context, the one
      below; the callee of a call finds its arguments and its result pointer in the block below that, an invoked
      proc the ones of its invocation. */
  ghost predicate OwnsTop(data: nat, s: Ctx, l: Layer)
    requires Fits(l) && !l.Native?
  {
    var rs := Memory(data, l);
    var n := |rs|;
    && n >= 2
    && s.frame == data + rs[n - 1].begin && rs[n - 1].end == s.size
    && s.control != [] && s.control[0].address == data + rs[n - 2].begin
    && s.control[0].address + CONTROL_SIZE <= s.frame
    && s.frame % l.proc.frameAlign == 0 && s.frame + l.proc.frameSize == data + s.size
    && (l.Call? ==> n == 3 && s.arg == data + rs[0].begin && s.ret == s.arg + PTR * l.argc && s.ret + PTR == data + rs[0].end)
    && (l.Entry? ==> s.arg == l.args && s.ret == l.ret)
  }

  lemma JumpCallFrames(data: nat, s: Ctx, proc: BcProc, args: nat, ret: nat, stackFrame: nat, t: Ctx)
    requires proc.frameAlign > 0 && SamePlace(t, JumpCall(data, s, proc, args, ret, stackFrame))
    ensures var rs := Frames(data, s.size, proc);
            && t.frame == data + rs[1].begin && rs[1].end == t.size == rs[1].begin + proc.frameSize
            && t.control != [] && t.control[0].address == data + rs[0].begin
            && t.arg == args && t.ret == ret
  {
    hide Start;
  }

  /** The frame is aligned and clear of the saved context. */
  lemma FramesApart(data: nat, size: nat, proc: BcProc)
    requires proc.frameAlign > 0
    ensures var rs := Frames(data, size, proc);
            |rs| == 2 && rs[0].begin + CONTROL_SIZE <= rs[1].begin && (data + rs[1].begin) % proc.frameAlign == 0
  {
    FramesStacked(data, size, proc);
    hide Start;
    var rs := Frames(data, size, proc);
    assert rs[0].end <= rs[1].begin && AlignedAt(data, rs[1]);
  }

  lemma CallOwns(data: nat, s: Ctx, l: Layer)
    requires Fits(l) && l.Call? && SamePlace(s, CallJmp(data, l.before, l.proc, l.argc))
    ensures OwnsTop(data, s, l)
  {
    hide Start, SamePlace, JumpCall, Frames;
    var argv := Allocated(data, l.before.size, PTR * (l.argc + 1), PTR);
    JumpCallFrames(data, l.before.(size := argv.end), l.proc, data + argv.begin, data + argv.begin + PTR * l.argc,
                   l.before.size, s);
    FramesApart(data, argv.end, l.proc);
  }

  lemma EntryOwns(data: nat, s: Ctx, l: Layer)
    requires Fits(l) && l.Entry?
    requires SamePlace(s, JumpCall(data, l.before.(pc := Nowhere, ffi := l.proc.ffi), l.proc, l.args, l.ret, l.before.size))
    ensures OwnsTop(data, s, l)
  {
    hide Start, SamePlace, JumpCall, Frames;
    JumpCallFrames(data, l.before.(pc := Nowhere, ffi := l.proc.ffi), l.proc, l.args, l.ret, l.before.size, s);
    FramesApart(data, l.before.size, l.proc);
  }

  lemma OwnFrame(data: nat, s: Ctx, layers: seq<Layer>)
    requires Linked(data, s, layers) && !Outside(layers)
    ensures Fits(layers[0]) && OwnsTop(data, s, layers[0])
  {
    hide Start, SamePlace, JumpCall, CallJmp, OwnsTop;
    var l := layers[0];
    if l.Call? { CallOwns(data, s, l); } else { EntryOwns(data, s, l); }
  }
}

/** How large a control frame is. */
module ControlFrame {
  import opened CallStack
  import L = Layout
  import opened Rounding

  /** What a control frame holds: the link to the next one, the stack mark, the three bases, the result pointer and
      the next instruction. */
  const CONTROL_FIELDS: seq<L.Field> := seq(7, _ => L.Field(PTR, PTR, 1))

  lemma {:induction false} FieldsPacked(k: nat)
    requires k <= 7
    ensures L.End(CONTROL_FIELDS, k) == PTR * k
    ensures k > 0 ==> L.OffsetOf(CONTROL_FIELDS, k - 1) == PTR * (k - 1) && L.MaxAlign(CONTROL_FIELDS, k) == PTR
  {
    if k > 0 { FieldsPacked(k - 1); }
  }

  /** A control frame is as large as its fields laid out in order, one word after the other. */
  lemma ControlSize()
    ensures RoundUp(L.End(CONTROL_FIELDS, 7), L.MaxAlign(CONTROL_FIELDS, 7)) == CONTROL_SIZE
    ensures forall k | 0 <= k < 7 :: L.OffsetOf(CONTROL_FIELDS, k) == PTR * k
  {
    FieldsPacked(7);
    forall k | 0 <= k < 7 ensures L.OffsetOf(CONTROL_FIELDS, k) == PTR * k { FieldsPacked(k + 1); }
  }
}
