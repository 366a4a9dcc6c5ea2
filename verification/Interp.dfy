/** The interpreter loop over translated procs, with its call stack on an arena; native calls may invoke it
    again. */
module Interp {
  import opened Ir
  import opened Arena
  import M = Machine
  import opened Bytecode
  import opened Translator
  import opened RunContext
  import opened CallStack
  import opened Execution

  class Interp {
    const world: World
    const stack: Arena
    var control: seq<Control>
    var stackFrame: nat
    var frame: nat
    var arg: nat
    var instr: BcProc?
    var ret: nat
    var pc: Pc
    var ffi: nat
    var locals: Locals
    var trace: Trace
    ghost var layers: seq<Layer>
    ghost const table: ProcTable   // the procs that may run, by number
    ghost const bc: BcCode         // and what they are the bytecode of

    constructor (world: World, data: nat, ghost table: ProcTable, ghost bc: BcCode)
      ensures this.world == world && fresh(stack) && stack.data == data && this.table == table && this.bc == bc
      ensures Now() == IDLE && layers == [] && trace == [] && Valid()
    {
      this.world, this.table, this.bc := world, table, bc;
      stack := new Arena(data);
      control, stackFrame, frame, arg, instr, ret, pc, ffi := [], 0, 0, 0, null, 0, Nowhere, 0;
      locals, trace, layers := map[], [], [];
    }

    ghost function Now(): Ctx
      reads this, stack
    {
      Ctx(stack.size, control, stackFrame, frame, arg, instr, ret, pc, ffi)
    }

    ghost function State(): StackState
      reads this, stack
    {
      StackState(Now(), layers)
    }

    ghost predicate Valid()
      reads this, stack
    {
      Linked(stack.data, Now(), layers) && HasLocals(Now(), layers, locals.Keys)
    }

    method JumpTo(proc: BcProc, index: nat)
      modifies `pc
      ensures pc == At(proc, index)
    {
      pc := At(proc, index);
    }

    method JumpCall(proc: BcProc, args: nat, ret': nat, grabbed: nat)
      requires proc.frameAlign > 0
      modifies this, stack
      ensures Now() == CallStack.JumpCall(stack.data, old(Now()), proc, args, ret', grabbed)
      ensures layers == old(layers) && trace == old(trace) && locals == old(locals)[frame := map[]]
    {
      var address := stack.AllocAligned(CONTROL_SIZE, PTR);
      control := [Control(address, stackFrame, frame, arg, instr, ret, pc)] + control;
      stackFrame := grabbed;
      frame := stack.AllocAligned(proc.frameSize, proc.frameAlign);
      locals := locals[frame := map[]];
      arg := args;
      instr := proc;
      ret := ret';
      JumpTo(proc, 0);
    }

    method CallJmp(proc: BcProc, argc: nat)
      requires proc.frameAlign > 0
      modifies this, stack
      ensures Now() == CallStack.CallJmp(stack.data, old(Now()), proc, argc)
      ensures layers == [Layer.Call(old(Now()), proc, argc)] + old(layers)
      ensures trace == old(trace) && locals == old(locals)[frame := map[]]
    {
      ghost var before := Now();
      var grabbed := stack.Grab();
      var argv := stack.AllocAligned(PTR * (argc + 1), PTR);
      JumpCall(proc, argv, argv + PTR * argc, grabbed);
      layers := [Layer.Call(before, proc, argc)] + layers;
    }

    method Return()
      requires control != [] && stackFrame <= stack.size && layers != []
      modifies this, stack
      ensures Now() == CallStack.Ret(old(Now())) && layers == old(layers)[1..]
      ensures trace == old(trace) && locals == old(locals)
    {
      var saved := control[0];
      control := control[1..];
      stack.PopFrame(stackFrame);
      stackFrame := saved.stackFrame;
      frame := saved.frame;
      arg := saved.arg;
      instr := saved.instr;
      ret := saved.ret;
      pc := saved.pc;
      layers := layers[1..];
    }

    /** The arguments of a native call and their types, and what the native side adds. */
    method OpenNative(a: nat)
      modifies this, stack
      ensures layers == [Native(old(Now()), world.nativeArgc(a), world.extra(a), old(ffi))] + old(layers)
      ensures Now() == Entered(stack.data, layers[0])
      ensures locals == old(locals) && trace == old(trace) + [EvExt(a)]
    {
      hide Start;
      var argc := world.nativeArgc(a);
      layers := [Native(Now(), argc, world.extra(a), ffi)] + layers;
      var argv := stack.AllocAligned(PTR * argc, PTR);
      var argt := stack.AllocAligned(PTR * argc, PTR);
      ghost var size := stack.size;
      var _ := stack.AllocAligned(world.extra(a), 1);
      NoPadding(stack.data, size);
      trace := trace + [EvExt(a)];
    }

    /** A native call: its arguments go on the stack, it may invoke the interpreter, the stack is cut back. */
    method CallExt(a: nat, fuel: nat) returns (o: Ending)
      requires Valid() && !Outside(layers) && pc.At?
      modifies this, stack
      decreases fuel, 2
      ensures o.Ended? ==> Now() == old(Now()) && layers == old(layers)
      ensures o.Ended? ==> Kept(old(locals), locals, stack.data + old(stack.size)) && old(locals).Keys <= locals.Keys
      ensures Quiet(world) ==> o.Ended? && locals == old(locals) && trace == old(trace) + [EvExt(a)]
    {
      ghost var before := Now();
      var grabbed := stack.Grab();
      OpenNative(a);
      NativeLinked(stack.data, before, layers[0], old(layers), locals.Keys);
      hide Linked, HasLocals, Start;
      o := CallBack(world.callbacks(a, trace), fuel);
      if o.Ended? {
        stack.PopFrame(grabbed);
        layers := layers[1..];
      }
    }

    /** The native side invokes one proc after the other. */
    method CallBack(callbacks: seq<Callback>, fuel: nat) returns (o: Ending)
      requires Valid() && Outside(layers)
      modifies this, stack
      decreases fuel, 1, |callbacks|
      ensures o.Ended? ==> Now() == old(Now()) && layers == old(layers)
      ensures o.Ended? ==> Kept(old(locals), locals, stack.data + old(stack.size)) && old(locals).Keys <= locals.Keys
      ensures callbacks == [] ==> o.Ended? && locals == old(locals) && trace == old(trace)
    {
      if callbacks == [] {
        return Ended;
      }
      var c := callbacks[0];
      if c.proc.frameAlign == 0 {
        return Wrong;
      }
      o := Invoke(c.proc, c.args, c.ret, fuel);
      if o.Ended? {
        MoreLocals(Now(), layers, old(locals).Keys, locals.Keys);
        o := CallBack(callbacks[1..], fuel);
      }
    }

    /** Jumps leave everything but the next instruction. */
    method Branch(i: Bc<BcProc?>)
      requires (i.Goto? || i.GotoZ? || i.GotoNz?) && instr != null && pc.At? && pc.proc == instr && frame in locals
      modifies `pc
      ensures Executes(stack.data, old(State()), i, locals[frame], world, State())
    {
      match i {
        case Goto(k) =>
          JumpTo(instr, k);
        case GotoZ(c, k) =>
          if !Value(c, locals[frame]) { JumpTo(instr, k); }
        case GotoNz(c, k) =>
          if Value(c, locals[frame]) { JumpTo(instr, k); }
      }
    }

    /** Any other instruction: native calls, and effects on the proc's own locals. */
    method Perform(i: Instr, fuel: nat) returns (o: Ending)
      requires Valid() && !Outside(layers) && pc.At?
      modifies this, stack
      decreases fuel, 3
      ensures o.Ended? ==> State() == old(State())
      ensures o.Ended? ==> Kept(old(locals), locals, stack.data + old(layers[0].before.size)) && old(locals).Keys <= locals.Keys
      ensures Quiet(world) ==>
                o.Ended? && Acts(world.w, Plain(i), old(frame), old(locals), old(trace), frame, locals, trace)
    {
      FrameAbove(stack.data, Now(), layers);
      if i.Ext? {
        o := CallExt(i.sym, fuel);
      } else {
        hide Effect, Linked, HasLocals;
        var s := Effect(world.w, i, Ir.State(trace, locals[frame]));
        trace := s.tr;
        locals := locals[frame := s.m];
        o := Ended;
      }
    }

    lemma InProc()
      requires Valid() && !Outside(layers) && pc.At?
      ensures instr != null && pc.proc == instr && frame in locals
    {}

    method EnterProc(callee: BcProc)
      requires Valid() && !Outside(layers) && pc.At? && callee.frameAlign > 0
      modifies this, stack
      ensures Executes(stack.data, old(State()), Bc.Enter(callee), old(locals[frame]), world, State()) && frame in locals
      ensures Kept(old(locals), locals, stack.data + old(layers[0].before.size)) && old(locals).Keys <= locals.Keys
      ensures Acts(world.w, Bc.Enter(callee), old(frame), old(locals), old(trace), frame, locals, trace)
    {
      hide Linked, HasLocals, Start;
      FrameAbove(stack.data, Now(), layers);
      trace := trace + [EvCall(callee.id)];
      CallJmp(callee, world.argc(callee));
    }

    method LeaveProc(r: Ref)
      requires Valid() && !Outside(layers) && pc.At?
      modifies this, stack
      ensures Executes(stack.data, old(State()), Bc.Leave(r), old(locals[frame]), world, State())
      ensures Kept(old(locals), locals, stack.data + old(layers[0].before.size)) && old(locals).Keys <= locals.Keys
      ensures Acts(world.w, Bc.Leave(r), old(frame), old(locals), old(trace), frame, locals, trace)
    {
      hide Linked, HasLocals, RetValue;
      LeaveRestores(stack.data, Now(), layers);
      InProc();
      trace := trace + [EvRet(RetValue(r, locals[frame]))];
      Return();
    }

    /** Dispatch on a fetched instruction. */
    method Execute(i: Bc<BcProc?>, fuel: nat) returns (o: Ending)
      requires Valid() && !Outside(layers) && pc.At?
      requires i.Enter? ==> i.callee != null && i.callee.frameAlign > 0
      modifies this, stack
      decreases fuel, 4
      ensures o.Ended? ==> Executes(stack.data, old(State()), i, old(locals[frame]), world, State())
      ensures o.Ended? && i.Enter? ==> frame in locals
      ensures o.Ended? ==> Kept(old(locals), locals, stack.data + old(layers[0].before.size)) && old(locals).Keys <= locals.Keys
      ensures Quiet(world) ==> o.Ended? && Acts(world.w, i, old(frame), old(locals), old(trace), frame, locals, trace)
    {
      InProc();
      hide Quiet, Linked, HasLocals, RetValue, Effect;
      match i {
        case Goto(_) => Branch(i);
        case GotoZ(_, _) => Branch(i);
        case GotoNz(_, _) => Branch(i);
        case Enter(callee) => hide Acts, Kept, Executes; EnterProc(callee);
        case Leave(r) => hide Acts, Kept, Executes; LeaveProc(r);
        case Plain(j) =>
          hide Acts;
          o := Perform(j, fuel);
          return o;
      }
      return Ended;
    }

    /** One round of the loop: fetch, advance, execute. */
    method Step(fuel: nat) returns (o: Ending)
      requires Valid() && !Outside(layers) && pc.At?
      modifies this, stack
      decreases fuel, 5
      ensures o.Ended? ==>
                old(CanRun(pc.proc.instrs, pc.index)) &&
                Steps(stack.data, old(State()), old(pc.proc.instrs[pc.index]), old(locals[frame]), world, State()) &&
                (old(pc.proc.instrs[pc.index]).Enter? ==> frame in locals)
      ensures o.Ended? ==> Kept(old(locals), locals, stack.data + old(layers[0].before.size)) && old(locals).Keys <= locals.Keys
      ensures Quiet(world) ==> o == if old(CanRun(pc.proc.instrs, pc.index)) then Ended else Wrong
      ensures Quiet(world) && o.Ended? ==>
                Acts(world.w, old(pc.proc.instrs[pc.index]), old(frame), old(locals), old(trace), frame, locals, trace)
    {
      if !CanRun(pc.proc.instrs, pc.index) {
        return Wrong;
      }
      hide Executes, Acts, Quiet, Kept;
      var i := pc.proc.instrs[pc.index];
      pc := At(pc.proc, pc.index + 1);
      assert Now() == Fetched(old(Now()));
      o := Execute(i, fuel);
    }

    /** Start an invocation: no next instruction to come back to, the proc's own foreign-call context. */
    method OpenInvoke(proc: BcProc, args: nat, ret': nat)
      requires proc.frameAlign > 0
      modifies this, stack
      ensures layers == [Entry(old(Now()), proc, args, ret')] + old(layers)
      ensures Now() == Entered(stack.data, layers[0])
      ensures locals == old(locals)[frame := map[]] && trace == old(trace)
    {
      layers := [Entry(Now(), proc, args, ret')] + layers;
      pc := Nowhere;
      ffi := proc.ffi;
      var grabbed := stack.Grab();
      JumpCall(proc, args, ret', grabbed);
    }

    /** Natives do not call back, and the table holds the bytecode it should. */
    ghost predicate Refines()
      reads table
    {
      Quiet(world) && Tabled(table, CodesOf(table), bc)
    }

    /** Fetch, advance, execute, until there is no next instruction. */
    method Loop(ghost base: StackState, ghost entry: Layer, ghost l0: Locals, fuel: nat,
                ghost known: bool, ghost c: M.Config)
      returns (o: Ending)
      requires Looping(stack.data, base, entry, State(), l0, locals)
      requires known ==> Refines() && Follows(State(), locals, trace, table, c)
      modifies this, stack
      decreases fuel, 0, 0
      ensures o.Ended? ==> Looping(stack.data, base, entry, State(), l0, locals) && !pc.At?
      ensures known ==> Agrees(bc, world.w, c, trace, fuel, o)
    {
      hide Linked, HasLocals, Kept, Steps, Acts, Looping, Outside, Quiet, Tabled, Follows, Agrees, StepBc;
      var left: nat := fuel;
      ghost var d := c;
      while pc.At?
        invariant left <= fuel
        invariant Looping(stack.data, base, entry, State(), l0, locals)
        invariant known ==> Refines() && Follows(State(), locals, trace, table, d) && d == StepsBc(bc, world.w, c, fuel - left)
        decreases left
      {
        LoopReady(stack.data, base, entry, State(), l0, locals);
        if left == 0 {
          if known { StillRunning(bc, world.w, c, State(), locals, trace, table, fuel); }
          return OutOfFuel;
        }
        ghost var a, la, ta, code := State(), locals, trace, pc.proc.instrs;
        o := Step(left - 1);
        if !o.Ended? {
          if known { GoneWrong(bc, world.w, c, a, la, ta, table, CodesOf(table), fuel, fuel - left, trace); }
          return o;
        }
        LoopGoesOn(stack.data, base, entry, a, code[a.ctx.pc.index], la[a.ctx.frame], world, State(), l0, la, locals);
        if known {
          LoopAgrees(stack.data, base, entry, a, code[a.ctx.pc.index], world, State(), l0, la, locals, ta, trace,
                     table, CodesOf(table), bc, d);
          StepsBcSnoc(bc, world.w, c, fuel - left);
          d := StepBc(bc, world.w, d);
        }
        left := left - 1;
      }
      if known { HasEnded(bc, world.w, c, State(), locals, trace, table, fuel, fuel - left); }
      return Ended;
    }

    /** Run a proc until it returns. Whatever it calls, and however natives invoke the interpreter meanwhile, the
        context comes back exactly as it was; and with natives that do not, the run is the bytecode machine's. */
    method Invoke(proc: BcProc, args: nat, ret': nat, fuel: nat) returns (o: Ending)
      requires Valid() && Outside(layers) && proc.frameAlign > 0
      modifies this, stack
      decreases fuel, 0, 1
      ensures o.Ended? ==> Now() == old(Now()) && layers == old(layers)
      ensures o.Ended? ==> Kept(old(locals), locals, stack.data + old(stack.size)) && old(locals).Keys <= locals.Keys
      ensures Refines() && Has(table, proc.id) && table[proc.id] == proc ==>
                Agrees(bc, world.w, M.Run([M.Frame(proc.id, 0, map[])], old(trace)), trace, fuel, o)
    {
      hide Linked, HasLocals, Kept, Looping, Outside, Entered, Quiet, Tabled, Follows, Agrees;
      var saved := (pc, ffi);
      ghost var base := State();
      OpenInvoke(proc, args, ret');
      ghost var entry := layers[0];
      LoopStarts(stack.data, base, entry, State(), old(locals), locals);
      ghost var c := M.Run([M.Frame(proc.id, 0, map[])], trace);
      ghost var known := Refines() && Has(table, proc.id) && table[proc.id] == proc;
      if known { ShowsStart(stack.data, State(), entry, locals, trace, table, proc, c); }
      o := Loop(base, entry, old(locals), fuel, known, c);
      if o.Ended? {
        LoopEnds(stack.data, base, entry, State(), old(locals), locals);
        pc, ffi := saved.0, saved.1;
      }
    }
  }
}
