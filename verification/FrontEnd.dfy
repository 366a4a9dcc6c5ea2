/** The front end's emission: a compilation context that is updated as the syntax tree is walked. */
module FrontEnd {
  import opened Ir
  import opened Storage
  import opened IrProgram
  import S = Source
  import F = FrameSlots
  import B = FrameBytes
  import opened Trees
  import opened Lowering

  const NO_PROC := Proc([], 0, F.EMPTY)

  /** A scope: its recorded defers, latest first, and the proc it belongs to. */
  datatype ScopeNode = ScopeNode(defers: seq<seq<Instr>>, proc: nat)

  /** A proc being compiled: what its innermost defer statement has recorded so far, if one is open. */
  datatype ProcNode = ProcNode(proc: nat, active: Option<seq<Instr>>, hasReturn: bool)

  /** Where emitted code goes. */
  datatype Sink = Sink(active: Option<seq<Instr>>, hist: History)

  function Put(s: Sink, p: nat, code: seq<Instr>): Sink {
    if s.active.Some? then s.(active := Some(s.active.value + code)) else s.(hist := s.hist + Tagged(p, code))
  }

  lemma TaggedConcat(p: nat, a: seq<Instr>, b: seq<Instr>)
    ensures Tagged(p, a + b) == Tagged(p, a) + Tagged(p, b)
  {}

  lemma PutNothing(s: Sink, p: nat)
    ensures Put(s, p, []) == s
  {
    assert s.hist + Tagged(p, []) == s.hist;
    if s.active.Some? { assert s.active.value + [] == s.active.value; }
  }

  /** Everything of the context that a statement may not change, and where its code goes. */
  datatype Surroundings = Surroundings(
    outer: seq<ScopeNode>,     // scopes of enclosing procs
    below: seq<ProcNode>,      // enclosing procs
    proc: nat,
    others: seq<Proc>,         // all procs except the current one
    sink: Sink)
  {
    function Adding(code: seq<Instr>): Surroundings { this.(sink := Put(sink, proc, code)) }
  }

  lemma AddingTwice(s: Surroundings, a: seq<Instr>, b: seq<Instr>)
    ensures s.Adding(a).Adding(b) == s.Adding(a + b)
  {
    TaggedConcat(s.proc, a, b);
    if s.sink.active.Some? {
      assert s.sink.active.value + a + b == s.sink.active.value + (a + b);
    } else {
      assert s.sink.hist + Tagged(s.proc, a) + Tagged(s.proc, b) == s.sink.hist + (Tagged(s.proc, a) + Tagged(s.proc, b));
    }
  }

  lemma AddingNothing(s: Surroundings)
    ensures s.Adding([]) == s
  {
    PutNothing(s.sink, s.proc);
  }

  function FlatAll(ds: seq<Tree>): (r: seq<seq<Instr>>)
    ensures |r| == |ds|
  {
    seq(|ds|, k requires 0 <= k < |ds| => Flatten(ds[k]))
  }

  /** Labels of a copy are below the label counter. */
  lemma {:induction false} LabelIsListed(code: seq<Instr>, k: nat)
    requires k < |code| && code[k].Label?
    ensures code[k].id in LabelsOf(code)
  {
    if k > 0 { LabelIsListed(code[1..], k - 1); }
  }

  lemma CopyBounded(code: seq<Instr>, base: nat, k: nat)
    requires k < |code| && code[k].Label?
    ensures RenameCode(LabelsOf(code), base, code)[k].id < base + |LabelsOf(code)|
  {
    LabelIsListed(code, k);
  }

  /** The current proc's scopes are on top and hold the streams of what lowering says was recorded. */
  ghost predicate ScopesMatch(scopes: seq<ScopeNode>, own: seq<seq<Tree>>, p: nat) {
    && |own| <= |scopes|
    && (forall i | 0 <= i < |own| :: scopes[i].proc == p && scopes[i].defers == FlatAll(own[i]))
    && (|own| < |scopes| ==> scopes[|own|].proc != p)
  }

  lemma OthersSame(p: nat, before: seq<Proc>, after: seq<Proc>)
    requires OnlyBlocksOf(p, before, after)
    ensures before[p := NO_PROC] == after[p := NO_PROC]
  {}

  /** A proc's context, apart from what is emitted, and its place among all procs. */
  ghost predicate Standing(scopes: seq<ScopeNode>, nodes: seq<ProcNode>, procs: seq<Proc>, p: nat, env: Env, logging: bool) {
    && nodes != [] && p == nodes[0].proc < |procs|
    && env.frame == procs[p].frame
    && env.hasReturn == nodes[0].hasReturn
    && env.logging == logging
    && |env.scopes| <= |scopes|
    && ScopesMatch(scopes, env.scopes, p)
    && procs[p].curBlock < env.nextLabel
  }

  lemma ProcsKept(before: seq<Proc>, after: seq<Proc>, p: nat)
    requires p == |before| && p < |after| && after[p := NO_PROC] == before + [NO_PROC]
    ensures |after| == p + 1 && after[..p] == before
  {
    assert |after| == |after[p := NO_PROC]|;
    assert after[..p] == after[p := NO_PROC][..p];
  }

  class Compiler {
    const ir: Program
    const logging: bool
    var scopes: seq<ScopeNode>   // innermost first
    var procs: seq<ProcNode>     // innermost first
    ghost var env: Env           // the same context, seen as lowering sees it
    ghost var base: Surroundings // what was around when `trail` was empty
    ghost var trail: seq<Instr>  // code emitted since

    constructor (logging: bool)
      ensures this.logging == logging && fresh(ir) && ir.Valid() && ir.procs == [] && ir.hist == [] && |ir.blocks| == 0
      ensures scopes == [] && procs == [] && Idle() && env.nextLabel == 0
    {
      this.logging := logging;
      ir := new Program();
      scopes, procs := [], [];
      env := Env(0, F.EMPTY, [], false, logging);
    }

    /** No proc is being compiled. Scopes of finished procs may still be on the stack. */
    ghost predicate Idle()
      reads this, ir
    {
      && ir.Valid() && procs == []
      && env == Env(|ir.blocks|, F.EMPTY, [], false, logging)
      && forall i | 0 <= i < |scopes| :: scopes[i].proc < |ir.procs|
    }

    ghost predicate Ready()
      reads this, ir
    {
      InStep() && Around() == base.Adding(trail)
    }

    /** The context and its ghost image agree. */
    ghost predicate InStep()
      reads this, ir
    {
      && ir.Valid()
      && procs != [] && ir.curProc == procs[0].proc < |ir.procs|
      && env.nextLabel == |ir.blocks|
      && env.frame == ir.procs[ir.curProc].frame
      && env.hasReturn == procs[0].hasReturn
      && env.logging == logging
      && |env.scopes| <= |scopes|
      && ScopesMatch(scopes, env.scopes, ir.curProc)
      && ir.procs[ir.curProc].curBlock < |ir.blocks|
    }

    ghost function Around(): Surroundings
      requires InStep()
      reads this, ir
    {
      Surroundings(scopes[|env.scopes|..], procs[1..], ir.curProc, ir.procs[ir.curProc := NO_PROC],
                   Sink(procs[0].active, ir.hist))
    }

    // --- Emission ---

    method CreateLabel() returns (l: nat)
      requires Ready()
      modifies this, ir
      ensures Ready() && base == old(base) && trail == old(trail)
      ensures l == old(env).nextLabel && env == old(env).(nextLabel := l + 1)
      ensures scopes == old(scopes)
    {
      l := ir.CreateLabel();
      env := env.(nextLabel := l + 1);
    }

    method MakeLocal() returns (r: Ref)
      requires Ready()
      modifies this, ir
      ensures Ready() && base == old(base) && trail == old(trail)
      ensures r == Local(old(env).NextLocal()) && env == old(env).WithLocal()
      ensures scopes == old(scopes)
    {
      var id := ir.MakeLocalVar(BOOL);
      r := Local(id);
      env := env.WithLocal();
    }

    method Emit(i: Instr)
      requires Ready() && (i.Label? ==> i.id < env.nextLabel)
      modifies this, ir
      ensures Ready() && base == old(base) && trail == old(trail) + [i]
      ensures env == old(env).(hasReturn := if i.Label? then false else if i.Ret? then true else old(env).hasReturn)
      ensures scopes == old(scopes)
    {
      hide ScopesMatch, Program.Valid;
      ghost var s, procsBefore := Around(), ir.procs;
      var node := procs[0];
      if i.Label? {
        node := node.(hasReturn := false);
      } else if i.Ret? {
        node := node.(hasReturn := true);
      }
      env := env.(hasReturn := node.hasReturn);
      if node.active.Some? {
        node := node.(active := Some(node.active.value + [i]));
      } else {
        ir.EmitArray([i]);
        OthersSame(ir.curProc, procsBefore, ir.procs);
      }
      procs := [node] + procs[1..];
      assert InStep();
      assert Around() == s.Adding([i]);
      assert s.Adding([i]) == base.Adding(trail + [i]) by { AddingTwice(base, trail, [i]); }
      trail := trail + [i];
    }

    method EmitNote()
      requires Ready()
      modifies this, ir
      ensures Ready() && base == old(base) && trail == old(trail) + Flatten(Note(old(env))) && env == old(env)
      ensures scopes == old(scopes)
    {
      if logging { Emit(Comment); }
    }

    /** Pin a value to an operand. */
    method AsRef(im: Interm) returns (r: Ref)
      requires Ready()
      modifies this, ir
      ensures var c := Lowering.AsRef(im, old(env));
              Ready() && r == c.r && env == c.env && base == old(base) && trail == old(trail) + Flatten(c.t)
      ensures scopes == old(scopes)
    {
      match im {
        case IRef(x) => r := x;
        case IEval(l) =>
          r := MakeLocal();
          Emit(Eval(l, r));
        case IXor(src) =>
          r := MakeLocal();
          Emit(Xor(r, src));
      }
    }

    /** Put a value into a given destination, directly if the instruction still lacks one. */
    method Store(dst: Ref, im: Interm)
      requires Ready()
      modifies this, ir
      ensures Ready() && env == old(env) && base == old(base) && trail == old(trail) + [WithDst(im, dst)]
      ensures scopes == old(scopes)
    {
      match im {
        case IRef(x) => Emit(Mov(dst, x, BOOL.size));
        case IEval(l) => Emit(Eval(l, dst));
        case IXor(src) => Emit(Xor(dst, src));
      }
    }

    // --- Conditions ---

    method CompileLogic(e: S.Expr, invert: bool) returns (im: Interm)
      requires Ready()
      modifies this, ir
      ensures var c := LowerExpr(e, invert, old(env));
              Ready() && im == c.im && env == c.env && base == old(base) && trail == old(trail) + Flatten(c.t)
      ensures scopes == old(scopes)
      decreases e, 2
    {
      hide Compiler.Ready, Compiler.InStep, Compiler.Around;
      match e {
        case And(_, _) => im := CompileLogicExpr(e, invert, !invert);
        case Or(_, _) => im := CompileLogicExpr(e, invert, invert);
        case Not(x) => im := CompileLogic(x, !invert);
        case Leaf(l) =>
          im := IEval(l);
          if invert {
            var r := AsRef(im);
            im := IXor(r);
          }
        case Const(b) => im := if invert then IXor(ConstRef(b)) else IRef(ConstRef(b));
      }
    }

    method CompileLogicExpr(e: S.Expr, invert: bool, isAnd: bool) returns (im: Interm)
      requires Ready() && (e.And? || e.Or?)
      modifies this, ir
      ensures var c := LowerShort(e, invert, isAnd, old(env));
              Ready() && im == c.im && env == c.env && base == old(base) && trail == old(trail) + Flatten(c.t)
      ensures scopes == old(scopes)
      decreases e, 1
    {
      hide Compiler.Ready, Compiler.InStep, Compiler.Around;
      ghost var env0, before := env, trail;
      var shortL, joinL, res, lref := StartShort(e, invert, isAnd);
      ghost var front := trail;
      var im2 := CompileLogic(e.rhs, invert);
      ghost var middle := trail;
      FinishShort(res, lref, im2, shortL, joinL);
      ShortFlat(before, front, middle, trail, e, invert, isAnd, env0);
      im := IRef(res);
    }

    /** The first half of a short-circuit operator: the left operand, and the jump past the right one. */
    method StartShort(e: S.Expr, invert: bool, isAnd: bool) returns (shortL: nat, joinL: nat, res: Ref, lref: Ref)
      requires Ready() && (e.And? || e.Or?)
      modifies this, ir
      ensures var env0 := old(env).WithLocal().(nextLabel := old(env).nextLabel + 2);
              var x := LowerExpr(e.lhs, invert, env0);
              var x' := Lowering.AsRef(x.im, x.env);
              && Ready() && base == old(base) && scopes == old(scopes)
              && shortL == old(env).nextLabel && joinL == shortL + 1 && res == Local(old(env).NextLocal())
              && lref == x'.r && env == x'.env
              && trail == old(trail) + Flatten(Note(old(env))) + Flatten(x.t) + Flatten(x'.t) + [CondJump(isAnd, lref, shortL)]
      decreases e, 0
    {
      hide Compiler.Ready, Compiler.InStep, Compiler.Around;
      shortL := CreateLabel();
      joinL := CreateLabel();
      res := MakeLocal();
      EmitNote();
      var im := CompileLogic(e.lhs, invert);
      lref := AsRef(im);
      Emit(CondJump(isAnd, lref, shortL));
    }

    /** The second half of a short-circuit operator: both ways to the result, and the join. */
    method FinishShort(res: Ref, lref: Ref, rhs: Interm, shortL: nat, joinL: nat)
      requires Ready() && shortL < env.nextLabel && joinL < env.nextLabel
      modifies this, ir
      ensures Ready() && env == old(env).(hasReturn := false) && base == old(base) && scopes == old(scopes)
      ensures trail == old(trail) + ShortTail(res, lref, rhs, shortL, joinL) + Flatten(Note(old(env)))
    {
      hide Compiler.Ready, Compiler.InStep, Compiler.Around;
      Store(res, rhs);
      Emit(Jmp(joinL));
      Emit(Label(shortL));
      Store(res, IRef(lref));
      Emit(Jmp(joinL));
      Emit(Label(joinL));
      TailFlat(old(trail), WithDst(rhs, res), Jmp(joinL), Label(shortL), Mov(res, lref, 1), Jmp(joinL), Label(joinL));
      EmitNote();
    }

    /** Compile a value and pin it. */
    method CompileValue(e: S.Expr) returns (r: Ref)
      requires Ready()
      modifies this, ir
      ensures var c := LowerValue(e, old(env));
              Ready() && r == c.r && env == c.env && base == old(base) && trail == old(trail) + Flatten(c.t)
      ensures scopes == old(scopes)
    {
      hide Compiler.Ready, Compiler.InStep, Compiler.Around;
      var im := CompileLogic(e, false);
      ghost var c := LowerExpr(e, false, old(env));
      r := AsRef(im);
      ThenFlat(c.t, Lowering.AsRef(c.im, c.env).t);
      Assoc(old(trail), Flatten(c.t), Flatten(Lowering.AsRef(c.im, c.env).t));
    }

    // --- Defers ---

    /** A label-fresh copy of a recorded fragment. */
    method Duplicate(code: seq<Instr>, ghost t: Tree) returns (copy: seq<Instr>)
      requires Ready() && code == Flatten(t)
      modifies this, ir
      ensures Ready() && base == old(base) && trail == old(trail) && scopes == old(scopes)
      ensures env == old(env).(nextLabel := old(env).nextLabel + LabelCount(t))
      ensures copy == Flatten(CopyOf(t, old(env).nextLabel))
      ensures forall k | 0 <= k < |copy| && copy[k].Label? :: copy[k].id < env.nextLabel
    {
      hide ScopesMatch, Program.Valid, Flatten, LabelsOf, Rename;
      ghost var first := env.nextLabel;
      FlattenRename(LabelsOf(code), first, t);
      copy := ir.DupInto(code);
      env := env.(nextLabel := env.nextLabel + |LabelsOf(code)|);
      forall k | 0 <= k < |copy| && copy[k].Label? ensures copy[k].id < env.nextLabel {
        CopyBounded(code, first, k);
      }
    }

    /** Append code to the open defer, or to the program; unlike Emit this leaves the return flag alone. */
    method Splice(code: seq<Instr>)
      requires Ready() && forall k | 0 <= k < |code| && code[k].Label? :: code[k].id < env.nextLabel
      modifies this, ir
      ensures Ready() && env == old(env) && base == old(base) && scopes == old(scopes)
      ensures trail == old(trail) + code
    {
      hide ScopesMatch, Program.Valid;
      ghost var s, procsBefore := Around(), ir.procs;
      if procs[0].active.Some? {
        procs := [procs[0].(active := Some(procs[0].active.value + code))] + procs[1..];
      } else {
        ir.EmitArray(code);
        OthersSame(ir.curProc, procsBefore, ir.procs);
      }
      assert InStep();
      assert Around() == s.Adding(code);
      assert s.Adding(code) == base.Adding(trail + code) by { AddingTwice(base, trail, code); }
      trail := trail + code;
    }

    method EmitDefersForScope(j: nat)
      requires Ready() && j < |env.scopes|
      modifies this, ir
      ensures var c := Replay(old(env).scopes[j], old(env));
              Ready() && env == c.env && base == old(base) && trail == old(trail) + Flatten(c.t)
      ensures scopes == old(scopes)
    {
      var defers := scopes[j].defers;
      ghost var ds, env0, before := env.scopes[j], env, trail;
      assert defers == FlatAll(ds);
      hide *;
      var k := 0;
      NoneReplayed(ds, env, trail);
      while k < |defers|
        invariant 0 <= k <= |defers| && Ready() && base == old(base) && scopes == old(scopes)
        invariant Replaying(ds, env0, before, k, env, trail)
      {
        EmitDefer(defers[k], ds, env0, before, k);
        k := k + 1;
      }
      AllReplayed(ds, env0, before, env, trail);
    }

    /** One round of the loop over a scope's recorded fragments. */
    method EmitDefer(code: seq<Instr>, ghost ds: seq<Tree>, ghost env0: Env, ghost before: seq<Instr>, ghost k: nat)
      requires Ready() && k < |ds| && code == Flatten(ds[k]) && Replaying(ds, env0, before, k, env, trail)
      modifies this, ir
      ensures Ready() && base == old(base) && scopes == old(scopes)
      ensures Replaying(ds, env0, before, k + 1, env, trail)
    {
      hide *;
      ghost var env1, trail1 := env, trail;
      var copied := Duplicate(code, ds[k]);
      Splice(copied);
      OneReplayed(ds, env0, before, k, env1, trail1, env, trail);
    }

    /** Defers of the scopes down to, and not including, the one at position upto. */
    method EmitDefers(upto: nat)
      requires Ready() && upto <= |env.scopes|
      modifies this, ir
      ensures var c := Lowering.EmitDefers(old(env).scopes[..upto], old(env));
              Ready() && env == c.env && base == old(base) && trail == old(trail) + Flatten(c.t)
      ensures scopes == old(scopes)
    {
      assert env.hasReturn == procs[0].hasReturn;
      hide Compiler.Ready, Compiler.InStep, Compiler.Around;
      if procs[0].hasReturn {
        return;
      }
      ghost var all, env0, before := env.scopes[..upto], env, trail;
      ghost var done: seq<Instr> := [];
      var scope := 0;
      assert all[0..] == all;
      while scope != upto
        invariant 0 <= scope <= upto <= |env.scopes| && Ready() && base == old(base) && scopes == old(scopes)
        invariant trail == before + done && env == env0.(nextLabel := env.nextLabel)
        invariant ReplayAll(all, env0).env == ReplayAll(all[scope..], env).env
        invariant Flatten(ReplayAll(all, env0).t) == done + Flatten(ReplayAll(all[scope..], env).t)
        decreases upto - scope
      {
        ghost var env1 := env;
        ReplayAllUnfold(all, scope, env1);
        EmitDefersForScope(scope);
        ghost var copy := Flatten(Replay(all[scope], env1).t);
        Assoc(before, done, copy);
        Assoc(done, copy, Flatten(ReplayAll(all[scope + 1..], env).t));
        done := done + copy;
        scope := scope + 1;
      }
    }

    /** The position of the first scope of an enclosing proc. */
    method FindNextProcScope() returns (i: nat)
      requires Ready()
      ensures i == |env.scopes|
    {
      i := 0;
      while i < |scopes| && scopes[i].proc == procs[0].proc
        invariant i <= |env.scopes|
      {
        i := i + 1;
      }
    }

    // --- Scopes ---

    method EnterPrivateScope()
      requires Ready()
      modifies this, ir
      ensures Ready() && base == old(base) && trail == old(trail) && env == Lowering.Entered(old(env))
    {
      hide ScopesMatch, Program.Valid;
      MatchPush(scopes, env.scopes, ir.curProc);
      scopes := [ScopeNode([], procs[0].proc)] + scopes;
      ir.Enter();
      env := Lowering.Entered(env);
    }

    method PopScope()
      requires Ready() && env.scopes != []
      modifies this, ir
      ensures Ready() && base == old(base) && trail == old(trail)
      ensures env == old(env).(scopes := old(env).scopes[1..])
    {
      MatchPop(scopes, env.scopes, ir.curProc);
      hide ScopesMatch, Program.Valid;
      scopes := scopes[1..];
      env := env.(scopes := env.scopes[1..]);
    }

    method LeaveFrame()
      requires Ready() && env.frame.scopes != []
      modifies this, ir
      ensures Ready() && base == old(base) && env == LeftFrame(old(env)) && trail == old(trail) && scopes == old(scopes)
    {
      hide ScopesMatch, Program.Valid;
      ir.Leave();
      env := LeftFrame(env);
    }

    method LeavePrivateScope()
      requires Ready() && env.scopes != [] && env.frame.scopes != []
      modifies this, ir
      ensures var end := LeftFrame(old(env));
              var c := Lowering.EmitDefers(end.scopes[..1], end);
              && Ready() && base == old(base) && env == c.env.(scopes := old(env).scopes[1..])
              && trail == old(trail) + Flatten(c.t)
    {
      hide Compiler.Ready, Compiler.InStep, Compiler.Around;
      LeaveFrame();
      EmitDefers(1);
      PopScope();
    }

    // --- Statements ---

    /** Between statements: no proc is being compiled, or one is and a scope of it is open. */
    ghost predicate Between()
      reads this, ir
    {
      Idle() || (Ready() && env.scopes != [])
    }

    lemma BetweenFacts()
      requires Between()
      ensures ir.Valid() && env.nextLabel == |ir.blocks| && (scopes != [] ==> scopes[0].proc < |ir.procs|)
    {}

    /** Open a proc, maybe inside another: a node, a scope, and the start label. */
    method BeginProc() returns (p: nat)
      requires Between()
      modifies this, ir
      ensures Ready() && p == |old(ir.procs)|
      ensures env == BodyEnv(old(env).nextLabel, logging)
      ensures base == Surroundings(old(scopes), old(procs), p, old(ir.procs) + [NO_PROC], Sink(None, old(ir.hist)))
      ensures trail == [Label(old(env).nextLabel)]
    {
      hide Program.Valid, ScopesMatch;
      BetweenFacts();
      ghost var outer, below, procs0, h := scopes, procs, ir.procs, ir.hist;
      p := ir.CreateProc();
      procs := [ProcNode(p, None, false)] + procs;
      scopes := [ScopeNode([], p)] + scopes;
      ir.SetActiveProc(p);
      var start := ir.CreateLabel();
      ir.EmitArray([Label(start)]);
      env := BodyEnv(start, logging);
      trail := [Label(start)];
      base := Surroundings(outer, below, p, procs0 + [NO_PROC], Sink(None, h));
      FirstScope(outer, p);
      assert procs[1..] == below;
      assert ir.procs[p := NO_PROC] == procs0 + [NO_PROC];
    }

    /** Round the frame size; the scopes are left only after this. */
    method FinishFrame()
      requires Ready()
      modifies ir, `env
      ensures Ready() && env == Finished(old(env)) && base == old(base) && trail == old(trail) && scopes == old(scopes)
    {
      hide ScopesMatch, Program.Valid;
      ir.FinishProc(procs[0].proc);
      env := Finished(env);
    }

    /** Close the proc node: the enclosing proc, if there is one, becomes active again. */
    method EndProc(prev: nat, ghost outer: Env)
      requires Ready() && env.scopes == [] && base.sink.active.None?
      modifies this, ir
      ensures ir.Valid() && ir.curProc == prev && env == outer.(nextLabel := |ir.blocks|)
      ensures scopes == old(base).outer && procs == old(base).below
      ensures ir.hist == old(base).sink.hist + Tagged(old(base).proc, old(trail))
      ensures old(base).proc < |ir.procs| && ir.procs[old(base).proc := NO_PROC] == old(base).others
      ensures env.nextLabel == old(env).nextLabel && ir.procs[old(base).proc].frame == old(env).frame
    {
      hide ScopesMatch, Program.Valid, Tagged;
      assert scopes[0..] == scopes;
      procs := procs[1..];
      ir.SetActiveProc(prev);
      env := outer.(nextLabel := env.nextLabel);
    }

    /** A whole proc. Scopes below its own are those of other procs: nothing of theirs is replayed. A proc being
        compiled meanwhile finds its context as it was, but for the labels used up. */
    method CompileProc(body: S.Stmt) returns (p: nat)
      requires Between()
      modifies this, ir
      ensures Between() && (Idle() <==> old(Idle()))
      ensures p == |old(ir.procs)| && |ir.procs| == p + 1 && ir.procs[..p] == old(ir.procs)
      ensures scopes == old(scopes) && procs == old(procs) && ir.curProc == old(ir.curProc)
      ensures var c := LowerProc(body, old(env).nextLabel, logging);
              && ir.hist == old(ir.hist) + Tagged(p, Flatten(c.t)) && env == old(env).(nextLabel := c.env.nextLabel)
              && ir.procs[p].frame == c.env.frame && B.Roomy(ir.procs[p].frame, Flatten(c.t))
    {
      hide *;
      ghost var env0, others, idle := env, ir.procs, procs == [];
      Stands();
      var prev := ir.curProc;
      p := BeginProc();
      FillProc(body, env0.nextLabel);
      EndProc(prev, env0);
      ProcsKept(others, ir.procs, p);
      FrameSound(p);
      B.ProcRoomy(body, env0.nextLabel, logging);
      if idle {
        StillIdle(others);
      } else {
        LabelsGrow(body, env0.nextLabel, logging);
        StillStanding(env0, others);
        StartAgain();
      }
    }

    /** A proc's body, its deferred statements, and a return if one is missing. */
    method FillProc(body: S.Stmt, ghost first: nat)
      requires Ready() && env == BodyEnv(first, logging) && trail == [Label(first)]
      modifies this, ir
      ensures Ready() && base == old(base) && env.scopes == []
      ensures var c := LowerProc(body, first, logging);
              trail == Flatten(c.t) && env.nextLabel == c.env.nextLabel && env.frame == c.env.frame
    {
      hide Compiler.Ready, Compiler.InStep, Compiler.Around, Flatten, Lower;
      ghost var c := Lower(body, env);
      CompileStmt(body);
      FinishFrame();
      EmitDefers(1);
      assert c.env.scopes[..1] == c.env.scopes;
      ghost var ds := Lowering.EmitDefers(c.env.scopes, Finished(c.env));
      ghost var ret := if ds.env.hasReturn then Nil else Op(Ret(NoRef));
      var returned := HasReturn();
      if !returned {
        Emit(Ret(NoRef));
      }
      ProcFlat(first, c.t, ds.t, ret, returned);
      PopScope();
    }

    lemma FrameSound(p: nat)
      requires ir.Valid() && p < |ir.procs|
      ensures F.Sound(ir.procs[p].frame)
    {}

    lemma Stands()
      requires Between()
      ensures procs == [] <==> Idle()
      ensures procs == [] ==> env == Env(env.nextLabel, F.EMPTY, [], false, logging) && forall i | 0 <= i < |scopes| :: scopes[i].proc < |ir.procs|
      ensures procs != [] ==> env.scopes != [] && Standing(scopes, procs, ir.procs, ir.curProc, env, logging)
    {}

    lemma StillIdle(before: seq<Proc>)
      requires ir.Valid() && procs == [] && before <= ir.procs && env == Env(|ir.blocks|, F.EMPTY, [], false, logging)
      requires forall i | 0 <= i < |scopes| :: scopes[i].proc < |before|
      ensures Idle() && Between()
    {}

    /** What follows is told from here. */
    ghost method StartAgain()
      requires InStep() && env.scopes != []
      modifies `base, `trail
      ensures Ready() && Between() && !Idle()
    {
      base, trail := Around(), [];
      AddingNothing(base);
    }

    lemma StillStanding(env0: Env, before: seq<Proc>)
      requires ir.Valid() && before <= ir.procs && env == env0.(nextLabel := |ir.blocks|) && env0.nextLabel <= |ir.blocks|
      requires Standing(scopes, procs, before, ir.curProc, env0, logging)
      ensures InStep()
    {
      hide Program.Valid, ScopesMatch;
    }

    method HasReturn() returns (b: bool)
      requires Ready()
      ensures b == env.hasReturn
    {
      b := procs[0].hasReturn;
    }

    method CompileStmt(s: S.Stmt)
      requires Ready() && env.scopes != []
      modifies this, ir
      ensures var c := Lower(s, old(env)); Ready() && base == old(base) && env == c.env && trail == old(trail) + Flatten(c.t)
      decreases S.Size(s), 1
    {
      hide Compiler.Ready, Compiler.InStep, Compiler.Around;
      match s {
        case Act(a) => Emit(Do(a));
        case ActWith(a, sym) => Emit(DoWith(a, sym));
        case Ext(sym) => Emit(Ir.Ext(sym));
        case Invoke(p) => Emit(Call(p));
        case Drop(e) => var _ := CompileValue(e);
        case List(ss) => CompileList(ss);
        case Scope(b) => CompileScope(b);
        case If(_, _, _) => CompileIf(s);
        case While(_, _) => CompileWhile(s);
        case Defer(d) => CompileDefer(d);
        case Return(arg) => CompileReturn(arg);
      }
    }

    method CompileList(ss: seq<S.Stmt>)
      requires Ready() && env.scopes != []
      modifies this, ir
      ensures var c := LowerAll(ss, old(env)); Ready() && base == old(base) && env == c.env && trail == old(trail) + Flatten(c.t)
      decreases S.SizeAll(ss), 2
    {
      hide Compiler.Ready, Compiler.InStep, Compiler.Around, Flatten, Lower;
      ghost var env0, before := env, trail;
      ghost var done: seq<Instr> := [];
      var k := 0;
      assert ss[0..] == ss;
      while k < |ss|
        invariant 0 <= k <= |ss| && Ready() && base == old(base) && env.scopes != []
        invariant trail == before + done
        invariant LowerAll(ss, env0).env == LowerAll(ss[k..], env).env
        invariant Flatten(LowerAll(ss, env0).t) == done + Flatten(LowerAll(ss[k..], env).t)
      {
        ghost var env1 := env;
        ListUnfold(ss, k, env1);
        SmallerInList(ss, k);
        CompileStmt(ss[k]);
        ghost var piece := Flatten(Lower(ss[k], env1).t);
        Assoc(before, done, piece);
        Assoc(done, piece, Flatten(LowerAll(ss[k + 1..], env).t));
        done := done + piece;
        k := k + 1;
      }
      ListEnd(ss, env);
      assert done + [] == done;
    }

    method CompileScope(b: S.Stmt)
      requires Ready() && env.scopes != []
      modifies this, ir
      ensures var c := LowerScope(b, old(env)); Ready() && base == old(base) && env == c.env && trail == old(trail) + Flatten(c.t)
      decreases S.Size(b), 2
    {
      hide Compiler.Ready, Compiler.InStep, Compiler.Around, Lower;
      ghost var env1 := Entered(env);
      EnterPrivateScope();
      CompileStmt(b);
      ghost var c := Lower(b, env1);
      LeavePrivateScope();
      ghost var end := LeftFrame(c.env);
      ghost var ds := Lowering.EmitDefers(end.scopes[..1], end);
      ThenFlat(c.t, ds.t);
      Assoc(old(trail), Flatten(c.t), Flatten(ds.t));
    }

    method CompileIf(s: S.Stmt)
      requires Ready() && env.scopes != [] && s.If?
      modifies this, ir
      ensures var c := Lower(s, old(env)); Ready() && base == old(base) && env == c.env && trail == old(trail) + Flatten(c.t)
      decreases S.Size(s), 0
    {
      hide Compiler.Ready, Compiler.InStep, Compiler.Around, Flatten, LowerValue, LowerScope;
      ghost var env0, before := env, trail;
      EmitNote();
      var endifL := CreateLabel();
      var elseL := endifL;
      if s.els.Some? {
        elseL := CreateLabel();
      }
      ghost var cond := LowerValue(s.cond, env);
      var c := CompileValue(s.cond);
      Emit(Jmpz(c, elseL));
      ghost var body := LowerScope(s.thn, env);
      CompileScope(s.thn);
      if s.els.Some? {
        ghost var other := LowerScope(s.els.value, env.(hasReturn := false));
        CompileElse(s.els.value, elseL, endifL, env0);
        IfElseFlat(before, env0, cond.t, c, body.t, other.t, elseL, endifL);
      } else {
        FinishBlock(Jmp(endifL), endifL, env0);
        IfFlat(before, env0, cond.t, c, body.t, endifL);
      }
    }

    /** The other arm, from the jump over it to the end of the conditional. */
    method CompileElse(els: S.Stmt, elseL: nat, endifL: nat, ghost env0: Env)
      requires Ready() && env.scopes != [] && elseL < env.nextLabel && endifL < env.nextLabel && env0.logging == env.logging
      modifies this, ir
      ensures var o := LowerScope(els, old(env).(hasReturn := false));
              && Ready() && base == old(base) && env == o.env.(hasReturn := false)
              && trail == old(trail) + [Jmp(endifL)] + [Label(elseL)] + Flatten(o.t) + [Jmp(endifL), Label(endifL)] + Flatten(Note(env0))
      decreases S.Size(els), 3
    {
      hide Compiler.Ready, Compiler.InStep, Compiler.Around, Flatten, LowerScope;
      Emit(Jmp(endifL));
      Emit(Label(elseL));
      CompileScope(els);
      FinishBlock(Jmp(endifL), endifL, env0);
      Assoc(old(trail) + [Jmp(endifL)] + [Label(elseL)], Flatten(LowerScope(els, old(env).(hasReturn := false)).t), [Jmp(endifL), Label(endifL)]);
    }

    /** The jump and label that end a control structure, and its closing comment. */
    method FinishBlock(jump: Instr, l: nat, ghost env0: Env)
      requires Ready() && l < env.nextLabel && jump.Jmp? && env0.logging == env.logging
      modifies this, ir
      ensures Ready() && base == old(base) && env == old(env).(hasReturn := false) && scopes == old(scopes)
      ensures trail == old(trail) + [jump, Label(l)] + Flatten(Note(env0))
    {
      hide Compiler.Ready, Compiler.InStep, Compiler.Around;
      Emit(jump);
      Emit(Label(l));
      assert old(trail) + [jump] + [Label(l)] == old(trail) + [jump, Label(l)];
      EmitNote();
    }

    method CompileWhile(s: S.Stmt)
      requires Ready() && env.scopes != [] && s.While?
      modifies this, ir
      ensures var c := Lower(s, old(env)); Ready() && base == old(base) && env == c.env && trail == old(trail) + Flatten(c.t)
      decreases S.Size(s), 0
    {
      hide Compiler.Ready, Compiler.InStep, Compiler.Around, Flatten, LowerValue, LowerScope;
      ghost var env0, before := env, trail;
      EmitNote();
      var loopL := CreateLabel();
      var endloopL := CreateLabel();
      Emit(Jmp(loopL));
      Emit(Label(loopL));
      ghost var cond := LowerValue(s.cond, env);
      var c := CompileValue(s.cond);
      Emit(Jmpz(c, endloopL));
      ghost var body := LowerScope(s.body, env);
      CompileScope(s.body);
      FinishBlock(Jmp(loopL), endloopL, env0);
      WhileFlat(before, env0, cond.t, c, body.t, loopL, endloopL);
    }

    lemma ActiveIs()
      requires Ready()
      ensures base.Adding(trail).sink.active == procs[0].active
    {
      hide Compiler.InStep, Surroundings.Adding;
    }

    /** Record a deferred statement: everything it emits goes into a new node, pushed afterwards. */
    method CompileDefer(d: S.Stmt)
      requires Ready() && env.scopes != []
      modifies this, ir
      ensures var c := Lower(S.Defer(d), old(env)); Ready() && base == old(base) && env == c.env && trail == old(trail) + Flatten(c.t)
      decreases S.Size(d), 2
    {
      ActiveIs();
      hide Compiler.Ready, Compiler.InStep, Compiler.Around, Flatten, Lower, Surroundings.Adding;
      var prev := procs[0].active;
      ghost var env0, base0, trail0 := env, base, trail;
      ghost var c := Lower(d, env0);
      LowerDeferIs(d, env0);
      StartRecording();
      EmitNote();
      CompileStmt(d);
      EmitNote();
      NotedFlat(env0, c.t);
      StopRecording(prev, base0, trail0, Then(Note(env0), Then(c.t, Note(env0))));
    }

    method StartRecording()
      requires Ready()
      modifies this
      ensures Ready() && env == old(env) && trail == [] && scopes == old(scopes)
      ensures base == old(base).(sink := Sink(Some([]), old(base).Adding(old(trail)).sink.hist))
    {
      procs := [procs[0].(active := Some([]))] + procs[1..];
      trail := [];
      base := Around();
      AddingNothing(base);
    }

    method StopRecording(prev: Option<seq<Instr>>, ghost base0: Surroundings, ghost trail0: seq<Instr>, ghost t: Tree)
      requires Ready() && env.scopes != [] && trail == Flatten(t)
      requires base == base0.(sink := Sink(Some([]), base0.Adding(trail0).sink.hist)) && base0.Adding(trail0).sink.active == prev
      modifies this
      ensures Ready() && base == base0 && trail == trail0
      ensures env == old(env).(scopes := [[t] + old(env).scopes[0]] + old(env).scopes[1..])
    {
      hide Program.Valid, Flatten;
      var recorded := procs[0].active.value;
      assert recorded == [] + trail;
      assert recorded == Flatten(t);
      MatchRecorded(scopes, env.scopes, ir.curProc, t);
      scopes := [scopes[0].(defers := [recorded] + scopes[0].defers)] + scopes[1..];
      env := env.(scopes := [[t] + env.scopes[0]] + env.scopes[1..]);
      procs := [procs[0].(active := prev)] + procs[1..];
      base := base0;
      trail := trail0;
    }

    /** Replay the defers of every scope of this proc, and only then compile the argument. */
    method CompileReturn(arg: Option<S.Expr>)
      requires Ready() && env.scopes != []
      modifies this, ir
      ensures var c := Lower(S.Return(arg), old(env)); Ready() && base == old(base) && env == c.env && trail == old(trail) + Flatten(c.t)
      decreases 0, 0
    {
      hide Compiler.Ready, Compiler.InStep, Compiler.Around, Lowering.EmitDefers, LowerValue;
      var upto := FindNextProcScope();
      ghost var env0, before := env, trail;
      EmitDefers(upto);
      assert env0.scopes[..|env0.scopes|] == env0.scopes;
      ghost var ds := Lowering.EmitDefers(env0.scopes, env0);
      match arg {
        case None =>
          Emit(Ret(NoRef));
          ThenFlat(ds.t, Op(Ret(NoRef)));
          Assoc(before, Flatten(ds.t), [Ret(NoRef)]);
        case Some(e) =>
          var r := CompileValue(e);
          ghost var v := LowerValue(e, ds.env);
          Emit(Ret(r));
          ThenFlat(v.t, Op(Ret(r)));
          ThenFlat(ds.t, Then(v.t, Op(Ret(r))));
          Assoc(before, Flatten(ds.t), Flatten(v.t));
          Assoc(before, Flatten(ds.t) + Flatten(v.t), [Ret(r)]);
          Assoc(Flatten(ds.t), Flatten(v.t), [Ret(r)]);
      }
    }
  }

  lemma LowerDeferIs(d: S.Stmt, env: Env)
    requires env.scopes != []
    ensures var c := Lower(d, env);
            var t := Then(Note(env), Then(c.t, Note(env)));
            Lower(S.Defer(d), env) == StmtCode(Nil, c.env.(scopes := [[t] + c.env.scopes[0]] + c.env.scopes[1..]))
  {}

  lemma MatchRecorded(scopes: seq<ScopeNode>, own: seq<seq<Tree>>, p: nat, t: Tree)
    requires ScopesMatch(scopes, own, p) && own != []
    ensures var scopes' := [scopes[0].(defers := [Flatten(t)] + scopes[0].defers)] + scopes[1..];
            var own' := [[t] + own[0]] + own[1..];
            ScopesMatch(scopes', own', p) && scopes'[|own'|..] == scopes[|own|..]
  {
    assert FlatAll([t] + own[0]) == [Flatten(t)] + FlatAll(own[0]);
  }

  lemma NotedFlat(env: Env, a: Tree)
    ensures Flatten(Then(Note(env), Then(a, Note(env)))) == [] + Flatten(Note(env)) + Flatten(a) + Flatten(Note(env))
  {
    ThenFlat(a, Note(env));
    ThenFlat(Note(env), Then(a, Note(env)));
    var note, fa := Flatten(Note(env)), Flatten(a);
    hide *;
    assert [] + note == note;
    Assoc(note, fa, note);
  }

  lemma IfFlat(before: seq<Instr>, env: Env, cond: Tree, c: Ref, body: Tree, end: nat)
    ensures before + Flatten(Note(env)) + Flatten(cond) + [Jmpz(c, end)] + Flatten(body) + [Jmp(end), Label(end)] + Flatten(Note(env)) ==
            before + Flatten(Then(Note(env), Then(cond, Then(When(c, body, end), Note(env)))))
  {
    Noted2Flat(before, env, cond, When(c, body, end));
    var note, fc, fb, jump, tail := Flatten(Note(env)), Flatten(cond), Flatten(body), [Jmpz(c, end)], [Jmp(end), Label(end)];
    assert Flatten(When(c, body, end)) == jump + fb + tail;
    hide *;
    var head := before + note + fc;
    Assoc(head, jump, fb);
    Assoc(head, jump + fb, tail);
  }

  lemma IfElseFlat(before: seq<Instr>, env: Env, cond: Tree, c: Ref, body: Tree, other: Tree, alt: nat, end: nat)
    ensures before + Flatten(Note(env)) + Flatten(cond) + [Jmpz(c, alt)] + Flatten(body) + [Jmp(end)] + [Label(alt)] +
            Flatten(other) + [Jmp(end), Label(end)] + Flatten(Note(env)) ==
            before + Flatten(Then(Note(env), Then(cond, Then(Choose(true, c, body, other, alt, end), Note(env)))))
  {
    var t := Choose(true, c, body, other, alt, end);
    Noted2Flat(before, env, cond, t);
    var note, fc, fb, fo, jump, mid, tail := Flatten(Note(env)), Flatten(cond), Flatten(body), Flatten(other), [Jmpz(c, alt)],
                                             [Jmp(end), Label(alt)], [Jmp(end), Label(end)];
    assert Flatten(t) == jump + fb + mid + fo + tail;
    hide *;
    var head := before + note + fc;
    Assoc(head + jump + fb, [Jmp(end)], [Label(alt)]);
    assert [Jmp(end)] + [Label(alt)] == mid;
    Assoc(head, jump, fb);
    Assoc(head, jump + fb, mid);
    Assoc(head, jump + fb + mid, fo);
    Assoc(head, jump + fb + mid + fo, tail);
  }

  lemma WhileFlat(before: seq<Instr>, env: Env, cond: Tree, c: Ref, body: Tree, loop: nat, end: nat)
    ensures before + Flatten(Note(env)) + [Jmp(loop)] + [Label(loop)] + Flatten(cond) + [Jmpz(c, end)] + Flatten(body) +
            [Jmp(loop), Label(end)] + Flatten(Note(env)) ==
            before + Flatten(Then(Note(env), Then(Loop(cond, c, body, loop, end), Note(env))))
  {
    var t := Loop(cond, c, body, loop, end);
    NotedFlat(env, t);
    var note, fc, fb, top, jump, tail := Flatten(Note(env)), Flatten(cond), Flatten(body), [Jmp(loop), Label(loop)],
                                         [Jmpz(c, end)], [Jmp(loop), Label(end)];
    var ft := Flatten(t);
    assert ft == top + fc + jump + fb + tail;
    hide *;
    var head := before + note;
    Assoc(head, [Jmp(loop)], [Label(loop)]);
    assert [Jmp(loop)] + [Label(loop)] == top;
    Assoc(head, top, fc);
    Assoc(head, top + fc, jump);
    Assoc(head, top + fc + jump, fb);
    Assoc(head, top + fc + jump + fb, tail);
    assert [] + note == note;
    Assoc(before, note, ft);
    Assoc(before, note + ft, note);
  }

  lemma ProcFlat(first: nat, body: Tree, ds: Tree, ret: Tree, returned: bool)
    requires ret == if returned then Nil else Op(Ret(NoRef))
    ensures [Label(first)] + Flatten(body) + Flatten(ds) + (if returned then [] else [Ret(NoRef)]) ==
            Flatten(Then(Op(Label(first)), Then(body, Then(ds, ret))))
  {
    ThenFlat(ds, ret);
    ThenFlat(body, Then(ds, ret));
    ThenFlat(Op(Label(first)), Then(body, Then(ds, ret)));
    var a, b, c, d := [Label(first)], Flatten(body), Flatten(ds), Flatten(ret);
    assert Flatten(Op(Label(first))) == a && d == if returned then [] else [Ret(NoRef)];
    hide *;
    Assoc(a + b, c, d);
    Assoc(a, b, c + d);
  }

  lemma ListUnfold(ss: seq<S.Stmt>, k: nat, env: Env)
    requires k < |ss| && env.scopes != []
    ensures var c := Lower(ss[k], env);
            && LowerAll(ss[k..], env).env == LowerAll(ss[k + 1..], c.env).env
            && Flatten(LowerAll(ss[k..], env).t) == Flatten(c.t) + Flatten(LowerAll(ss[k + 1..], c.env).t)
  {
    hide Lower, Flatten;
    var rest := ss[k..];
    assert rest[0] == ss[k];
    assert rest[1..] == ss[k + 1..];
    var c := Lower(ss[k], env);
    ThenFlat(c.t, LowerAll(ss[k + 1..], c.env).t);
  }

  lemma ListEnd(ss: seq<S.Stmt>, env: Env)
    requires env.scopes != []
    ensures LowerAll(ss[|ss|..], env) == StmtCode(Nil, env)
    ensures Flatten(Nil) == []
  {}

  lemma {:induction false} SmallerInList(ss: seq<S.Stmt>, k: nat)
    requires k < |ss|
    ensures S.Size(ss[k]) < S.SizeAll(ss)
  {
    if k > 0 { SmallerInList(ss[1..], k - 1); }
  }

  lemma LabelsGrow(body: S.Stmt, first: nat, logging: bool)
    ensures LowerProc(body, first, logging).env.nextLabel >= first
  {
    hide Lower;
  }

  lemma FirstScope(outer: seq<ScopeNode>, p: nat)
    requires outer != [] ==> outer[0].proc != p
    ensures var scopes := [ScopeNode([], p)] + outer; ScopesMatch(scopes, [[]], p) && scopes[1..] == outer
  {
    assert FlatAll([]) == [];
  }

  lemma MatchPush(scopes: seq<ScopeNode>, own: seq<seq<Tree>>, p: nat)
    requires ScopesMatch(scopes, own, p)
    ensures var scopes', own' := [ScopeNode([], p)] + scopes, [[]] + own;
            ScopesMatch(scopes', own', p) && scopes'[|own'|..] == scopes[|own|..]
  {}

  lemma MatchPop(scopes: seq<ScopeNode>, own: seq<seq<Tree>>, p: nat)
    requires ScopesMatch(scopes, own, p) && own != []
    ensures ScopesMatch(scopes[1..], own[1..], p) && scopes[1..][|own[1..]|..] == scopes[|own|..]
  {}

  lemma {:induction false} ReplayIs(ds: seq<Tree>, env: Env)
    requires ds != []
    ensures var rest := Replay(ds[1..], env.(nextLabel := env.nextLabel + LabelCount(ds[0])));
            Replay(ds, env) == StmtCode(Then(CopyOf(ds[0], env.nextLabel), rest.t), rest.env)
  {
    hide CopyOf, LabelCount, Flatten;
  }

  lemma ReplayStep(ds: seq<Tree>, env: Env, env1: Env)
    requires ds != [] && env1 == env.(nextLabel := env.nextLabel + LabelCount(ds[0]))
    ensures Replay(ds, env).env == Replay(ds[1..], env1).env
    ensures Flatten(Replay(ds, env).t) == Flatten(CopyOf(ds[0], env.nextLabel)) + Flatten(Replay(ds[1..], env1).t)
  {
    hide *;
    var rest := Replay(ds[1..], env1);
    ReplayIs(ds, env);
    ThenFlat(CopyOf(ds[0], env.nextLabel), rest.t);
  }

  /** The first k fragments have been replayed: what has been emitted, with what the rest will emit, is what the
      whole scope's replay emits. */
  ghost predicate Replaying(ds: seq<Tree>, env0: Env, before: seq<Instr>, k: nat, env: Env, trail: seq<Instr>) {
    && k <= |ds|
    && env == env0.(nextLabel := env.nextLabel)
    && Replay(ds, env0).env == Replay(ds[k..], env).env
    && before + Flatten(Replay(ds, env0).t) == trail + Flatten(Replay(ds[k..], env).t)
  }

  lemma NoneReplayed(ds: seq<Tree>, env: Env, trail: seq<Instr>)
    ensures Replaying(ds, env, trail, 0, env, trail)
  {
    assert ds[0..] == ds;
  }

  lemma OneReplayed(ds: seq<Tree>, env0: Env, before: seq<Instr>, k: nat, env: Env, trail: seq<Instr>, env': Env, trail': seq<Instr>)
    requires k < |ds| && Replaying(ds, env0, before, k, env, trail)
    requires env' == env.(nextLabel := env.nextLabel + LabelCount(ds[k]))
    requires trail' == trail + Flatten(CopyOf(ds[k], env.nextLabel))
    ensures Replaying(ds, env0, before, k + 1, env', trail')
  {
    hide Flatten, Replay, CopyOf, LabelCount;
    ReplayUnfold(ds, k, env, env');
    Assoc(trail, Flatten(CopyOf(ds[k], env.nextLabel)), Flatten(Replay(ds[k + 1..], env').t));
  }

  lemma AllReplayed(ds: seq<Tree>, env0: Env, before: seq<Instr>, env: Env, trail: seq<Instr>)
    requires Replaying(ds, env0, before, |ds|, env, trail)
    ensures env == Replay(ds, env0).env && trail == before + Flatten(Replay(ds, env0).t)
  {
    assert ds[|ds|..] == [];
    assert trail + [] == trail;
  }

  lemma ReplayUnfold(ds: seq<Tree>, k: nat, env: Env, env1: Env)
    requires k < |ds| && env1 == env.(nextLabel := env.nextLabel + LabelCount(ds[k]))
    ensures Replay(ds[k..], env).env == Replay(ds[k + 1..], env1).env
    ensures Flatten(Replay(ds[k..], env).t) == Flatten(CopyOf(ds[k], env.nextLabel)) + Flatten(Replay(ds[k + 1..], env1).t)
  {
    hide *;
    var rest := ds[k..];
    assert rest[0] == ds[k];
    assert rest[1..] == ds[k + 1..];
    ReplayStep(rest, env, env1);
  }

  lemma ReplayAllStep(scopes: seq<seq<Tree>>, env: Env)
    requires scopes != []
    ensures ReplayAll(scopes, env).env == ReplayAll(scopes[1..], Replay(scopes[0], env).env).env
    ensures Flatten(ReplayAll(scopes, env).t) ==
            Flatten(Replay(scopes[0], env).t) + Flatten(ReplayAll(scopes[1..], Replay(scopes[0], env).env).t)
  {
    hide Replay, Flatten;
    ThenFlat(Replay(scopes[0], env).t, ReplayAll(scopes[1..], Replay(scopes[0], env).env).t);
  }

  lemma ReplayAllUnfold(scopes: seq<seq<Tree>>, k: nat, env: Env)
    requires k < |scopes|
    ensures ReplayAll(scopes[k..], env).env == ReplayAll(scopes[k + 1..], Replay(scopes[k], env).env).env
    ensures Flatten(ReplayAll(scopes[k..], env).t) ==
            Flatten(Replay(scopes[k], env).t) + Flatten(ReplayAll(scopes[k + 1..], Replay(scopes[k], env).env).t)
  {
    hide *;
    var rest := scopes[k..];
    assert rest[0] == scopes[k];
    assert rest[1..] == scopes[k + 1..];
    ReplayAllStep(rest, env);
  }

  function ShortTail(res: Ref, lref: Ref, rhs: Interm, shortL: nat, joinL: nat): seq<Instr> {
    [WithDst(rhs, res), Jmp(joinL), Label(shortL), Mov(res, lref, 1), Jmp(joinL), Label(joinL)]
  }

  /** The stages of emitting a short-circuit operator add up to its lowering. */
  lemma ShortFlat(before: seq<Instr>, front: seq<Instr>, middle: seq<Instr>, after: seq<Instr>, e: S.Expr, invert: bool, isAnd: bool, env: Env)
    requires e.And? || e.Or?
    requires var env0 := env.WithLocal().(nextLabel := env.nextLabel + 2);
             var x := LowerExpr(e.lhs, invert, env0);
             var x' := Lowering.AsRef(x.im, x.env);
             var y := LowerExpr(e.rhs, invert, x'.env);
             var note := Flatten(Note(env));
             && front == before + note + Flatten(x.t) + Flatten(x'.t) + [CondJump(isAnd, x'.r, env.nextLabel)]
             && middle == front + Flatten(y.t)
             && after == middle + ShortTail(Local(env.NextLocal()), x'.r, y.im, env.nextLabel, env.nextLabel + 1) + note
    ensures after == before + Flatten(LowerShort(e, invert, isAnd, env).t)
  {
    var env0 := env.WithLocal().(nextLabel := env.nextLabel + 2);
    var x := LowerExpr(e.lhs, invert, env0);
    var x' := Lowering.AsRef(x.im, x.env);
    var y := LowerExpr(e.rhs, invert, x'.env);
    var res, shortL, joinL := Local(env.NextLocal()), env.nextLabel, env.nextLabel + 1;
    var choose := Choose(isAnd, x'.r, Then(y.t, Op(WithDst(y.im, res))), Op(Mov(res, x'.r, 1)), shortL, joinL);
    assert LowerShort(e, invert, isAnd, env).t == Then(Note(env), Then(Then(x.t, x'.t), Then(choose, Note(env))));
    ChooseFlat(isAnd, x'.r, y.t, WithDst(y.im, res), Mov(res, x'.r, 1), shortL, joinL);
    Noted2Flat(before, env, Then(x.t, x'.t), choose);
    ThenFlat(x.t, x'.t);
    hide *;
    var note, fx, fx', jump, fy, tail := Flatten(Note(env)), Flatten(x.t), Flatten(x'.t), [CondJump(isAnd, x'.r, shortL)],
                                         Flatten(y.t), ShortTail(res, x'.r, y.im, shortL, joinL);
    var head := before + note + fx + fx';
    Assoc(before + note, fx, fx');
    Assoc(head, jump, fy);
    Assoc(head, jump + fy, tail);
  }

  lemma Assoc(a: seq<Instr>, b: seq<Instr>, c: seq<Instr>)
    ensures a + b + c == a + (b + c)
  {}

  lemma Noted2Flat(before: seq<Instr>, env: Env, a: Tree, b: Tree)
    ensures before + Flatten(Then(Note(env), Then(a, Then(b, Note(env))))) ==
            before + Flatten(Note(env)) + Flatten(a) + Flatten(b) + Flatten(Note(env))
  {
    var note, fa, fb := Flatten(Note(env)), Flatten(a), Flatten(b);
    ThenFlat(b, Note(env));
    ThenFlat(a, Then(b, Note(env)));
    ThenFlat(Note(env), Then(a, Then(b, Note(env))));
    hide *;
    calc {
      before + note + fa + fb + note;
      { Assoc(before + note + fa, fb, note); }
      before + note + fa + (fb + note);
      { Assoc(before + note, fa, fb + note); }
      before + note + (fa + (fb + note));
      { Assoc(before, note, fa + (fb + note)); }
      before + (note + (fa + (fb + note)));
    }
  }

  lemma ThenFlat(a: Tree, b: Tree)
    ensures Flatten(Then(a, b)) == Flatten(a) + Flatten(b)
  {}

  lemma TailFlat(a: seq<Instr>, i1: Instr, i2: Instr, i3: Instr, i4: Instr, i5: Instr, i6: Instr)
    ensures a + [i1] + [i2] + [i3] + [i4] + [i5] + [i6] == a + [i1, i2, i3, i4, i5, i6]
  {}

  lemma ChooseFlat(isAnd: bool, c: Ref, y: Tree, i: Instr, j: Instr, shortL: nat, joinL: nat)
    ensures Flatten(Choose(isAnd, c, Then(y, Op(i)), Op(j), shortL, joinL)) ==
            [CondJump(isAnd, c, shortL)] + Flatten(y) + [i, Jmp(joinL), Label(shortL), j, Jmp(joinL), Label(joinL)]
  {
    var jump, fy := [CondJump(isAnd, c, shortL)], Flatten(y);
    assert Flatten(Then(y, Op(i))) == fy + [i];
    assert Flatten(Op(j)) == [j];
    assert jump + (fy + [i]) + [Jmp(joinL), Label(shortL)] + [j] + [Jmp(joinL), Label(joinL)] ==
           jump + fy + [i, Jmp(joinL), Label(shortL), j, Jmp(joinL), Label(joinL)];
  }
}
