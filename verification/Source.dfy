/** The source language and its reference semantics: every scope that is entered gets a defer stack of
    its own AT RUN TIME, executing a defer pushes onto it, and leaving the scope pops and executes. */
module Source {
  import opened Ir

  datatype Expr =
    | Leaf(l: nat)
    | Const(b: bool)
    | And(lhs: Expr, rhs: Expr)
    | Or(lhs: Expr, rhs: Expr)
    | Not(arg: Expr)

  datatype Stmt =
    | Act(a: nat)
    | ActWith(a: nat, sym: nat)
    | Ext(sym: nat)
    | Invoke(p: nat)
    | Drop(e: Expr)
    | List(ss: seq<Stmt>)
    | Scope(body: Stmt)
    | If(cond: Expr, thn: Stmt, els: Option<Stmt>)
    | While(cond: Expr, body: Stmt)
    | Defer(s: Stmt)
    | Return(arg: Option<Expr>)

  /** Dynamic defer stacks of one activation: innermost scope first, latest defer first. */
  type Defers = seq<seq<Stmt>>

  datatype Outcome =
    | Done(st: Defers, tr: Trace)
    | Returned(tr: Trace, v: Option<bool>)
    | Timeout(tr: Trace)

  // --- Termination measures ---

  function Size(s: Stmt): nat
    decreases s
  {
    match s
    case List(ss) => 1 + SizeAll(ss)
    case Scope(b) => 1 + Size(b)
    case If(_, t, e) => 1 + Size(t) + (if e.Some? then Size(e.value) else 0)
    case While(_, b) => 1 + Size(b)
    case Defer(d) => 2 + Size(d)
    case _ => 1
  }

  function SizeAll(ss: seq<Stmt>): nat
    decreases ss
  {
    if ss == [] then 0 else 1 + Size(ss[0]) + SizeAll(ss[1..])
  }

  function Pending(st: Defers): nat {
    if st == [] then 0 else SizeAll(st[0]) + Pending(st[1..])
  }

  // --- Expressions: lazy, left to right ---

  datatype Result = Result(b: bool, tr: Trace)

  function Truth(w: Oracle, e: Expr, tr: Trace): Result {
    match e
    case Leaf(l) => var b := w(l, tr); Result(b, tr + [EvLeaf(l, b)])
    case Const(b) => Result(b, tr)
    case And(x, y) => var r := Truth(w, x, tr); if r.b then Truth(w, y, r.tr) else r
    case Or(x, y) => var r := Truth(w, x, tr); if r.b then r else Truth(w, y, r.tr)
    case Not(x) => var r := Truth(w, x, tr); r.(b := !r.b)
  }

  // --- Statements ---

  /** What is kept when a statement ends normally: the enclosing scopes are untouched. */
  ghost predicate Kept(o: Outcome, st: Defers, extra: nat)
    requires st != []
  {
    o.Done? ==> |o.st| == |st| && o.st[1..] == st[1..] && Pending(o.st) <= Pending(st) + extra
  }

  function Exec(prog: seq<Stmt>, w: Oracle, n: nat, s: Stmt, st: Defers, tr: Trace): (o: Outcome)
    requires st != []
    ensures Kept(o, st, Size(s))
    decreases n, Size(s) + Pending(st), 0
  {
    match s
    case Act(a) => Done(st, tr + [EvDo(a)])
    case ActWith(a, _) => Done(st, tr + [EvDo(a)])
    case Ext(sym) => Done(st, tr + [EvExt(sym)])
    case Invoke(p) => ExecCall(prog, w, n, p, st, tr)
    case Drop(e) => Done(st, Truth(w, e, tr).tr)
    case List(ss) => ExecAll(prog, w, n, ss, st, tr)
    case Scope(b) => ExecScope(prog, w, n, b, st, tr)
    case If(c, t, e) =>
      var r := Truth(w, c, tr);
      if r.b then ExecScope(prog, w, n, t, st, r.tr)
      else if e.Some? then ExecScope(prog, w, n, e.value, st, r.tr)
      else Done(st, r.tr)
    case While(c, b) =>
      if n == 0 then Timeout(tr) else
      var r := Truth(w, c, tr);
      if !r.b then Done(st, r.tr) else
      var o := ExecScope(prog, w, n, b, st, r.tr);
      if o.Done? then Exec(prog, w, n - 1, s, st, o.tr) else o
    case Defer(d) => Done([[d] + st[0]] + st[1..], tr)
    case Return(e) =>
      var o := UnwindAll(prog, w, n, st, tr);
      if !o.Done? then o else
      match e
      case None => Returned(o.tr + [EvRet(None)], None)
      case Some(x) =>
        var r := Truth(w, x, o.tr);
        Returned(r.tr + [EvRet(Some(r.b))], Some(r.b))
  }

  function ExecAll(prog: seq<Stmt>, w: Oracle, n: nat, ss: seq<Stmt>, st: Defers, tr: Trace): (o: Outcome)
    requires st != []
    ensures Kept(o, st, SizeAll(ss))
    decreases n, SizeAll(ss) + Pending(st), 0
  {
    if ss == [] then Done(st, tr) else
    var o := Exec(prog, w, n, ss[0], st, tr);
    if o.Done? then ExecAll(prog, w, n, ss[1..], o.st, o.tr) else o
  }

  /** Enter a scope, execute, run the scope's own defers, leave. */
  function ExecScope(prog: seq<Stmt>, w: Oracle, n: nat, s: Stmt, st: Defers, tr: Trace): (o: Outcome)
    requires st != []
    ensures o.Done? ==> o.st == st
    decreases n, Size(s) + Pending(st), 1
  {
    var o := Exec(prog, w, n, s, [[]] + st, tr);
    if !o.Done? then o else
    assert o.st[1..] == st;
    var u := Unwind(prog, w, n, o.st, o.tr);
    if u.Done? then Done(st, u.tr) else u
  }

  /** Pop and execute the innermost scope's defers until none is left, including those pushed meanwhile. */
  function Unwind(prog: seq<Stmt>, w: Oracle, n: nat, st: Defers, tr: Trace): (o: Outcome)
    requires st != []
    ensures Kept(o, st, 0)
    decreases n, Pending(st), 0
  {
    if st[0] == [] then Done(st, tr) else
    var popped := [st[0][1..]] + st[1..];
    var o := Exec(prog, w, n, st[0][0], popped, tr);
    if o.Done? then Unwind(prog, w, n, o.st, o.tr) else o
  }

  /** Unwind every scope of the activation, innermost first. */
  function UnwindAll(prog: seq<Stmt>, w: Oracle, n: nat, st: Defers, tr: Trace): (o: Outcome)
    ensures o.Done? ==> o.st == []
    decreases n, Pending(st), 1 + |st|
  {
    if st == [] then Done([], tr) else
    var o := Unwind(prog, w, n, st, tr);
    if o.Done? then UnwindAll(prog, w, n, st[1..], o.tr) else o
  }

  /** A call: the callee's events, then on with the caller. */
  function ExecCall(prog: seq<Stmt>, w: Oracle, n: nat, p: nat, st: Defers, tr: Trace): (o: Outcome)
    ensures o.Done? ==> o.st == st
    ensures !o.Returned?
    decreases n, Pending(st), 0
  {
    if n == 0 || p >= |prog| then Timeout(tr) else
    match RunProc(prog, w, n - 1, p, tr + [EvCall(p)])
    case Returned(tr', _) => Done(st, tr')
    case o => Timeout(o.tr)
  }

  function RunProc(prog: seq<Stmt>, w: Oracle, n: nat, p: nat, tr: Trace): (o: Outcome)
    requires p < |prog|
    ensures !o.Done?
    decreases n, Size(prog[p]) + 1, 3
  {
    RunBody(prog, w, n, prog[p], tr)
  }

  /** A whole activation: the body has a scope of its own, and falling off its end returns nothing. */
  function RunBody(prog: seq<Stmt>, w: Oracle, n: nat, body: Stmt, tr: Trace): (o: Outcome)
    ensures !o.Done?
    decreases n, Size(body) + 1, 2
  {
    var o := Exec(prog, w, n, body, [[]], tr);
    if !o.Done? then o else
    var u := Unwind(prog, w, n, o.st, o.tr);
    if u.Done? then Returned(u.tr + [EvRet(None)], None) else u
  }

  // --- What can be told from the text alone ---

  /** Whether evaluating the expression passes a short-circuit, which places labels. */
  predicate Branches(e: Expr) {
    match e
    case And(_, _) => true
    case Or(_, _) => true
    case Not(x) => Branches(x)
    case _ => false
  }

  /** Whether the last label or return compiled in the statement is a return, deferred statements counting where
      they are written; f says so of what came before. */
  predicate Raised(s: Stmt, f: bool)
    decreases s
  {
    match s
    case Drop(e) => f && !Branches(e)
    case List(ss) => RaisedAll(ss, f)
    case Scope(b) => Raised(b, f)
    case If(_, _, _) => false
    case While(_, _) => false
    case Defer(d) => Raised(d, f)
    case Return(_) => true
    case _ => f
  }

  predicate RaisedAll(ss: seq<Stmt>, f: bool)
    decreases ss
  {
    if ss == [] then f else RaisedAll(ss[1..], Raised(ss[0], f))
  }

  /** Every way through the statement meets a return. */
  predicate NeverEnds(s: Stmt)
    decreases s
  {
    match s
    case List(ss) => exists x | x in ss :: NeverEnds(x)
    case Scope(b) => NeverEnds(b)
    case If(_, t, e) => NeverEnds(t) && e.Some? && NeverEnds(e.value)
    case Return(_) => true
    case _ => false
  }

  /** Whether the statement defers something in the scope it stands in. */
  predicate Pends(s: Stmt)
    decreases s
  {
    match s
    case List(ss) => exists x | x in ss :: Pends(x)
    case Defer(_) => true
    case _ => false
  }

  // --- Well-formed programs ---

  /** Every call names a proc. */
  predicate Wf(s: Stmt, procs: nat)
    decreases s
  {
    match s
    case Invoke(p) => p < procs
    case List(ss) => forall x | x in ss :: Wf(x, procs)
    case Scope(b) => Wf(b, procs)
    case If(_, t, e) => Wf(t, procs) && (e.Some? ==> Wf(e.value, procs))
    case While(_, b) => Wf(b, procs)
    case Defer(d) => Wf(d, procs)
    case _ => true
  }

  /** No scope with something deferred is left, by its end or by a return, on account of a return that is only
      deferred: where the last label or return compiled before is a return, that place cannot be reached. */
  predicate Exits(s: Stmt, f: bool)
    decreases s, 0
  {
    match s
    case List(ss) => ExitsAll(ss, f)
    case Scope(b) => ExitsScope(b, f)
    case If(c, t, e) => ExitsScope(t, f && !Branches(c)) && (e.Some? ==> ExitsScope(e.value, false))
    case While(_, b) => ExitsScope(b, false)
    case Defer(d) => Exits(d, f)
    case Return(_) => !f
    case _ => true
  }

  predicate ExitsAll(ss: seq<Stmt>, f: bool)
    decreases ss
  {
    ss == [] || (Exits(ss[0], f) && (NeverEnds(ss[0]) || ExitsAll(ss[1..], Raised(ss[0], f))))
  }

  predicate ExitsScope(b: Stmt, f: bool)
    decreases b, 1
  {
    Exits(b, f) && (NeverEnds(b) || !Raised(b, f) || !Pends(b))
  }

  /** A proc can also be left only by a return of its own, or get one added. */
  predicate ExitsProc(b: Stmt) {
    Exits(b, false) && (NeverEnds(b) || !Raised(b, false))
  }

  predicate Closed(prog: seq<Stmt>) { forall p | 0 <= p < |prog| :: Wf(prog[p], |prog|) }

  predicate WfProg(prog: seq<Stmt>) { Closed(prog) && forall p | 0 <= p < |prog| :: ExitsProc(prog[p]) }
}
