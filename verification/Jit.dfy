/** Loading symbols into the just-in-time compiler, a dependency closure at a time. */
module Jit {
  import opened HashTree

  type Type = nat

  datatype Option<+T> = None | Some(value: T)

  datatype Ref = Global(sym: Atom) | OtherRef
  datatype Arg = RefArg(ref: Ref) | RefArrayArg(refs: seq<Ref>) | OtherArg
  datatype Instr = Instr(args: seq<Arg>)
  datatype Param = Param(name: Atom, ty: Type)

  datatype Body =
    | ProcBody(params: seq<Param>, ret: Type, flags: nat, instrs: seq<Instr>)
    | DataBody(ty: Type, relocs: seq<Atom>)
    | ExternProc(paramTypes: seq<Type>, retType: Type, procFlags: nat)
    | ExternData(dataType: Type)
    | NoBody

  datatype Symbol = Symbol(name: Atom, vis: nat, flags: nat, body: Body)

  predicate IsBody(s: Symbol) { s.body.ProcBody? || s.body.DataBody? }
  predicate IsExtern(s: Symbol) { s.body.ExternProc? || s.body.ExternData? }

  // --- What a symbol mentions ---

  ghost predicate ArgRefers(a: Arg, d: Atom) {
    a == RefArg(Global(d)) || (a.RefArrayArg? && exists k | 0 <= k < |a.refs| :: a.refs[k] == Global(d))
  }

  /** An instruction refers to a global, in an operand of its own or in a list of operands. */
  ghost predicate Refers(i: Instr, d: Atom) {
    exists k | 0 <= k < |i.args| :: ArgRefers(i.args[k], d)
  }

  /** A body needs another symbol: an instruction refers to it, or an address of it is to be patched in. */
  ghost predicate Mentions(s: Symbol, d: Atom) {
    || (s.body.ProcBody? && exists k | 0 <= k < |s.body.instrs| :: Refers(s.body.instrs[k], d))
    || (s.body.DataBody? && d in s.body.relocs)
  }

  function RefsDeps(refs: seq<Ref>): seq<Atom> {
    if refs == [] then [] else
    var last := refs[|refs| - 1];
    RefsDeps(refs[..|refs| - 1]) + (if last.Global? then [last.sym] else [])
  }

  function ArgDeps(a: Arg): seq<Atom> {
    match a
    case RefArg(r) => RefsDeps([r])
    case RefArrayArg(refs) => RefsDeps(refs)
    case OtherArg => []
  }

  function ArgsDeps(args: seq<Arg>): seq<Atom> {
    if args == [] then [] else ArgsDeps(args[..|args| - 1]) + ArgDeps(args[|args| - 1])
  }

  function InstrsDeps(instrs: seq<Instr>): seq<Atom> {
    if instrs == [] then [] else InstrsDeps(instrs[..|instrs| - 1]) + ArgsDeps(instrs[|instrs| - 1].args)
  }

  function Deps(s: Symbol): seq<Atom> {
    match s.body
    case ProcBody(_, _, _, instrs) => InstrsDeps(instrs)
    case DataBody(_, relocs) => relocs
    case _ => []
  }

  lemma {:induction false} RefsMention(refs: seq<Ref>, d: Atom)
    ensures d in RefsDeps(refs) <==> Global(d) in refs
    decreases |refs|
  {
    if refs != [] {
      var init, last := refs[..|refs| - 1], refs[|refs| - 1];
      RefsMention(init, d);
      assert refs == init + [last];
    }
  }

  lemma ArgMentions(a: Arg, d: Atom)
    ensures d in ArgDeps(a) <==> ArgRefers(a, d)
  {
    hide RefsDeps;
    match a
    case RefArg(r) => RefsMention([r], d);
    case RefArrayArg(refs) => RefsMention(refs, d);
    case OtherArg =>
  }

  lemma {:induction false} ArgsMention(args: seq<Arg>, d: Atom)
    ensures d in ArgsDeps(args) <==> Refers(Instr(args), d)
    decreases |args|
  {
    if args != [] {
      var init, last := args[..|args| - 1], args[|args| - 1];
      ArgsMention(init, d);
      ArgMentions(last, d);
      hide ArgRefers, ArgDeps;
      assert args == init + [last];
    }
  }

  lemma {:induction false} InstrsMention(instrs: seq<Instr>, d: Atom)
    ensures d in InstrsDeps(instrs) <==> exists k | 0 <= k < |instrs| :: Refers(instrs[k], d)
    decreases |instrs|
  {
    if instrs != [] {
      var init, last := instrs[..|instrs| - 1], instrs[|instrs| - 1];
      InstrsMention(init, d);
      ArgsMention(last.args, d);
      hide Refers, ArgsDeps;
      assert instrs == init + [last] && Instr(last.args) == last;
    }
  }

  /** What is gathered from a symbol is exactly what it mentions. */
  lemma DepsMention(s: Symbol)
    ensures forall d :: d in Deps(s) <==> Mentions(s, d)
  {
    hide Refers, InstrsDeps;
    forall d ensures d in Deps(s) <==> Mentions(s, d) {
      if s.body.ProcBody? { InstrsMention(s.body.instrs, d); }
    }
  }

  lemma Snoc<T>(xs: seq<T>, k: nat)
    requires k < |xs|
    ensures xs[..k + 1][..|xs[..k + 1]| - 1] == xs[..k] && xs[..k + 1][|xs[..k + 1]| - 1] == xs[k]
  {}

  lemma RefsNext(refs: seq<Ref>, k: nat)
    requires k < |refs|
    ensures RefsDeps(refs[..k + 1]) == RefsDeps(refs[..k]) + (if refs[k].Global? then [refs[k].sym] else [])
  {
    Snoc(refs, k);
  }

  lemma ArgsNext(args: seq<Arg>, k: nat)
    requires k < |args|
    ensures ArgsDeps(args[..k + 1]) == ArgsDeps(args[..k]) + ArgDeps(args[k])
  {
    Snoc(args, k);
    hide ArgDeps;
  }

  lemma InstrsNext(instrs: seq<Instr>, k: nat)
    requires k < |instrs|
    ensures InstrsDeps(instrs[..k + 1]) == InstrsDeps(instrs[..k]) + ArgsDeps(instrs[k].args)
  {
    Snoc(instrs, k);
    hide ArgsDeps;
  }

  lemma NoDeps()
    ensures RefsDeps([]) == [] && ArgsDeps([]) == [] && InstrsDeps([]) == []
  {}

  lemma Assoc(a: seq<Atom>, b: seq<Atom>, c: seq<Atom>)
    ensures a + (b + c) == a + b + c
  {}

  method GatherRefs(refs: seq<Ref>, out: seq<Atom>) returns (r: seq<Atom>)
    ensures r == out + RefsDeps(refs)
  {
    r := out;
    NoDeps();
    var k := 0;
    while k < |refs|
      invariant 0 <= k <= |refs| && r == out + RefsDeps(refs[..k])
    {
      RefsNext(refs, k);
      if refs[k].Global? { r := r + [refs[k].sym]; }
      k := k + 1;
    }
    assert refs[..|refs|] == refs;
  }

  method GatherArg(a: Arg, out: seq<Atom>) returns (r: seq<Atom>)
    ensures r == out + ArgDeps(a)
  {
    match a {
      case RefArg(ref) =>
        r := GatherRefs([ref], out);
      case RefArrayArg(refs) =>
        r := GatherRefs(refs, out);
      case OtherArg =>
        r := out;
    }
  }

  method GatherArgs(args: seq<Arg>, out: seq<Atom>) returns (r: seq<Atom>)
    ensures r == out + ArgsDeps(args)
  {
    r := out;
    NoDeps();
    hide *;
    var k := 0;
    assert args[..0] == [];
    while k < |args|
      invariant 0 <= k <= |args| && r == out + ArgsDeps(args[..k])
    {
      ArgsNext(args, k);
      Assoc(out, ArgsDeps(args[..k]), ArgDeps(args[k]));
      r := GatherArg(args[k], r);
      k := k + 1;
    }
    assert args[..|args|] == args;
  }

  method GatherInstrs(instrs: seq<Instr>, out: seq<Atom>) returns (r: seq<Atom>)
    ensures r == out + InstrsDeps(instrs)
  {
    r := out;
    NoDeps();
    hide *;
    var k := 0;
    assert instrs[..0] == [];
    while k < |instrs|
      invariant 0 <= k <= |instrs| && r == out + InstrsDeps(instrs[..k])
    {
      InstrsNext(instrs, k);
      Assoc(out, InstrsDeps(instrs[..k]), ArgsDeps(instrs[k].args));
      r := GatherArgs(instrs[k].args, r);
      k := k + 1;
    }
    assert instrs[..|instrs|] == instrs;
  }

  /** Append every global a symbol mentions. */
  method GatherDeps(s: Symbol, out: seq<Atom>) returns (r: seq<Atom>)
    ensures r == out + Deps(s)
    ensures forall d :: d in r <==> d in out || Mentions(s, d)
  {
    r := out;
    DepsMention(s);
    hide Mentions, InstrsDeps;
    match s.body {
      case ProcBody(_, _, _, instrs) =>
        r := GatherInstrs(instrs, r);
      case DataBody(_, relocs) =>
        r := r + relocs;
      case ExternProc(_, _, _) =>
      case ExternData(_) =>
      case NoBody =>
    }
  }

  // --- Symbols of a module ---

  function Lookup(syms: seq<Symbol>, x: Atom): Option<Symbol> {
    if syms == [] then None else if syms[0].name == x then Some(syms[0]) else Lookup(syms[1..], x)
  }

  ghost predicate NoneNamed(syms: seq<Symbol>, n: nat, x: Atom) {
    n <= |syms| && forall j | 0 <= j < n :: syms[j].name != x
  }

  /** The first symbol of a name. */
  method FindSymbol(syms: seq<Symbol>, x: Atom) returns (r: Option<Symbol>)
    ensures r == Lookup(syms, x)
    ensures match r
            case None => forall j | 0 <= j < |syms| :: syms[j].name != x
            case Some(s) => exists k | 0 <= k < |syms| :: s == syms[k] && s.name == x && NoneNamed(syms, k, x)
  {
    var k := 0;
    assert syms[0..] == syms;
    while k < |syms|
      invariant 0 <= k <= |syms| && Lookup(syms[k..], x) == Lookup(syms, x)
      invariant NoneNamed(syms, k, x)
    {
      assert syms[k..][0] == syms[k] && syms[k..][1..] == syms[k + 1..];
      if syms[k].name == x {
        return Some(syms[k]);
      }
      k := k + 1;
    }
    return None;
  }

  predicate Known(syms: seq<Symbol>, x: Atom) { Lookup(syms, x) != None }

  function The(syms: seq<Symbol>, x: Atom): Symbol
    requires Known(syms, x)
  {
    Lookup(syms, x).value
  }

  function Names(syms: seq<Symbol>): set<Atom> { set k | 0 <= k < |syms| :: syms[k].name }

  lemma {:induction false} KnownNamed(syms: seq<Symbol>, x: Atom)
    requires Known(syms, x)
    ensures x in Names(syms) && The(syms, x) in syms && The(syms, x).name == x
  {
    if syms[0].name != x {
      KnownNamed(syms[1..], x);
      assert forall k | 0 <= k < |syms[1..]| :: syms[1..][k] == syms[k + 1];
    }
  }

  /** Valid IR: whatever a symbol mentions is there. */
  ghost predicate Complete(syms: seq<Symbol>) {
    forall x, d | Known(syms, x) && Mentions(The(syms, x), d) :: Known(syms, d)
  }

  ghost predicate Closed(syms: seq<Symbol>, S: set<Atom>) {
    forall x, d | x in S && Known(syms, x) && Mentions(The(syms, x), d) :: d in S
  }

  /** The least set that holds x and everything its members mention: what is reachable from x. */
  ghost predicate IsReach(syms: seq<Symbol>, x: Atom, R: set<Atom>) {
    && x in R && Closed(syms, R)
    && forall S: set<Atom> | x in S && Closed(syms, S) :: R <= S
  }

  function Members(xs: seq<Atom>): set<Atom> { set x | x in xs }

  function Found(syms: seq<Symbol>, xs: seq<Atom>): (r: seq<Symbol>)
    requires forall x | x in xs :: Known(syms, x)
    ensures |r| == |xs|
  {
    seq(|xs|, k requires 0 <= k < |xs| => The(syms, xs[k]))
  }

  method CollectSymbols(syms: seq<Symbol>, node: Tree, out: seq<Symbol>) returns (r: seq<Symbol>)
    requires forall x | x in Preorder(node) :: Known(syms, x)
    ensures r == out + Found(syms, Preorder(node))
    decreases node
  {
    if node.Empty? {
      return out;
    }
    assert Preorder(node)[0] == node.item && Known(syms, node.item);
    var s := FindSymbol(syms, node.item);
    r := out + [s.value];
    r := CollectSymbols(syms, node.child0, r);
    r := CollectSymbols(syms, node.child1, r);
  }

  ghost predicate HasName(mod: seq<Symbol>, x: Atom) { exists k | 0 <= k < |mod| :: mod[k].name == x }

  /** Symbols of the IR, none twice, with everything they mention. */
  ghost predicate ClosureOf(syms: seq<Symbol>, deps: seq<Symbol>) {
    && (forall j, k | 0 <= j < k < |deps| :: deps[j].name != deps[k].name)
    && (forall k | 0 <= k < |deps| :: Known(syms, deps[k].name) && deps[k] == The(syms, deps[k].name))
    && (forall k, d | 0 <= k < |deps| && Mentions(deps[k], d) :: HasName(deps, d))
  }

  /** Everything reachable from a symbol, as the IR has it, each once. */
  ghost predicate IsClosure(syms: seq<Symbol>, name: Atom, deps: seq<Symbol>) {
    && ClosureOf(syms, deps)
    && exists R: set<Atom> :: IsReach(syms, name, R) && forall x :: x in R <==> HasName(deps, x)
  }

  lemma ReachIsClosure(syms: seq<Symbol>, name: Atom, order: seq<Atom>, deps: seq<Symbol>)
    requires NoDuplicates(order) && IsReach(syms, name, Members(order))
    requires (forall x | x in order :: Known(syms, x)) && deps == Found(syms, order)
    ensures ClosureOf(syms, deps) && IsClosure(syms, name, deps)
  {
    forall k | 0 <= k < |deps| ensures deps[k].name == order[k] { KnownNamed(syms, order[k]); }
    assert forall x :: x in Members(order) <==> HasName(deps, x);
    hide Mentions;
    forall k, d | 0 <= k < |deps| && Mentions(deps[k], d) ensures HasName(deps, d) {
      var R := Members(order);
      assert order[k] in R && deps[k] == The(syms, order[k]);
      assert Mentions(The(syms, order[k]), d);
      assert d in R;
      var j :| 0 <= j < |order| && order[j] == d;
      assert deps[j].name == d;
    }
  }

  /** The worklist: everything reachable from a symbol, each once, in the order the set of names lists them.
      Cycles end because a name is only followed when it is new. */
  method GetSymbolDependencies(syms: seq<Symbol>, hash: Atom -> nat, name: Atom)
    returns (out: seq<Symbol>)
    requires Complete(syms) && Known(syms, name)
    ensures IsClosure(syms, name, out)
  {
    var stack := [name];
    var deps := new AtomSet(hash);
    assert Preorder(deps.root) == [];
    while stack != []
      invariant fresh(deps) && deps.Valid() && deps.hash == hash
      invariant forall x | x in Items(deps.root) || x in stack :: Known(syms, x)
      invariant Explored(syms, name, Items(deps.root), stack)
      decreases Names(syms) - Items(deps.root), |stack|
    {
      var x := stack[|stack| - 1];
      ghost var before := stack;
      stack := stack[..|stack| - 1];
      var seen := deps.Find(x);
      if seen {
        PopSeen(syms, name, Items(deps.root), before);
      } else {
        KnownNamed(syms, x);
        ghost var items := Items(deps.root);
        deps.Insert(x);
        var s := FindSymbol(syms, x);
        stack := GatherDeps(s.value, stack);
        PopNew(syms, name, items, before);
        assert x in Names(syms) - items && Names(syms) - Items(deps.root) < Names(syms) - items;
      }
    }
    ghost var order := Preorder(deps.root);
    PreorderItems(deps.root, hash);
    AllExplored(syms, name, Items(deps.root));
    assert Members(order) == Items(deps.root);
    out := CollectSymbols(syms, deps.root, []);
    ReachIsClosure(syms, name, order, out);
  }

  /** The names taken so far, with those still on the stack, are on the way to the reachable ones. */
  ghost predicate Explored(syms: seq<Symbol>, name: Atom, items: set<Atom>, stack: seq<Atom>) {
    && (name in items || name in stack)
    && (forall x, d | x in items && Known(syms, x) && Mentions(The(syms, x), d) :: d in items || d in stack)
    && forall S: set<Atom> | name in S && Closed(syms, S) :: items <= S && forall x | x in stack :: x in S
  }

  lemma PopSeen(syms: seq<Symbol>, name: Atom, items: set<Atom>, stack: seq<Atom>)
    requires Explored(syms, name, items, stack) && stack != [] && stack[|stack| - 1] in items
    ensures Explored(syms, name, items, stack[..|stack| - 1])
  {
    var init := stack[..|stack| - 1];
    assert forall y | y in stack :: y in init || y in items;
    assert forall y | y in init :: y in stack;
  }

  lemma PopNew(syms: seq<Symbol>, name: Atom, items: set<Atom>, stack: seq<Atom>)
    requires stack != [] && Explored(syms, name, items, stack) && Known(syms, stack[|stack| - 1])
    ensures var x := stack[|stack| - 1];
            Explored(syms, name, items + {x}, stack[..|stack| - 1] + Deps(The(syms, x)))
  {
    var x, init := stack[|stack| - 1], stack[..|stack| - 1];
    var stack' := init + Deps(The(syms, x));
    DepsMention(The(syms, x));
    hide Mentions, Deps;
    assert forall y | y in stack :: y in init || y == x;
    assert forall y | y in init :: y in stack;
    assert x in stack;
    forall S: set<Atom> | name in S && Closed(syms, S) ensures items + {x} <= S && forall y | y in stack' :: y in S {
      assert x in S;
    }
  }

  lemma AllExplored(syms: seq<Symbol>, name: Atom, items: set<Atom>)
    requires Explored(syms, name, items, [])
    ensures IsReach(syms, name, items)
  {}

  // --- Loading ---

  function ParamTypes(params: seq<Param>): (r: seq<Type>)
    ensures |r| == |params| && forall k | 0 <= k < |r| :: r[k] == params[k].ty
  {
    if params == [] then [] else ParamTypes(params[..|params| - 1]) + [params[|params| - 1].ty]
  }

  /** A declaration in place of a body. */
  function ToExtern(s: Symbol): Symbol {
    match s.body
    case ProcBody(params, ret, flags, _) => s.(body := ExternProc(ParamTypes(params), ret, flags))
    case DataBody(ty, _) => s.(body := ExternData(ty))
    case _ => s
  }

  /** A symbol as another module refers to it: the same name, visibility and flags, and of the body what its type
      says. */
  ghost predicate Declares(e: Symbol, s: Symbol) {
    && e.name == s.name && e.vis == s.vis && e.flags == s.flags
    && (s.body.ProcBody? ==>
          && e.body.ExternProc? && |e.body.paramTypes| == |s.body.params|
          && (forall k | 0 <= k < |s.body.params| :: e.body.paramTypes[k] == s.body.params[k].ty)
          && e.body.retType == s.body.ret && e.body.procFlags == s.body.flags)
    && (s.body.DataBody? ==> e.body == ExternData(s.body.ty))
    && (!s.body.ProcBody? && !s.body.DataBody? ==> e.body == s.body)
  }

  lemma ToExternDeclares(s: Symbol)
    ensures Declares(ToExtern(s), s) && (IsBody(s) ==> IsExtern(ToExtern(s)))
    ensures !IsBody(s) ==> ToExtern(s) == s
  {}

  /** What a module has been told so far: names it need not define again, the modules handed to the compiler, and
      the external addresses defined. */
  datatype State = State(loaded: set<Atom>, modules: seq<seq<Symbol>>, externs: seq<(Atom, nat)>)

  function AsSeen(s: Symbol, loaded: set<Atom>): Symbol { if s.name in loaded then ToExtern(s) else s }

  function Emitted(deps: seq<Symbol>, loaded: set<Atom>): (r: seq<Symbol>)
    ensures |r| == |deps|
  {
    seq(|deps|, k requires 0 <= k < |deps| => AsSeen(deps[k], loaded))
  }

  function NewExterns(deps: seq<Symbol>, loaded: set<Atom>, resolver: Atom -> nat): seq<(Atom, nat)> {
    if deps == [] then [] else
    NewExterns(deps[..|deps| - 1], loaded, resolver) + Defines(deps[|deps| - 1], loaded, resolver)
  }

  /** The address an external symbol is defined at when it is first seen. */
  function Defines(s: Symbol, loaded: set<Atom>, resolver: Atom -> nat): seq<(Atom, nat)> {
    if s.name !in loaded && IsExtern(s) then [(s.name, resolver(s.name))] else []
  }

  function NamesUpTo(deps: seq<Symbol>, k: nat): set<Atom>
    requires k <= |deps|
  {
    set j | 0 <= j < k :: deps[j].name
  }

  /** The next external symbol to need an address has one. */
  predicate Resolves(s: Symbol, loaded: set<Atom>, resolver: Atom -> nat) {
    s.name in loaded || !IsExtern(s) || resolver(s.name) != 0
  }

  class Module {
    const syms: seq<Symbol>
    const hash: Atom -> nat
    const loaded: AtomSet
    var modules: seq<seq<Symbol>>
    var externs: seq<(Atom, nat)>

    constructor (syms: seq<Symbol>, hash: Atom -> nat)
      ensures this.syms == syms && this.hash == hash && Valid() && fresh(loaded)
      ensures Now() == State({}, [], [])
    {
      this.syms, this.hash := syms, hash;
      loaded := new AtomSet(hash);
      modules, externs := [], [];
    }

    ghost predicate Valid()
      reads loaded
    {
      loaded.Valid()
    }

    ghost function Now(): State
      reads this, loaded
    {
      State(Items(loaded.root), modules, externs)
    }

    /** One symbol of the closure. */
    method Visit(dep: Symbol, resolver: Atom -> nat, defined: seq<(Atom, nat)>)
      returns (ok: bool, dep': Symbol, defined': seq<(Atom, nat)>)
      requires Valid()
      modifies loaded
      ensures Valid() && Items(loaded.root) == old(Items(loaded.root)) + {dep.name}
      ensures ok <==> Resolves(dep, old(Items(loaded.root)), resolver)
      ensures dep' == AsSeen(dep, old(Items(loaded.root)))
      ensures ok ==> defined' == defined + Defines(dep, old(Items(loaded.root)), resolver)
    {
      ok, dep', defined' := true, dep, defined;
      var seen := loaded.Find(dep.name);
      if seen {
        if IsBody(dep) { dep' := ToExtern(dep); }
        assert Items(loaded.root) == Items(loaded.root) + {dep.name};
      } else {
        loaded.Insert(dep.name);
        if IsExtern(dep) {
          var address := resolver(dep.name);
          if address == 0 {
            return false, dep, defined;
          }
          defined' := defined + [(dep.name, address)];
        }
      }
    }

    /** The closure in order, each symbol as the compiler shall see it; the first external symbol without an
        address ends the call. */
    method LoadClosure(deps: seq<Symbol>, resolver: Atom -> nat) returns (ok: bool)
      requires Valid() && forall j, k | 0 <= j < k < |deps| :: deps[j].name != deps[k].name
      modifies this, loaded
      ensures Valid()
      ensures ok <==> forall k | 0 <= k < |deps| :: Resolves(deps[k], old(Now()).loaded, resolver)
      ensures ok ==> Now() == Loaded(old(Now()), deps, resolver)
      ensures !ok ==> exists k | 0 <= k < |deps| :: FailedAt(old(Now()), Now(), deps, resolver, k)
    {
      ghost var before := Items(loaded.root);
      var out := deps;
      var toDefine: seq<(Atom, nat)> := [];
      StartVisited(deps, before, resolver);
      hide *;
      var k := 0;
      while k < |out|
        invariant 0 <= k <= |out| == |deps|
        invariant Valid() && modules == old(modules) && externs == old(externs)
        invariant Visited(deps, before, resolver, k, out, toDefine, Items(loaded.root))
      {
        out, toDefine, ok := VisitNext(deps, before, resolver, k, out, toDefine);
        if !ok {
          StoppedAt(old(Now()), Now(), deps, resolver, k);
          return;
        }
        k := k + 1;
      }
      externs := externs + toDefine;
      modules := modules + [out];
      ok := true;
      AllVisited(old(Now()), Now(), deps, resolver, out, toDefine);
    }

    /** One round of the loop over the closure. */
    method VisitNext(ghost deps: seq<Symbol>, ghost before: set<Atom>, resolver: Atom -> nat, k: nat, out: seq<Symbol>,
                     toDefine: seq<(Atom, nat)>)
      returns (out': seq<Symbol>, toDefine': seq<(Atom, nat)>, ok: bool)
      requires Valid() && k < |out| == |deps| && Visited(deps, before, resolver, k, out, toDefine, Items(loaded.root))
      requires forall j, k | 0 <= j < k < |deps| :: deps[j].name != deps[k].name
      modifies loaded
      ensures Valid() && |out'| == |out|
      ensures if ok then Visited(deps, before, resolver, k + 1, out', toDefine', Items(loaded.root))
              else !Resolves(deps[k], before, resolver) && Items(loaded.root) == before + NamesUpTo(deps, k + 1)
    {
      hide Resolves, Defines, AsSeen, NamesUpTo, NewExterns, ToExtern, Partly, Items, Emitted, Searchable;
      PartlyNext(deps, before, k);
      NamesNext(deps, k);
      NameIsNew(deps, k);
      SameSeen(deps[k], before, Items(loaded.root), resolver);
      NewExternsNext(deps, k, before, resolver);
      var dep;
      ok, dep, toDefine' := Visit(out[k], resolver, toDefine);
      out' := if ok then out[k := dep] else out;
    }

    /** Load a symbol with everything it needs. Bodies loaded before become declarations. The call succeeds exactly
        when every external symbol in the closure that was not seen before has an address; and exactly then it
        keeps the module consistent. */
    method GetSymbolAddress(name: Atom, resolver: Atom -> nat) returns (ok: bool, ghost deps: seq<Symbol>)
      requires Valid() && Complete(syms) && Known(syms, name)
      modifies this, loaded
      ensures Valid() && IsClosure(syms, name, deps)
      ensures ok <==> forall k | 0 <= k < |deps| :: Resolves(deps[k], old(Now()).loaded, resolver)
      ensures ok ==> Now() == Loaded(old(Now()), deps, resolver)
      ensures ok ==> old(externs) <= externs && Resolved(externs[|old(externs)|..], deps, old(Now()).loaded, resolver)
      ensures old(Consistent(syms, Now())) ==> (ok <==> Consistent(syms, Now()))
      ensures StillLost(syms, old(Now()), Now())
    {
      var out := GetSymbolDependencies(syms, hash, name);
      deps := out;
      assert ClosureOf(syms, deps);
      hide Consistent, StillLost, Closed, IsReach, Complete, Found, Resolves, Resolved, Loaded, IsClosure;
      assert forall j, k | 0 <= j < k < |deps| :: deps[j].name != deps[k].name;
      hide ClosureOf;
      ok := LoadClosure(out, resolver);
      if ok {
        NewResolved(deps, old(Now()).loaded, resolver);
        LoadedAddresses(old(Now()), deps, resolver);
        AfterSuccess(syms, old(Now()), Now(), deps, resolver);
      } else {
        ghost var k :| 0 <= k < |deps| && FailedAt(old(Now()), Now(), deps, resolver, k);
        AfterFailure(syms, old(Now()), Now(), deps, resolver, k);
      }
    }
  }

  /** Addresses of exactly the external symbols seen for the first time, each the one found for its name. */
  ghost predicate Resolved(es: seq<(Atom, nat)>, deps: seq<Symbol>, loaded: set<Atom>, resolver: Atom -> nat) {
    && (forall k | 0 <= k < |es| :: es[k].1 == resolver(es[k].0) != 0)
    && (forall x, a | (x, a) in es :: exists j | 0 <= j < |deps| :: deps[j].name == x && FirstSeen(deps[j], loaded))
    && (forall j | 0 <= j < |deps| && FirstSeen(deps[j], loaded) :: (deps[j].name, resolver(deps[j].name)) in es)
  }

  ghost predicate FirstSeen(s: Symbol, loaded: set<Atom>) {
    s.name !in loaded && (s.body.ExternProc? || s.body.ExternData?)
  }

  lemma {:induction false} NewResolved(deps: seq<Symbol>, loaded: set<Atom>, resolver: Atom -> nat)
    requires forall k | 0 <= k < |deps| :: Resolves(deps[k], loaded, resolver)
    ensures Resolved(NewExterns(deps, loaded, resolver), deps, loaded, resolver)
    decreases |deps|
  {
    if deps != [] {
      var init, last := deps[..|deps| - 1], deps[|deps| - 1];
      NewResolved(init, loaded, resolver);
      var es, fs := NewExterns(init, loaded, resolver), Defines(last, loaded, resolver);
      ResolvedJoin(es, init, last, loaded, resolver);
      assert init + [last] == deps;
    }
  }

  lemma ResolvedJoin(es: seq<(Atom, nat)>, deps: seq<Symbol>, s: Symbol, loaded: set<Atom>, resolver: Atom -> nat)
    requires Resolved(es, deps, loaded, resolver) && Resolves(s, loaded, resolver)
    ensures Resolved(es + Defines(s, loaded, resolver), deps + [s], loaded, resolver)
  {
    var fs := Defines(s, loaded, resolver);
    forall x, a | (x, a) in es + fs
      ensures exists j | 0 <= j < |deps + [s]| :: (deps + [s])[j].name == x && FirstSeen((deps + [s])[j], loaded)
    {
      if (x, a) in es {
        var j :| 0 <= j < |deps| && deps[j].name == x && FirstSeen(deps[j], loaded);
        assert (deps + [s])[j] == deps[j];
      } else {
        assert (deps + [s])[|deps|] == s;
      }
    }
  }

  lemma LoadedAddresses(st: State, deps: seq<Symbol>, resolver: Atom -> nat)
    ensures var st' := Loaded(st, deps, resolver);
            st.externs <= st'.externs && st'.externs[|st.externs|..] == NewExterns(deps, st.loaded, resolver)
  {}

  /** The first k symbols of a closure have been looked at; `before` had been loaded when the call began. */
  ghost predicate Visited(deps: seq<Symbol>, before: set<Atom>, resolver: Atom -> nat, k: nat, out: seq<Symbol>,
                          toDefine: seq<(Atom, nat)>, items: set<Atom>)
  {
    && k <= |out| == |deps|
    && items == before + NamesUpTo(deps, k)
    && out == Partly(deps, before, k)
    && toDefine == NewExterns(deps[..k], before, resolver)
    && forall j | 0 <= j < k :: Resolves(deps[j], before, resolver)
  }

  lemma StartVisited(deps: seq<Symbol>, before: set<Atom>, resolver: Atom -> nat)
    ensures Visited(deps, before, resolver, 0, deps, [], before)
  {
    StartNames(deps, before, resolver);
  }

  lemma StoppedAt(st: State, st': State, deps: seq<Symbol>, resolver: Atom -> nat, k: nat)
    requires k < |deps| && !Resolves(deps[k], st.loaded, resolver)
    requires st' == st.(loaded := st.loaded + NamesUpTo(deps, k + 1))
    ensures FailedAt(st, st', deps, resolver, k)
    ensures !forall j | 0 <= j < |deps| :: Resolves(deps[j], st.loaded, resolver)
  {}

  lemma AllVisited(st: State, st': State, deps: seq<Symbol>, resolver: Atom -> nat, out: seq<Symbol>, toDefine: seq<(Atom, nat)>)
    requires Visited(deps, st.loaded, resolver, |deps|, out, toDefine, st'.loaded)
    requires st'.modules == st.modules + [out] && st'.externs == st.externs + toDefine
    ensures st' == Loaded(st, deps, resolver)
    ensures forall j | 0 <= j < |deps| :: Resolves(deps[j], st.loaded, resolver)
  {
    AllOfThem(deps, st.loaded, resolver);
  }

  /** The call ended at symbol k of the closure: names up to there count as loaded, nothing else has changed. */
  ghost predicate FailedAt(st: State, st': State, deps: seq<Symbol>, resolver: Atom -> nat, k: nat)
    requires k < |deps|
  {
    !Resolves(deps[k], st.loaded, resolver) && st' == st.(loaded := st.loaded + NamesUpTo(deps, k + 1))
  }

  /** Names visited in this call are new to the symbol at hand, so what was loaded before the call decides. */
  lemma SameSeen(s: Symbol, before: set<Atom>, now: set<Atom>, resolver: Atom -> nat)
    requires s.name in before <==> s.name in now
    ensures Resolves(s, now, resolver) == Resolves(s, before, resolver)
    ensures AsSeen(s, now) == AsSeen(s, before) && Defines(s, now, resolver) == Defines(s, before, resolver)
  {}

  lemma NewExternsNext(deps: seq<Symbol>, k: nat, loaded: set<Atom>, resolver: Atom -> nat)
    requires k < |deps|
    ensures NewExterns(deps[..k + 1], loaded, resolver) == NewExterns(deps[..k], loaded, resolver) + Defines(deps[k], loaded, resolver)
  {
    Snoc(deps, k);
  }

  function Loaded(st: State, deps: seq<Symbol>, resolver: Atom -> nat): State {
    State(st.loaded + NamesUpTo(deps, |deps|), st.modules + [Emitted(deps, st.loaded)],
          st.externs + NewExterns(deps, st.loaded, resolver))
  }

  /** The closure with its first k symbols as the compiler shall see them. */
  function Partly(deps: seq<Symbol>, loaded: set<Atom>, k: nat): (r: seq<Symbol>)
    requires k <= |deps|
    ensures |r| == |deps|
  {
    seq(|deps|, j requires 0 <= j < |deps| => if j < k then AsSeen(deps[j], loaded) else deps[j])
  }

  lemma PartlyNext(deps: seq<Symbol>, loaded: set<Atom>, k: nat)
    requires k < |deps|
    ensures Partly(deps, loaded, k)[k] == deps[k]
    ensures Partly(deps, loaded, k)[k := AsSeen(deps[k], loaded)] == Partly(deps, loaded, k + 1)
  {
    hide AsSeen;
  }

  lemma StartNames(deps: seq<Symbol>, loaded: set<Atom>, resolver: Atom -> nat)
    ensures NamesUpTo(deps, 0) == {} && NewExterns(deps[..0], loaded, resolver) == [] && Partly(deps, loaded, 0) == deps
  {}

  lemma AllOfThem(deps: seq<Symbol>, loaded: set<Atom>, resolver: Atom -> nat)
    ensures Partly(deps, loaded, |deps|) == Emitted(deps, loaded)
    ensures NewExterns(deps[..|deps|], loaded, resolver) == NewExterns(deps, loaded, resolver)
  {
    assert deps[..|deps|] == deps;
  }

  lemma NameIsNew(deps: seq<Symbol>, k: nat)
    requires k < |deps| && forall i, j | 0 <= i < j < |deps| :: deps[i].name != deps[j].name
    ensures deps[k].name !in NamesUpTo(deps, k)
  {}

  lemma NamesNext(deps: seq<Symbol>, k: nat)
    requires k < |deps|
    ensures NamesUpTo(deps, k + 1) == NamesUpTo(deps, k) + {deps[k].name}
  {}

  // --- What any sequence of successful loads keeps ---

  ghost predicate HasBody(mod: seq<Symbol>, x: Atom) { exists k | 0 <= k < |mod| :: mod[k].name == x && IsBody(mod[k]) }

  /** A module handed to the compiler: no name twice, every symbol is the IR's or its declaration, and every
      global its bodies mention is there. */
  ghost predicate WellFormed(syms: seq<Symbol>, mod: seq<Symbol>) {
    && (forall j, k | 0 <= j < k < |mod| :: mod[j].name != mod[k].name)
    && (forall k | 0 <= k < |mod| ::
          Known(syms, mod[k].name) && (mod[k] == The(syms, mod[k].name) || Declares(mod[k], The(syms, mod[k].name))))
    && (forall k, d | 0 <= k < |mod| && Mentions(mod[k], d) :: HasName(mod, d))
  }

  ghost predicate DeclaredAtMost(mod: seq<Symbol>, s: Symbol) {
    forall k | 0 <= k < |mod| && mod[k].name == s.name :: Declares(mod[k], s)
  }

  /** Defined in one module, absent from all before it, declared at most in all after it. */
  ghost predicate DefinedOnce(modules: seq<seq<Symbol>>, s: Symbol) {
    exists m | 0 <= m < |modules| ::
      && s in modules[m]
      && (forall m' | 0 <= m' < m :: !HasName(modules[m'], s.name))
      && (forall m' | m < m' < |modules| :: DeclaredAtMost(modules[m'], s))
  }

  ghost predicate OncePerName(externs: seq<(Atom, nat)>) {
    forall j, k | 0 <= j < k < |externs| :: externs[j].0 != externs[k].0
  }

  ghost predicate HasAddress(externs: seq<(Atom, nat)>, x: Atom) { exists k | 0 <= k < |externs| :: externs[k].0 == x }

  ghost predicate Consistent(syms: seq<Symbol>, st: State) {
    && Closed(syms, st.loaded) && (forall x | x in st.loaded :: Known(syms, x))
    && (forall m | 0 <= m < |st.modules| :: WellFormed(syms, st.modules[m]))
    && (forall x, m | 0 <= m < |st.modules| && HasName(st.modules[m], x) :: x in st.loaded)
    && (forall x | x in st.loaded && (The(syms, x).body.ProcBody? || The(syms, x).body.DataBody?) ::
          DefinedOnce(st.modules, The(syms, x)))
    && OncePerName(st.externs)
    && (forall x :: HasAddress(st.externs, x) <==>
          x in st.loaded && (The(syms, x).body.ExternProc? || The(syms, x).body.ExternData?))
  }

  /** An external symbol that counts as loaded but has no address. */
  ghost predicate Lost(syms: seq<Symbol>, st: State, x: Atom) {
    x in st.loaded && Known(syms, x) && IsExtern(The(syms, x)) && !HasAddress(st.externs, x)
  }

  /** A symbol with a body that counts as loaded although no module defines it. */
  ghost predicate Undefined(syms: seq<Symbol>, st: State, x: Atom) {
    && x in st.loaded && Known(syms, x) && IsBody(The(syms, x))
    && forall m | 0 <= m < |st.modules| :: !HasBody(st.modules[m], x)
  }

  lemma StartConsistent(syms: seq<Symbol>)
    ensures Consistent(syms, State({}, [], []))
  {}

  lemma EmittedNames(deps: seq<Symbol>, loaded: set<Atom>, x: Atom)
    ensures HasName(Emitted(deps, loaded), x) <==> HasName(deps, x)
    ensures HasBody(Emitted(deps, loaded), x) <==> HasBody(deps, x) && x !in loaded
  {
    var mod := Emitted(deps, loaded);
    forall k | 0 <= k < |deps| ensures mod[k].name == deps[k].name && (IsBody(mod[k]) <==> IsBody(deps[k]) && deps[k].name !in loaded) {}
  }

  lemma EmittedWellFormed(syms: seq<Symbol>, deps: seq<Symbol>, loaded: set<Atom>)
    requires ClosureOf(syms, deps)
    ensures WellFormed(syms, Emitted(deps, loaded))
  {
    var mod := Emitted(deps, loaded);
    forall k | 0 <= k < |mod| ensures mod[k].name == deps[k].name {}
    forall k, d | 0 <= k < |mod| && Mentions(mod[k], d) ensures HasName(mod, d) {
      assert mod[k] == deps[k];
      EmittedNames(deps, loaded, d);
    }
  }

  lemma NamesAre(deps: seq<Symbol>, x: Atom)
    ensures x in NamesUpTo(deps, |deps|) <==> HasName(deps, x)
  {}

  lemma LoadedClosed(syms: seq<Symbol>, loaded: set<Atom>, deps: seq<Symbol>)
    requires Closed(syms, loaded) && ClosureOf(syms, deps)
    ensures Closed(syms, loaded + NamesUpTo(deps, |deps|))
  {
    var S := loaded + NamesUpTo(deps, |deps|);
    hide Mentions;
    forall x, d | x in S && Known(syms, x) && Mentions(The(syms, x), d) ensures d in S {
      if x !in loaded {
        var k :| 0 <= k < |deps| && deps[k].name == x;
        NamesAre(deps, d);
      }
    }
  }

  lemma OnceMore(modules: seq<seq<Symbol>>, mod: seq<Symbol>, s: Symbol)
    requires DefinedOnce(modules, s) && DeclaredAtMost(mod, s)
    ensures DefinedOnce(modules + [mod], s)
  {
    hide HasName, DeclaredAtMost;
    var m :| 0 <= m < |modules| && s in modules[m] && (forall m' | 0 <= m' < m :: !HasName(modules[m'], s.name)) &&
      (forall m' | m < m' < |modules| :: DeclaredAtMost(modules[m'], s));
    assert s in (modules + [mod])[m];
  }

  lemma OnceNow(modules: seq<seq<Symbol>>, mod: seq<Symbol>, s: Symbol)
    requires s in mod && forall m | 0 <= m < |modules| :: !HasName(modules[m], s.name)
    ensures DefinedOnce(modules + [mod], s)
  {
    hide HasName, DeclaredAtMost;
    assert s in (modules + [mod])[|modules|];
  }

  lemma {:induction false} NewExternsAre(syms: seq<Symbol>, deps: seq<Symbol>, k: nat, loaded: set<Atom>, resolver: Atom -> nat)
    requires ClosureOf(syms, deps) && k <= |deps|
    ensures forall x :: HasAddress(NewExterns(deps[..k], loaded, resolver), x) <==>
              x in NamesUpTo(deps, k) && x !in loaded && IsExtern(The(syms, x))
    decreases k
  {
    if k > 0 {
      NewExternsAre(syms, deps, k - 1, loaded, resolver);
      NewExternsNext(deps, k - 1, loaded, resolver);
      NamesNext(deps, k - 1);
      var before, s := NewExterns(deps[..k - 1], loaded, resolver), deps[k - 1];
      AddressesJoin(before, Defines(s, loaded, resolver));
      DefinesAre(s, loaded, resolver);
      assert s == The(syms, s.name);
      hide NamesUpTo, HasAddress, Defines, IsExtern, NewExterns;
    }
  }

  lemma DefinesAre(s: Symbol, loaded: set<Atom>, resolver: Atom -> nat)
    ensures forall x :: HasAddress(Defines(s, loaded, resolver), x) <==> x == s.name && x !in loaded && IsExtern(s)
  {
    assert IsExtern(s) && s.name !in loaded ==> Defines(s, loaded, resolver)[0].0 == s.name;
  }

  lemma {:induction false} NewExternsOnce(syms: seq<Symbol>, deps: seq<Symbol>, k: nat, loaded: set<Atom>, resolver: Atom -> nat)
    requires ClosureOf(syms, deps) && k <= |deps|
    ensures OncePerName(NewExterns(deps[..k], loaded, resolver))
    decreases k
  {
    if k > 0 {
      NameIsNew(deps, k - 1);
      hide NewExterns, NamesUpTo, ClosureOf, IsExtern;
      NewExternsOnce(syms, deps, k - 1, loaded, resolver);
      NewExternsAre(syms, deps, k - 1, loaded, resolver);
      NewExternsNext(deps, k - 1, loaded, resolver);
      var before := NewExterns(deps[..k - 1], loaded, resolver);
      assert forall i | 0 <= i < |before| :: HasAddress(before, before[i].0);
    }
  }

  lemma AddressesJoin(es: seq<(Atom, nat)>, fs: seq<(Atom, nat)>)
    ensures forall x :: HasAddress(es + fs, x) <==> HasAddress(es, x) || HasAddress(fs, x)
  {
    forall x ensures HasAddress(es + fs, x) <==> HasAddress(es, x) || HasAddress(fs, x) {
      if HasAddress(es, x) { var k :| 0 <= k < |es| && es[k].0 == x; assert (es + fs)[k].0 == x; }
      if HasAddress(fs, x) { var k :| 0 <= k < |fs| && fs[k].0 == x; assert (es + fs)[|es| + k].0 == x; }
    }
  }

  lemma LoadedExterns(syms: seq<Symbol>, st: State, deps: seq<Symbol>, resolver: Atom -> nat)
    requires Consistent(syms, st) && ClosureOf(syms, deps)
    ensures var st' := Loaded(st, deps, resolver);
            && OncePerName(st'.externs)
            && (forall x | x in st'.loaded :: Known(syms, x))
            && (forall x :: HasAddress(st'.externs, x) <==> x in st'.loaded && IsExtern(The(syms, x)))
  {
    var new' := NewExterns(deps, st.loaded, resolver);
    assert deps[..|deps|] == deps;
    NewExternsAre(syms, deps, |deps|, st.loaded, resolver);
    NewExternsOnce(syms, deps, |deps|, st.loaded, resolver);
    AddressesJoin(st.externs, new');
    forall j, k | 0 <= j < |st.externs| && 0 <= k < |new'| ensures st.externs[j].0 != new'[k].0 {
      assert HasAddress(st.externs, st.externs[j].0) && HasAddress(new', new'[k].0);
    }
    var st' := Loaded(st, deps, resolver);
    assert st'.externs == st.externs + new';
    forall x ensures x in st'.loaded ==> Known(syms, x) && (HasAddress(st'.externs, x) <==> IsExtern(The(syms, x)))
             ensures HasAddress(st'.externs, x) ==> x in st'.loaded
    {
      if x !in st.loaded { assert !HasAddress(st.externs, x); }
    }
    DistinctJoin(st.externs, new');
  }

  lemma DistinctJoin(es: seq<(Atom, nat)>, fs: seq<(Atom, nat)>)
    requires OncePerName(es) && OncePerName(fs)
    requires forall j, k | 0 <= j < |es| && 0 <= k < |fs| :: es[j].0 != fs[k].0
    ensures OncePerName(es + fs)
  {
    forall j, k | 0 <= j < k < |es + fs| ensures (es + fs)[j].0 != (es + fs)[k].0 {
      if j < |es| <= k { assert es[j].0 != fs[k - |es|].0; }
      if |es| <= j { assert fs[j - |es|].0 != fs[k - |es|].0; }
    }
  }

  lemma LoadedModules(syms: seq<Symbol>, st: State, deps: seq<Symbol>, resolver: Atom -> nat)
    requires Consistent(syms, st) && ClosureOf(syms, deps)
    ensures var st' := Loaded(st, deps, resolver);
            && (forall m | 0 <= m < |st'.modules| :: WellFormed(syms, st'.modules[m]))
            && (forall x, m | 0 <= m < |st'.modules| && HasName(st'.modules[m], x) :: x in st'.loaded)
  {
    EmittedWellFormed(syms, deps, st.loaded);
    forall x ensures HasName(Emitted(deps, st.loaded), x) <==> x in NamesUpTo(deps, |deps|) {
      EmittedNames(deps, st.loaded, x);
      NamesAre(deps, x);
    }
    hide WellFormed, HasName, HasBody, NamesUpTo, ClosureOf, DefinedOnce, Closed;
  }

  lemma LoadedOnce(syms: seq<Symbol>, st: State, deps: seq<Symbol>, resolver: Atom -> nat, x: Atom)
    requires Consistent(syms, st) && ClosureOf(syms, deps)
    requires x in Loaded(st, deps, resolver).loaded && Known(syms, x)
    requires The(syms, x).body.ProcBody? || The(syms, x).body.DataBody?
    ensures DefinedOnce(Loaded(st, deps, resolver).modules, The(syms, x))
  {
    var mod, s := Emitted(deps, st.loaded), The(syms, x);
    KnownNamed(syms, x);
    if x in st.loaded {
      forall k | 0 <= k < |mod| && mod[k].name == x ensures Declares(mod[k], s) {
        assert deps[k] == s && mod[k] == ToExtern(s);
        ToExternDeclares(s);
      }
      OnceMore(st.modules, mod, s);
    } else {
      var k :| 0 <= k < |deps| && deps[k].name == x;
      assert mod[k] == s;
      OnceNow(st.modules, mod, s);
    }
  }

  /** A load that succeeds keeps everything. */
  lemma LoadedConsistent(syms: seq<Symbol>, st: State, deps: seq<Symbol>, resolver: Atom -> nat)
    requires Consistent(syms, st) && ClosureOf(syms, deps)
    ensures Consistent(syms, Loaded(st, deps, resolver))
  {
    var st' := Loaded(st, deps, resolver);
    LoadedClosed(syms, st.loaded, deps);
    LoadedExterns(syms, st, deps, resolver);
    LoadedModules(syms, st, deps, resolver);
    forall x | x in st'.loaded && (The(syms, x).body.ProcBody? || The(syms, x).body.DataBody?)
      ensures DefinedOnce(st'.modules, The(syms, x))
    {
      LoadedOnce(syms, st, deps, resolver, x);
    }
    hide WellFormed, HasName, HasBody, DefinedOnce, Closed, HasAddress, ClosureOf;
  }

  /** A load that fails leaves behind everything it saw for the first time, up to the symbol it failed on: loaded,
      but external symbols without an address and bodies in no module. */
  lemma FailedIsLost(syms: seq<Symbol>, st: State, deps: seq<Symbol>, resolver: Atom -> nat, k: nat)
    requires Consistent(syms, st) && ClosureOf(syms, deps) && k < |deps| && !Resolves(deps[k], st.loaded, resolver)
    ensures var st' := st.(loaded := st.loaded + NamesUpTo(deps, k + 1));
            && Lost(syms, st', deps[k].name) && !Consistent(syms, st')
            && forall j | 0 <= j <= k && deps[j].name !in st.loaded ::
                 && (IsExtern(deps[j]) ==> Lost(syms, st', deps[j].name))
                 && (IsBody(deps[j]) ==> Undefined(syms, st', deps[j].name))
  {
    hide WellFormed, DefinedOnce, Closed;
    assert deps[k].name in NamesUpTo(deps, k + 1);
    forall j | 0 <= j <= k && deps[j].name !in st.loaded
      ensures deps[j].name in NamesUpTo(deps, k + 1) && !HasAddress(st.externs, deps[j].name)
      ensures forall m | 0 <= m < |st.modules| :: !HasBody(st.modules[m], deps[j].name)
    {
      assert forall m | 0 <= m < |st.modules| :: !HasName(st.modules[m], deps[j].name);
    }
  }

  /** Nothing ever gives such a symbol an address, and such a body is never defined: later modules declare it at
      most. */
  lemma LostForGood(syms: seq<Symbol>, st: State, deps: seq<Symbol>, resolver: Atom -> nat, x: Atom)
    requires ClosureOf(syms, deps)
    ensures Lost(syms, st, x) ==> Lost(syms, Loaded(st, deps, resolver), x)
    ensures Undefined(syms, st, x) ==> Undefined(syms, Loaded(st, deps, resolver), x)
  {
    assert deps[..|deps|] == deps;
    NewExternsAre(syms, deps, |deps|, st.loaded, resolver);
    AddressesJoin(st.externs, NewExterns(deps, st.loaded, resolver));
    EmittedNames(deps, st.loaded, x);
    hide ClosureOf, HasBody, HasAddress, NewExterns, Emitted;
  }

  /** What earlier failures have left behind stays behind. */
  ghost predicate StillLost(syms: seq<Symbol>, st: State, st': State) {
    && (forall x | Lost(syms, st, x) :: Lost(syms, st', x))
    && (forall x | Undefined(syms, st, x) :: Undefined(syms, st', x))
  }

  lemma AfterSuccess(syms: seq<Symbol>, st: State, st': State, deps: seq<Symbol>, resolver: Atom -> nat)
    requires ClosureOf(syms, deps) && st' == Loaded(st, deps, resolver)
    ensures Consistent(syms, st) ==> Consistent(syms, st')
    ensures StillLost(syms, st, st')
  {
    hide Consistent, Lost, Undefined, ClosureOf, Loaded;
    if Consistent(syms, st) { LoadedConsistent(syms, st, deps, resolver); }
    forall x
      ensures Lost(syms, st, x) ==> Lost(syms, st', x)
      ensures Undefined(syms, st, x) ==> Undefined(syms, st', x)
    {
      LostForGood(syms, st, deps, resolver, x);
    }
  }

  lemma AfterFailure(syms: seq<Symbol>, st: State, st': State, deps: seq<Symbol>, resolver: Atom -> nat, k: nat)
    requires ClosureOf(syms, deps) && k < |deps| && FailedAt(st, st', deps, resolver, k)
    ensures Consistent(syms, st) ==> !Consistent(syms, st')
    ensures StillLost(syms, st, st')
  {
    hide Consistent;
    if Consistent(syms, st) { FailedIsLost(syms, st, deps, resolver, k); }
  }
}
