/** Emitted code seen as a tree: the shapes of jumps and labels the front end ever emits. `Flatten` gives
    the instruction stream back, and `Exec` says what the tree does without looking at a label. */
module Trees {
  import opened Ir

  datatype Tree =
    | Nil
    | Op(i: Instr)
    | Then(a: Tree, b: Tree)
    // jump to end unless cond; body; jmp end; end:
    | When(cond: Ref, body: Tree, end: nat)
    // jump to els when (cond is zero) == onZero; thn; jmp end; alt: els; jmp end; end:
    | Choose(onZero: bool, cond: Ref, thn: Tree, els: Tree, alt: nat, end: nat)
    // jmp loop; loop: head; jmpz cond end; body; jmp loop; end:
    | Loop(head: Tree, cond: Ref, body: Tree, loop: nat, end: nat)

  function CondJump(onZero: bool, c: Ref, l: nat): Instr {
    if onZero then Jmpz(c, l) else Jmpnz(c, l)
  }

  function Flatten(t: Tree): seq<Instr> {
    match t
    case Nil => []
    case Op(i) => [i]
    case Then(a, b) => Flatten(a) + Flatten(b)
    case When(c, body, end) =>
      [Jmpz(c, end)] + Flatten(body) + [Jmp(end), Label(end)]
    case Choose(z, c, x, y, alt, end) =>
      [CondJump(z, c, alt)] + Flatten(x) + [Jmp(end), Label(alt)] + Flatten(y) + [Jmp(end), Label(end)]
    case Loop(h, c, body, loop, end) =>
      [Jmp(loop), Label(loop)] + Flatten(h) + [Jmpz(c, end)] + Flatten(body) + [Jmp(loop), Label(end)]
  }

  // --- Meaning ---

  datatype Outcome =
    | Done(s: State)
    | Returned(tr: Trace, v: Option<bool>)
    | Timeout(tr: Trace)

  function Exec(prog: seq<Tree>, w: Oracle, n: nat, t: Tree, s: State): Outcome
    decreases n, t
  {
    match t
    case Nil => Done(s)
    case Op(Ret(r)) => Returned(s.tr + [EvRet(RetValue(r, s.m))], RetValue(r, s.m))
    case Op(Call(p)) =>
      if n == 0 || p >= |prog| then Timeout(s.tr) else
      var o := Exec(prog, w, n - 1, prog[p], State(s.tr + [EvCall(p)], map[]));
      if o.Returned? then Done(s.(tr := o.tr)) else if o.Timeout? then o else Timeout(o.s.tr)
    case Op(i) => Done(Effect(w, i, s))
    case Then(a, b) =>
      var o := Exec(prog, w, n, a, s);
      if o.Done? then Exec(prog, w, n, b, o.s) else o
    case When(c, body, _) =>
      if Value(c, s.m) then Exec(prog, w, n, body, s) else Done(s)
    case Choose(z, c, x, y, _, _) =>
      if Value(c, s.m) == z then Exec(prog, w, n, x, s) else Exec(prog, w, n, y, s)
    case Loop(h, c, body, _, _) =>
      if n == 0 then Timeout(s.tr) else
      var o := Exec(prog, w, n, h, s);
      if !o.Done? then o else
      if !Value(c, o.s.m) then Done(o.s) else
      var o' := Exec(prog, w, n, body, o.s);
      if o'.Done? then Exec(prog, w, n - 1, t, o'.s) else o'
  }

  // --- Labels ---

  function LabelsOf(code: seq<Instr>): seq<nat> {
    if code == [] then [] else
    (if code[0].Label? then [code[0].id] else []) + LabelsOf(code[1..])
  }

  /** First position of x in xs, or |xs|. */
  function IndexOf(xs: seq<nat>, x: nat): (k: nat)
    ensures k <= |xs|
    ensures k < |xs| ==> xs[k] == x
    ensures k == |xs| <==> x !in xs
  {
    if xs == [] then 0 else if xs[0] == x then 0 else 1 + IndexOf(xs[1..], x)
  }

  /** The new name of a label: the k-th label placed in the fragment becomes base + k. */
  function Renamed(from: seq<nat>, base: nat, l: nat): nat {
    var k := IndexOf(from, l);
    if k < |from| then base + k else l
  }

  function RenameInstr(from: seq<nat>, base: nat, i: Instr): Instr {
    match i
    case Jmp(l) => Jmp(Renamed(from, base, l))
    case Jmpz(c, l) => Jmpz(c, Renamed(from, base, l))
    case Jmpnz(c, l) => Jmpnz(c, Renamed(from, base, l))
    case Label(l) => Label(Renamed(from, base, l))
    case _ => i
  }

  function RenameCode(from: seq<nat>, base: nat, code: seq<Instr>): (r: seq<Instr>)
    ensures |r| == |code|
  {
    seq(|code|, k requires 0 <= k < |code| => RenameInstr(from, base, code[k]))
  }

  function Rename(from: seq<nat>, base: nat, t: Tree): Tree {
    match t
    case Nil => Nil
    case Op(i) => Op(RenameInstr(from, base, i))
    case Then(a, b) => Then(Rename(from, base, a), Rename(from, base, b))
    case When(c, body, end) => When(c, Rename(from, base, body), Renamed(from, base, end))
    case Choose(z, c, x, y, alt, end) =>
      Choose(z, c, Rename(from, base, x), Rename(from, base, y), Renamed(from, base, alt), Renamed(from, base, end))
    case Loop(h, c, body, loop, end) =>
      Loop(Rename(from, base, h), c, Rename(from, base, body), Renamed(from, base, loop), Renamed(from, base, end))
  }

  lemma {:induction false} LabelsOfConcat(a: seq<Instr>, b: seq<Instr>)
    ensures LabelsOf(a + b) == LabelsOf(a) + LabelsOf(b)
  {
    if a == [] {
      assert a + b == b;
    } else {
      LabelsOfConcat(a[1..], b);
      assert (a + b)[1..] == a[1..] + b;
    }
  }

  lemma RenameConcat(from: seq<nat>, base: nat, a: seq<Instr>, b: seq<Instr>)
    ensures RenameCode(from, base, a + b) == RenameCode(from, base, a) + RenameCode(from, base, b)
  {}

  lemma RenameOne(from: seq<nat>, base: nat, i: Instr)
    ensures RenameCode(from, base, [i]) == [RenameInstr(from, base, i)]
  {}

  lemma RenameTwo(from: seq<nat>, base: nat, i: Instr, j: Instr)
    ensures RenameCode(from, base, [i, j]) == [RenameInstr(from, base, i), RenameInstr(from, base, j)]
  {}

  /** Renaming distributes over five consecutive pieces. */
  lemma RenameFive(from: seq<nat>, base: nat, a: seq<Instr>, b: seq<Instr>, c: seq<Instr>, d: seq<Instr>, e: seq<Instr>)
    ensures RenameCode(from, base, a + b + c + d + e) ==
            RenameCode(from, base, a) + RenameCode(from, base, b) + RenameCode(from, base, c) +
            RenameCode(from, base, d) + RenameCode(from, base, e)
  {
    RenameConcat(from, base, a, b);
    RenameConcat(from, base, a + b, c);
    RenameConcat(from, base, a + b + c, d);
    RenameConcat(from, base, a + b + c + d, e);
  }

  lemma RenameWhen(from: seq<nat>, base: nat, c: Ref, body: seq<Instr>, end: nat)
    ensures var end' := Renamed(from, base, end);
            RenameCode(from, base, [Jmpz(c, end)] + body + [Jmp(end), Label(end)]) ==
            [Jmpz(c, end')] + RenameCode(from, base, body) + [Jmp(end'), Label(end')]
  {
    hide RenameCode, Renamed;
    RenameOne(from, base, Jmpz(c, end));
    RenameTwo(from, base, Jmp(end), Label(end));
    RenameConcat(from, base, [Jmpz(c, end)], body);
    RenameConcat(from, base, [Jmpz(c, end)] + body, [Jmp(end), Label(end)]);
  }

  lemma RenameChoose(from: seq<nat>, base: nat, z: bool, c: Ref, x: seq<Instr>, y: seq<Instr>, alt: nat, end: nat)
    ensures var alt', end' := Renamed(from, base, alt), Renamed(from, base, end);
            RenameCode(from, base, [CondJump(z, c, alt)] + x + [Jmp(end), Label(alt)] + y + [Jmp(end), Label(end)]) ==
            [CondJump(z, c, alt')] + RenameCode(from, base, x) + [Jmp(end'), Label(alt')] + RenameCode(from, base, y) +
            [Jmp(end'), Label(end')]
  {
    hide RenameCode, Renamed;
    RenameOne(from, base, CondJump(z, c, alt));
    RenameTwo(from, base, Jmp(end), Label(alt));
    RenameTwo(from, base, Jmp(end), Label(end));
    RenameFive(from, base, [CondJump(z, c, alt)], x, [Jmp(end), Label(alt)], y, [Jmp(end), Label(end)]);
  }

  lemma RenameLoop(from: seq<nat>, base: nat, h: seq<Instr>, c: Ref, body: seq<Instr>, loop: nat, end: nat)
    ensures var loop', end' := Renamed(from, base, loop), Renamed(from, base, end);
            RenameCode(from, base, [Jmp(loop), Label(loop)] + h + [Jmpz(c, end)] + body + [Jmp(loop), Label(end)]) ==
            [Jmp(loop'), Label(loop')] + RenameCode(from, base, h) + [Jmpz(c, end')] + RenameCode(from, base, body) +
            [Jmp(loop'), Label(end')]
  {
    hide RenameCode, Renamed;
    RenameTwo(from, base, Jmp(loop), Label(loop));
    RenameOne(from, base, Jmpz(c, end));
    RenameTwo(from, base, Jmp(loop), Label(end));
    RenameFive(from, base, [Jmp(loop), Label(loop)], h, [Jmpz(c, end)], body, [Jmp(loop), Label(end)]);
  }

  /** Renaming the tree renames the stream. */
  lemma {:induction false} FlattenRename(from: seq<nat>, base: nat, t: Tree)
    ensures Flatten(Rename(from, base, t)) == RenameCode(from, base, Flatten(t))
  {
    match t
    case Nil =>
    case Op(i) =>
      RenameOne(from, base, i);
    case Then(a, b) =>
      FlattenRename(from, base, a);
      FlattenRename(from, base, b);
      RenameConcat(from, base, Flatten(a), Flatten(b));
      hide RenameCode;
    case When(c, body, end) =>
      FlattenRename(from, base, body);
      RenameWhen(from, base, c, Flatten(body), end);
      hide RenameCode, Renamed;
    case Choose(z, c, x, y, alt, end) =>
      FlattenRename(from, base, x);
      FlattenRename(from, base, y);
      RenameChoose(from, base, z, c, Flatten(x), Flatten(y), alt, end);
      hide RenameCode, Renamed;
    case Loop(h, c, body, loop, end) =>
      FlattenRename(from, base, h);
      FlattenRename(from, base, body);
      RenameLoop(from, base, Flatten(h), c, Flatten(body), loop, end);
      hide RenameCode, Renamed;
  }

  /** An alpha-renamed copy does exactly what the original does. */
  lemma {:induction false} ExecRename(prog: seq<Tree>, w: Oracle, n: nat, from: seq<nat>, base: nat, t: Tree, s: State)
    ensures Exec(prog, w, n, Rename(from, base, t), s) == Exec(prog, w, n, t, s)
    decreases n, t
  {
    match t
    case Nil =>
    case Op(i) =>
    case Then(a, b) =>
      ExecRename(prog, w, n, from, base, a, s);
      var o := Exec(prog, w, n, a, s);
      if o.Done? { ExecRename(prog, w, n, from, base, b, o.s); }
    case When(c, body, _) =>
      ExecRename(prog, w, n, from, base, body, s);
    case Choose(z, c, x, y, _, _) =>
      ExecRename(prog, w, n, from, base, x, s);
      ExecRename(prog, w, n, from, base, y, s);
    case Loop(h, c, body, _, _) =>
      if n > 0 {
        ExecRename(prog, w, n, from, base, h, s);
        var o := Exec(prog, w, n, h, s);
        if o.Done? {
          ExecRename(prog, w, n, from, base, body, o.s);
          var o' := Exec(prog, w, n, body, o.s);
          if o'.Done? { ExecRename(prog, w, n - 1, from, base, t, o'.s); }
        }
      }
  }
}
