/** Compiling a program, and reading the result back out of the shared instruction storage. */
module Assembly {
  import opened Ir
  import opened Storage
  import IrProgram
  import S = Source
  import opened Trees
  import opened Lowering
  import opened LoweringShape
  import opened Machine
  import opened FrontEnd
  import opened Pipeline

  /** No label at or above n has been placed. */
  ghost predicate PlacedBelow(h: History, n: nat) {
    forall q: nat, b | b in Blocks(h, q) :: b < n
  }

  lemma TaggedSnoc(h: History, p: nat, code: seq<Instr>, k: nat)
    requires k < |code|
    ensures h + Tagged(p, code[..k + 1]) == (h + Tagged(p, code[..k])) + [Emitted(p, code[k])]
  {}

  ghost predicate Solid(code: seq<Instr>) { forall k | 0 <= k < |code| :: !Dropped(code[k]) }

  lemma EmitOne(h: History, e: Emitted, q: nat)
    requires !Dropped(e.i)
    ensures Stream(h + [e], q) == if q == e.p then Stream(h, q) + [e.i] else Stream(h, q)
    ensures Blocks(h + [e], q) == if q == e.p && e.i.Label? then Blocks(h, q) + [e.i.id] else Blocks(h, q)
  {
    SnocInit(h, e);
    assert Stream(h, q) + [] == Stream(h, q) && Blocks(h, q) + [] == Blocks(h, q);
  }

  lemma LabelsOfPrefix(code: seq<Instr>, k: nat)
    requires k < |code|
    ensures code[..k + 1] == code[..k] + [code[k]]
    ensures LabelsOf(code[..k + 1]) == if code[k].Label? then LabelsOf(code[..k]) + [code[k].id] else LabelsOf(code[..k])
  {
    assert code[..k + 1] == code[..k] + [code[k]];
    LabelsSnoc(code[..k], code[k]);
  }

  lemma EmitNothing(h: History, p: nat, code: seq<Instr>)
    ensures h + Tagged(p, code[..0]) == h && code[..0] == [] && LabelsOf(code[..0]) == []
  {}

  /** The effect of emitting a prefix of a proc's code, seen from that proc. */
  lemma {:induction false} EmitOwn(h: History, p: nat, code: seq<Instr>, k: nat)
    requires k <= |code| && Solid(code)
    ensures Stream(h + Tagged(p, code[..k]), p) == Stream(h, p) + code[..k]
    ensures Blocks(h + Tagged(p, code[..k]), p) == Blocks(h, p) + LabelsOf(code[..k])
    decreases k
  {
    EmitNothing(h, p, code);
    if k > 0 {
      var i := code[k - 1];
      EmitOwn(h, p, code, k - 1);
      TaggedSnoc(h, p, code, k - 1);
      EmitOne(h + Tagged(p, code[..k - 1]), Emitted(p, i), p);
      LabelsOfPrefix(code, k - 1);
      hide *;
      Assoc(Stream(h, p), code[..k - 1], [i]);
      if i.Label? { NatAssoc(Blocks(h, p), LabelsOf(code[..k - 1]), [i.id]); }
    }
  }

  /** Seen from any other proc. */
  lemma {:induction false} EmitOther(h: History, p: nat, code: seq<Instr>, k: nat, q: nat)
    requires k <= |code| && Solid(code) && q != p
    ensures Stream(h + Tagged(p, code[..k]), q) == Stream(h, q)
    ensures Blocks(h + Tagged(p, code[..k]), q) == Blocks(h, q)
    decreases k
  {
    EmitNothing(h, p, code);
    if k > 0 {
      EmitOther(h, p, code, k - 1, q);
      TaggedSnoc(h, p, code, k - 1);
      EmitOne(h + Tagged(p, code[..k - 1]), Emitted(p, code[k - 1]), q);
    }
  }

  lemma NatAssoc(a: seq<nat>, b: seq<nat>, c: seq<nat>)
    ensures a + b + c == a + (b + c)
  {}

  /** The effect of emitting all of it. */
  lemma EmitAll(h: History, p: nat, code: seq<Instr>, q: nat)
    requires Solid(code)
    ensures var h' := h + Tagged(p, code);
            && Stream(h', q) == (if q == p then Stream(h, q) + code else Stream(h, q))
            && Blocks(h', q) == (if q == p then Blocks(h, q) + LabelsOf(code) else Blocks(h, q))
  {
    if q == p { EmitOwn(h, p, code, |code|); } else { EmitOther(h, p, code, |code|, q); }
    assert code[..|code|] == code;
  }

  lemma {:induction false} LabelsAreAt(code: seq<Instr>, l: nat) returns (k: nat)
    requires l in LabelsOf(code)
    ensures k < |code| && code[k] == Label(l)
  {
    if code[0] == Label(l) { return 0; }
    k := LabelsAreAt(code[1..], l);
    k := k + 1;
  }

  lemma NotPlacedBefore(code: seq<Instr>, k: nat)
    requires UniqueLabels(code) && k < |code| && code[k].Label?
    ensures code[k].id !in LabelsOf(code[..k])
  {
    if code[k].id in LabelsOf(code[..k]) {
      var j := LabelsAreAt(code[..k], code[k].id);
    }
  }

  /** Code with its own fresh labels, starting with one, keeps the history orderly. */
  lemma {:induction false} EmitOrderly(h: History, p: nat, code: seq<Instr>, lo: nat, k: nat)
    requires Orderly(h) && PlacedBelow(h, lo) && Solid(code) && UniqueLabels(code) && k <= |code|
    requires code != [] && code[0].Label? && forall i | 0 <= i < |code| && code[i].Label? :: lo <= code[i].id
    ensures Orderly(h + Tagged(p, code[..k]))
    decreases k
  {
    if k == 0 {
      assert h + Tagged(p, code[..0]) == h;
    } else {
      EmitOrderly(h, p, code, lo, k - 1);
      TaggedSnoc(h, p, code, k - 1);
      var before, e := h + Tagged(p, code[..k - 1]), Emitted(p, code[k - 1]);
      SnocInit(before, e);
      if e.i.Label? {
        NotPlacedBefore(code, k - 1);
        forall q: nat ensures e.i.id !in Blocks(before, q) {
          if q == p { EmitOwn(h, p, code, k - 1); } else { EmitOther(h, p, code, k - 1, q); }
        }
      } else {
        EmitOwn(h, p, code, k - 1);
        assert code[..k - 1][0] == code[0];
        assert LabelsOf(code[..k - 1]) != [];
      }
    }
  }

  lemma {:induction false} TreeSolid(t: Tree, procs: nat)
    requires WfTree(t, procs)
    ensures Solid(Flatten(t))
  {
    match t
    case Nil =>
    case Op(_) =>
    case Then(a, b) => TreeSolid(a, procs); TreeSolid(b, procs);
    case When(_, body, _) => TreeSolid(body, procs);
    case Choose(_, _, x, y, _, _) => TreeSolid(x, procs); TreeSolid(y, procs);
    case Loop(h, _, body, _, _) => TreeSolid(h, procs); TreeSolid(body, procs);
  }

  /** A label in the stream is counted in the tree. */
  lemma LabelCounted(t: Tree, k: nat)
    requires k < |Flatten(t)| && Flatten(t)[k].Label?
    ensures Count(t, Flatten(t)[k].id) >= 1
  {
    LabelAt(Flatten(t), k);
    PlacedIsFlat(t);
    CountIsPlaced(t, Flatten(t)[k].id);
  }

  /** What emitting one lowered proc does to the history. */
  lemma EmitProc(h: History, p: nat, body: S.Stmt, lo: nat, logging: bool, procs: nat)
    requires Orderly(h) && PlacedBelow(h, lo) && S.Wf(body, procs)
    requires Stream(h, p) == [] && Blocks(h, p) == []
    ensures var c := LowerProc(body, lo, logging);
            var h' := h + Tagged(p, Flatten(c.t));
            && Orderly(h') && PlacedBelow(h', c.env.nextLabel)
            && Stream(h', p) == Flatten(c.t)
            && forall q: nat | q != p :: Stream(h', q) == Stream(h, q) && Blocks(h', q) == Blocks(h, q)
  {
    var c := LowerProc(body, lo, logging);
    var code := Flatten(c.t);
    LowerProcGood(body, lo, logging, procs);
    LowerProcFirst(body, lo, logging);
    UniqueFlat(c.t);
    TreeSolid(c.t, procs);
    forall i | 0 <= i < |code| && code[i].Label? ensures lo <= code[i].id < c.env.nextLabel { LabelCounted(c.t, i); }
    hide *;
    EmitFresh(h, p, code, lo, c.env.nextLabel);
  }

  lemma LowerProcFirst(body: S.Stmt, lo: nat, logging: bool)
    ensures var code := Flatten(LowerProc(body, lo, logging).t); code != [] && code[0] == Label(lo)
  {
    var c := LowerProc(body, lo, logging);
    ThenFlat(c.t.a, c.t.b);
    assert Flatten(c.t.a) == [Label(lo)];
  }

  lemma EmitFresh(h: History, p: nat, code: seq<Instr>, lo: nat, hi: nat)
    requires Orderly(h) && PlacedBelow(h, lo) && Stream(h, p) == [] && Blocks(h, p) == []
    requires Solid(code) && UniqueLabels(code) && code != [] && code[0].Label? && lo <= hi
    requires forall i | 0 <= i < |code| && code[i].Label? :: lo <= code[i].id < hi
    ensures var h' := h + Tagged(p, code);
            && Orderly(h') && PlacedBelow(h', hi)
            && Stream(h', p) == code
            && forall q: nat | q != p :: Stream(h', q) == Stream(h, q) && Blocks(h', q) == Blocks(h, q)
  {
    EmitOrderly(h, p, code, lo, |code|);
    assert code[..|code|] == code;
    var h' := h + Tagged(p, code);
    forall q: nat
      ensures q != p ==> Stream(h', q) == Stream(h, q) && Blocks(h', q) == Blocks(h, q)
    {
      EmitAll(h, p, code, q);
    }
    EmitAll(h, p, code, p);
    forall q: nat, b | b in Blocks(h', q) ensures b < hi {
      if q == p { var j := LabelsAreAt(code, b); }
    }
  }

  /** Compile all procs of a program, each into its own stream. */
  method CompileProgram(c: Compiler, src: seq<S.Stmt>)
    requires c.Idle() && c.ir.procs == [] && c.ir.hist == [] && S.Closed(src)
    modifies c, c.ir
    ensures c.Idle() && |c.ir.procs| == |src|
    ensures Orderly(c.ir.hist)
    ensures var g := LowerFrom(src, old(c.env).nextLabel, c.logging);
            forall p | 0 <= p < |src| :: Stream(c.ir.hist, p) == Flatten(g.trees[p])
  {
    hide Compiler.Idle, LowerProc;
    ghost var first := c.env.nextLabel;
    ghost var g := LowerFrom(src, first, c.logging);
    var k := 0;
    assert src[0..] == src && g.trees[0..] == g.trees;
    assert c.Idle();
    StartProgress(c.ir.hist, g.trees, first);
    while k < |src|
      invariant 0 <= k <= |src| && c.Idle() && |c.ir.procs| == k
      invariant Progress(c.ir.hist, g.trees, k, c.env.nextLabel)
      invariant g.trees[k..] == LowerFrom(src[k..], c.env.nextLabel, c.logging).trees
    {
      ghost var lo := c.env.nextLabel;
      LowerFromUnfold(src, k, lo, c.logging, g.trees);
      MoreProgress(c.ir.hist, g.trees, k, src[k], lo, c.logging, |src|);
      var p := c.CompileProc(src[k]);
      k := k + 1;
    }
  }

  /** After k procs: their streams are their trees, and nothing else has been emitted. */
  ghost predicate Progress(h: History, trees: seq<Tree>, k: nat, next: nat) {
    && k <= |trees|
    && Orderly(h) && PlacedBelow(h, next)
    && (forall p | 0 <= p < k :: Stream(h, p) == Flatten(trees[p]))
    && (forall p: nat | p >= k :: Stream(h, p) == [] && Blocks(h, p) == [])
  }

  lemma StartProgress(h: History, trees: seq<Tree>, next: nat)
    requires h == []
    ensures Progress(h, trees, 0, next)
  {}

  lemma MoreProgress(h: History, trees: seq<Tree>, k: nat, body: S.Stmt, lo: nat, logging: bool, procs: nat)
    requires Progress(h, trees, k, lo) && k < |trees| && S.Wf(body, procs)
    requires trees[k] == LowerProc(body, lo, logging).t
    ensures Progress(h + Tagged(k, Flatten(trees[k])), trees, k + 1, LowerProc(body, lo, logging).env.nextLabel)
  {
    hide LowerProc;
    EmitProc(h, k, body, lo, logging, procs);
  }

  lemma LowerFromUnfold(src: seq<S.Stmt>, k: nat, lo: nat, logging: bool, trees: seq<Tree>)
    requires k < |src| == |trees| && trees[k..] == LowerFrom(src[k..], lo, logging).trees
    ensures var c := LowerProc(src[k], lo, logging);
            trees[k] == c.t && trees[k + 1..] == LowerFrom(src[k + 1..], c.env.nextLabel, logging).trees
  {
    hide LowerProc;
    var rest := src[k..];
    assert rest[0] == src[k];
    assert rest[1..] == src[k + 1..];
    assert trees[k] == trees[k..][0];
    assert trees[k + 1..] == trees[k..][1..];
  }

  /** The blocks the program lists for each proc, read through their ranges, are the lowered proc. */
  lemma StoredIsLowered(c: Compiler, p: nat, t: Tree)
    requires c.Idle() && Orderly(c.ir.hist) && p < |c.ir.procs| && Stream(c.ir.hist, p) == Flatten(t)
    ensures Unsplit(c.ir.procs[p].blocks, c.ir.hist) == Flatten(t)
    ensures forall b | 0 <= b < |c.ir.blocks| :: InBounds(c.ir.blocks[b], |c.ir.instrs|) &&
              Gather(c.ir.instrs, c.ir.blocks[b]) == Content(c.ir.hist, b)
  {
    BlocksKeepStream(c.ir.hist, p);
  }
}
