/** The program under construction, with the shared instruction array, and the operations on it. */
module IrProgram {
  import opened Ir
  import opened Storage
  import T = Trees
  import F = FrameSlots
  import R = Rounding

  datatype Proc = Proc(blocks: seq<nat>, curBlock: nat, frame: F.Frame)

  /** Every instruction was emitted while its proc had a current block. */
  ghost predicate Bounded(h: History, n: nat)
    decreases |h|
  {
    h == [] ||
    var before, e := h[..|h| - 1], h[|h| - 1];
    Bounded(before, n) && if e.i.Label? then e.i.id < n else Dropped(e.i) || Current(before, e.p) < n
  }

  lemma {:induction false} UnusedBlock(h: History, n: nat, b: nat)
    requires Bounded(h, n) && b >= n
    ensures Content(h, b) == []
    decreases |h|
  {
    if h != [] { UnusedBlock(h[..|h| - 1], n, b); }
  }

  lemma {:induction false} BoundedMore(h: History, n: nat, n': nat)
    requires Bounded(h, n) && n <= n'
    ensures Bounded(h, n')
    decreases |h|
  {
    if h != [] { BoundedMore(h[..|h| - 1], n, n'); }
  }

  lemma {:induction false} NothingEmitted(h: History, p: nat)
    requires forall k | 0 <= k < |h| :: h[k].p != p
    ensures Blocks(h, p) == [] && Current(h, p) == 0 && Stream(h, p) == [] && Raw(h, p) == []
    decreases |h|
  {
    if h != [] { NothingEmitted(h[..|h| - 1], p); }
  }

  /** A block's ranges hold its content, and own exactly the array slots marked as its own. */
  ghost predicate BlockOk(instrs: seq<Instr>, owner: seq<nat>, ranges: seq<Range>, content: seq<Instr>, b: nat) {
    && |owner| == |instrs|
    && RangesOk(ranges, |instrs|)
    && InBounds(ranges, |instrs|)
    && Gather(instrs, ranges) == content
    && forall i: nat :: Within(ranges, i) <==> i < |owner| && owner[i] == b
  }

  lemma EmptyBlockOk(instrs: seq<Instr>, owner: seq<nat>, b: nat)
    requires |owner| == |instrs| && b !in owner
    ensures BlockOk(instrs, owner, [], [], b)
  {}

  lemma AppendHere(instrs: seq<Instr>, owner: seq<nat>, ranges: seq<Range>, content: seq<Instr>, b: nat, i: Instr)
    requires BlockOk(instrs, owner, ranges, content, b)
    ensures BlockOk(instrs + [i], owner + [b], Extended(ranges, |instrs|), content + [i], b)
  {
    ExtendedGathersOk(instrs, i, ranges);
    forall k: nat ensures Within(Extended(ranges, |instrs|), k) <==> k < |owner + [b]| && (owner + [b])[k] == b {
      ExtendedCovers(ranges, |instrs|, k);
    }
    ExtendedCovers(ranges, |instrs|, 0);
  }

  lemma ExtendedGathersOk(instrs: seq<Instr>, i: Instr, ranges: seq<Range>)
    requires InBounds(ranges, |instrs|)
    ensures InBounds(Extended(ranges, |instrs|), |instrs + [i]|)
    ensures Gather(instrs + [i], Extended(ranges, |instrs|)) == Gather(instrs, ranges) + [i]
  {
    ExtendedInBounds(ranges, |instrs|);
    ExtendedGathers(instrs, i, ranges);
  }

  lemma AppendElsewhere(instrs: seq<Instr>, owner: seq<nat>, ranges: seq<Range>, content: seq<Instr>, b: nat, i: Instr, other: nat)
    requires BlockOk(instrs, owner, ranges, content, b) && other != b
    ensures BlockOk(instrs + [i], owner + [other], ranges, content, b)
  {
    GatherGrown(instrs, [i], ranges);
    forall k: nat ensures Within(ranges, k) <==> k < |owner + [other]| && (owner + [other])[k] == b {}
  }

  ghost predicate StoreOk(blocks: seq<seq<Range>>, instrs: seq<Instr>, owner: seq<nat>, h: History) {
    && Bounded(h, |blocks|)
    && |owner| == |instrs|
    && (forall k | 0 <= k < |owner| :: owner[k] < |blocks|)
    && forall b | 0 <= b < |blocks| :: BlockOk(instrs, owner, blocks[b], Content(h, b), b)
  }

  lemma StoreNewBlock(blocks: seq<seq<Range>>, instrs: seq<Instr>, owner: seq<nat>, h: History)
    requires StoreOk(blocks, instrs, owner, h)
    ensures StoreOk(blocks + [[]], instrs, owner, h)
  {
    var n := |blocks|;
    UnusedBlock(h, n, n);
    BoundedMore(h, n, n + 1);
    EmptyBlockOk(instrs, owner, n);
  }

  lemma StoreLabel(blocks: seq<seq<Range>>, instrs: seq<Instr>, owner: seq<nat>, h: History, e: Emitted)
    requires StoreOk(blocks, instrs, owner, h)
    requires if e.i.Label? then e.i.id < |blocks| else Dropped(e.i)
    ensures StoreOk(blocks, instrs, owner, h + [e])
  {
    SnocInit(h, e);
    forall b | 0 <= b < |blocks| ensures BlockOk(instrs, owner, blocks[b], Content(h + [e], b), b) {
      assert Content(h + [e], b) == Content(h, b);
    }
  }

  lemma StoreAppend(blocks: seq<seq<Range>>, instrs: seq<Instr>, owner: seq<nat>, h: History, e: Emitted)
    requires StoreOk(blocks, instrs, owner, h)
    requires !e.i.Label? && !Dropped(e.i) && Current(h, e.p) < |blocks|
    ensures var b := Current(h, e.p);
            StoreOk(blocks[b := Extended(blocks[b], |instrs|)], instrs + [e.i], owner + [b], h + [e])
  {
    SnocInit(h, e);
    var b := Current(h, e.p);
    var blocks' := blocks[b := Extended(blocks[b], |instrs|)];
    forall c | 0 <= c < |blocks'| ensures BlockOk(instrs + [e.i], owner + [b], blocks'[c], Content(h + [e], c), c) {
      if c == b {
        AppendHere(instrs, owner, blocks[b], Content(h, b), b, e.i);
        assert Content(h + [e], c) == Content(h, c) + [e.i];
      } else {
        AppendElsewhere(instrs, owner, blocks[c], Content(h, c), c, e.i, b);
        assert Content(h + [e], c) == Content(h, c);
      }
    }
  }

  ghost predicate ProcsOk(procs: seq<Proc>, h: History) {
    && (forall p | 0 <= p < |procs| :: procs[p].blocks == Blocks(h, p) && procs[p].curBlock == Current(h, p))
    && (forall k | 0 <= k < |h| :: h[k].p < |procs|)
  }

  lemma ProcsEmit(procs: seq<Proc>, procs': seq<Proc>, h: History, e: Emitted)
    requires ProcsOk(procs, h) && e.p < |procs| == |procs'|
    requires forall q | 0 <= q < |procs| && q != e.p :: procs'[q] == procs[q]
    requires var proc := procs[e.p];
             procs'[e.p] == if e.i.Label? then proc.(blocks := proc.blocks + [e.i.id], curBlock := e.i.id) else proc
    ensures ProcsOk(procs', h + [e])
  {
    SnocInit(h, e);
    forall q | 0 <= q < |procs'| ensures procs'[q].blocks == Blocks(h + [e], q) && procs'[q].curBlock == Current(h + [e], q) {
      if !(q == e.p && e.i.Label?) { assert Blocks(h, q) + [] == Blocks(h, q); }
    }
  }

  lemma ProcsNew(procs: seq<Proc>, h: History)
    requires ProcsOk(procs, h)
    ensures ProcsOk(procs + [Proc([], 0, F.EMPTY)], h)
  {
    NothingEmitted(h, |procs|);
  }

  /** Only proc p's own blocks differ. */
  ghost predicate OnlyBlocksOf(p: nat, before: seq<Proc>, after: seq<Proc>) {
    && p < |before| == |after|
    && after[p].frame == before[p].frame
    && forall q | 0 <= q < |after| && q != p :: after[q] == before[q]
  }

  class Program {
    var blocks: seq<seq<Range>>
    var instrs: seq<Instr>
    var procs: seq<Proc>
    var curProc: nat

    ghost var hist: History
    ghost var owner: seq<nat>   // which block each stored instruction belongs to

    ghost predicate Valid()
      reads this
    {
      && StoreOk(blocks, instrs, owner, hist) && ProcsOk(procs, hist)
      && forall p | 0 <= p < |procs| :: procs[p].frame.align > 0 && F.Sound(procs[p].frame)
    }

    constructor ()
      ensures Valid() && blocks == [] && instrs == [] && procs == [] && hist == []
    {
      blocks, instrs, procs, curProc, hist, owner := [], [], [], 0, [], [];
    }

    method CreateLabel() returns (id: nat)
      requires Valid()
      modifies this
      ensures Valid()
      ensures id == |old(blocks)| && |blocks| == id + 1
      ensures hist == old(hist) && procs == old(procs) && curProc == old(curProc)
    {
      id := |blocks|;
      StoreNewBlock(blocks, instrs, owner, hist);
      blocks := blocks + [[]];
    }

    method CreateProc() returns (id: nat)
      requires Valid()
      modifies this
      ensures Valid()
      ensures id == |old(procs)| && procs == old(procs) + [Proc([], 0, F.EMPTY)]
      ensures hist == old(hist) && |blocks| == |old(blocks)| && curProc == old(curProc)
    {
      id := |procs|;
      ProcsNew(procs, hist);
      F.EmptySound();
      procs := procs + [Proc([], 0, F.EMPTY)];
    }

    method SetActiveProc(p: nat)
      requires Valid()
      modifies this
      ensures Valid() && curProc == p
      ensures hist == old(hist) && procs == old(procs) && |blocks| == |old(blocks)|
    {
      curProc := p;
    }

    /** Append to the shared array and note the index in the proc's current block, growing its last range if
        nothing was emitted elsewhere in between. */
    method Append(b: nat, i: Instr)
      requires b < |blocks| && RangesOk(blocks[b], |instrs|)
      modifies `blocks, `instrs
      ensures instrs == old(instrs) + [i]
      ensures blocks == old(blocks)[b := Extended(old(blocks)[b], |old(instrs)|)]
    {
      var idx := |instrs|;
      instrs := instrs + [i];
      var ranges := blocks[b];
      if ranges != [] && idx == ranges[|ranges| - 1].end {
        var last := ranges[|ranges| - 1];
        blocks := blocks[b := ranges[..|ranges| - 1] + [last.(end := last.end + 1)]];
      } else {
        blocks := blocks[b := ranges + [Range(idx, idx + 1)]];
      }
    }

    /** One round of the emission loop: a label opens a block, a move of nothing is dropped, anything else is
        stored in the proc's current block. */
    method Emit(i: Instr)
      requires Valid() && curProc < |procs|
      requires if i.Label? then i.id < |blocks| else procs[curProc].curBlock < |blocks|
      modifies this
      ensures Valid()
      ensures hist == old(hist) + [Emitted(curProc, i)]
      ensures curProc == old(curProc) && |blocks| == |old(blocks)|
      ensures OnlyBlocksOf(curProc, old(procs), procs) && procs[curProc].curBlock < |blocks|
      ensures if i.Label? || (i.Mov? && i.size == 0) then instrs == old(instrs) && blocks == old(blocks)
              else instrs == old(instrs) + [i] &&
                   forall c | 0 <= c < |blocks| && c != old(procs[curProc].curBlock) :: blocks[c] == old(blocks)[c]
    {
      ghost var e := Emitted(curProc, i);
      var proc := procs[curProc];
      if i.Label? {
        StoreLabel(blocks, instrs, owner, hist, e);
        ProcsEmit(procs, procs[curProc := proc.(curBlock := i.id, blocks := proc.blocks + [i.id])], hist, e);
        procs := procs[curProc := proc.(curBlock := i.id, blocks := proc.blocks + [i.id])];
      } else {
        ProcsEmit(procs, procs, hist, e);
        if Dropped(i) {
          StoreLabel(blocks, instrs, owner, hist, e);
        } else {
          StoreAppend(blocks, instrs, owner, hist, e);
          Append(proc.curBlock, i);
          owner := owner + [proc.curBlock];
        }
      }
      hist := hist + [e];
    }

    method EmitArray(code: seq<Instr>)
      requires Valid() && curProc < |procs|
      requires forall k | 0 <= k < |code| && code[k].Label? :: code[k].id < |blocks|
      requires code != [] && !code[0].Label? ==> procs[curProc].curBlock < |blocks|
      modifies this
      ensures Valid()
      ensures hist == old(hist) + Tagged(curProc, code)
      ensures curProc == old(curProc) && |blocks| == |old(blocks)|
      ensures OnlyBlocksOf(curProc, old(procs), procs)
      ensures code != [] || old(procs[curProc].curBlock < |blocks|) ==> procs[curProc].curBlock < |blocks|
    {
      var k := 0;
      assert hist == old(hist) + Tagged(curProc, code[..0]);
      while k < |code|
        invariant 0 <= k <= |code|
        invariant Valid() && curProc == old(curProc) && |blocks| == |old(blocks)|
        invariant OnlyBlocksOf(curProc, old(procs), procs)
        invariant k > 0 || old(procs[curProc].curBlock < |blocks|) ==> procs[curProc].curBlock < |blocks|
        invariant hist == old(hist) + Tagged(curProc, code[..k])
      {
        Emit(code[k]);
        TaggedSnoc(curProc, code, k);
        k := k + 1;
      }
      assert code[..|code|] == code;
    }

    /** A copy of a fragment with a fresh label for every label it places; other labels stay. */
    method DupInto(code: seq<Instr>) returns (out: seq<Instr>)
      requires Valid()
      modifies this
      ensures Valid()
      ensures out == T.RenameCode(T.LabelsOf(code), |old(blocks)|, code)
      ensures |blocks| == |old(blocks)| + |T.LabelsOf(code)|
      ensures hist == old(hist) && procs == old(procs) && curProc == old(curProc)
    {
      hide Program.Valid;
      var labelMap: seq<(nat, nat)> := [];
      var k := 0;
      ghost var from, base := T.LabelsOf(code), |blocks|;
      while k < |code|
        invariant 0 <= k <= |code|
        invariant Valid() && hist == old(hist) && procs == old(procs) && curProc == old(curProc)
        invariant MapsFrom(labelMap, T.LabelsOf(code[..k]), base) && |blocks| == base + |labelMap|
      {
        if code[k].Label? {
          var newLabel := CreateLabel();
          labelMap := labelMap + [(code[k].id, newLabel)];
        }
        assert code[..k + 1] == code[..k] + [code[k]];
        LabelsSnoc(code[..k], code[k]);
        k := k + 1;
      }
      assert code[..|code|] == code;
      out := [];
      k := 0;
      while k < |code|
        invariant 0 <= k <= |code|
        invariant Valid() && hist == old(hist) && procs == old(procs) && curProc == old(curProc)
        invariant MapsFrom(labelMap, from, base) && |blocks| == base + |from|
        invariant out == T.RenameCode(from, base, code[..k])
      {
        var i := code[k];
        match i {
          case Jmp(l) => var l' := ReplaceLabel(labelMap, from, base, l); i := Jmp(l');
          case Jmpz(c, l) => var l' := ReplaceLabel(labelMap, from, base, l); i := Jmpz(c, l');
          case Jmpnz(c, l) => var l' := ReplaceLabel(labelMap, from, base, l); i := Jmpnz(c, l');
          case Label(l) => var l' := ReplaceLabel(labelMap, from, base, l); i := Label(l');
          case _ =>
        }
        out := out + [i];
        k := k + 1;
      }
    }

    method Enter()
      requires Valid() && curProc < |procs|
      modifies `procs
      ensures Valid()
      ensures procs == old(procs)[curProc := old(procs)[curProc].(frame := F.Enter(old(procs)[curProc].frame))]
    {
      var proc := procs[curProc];
      F.EnterSound(proc.frame);
      procs := procs[curProc := proc.(frame := proc.frame.(scopes := proc.frame.scopes + [proc.frame.cur]))];
    }

    method Leave()
      requires Valid() && curProc < |procs| && procs[curProc].frame.scopes != []
      modifies `procs
      ensures Valid()
      ensures procs == old(procs)[curProc := old(procs)[curProc].(frame := F.Leave(old(procs)[curProc].frame))]
    {
      var proc := procs[curProc];
      var n := |proc.frame.scopes|;
      F.LeaveSound(proc.frame);
      procs := procs[curProc := proc.(frame := proc.frame.(cur := proc.frame.scopes[n - 1], scopes := proc.frame.scopes[..n - 1]))];
    }

    method MakeLocalVar(ty: F.Type) returns (id: nat)
      requires Valid() && curProc < |procs|
      modifies `procs
      ensures Valid()
      ensures id == |old(procs)[curProc].frame.locals|
      ensures procs == old(procs)[curProc := old(procs)[curProc].(frame := F.MakeLocal(old(procs)[curProc].frame, ty))]
    {
      var proc := procs[curProc];
      var f := proc.frame;
      F.LocalSound(f, ty);
      id := |f.locals|;
      f := f.(align := R.Max(f.align, ty.align));
      f := f.(cur := R.RoundUp(f.cur, ty.align));
      f := f.(locals := f.locals + [F.Slot(ty, f.cur)]);
      f := f.(cur := f.cur + ty.size);
      f := f.(size := R.Max(f.size, f.cur));
      procs := procs[curProc := proc.(frame := f)];
    }

    method FinishProc(p: nat)
      requires Valid() && p < |procs|
      modifies `procs
      ensures Valid()
      ensures procs == old(procs)[p := old(procs)[p].(frame := F.Finish(old(procs)[p].frame))]
    {
      var proc := procs[p];
      F.FinishSound(proc.frame);
      procs := procs[p := proc.(frame := proc.frame.(size := R.RoundUp(proc.frame.size, proc.frame.align)))];
    }
  }

  lemma TaggedSnoc(p: nat, code: seq<Instr>, k: nat)
    requires k < |code|
    ensures Tagged(p, code[..k + 1]) == Tagged(p, code[..k]) + [Emitted(p, code[k])]
  {}

  /** The label map built while copying: the k-th label of the fragment goes to base + k. */
  predicate MapsFrom(labelMap: seq<(nat, nat)>, from: seq<nat>, base: nat) {
    |labelMap| == |from| && forall k | 0 <= k < |from| :: labelMap[k] == (from[k], base + k)
  }

  method ReplaceLabel(labelMap: seq<(nat, nat)>, ghost from: seq<nat>, ghost base: nat, l: nat) returns (r: nat)
    requires MapsFrom(labelMap, from, base)
    ensures r == T.Renamed(from, base, l)
  {
    var k := 0;
    while k < |labelMap|
      invariant 0 <= k <= |labelMap|
      invariant forall j | 0 <= j < k :: from[j] != l
    {
      if labelMap[k].0 == l {
        FirstIndex(from, l, k);
        return labelMap[k].1;
      }
      k := k + 1;
    }
    return l;
  }

  lemma {:induction false} FirstIndex(xs: seq<nat>, x: nat, k: nat)
    requires k < |xs| && xs[k] == x && forall j | 0 <= j < k :: xs[j] != x
    ensures T.IndexOf(xs, x) == k
  {
    if k > 0 { FirstIndex(xs[1..], x, k - 1); }
  }
}
