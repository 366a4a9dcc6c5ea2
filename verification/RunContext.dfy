/** The run context: procs are translated when first needed, each after reserving its place, so that cyclic
    references find the bytecode still being produced. */
module RunContext {
  import opened Ir
  import opened Storage
  import opened IrProgram
  import opened Machine
  import opened Bytecode
  import opened Translator

  // --- The loop over blocks, ranges and instructions ---

  lemma {:induction false} OffsetGrows(blocks: seq<nat>, h: History, j: nat, k: nat)
    requires j < k <= |blocks|
    ensures Offset(blocks, h, j) < Offset(blocks, h, k) <= |Unsplit(blocks, h)|
    decreases k
  {
    BlockAt(blocks, h, k - 1, Unsplit(blocks, h), Offset(blocks, h, k - 1), Content(h, blocks[k - 1]));
    if j < k - 1 { OffsetGrows(blocks, h, j, k - 1); }
  }

  lemma BlocksDiffer(blocks: seq<nat>, h: History, j: nat, k: nat)
    requires UniqueLabels(Unsplit(blocks, h)) && j < k < |blocks|
    ensures blocks[j] != blocks[k]
  {
    var st := Unsplit(blocks, h);
    BlockAt(blocks, h, j, st, Offset(blocks, h, j), Content(h, blocks[j]));
    BlockAt(blocks, h, k, st, Offset(blocks, h, k), Content(h, blocks[k]));
    OffsetGrows(blocks, h, j, k);
    hide Unsplit, Offset;
  }

  /** Where in the proc's block list each block id is. */
  method FillInfo(blocks: seq<nat>, ghost h: History) returns (info: seq<BlockInfo>)
    requires UniqueLabels(Unsplit(blocks, h))
    ensures InfoOk(info, blocks)
  {
    info := [];
    var k := 0;
    while k < |blocks|
      invariant 0 <= k <= |blocks|
      invariant forall j | 0 <= j < k :: blocks[j] < |info| && info[blocks[j]].blockIdx == j
    {
      while blocks[k] >= |info|
        invariant forall j | 0 <= j < k :: blocks[j] < |info| && info[blocks[j]].blockIdx == j
        decreases blocks[k] + 1 - |info|
      {
        info := info + [BlockInfo(0, 0)];
      }
      forall j | 0 <= j < k ensures blocks[j] != blocks[k] { BlocksDiffer(blocks, h, j, k); }
      info := info[blocks[k] := BlockInfo(k, 0)];
      k := k + 1;
    }
  }

  /** The first n blocks know where their code starts. */
  ghost predicate StartsOk(info: seq<BlockInfo>, blocks: seq<nat>, h: History, n: nat)
    requires n <= |blocks|
  {
    forall j | 0 <= j < n ::
      blocks[j] < |info| && info[blocks[j]].firstInstr == PcOf(Unsplit(blocks, h), Offset(blocks, h, j))
  }

  lemma StartsMore(info: seq<BlockInfo>, blocks: seq<nat>, h: History, bi: nat, at: nat)
    requires bi < |blocks| && InfoOk(info, blocks) && StartsOk(info, blocks, h, bi)
    requires at == PcOf(Unsplit(blocks, h), Offset(blocks, h, bi))
    requires UniqueLabels(Unsplit(blocks, h))
    ensures blocks[bi] < |info|
    ensures var info' := info[blocks[bi] := info[blocks[bi]].(firstInstr := at)];
            InfoOk(info', blocks) && StartsOk(info', blocks, h, bi + 1)
  {
    forall j, k | 0 <= j < k < |blocks| ensures blocks[j] != blocks[k] { BlocksDiffer(blocks, h, j, k); }
    hide Unsplit, Offset, PcOf, UniqueLabels;
  }

  /** The label at the head of a block is not kept. */
  lemma HeadSkipped(blocks: seq<nat>, h: History, bi: nat)
    requires bi < |blocks|
    ensures var st, o := Unsplit(blocks, h), Offset(blocks, h, bi);
            && o + 1 + |Content(h, blocks[bi])| == Offset(blocks, h, bi + 1) <= |st|
            && KeptUpTo(st, o + 1) == KeptUpTo(st, o)
            && PcOf(st, o) == |KeptUpTo(st, o)|
  {
    var st, o := Unsplit(blocks, h), Offset(blocks, h, bi);
    BlockAt(blocks, h, bi, st, o, Content(h, blocks[bi]));
    hide Unsplit, Offset, Content;
    assert !Keeps(st, o);
  }

  lemma KeptStep(st: seq<Instr>, i: nat)
    requires i < |st|
    ensures KeptUpTo(st, i + 1) == if Keeps(st, i) then KeptUpTo(st, i) + [st[i]] else KeptUpTo(st, i)
  {}

  /** Position k of range r is that much further into the content. */
  lemma {:induction false} InGather(instrs: seq<Instr>, ranges: seq<Range>, r: nat, ii: nat)
    requires InBounds(ranges, |instrs|) && r < |ranges| && ranges[r].begin <= ii < ranges[r].end
    ensures var m := |Gather(instrs, ranges[..r])| + (ii - ranges[r].begin);
            m < |Gather(instrs, ranges)| && Gather(instrs, ranges)[m] == instrs[ii]
    decreases |ranges|
  {
    var init := ranges[..|ranges| - 1];
    if r < |init| {
      InGather(instrs, init, r, ii);
      assert init[..r] == ranges[..r];
    } else {
      assert init == ranges[..r];
      assert instrs[ranges[r].begin..ranges[r].end][ii - ranges[r].begin] == instrs[ii];
    }
  }

  lemma GatherNext(instrs: seq<Instr>, ranges: seq<Range>, r: nat)
    requires InBounds(ranges, |instrs|) && r < |ranges|
    ensures |Gather(instrs, ranges[..r + 1])| == |Gather(instrs, ranges[..r])| + (ranges[r].end - ranges[r].begin)
  {
    var upto := ranges[..r + 1];
    assert upto[..r] == ranges[..r] && upto[r] == ranges[r];
  }

  /** The output so far is what the first n instructions of the stream become. */
  ghost predicate Produced(out: Output, natives: set<nat>, st: seq<Instr>, n: nat) {
    n <= |st| && Built(out, natives, KeptUpTo(st, n))
  }

  /** Block number bi of a proc: its label is instruction o of the stream st, its content c follows. */
  ghost predicate Placed(blocks: seq<nat>, h: History, bi: nat, id: nat, info: seq<BlockInfo>,
                         st: seq<Instr>, o: nat, c: seq<Instr>) {
    && bi < |blocks| && id == blocks[bi]
    && st == Unsplit(blocks, h) && o == Offset(blocks, h, bi) && c == Content(h, id)
    && Translatable(st) && InfoOk(info, blocks)
  }

  /** Translate one stored instruction: skip comments and jumps to the next block, append anything else. */
  method TranslateOne(job: Job, i: Instr, info: seq<BlockInfo>, bi: nat, id: nat, ghost blocks: seq<nat>,
                      ghost h: History, ghost st: seq<Instr>, ghost o: nat, ghost c: seq<Instr>, ghost k: nat)
    returns (ok: bool)
    requires Placed(blocks, h, bi, id, info, st, o, c) && k < |c| && i == c[k]
    requires Produced(job.Out(), job.natives, st, o + 1 + k)
    modifies job, job.bc
    ensures ok ==> Produced(job.Out(), job.natives, st, o + 1 + (k + 1))
    ensures !ok ==> !Known(st, job.natives)
  {
    hide *;
    ghost var n := o + 1 + k;
    PlacedAt(blocks, h, bi, id, info, st, o, c, k);
    if i.Comment? || (i.Jmp? && info[i.target].blockIdx == info[id].blockIdx + 1) {
      ProducedSkip(job.Out(), job.natives, st, n);
      return true;
    }
    ok := AddKept(job, i, st, n);
  }

  method AddKept(job: Job, i: Instr, ghost st: seq<Instr>, ghost n: nat) returns (ok: bool)
    requires Produced(job.Out(), job.natives, st, n) && n < |st| && i == st[n] && Keeps(st, n)
    modifies job, job.bc
    ensures ok ==> Produced(job.Out(), job.natives, st, n + 1)
    ensures !ok ==> !Known(st, job.natives)
  {
    hide *;
    ProducedIs(job.Out(), job.natives, st, n);
    ok := job.Add(i, KeptUpTo(st, n));
    if ok {
      ProducedAdd(job.Out(), job.natives, st, n);
    } else {
      UnknownAt(job.natives, st, n);
    }
  }

  lemma PlacedAt(blocks: seq<nat>, h: History, bi: nat, id: nat, info: seq<BlockInfo>,
                 st: seq<Instr>, o: nat, c: seq<Instr>, k: nat)
    requires Placed(blocks, h, bi, id, info, st, o, c) && k < |c|
    ensures o + 1 + k < |st| && st[o + 1 + k] == c[k] && id < |info|
    ensures c[k].Jmp? ==> c[k].target < |info|
    ensures Keeps(st, o + 1 + k) <==> !c[k].Comment? && !(c[k].Jmp? && info[c[k].target].blockIdx == info[id].blockIdx + 1)
  {
    KeepsInBlock(blocks, h, bi, k, st, o, c, info);
    InfoAt(info, blocks, bi);
    hide Unsplit, Offset, Content, Keeps, InfoOk, Translatable;
  }

  lemma ProducedIs(out: Output, natives: set<nat>, st: seq<Instr>, n: nat)
    requires Produced(out, natives, st, n)
    ensures n <= |st| && Built(out, natives, KeptUpTo(st, n))
  {}

  lemma ProducedSkip(out: Output, natives: set<nat>, st: seq<Instr>, n: nat)
    requires n < |st| && Produced(out, natives, st, n) && !Keeps(st, n)
    ensures Produced(out, natives, st, n + 1)
  {
    KeptStep(st, n);
    hide KeptUpTo, Keeps, Built;
  }

  lemma ProducedAdd(out: Output, natives: set<nat>, st: seq<Instr>, n: nat)
    requires n < |st| && Keeps(st, n) && Built(out, natives, KeptUpTo(st, n) + [st[n]])
    ensures Produced(out, natives, st, n + 1)
  {
    KeptStep(st, n);
    hide KeptUpTo, Keeps, Built;
  }

  lemma UnknownAt(natives: set<nat>, st: seq<Instr>, n: nat)
    requires n < |st| && !Known([st[n]], natives)
    ensures !Known(st, natives)
  {}

  ghost predicate Stored(instrs: seq<Instr>, ranges: seq<Range>, c: seq<Instr>) {
    InBounds(ranges, |instrs|) && Gather(instrs, ranges) == c
  }

  /** How many instructions of a block lie before its range r. */
  ghost function Before(instrs: seq<Instr>, ranges: seq<Range>, r: nat): nat
    requires InBounds(ranges, |instrs|) && r <= |ranges|
  {
    |Gather(instrs, ranges[..r])|
  }

  lemma RangeFits(instrs: seq<Instr>, ranges: seq<Range>, c: seq<Instr>, r: nat)
    requires Stored(instrs, ranges, c) && r < |ranges|
    ensures InBounds(ranges, |instrs|) && ranges[r].begin <= ranges[r].end <= |instrs|
    ensures Before(instrs, ranges, r + 1) == Before(instrs, ranges, r) + (ranges[r].end - ranges[r].begin) <= |c|
  {
    GatherNext(instrs, ranges, r);
    GatherShorter(instrs, ranges, r + 1);
  }

  lemma {:induction false} GatherShorter(instrs: seq<Instr>, ranges: seq<Range>, r: nat)
    requires InBounds(ranges, |instrs|) && r <= |ranges|
    ensures |Gather(instrs, ranges[..r])| <= |Gather(instrs, ranges)|
    decreases |ranges| - r
  {
    if r == |ranges| {
      assert ranges[..r] == ranges;
    } else {
      GatherNext(instrs, ranges, r);
      GatherShorter(instrs, ranges, r + 1);
    }
  }

  lemma StoredAt(instrs: seq<Instr>, ranges: seq<Range>, c: seq<Instr>, r: nat, ii: nat)
    requires Stored(instrs, ranges, c) && r < |ranges| && ranges[r].begin <= ii < ranges[r].end
    ensures ii < |instrs| && InBounds(ranges, |instrs|)
    ensures var m := Before(instrs, ranges, r) + (ii - ranges[r].begin);
            m < |c| && c[m] == instrs[ii]
  {
    InGather(instrs, ranges, r, ii);
  }

  lemma StoredEnds(instrs: seq<Instr>, ranges: seq<Range>, c: seq<Instr>)
    requires Stored(instrs, ranges, c)
    ensures InBounds(ranges, |instrs|)
    ensures Before(instrs, ranges, 0) == 0 && Before(instrs, ranges, |ranges|) == |c|
  {
    assert ranges[..|ranges|] == ranges;
  }

  /** The indices of one range in order. */
  method TranslateRange(job: Job, instrs: seq<Instr>, range: Range, info: seq<BlockInfo>, bi: nat, id: nat,
                        ghost blocks: seq<nat>, ghost h: History, ghost st: seq<Instr>, ghost o: nat, ghost c: seq<Instr>,
                        ghost ranges: seq<Range>, ghost r: nat, ghost m: nat)
    returns (ok: bool)
    requires Placed(blocks, h, bi, id, info, st, o, c)
    requires Stored(instrs, ranges, c) && r < |ranges| && range == ranges[r]
    requires InBounds(ranges, |instrs|) && m == Before(instrs, ranges, r)
    requires Produced(job.Out(), job.natives, st, o + 1 + m)
    modifies job, job.bc
    ensures ok ==> Produced(job.Out(), job.natives, st, o + 1 + Before(instrs, ranges, r + 1))
    ensures !ok ==> !Known(st, job.natives)
  {
    hide *;
    RangeFits(instrs, ranges, c, r);
    var ii := range.begin;
    ghost var k := m;
    while ii < range.end
      invariant range.begin <= ii <= range.end && k == m + (ii - range.begin)
      invariant Produced(job.Out(), job.natives, st, o + 1 + k)
    {
      StoredAt(instrs, ranges, c, r, ii);
      ok := TranslateOne(job, instrs[ii], info, bi, id, blocks, h, st, o, c, k);
      if !ok { return false; }
      ii, k := ii + 1, k + 1;
    }
    return true;
  }

  /** One block: each range of it in order. */
  method TranslateBlock(job: Job, instrs: seq<Instr>, ranges: seq<Range>, info: seq<BlockInfo>, bi: nat, id: nat,
                        ghost blocks: seq<nat>, ghost h: History, ghost st: seq<Instr>, ghost o: nat, ghost c: seq<Instr>)
    returns (ok: bool)
    requires Placed(blocks, h, bi, id, info, st, o, c) && Stored(instrs, ranges, c)
    requires Produced(job.Out(), job.natives, st, o + 1)
    modifies job, job.bc
    ensures ok ==> Produced(job.Out(), job.natives, st, o + 1 + |c|)
    ensures !ok ==> !Known(st, job.natives)
  {
    hide *;
    StoredEnds(instrs, ranges, c);
    var r := 0;
    while r < |ranges|
      invariant 0 <= r <= |ranges|
      invariant Produced(job.Out(), job.natives, st, o + 1 + Before(instrs, ranges, r))
    {
      ok := TranslateRange(job, instrs, ranges[r], info, bi, id, blocks, h, st, o, c, ranges, r, Before(instrs, ranges, r));
      if !ok { return false; }
      r := r + 1;
    }
    return true;
  }

  lemma BlockIsStored(ir: Program, id: nat)
    requires ir.Valid() && id < |ir.blocks|
    ensures Stored(ir.instrs, ir.blocks[id], Content(ir.hist, id))
  {}

  /** All blocks of a proc, each noting first where its code begins. */
  method TranslateBlocks(job: Job, ir: Program, blocks: seq<nat>, info0: seq<BlockInfo>)
    returns (ok: bool, info: seq<BlockInfo>)
    requires ir.Valid() && forall k | 0 <= k < |blocks| :: blocks[k] < |ir.blocks|
    requires Translatable(Unsplit(blocks, ir.hist)) && InfoOk(info0, blocks)
    requires Built(job.Out(), job.natives, [])
    modifies job, job.bc
    ensures ok ==> InfoOk(info, blocks) && StartsOk(info, blocks, ir.hist, |blocks|)
    ensures ok ==> Produced(job.Out(), job.natives, Unsplit(blocks, ir.hist), |Unsplit(blocks, ir.hist)|)
    ensures !ok ==> !Known(Unsplit(blocks, ir.hist), job.natives)
  {
    ghost var h := ir.hist;
    ghost var st := Unsplit(blocks, h);
    info := info0;
    var bi := 0;
    StreamStart(job.Out(), job.natives, info, blocks, h);
    OffsetEnd(blocks, h);
    hide *;
    while bi < |blocks|
      invariant 0 <= bi <= |blocks|
      invariant Ready(job.Out(), job.natives, info, blocks, h, bi)
    {
      var id := blocks[bi];
      BlockIsStored(ir, id);
      ghost var o, c := EnterBlock(job.Out(), job.natives, info, blocks, h, bi);
      info := info[id := info[id].(firstInstr := |job.bc.instrs|)];
      ok := TranslateBlock(job, ir.instrs, ir.blocks[id], info, bi, id, blocks, h, st, o, c);
      if !ok { return false, info; }
      LeaveBlock(job.Out(), job.natives, info, blocks, h, bi, st, o, c);
      bi := bi + 1;
    }
    StreamEnd(job.Out(), job.natives, info, blocks, h);
    return true, info;
  }

  /** Before block bi: everything in front of it is translated, and the blocks know where they start. */
  ghost predicate Ready(out: Output, natives: set<nat>, info: seq<BlockInfo>, blocks: seq<nat>, h: History, bi: nat) {
    && bi <= |blocks|
    && InfoOk(info, blocks) && StartsOk(info, blocks, h, bi)
    && Produced(out, natives, Unsplit(blocks, h), Offset(blocks, h, bi))
  }

  lemma StreamStart(out: Output, natives: set<nat>, info: seq<BlockInfo>, blocks: seq<nat>, h: History)
    requires InfoOk(info, blocks) && Built(out, natives, [])
    ensures Ready(out, natives, info, blocks, h, 0)
  {
    assert Offset(blocks, h, 0) == 0 && KeptUpTo(Unsplit(blocks, h), 0) == [];
    hide Unsplit, Offset, InfoOk;
  }

  lemma EnterBlock(out: Output, natives: set<nat>, info: seq<BlockInfo>, blocks: seq<nat>, h: History, bi: nat)
    returns (o: nat, c: seq<Instr>)
    requires bi < |blocks| && Ready(out, natives, info, blocks, h, bi) && Translatable(Unsplit(blocks, h))
    ensures blocks[bi] < |info| && c == Content(h, blocks[bi])
    ensures var info' := info[blocks[bi] := info[blocks[bi]].(firstInstr := |out.code|)];
            && Placed(blocks, h, bi, blocks[bi], info', Unsplit(blocks, h), o, c)
            && StartsOk(info', blocks, h, bi + 1)
    ensures Produced(out, natives, Unsplit(blocks, h), o + 1)
  {
    o, c := Offset(blocks, h, bi), Content(h, blocks[bi]);
    HeadSkipped(blocks, h, bi);
    CodeLength(out, natives, KeptUpTo(Unsplit(blocks, h), o));
    StartsMore(info, blocks, h, bi, |out.code|);
    hide Unsplit, Offset, Content, KeptUpTo, InfoOk, StartsOk, Built, Translatable;
  }

  lemma CodeLength(out: Output, natives: set<nat>, kept: seq<Instr>)
    requires Built(out, natives, kept)
    ensures |out.code| == |kept|
  {}

  lemma LeaveBlock(out: Output, natives: set<nat>, info: seq<BlockInfo>, blocks: seq<nat>, h: History, bi: nat,
                   st: seq<Instr>, o: nat, c: seq<Instr>)
    requires bi < |blocks| && Placed(blocks, h, bi, blocks[bi], info, st, o, c) && StartsOk(info, blocks, h, bi + 1)
    requires Produced(out, natives, st, o + 1 + |c|)
    ensures Ready(out, natives, info, blocks, h, bi + 1)
  {
    hide *;
    PlacedEnds(blocks, h, bi, blocks[bi], info, st, o, c);
    ReadyIs(out, natives, info, blocks, h, bi + 1);
  }

  lemma ReadyIs(out: Output, natives: set<nat>, info: seq<BlockInfo>, blocks: seq<nat>, h: History, bi: nat)
    requires bi <= |blocks| && InfoOk(info, blocks) && StartsOk(info, blocks, h, bi)
    requires Produced(out, natives, Unsplit(blocks, h), Offset(blocks, h, bi))
    ensures Ready(out, natives, info, blocks, h, bi)
  {}

  lemma PlacedEnds(blocks: seq<nat>, h: History, bi: nat, id: nat, info: seq<BlockInfo>,
                   st: seq<Instr>, o: nat, c: seq<Instr>)
    requires Placed(blocks, h, bi, id, info, st, o, c)
    ensures InfoOk(info, blocks) && st == Unsplit(blocks, h) && o + 1 + |c| == Offset(blocks, h, bi + 1)
  {
    HeadSkipped(blocks, h, bi);
  }

  lemma StreamEnd(out: Output, natives: set<nat>, info: seq<BlockInfo>, blocks: seq<nat>, h: History)
    requires Ready(out, natives, info, blocks, h, |blocks|)
    ensures InfoOk(info, blocks) && StartsOk(info, blocks, h, |blocks|)
    ensures Produced(out, natives, Unsplit(blocks, h), |Unsplit(blocks, h)|)
  {
    OffsetEnd(blocks, h);
    hide Unsplit, Offset, InfoOk, StartsOk, Produced;
  }

  // --- Patching ---

  lemma {:induction false} KeptIn(st: seq<Instr>, n: nat, k: nat) returns (i: nat)
    requires n <= |st| && k < |KeptUpTo(st, n)|
    ensures i < n && st[i] == KeptUpTo(st, n)[k]
    decreases n
  {
    if k < |KeptUpTo(st, n - 1)| { i := KeptIn(st, n - 1, k); } else { i := n - 1; }
  }

  /** A jump target's first instruction is where the value-level translation sends the jump. */
  lemma FirstIsLabelPc(blocks: seq<nat>, h: History, st: seq<Instr>, info: seq<BlockInfo>, i: nat)
    requires st == Unsplit(blocks, h) && InfoOk(info, blocks) && StartsOk(info, blocks, h, |blocks|)
    requires Translatable(st) && i < |st| && HasTarget(st[i])
    ensures st[i].target < |info| && info[st[i].target].firstInstr == LabelPc(st, st[i].target)
  {
    var j := TargetIsBlock(blocks, h, i, st, info);
    BlockAt(blocks, h, j, st, Offset(blocks, h, j), Content(h, blocks[j]));
    FindUnique(st, Offset(blocks, h, j), blocks[j]);
    hide Unsplit, Offset, Content, PcOf, InfoOk, UniqueLabels, JumpsLast;
  }

  /** An instruction that may still need patching. */
  ghost predicate Shaped(a: Bc<BcProc?>, i: Instr) {
    match i
    case Jmp(_) => a.Goto?
    case Jmpz(c, _) => a.GotoZ? && a.cond == c
    case Jmpnz(c, _) => a.GotoNz? && a.cond == c
    case Call(_) => a.Enter?
    case _ => a == Draft(i)
  }

  function WithPc(a: Bc<BcProc?>, pc: nat): Bc<BcProc?> {
    match a
    case Goto(_) => Goto(pc)
    case GotoZ(c, _) => GotoZ(c, pc)
    case GotoNz(c, _) => GotoNz(c, pc)
    case _ => a
  }

  /** The first n patches are in place. */
  ghost predicate Patched(code: seq<Bc<BcProc?>>, kept: seq<Instr>, relocs: seq<Reloc>, n: nat, st: seq<Instr>, procs: seq<BcProc?>)
    requires n <= |relocs|
  {
    && |code| == |kept|
    && (forall k | 0 <= k < |code| :: Shaped(code[k], kept[k]))
    && forall r | 0 <= r < n ::
         var k := relocs[r].instrIndex;
         k < |code| && Points(code[k], Final(st, kept[k]), procs)
  }

  lemma PatchedNone(code: seq<Bc<BcProc?>>, kept: seq<Instr>, relocs: seq<Reloc>, st: seq<Instr>, procs: seq<BcProc?>)
    requires code == Drafts(kept)
    ensures Patched(code, kept, relocs, 0, st, procs)
  {}

  lemma PatchedMore(code: seq<Bc<BcProc?>>, kept: seq<Instr>, relocs: seq<Reloc>, n: nat, st: seq<Instr>, procs: seq<BcProc?>,
                    x: Bc<BcProc?>)
    requires n < |relocs| && Patched(code, kept, relocs, n, st, procs) && relocs[n].instrIndex < |code|
    requires Shaped(x, kept[relocs[n].instrIndex])
    requires Points(x, Final(st, kept[relocs[n].instrIndex]), procs)
    ensures Patched(code[relocs[n].instrIndex := x], kept, relocs, n + 1, st, procs)
  {
    hide Shaped, Points, Final;
  }

  lemma PatchedAll(code: seq<Bc<BcProc?>>, kept: seq<Instr>, relocs: seq<Reloc>, st: seq<Instr>, procs: seq<BcProc?>)
    requires Patched(code, kept, relocs, |relocs|, st, procs) && RelocsOk(relocs, kept)
    requires kept == KeptUpTo(st, |st|)
    ensures AllPoint(code, BcOf(st), procs)
  {
    forall k | 0 <= k < |kept| ensures Points(code[k], Final(st, kept[k]), procs) {
      if NeedsReloc(kept[k]) {
        var r :| 0 <= r < |relocs| && relocs[r].instrIndex == k;
      } else {
        ShapedPoints(code[k], kept, k, st, procs);
      }
    }
    hide Points, Shaped, Final;
  }

  lemma ShapedPoints(a: Bc<BcProc?>, kept: seq<Instr>, k: nat, st: seq<Instr>, procs: seq<BcProc?>)
    requires k < |kept| && Shaped(a, kept[k]) && !NeedsReloc(kept[k])
    ensures Points(a, Final(st, kept[k]), procs)
  {}

  /** Every patch goes to the instruction it was noted for. */
  method Patch(bc: BcProc, relocs: seq<Reloc>, info: seq<BlockInfo>, procs: seq<BcProc?>,
               ghost blocks: seq<nat>, ghost h: History, ghost st: seq<Instr>)
    requires st == Unsplit(blocks, h) && Translatable(st)
    requires InfoOk(info, blocks) && StartsOk(info, blocks, h, |blocks|)
    requires bc.instrs == Drafts(KeptUpTo(st, |st|)) && RelocsOk(relocs, KeptUpTo(st, |st|))
    requires forall r | 0 <= r < |relocs| && relocs[r].RelocProc? :: relocs[r].proc < |procs| && procs[relocs[r].proc] != null
    modifies bc
    ensures AllPoint(bc.instrs, BcOf(st), procs)
  {
    hide Unsplit, KeptUpTo, Translatable, InfoOk, StartsOk, Patched, AllPoint, BcOf, LabelPc;
    ghost var kept := KeptUpTo(st, |st|);
    PatchedNone(bc.instrs, kept, relocs, st, procs);
    var n := 0;
    while n < |relocs|
      invariant 0 <= n <= |relocs|
      invariant |bc.instrs| == |kept| && Patched(bc.instrs, kept, relocs, n, st, procs)
    {
      var r := relocs[n];
      ghost var code := bc.instrs;
      ShapedAt(code, kept, relocs, n, st, procs);
      match r {
        case RelocBlock(k, target) =>
          ghost var i := KeptIn(st, |st|, k);
          FirstIsLabelPc(blocks, h, st, info, i);
          ghost var a := bc.instrs[k];
          bc.instrs := bc.instrs[k := WithPc(bc.instrs[k], info[target].firstInstr)];
          PatchedJump(a, st, kept[k], info[target].firstInstr, procs);
        case RelocProc(k, q) =>
          bc.instrs := bc.instrs[k := Bc.Enter(procs[q])];
      }
      PatchedMore(code, kept, relocs, n, st, procs, bc.instrs[r.instrIndex]);
      n := n + 1;
    }
    PatchedAll(bc.instrs, kept, relocs, st, procs);
  }

  lemma PatchedJump(a: Bc<BcProc?>, st: seq<Instr>, i: Instr, pc: nat, procs: seq<BcProc?>)
    requires HasTarget(i) && Shaped(a, i) && pc == LabelPc(st, i.target)
    ensures Shaped(WithPc(a, pc), i) && Points(WithPc(a, pc), Final(st, i), procs)
  {}

  lemma ShapedAt(code: seq<Bc<BcProc?>>, kept: seq<Instr>, relocs: seq<Reloc>, n: nat, st: seq<Instr>, procs: seq<BcProc?>)
    requires n < |relocs| && Patched(code, kept, relocs, n, st, procs) && RelocsOk(relocs, kept)
    ensures relocs[n].instrIndex < |code| && Shaped(code[relocs[n].instrIndex], kept[relocs[n].instrIndex])
  {
    hide Shaped;
  }

  // --- What a context holds ---

  type ProcTable = seq<BcProc?>

  predicate Has(procs: ProcTable, q: nat) { q < |procs| && procs[q] != null }

  /** The bytecode of each proc in a table. */
  ghost function CodesOf(procs: ProcTable): (codes: seq<seq<Bc<BcProc?>>>)
    reads procs
    ensures |codes| == |procs|
    ensures forall q | 0 <= q < |procs| && procs[q] != null :: codes[q] == procs[q].instrs
  {
    seq(|procs|, q requires 0 <= q < |procs| reads procs => if procs[q] != null then procs[q].instrs else [])
  }

  /** The procs below n that have no place yet. */
  ghost function Absent(procs: ProcTable, n: nat): set<nat> { set q | 0 <= q < n && !Has(procs, q) }

  lemma GrowsTaken(a: ProcTable, b: ProcTable, c: ProcTable, p: nat)
    requires Grows(a, b) && p < |b| == |c| && b[p] == null && forall q | 0 <= q < |b| && q != p :: c[q] == b[q]
    ensures Grows(a, c)
  {}

  lemma GrowsTwice(a: ProcTable, b: ProcTable, c: ProcTable)
    requires Grows(a, b) && Grows(b, c)
    ensures Grows(a, c)
  {}

  lemma TakenLess(a: ProcTable, b: ProcTable, p: nat, n: nat)
    requires p < n && p < |a| && a[p] == null && |b| == |a| && b[p] != null
    requires forall q | 0 <= q < |a| && q != p :: b[q] == a[q]
    ensures Absent(b, n) < Absent(a, n)
  {
    assert p in Absent(a, n) && p !in Absent(b, n);
  }

  /** Nothing that was there is replaced. */
  ghost predicate Grows(a: ProcTable, b: ProcTable) {
    |a| <= |b| && forall q | 0 <= q < |a| && a[q] != null :: b[q] == a[q]
  }

  ghost predicate Distinct(procs: ProcTable) {
    forall q, r | 0 <= q < r < |procs| && procs[q] != null :: procs[q] != procs[r]
  }

  /** Finished bytecode of a stream: it points where it should, and every symbol it needs has an address. */
  ghost predicate Sound(code: seq<Bc<BcProc?>>, st: seq<Instr>, procs: ProcTable, natives: set<nat>) {
    AllPoint(code, BcOf(st), procs) && Known(st, natives)
  }

  lemma SoundGrows(code: seq<Bc<BcProc?>>, st: seq<Instr>, a: ProcTable, b: ProcTable, natives: set<nat>)
    requires Sound(code, st, a, natives) && Grows(a, b)
    ensures Sound(code, st, b, natives)
  {
    var bc := BcOf(st);
    hide BcOf, Known;
    forall k | 0 <= k < |bc| ensures Points(code[k], bc[k], b) {
      assert Points(code[k], bc[k], a);
    }
  }

  /** A chain of calls: the stream of each proc calls the next one. */
  ghost predicate Chain(code: Code, qs: seq<nat>) {
    |qs| > 0 && forall k | 0 <= k < |qs| - 1 :: qs[k] < |code| && Call(qs[k + 1]) in code[qs[k]]
  }

  /** A proc can be run: every proc a chain of calls leads to is there, and wherever its stream calls or mentions an
      extern symbol, that symbol has an address. */
  ghost predicate Resolvable(code: Code, natives: set<nat>, p: nat) {
    forall qs: seq<nat> | Chain(code, qs) && qs[0] == p ::
      var q := qs[|qs| - 1];
      && q < |code|
      && (forall s | Ext(s) in code[q] :: s in natives)
      && (forall a, s | DoWith(a, s) in code[q] :: s in natives)
  }

  lemma ResolvableCallee(code: Code, natives: set<nat>, p: nat, i: nat)
    requires Resolvable(code, natives, p) && p < |code| && i < |code[p]| && code[p][i].Call?
    ensures Resolvable(code, natives, code[p][i].p)
  {
    forall qs: seq<nat> | Chain(code, qs) && qs[0] == code[p][i].p
      ensures qs[|qs| - 1] < |code| && Known(code[qs[|qs| - 1]], natives)
    {
      var longer := [p] + qs;
      assert code[p][i] in code[p];
      assert forall k | 0 <= k < |longer| - 1 :: longer[k + 1] == qs[k];
      assert Chain(code, longer) && longer[0] == p && longer[|longer| - 1] == qs[|qs| - 1];
    }
  }

  lemma ReferencedResolvable(code: Code, natives: set<nat>, p: nat, referenced: seq<nat>)
    requires Resolvable(code, natives, p) && p < |code|
    requires forall k | 0 <= k < |referenced| :: Call(referenced[k]) in code[p]
    ensures forall k | 0 <= k < |referenced| :: Resolvable(code, natives, referenced[k])
  {
    hide Resolvable;
    forall k | 0 <= k < |referenced| ensures Resolvable(code, natives, referenced[k]) {
      var i :| 0 <= i < |code[p]| && code[p][i] == Call(referenced[k]);
      ResolvableCallee(code, natives, p, i);
    }
  }

  lemma ResolvableSelf(code: Code, natives: set<nat>, p: nat)
    requires Resolvable(code, natives, p)
    ensures p < |code| && Known(code[p], natives)
  {
    assert Chain(code, [p]);
  }

  /** A call in the stream is an entry in the bytecode. */
  lemma CallsEntered(code: seq<Bc<BcProc?>>, st: seq<Instr>, procs: ProcTable, natives: set<nat>, i: nat)
    requires Sound(code, st, procs, natives) && i < |st| && st[i].Call?
    ensures Has(procs, st[i].p)
  {
    BcAt(st, i);
    hide BcOf, PcOf, Known;
    assert Points(code[PcOf(st, i)], BcOf(st)[PcOf(st, i)], procs);
  }

  /** Everything in the table that nobody is still working on is finished. */
  ghost predicate TableOk(procs: ProcTable, codes: seq<seq<Bc<BcProc?>>>, code: Code, natives: set<nat>, busy: set<nat>) {
    && Distinct(procs) && |codes| == |procs|
    && forall q | 0 <= q < |procs| && procs[q] != null && q !in busy ::
         q < |code| && Sound(codes[q], code[q], procs, natives)
  }

  /** A chain of calls never leaves a finished table. */
  lemma {:induction false} ChainInside(procs: ProcTable, codes: seq<seq<Bc<BcProc?>>>, code: Code, natives: set<nat>, qs: seq<nat>)
    requires TableOk(procs, codes, code, natives, {}) && Chain(code, qs) && Has(procs, qs[0])
    ensures var q := qs[|qs| - 1]; Has(procs, q) && q < |code| && Sound(codes[q], code[q], procs, natives) && Known(code[q], natives)
    decreases |qs|
  {
    hide AllPoint, BcOf, Known;
    if |qs| > 1 {
      var upto := qs[..|qs| - 1];
      var q, r := qs[|qs| - 2], qs[|qs| - 1];
      assert Chain(code, upto) && upto[0] == qs[0] && upto[|upto| - 1] == q;
      ChainInside(procs, codes, code, natives, upto);
      assert qs[|qs| - 2 + 1] == r && Call(r) in code[q];
      var i :| 0 <= i < |code[q]| && code[q][i] == Call(r);
      CallsEntered(codes[q], code[q], procs, natives, i);
    }
  }

  lemma SettledResolvable(procs: ProcTable, codes: seq<seq<Bc<BcProc?>>>, code: Code, natives: set<nat>, p: nat)
    requires TableOk(procs, codes, code, natives, {}) && Has(procs, p)
    ensures Resolvable(code, natives, p)
  {
    hide TableOk, Sound;
    forall qs: seq<nat> | Chain(code, qs) && qs[0] == p
      ensures qs[|qs| - 1] < |code| && Known(code[qs[|qs| - 1]], natives)
    {
      ChainInside(procs, codes, code, natives, qs);
    }
  }

  lemma {:induction false} BlocksBounded(h: History, n: nat, p: nat)
    requires Bounded(h, n)
    ensures forall k | 0 <= k < |Blocks(h, p)| :: Blocks(h, p)[k] < n
    decreases |h|
  {
    if h != [] { BlocksBounded(h[..|h| - 1], n, p); }
  }

  class RunCtx {
    const ir: Program
    const natives: set<nat>   // extern symbols with an address
    const ffi: nat
    var procs: ProcTable

    constructor (ir: Program, natives: set<nat>, ffi: nat)
      requires ir.Valid()
      ensures this.ir == ir && this.natives == natives && this.ffi == ffi && procs == []
    {
      this.ir, this.natives, this.ffi, procs := ir, natives, ffi, [];
    }

    /** Translated procs have their proc's frame. */
    ghost predicate Framed()
      reads this, ir
    {
      forall q | 0 <= q < |procs| && procs[q] != null ::
        q < |ir.procs| && procs[q].id == q && procs[q].ffi == ffi &&
        procs[q].frameSize == ir.procs[q].frame.size && procs[q].frameAlign == ir.procs[q].frame.align
    }

    /** The streams the program stores. */
    ghost function Code(): (code: Code)
      reads ir
      ensures |code| == |ir.procs|
      ensures forall p | 0 <= p < |code| :: code[p] == Unsplit(ir.procs[p].blocks, ir.hist)
    {
      seq(|ir.procs|, p requires 0 <= p < |ir.procs| reads ir => Unsplit(ir.procs[p].blocks, ir.hist))
    }

    ghost predicate Loaded()
      reads ir
    {
      && ir.Valid()
      && AllTranslatable(Code())
      && forall p, i | 0 <= p < |Code()| && 0 <= i < |Code()[p]| && Code()[p][i].Call? :: Code()[p][i].p < |Code()|
    }

    ghost function Codes(): (codes: seq<seq<Bc<BcProc?>>>)
      reads this, procs
      ensures |codes| == |procs|
      ensures forall q | 0 <= q < |procs| && procs[q] != null :: codes[q] == procs[q].instrs
    {
      CodesOf(procs)
    }

    ghost predicate Ok(busy: set<nat>)
      reads this, ir, procs
    {
      TableOk(procs, Codes(), Code(), natives, busy)
    }

    ghost function Untranslated(): set<nat>
      reads this, ir
    {
      Absent(procs, |ir.procs|)
    }

    /** Room in the table for a proc. */
    method Reserve(p: nat, ghost busy: set<nat>)
      requires p < |procs| || Ok(busy)
      modifies `procs
      ensures old(Ok(busy)) ==> Ok(busy)
      ensures old(Framed()) ==> Framed()
      ensures Grows(old(procs), procs) && Untranslated() == old(Untranslated())
      ensures p < |procs| && old(procs) <= procs
      ensures forall q | old(|procs|) <= q < |procs| :: procs[q] == null
    {
      while p >= |procs|
        invariant old(procs) <= procs && (old(Ok(busy)) ==> Ok(busy))
        invariant p < |procs| || Ok(busy)
        invariant old(Framed()) ==> Framed()
        invariant forall q | old(|procs|) <= q < |procs| :: procs[q] == null
        decreases p + 1 - |procs|
      {
        ghost var codes := Codes();
        TableLonger(procs, codes, Code(), natives, busy);
        procs := procs + [null];
        assert Codes() == codes + [[]];
      }
    }

    lemma LoadedAt(p: nat)
      requires Loaded() && p < |ir.procs|
      ensures ir.Valid() && Code()[p] == Unsplit(ir.procs[p].blocks, ir.hist) && Translatable(Code()[p])
      ensures UniqueLabels(Code()[p])
      ensures forall k | 0 <= k < |ir.procs[p].blocks| :: ir.procs[p].blocks[k] < |ir.blocks|
    {
      BlocksBounded(ir.hist, |ir.blocks|, p);
    }

    /** The instructions of a proc, not yet patched. */
    method DraftProc(p: nat, bc: BcProc) returns (ok: bool, job: Job, info: seq<BlockInfo>)
      requires Loaded() && p < |ir.procs| && bc.instrs == []
      modifies bc
      ensures fresh(job) && job.bc == bc && job.natives == natives
      ensures ok ==> InfoOk(info, ir.procs[p].blocks) && StartsOk(info, ir.procs[p].blocks, ir.hist, |ir.procs[p].blocks|)
      ensures ok ==> Produced(job.Out(), natives, Code()[p], |Code()[p]|)
      ensures !ok ==> !Known(Code()[p], natives)
    {
      LoadedAt(p);
      hide Unsplit, Loaded, Program.Valid, UniqueLabels, Translatable, StartsOk, InfoOk, Produced, Built, Known;
      job := new Job(natives, bc);
      info := FillInfo(ir.procs[p].blocks, ir.hist);
      ok, info := TranslateBlocks(job, ir, ir.procs[p].blocks, info);
    }

    /** Translate a proc and everything it references, once. Its place is taken before its references are
        followed, so cycles end there. */
    method TranslateProc(p: nat, ghost busy: set<nat>) returns (ok: bool)
      requires Loaded() && p < |ir.procs| && (Has(procs, p) || Ok(busy))
      modifies `procs
      decreases Untranslated(), 0
      ensures Grows(old(procs), procs) && Has(procs, p) && (old(Framed()) ==> Framed())
      ensures old(Has(procs, p)) ==> ok
      ensures ok && old(Ok(busy)) ==> Ok(busy)
      ensures Resolvable(Code(), natives, p) ==> ok
    {
      hide TableOk, Sound, Known, Loaded, InfoOk, StartsOk, Produced, Resolvable, Unsplit, Absent, RunCtx.Framed;
      Reserve(p, busy);
      if procs[p] != null {
        return true;
      }
      ghost var table := procs;
      var bc := TakePlace(p, busy);
      TakenLess(table, procs, p, |ir.procs|);
      GrowsTaken(old(procs), table, procs, p);
      ghost var codes := Codes();
      var job, info;
      ok, job, info := DraftProc(p, bc);
      DistinctOk(procs, codes, Code(), natives, busy + {p});
      BusyChanged(procs, codes, Codes(), Code(), natives, busy, p);
      if !ok {
        if Resolvable(Code(), natives, p) { ResolvableSelf(Code(), natives, p); }
        return false;
      }
      ghost var taken := procs;
      ok := Link(p, bc, job, info, busy);
      GrowsTwice(old(procs), taken, procs);
    }

    /** A new, empty bytecode proc in its place, which is then in progress. */
    method TakePlace(p: nat, ghost busy: set<nat>) returns (bc: BcProc)
      requires p < |ir.procs| && p < |procs| && procs[p] == null && Ok(busy)
      modifies `procs
      ensures fresh(bc) && bc.instrs == [] && procs == old(procs)[p := bc]
      ensures Ok(busy + {p}) && (old(Framed()) ==> Framed())
    {
      hide TableOk;
      ghost var codes := Codes();
      bc := new BcProc(p, ffi, ir.procs[p].frame.size, ir.procs[p].frame.align);
      procs := procs[p := bc];
      PlaceTaken(old(procs), codes, Code(), natives, busy, p, bc, procs, Codes());
    }

    /** From a context in which everything is finished, a proc can be translated exactly when everything it can
        reach is there, and then everything is finished again. */
    method Load(p: nat) returns (ok: bool)
      requires Loaded() && p < |ir.procs| && Ok({})
      modifies `procs
      ensures Grows(old(procs), procs) && Has(procs, p) && (old(Framed()) ==> Framed())
      ensures ok <==> Resolvable(Code(), natives, p)
      ensures ok ==> Ok({}) && Sound(procs[p].instrs, Code()[p], procs, natives)
    {
      ok := TranslateProc(p, {});
      hide Sound, Resolvable, Loaded;
      if ok { SettledResolvable(procs, Codes(), Code(), natives, p); }
    }

    /** A proc whose translation failed keeps its place in the table, so asking again reports success, although the
        table holds bytecode that is not finished. */
    method LoadTwice(p: nat) returns (first: bool, second: bool)
      requires Loaded() && p < |ir.procs| && Ok({})
      modifies `procs
      ensures first <==> Resolvable(Code(), natives, p)
      ensures second && (Ok({}) <==> first)
    {
      first := Load(p);
      second := TranslateProc(p, {});
      hide Sound, Resolvable, Loaded;
      if Ok({}) { SettledResolvable(procs, Codes(), Code(), natives, p); }
    }

    /** Translate what a drafted proc references, then patch it. */
    method Link(p: nat, bc: BcProc, job: Job, info: seq<BlockInfo>, ghost busy: set<nat>) returns (ok: bool)
      requires Loaded() && p < |ir.procs| && Has(procs, p) && procs[p] == bc == job.bc && Ok(busy + {p})
      requires InfoOk(info, ir.procs[p].blocks) && StartsOk(info, ir.procs[p].blocks, ir.hist, |ir.procs[p].blocks|)
      requires Produced(job.Out(), natives, Code()[p], |Code()[p]|)
      modifies `procs, bc
      decreases Untranslated(), 2
      ensures Grows(old(procs), procs) && (old(Framed()) ==> Framed())
      ensures ok ==> Ok(busy)
      ensures Resolvable(Code(), natives, p) ==> ok
    {
      hide TableOk, Sound, Known, InfoOk, StartsOk, Produced, Resolvable, Unsplit, BcOf, Drafts, KeptUpTo, RelocsOk, AllPoint, Translatable;
      ghost var st, out := Code()[p], job.Out();
      LoadedAt(p);
      ReferencedCalled(out, natives, st);
      CallsInside(p, job.referenced);
      hide Loaded;
      if Resolvable(Code(), natives, p) { ReferencedResolvable(Code(), natives, p, job.referenced); }
      ok := TranslateAll(job.referenced, busy + {p});
      if !ok {
        return false;
      }
      ghost var codes := Codes();
      DraftedRelocs(out, natives, st, procs);
      Patch(bc, job.relocs, info, procs, ir.procs[p].blocks, ir.hist, st);
      DistinctOk(procs, codes, Code(), natives, busy + {p});
      BusyChanged(procs, codes, Codes(), Code(), natives, busy, p);
      SoundIs(bc.instrs, st, procs, natives);
      PlaceDone(procs, Codes(), Code(), natives, busy, p);
    }

    lemma CallsInside(p: nat, referenced: seq<nat>)
      requires Loaded() && p < |ir.procs| && forall k | 0 <= k < |referenced| :: Call(referenced[k]) in Code()[p]
      ensures forall k | 0 <= k < |referenced| :: referenced[k] < |ir.procs|
    {
      hide Unsplit;
      forall k | 0 <= k < |referenced| ensures referenced[k] < |ir.procs| {
        var st := Code()[p];
        assert Call(referenced[k]) in st;
        var i :| 0 <= i < |st| && st[i] == Call(referenced[k]);
      }
    }

    /** Each referenced proc in turn, until one fails. */
    method TranslateAll(referenced: seq<nat>, ghost busy: set<nat>) returns (ok: bool)
      requires Loaded() && Ok(busy) && forall k | 0 <= k < |referenced| :: referenced[k] < |ir.procs|
      modifies `procs
      decreases Untranslated(), 1
      ensures Grows(old(procs), procs) && (old(Framed()) ==> Framed())
      ensures ok ==> Ok(busy) && forall k | 0 <= k < |referenced| :: Has(procs, referenced[k])
      ensures !ok ==> exists k | 0 <= k < |referenced| :: !Resolvable(Code(), natives, referenced[k])
    {
      ghost var missing := Untranslated();
      hide Loaded, Ok, Resolvable;
      var k := 0;
      while k < |referenced|
        invariant 0 <= k <= |referenced|
        invariant Ok(busy) && Grows(old(procs), procs) && Untranslated() <= missing
        invariant old(Framed()) ==> Framed()
        invariant forall j | 0 <= j < k :: Has(procs, referenced[j])
      {
        ghost var before := procs;
        ok := TranslateProc(referenced[k], busy);
        if !ok {
          return false;
        }
        k := k + 1;
      }
      return true;
    }
  }

  lemma DistinctOk(procs: ProcTable, codes: seq<seq<Bc<BcProc?>>>, code: Code, natives: set<nat>, busy: set<nat>)
    requires TableOk(procs, codes, code, natives, busy)
    ensures Distinct(procs) && |codes| == |procs|
  {}

  lemma SoundIs(code: seq<Bc<BcProc?>>, st: seq<Instr>, procs: ProcTable, natives: set<nat>)
    requires AllPoint(code, BcOf(st), procs) && Known(st, natives)
    ensures Sound(code, st, procs, natives)
  {}

  lemma ReferencedCalled(out: Output, natives: set<nat>, st: seq<Instr>)
    requires Produced(out, natives, st, |st|)
    ensures forall k | 0 <= k < |out.referenced| :: Call(out.referenced[k]) in st
  {
    var kept := KeptUpTo(st, |st|);
    hide KeptUpTo, RelocsOk;
    forall k | 0 <= k < |out.referenced| ensures Call(out.referenced[k]) in st {
      assert out.referenced[k] in out.referenced;
      var j :| 0 <= j < |kept| && kept[j] == Call(out.referenced[k]);
      var i := KeptIn(st, |st|, j);
    }
  }

  /** A finished draft: every call in it is to something referenced, and every symbol has an address. */
  lemma DraftedRelocs(out: Output, natives: set<nat>, st: seq<Instr>, procs: ProcTable)
    requires Produced(out, natives, st, |st|)
    requires forall k | 0 <= k < |out.referenced| :: Has(procs, out.referenced[k])
    ensures out.code == Drafts(KeptUpTo(st, |st|)) && RelocsOk(out.relocs, KeptUpTo(st, |st|))
    ensures forall r | 0 <= r < |out.relocs| && out.relocs[r].RelocProc? :: Has(procs, out.relocs[r].proc)
    ensures Known(st, natives)
  {
    var kept := KeptUpTo(st, |st|);
    forall r | 0 <= r < |out.relocs| && out.relocs[r].RelocProc? ensures Has(procs, out.relocs[r].proc) {
      var k := out.relocs[r].instrIndex;
      assert kept[k].p in out.referenced;
    }
    KeptKnown(st, natives);
  }

  /** Nothing that mentions a symbol is dropped. */
  lemma KeptKnown(st: seq<Instr>, natives: set<nat>)
    requires Known(KeptUpTo(st, |st|), natives)
    ensures Known(st, natives)
  {
    var kept := KeptUpTo(st, |st|);
    forall i | 0 <= i < |st| && (st[i].DoWith? || st[i].Ext?) ensures st[i] in kept {
      KeptPrefix(st, i, |st|);
      assert kept[PcOf(st, i)] == st[i];
    }
  }

  /** Taking a place makes it a place in progress. */
  lemma PlaceTaken(procs: ProcTable, codes: seq<seq<Bc<BcProc?>>>, code: Code, natives: set<nat>, busy: set<nat>,
                   p: nat, bc: BcProc, procs': ProcTable, codes': seq<seq<Bc<BcProc?>>>)
    requires TableOk(procs, codes, code, natives, busy)
    requires p < |procs| && procs[p] == null && bc !in procs && procs' == procs[p := bc]
    requires |codes'| == |codes| && forall q | 0 <= q < |codes| && q != p && procs[q] != null :: codes'[q] == codes[q]
    ensures TableOk(procs', codes', code, natives, busy + {p})
  {
    hide Sound;
    forall q | 0 <= q < |procs'| && procs'[q] != null && q !in busy + {p}
      ensures q < |code| && Sound(codes'[q], code[q], procs', natives)
    {
      SoundGrows(codes[q], code[q], procs, procs', natives);
    }
  }

  /** What is in progress may change. */
  lemma BusyChanged(procs: ProcTable, codes: seq<seq<Bc<BcProc?>>>, codes': seq<seq<Bc<BcProc?>>>, code: Code,
                    natives: set<nat>, busy: set<nat>, p: nat)
    requires TableOk(procs, codes, code, natives, busy + {p}) && |codes'| == |codes|
    requires forall q | 0 <= q < |codes| && q != p && procs[q] != null :: codes'[q] == codes[q]
    ensures TableOk(procs, codes', code, natives, busy + {p})
  {
    hide Sound;
  }

  lemma PlaceDone(procs: ProcTable, codes: seq<seq<Bc<BcProc?>>>, code: Code, natives: set<nat>, busy: set<nat>, p: nat)
    requires TableOk(procs, codes, code, natives, busy + {p}) && Has(procs, p)
    requires p < |code| && Sound(codes[p], code[p], procs, natives)
    ensures TableOk(procs, codes, code, natives, busy)
  {
    hide Sound;
  }

  lemma TableLonger(procs: ProcTable, codes: seq<seq<Bc<BcProc?>>>, code: Code, natives: set<nat>, busy: set<nat>)
    requires TableOk(procs, codes, code, natives, busy)
    ensures TableOk(procs + [null], codes + [[]], code, natives, busy)
  {
    var procs', codes' := procs + [null], codes + [[]];
    forall q | 0 <= q < |procs'| && procs'[q] != null && q !in busy ensures q < |code| && Sound(codes'[q], code[q], procs', natives) {
      SoundGrows(codes[q], code[q], procs, procs', natives);
    }
  }
}
