/** Translating procs to bytecode on demand: flatten, remember what must be patched, translate what is
    referenced, patch. */
module Translator {
  import opened Ir
  import opened Storage
  import opened IrProgram
  import T = Trees
  import opened Machine
  import opened Bytecode

  // --- Positions in a proc's stream ---

  function Offset(blocks: seq<nat>, h: History, bi: nat): nat
    requires bi <= |blocks|
  {
    |Unsplit(blocks[..bi], h)|
  }

  lemma {:induction false} UnsplitPrefix(blocks: seq<nat>, h: History, bi: nat)
    requires bi <= |blocks|
    ensures Unsplit(blocks[..bi], h) <= Unsplit(blocks, h)
    decreases |blocks|
  {
    if bi == |blocks| {
      assert blocks[..bi] == blocks;
    } else {
      var init := blocks[..|blocks| - 1];
      UnsplitPrefix(init, h, bi);
      assert init[..bi] == blocks[..bi];
    }
  }

  lemma UnsplitNext(blocks: seq<nat>, h: History, bi: nat)
    requires bi < |blocks|
    ensures Unsplit(blocks[..bi + 1], h) == Unsplit(blocks[..bi], h) + [Label(blocks[bi])] + Content(h, blocks[bi])
  {
    var upto := blocks[..bi + 1];
    assert upto[..bi] == blocks[..bi] && upto[bi] == blocks[bi];
    hide Content;
  }

  /** Block bi of the stream: its label, then its content. */
  lemma BlockAt(blocks: seq<nat>, h: History, bi: nat, st: seq<Instr>, o: nat, c: seq<Instr>)
    requires bi < |blocks| && st == Unsplit(blocks, h) && o == Offset(blocks, h, bi) && c == Content(h, blocks[bi])
    ensures Offset(blocks, h, bi + 1) == o + 1 + |c| <= |st|
    ensures st[o] == Label(blocks[bi])
    ensures st[o + 1..o + 1 + |c|] == c
  {
    hide *;
    OffsetIs(blocks, h, bi);
    OffsetIs(blocks, h, bi + 1);
    UnsplitPrefix(blocks, h, bi + 1);
    UnsplitNext(blocks, h, bi);
    PiecesAt(Unsplit(blocks[..bi], h), Label(blocks[bi]), c, st);
  }

  lemma OffsetIs(blocks: seq<nat>, h: History, bi: nat)
    requires bi <= |blocks|
    ensures Offset(blocks, h, bi) == |Unsplit(blocks[..bi], h)|
  {}

  lemma PiecesAt(before: seq<Instr>, i: Instr, c: seq<Instr>, st: seq<Instr>)
    requires before + [i] + c <= st
    ensures |before| + 1 + |c| <= |st| && st[|before|] == i
    ensures st[|before| + 1..|before| + 1 + |c|] == c
  {
    var part := before + [i] + c;
    assert st[..|part|] == part;
    assert st[|before|] == part[|before|];
    assert part[|before| + 1..] == c;
    assert st[..|part|][|before| + 1..] == st[|before| + 1..|part|];
  }

  lemma OffsetEnd(blocks: seq<nat>, h: History)
    ensures Offset(blocks, h, |blocks|) == |Unsplit(blocks, h)|
  {
    assert blocks[..|blocks|] == blocks;
  }

  lemma {:induction false} ContentHasNoLabels(h: History, b: nat, k: nat)
    requires k < |Content(h, b)|
    ensures !Content(h, b)[k].Label? && !Dropped(Content(h, b)[k])
    decreases |h|
  {
    var before := h[..|h| - 1];
    if k < |Content(before, b)| { ContentHasNoLabels(before, b, k); }
  }

  lemma NextSkip(st: seq<Instr>, i: nat)
    ensures i >= |st| ==> NextLabel(st, i) == None
    ensures i < |st| && st[i].Label? ==> NextLabel(st, i) == Some(st[i].id)
    ensures i < |st| && !st[i].Label? ==> NextLabel(st, i) == NextLabel(st, i + 1)
  {}

  lemma SliceAt(st: seq<Instr>, lo: nat, c: seq<Instr>, k: nat)
    requires k < |c| && lo + |c| <= |st| && st[lo..lo + |c|] == c
    ensures st[lo + k] == c[k]
  {
    assert st[lo..lo + |c|][k] == st[lo + k];
  }

  /** No label in between: the next label is the same. */
  lemma {:induction false} NextAcross(st: seq<Instr>, i: nat, n: nat)
    requires i <= n <= |st| && forall k | i <= k < n :: !st[k].Label?
    ensures NextLabel(st, i) == NextLabel(st, n)
    decreases n - i
  {
    if i < n { NextAcross(st, i + 1, n); }
  }

  /** Inside a block, the next label is the next block's. */
  lemma NextInBlock(blocks: seq<nat>, h: History, bi: nat, k: nat, st: seq<Instr>, o: nat, c: seq<Instr>)
    requires bi < |blocks| && st == Unsplit(blocks, h) && o == Offset(blocks, h, bi) && c == Content(h, blocks[bi])
    requires k <= |c|
    ensures NextLabel(st, o + 1 + k) == if bi + 1 < |blocks| then Some(blocks[bi + 1]) else None
  {
    hide *;
    NoLabelsInside(blocks, h, bi, st, o, c);
    LabelAfter(blocks, h, bi, st, o, c);
    NextAcross(st, o + 1 + k, o + 1 + |c|);
  }

  lemma NoLabelsInside(blocks: seq<nat>, h: History, bi: nat, st: seq<Instr>, o: nat, c: seq<Instr>)
    requires bi < |blocks| && st == Unsplit(blocks, h) && o == Offset(blocks, h, bi) && c == Content(h, blocks[bi])
    ensures o + 1 + |c| <= |st| && forall j | o + 1 <= j < o + 1 + |c| :: !st[j].Label?
  {
    BlockAt(blocks, h, bi, st, o, c);
    hide *;
    forall k | 0 <= k < |c| ensures !c[k].Label? { ContentHasNoLabels(h, blocks[bi], k); }
    SliceNoLabels(st, o + 1, c);
  }

  lemma SliceNoLabels(st: seq<Instr>, lo: nat, c: seq<Instr>)
    requires lo + |c| <= |st| && st[lo..lo + |c|] == c && forall k | 0 <= k < |c| :: !c[k].Label?
    ensures forall j | lo <= j < lo + |c| :: !st[j].Label?
  {
    forall j | lo <= j < lo + |c| ensures !st[j].Label? { assert st[j] == st[lo..lo + |c|][j - lo]; }
  }

  lemma LabelAfter(blocks: seq<nat>, h: History, bi: nat, st: seq<Instr>, o: nat, c: seq<Instr>)
    requires bi < |blocks| && st == Unsplit(blocks, h) && o == Offset(blocks, h, bi) && c == Content(h, blocks[bi])
    ensures NextLabel(st, o + 1 + |c|) == if bi + 1 < |blocks| then Some(blocks[bi + 1]) else None
  {
    hide *;
    OffsetNext(blocks, h, bi, st, o, c);
    NextSkip(st, o + 1 + |c|);
    if bi + 1 < |blocks| {
      LabelHere(blocks, h, bi + 1, st, o + 1 + |c|);
    } else {
      OffsetEnd(blocks, h);
    }
  }

  lemma OffsetNext(blocks: seq<nat>, h: History, bi: nat, st: seq<Instr>, o: nat, c: seq<Instr>)
    requires bi < |blocks| && st == Unsplit(blocks, h) && o == Offset(blocks, h, bi) && c == Content(h, blocks[bi])
    ensures Offset(blocks, h, bi + 1) == o + 1 + |c|
  {
    BlockAt(blocks, h, bi, st, o, c);
  }

  lemma LabelHere(blocks: seq<nat>, h: History, bi: nat, st: seq<Instr>, o: nat)
    requires bi < |blocks| && st == Unsplit(blocks, h) && o == Offset(blocks, h, bi)
    ensures o < |st| && st[o] == Label(blocks[bi])
  {
    BlockAt(blocks, h, bi, st, o, Content(h, blocks[bi]));
  }

  /** Every label of the stream is one of the blocks, at its offset. */
  lemma {:induction false} LabelIsBlock(blocks: seq<nat>, h: History, i: nat) returns (j: nat)
    requires i < |Unsplit(blocks, h)| && Unsplit(blocks, h)[i].Label?
    ensures j < |blocks| && blocks[j] == Unsplit(blocks, h)[i].id
    decreases |blocks|
  {
    var n := |blocks| - 1;
    var o, c := Offset(blocks, h, n), Content(h, blocks[n]);
    BlockAt(blocks, h, n, Unsplit(blocks, h), o, c);
    OffsetEnd(blocks, h);
    UnsplitPrefix(blocks, h, n);
    if i < o {
      j := LabelIsBlock(blocks[..n], h, i);
    } else {
      j := n;
      if i > o {
        SliceAt(Unsplit(blocks, h), o + 1, c, i - o - 1);
        ContentHasNoLabels(h, blocks[n], i - o - 1);
      }
    }
  }

  // --- Drafts and patches ---

  class BcProc {
    const id: nat           // the proc's number, by which histories name it
    const ffi: nat          // the foreign-call context of the run context it belongs to
    const frameSize: nat
    const frameAlign: nat
    var instrs: seq<Bc<BcProc?>>

    constructor (id: nat, ffi: nat, frameSize: nat, frameAlign: nat)
      ensures this.id == id && this.ffi == ffi && this.frameSize == frameSize && this.frameAlign == frameAlign && instrs == []
    {
      this.id, this.ffi, this.frameSize, this.frameAlign, instrs := id, ffi, frameSize, frameAlign, [];
    }
  }

  /** An instruction before patching: no positions and no callees yet. */
  function Draft(i: Instr): Bc<BcProc?> {
    match i
    case Jmp(_) => Goto(0)
    case Jmpz(c, _) => GotoZ(c, 0)
    case Jmpnz(c, _) => GotoNz(c, 0)
    case Call(_) => Enter(null)
    case Ret(r) => Leave(r)
    case _ => Plain(i)
  }

  function Drafts(kept: seq<Instr>): (r: seq<Bc<BcProc?>>)
    ensures |r| == |kept|
  {
    seq(|kept|, k requires 0 <= k < |kept| => Draft(kept[k]))
  }

  datatype Reloc =
    | RelocBlock(instrIndex: nat, target: nat)
    | RelocProc(instrIndex: nat, proc: nat)

  predicate NeedsReloc(i: Instr) { HasTarget(i) || i.Call? }

  /** What is remembered about the instructions so far: exactly those that need patching, in order. */
  ghost predicate RelocsOk(relocs: seq<Reloc>, kept: seq<Instr>) {
    && (forall r | 0 <= r < |relocs| ::
          var k := relocs[r].instrIndex;
          k < |kept| && (relocs[r].RelocBlock? ==> HasTarget(kept[k]) && relocs[r].target == kept[k].target)
          && (relocs[r].RelocProc? ==> kept[k].Call? && relocs[r].proc == kept[k].p))
    && (forall k | 0 <= k < |kept| && NeedsReloc(kept[k]) :: exists r :: 0 <= r < |relocs| && relocs[r].instrIndex == k)
  }

  ghost predicate CallsOk(referenced: seq<nat>, kept: seq<Instr>) {
    && (forall k | 0 <= k < |kept| && kept[k].Call? :: kept[k].p in referenced)
    && (forall q | q in referenced :: exists k :: 0 <= k < |kept| && kept[k] == Call(q))
  }

  datatype BlockInfo = BlockInfo(blockIdx: nat, firstInstr: nat)

  ghost predicate InfoOk(info: seq<BlockInfo>, blocks: seq<nat>) {
    forall j | 0 <= j < |blocks| :: blocks[j] < |info| && info[blocks[j]].blockIdx == j
  }

  /** Finished bytecode: like the value-level translation, with the callee's own object in every call. */
  ghost predicate Points(a: Bc<BcProc?>, b: Bc<nat>, procs: seq<BcProc?>) {
    match b
    case Enter(q) => a.Enter? && q < |procs| && procs[q] != null && a.callee == procs[q]
    case Plain(i) => a == Plain(i)
    case Goto(pc) => a == Goto(pc)
    case GotoZ(c, pc) => a == GotoZ(c, pc)
    case GotoNz(c, pc) => a == GotoNz(c, pc)
    case Leave(r) => a == Leave(r)
  }

  ghost predicate AllPoint(code: seq<Bc<BcProc?>>, bc: seq<Bc<nat>>, procs: seq<BcProc?>) {
    |code| == |bc| && forall k | 0 <= k < |bc| :: Points(code[k], bc[k], procs)
  }

  /** Whether the loop keeps an instruction is what Keeps says about its place in the stream. */
  lemma KeepsInBlock(blocks: seq<nat>, h: History, bi: nat, k: nat, st: seq<Instr>, o: nat, c: seq<Instr>, info: seq<BlockInfo>)
    requires bi < |blocks| && st == Unsplit(blocks, h) && o == Offset(blocks, h, bi) && c == Content(h, blocks[bi])
    requires k < |c| && InfoOk(info, blocks) && Translatable(st)
    ensures o + 1 + k < |st| && st[o + 1 + k] == c[k] && !c[k].Label?
    ensures c[k].Jmp? ==> c[k].target < |info|
    ensures Keeps(st, o + 1 + k) <==> !c[k].Comment? && !(c[k].Jmp? && info[c[k].target].blockIdx == bi + 1)
  {
    hide Unsplit, Offset, Content, InfoOk, Translatable, NextLabel, Keeps;
    BlockAt(blocks, h, bi, st, o, c);
    SliceAt(st, o + 1, c, k);
    ContentHasNoLabels(h, blocks[bi], k);
    KeepsIs(st, o + 1 + k);
    if c[k].Jmp? {
      NextInBlock(blocks, h, bi, k + 1, st, o, c);
      var j := TargetIsBlock(blocks, h, o + 1 + k, st, info);
      NextIsTarget(info, blocks, bi, j);
    }
  }

  lemma NextIsTarget(info: seq<BlockInfo>, blocks: seq<nat>, bi: nat, j: nat)
    requires InfoOk(info, blocks) && bi < |blocks| && j < |blocks|
    ensures (if bi + 1 < |blocks| then Some(blocks[bi + 1]) else None) == Some(blocks[j]) <==> j == bi + 1
  {
    InfoAt(info, blocks, j);
    if bi + 1 < |blocks| { InfoAt(info, blocks, bi + 1); }
  }

  lemma KeepsIs(st: seq<Instr>, i: nat)
    requires i < |st|
    ensures Keeps(st, i) <==>
            !st[i].Label? && !st[i].Comment? && !(st[i].Jmp? && NextLabel(st, i + 1) == Some(st[i].target))
  {
    hide NextLabel;
  }

  lemma InfoAt(info: seq<BlockInfo>, blocks: seq<nat>, j: nat)
    requires InfoOk(info, blocks) && j < |blocks|
    ensures blocks[j] < |info| && info[blocks[j]].blockIdx == j
  {}

  lemma TargetIsBlock(blocks: seq<nat>, h: History, i: nat, st: seq<Instr>, info: seq<BlockInfo>) returns (j: nat)
    requires st == Unsplit(blocks, h) && InfoOk(info, blocks) && Translatable(st) && i < |st| && HasTarget(st[i])
    ensures j < |blocks| && blocks[j] == st[i].target < |info| && info[blocks[j]].blockIdx == j
  {
    hide Unsplit, UniqueLabels, JumpsLast;
    var l :| 0 <= l < |st| && st[l] == Label(st[i].target);
    j := LabelIsBlock(blocks, h, l);
    InfoAt(info, blocks, j);
  }

  // --- One translation in progress ---

  /** Bytecode so far, what is to be patched in it, and the procs it calls. */
  datatype Output = Output(code: seq<Bc<BcProc?>>, relocs: seq<Reloc>, referenced: seq<nat>)

  /** What has been produced for the instructions kept so far. */
  ghost predicate Built(out: Output, natives: set<nat>, kept: seq<Instr>) {
    && out.code == Drafts(kept)
    && RelocsOk(out.relocs, kept)
    && CallsOk(out.referenced, kept)
    && Known(kept, natives)
  }

  class Job {
    const natives: set<nat>   // extern symbols with an address
    const bc: BcProc
    var relocs: seq<Reloc>
    var referenced: seq<nat>

    constructor (natives: set<nat>, bc: BcProc)
      requires bc.instrs == []
      ensures this.natives == natives && this.bc == bc && Built(Out(), natives, [])
    {
      this.natives := natives;
      this.bc := bc;
      relocs, referenced := [], [];
    }

    ghost function Out(): Output
      reads this, bc
    {
      Output(bc.instrs, relocs, referenced)
    }

    /** Append one instruction; an extern symbol nobody defined ends the translation. */
    method Add(i: Instr, ghost kept: seq<Instr>) returns (ok: bool)
      requires Built(Out(), natives, kept)
      modifies this, bc
      ensures ok ==> Built(Out(), natives, kept + [i])
      ensures ok <==> Known([i], natives)
    {
      var index := |bc.instrs|;
      bc.instrs := bc.instrs + [Draft(i)];
      if (i.Ext? || i.DoWith?) && i.sym !in natives {
        assert i in [i];
        return false;
      }
      ghost var relocs0, referenced0 := relocs, referenced;
      if HasTarget(i) {
        relocs := relocs + [RelocBlock(index, i.target)];
      } else if i.Call? {
        relocs := relocs + [RelocProc(index, i.p)];
        referenced := referenced + [i.p];
      }
      RelocsStep(relocs0, kept, i);
      CallsStep(referenced0, kept, i);
      assert Drafts(kept + [i]) == Drafts(kept) + [Draft(i)];
      KnownStep(kept, i, natives);
      return true;
    }
  }

  lemma KnownStep(st: seq<Instr>, i: Instr, natives: set<nat>)
    requires Known(st, natives) && (i.Ext? || i.DoWith? ==> i.sym in natives)
    ensures Known(st + [i], natives) && Known([i], natives)
  {}

  function RelocsAfter(relocs: seq<Reloc>, index: nat, i: Instr): seq<Reloc> {
    if HasTarget(i) then relocs + [RelocBlock(index, i.target)]
    else if i.Call? then relocs + [RelocProc(index, i.p)]
    else relocs
  }

  lemma RelocsStep(relocs: seq<Reloc>, kept: seq<Instr>, i: Instr)
    requires RelocsOk(relocs, kept)
    ensures RelocsOk(RelocsAfter(relocs, |kept|, i), kept + [i])
  {
    var relocs' := RelocsAfter(relocs, |kept|, i);
    forall k | 0 <= k < |kept + [i]| && NeedsReloc((kept + [i])[k])
      ensures exists r :: 0 <= r < |relocs'| && relocs'[r].instrIndex == k
    {
      if k < |kept| {
        var r :| 0 <= r < |relocs| && relocs[r].instrIndex == k;
        assert relocs'[r].instrIndex == k;
      } else {
        assert relocs'[|relocs|].instrIndex == k;
      }
    }
  }

  lemma CallsStep(referenced: seq<nat>, kept: seq<Instr>, i: Instr)
    requires CallsOk(referenced, kept)
    ensures CallsOk(if i.Call? then referenced + [i.p] else referenced, kept + [i])
  {
    var referenced' := if i.Call? then referenced + [i.p] else referenced;
    forall q | q in referenced' ensures exists k :: 0 <= k < |kept + [i]| && (kept + [i])[k] == Call(q) {
      if q in referenced {
        var k :| 0 <= k < |kept| && kept[k] == Call(q);
        assert (kept + [i])[k] == Call(q);
      } else {
        assert (kept + [i])[|kept|] == Call(q);
      }
    }
  }
}
