/** How emitted instructions are kept: one instruction array shared by all procs, blocks listing index
    ranges into it, procs listing blocks in the order their labels were placed. */
module Storage {
  import opened Ir
  import T = Trees

  datatype Range = Range(begin: nat, end: nat)

  /** Everything ever emitted, in order, with the proc that was active. */
  datatype Emitted = Emitted(p: nat, i: Instr)
  type History = seq<Emitted>

  /** A move into a value of size zero is not stored. */
  predicate Dropped(i: Instr) { i.Mov? && i.size == 0 }

  // --- What a history means, independently of how it is stored ---

  function Tagged(p: nat, code: seq<Instr>): (h: History)
    ensures |h| == |code|
  {
    seq(|code|, k requires 0 <= k < |code| => Emitted(p, code[k]))
  }

  /** All instructions emitted to a proc. */
  function Raw(h: History, p: nat): seq<Instr> {
    if h == [] then [] else
    var last := h[|h| - 1];
    Raw(h[..|h| - 1], p) + (if last.p == p then [last.i] else [])
  }

  /** The ones kept. */
  function Stream(h: History, p: nat): seq<Instr> {
    if h == [] then [] else
    var last := h[|h| - 1];
    Stream(h[..|h| - 1], p) + (if last.p == p && !Dropped(last.i) then [last.i] else [])
  }

  /** The block a proc is emitting into: its latest label, or block zero before any. */
  function Current(h: History, p: nat): nat {
    if h == [] then 0 else
    var last := h[|h| - 1];
    if last.p == p && last.i.Label? then last.i.id else Current(h[..|h| - 1], p)
  }

  /** The blocks of a proc: the labels it has placed, in order. */
  function Blocks(h: History, p: nat): seq<nat> {
    if h == [] then [] else
    var last := h[|h| - 1];
    Blocks(h[..|h| - 1], p) + (if last.p == p && last.i.Label? then [last.i.id] else [])
  }

  /** The instructions kept in a block. */
  function Content(h: History, b: nat): seq<Instr> {
    if h == [] then [] else
    var last, before := h[|h| - 1], h[..|h| - 1];
    Content(before, b) +
    (if !last.i.Label? && !Dropped(last.i) && Current(before, last.p) == b then [last.i] else [])
  }

  lemma SnocInit<X>(h: seq<X>, e: X)
    ensures (h + [e])[..|h + [e]| - 1] == h && (h + [e])[|h + [e]| - 1] == e
  {}

  // --- Reading ranges ---

  ghost predicate InBounds(ranges: seq<Range>, n: nat) {
    forall k | 0 <= k < |ranges| :: ranges[k].begin <= ranges[k].end <= n
  }

  ghost function Gather(instrs: seq<Instr>, ranges: seq<Range>): seq<Instr>
    requires InBounds(ranges, |instrs|)
  {
    if ranges == [] then [] else
    var r := ranges[|ranges| - 1];
    Gather(instrs, ranges[..|ranges| - 1]) + instrs[r.begin..r.end]
  }

  ghost predicate RangesOk(ranges: seq<Range>, n: nat) {
    && (forall k | 0 <= k < |ranges| :: ranges[k].begin < ranges[k].end <= n)
    && (forall k, m | 0 <= k < m < |ranges| :: ranges[k].end < ranges[m].begin)
  }

  ghost predicate Within(ranges: seq<Range>, i: nat) {
    exists k | 0 <= k < |ranges| :: ranges[k].begin <= i < ranges[k].end
  }

  lemma {:induction false} GatherGrown(instrs: seq<Instr>, more: seq<Instr>, ranges: seq<Range>)
    requires InBounds(ranges, |instrs|)
    ensures Gather(instrs + more, ranges) == Gather(instrs, ranges)
    decreases |ranges|
  {
    if ranges != [] {
      var r := ranges[|ranges| - 1];
      GatherGrown(instrs, more, ranges[..|ranges| - 1]);
      assert (instrs + more)[r.begin..r.end] == instrs[r.begin..r.end];
    }
  }

  /** The ranges of a block after one more instruction: the last range grows if it ends where the array does. */
  function Extended(ranges: seq<Range>, idx: nat): seq<Range> {
    if ranges != [] && ranges[|ranges| - 1].end == idx
    then ranges[..|ranges| - 1] + [Range(ranges[|ranges| - 1].begin, idx + 1)]
    else ranges + [Range(idx, idx + 1)]
  }

  lemma ExtendedCovers(ranges: seq<Range>, idx: nat, k: nat)
    requires RangesOk(ranges, idx)
    ensures RangesOk(Extended(ranges, idx), idx + 1)
    ensures Within(Extended(ranges, idx), k) <==> Within(ranges, k) || k == idx
  {
    ExtendedOk(ranges, idx);
    ExtendedWithin(ranges, idx, k);
  }

  lemma ExtendedOk(ranges: seq<Range>, idx: nat)
    requires RangesOk(ranges, idx)
    ensures RangesOk(Extended(ranges, idx), idx + 1)
  {
    var ranges' := Extended(ranges, idx);
    forall m | 0 <= m < |ranges'| - 1 ensures ranges'[m] == ranges[m] {}
  }

  lemma ExtendedWithin(ranges: seq<Range>, idx: nat, k: nat)
    requires RangesOk(ranges, idx)
    ensures Within(Extended(ranges, idx), k) <==> Within(ranges, k) || k == idx
  {
    var ranges' := Extended(ranges, idx);
    var last := ranges'[|ranges'| - 1];
    assert last.begin <= idx < last.end;
    if Within(ranges, k) {
      var m :| 0 <= m < |ranges| && ranges[m].begin <= k < ranges[m].end;
      assert ranges'[m].begin <= k < ranges'[m].end;
    }
    if Within(ranges', k) && k != idx {
      var m :| 0 <= m < |ranges'| && ranges'[m].begin <= k < ranges'[m].end;
      assert ranges[m].begin <= k < ranges[m].end;
    }
  }

  lemma GatherSnoc(instrs: seq<Instr>, init: seq<Range>, r: Range)
    requires InBounds(init, |instrs|)
    requires r.begin <= r.end <= |instrs|
    ensures Gather(instrs, init + [r]) == Gather(instrs, init) + instrs[r.begin..r.end]
  {
    SnocInit(init, r);
  }

  lemma ExtendedInBounds(ranges: seq<Range>, n: nat)
    requires InBounds(ranges, n)
    ensures InBounds(Extended(ranges, n), n + 1)
  {}

  lemma GrowGathers(instrs: seq<Instr>, i: Instr, init: seq<Range>, begin: nat)
    requires InBounds(init, |instrs|) && begin <= |instrs|
    ensures InBounds(init, |instrs + [i]|)
    ensures Gather(instrs + [i], init + [Range(begin, |instrs| + 1)]) ==
            Gather(instrs, init) + instrs[begin..] + [i]
  {
    GatherGrown(instrs, [i], init);
    GatherSnoc(instrs + [i], init, Range(begin, |instrs| + 1));
    assert (instrs + [i])[begin..|instrs| + 1] == instrs[begin..] + [i];
  }

  lemma GatherLast(instrs: seq<Instr>, ranges: seq<Range>)
    requires InBounds(ranges, |instrs|) && ranges != [] && ranges[|ranges| - 1].end == |instrs|
    ensures Gather(instrs, ranges) == Gather(instrs, ranges[..|ranges| - 1]) + instrs[ranges[|ranges| - 1].begin..]
  {
    var r := ranges[|ranges| - 1];
    assert instrs[r.begin..r.end] == instrs[r.begin..];
  }

  lemma ExtendedGathers(instrs: seq<Instr>, i: Instr, ranges: seq<Range>)
    requires InBounds(ranges, |instrs|) && InBounds(Extended(ranges, |instrs|), |instrs + [i]|)
    ensures Gather(instrs + [i], Extended(ranges, |instrs|)) == Gather(instrs, ranges) + [i]
  {
    if ranges != [] && ranges[|ranges| - 1].end == |instrs| {
      GatherLast(instrs, ranges);
      GrowGathers(instrs, i, ranges[..|ranges| - 1], ranges[|ranges| - 1].begin);
    } else {
      GrowGathers(instrs, i, ranges, |instrs|);
      assert instrs[|instrs|..] == [];
      assert Gather(instrs, ranges) + [] == Gather(instrs, ranges);
    }
  }

  // --- From blocks back to the stream ---

  /** Placed blocks in order, each with its label in front: what falling through from block to block runs. */
  function Unsplit(blocks: seq<nat>, h: History): seq<Instr> {
    if blocks == [] then [] else
    Unsplit(blocks[..|blocks| - 1], h) + [Label(blocks[|blocks| - 1])] + Content(h, blocks[|blocks| - 1])
  }

  /** Labels are created for one place: nobody places a label that is already placed, and every proc starts
      by placing one. */
  ghost predicate Orderly(h: History)
    decreases |h|
  {
    h == [] ||
    var before, e := h[..|h| - 1], h[|h| - 1];
    && Orderly(before)
    && (e.i.Label? ==> forall q: nat :: e.i.id !in Blocks(before, q))
    && (!e.i.Label? ==> Blocks(before, e.p) != [])
  }

  lemma LabelsSnoc(code: seq<Instr>, i: Instr)
    ensures T.LabelsOf(code + [i]) == T.LabelsOf(code) + (if i.Label? then [i.id] else [])
  {
    T.LabelsOfConcat(code, [i]);
    assert [i][1..] == [];
  }

  lemma {:induction false} BlocksAreLabels(h: History, p: nat)
    ensures Blocks(h, p) == T.LabelsOf(Stream(h, p))
    decreases |h|
  {
    if h != [] {
      BlocksAreLabels(h[..|h| - 1], p);
      LabelsSnoc(Stream(h[..|h| - 1], p), h[|h| - 1].i);
      assert Stream(h[..|h| - 1], p) + [] == Stream(h[..|h| - 1], p);
    }
  }

  /** The current block is the last one placed; no block is placed twice. */
  lemma {:induction false} BlocksDistinct(h: History, p: nat)
    requires Orderly(h)
    ensures Blocks(h, p) != [] ==> Current(h, p) == Blocks(h, p)[|Blocks(h, p)| - 1]
    ensures forall i, j | 0 <= i < j < |Blocks(h, p)| :: Blocks(h, p)[i] != Blocks(h, p)[j]
    decreases |h|
  {
    if h != [] { BlocksDistinct(h[..|h| - 1], p); }
  }

  lemma {:induction false} BlocksDisjoint(h: History, p: nat, q: nat, b: nat)
    requires Orderly(h) && p != q && b in Blocks(h, p)
    ensures b !in Blocks(h, q)
    decreases |h|
  {
    var before, e := h[..|h| - 1], h[|h| - 1];
    if b in Blocks(before, p) { BlocksDisjoint(before, p, q, b); }
  }

  lemma {:induction false} NeverCurrent(h: History, b: nat)
    requires Orderly(h) && forall q: nat :: b !in Blocks(h, q)
    ensures Content(h, b) == []
    decreases |h|
  {
    if h != [] {
      var before, e := h[..|h| - 1], h[|h| - 1];
      forall q: nat ensures b !in Blocks(before, q) {
        assert b !in Blocks(h, q);
      }
      NeverCurrent(before, b);
      BlocksDistinct(before, e.p);
    }
  }

  lemma {:induction false} UnsplitSame(blocks: seq<nat>, h: History, h': History)
    requires forall k | 0 <= k < |blocks| :: Content(h', blocks[k]) == Content(h, blocks[k])
    ensures Unsplit(blocks, h') == Unsplit(blocks, h)
    decreases |blocks|
  {
    if blocks != [] { UnsplitSame(blocks[..|blocks| - 1], h, h'); }
  }

  /** An instruction goes to the end of its proc's current block and nowhere else. */
  lemma ContentElsewhere(h: History, e: Emitted, p: nat, k: nat)
    requires Orderly(h + [e]) && k < |Blocks(h, p)|
    requires e.i.Label? || Dropped(e.i) || e.p != p || k < |Blocks(h, p)| - 1
    ensures Content(h + [e], Blocks(h, p)[k]) == Content(h, Blocks(h, p)[k])
  {
    SnocInit(h, e);
    var b := Blocks(h, p)[k];
    if !e.i.Label? && !Dropped(e.i) {
      BlocksDistinct(h, e.p);
      if e.p != p { BlocksDisjoint(h, p, e.p, b); }
    }
  }

  /** Under any interleaving of emissions to any procs, concatenating a proc's blocks gives back exactly
      what was emitted to it. */
  lemma {:induction false} BlocksKeepStream(h: History, p: nat)
    requires Orderly(h)
    ensures Unsplit(Blocks(h, p), h) == Stream(h, p)
    decreases |h|
  {
    if h != [] {
      var before, e := h[..|h| - 1], h[|h| - 1];
      assert h == before + [e];
      BlocksKeepStream(before, p);
      var ls := Blocks(before, p);
      if e.i.Label? || Dropped(e.i) || e.p != p {
        forall k | 0 <= k < |ls| ensures Content(h, ls[k]) == Content(before, ls[k]) {
          ContentElsewhere(before, e, p, k);
        }
        UnsplitSame(ls, before, h);
        assert ls + [] == ls && Stream(before, p) + [] == Stream(before, p);
        if e.p == p && e.i.Label? { UnsplitNew(before, e); }
      } else {
        UnsplitLast(before, e);
      }
    }
  }

  lemma UnsplitNew(h: History, e: Emitted)
    requires Orderly(h + [e]) && e.i.Label?
    requires Unsplit(Blocks(h, e.p), h + [e]) == Stream(h, e.p)
    ensures Unsplit(Blocks(h + [e], e.p), h + [e]) == Stream(h + [e], e.p)
  {
    SnocInit(h, e);
    NeverCurrent(h, e.i.id);
    var ls := Blocks(h, e.p);
    SnocInit(ls, e.i.id);
    assert Blocks(h + [e], e.p) == ls + [e.i.id];
    assert Content(h + [e], e.i.id) == [];
    assert Unsplit(ls + [e.i.id], h + [e]) == Unsplit(ls, h + [e]) + [Label(e.i.id)] + [];
  }

  lemma UnsplitLast(h: History, e: Emitted)
    requires Orderly(h + [e]) && !e.i.Label? && !Dropped(e.i)
    requires Unsplit(Blocks(h, e.p), h) == Stream(h, e.p)
    ensures Unsplit(Blocks(h + [e], e.p), h + [e]) == Stream(h + [e], e.p)
  {
    SnocInit(h, e);
    BlocksDistinct(h, e.p);
    var ls := Blocks(h, e.p);
    assert Blocks(h + [e], e.p) == ls;
    var init, b := ls[..|ls| - 1], ls[|ls| - 1];
    forall k | 0 <= k < |init| ensures Content(h + [e], init[k]) == Content(h, init[k]) {
      ContentElsewhere(h, e, e.p, k);
    }
    UnsplitSame(init, h, h + [e]);
    assert Content(h + [e], b) == Content(h, b) + [e.i];
  }
}
