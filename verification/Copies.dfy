/** Duplicated code in any surroundings: its jumps go to its own labels, and nothing else changes. */
module Copies {
  import opened Ir
  import opened Trees
  import opened Machine

  lemma {:induction false} LabelIn(code: seq<Instr>, l: nat)
    ensures Label(l) in code <==> l in LabelsOf(code)
  {
    if code != [] {
      LabelIn(code[1..], l);
      assert code == [code[0]] + code[1..];
    }
  }

  /** Places of distinct elements are distinct. */
  lemma IndexApart(xs: seq<nat>, x: nat, y: nat)
    requires x in xs && IndexOf(xs, x) == IndexOf(xs, y)
    ensures x == y
  {}

  lemma FindIs(code: seq<Instr>, l: nat, k: nat)
    requires k < |code| && code[k] == Label(l) && forall j | 0 <= j < k :: code[j] != Label(l)
    ensures Find(code, l) == k
  {}

  /** The new name of a placed label is placed exactly where the old one was. */
  lemma RenamedAt(code: seq<Instr>, base: nat, l: nat, j: nat)
    requires Label(l) in code && j < |code|
    ensures var from := LabelsOf(code);
            RenameCode(from, base, code)[j] == Label(Renamed(from, base, l)) <==> code[j] == Label(l)
  {
    var from := LabelsOf(code);
    LabelIn(code, l);
    if code[j].Label? {
      assert Label(code[j].id) in code;
      LabelIn(code, code[j].id);
      if IndexOf(from, l) == IndexOf(from, code[j].id) { IndexApart(from, l, code[j].id); }
    }
  }

  lemma FindRenamed(code: seq<Instr>, base: nat, l: nat)
    requires Label(l) in code
    ensures var from := LabelsOf(code);
            && Find(code, l) < |code|
            && Find(RenameCode(from, base, code), Renamed(from, base, l)) == Find(code, l)
  {
    var from, k := LabelsOf(code), Find(code, l);
    var copy := RenameCode(from, base, code);
    RenamedAt(code, base, l, k);
    forall j | 0 <= j < k ensures copy[j] != Label(Renamed(from, base, l)) { RenamedAt(code, base, l, j); }
    FindIs(copy, Renamed(from, base, l), k);
  }

  /** Labels placed in a stream are below a bound. */
  ghost predicate Below(code: seq<Instr>, bound: nat) {
    forall i | 0 <= i < |code| && code[i].Label? :: code[i].id < bound
  }

  /** A jump of the copy goes where the original's goes, moved with the copy; a jump out of the fragment is left
      as it was. */
  lemma CopyTarget(before: seq<Instr>, code: seq<Instr>, after: seq<Instr>, base: nat, l: nat)
    requires Below(before, base)
    ensures var l' := Renamed(LabelsOf(code), base, l);
            if Label(l) in code
            then && base <= l' < base + |LabelsOf(code)|
                 && Find(before + RenameCode(LabelsOf(code), base, code) + after, l') == |before| + Find(code, l)
            else l' == l
  {
    LabelIn(code, l);
    if Label(l) in code {
      var from := LabelsOf(code);
      var copy, l' := RenameCode(from, base, code), Renamed(from, base, l);
      FindRenamed(code, base, l);
      var out, k := before + copy + after, |before| + Find(code, l);
      forall j | 0 <= j < k ensures out[j] != Label(l') {
        if j >= |before| { assert out[j] == copy[j - |before|]; }
      }
      FindIs(out, l', k);
    }
  }

  /** The frame with `depth` frames below it, if there is one, further on in its stream. */
  function Moved(c: Config, shift: nat, depth: nat): Config {
    if !c.Run? || |c.frames| <= depth then c else
    var k := |c.frames| - 1 - depth;
    c.(frames := c.frames[k := c.frames[k].(pc := c.frames[k].pc + shift)])
  }

  lemma MovedTop(f: Frame, rest: seq<Frame>, tr: Trace, shift: nat)
    ensures Moved(Run([f] + rest, tr), shift, |rest|) == Run([f.(pc := f.pc + shift)] + rest, tr)
  {}

  /** One instruction of a frame's stream, told where its label lies. */
  function After(i: Instr, goal: nat, procs: nat, w: Oracle, f: Frame, tr: Trace, rest: seq<Frame>): Config {
    match i
    case Jmp(_) => Run([f.(pc := goal)] + rest, tr)
    case Jmpz(x, _) => Run([f.(pc := if Value(x, f.m) then f.pc + 1 else goal)] + rest, tr)
    case Jmpnz(x, _) => Run([f.(pc := if Value(x, f.m) then goal else f.pc + 1)] + rest, tr)
    case Call(q) =>
      if q >= procs then Stuck(tr) else Run([Frame(q, 0, map[]), f.(pc := f.pc + 1)] + rest, tr + [EvCall(q)])
    case Ret(r) => Back(rest, tr + [EvRet(RetValue(r, f.m))], RetValue(r, f.m))
    case i =>
      var s := Effect(w, i, State(tr, f.m));
      Run([Frame(f.p, f.pc + 1, s.m)] + rest, s.tr)
  }

  lemma StepIs(a: Code, w: Oracle, p: nat, k: nat, s: State, rest: seq<Frame>, goal: nat)
    requires p < |a| && k < |a[p]| && (HasTarget(a[p][k]) ==> goal == Find(a[p], a[p][k].target))
    ensures Step(a, w, At(p, k, s, rest)) == After(a[p][k], goal, |a|, w, Frame(p, k, s.m), s.tr, rest)
  {
    hide Find, Effect, Value, RetValue;
    assert ([Frame(p, k, s.m)] + rest)[1..] == rest;
  }

  /** The same instruction, as far as a run can tell, with its own target. */
  predicate Alike(i: Instr, i': Instr) {
    i' == i || (i.Label? && i'.Label?) || (HasTarget(i) && HasTarget(i') && i' == i.(target := i'.target))
  }

  /** Where a jump goes. */
  function Next(i: Instr, goal: nat, f: Frame): nat {
    match i
    case Jmp(_) => goal
    case Jmpz(x, _) => if Value(x, f.m) then f.pc + 1 else goal
    case Jmpnz(x, _) => if Value(x, f.m) then goal else f.pc + 1
    case _ => f.pc + 1
  }

  lemma NextMoved(i: Instr, i': Instr, goal: nat, procs: nat, w: Oracle, f: Frame, tr: Trace, rest: seq<Frame>, shift: nat)
    requires Alike(i, i') && HasTarget(i)
    ensures After(i, goal, procs, w, f, tr, rest) == Run([f.(pc := Next(i, goal, f))] + rest, tr)
    ensures Next(i', shift + goal, f.(pc := shift + f.pc)) == shift + Next(i, goal, f)
  {
    hide Value;
  }

  lemma AfterMoved(i: Instr, i': Instr, goal: nat, procs: nat, w: Oracle, f: Frame, tr: Trace, rest: seq<Frame>, shift: nat)
    requires Alike(i, i')
    ensures After(i', shift + goal, procs, w, f.(pc := shift + f.pc), tr, rest) ==
            Moved(After(i, goal, procs, w, f, tr, rest), shift, |rest|)
  {
    var f' := f.(pc := shift + f.pc);
    if HasTarget(i) {
      hide Moved, After, Next;
      NextMoved(i, i', goal, procs, w, f, tr, rest, shift);
      NextMoved(i', i', shift + goal, procs, w, f', tr, rest, 0);
      MovedTop(f.(pc := Next(i, goal, f)), rest, tr, shift);
    } else if i.Call? {
      hide Moved;
      MovedNext(Frame(i.p, 0, map[]), f.(pc := f.pc + 1), rest, tr + [EvCall(i.p)], shift);
      MovedOver(Stuck(tr), shift, rest);
    } else if i.Ret? {
      hide Moved, RetValue;
      MovedOver(Back(rest, tr + [EvRet(RetValue(i.res, f.m))], RetValue(i.res, f.m)), shift, rest);
    } else {
      hide Moved, Effect;
      var s := Effect(w, i, State(tr, f.m));
      LabelNothing(w, i, i', State(tr, f.m));
      MovedTop(Frame(f.p, f.pc + 1, s.m), rest, s.tr, shift);
    }
  }

  lemma MovedNext(top: Frame, f: Frame, rest: seq<Frame>, tr: Trace, shift: nat)
    ensures Moved(Run([top, f] + rest, tr), shift, |rest|) == Run([top, f.(pc := f.pc + shift)] + rest, tr)
  {}

  lemma MovedOver(c: Config, shift: nat, rest: seq<Frame>)
    requires c.Run? ==> c.frames == rest
    ensures Moved(c, shift, |rest|) == c
  {}

  lemma LabelNothing(w: Oracle, i: Instr, i': Instr, s: State)
    requires Alike(i, i')
    ensures Effect(w, i, s) == Effect(w, i', s)
  {}

  /** A step inside the copy, wherever it is placed, is the step of the original, moved with the copy. */
  lemma CopyStep(a: Code, b: Code, p: nat, before: seq<Instr>, after: seq<Instr>, base: nat, w: Oracle, k: nat, s: State, rest: seq<Frame>)
    requires p < |a| == |b| && k < |a[p]| && Below(before, base)
    requires b[p] == before + RenameCode(LabelsOf(a[p]), base, a[p]) + after
    requires HasTarget(a[p][k]) ==> Label(a[p][k].target) in a[p]
    ensures Step(b, w, At(p, |before| + k, s, rest)) == Moved(Step(a, w, At(p, k, s, rest)), |before|, |rest|)
  {
    hide *;
    var i, from, shift := a[p][k], LabelsOf(a[p]), |before|;
    var i' := RenameInstr(from, base, i);
    CopyAt(before, a[p], after, from, base, k);
    if i.Jmp? || i.Jmpz? || i.Jmpnz? {
      CopyTarget(before, a[p], after, base, i.target);
    }
    var goal := if i.Jmp? || i.Jmpz? || i.Jmpnz? then Find(a[p], i.target) else 0;
    StepIs(a, w, p, k, s, rest, goal);
    StepIs(b, w, p, shift + k, s, rest, shift + goal);
    AfterMoved(i, i', goal, |a|, w, Frame(p, k, s.m), s.tr, rest, shift);
    MovedFrame(p, k, shift, s.m);
  }

  lemma MovedFrame(p: nat, k: nat, shift: nat, m: Temps)
    ensures Frame(p, k, m).(pc := shift + k) == Frame(p, shift + k, m)
  {}

  /** What stands in the copy at the place of instruction k. */
  lemma CopyAt(before: seq<Instr>, code: seq<Instr>, after: seq<Instr>, from: seq<nat>, base: nat, k: nat)
    requires k < |code|
    ensures var out, i' := before + RenameCode(from, base, code) + after, RenameInstr(from, base, code[k]);
            && |before| + k < |out| && out[|before| + k] == i' && Alike(code[k], i')
            && (HasTarget(i') <==> HasTarget(code[k]))
            && (HasTarget(i') ==> i'.target == Renamed(from, base, code[k].target))
            && (HasTarget(code[k]) <==> code[k].Jmp? || code[k].Jmpz? || code[k].Jmpnz?)
  {
    var copy := RenameCode(from, base, code);
    assert (before + copy + after)[|before| + k] == copy[k];
  }

  /** The activation in front is at an instruction of the fragment that neither calls nor leaves it. */
  ghost predicate Stays(a: Code, p: nat, c: Config, rest: seq<Frame>)
    requires p < |a|
  {
    && c.Run? && c.frames != [] && c.frames[1..] == rest
    && c.frames[0].p == p && c.frames[0].pc < |a[p]|
    && var i := a[p][c.frames[0].pc];
       !i.Call? && (HasTarget(i) ==> Label(i.target) in a[p])
  }

  lemma StaysStep(a: Code, b: Code, p: nat, before: seq<Instr>, after: seq<Instr>, base: nat, w: Oracle, c: Config, rest: seq<Frame>)
    requires p < |a| == |b| && Below(before, base) && Stays(a, p, c, rest)
    requires b[p] == before + RenameCode(LabelsOf(a[p]), base, a[p]) + after
    ensures Step(b, w, Moved(c, |before|, |rest|)) == Moved(Step(a, w, c), |before|, |rest|)
  {
    hide Step, Moved, RenameCode, LabelsOf, Below;
    var f := c.frames[0];
    var s := State(c.tr, f.m);
    assert c.frames == [f] + rest && c == At(p, f.pc, s, rest);
    MovedTop(f, rest, c.tr, |before|);
    CopyStep(a, b, p, before, after, base, w, f.pc, s, rest);
  }

  /** As long as the original stays inside the fragment, the copy does the same, wherever it is placed. */
  lemma {:induction false} CopyRun(a: Code, b: Code, p: nat, before: seq<Instr>, after: seq<Instr>, base: nat, w: Oracle, c: Config, n: nat, rest: seq<Frame>)
    requires p < |a| == |b| && Below(before, base)
    requires b[p] == before + RenameCode(LabelsOf(a[p]), base, a[p]) + after
    requires forall j | 0 <= j < n :: Stays(a, p, Steps(a, w, c, j), rest)
    ensures Steps(b, w, Moved(c, |before|, |rest|), n) == Moved(Steps(a, w, c, n), |before|, |rest|)
    decreases n
  {
    if n > 0 {
      hide Step, Stays, Moved, RenameCode, LabelsOf, Below;
      assert Stays(a, p, Steps(a, w, c, 0), rest);
      StaysStep(a, b, p, before, after, base, w, c, rest);
      var d := Step(a, w, c);
      forall j | 0 <= j < n - 1 ensures Stays(a, p, Steps(a, w, d, j), rest) {
        assert Stays(a, p, Steps(a, w, c, j + 1), rest);
      }
      CopyRun(a, b, p, before, after, base, w, d, n - 1, rest);
    }
  }
}
