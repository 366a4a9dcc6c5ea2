/** Labels as offsets: instruction fragments whose jumps keep their targets wherever the fragment is put. */
module Pic {
  type Atom = nat

  datatype Option<+T> = None | Some(value: T)
  datatype Code = Jmp | Jmpz | Jmpnz | LabelOp | OtherOp
  datatype Arg = LabelArg(name: Atom) | RelArg(offset: int) | PlainArg

  /** Labels are only ever the second or third argument; a label instruction's own name is its second. */
  datatype Instr = Instr(code: Code, arg1: Arg, arg2: Arg)

  datatype Label = Label(name: Atom, idx: nat)

  predicate IsJump(i: Instr) { i.code.Jmp? || i.code.Jmpz? || i.code.Jmpnz? }

  predicate IsLabel(i: Instr) { i.code.LabelOp? && i.arg1.LabelArg? }

  /** As the instruction constructors make them: one label in a jump, a name in a label. */
  predicate Shaped(i: Instr) {
    && (IsJump(i) ==> i.arg1.PlainArg? || i.arg2.PlainArg?)
    && (i.code.LabelOp? ==> i.arg1.LabelArg?)
  }

  ghost predicate AllShaped(instrs: seq<Instr>) { forall k | 0 <= k < |instrs| :: Shaped(instrs[k]) }

  predicate Places(i: Instr, name: Atom) { IsLabel(i) && i.arg1.name == name }

  /** Where a name is first placed. */
  function LabelIdx(instrs: seq<Instr>, name: Atom): (r: Option<nat>)
    ensures r.Some? ==> r.value < |instrs| && Places(instrs[r.value], name)
    ensures forall j | 0 <= j < (if r.Some? then r.value else |instrs|) :: !Places(instrs[j], name)
  {
    if instrs == [] then None
    else if Places(instrs[0], name) then Some(0)
    else match LabelIdx(instrs[1..], name)
      case None => None
      case Some(k) => Some(k + 1)
  }

  // --- The label tables ---

  /** The labels of a fragment, in order. */
  ghost predicate LabelsOf(labels: seq<Label>, instrs: seq<Instr>) {
    && (forall k | 0 <= k < |labels| ::
          labels[k].idx < |instrs| && Places(instrs[labels[k].idx], labels[k].name))
    && (forall j, k | 0 <= j < k < |labels| :: labels[j].idx < labels[k].idx)
    && (forall i | 0 <= i < |instrs| && IsLabel(instrs[i]) :: exists k :: 0 <= k < |labels| && labels[k].idx == i)
  }

  method CollectLabels(instrs: seq<Instr>) returns (labels: seq<Label>)
    requires AllShaped(instrs)
    ensures LabelsOf(labels, instrs)
  {
    labels := [];
    var i := 0;
    while i < |instrs|
      invariant 0 <= i <= |instrs|
      invariant LabelsOf(labels, instrs[..i])
    {
      assert instrs[..i + 1] == instrs[..i] + [instrs[i]];
      if instrs[i].code.LabelOp? {
        MoreLabels(labels, instrs[..i], instrs[i]);
        labels := labels + [Label(instrs[i].arg1.name, i)];
      }
      i := i + 1;
    }
    assert instrs[..i] == instrs;
  }

  lemma MoreLabels(labels: seq<Label>, instrs: seq<Instr>, i: Instr)
    requires LabelsOf(labels, instrs) && IsLabel(i)
    ensures LabelsOf(labels + [Label(i.arg1.name, |instrs|)], instrs + [i])
  {
    var labels' := labels + [Label(i.arg1.name, |instrs|)];
    forall j | 0 <= j < |instrs + [i]| && IsLabel((instrs + [i])[j])
      ensures exists k :: 0 <= k < |labels'| && labels'[k].idx == j
    {
      if j < |instrs| {
        var k :| 0 <= k < |labels| && labels[k].idx == j;
        assert labels'[k].idx == j;
      } else {
        assert labels'[|labels|].idx == j;
      }
    }
  }

  /** The first label of a name. */
  method FindLabelByName(labels: seq<Label>, name: Atom, ghost instrs: seq<Instr>) returns (r: Option<Label>)
    requires LabelsOf(labels, instrs)
    ensures match LabelIdx(instrs, name) case None => r == None case Some(k) => r == Some(Label(name, k))
  {
    var k := 0;
    while k < |labels|
      invariant 0 <= k <= |labels|
      invariant forall j | 0 <= j < k :: labels[j].name != name
    {
      if labels[k].name == name {
        ghost var first := LabelIdx(instrs, name);
        assert first.Some? && first.value <= labels[k].idx;
        ghost var j := Listed(labels, instrs, first.value);
        return Some(labels[k]);
      }
      k := k + 1;
    }
    if LabelIdx(instrs, name).Some? {
      ghost var j := Listed(labels, instrs, LabelIdx(instrs, name).value);
    }
    return None;
  }

  /** Every label is in the table, under its name. */
  lemma Listed(labels: seq<Label>, instrs: seq<Instr>, i: nat) returns (k: nat)
    requires LabelsOf(labels, instrs) && i < |instrs| && IsLabel(instrs[i])
    ensures k < |labels| && labels[k] == Label(instrs[i].arg1.name, i)
  {
    k :| 0 <= k < |labels| && labels[k].idx == i;
  }

  method FindLabelByIdx(labels: seq<Label>, idx: int, ghost instrs: seq<Instr>) returns (r: Option<nat>)
    requires LabelsOf(labels, instrs)
    ensures r.Some? <==> 0 <= idx < |instrs| && IsLabel(instrs[idx])
    ensures r.Some? ==> r.value < |labels| && labels[r.value].idx == idx
  {
    var k := 0;
    while k < |labels|
      invariant 0 <= k <= |labels|
      invariant forall j | 0 <= j < k :: labels[j].idx != idx
    {
      if labels[k].idx == idx {
        return Some(k);
      }
      k := k + 1;
    }
    return None;
  }

  /** How many labels of the same name come before. */
  function Ordinal(instrs: seq<Instr>, i: nat): nat
    requires i < |instrs| && IsLabel(instrs[i])
  {
    CountOf(instrs, i, instrs[i].arg1.name)
  }

  function CountOf(instrs: seq<Instr>, n: nat, name: Atom): nat
    requires n <= |instrs|
  {
    if n == 0 then 0 else CountOf(instrs, n - 1, name) + (if Places(instrs[n - 1], name) then 1 else 0)
  }

  // --- Targets ---

  /** What a label argument of the instruction at i means in the code around it. */
  function ArgTarget(instrs: seq<Instr>, i: nat, a: Arg): Option<nat> {
    match a
    case LabelArg(name) => LabelIdx(instrs, name)
    case RelArg(offset) => if 0 <= i + offset < |instrs| && IsLabel(instrs[i + offset]) then Some(i + offset) else None
    case PlainArg => None
  }

  function JumpArg(i: Instr): Arg { if i.arg1.PlainArg? then i.arg2 else i.arg1 }

  function Target(instrs: seq<Instr>, i: nat): Option<nat>
    requires i < |instrs|
  {
    ArgTarget(instrs, i, JumpArg(instrs[i]))
  }

  // --- Conversion ---

  function ToRel(instrs: seq<Instr>, i: nat, a: Arg): Arg {
    if a.LabelArg? && LabelIdx(instrs, a.name).Some? then RelArg(LabelIdx(instrs, a.name).value - i) else a
  }

  function PicAt(instrs: seq<Instr>, i: nat): Instr
    requires i < |instrs|
  {
    var instr := instrs[i];
    if !IsJump(instr) then instr
    else if ToRel(instrs, i, instr.arg1) != instr.arg1 then instr.(arg1 := ToRel(instrs, i, instr.arg1))
    else instr.(arg2 := ToRel(instrs, i, instr.arg2))
  }

  function Pic(instrs: seq<Instr>): (r: seq<Instr>)
    ensures |r| == |instrs|
    ensures forall i | 0 <= i < |instrs| :: r[i] == PicAt(instrs, i)
  {
    seq(|instrs|, i requires 0 <= i < |instrs| => PicAt(instrs, i))
  }

  /** The first label argument that names a label of the fragment becomes an offset. */
  method Convert(instrs: seq<Instr>, i: nat, labels: seq<Label>) returns (instr: Instr)
    requires LabelsOf(labels, instrs) && i < |instrs|
    ensures instr == PicAt(instrs, i)
  {
    instr := instrs[i];
    if IsJump(instr) {
      if instr.arg1.LabelArg? {
        var found := FindLabelByName(labels, instr.arg1.name, instrs);
        if found.Some? {
          return instr.(arg1 := RelArg(found.value.idx - i));
        }
      }
      if instr.arg2.LabelArg? {
        var found := FindLabelByName(labels, instr.arg2.name, instrs);
        if found.Some? {
          return instr.(arg2 := RelArg(found.value.idx - i));
        }
      }
    }
  }

  /** Append the fragment, turning each jump to one of its own labels into an offset. */
  method ConvertToPic(instrs: seq<Instr>, out: seq<Instr>) returns (out': seq<Instr>)
    requires AllShaped(instrs)
    ensures out' == out + Pic(instrs)
  {
    hide PicAt, LabelsOf;
    var labels := CollectLabels(instrs);
    out' := out;
    var i := 0;
    while i < |instrs|
      invariant 0 <= i <= |instrs|
      invariant out' == out + Pic(instrs)[..i]
    {
      var instr := Convert(instrs, i, labels);
      out' := out' + [instr];
      assert Pic(instrs)[..i + 1] == Pic(instrs)[..i] + [Pic(instrs)[i]];
      i := i + 1;
    }
    assert Pic(instrs)[..i] == Pic(instrs);
  }

  lemma PicShape(instrs: seq<Instr>, i: nat)
    requires AllShaped(instrs) && i < |instrs|
    ensures Shaped(Pic(instrs)[i]) && Pic(instrs)[i].code == instrs[i].code
    ensures forall name :: Places(Pic(instrs)[i], name) <==> Places(instrs[i], name)
    ensures IsJump(instrs[i]) ==> JumpArg(Pic(instrs)[i]) == ToRel(instrs, i, JumpArg(instrs[i]))
  {}

  lemma {:induction false} SamePlaces(a: seq<Instr>, b: seq<Instr>, name: Atom)
    requires |a| == |b| && forall k | 0 <= k < |a| :: Places(a[k], name) <==> Places(b[k], name)
    ensures LabelIdx(a, name) == LabelIdx(b, name)
  {
    if a != [] { SamePlaces(a[1..], b[1..], name); }
  }

  /** A jump to a label of its own fragment goes to that label, whatever the converted fragment is put between. */
  lemma TargetKept(before: seq<Instr>, instrs: seq<Instr>, after: seq<Instr>, i: nat)
    requires AllShaped(instrs) && i < |instrs| && IsJump(instrs[i]) && Target(instrs, i).Some?
    ensures Target(before + Pic(instrs) + after, |before| + i) == Some(|before| + Target(instrs, i).value)
  {
    var whole, t := before + Pic(instrs) + after, Target(instrs, i).value;
    PicShape(instrs, i);
    PicShape(instrs, t);
    assert whole[|before| + i] == Pic(instrs)[i] && whole[|before| + t] == Pic(instrs)[t];
  }

  /** A jump to a label its fragment does not place is left to whoever places it. */
  lemma OthersLeft(before: seq<Instr>, instrs: seq<Instr>, after: seq<Instr>, i: nat)
    requires AllShaped(instrs) && i < |instrs| && IsJump(instrs[i]) && JumpArg(instrs[i]).LabelArg? && Target(instrs, i) == None
    ensures var name := JumpArg(instrs[i]).name;
            Target(before + Pic(instrs) + after, |before| + i) == LabelIdx(before + instrs + after, name)
  {
    var name := JumpArg(instrs[i]).name;
    var whole := before + Pic(instrs) + after;
    PicShape(instrs, i);
    assert whole[|before| + i] == Pic(instrs)[i];
    forall k | 0 <= k < |instrs| ensures Places(Pic(instrs)[k], name) <==> Places(instrs[k], name) { PicShape(instrs, k); }
    SamePlaces(whole, before + instrs + after, name);
  }

  /** Converting what is already converted changes nothing. */
  lemma PicTwice(instrs: seq<Instr>)
    requires AllShaped(instrs)
    ensures Pic(Pic(instrs)) == Pic(instrs)
  {
    var once := Pic(instrs);
    forall i | 0 <= i < |instrs| ensures Pic(once)[i] == once[i] {
      forall k | 0 <= k < |instrs| ensures forall name :: Places(once[k], name) <==> Places(instrs[k], name) { PicShape(instrs, k); }
      if IsJump(instrs[i]) {
        if instrs[i].arg1.LabelArg? { SamePlaces(once, instrs, instrs[i].arg1.name); }
        if instrs[i].arg2.LabelArg? { SamePlaces(once, instrs, instrs[i].arg2.name); }
      }
    }
  }

  // --- Many fragments in one output ---

  /** The fragments converted one after the other into the same output. */
  function Joined(fragments: seq<seq<Instr>>): seq<Instr> {
    if fragments == [] then [] else Joined(fragments[..|fragments| - 1]) + Pic(fragments[|fragments| - 1])
  }

  method ConvertAll(fragments: seq<seq<Instr>>) returns (out: seq<Instr>)
    requires forall f | 0 <= f < |fragments| :: AllShaped(fragments[f])
    ensures out == Joined(fragments)
  {
    out := [];
    var f := 0;
    while f < |fragments|
      invariant 0 <= f <= |fragments| && out == Joined(fragments[..f])
    {
      out := ConvertToPic(fragments[f], out);
      assert fragments[..f + 1][..f] == fragments[..f];
      f := f + 1;
    }
    assert fragments[..f] == fragments;
  }

  function Offset(fragments: seq<seq<Instr>>, f: nat): nat
    requires f <= |fragments|
  {
    |Joined(fragments[..f])|
  }

  /** Where a fragment lies in the output. */
  lemma {:induction false} Split(fragments: seq<seq<Instr>>, f: nat) returns (after: seq<Instr>)
    requires f < |fragments|
    ensures Joined(fragments) == Joined(fragments[..f]) + Pic(fragments[f]) + after
    decreases |fragments|
  {
    var n := |fragments| - 1;
    var init := fragments[..n];
    if f == n {
      after := [];
    } else {
      after := Split(init, f);
      assert init[..f] == fragments[..f];
      after := after + Pic(fragments[n]);
    }
  }

  /** Any number of fragments: each jump still reaches the label of its own fragment. */
  lemma OwnLabel(fragments: seq<seq<Instr>>, f: nat, i: nat)
    requires f < |fragments| && AllShaped(fragments[f]) && i < |fragments[f]|
    requires IsJump(fragments[f][i]) && Target(fragments[f], i).Some?
    ensures var out, at := Joined(fragments), Offset(fragments, f);
            && at + |fragments[f]| <= |out|
            && Target(out, at + i) == Some(at + Target(fragments[f], i).value)
  {
    var after := Split(fragments, f);
    TargetKept(Joined(fragments[..f]), fragments[f], after, i);
  }

  // --- Printing ---

  /** The ordinals of all labels. */
  method CountLabels(labels: seq<Label>, ghost instrs: seq<Instr>) returns (indices: seq<nat>)
    requires LabelsOf(labels, instrs)
    ensures |indices| == |labels|
    ensures forall k | 0 <= k < |labels| :: indices[k] == Ordinal(instrs, labels[k].idx)
  {
    indices := [];
    var k := 0;
    while k < |labels|
      invariant 0 <= k <= |labels| == |indices| + (|labels| - k)
      invariant forall m | 0 <= m < k :: indices[m] == Ordinal(instrs, labels[m].idx)
    {
      var count := 0;
      var j := 0;
      CountFirst(instrs, labels, labels[k].name);
      while j < k
        invariant 0 <= j <= k
        invariant count == CountOf(instrs, labels[j].idx, labels[k].name)
      {
        CountTo(instrs, labels, j, labels[k].name);
        if labels[j].name == labels[k].name {
          count := count + 1;
        }
        j := j + 1;
      }
      indices := indices + [count];
      k := k + 1;
    }
  }

  /** Between one label and the next there are no others. */
  lemma CountTo(instrs: seq<Instr>, labels: seq<Label>, j: nat, name: Atom)
    requires LabelsOf(labels, instrs) && j + 1 < |labels|
    ensures CountOf(instrs, labels[j + 1].idx, name) ==
            CountOf(instrs, labels[j].idx, name) + (if labels[j].name == name then 1 else 0)
  {
    var from, to := labels[j].idx, labels[j + 1].idx;
    forall i | from < i < to ensures !IsLabel(instrs[i]) {
      if IsLabel(instrs[i]) { var k := Listed(labels, instrs, i); }
    }
    NoneCounted(instrs, from + 1, to, name);
  }

  lemma CountFirst(instrs: seq<Instr>, labels: seq<Label>, name: Atom)
    requires LabelsOf(labels, instrs) && labels != []
    ensures CountOf(instrs, labels[0].idx, name) == 0
  {
    forall i | 0 <= i < labels[0].idx ensures !IsLabel(instrs[i]) {
      if IsLabel(instrs[i]) { var k := Listed(labels, instrs, i); }
    }
    NoneCounted(instrs, 0, labels[0].idx, name);
  }

  lemma {:induction false} NoneCounted(instrs: seq<Instr>, from: nat, end: nat, name: Atom)
    requires from <= end <= |instrs| && forall i | from <= i < end :: !IsLabel(instrs[i])
    ensures CountOf(instrs, end, name) == CountOf(instrs, from, name)
    decreases end
  {
    if from < end { NoneCounted(instrs, from, end - 1, name); }
  }

  /** What is printed for a label: its name and, unless it is the first of that name, its ordinal. */
  datatype Printed = Printed(name: Atom, ordinal: nat)

  function PrintedAt(instrs: seq<Instr>, i: nat): Printed
    requires i < |instrs| && IsLabel(instrs[i])
  {
    Printed(instrs[i].arg1.name, Ordinal(instrs, i))
  }

  /** No two labels are printed alike. */
  lemma PrintedApart(instrs: seq<Instr>, i: nat, j: nat)
    requires i < j < |instrs| && IsLabel(instrs[i]) && IsLabel(instrs[j])
    ensures PrintedAt(instrs, i) != PrintedAt(instrs, j)
  {
    CountGrows(instrs, i + 1, j, instrs[i].arg1.name);
  }

  lemma {:induction false} CountGrows(instrs: seq<Instr>, from: nat, end: nat, name: Atom)
    requires from <= end <= |instrs|
    ensures CountOf(instrs, from, name) <= CountOf(instrs, end, name)
    decreases end
  {
    if from < end { CountGrows(instrs, from, end - 1, name); }
  }

  /** What is printed for the label of a label instruction, or for a jump's. */
  method EmitLabel(instrs: seq<Instr>, i: nat, labels: seq<Label>, indices: seq<nat>) returns (r: Option<Printed>)
    requires i < |instrs| && (IsJump(instrs[i]) || IsLabel(instrs[i])) && LabelsOf(labels, instrs)
    requires |indices| == |labels| && forall k | 0 <= k < |labels| :: indices[k] == Ordinal(instrs, labels[k].idx)
    ensures IsLabel(instrs[i]) ==> r == Some(PrintedAt(instrs, i))
    ensures IsJump(instrs[i]) ==>
              match Target(instrs, i) case None => r == None case Some(t) => r == Some(PrintedAt(instrs, t))
  {
    var at: Option<nat> := None;
    if IsLabel(instrs[i]) {
      at := FindLabelByIdx(labels, i, instrs);
    } else {
      match JumpArg(instrs[i]) {
        case LabelArg(name) =>
          var found := FindLabelByName(labels, name, instrs);
          if found.Some? { at := FindLabelByIdx(labels, found.value.idx, instrs); }
        case RelArg(offset) =>
          at := FindLabelByIdx(labels, i + offset, instrs);
        case PlainArg =>
      }
    }
    if at.None? {
      return None;
    }
    return Some(Printed(labels[at.value].name, indices[at.value]));
  }

  /** Emitted together, a jump and a label print the same exactly when the label is the one of the jump's own
      fragment that it named. */
  lemma PrintsOwnLabel(fragments: seq<seq<Instr>>, f: nat, i: nat, l: nat)
    requires f < |fragments| && AllShaped(fragments[f]) && i < |fragments[f]|
    requires IsJump(fragments[f][i]) && Target(fragments[f], i).Some?
    requires l < |Joined(fragments)| && IsLabel(Joined(fragments)[l])
    ensures var out, at := Joined(fragments), Offset(fragments, f);
            && at + i < |out| && Target(out, at + i).Some?
            && (PrintedAt(out, Target(out, at + i).value) == PrintedAt(out, l) <==> l == at + Target(fragments[f], i).value)
  {
    OwnLabel(fragments, f, i);
    var out := Joined(fragments);
    var t := Offset(fragments, f) + Target(fragments[f], i).value;
    if l < t { PrintedApart(out, l, t); }
    if t < l { PrintedApart(out, t, l); }
  }
}
