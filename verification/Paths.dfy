/** The path from one directory to another. */
module Paths {
  const SEP := '/'

  /** A name a normalised path may have between separators. */
  predicate Segment(s: string) { s != "" && SEP !in s && s != "." && s != ".." }

  predicate Segments(ss: seq<string>) { forall k | 0 <= k < |ss| :: Segment(ss[k]) }

  /** Names with separators between them. */
  function Join(ss: seq<string>): string {
    if ss == [] then "" else if |ss| == 1 then ss[0] else ss[0] + [SEP] + Join(ss[1..])
  }

  /** A normalised absolute path. */
  function PathOf(ss: seq<string>): string { [SEP] + Join(ss) }

  // --- What a relative path means ---

  /** The names between separators. */
  function Split(s: string): (r: seq<string>)
    ensures r != []
  {
    if s == "" then [""] else
    var rest := Split(s[1..]);
    if s[0] == SEP then [""] + rest else [[s[0]] + rest[0]] + rest[1..]
  }

  /** Follow names from a directory. */
  function Follow(dir: seq<string>, names: seq<string>): seq<string>
    decreases |names|
  {
    if names == [] then dir
    else if names[0] == "." then Follow(dir, names[1..])
    else if names[0] == ".." then Follow(if dir == [] then [] else dir[..|dir| - 1], names[1..])
    else Follow(dir + [names[0]], names[1..])
  }

  function Resolve(dir: seq<string>, relative: string): seq<string> { Follow(dir, Split(relative)) }

  // --- The code ---

  predicate AtEnd(s: string, k: nat) { k >= |s| || s[k] == SEP }

  /** Equal up to k, which ends a name, or a separator, in both. */
  ghost predicate Boundary(lhs: string, rhs: string, k: nat) {
    && k <= |lhs| && k <= |rhs| && lhs[..k] == rhs[..k]
    && (k == 0 || lhs[k - 1] == SEP || (AtEnd(lhs, k) && AtEnd(rhs, k)))
  }

  ghost predicate LastBoundary(lhs: string, rhs: string, k: nat) {
    Boundary(lhs, rhs, k) && forall j: nat | Boundary(lhs, rhs, j) :: j <= k
  }

  method CommonPrefixLength(lhs: string, rhs: string) returns (res: nat)
    ensures LastBoundary(lhs, rhs, res)
  {
    var i := 0;
    res := 0;
    while i < |lhs| && i < |rhs| && lhs[i] == rhs[i]
      invariant 0 <= i <= |lhs| && i <= |rhs| && lhs[..i] == rhs[..i]
      invariant res <= i && Boundary(lhs, rhs, res) && (res == 0 || lhs[res - 1] == SEP)
      invariant forall j | res <= j < i :: lhs[j] != SEP
    {
      assert lhs[..i + 1] == lhs[..i] + [lhs[i]] && rhs[..i + 1] == rhs[..i] + [rhs[i]];
      i := i + 1;
      if lhs[i - 1] == SEP {
        res := i;
      }
    }
    ghost var last := res;
    if (i == |lhs| && i == |rhs|) || (i == |lhs| && rhs[i] == SEP) || (i == |rhs| && lhs[i] == SEP) {
      res := i;
    }
    forall j: nat | Boundary(lhs, rhs, j) ensures j <= res { NoneBeyond(lhs, rhs, i, last, j); }
  }

  /** Where the strings stop being equal, and no separator after the last one seen. */
  lemma NoneBeyond(lhs: string, rhs: string, i: nat, last: nat, j: nat)
    requires i <= |lhs| && i <= |rhs| && lhs[..i] == rhs[..i] && last <= i
    requires i == |lhs| || i == |rhs| || lhs[i] != rhs[i]
    requires forall k | last <= k < i :: lhs[k] != SEP
    requires Boundary(lhs, rhs, j)
    ensures j <= (if AtEnd(lhs, i) && AtEnd(rhs, i) then i else last)
  {
    SameUpTo(lhs, rhs, j);
  }

  lemma SameUpTo(lhs: string, rhs: string, j: nat)
    requires j <= |lhs| && j <= |rhs| && lhs[..j] == rhs[..j]
    ensures forall k | 0 <= k < j :: lhs[k] == rhs[k]
  {
    forall k | 0 <= k < j ensures lhs[k] == rhs[k] { assert lhs[..j][k] == rhs[..j][k]; }
  }

  /** ".." and one more for every separator. */
  function Dots(s: string): string {
    if s == "" then ".." else Dots(s[..|s| - 1]) + (if s[|s| - 1] == SEP then [SEP] + ".." else "")
  }

  /** The output, given what is left of both paths. */
  function Written(baseSuffix: string, pathSuffix: string): string {
    if baseSuffix != "" then Dots(baseSuffix) + (if pathSuffix != "" then [SEP] + pathSuffix else "")
    else if pathSuffix != "" then pathSuffix
    else "."
  }

  method WriteDots(baseSuffix: string) returns (sb: string)
    ensures sb == Dots(baseSuffix)
  {
    sb := "..";
    var k := 0;
    assert baseSuffix[..0] == "";
    while k < |baseSuffix|
      invariant 0 <= k <= |baseSuffix| && sb == Dots(baseSuffix[..k])
    {
      assert baseSuffix[..k + 1][..k] == baseSuffix[..k];
      if baseSuffix[k] == SEP {
        sb := sb + [SEP] + "..";
      }
      k := k + 1;
    }
    assert baseSuffix[..k] == baseSuffix;
  }

  /** What is left of a path from an offset, without a leading separator. */
  function Suffix(s: string, offset: nat): string
    requires offset <= |s|
  {
    if offset < |s| && s[offset] == SEP then s[offset + 1..] else s[offset..]
  }

  /** The relative path from fullBase to fullPath, in a buffer that is large enough; nothing if they share no
      prefix. */
  method RelativePath(fullPath: string, fullBase: string) returns (sb: string)
    ensures exists o: nat ::
              LastBoundary(fullBase, fullPath, o) &&
              sb == if o == 0 then "" else Written(Suffix(fullBase, o), Suffix(fullPath, o))
  {
    var offset := CommonPrefixLength(fullBase, fullPath);
    if offset == 0 {
      return "";
    }
    var pathSuffix, baseSuffix := fullPath[offset..], fullBase[offset..];
    if baseSuffix != "" && baseSuffix[0] == SEP {
      baseSuffix := baseSuffix[1..];
    }
    if pathSuffix != "" && pathSuffix[0] == SEP {
      pathSuffix := pathSuffix[1..];
    }
    assert baseSuffix == Suffix(fullBase, offset) && pathSuffix == Suffix(fullPath, offset);
    if baseSuffix != "" {
      sb := WriteDots(baseSuffix);
      if pathSuffix != "" {
        sb := sb + [SEP] + pathSuffix;
      }
    } else {
      if pathSuffix != "" {
        sb := pathSuffix;
      } else {
        sb := ".";
      }
    }
  }

  // --- Where the common prefix ends ---

  /** Number of leading names two paths share. */
  function Shared(b: seq<string>, f: seq<string>): (n: nat)
    ensures n <= |b| && n <= |f| && b[..n] == f[..n]
    ensures n < |b| && n < |f| ==> b[n] != f[n]
  {
    if b == [] || f == [] || b[0] != f[0] then 0 else
    var n := Shared(b[1..], f[1..]);
    assert b[..n + 1] == [b[0]] + b[1..][..n] && f[..n + 1] == [f[0]] + f[1..][..n];
    n + 1
  }

  lemma {:induction false} JoinConcat(a: seq<string>, b: seq<string>)
    requires a != [] && b != []
    ensures Join(a + b) == Join(a) + [SEP] + Join(b)
  {
    if |a| == 1 {
      assert (a + b)[1..] == b;
    } else {
      JoinConcat(a[1..], b);
      assert (a + b)[1..] == a[1..] + b && (a + b)[0] == a[0];
    }
  }

  /** Two different names after a common part that ends in a separator: the common part is the last boundary. */
  lemma Differ(p: string, x: string, xs: string, y: string, ys: string)
    requires p != "" && p[|p| - 1] == SEP && x != y && SEP !in x && SEP !in y
    requires xs == "" || xs[0] == SEP
    requires ys == "" || ys[0] == SEP
    ensures LastBoundary(p + x + xs, p + y + ys, |p|)
  {
    var lhs, rhs := p + x + xs, p + y + ys;
    assert lhs[..|p|] == p && rhs[..|p|] == p;
    forall j: nat | Boundary(lhs, rhs, j) ensures j <= |p| {
      if j > |p| { SameName(p, x, xs, y, ys, j); }
    }
  }

  /** A boundary beyond the common part lies beyond a common name. */
  lemma SameName(p: string, x: string, xs: string, y: string, ys: string, j: nat)
    requires p != "" && SEP !in x && SEP !in y
    requires xs == "" || xs[0] == SEP
    requires ys == "" || ys[0] == SEP
    requires j > |p| && Boundary(p + x + xs, p + y + ys, j)
    ensures x == y
  {
    var lhs, rhs := p + x + xs, p + y + ys;
    SameUpTo(lhs, rhs, j);
    NameAt(p, x, xs);
    NameAt(p, y, ys);
    var m, n := |p| + |x|, |p| + |y|;
    assert m <= j && n <= j;
    assert m == n;
    forall k | 0 <= k < |x| ensures x[k] == y[k] { assert lhs[|p| + k] == rhs[|p| + k]; }
  }

  lemma NameAt(p: string, x: string, xs: string)
    requires SEP !in x && (xs == "" || xs[0] == SEP)
    ensures var s := p + x + xs;
            && (forall k | |p| <= k < |p| + |x| :: s[k] == x[k - |p|] && s[k] != SEP)
            && (|p| + |x| < |s| ==> s[|p| + |x|] == SEP)
  {
    var s := p + x + xs;
    forall k | |p| <= k < |p| + |x| ensures s[k] == x[k - |p|] && s[k] != SEP { assert x[k - |p|] in x; }
  }

  lemma JoinHead(ss: seq<string>) returns (tail: string)
    requires Segments(ss) && ss != []
    ensures Join(ss) == ss[0] + tail && (tail == "" || tail[0] == SEP)
    ensures Join(ss) != "" && Join(ss)[0] != SEP && SEP !in ss[0]
  {
    assert Segment(ss[0]);
    assert ss[0][0] in ss[0];
    if |ss| == 1 {
      tail := "";
    } else {
      tail := [SEP] + Join(ss[1..]);
      assert Join(ss) == ss[0] + tail;
    }
  }

  /** A path split after its first n names. */
  function Front(ss: seq<string>, n: nat): string
    requires n <= |ss|
  {
    if n == 0 then [SEP] else PathOf(ss[..n]) + [SEP]
  }

  lemma PathParts(ss: seq<string>, n: nat)
    requires n < |ss|
    ensures PathOf(ss) == Front(ss, n) + Join(ss[n..])
  {
    if n == 0 {
      assert ss[0..] == ss;
    } else {
      assert ss == ss[..n] + ss[n..];
      JoinConcat(ss[..n], ss[n..]);
    }
  }

  lemma OneLast(lhs: string, rhs: string, j: nat, k: nat)
    requires LastBoundary(lhs, rhs, j) && LastBoundary(lhs, rhs, k)
    ensures j == k
  {}

  /** When one path is the other's ancestor, or the same. */
  lemma AncestorBoundary(a: seq<string>, d: seq<string>)
    requires Segments(a) && Segments(d) && |a| <= |d| && d[..|a|] == a
    ensures LastBoundary(PathOf(a), PathOf(d), |PathOf(a)|) && LastBoundary(PathOf(d), PathOf(a), |PathOf(a)|)
    ensures Suffix(PathOf(a), |PathOf(a)|) == "" == Join([]) && |PathOf(a)| <= |PathOf(d)|
    ensures Suffix(PathOf(d), |PathOf(a)|) == Join(d[|a|..])
  {
    var lhs, rhs, n := PathOf(a), PathOf(d), |a|;
    if n < |d| {
      PathParts(d, n);
      var tail := JoinHead(d[n..]);
    } else {
      assert a == d && d[n..] == [];
    }
    assert rhs[..|lhs|] == lhs;
  }

  lemma BranchBoundary(b: seq<string>, f: seq<string>, n: nat)
    requires Segments(b) && Segments(f) && n < |b| && n < |f| && b[..n] == f[..n] && b[n] != f[n]
    ensures var o := |Front(b, n)|;
            && LastBoundary(PathOf(b), PathOf(f), o)
            && o <= |PathOf(b)| && Suffix(PathOf(b), o) == Join(b[n..])
            && o <= |PathOf(f)| && Suffix(PathOf(f), o) == Join(f[n..])
  {
    var p := Front(b, n);
    PathParts(b, n);
    PathParts(f, n);
    var xs := JoinHead(b[n..]);
    var ys := JoinHead(f[n..]);
    assert p == Front(f, n);
    Differ(p, b[n], xs, f[n], ys);
    Assoc3(p, b[n], xs);
    Assoc3(p, f[n], ys);
  }

  lemma Assoc3(a: string, b: string, c: string)
    ensures a + (b + c) == a + b + c
  {}

  lemma Suffixes(b: seq<string>, f: seq<string>, o: nat)
    requires Segments(b) && Segments(f) && LastBoundary(PathOf(b), PathOf(f), o)
    ensures var n := Shared(b, f);
            && 0 < o <= |PathOf(b)| && o <= |PathOf(f)|
            && Suffix(PathOf(b), o) == Join(b[n..]) && Suffix(PathOf(f), o) == Join(f[n..])
  {
    var n := Shared(b, f);
    var o' := if n == |b| then |PathOf(b)| else if n == |f| then |PathOf(f)| else |Front(b, n)|;
    if n == |b| {
      assert b[..n] == b && b[n..] == [];
      AncestorBoundary(b, f);
    } else if n == |f| {
      assert f[..n] == f && f[n..] == [];
      AncestorBoundary(f, b);
    } else {
      BranchBoundary(b, f, n);
    }
    OneLast(PathOf(b), PathOf(f), o, o');
  }

  // --- The output resolves to the path ---

  function Ups(n: nat): (r: seq<string>)
    ensures |r| == n
  {
    if n == 0 then [] else [".."] + Ups(n - 1)
  }

  lemma {:induction false} DotsMore(s: string, x: string)
    requires SEP !in x
    ensures Dots(s + x) == if s == "" then ".." else Dots(s)
    decreases |x|
  {
    if x == "" {
      assert s + x == s;
    } else {
      var init := x[..|x| - 1];
      assert (s + x)[..|s + x| - 1] == s + init && (s + x)[|s + x| - 1] == x[|x| - 1];
      DotsMore(s, init);
    }
  }

  lemma DotsNone(x: string)
    requires SEP !in x
    ensures Dots(x) == ".."
  {
    DotsMore("", x);
    assert "" + x == x;
  }

  lemma {:induction false} UpsSnoc(n: nat)
    ensures Ups(n + 1) == Ups(n) + [".."]
  {
    if n > 0 { UpsSnoc(n - 1); }
  }

  /** One ".." for every name. */
  lemma {:induction false} DotsJoin(ss: seq<string>)
    requires Segments(ss) && ss != []
    ensures Dots(Join(ss)) == Join(Ups(|ss|))
    decreases |ss|
  {
    var n := |ss| - 1;
    if n == 0 {
      DotsNone(ss[0]);
      assert Ups(1) == [".."];
    } else {
      var init, last := ss[..n], ss[n];
      DotsJoin(init);
      assert ss == init + [last];
      JoinConcat(init, [last]);
      var front := Join(init) + [SEP];
      DotsMore(front, last);
      assert front[..|front| - 1] == Join(init);
      UpsSnoc(n);
      JoinConcat(Ups(n), [".."]);
    }
  }

  lemma {:induction false} SplitName(x: string, rest: string)
    requires SEP !in x
    ensures Split(x) == [x]
    ensures Split(x + [SEP] + rest) == [x] + Split(rest)
  {
    var s := x + [SEP] + rest;
    if x == "" {
      assert s[1..] == rest;
    } else {
      SplitName(x[1..], rest);
      assert s[1..] == x[1..] + [SEP] + rest && s[0] == x[0];
      assert [x[0]] + x[1..] == x;
    }
  }

  lemma {:induction false} SplitJoin(ss: seq<string>)
    requires ss != [] && forall k | 0 <= k < |ss| :: SEP !in ss[k]
    ensures Split(Join(ss)) == ss
  {
    SplitName(ss[0], if |ss| == 1 then "" else Join(ss[1..]));
    if |ss| > 1 { SplitJoin(ss[1..]); }
  }

  lemma {:induction false} FollowDown(dir: seq<string>, names: seq<string>)
    requires Segments(names)
    ensures Follow(dir, names) == dir + names
    decreases |names|
  {
    if names != [] {
      assert Segment(names[0]);
      FollowDown(dir + [names[0]], names[1..]);
      assert dir + [names[0]] + names[1..] == dir + names;
    }
  }

  lemma {:induction false} FollowUp(dir: seq<string>, n: nat, names: seq<string>)
    requires n <= |dir|
    ensures Follow(dir, Ups(n) + names) == Follow(dir[..|dir| - n], names)
    decreases n
  {
    if n == 0 {
      assert Ups(0) + names == names && dir[..|dir|] == dir;
    } else {
      var up := dir[..|dir| - 1];
      FollowUp(up, n - 1, names);
      OneUp(dir, Ups(n - 1) + names);
      UpsCons(n, names);
      hide *;
      assert up[..|up| - (n - 1)] == dir[..|dir| - n];
    }
  }

  lemma OneUp(dir: seq<string>, names: seq<string>)
    requires dir != []
    ensures Follow(dir, [".."] + names) == Follow(dir[..|dir| - 1], names)
  {
    assert ([".."] + names)[1..] == names;
  }

  lemma UpsCons(n: nat, names: seq<string>)
    requires n > 0
    ensures Ups(n) + names == [".."] + (Ups(n - 1) + names)
  {}

  lemma {:induction false} UpsPlain(n: nat)
    ensures forall k | 0 <= k < n :: Ups(n)[k] == ".."
  {
    if n > 0 { UpsPlain(n - 1); }
  }

  /** What is written: up once per name of the base beyond the shared ones, then down the rest of the path. */
  lemma WrittenIs(bs: seq<string>, fs: seq<string>)
    requires Segments(bs) && Segments(fs)
    ensures Written(Join(bs), Join(fs)) == if bs == [] && fs == [] then "." else Join(Ups(|bs|) + fs)
  {
    if bs != [] {
      var tail := JoinHead(bs);
      DotsJoin(bs);
    }
    if fs != [] { var tail := JoinHead(fs); }
    hide Join, Dots, Ups, Segments, Segment;
    NoJoin();
    if bs != [] && fs != [] {
      JoinConcat(Ups(|bs|), fs);
      Assoc3(Join(Ups(|bs|)), [SEP], Join(fs));
    } else if bs != [] {
      assert Ups(|bs|) + [] == Ups(|bs|);
    } else {
      assert Ups(0) + fs == fs;
    }
  }

  lemma NoJoin()
    ensures Join([]) == ""
  {}

  lemma Resolves(b: seq<string>, f: seq<string>)
    requires Segments(b) && Segments(f)
    ensures var n := Shared(b, f); Resolve(b, Written(Join(b[n..]), Join(f[n..]))) == f
  {
    var n := Shared(b, f);
    WrittenIs(b[n..], f[n..]);
    hide Follow, Split, Join, Written, Resolve;
    if n == |b| && n == |f| {
      assert b == f by { assert b[..n] == b && f[..n] == f; }
      DotStays(b);
    } else {
      UpAndDown(b, f, n);
    }
  }

  lemma UpAndDown(b: seq<string>, f: seq<string>, n: nat)
    requires Segments(f) && n <= |b| && n <= |f| && b[..n] == f[..n] && (n < |b| || n < |f|)
    ensures Resolve(b, Join(Ups(|b| - n) + f[n..])) == f
  {
    var names := Ups(|b| - n) + f[n..];
    NamesPlain(|b| - n, f[n..]);
    hide *;
    SplitJoin(names);
    FollowUp(b, |b| - n, f[n..]);
    FollowDown(b[..n], f[n..]);
    assert b[..n] + f[n..] == f;
    ResolveIs(b, Join(names));
  }

  lemma DotStays(dir: seq<string>)
    ensures Resolve(dir, ".") == dir
  {
    SplitName(".", "");
    assert ["."][1..] == [];
  }

  lemma NamesPlain(n: nat, down: seq<string>)
    requires Segments(down)
    ensures forall k | 0 <= k < |Ups(n) + down| :: SEP !in (Ups(n) + down)[k]
  {
    UpsPlain(n);
    forall k | 0 <= k < |Ups(n) + down| ensures SEP !in (Ups(n) + down)[k] {
      if k >= n { assert Segment(down[k - n]); }
    }
  }

  lemma ResolveIs(dir: seq<string>, relative: string)
    ensures Resolve(dir, relative) == Follow(dir, Split(relative))
  {}

  /** For normalised absolute paths: following the result from the base leads to the path, and it goes up exactly
      once for each name of the base that the two do not share. */
  method RelativePathOf(f: seq<string>, b: seq<string>) returns (sb: string)
    requires Segments(b) && Segments(f)
    ensures Resolve(b, sb) == f
    ensures var n := Shared(b, f); sb == if b == f then "." else Join(Ups(|b| - n) + f[n..])
  {
    hide Written, Resolve, Join, Ups, Shared, PathOf, Suffix;
    sb := RelativePath(PathOf(f), PathOf(b));
    ghost var o: nat :| LastBoundary(PathOf(b), PathOf(f), o) &&
      sb == if o == 0 then "" else Written(Suffix(PathOf(b), o), Suffix(PathOf(f), o));
    Suffixes(b, f, o);
    Resolves(b, f);
    WrittenIs(b[Shared(b, f)..], f[Shared(b, f)..]);
    SharedAll(b, f);
  }

  lemma SharedAll(b: seq<string>, f: seq<string>)
    ensures Shared(b, f) == |b| == |f| <==> b == f
  {
    if b == f { SharedSelf(b); }
    if Shared(b, f) == |b| == |f| { assert b[..|b|] == b && f[..|f|] == f; }
  }

  lemma {:induction false} SharedSelf(b: seq<string>)
    ensures Shared(b, b) == |b|
  {
    if b != [] { SharedSelf(b[1..]); }
  }
}
