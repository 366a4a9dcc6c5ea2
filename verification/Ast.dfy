/** The syntax tree as a flat array in preorder: parsing into it, and walking it. */
module Ast {
  datatype Option<+T> = None | Some(value: T)

  /** Tokens with their text; a string's text is without its quotes. */
  datatype Token =
    | Eof | ParL | ParR | BrL | BrR
    | Id(text: string) | Int(text: string) | Float(text: string) | Str(text: string) | EscStr(text: string)
    | Unknown(text: string)

  datatype Node = Node(id: Option<string>, token: nat, arity: nat, totalChildren: nat)

  /** What the flat array stands for. */
  datatype Tree =
    | Form(name: Token, kids: seq<Tree>)   // (name kid ...)
    | Unit                                 // ()
    | List(kids: seq<Tree>)                // [kid ...]
    | Leaf(tok: Token)

  predicate IsName(t: Token) { t.Id? || t.Str? }

  predicate IsLeaf(t: Token) { t.Id? || t.Int? || t.Float? || t.Str? || t.EscStr? }

  predicate Ends(t: Token) { t.Eof? || t.BrR? || t.ParR? }

  predicate Proper(t: Tree) {
    match t
    case Form(name, kids) => (name.Id? || name.Str?) && forall k | 0 <= k < |kids| :: Proper(kids[k])
    case Unit => true
    case List(kids) => forall k | 0 <= k < |kids| :: Proper(kids[k])
    case Leaf(tok) => tok.Id? || tok.Int? || tok.Float? || tok.Str? || tok.EscStr?
  }

  predicate AllProper(ts: seq<Tree>) { forall k | 0 <= k < |ts| :: Proper(ts[k]) }

  // --- Printing ---

  function Print(t: Tree): (r: seq<Token>)
    ensures r != []
  {
    match t
    case Form(name, kids) => [ParL, name] + PrintAll(kids) + [ParR]
    case Unit => [ParL, ParR]
    case List(kids) => [BrL] + PrintAll(kids) + [BrR]
    case Leaf(tok) => [tok]
  }

  function PrintAll(ts: seq<Tree>): seq<Token> {
    if ts == [] then [] else Print(ts[0]) + PrintAll(ts[1..])
  }

  // --- The preorder array ---

  function LeafName(t: Token): string {
    match t
    case Id(_) => "id"
    case Int(_) => "int"
    case Float(_) => "float"
    case Str(_) => "string"
    case _ => "escaped_string"
  }

  /** The nodes of a tree whose tokens begin at a position: the tree's own, then its children's in order. */
  function Flat(t: Tree, at: nat): (r: seq<Node>)
    requires Proper(t)
    ensures r != []
    decreases t, 1
  {
    match t
    case Form(name, kids) => WithKids(Some(name.text), at + 1, kids, at + 2)
    case Unit => [Node(None, at, 0, 0)]
    case List(kids) => WithKids(Some("list"), at, kids, at + 1)
    case Leaf(tok) => [Node(Some(LeafName(tok)), at, 0, 0)]
  }

  function WithKids(id: Option<string>, token: nat, kids: seq<Tree>, at: nat): (r: seq<Node>)
    requires AllProper(kids)
    ensures r != []
    decreases kids, 1
  {
    var rest := FlatAll(kids, at);
    [Node(id, token, |kids|, |rest|)] + rest
  }

  function FlatAll(ts: seq<Tree>, at: nat): seq<Node>
    requires AllProper(ts)
    decreases ts, 0
  {
    if ts == [] then [] else Flat(ts[0], at) + FlatAll(ts[1..], at + |Print(ts[0])|)
  }

  // --- Reading, as a specification ---

  /** The tree at the front of a token stream and how many tokens it takes. */
  function Read(s: seq<Token>): (r: Option<(Tree, nat)>)
    ensures r.Some? ==> 0 < r.value.1 <= |s| && Proper(r.value.0)
    decreases |s|, 0
  {
    if s == [] then None
    else if s[0].ParL? then
      if |s| == 1 then None
      else if s[1].ParR? then Some((Unit, 2))
      else if !IsName(s[1]) then None
      else (match ReadAll(s[2..])
            case None => None
            case Some((kids, n)) =>
              if 2 + n < |s| && s[2 + n].ParR? then Some((Form(s[1], kids), 2 + n + 1)) else None)
    else if s[0].BrL? then
      (match ReadAll(s[1..])
       case None => None
       case Some((kids, n)) => if 1 + n < |s| && s[1 + n].BrR? then Some((List(kids), 1 + n + 1)) else None)
    else if IsLeaf(s[0]) then Some((Leaf(s[0]), 1))
    else None
  }

  /** The trees up to something that ends a list. */
  function ReadAll(s: seq<Token>): (r: Option<(seq<Tree>, nat)>)
    ensures r.Some? ==> r.value.1 < |s| && Ends(s[r.value.1]) && AllProper(r.value.0)
    decreases |s|, 1
  {
    if s == [] then None
    else if Ends(s[0]) then Some(([], 0))
    else match Read(s)
      case None => None
      case Some((t, n)) =>
        match ReadAll(s[n..])
        case None => None
        case Some((ts, m)) => Some(([t] + ts, n + m))
  }

  /** Whatever is read is what was there. */
  lemma {:induction false} ReadSound(s: seq<Token>)
    requires Read(s).Some?
    ensures Print(Read(s).value.0) == s[..Read(s).value.1]
    decreases |s|, 0
  {
    if s[0].ParL? && !s[1].ParR? {
      ReadAllSound(s[2..]);
      var (kids, n) := ReadAll(s[2..]).value;
      Enclosed(s, 2, n, PrintAll(kids));
      hide PrintAll, ReadAll;
    } else if s[0].ParL? {
      assert s[..2] == [s[0], s[1]];
    } else if s[0].BrL? {
      ReadAllSound(s[1..]);
      var (kids, n) := ReadAll(s[1..]).value;
      Enclosed(s, 1, n, PrintAll(kids));
      hide PrintAll, ReadAll;
    }
  }

  lemma Enclosed(s: seq<Token>, k: nat, n: nat, inner: seq<Token>)
    requires 1 <= k <= 2 && k + n < |s| && s[k..][..n] == inner
    ensures s[..k + n + 1] == (if k == 2 then [s[0], s[1]] else [s[0]]) + inner + [s[k + n]]
  {
    assert s[..k] == if k == 2 then [s[0], s[1]] else [s[0]];
    assert s[..k + n + 1] == s[..k] + s[k..][..n] + [s[k + n]];
  }

  lemma {:induction false} ReadAllSound(s: seq<Token>)
    requires ReadAll(s).Some?
    ensures PrintAll(ReadAll(s).value.0) == s[..ReadAll(s).value.1]
    decreases |s|, 1
  {
    if !Ends(s[0]) {
      ReadFirst(s);
      hide Read, ReadAll, Print, PrintAll, Ends, AllProper, Proper;
      ReadSound(s);
      var (t, n) := Read(s).value;
      ReadAllSound(s[n..]);
      var (ts, m) := ReadAll(s[n..]).value;
      FirstAndRest(s, t, n, ts, m);
    }
  }

  lemma FirstAndRest(s: seq<Token>, t: Tree, n: nat, ts: seq<Tree>, m: nat)
    requires n <= |s| && m <= |s[n..]| && Print(t) == s[..n] && PrintAll(ts) == s[n..][..m]
    ensures PrintAll([t] + ts) == s[..n + m]
  {
    hide Print, PrintAll;
    PrintMore(t, ts);
  }

  /** The first tree, then the rest. */
  lemma ReadFirst(s: seq<Token>)
    requires s != [] && !Ends(s[0])
    ensures Read(s) == None ==> ReadAll(s) == None
    ensures Read(s).Some? ==> var (t, n) := Read(s).value; n <= |s| && ReadAll(s) == Joined([t], n, ReadAll(s[n..]))
  {
    hide Read;
  }

  lemma PrintMore(t: Tree, ts: seq<Tree>)
    ensures PrintAll([t] + ts) == Print(t) + PrintAll(ts)
  {
    assert ([t] + ts)[1..] == ts;
  }

  /** Every tree reads back from its printed tokens, whatever follows. */
  lemma {:induction false} ReadPrinted(t: Tree, rest: seq<Token>)
    requires Proper(t)
    ensures Read(Print(t) + rest) == Some((t, |Print(t)|))
    decreases t, 0
  {
    match t
    case Form(name, kids) =>
      ReadAllPrinted(kids, [ParR] + rest);
      ReadNamed(name, PrintAll(kids), rest, kids);
    case Unit =>
    case List(kids) =>
      ReadAllPrinted(kids, [BrR] + rest);
      ReadListed(PrintAll(kids), rest, kids);
    case Leaf(_) =>
  }

  /** A form whose children are known to read back. */
  lemma ReadNamed(name: Token, inner: seq<Token>, rest: seq<Token>, kids: seq<Tree>)
    requires IsName(name) && ReadAll(inner + ([ParR] + rest)) == Some((kids, |inner|))
    ensures Read([ParL, name] + inner + [ParR] + rest) == Some((Form(name, kids), 2 + |inner| + 1))
  {
    var s := [ParL, name] + inner + [ParR] + rest;
    EnclosedParts([ParL, name], inner, ParR, rest);
    hide ReadAll;
    assert s[0] == ParL && s[1] == name;
  }

  lemma ReadListed(inner: seq<Token>, rest: seq<Token>, kids: seq<Tree>)
    requires ReadAll(inner + ([BrR] + rest)) == Some((kids, |inner|))
    ensures Read([BrL] + inner + [BrR] + rest) == Some((List(kids), 1 + |inner| + 1))
  {
    var s := [BrL] + inner + [BrR] + rest;
    EnclosedParts([BrL], inner, BrR, rest);
    hide ReadAll;
    assert s[0] == BrL;
  }

  lemma EnclosedParts(open: seq<Token>, inner: seq<Token>, close: Token, rest: seq<Token>)
    ensures var s := open + inner + [close] + rest;
            s[|open|..] == inner + ([close] + rest) && s[|open| + |inner|] == close
  {}

  lemma {:induction false} ReadAllPrinted(ts: seq<Tree>, rest: seq<Token>)
    requires AllProper(ts) && rest != [] && Ends(rest[0])
    ensures ReadAll(PrintAll(ts) + rest) == Some((ts, |PrintAll(ts)|))
    decreases ts, 1
  {
    if ts == [] {
      assert PrintAll(ts) + rest == rest;
    } else {
      var first, tail := Print(ts[0]), PrintAll(ts[1..]) + rest;
      ReadPrinted(ts[0], tail);
      ReadAllPrinted(ts[1..], rest);
      FirstStarts(ts[0]);
      hide Read, ReadAll, Print, Ends, Proper;
      TokensAssoc(first, PrintAll(ts[1..]), rest);
      ReadAllCons(ts[0], first, tail, ts[1..], |PrintAll(ts[1..])|);
      assert [ts[0]] + ts[1..] == ts;
    }
  }

  lemma ReadAllCons(t: Tree, first: seq<Token>, tail: seq<Token>, ts: seq<Tree>, m: nat)
    requires first != [] && !Ends(first[0])
    requires Read(first + tail) == Some((t, |first|)) && ReadAll(tail) == Some((ts, m))
    ensures ReadAll(first + tail) == Some(([t] + ts, |first| + m))
  {
    hide *;
    var s := first + tail;
    assert s[0] == first[0] && s[|first|..] == tail;
    ReadAllUnfold(s, tail, t, |first|, ts, m);
  }

  lemma ReadAllUnfold(s: seq<Token>, u: seq<Token>, t: Tree, n: nat, ts: seq<Tree>, m: nat)
    requires s != [] && !Ends(s[0]) && n <= |s| && u == s[n..]
    requires Read(s) == Some((t, n)) && ReadAll(u) == Some((ts, m))
    ensures ReadAll(s) == Some(([t] + ts, n + m))
  {
    hide Read;
  }

  lemma FirstStarts(t: Tree)
    requires Proper(t)
    ensures !Ends(Print(t)[0])
  {}

  // --- The parser ---

  class Parser {
    const tokens: seq<Token>
    var nodes: seq<Node>
    var cur: nat

    constructor (tokens: seq<Token>)
      requires tokens != [] && tokens[|tokens| - 1].Eof?
      ensures this.tokens == tokens && nodes == [] && cur == 0 && Valid()
    {
      this.tokens, nodes, cur := tokens, [], 0;
    }

    /** The stream ends in its end marker, which is never passed. */
    ghost predicate Valid()
      reads this
    {
      cur < |tokens| && tokens[|tokens| - 1].Eof?
    }

    ghost function Rest(): seq<Token>
      requires Valid()
      reads this
    {
      tokens[cur..]
    }

    method GetToken()
      requires Valid() && !tokens[cur].Eof?
      modifies `cur
      ensures Valid() && cur == old(cur) + 1
    {
      cur := cur + 1;
    }

    /** The whole stream: a list up to the end marker. */
    method Parse() returns (ok: bool)
      requires Valid() && cur == 0 && nodes == []
      modifies this
      ensures ok <==> ReadAll(tokens).Some? && tokens[ReadAll(tokens).value.1].Eof?
      ensures ok ==> nodes == WithKids(Some("list"), 0, ReadAll(tokens).value.0, 0)
    {
      hide ReadAll, Completed, WithKids;
      nodes := [Node(None, cur, 0, 0)];
      nodes := nodes[0 := nodes[0].(id := Some("list"))];
      nodes := nodes[0 := nodes[0].(totalChildren := |nodes|)];
      assert Rest() == tokens;
      ghost var nodes1 := nodes;
      ok := ParseNodeList(0);
      if !ok || !tokens[cur].Eof? {
        return false;
      }
      CompletedIs(nodes1, 0, ReadAll(tokens).value.0, 0);
    }

    /** One tree, if there is one at the front; its nodes are appended. */
    method ParseNode() returns (ok: bool)
      requires Valid()
      modifies this
      decreases |tokens| - cur, 2
      ensures ok <==> Read(old(Rest())).Some?
      ensures ok ==> Valid() && cur == old(cur) + Read(old(Rest())).value.1
      ensures ok ==> nodes == old(nodes) + Flat(Read(old(Rest())).value.0, old(cur))
    {
      ghost var s, start := Rest(), cur;
      hide Flat, ReadAll, Read, Print;
      nodes := nodes + [Node(None, cur, 0, 0)];
      if tokens[cur].ParL? {
        ok := ParseForm();
      } else if tokens[cur].BrL? {
        ok := ParseList();
      } else if IsLeaf(tokens[cur]) {
        ReadLeafIs(s, start);
        nodes := nodes[|nodes| - 1 := nodes[|nodes| - 1].(id := Some(LeafName(tokens[cur])))];
        GetToken();
        ok := true;
      } else {
        ReadNoneIs(s);
        ok := false;
      }
    }

    /** A form, whose node has just been appended: nothing in it, or a name and children. */
    method ParseForm() returns (ok: bool)
      requires Valid() && tokens[cur].ParL? && nodes != [] && nodes[|nodes| - 1] == Node(None, cur, 0, 0)
      modifies this
      decreases |tokens| - cur, 1
      ensures ok <==> Read(old(Rest())).Some?
      ensures ok ==> Valid() && cur == old(cur) + Read(old(Rest())).value.1
      ensures ok ==> nodes == old(nodes)[..|old(nodes)| - 1] + Flat(Read(old(Rest())).value.0, old(cur))
    {
      ghost var s, start := Rest(), cur;
      hide Flat, ReadAll, Read, Print, WithKids, IsName;
      var at := |nodes| - 1;
      GetToken();
      assert s[1] == tokens[cur];
      ReadFormIs(s, start);
      if tokens[cur].ParR? {
        GetToken();
        assert nodes == nodes[..at] + [nodes[at]];
        return true;
      }
      if !IsName(tokens[cur]) {
        return false;
      }
      var name := tokens[cur];
      NameText(name);
      GetToken();
      assert s[2..] == Rest();
      ReadNamedIs(s, Rest(), start);
      ok := ParseEnclosed(name.text, nodes[at].token + 1, ParR);
    }

    /** A list, whose node has just been appended. */
    method ParseList() returns (ok: bool)
      requires Valid() && tokens[cur].BrL? && nodes != [] && nodes[|nodes| - 1] == Node(None, cur, 0, 0)
      modifies this
      decreases |tokens| - cur, 1
      ensures ok <==> Read(old(Rest())).Some?
      ensures ok ==> Valid() && cur == old(cur) + Read(old(Rest())).value.1
      ensures ok ==> nodes == old(nodes)[..|old(nodes)| - 1] + Flat(Read(old(Rest())).value.0, old(cur))
    {
      ghost var s, start := Rest(), cur;
      hide Flat, ReadAll, Read, Print, WithKids;
      GetToken();
      assert s[1..] == Rest();
      ReadListIs(s, Rest(), start);
      ok := ParseEnclosed("list", nodes[|nodes| - 1].token, BrR);
    }

    /** The last node gets its name and token, then its children, then the closing token is due. */
    method ParseEnclosed(id: string, token: nat, close: Token) returns (ok: bool)
      requires Valid() && nodes != [] && nodes[|nodes| - 1].arity == 0 && (close == ParR || close == BrR)
      modifies this
      decreases |tokens| - cur, 5
      ensures ok <==> ReadAll(old(Rest())).Some? && old(Rest())[ReadAll(old(Rest())).value.1] == close
      ensures ok ==> Valid() && cur == old(cur) + ReadAll(old(Rest())).value.1 + 1
      ensures ok ==> nodes == old(nodes)[..|old(nodes)| - 1] + WithKids(Some(id), token, ReadAll(old(Rest())).value.0, old(cur))
    {
      ghost var s, start := Rest(), cur;
      hide ReadAll, Completed, WithKids;
      var at := |nodes| - 1;
      nodes := nodes[at := nodes[at].(id := Some(id))];
      nodes := nodes[at := nodes[at].(token := token)];
      nodes := nodes[at := nodes[at].(totalChildren := |nodes|)];
      ghost var nodes1 := nodes;
      ok := ParseNodeList(at);
      if !ok || tokens[cur] != close {
        return false;
      }
      CompletedIs(nodes1, at, ReadAll(s).value.0, start);
      GetToken();
    }

    /** The children of a node, up to whatever ends their list, counting them; the space they took completes the
        node. */
    method ParseNodeList(at: nat) returns (ok: bool)
      requires Valid() && at < |nodes| && nodes[at].arity == 0 && nodes[at].totalChildren == |nodes|
      modifies this
      decreases |tokens| - cur, 4
      ensures ok <==> ReadAll(old(Rest())).Some?
      ensures ok ==> Valid() && cur == old(cur) + ReadAll(old(Rest())).value.1
      ensures ok ==> nodes == Completed(old(nodes), at, ReadAll(old(Rest())).value.0, old(cur))
    {
      ghost var s, start, nodes0 := Rest(), cur, nodes;
      ghost var done: seq<Tree> := [];
      ReadingStarts(s, nodes, at, start);
      hide Reading, Ends, ReadAll, Completed;
      while !Ends(tokens[cur])
        invariant Valid() && start <= cur && s == tokens[start..]
        invariant Reading(s, cur - start, done, nodes0, nodes, at, start)
        decreases |tokens| - cur
      {
        ghost var t;
        ok, t := ParseKid(at, s, start, done, nodes0);
        if !ok {
          return false;
        }
        done := done + [t];
      }
      ReadingEnds(s, cur - start, done, nodes0, nodes, at, start);
      nodes := nodes[at := nodes[at].(totalChildren := |nodes| - nodes[at].totalChildren)];
      return true;
    }

    /** One more child. */
    method ParseKid(at: nat, ghost s: seq<Token>, ghost start: nat, ghost done: seq<Tree>, ghost nodes0: seq<Node>)
      returns (ok: bool, ghost t: Tree)
      requires Valid() && start <= cur && s == tokens[start..] && !Ends(tokens[cur])
      requires Reading(s, cur - start, done, nodes0, nodes, at, start)
      modifies this
      decreases |tokens| - cur, 3
      ensures !ok ==> ReadAll(s) == None
      ensures ok ==> Valid() && cur > old(cur) && Reading(s, cur - start, done + [t], nodes0, nodes, at, start)
    {
      hide Reading, Ends, Flat, ReadAll, Read;
      ghost var n := cur - start;
      assert s[n..] == Rest() && s[n] == tokens[cur];
      ghost var u, before := Rest(), nodes;
      t := Unit;
      ok := ParseNode();
      if ok {
        t := Read(u).value.0;
        ReadingMore(s, n, done, nodes0, before, at, start, t, Read(u).value.1, nodes);
        nodes := nodes[at := nodes[at].(arity := nodes[at].arity + 1)];
      } else {
        ReadingFails(s, n, done, nodes0, before, at, start);
      }
    }
  }

  // --- What the parser's loop needs ---

  lemma ReadLeafIs(s: seq<Token>, start: nat)
    requires s != [] && IsLeaf(s[0])
    ensures Read(s) == Some((Leaf(s[0]), 1)) && Flat(Leaf(s[0]), start) == [Node(Some(LeafName(s[0])), start, 0, 0)]
  {}

  lemma NameText(t: Token)
    requires IsName(t)
    ensures t.Id? || t.Str?
  {}

  lemma ReadNoneIs(s: seq<Token>)
    requires s != [] && !s[0].ParL? && !s[0].BrL? && !IsLeaf(s[0])
    ensures Read(s) == None
  {}

  lemma ReadFormIs(s: seq<Token>, start: nat)
    requires |s| > 1 && s[0].ParL?
    ensures s[1].ParR? ==> Read(s) == Some((Unit, 2)) && Flat(Unit, start) == [Node(None, start, 0, 0)]
    ensures !s[1].ParR? && !IsName(s[1]) ==> Read(s) == None
  {
    hide ReadAll;
  }

  /** Something enclosed is there when its children are and the right token closes them. */
  lemma ReadNamedIs(s: seq<Token>, u: seq<Token>, start: nat)
    requires |s| > 1 && s[0].ParL? && IsName(s[1]) && u == s[2..]
    ensures Read(s).Some? <==> ReadAll(u).Some? && u[ReadAll(u).value.1] == ParR
    ensures Read(s).Some? ==>
              Read(s).value.1 == 2 + ReadAll(u).value.1 + 1 && Proper(Read(s).value.0) &&
              Flat(Read(s).value.0, start) == WithKids(Some(s[1].text), start + 1, ReadAll(u).value.0, start + 2)
  {
    hide ReadAll, WithKids;
  }

  lemma ReadListIs(s: seq<Token>, u: seq<Token>, start: nat)
    requires |s| > 1 && s[0].BrL? && u == s[1..]
    ensures Read(s).Some? <==> ReadAll(u).Some? && u[ReadAll(u).value.1] == BrR
    ensures Read(s).Some? ==>
              Read(s).value.1 == 1 + ReadAll(u).value.1 + 1 && Proper(Read(s).value.0) &&
              Flat(Read(s).value.0, start) == WithKids(Some("list"), start, ReadAll(u).value.0, start + 1)
  {
    hide ReadAll, WithKids;
  }

  lemma CompletedIs(nodes: seq<Node>, at: nat, kids: seq<Tree>, start: nat)
    requires at + 1 == |nodes| && AllProper(kids) && nodes[at].id.Some?
    ensures Completed(nodes, at, kids, start) == nodes[..at] + WithKids(nodes[at].id, nodes[at].token, kids, start)
  {
    hide FlatAll;
  }

  /** The array with a node's children behind everything and the node completed. */
  function Completed(nodes: seq<Node>, at: nat, kids: seq<Tree>, start: nat): seq<Node>
    requires at < |nodes| && AllProper(kids)
  {
    var flat := FlatAll(kids, start);
    nodes[at := nodes[at].(arity := |kids|, totalChildren := |flat|)] + flat
  }

  /** The array while children are still being parsed. */
  function Counted(nodes: seq<Node>, at: nat, kids: seq<Tree>, start: nat): seq<Node>
    requires at < |nodes| && AllProper(kids)
  {
    nodes[at := nodes[at].(arity := |kids|)] + FlatAll(kids, start)
  }

  /** What a list reads as when some children have been read. */
  function Joined(done: seq<Tree>, n: nat, rest: Option<(seq<Tree>, nat)>): Option<(seq<Tree>, nat)> {
    match rest
    case None => None
    case Some((ts, m)) => Some((done + ts, n + m))
  }

  /** In the middle of a list: what has been read, and the array as it is then. */
  ghost predicate Reading(s: seq<Token>, n: nat, done: seq<Tree>, nodes0: seq<Node>, nodes: seq<Node>, at: nat, start: nat) {
    && AllProper(done) && n < |s| && ReadAll(s) == Joined(done, n, ReadAll(s[n..]))
    && n == |PrintAll(done)|
    && at < |nodes0| && nodes0[at].totalChildren == |nodes0| && nodes == Counted(nodes0, at, done, start)
  }

  lemma ReadingStarts(s: seq<Token>, nodes: seq<Node>, at: nat, start: nat)
    requires s != [] && at < |nodes| && nodes[at].arity == 0 && nodes[at].totalChildren == |nodes|
    ensures Reading(s, 0, [], nodes, nodes, at, start)
  {
    NothingYet(s);
    CountedNone(nodes, at, start);
  }

  lemma ReadingFails(s: seq<Token>, n: nat, done: seq<Tree>, nodes0: seq<Node>, nodes: seq<Node>, at: nat, start: nat)
    requires Reading(s, n, done, nodes0, nodes, at, start) && n < |s| && !Ends(s[n]) && Read(s[n..]) == None
    ensures ReadAll(s) == None
  {
    hide Read, ReadAll, Flat, FlatAll, Print, PrintAll, Joined, Counted, Proper, Ends;
    OneMore(s, n, done);
  }

  lemma ReadingMore(s: seq<Token>, n: nat, done: seq<Tree>, nodes0: seq<Node>, nodes: seq<Node>, at: nat, start: nat,
                    t: Tree, m: nat, nodes': seq<Node>)
    requires Reading(s, n, done, nodes0, nodes, at, start) && n + m < |s| && !Ends(s[n])
    requires Read(s[n..]) == Some((t, m)) && Proper(t) && nodes' == nodes + Flat(t, start + n)
    ensures at < |nodes'|
    ensures Reading(s, n + m, done + [t], nodes0, nodes'[at := nodes'[at].(arity := nodes'[at].arity + 1)], at, start)
  {
    hide Read, ReadAll, Flat, FlatAll, Print, PrintAll, Joined, Counted, Proper, Ends;
    OneMore(s, n, done);
    CountedLonger(nodes0, at, done, start);
    CountedMore(nodes0, at, done, t, start);
    Shorter(nodes, at, Flat(t, start + n));
  }

  lemma Shorter(nodes: seq<Node>, at: nat, flat: seq<Node>)
    requires at < |nodes|
    ensures (nodes + flat)[at] == nodes[at]
  {}

  lemma ReadingEnds(s: seq<Token>, n: nat, done: seq<Tree>, nodes0: seq<Node>, nodes: seq<Node>, at: nat, start: nat)
    requires Reading(s, n, done, nodes0, nodes, at, start) && n < |s| && Ends(s[n])
    ensures ReadAll(s) == Some((done, n)) && AllProper(done)
    ensures at < |nodes| && |nodes| >= nodes[at].totalChildren
    ensures nodes[at := nodes[at].(totalChildren := |nodes| - nodes[at].totalChildren)] == Completed(nodes0, at, done, start)
  {
    CountedLonger(nodes0, at, done, start);
    AllRead(s, n, done, s[n]);
    hide Counted, Completed, FlatAll, ReadAll, Joined, Proper;
  }

  lemma NothingYet(s: seq<Token>)
    ensures ReadAll(s) == Joined([], 0, ReadAll(s[0..])) && PrintAll([]) == []
  {
    assert s[0..] == s;
    if ReadAll(s).Some? { assert [] + ReadAll(s).value.0 == ReadAll(s).value.0; }
  }

  lemma CountedNone(nodes: seq<Node>, at: nat, start: nat)
    requires at < |nodes| && nodes[at].arity == 0
    ensures Counted(nodes, at, [], start) == nodes
  {}

  lemma CountedLonger(nodes: seq<Node>, at: nat, kids: seq<Tree>, start: nat)
    requires at < |nodes| && AllProper(kids)
    ensures |Counted(nodes, at, kids, start)| == |nodes| + |FlatAll(kids, start)|
    ensures Counted(nodes, at, kids, start)[at] == nodes[at].(arity := |kids|)
    ensures Counted(nodes, at, kids, start)[at := nodes[at].(arity := |kids|, totalChildren := |FlatAll(kids, start)|)] ==
            Completed(nodes, at, kids, start)
  {}

  lemma {:induction false} FlatAllSnoc(ts: seq<Tree>, t: Tree, at: nat)
    requires AllProper(ts) && Proper(t)
    ensures FlatAll(ts + [t], at) == FlatAll(ts, at) + Flat(t, at + |PrintAll(ts)|)
    ensures PrintAll(ts + [t]) == PrintAll(ts) + Print(t)
  {
    if ts == [] {
      assert [t][1..] == [] && [] + [t] == [t];
      AllOf(t, [], at);
    } else {
      var at' := at + |Print(ts[0])|;
      FlatAllSnoc(ts[1..], t, at');
      assert ts == [ts[0]] + ts[1..] && ts + [t] == [ts[0]] + (ts[1..] + [t]);
      AllOf(ts[0], ts[1..], at);
      AllOf(ts[0], ts[1..] + [t], at);
      hide *;
      NodesAssoc(Flat(ts[0], at), FlatAll(ts[1..], at'), Flat(t, at + |PrintAll(ts)|));
      TokensAssoc(Print(ts[0]), PrintAll(ts[1..]), Print(t));
    }
  }

  lemma AllOf(t: Tree, ts: seq<Tree>, at: nat)
    requires Proper(t) && AllProper(ts)
    ensures AllProper([t] + ts)
    ensures FlatAll([t] + ts, at) == Flat(t, at) + FlatAll(ts, at + |Print(t)|)
    ensures PrintAll([t] + ts) == Print(t) + PrintAll(ts)
  {
    assert ([t] + ts)[1..] == ts;
    hide Flat, Print, Proper;
  }

  lemma NodesAssoc(a: seq<Node>, b: seq<Node>, c: seq<Node>)
    ensures a + (b + c) == a + b + c
  {}

  lemma TokensAssoc(a: seq<Token>, b: seq<Token>, c: seq<Token>)
    ensures a + (b + c) == a + b + c
  {}

  lemma CountedMore(nodes: seq<Node>, at: nat, kids: seq<Tree>, t: Tree, start: nat)
    requires at < |nodes| && AllProper(kids) && Proper(t)
    ensures AllProper(kids + [t])
    ensures |PrintAll(kids + [t])| == |PrintAll(kids)| + |Print(t)|
    ensures var cs := Counted(nodes, at, kids, start) + Flat(t, start + |PrintAll(kids)|);
            cs[at := cs[at].(arity := cs[at].arity + 1)] == Counted(nodes, at, kids + [t], start)
  {
    FlatAllSnoc(kids, t, start);
    hide Flat, FlatAll, Print, PrintAll;
  }

  lemma ReadAllStep(u: seq<Token>)
    requires u != [] && !Ends(u[0])
    ensures Read(u) == None ==> ReadAll(u) == None
    ensures Read(u).Some? ==>
              var (t, m) := Read(u).value;
              m <= |u| && m == |Print(t)| && ReadAll(u) == Joined([t], m, ReadAll(u[m..]))
  {
    ReadFirst(u);
    hide Read, ReadAll, Print;
    if Read(u).Some? { ReadSound(u); }
  }

  lemma JoinedTwice(done: seq<Tree>, n: nat, t: Tree, m: nat, rest: Option<(seq<Tree>, nat)>)
    ensures Joined(done, n, Joined([t], m, rest)) == Joined(done + [t], n + m, rest)
    ensures Joined(done, n, None) == None
  {
    if rest.Some? { assert done + ([t] + rest.value.0) == done + [t] + rest.value.0; }
  }

  /** One more child read: either there is none and the list fails, or it joins the others. */
  lemma OneMore(s: seq<Token>, n: nat, done: seq<Tree>)
    requires n < |s| && !Ends(s[n]) && ReadAll(s) == Joined(done, n, ReadAll(s[n..]))
    ensures Read(s[n..]) == None ==> ReadAll(s) == None
    ensures Read(s[n..]).Some? ==>
              var (t, m) := Read(s[n..]).value;
              n + m <= |s| && m == |Print(t)| && ReadAll(s) == Joined(done + [t], n + m, ReadAll(s[n + m..]))
  {
    hide Read, ReadAll, Print, Joined;
    var u := s[n..];
    ReadAllStep(u);
    if Read(u).Some? {
      var (t, m) := Read(u).value;
      assert u[m..] == s[n + m..];
      JoinedTwice(done, n, t, m, ReadAll(s[n + m..]));
    } else {
      JoinedTwice(done, n, Unit, 0, None);
    }
  }

  lemma AllRead(s: seq<Token>, n: nat, done: seq<Tree>, tok: Token)
    requires n < |s| && s[n] == tok && Ends(tok) && ReadAll(s) == Joined(done, n, ReadAll(s[n..]))
    ensures ReadAll(s) == Some((done, n))
  {
    assert s[n..][0] == tok;
    assert done + [] == done;
  }

  /** Printing trees and parsing the result gives exactly their preorder array. */
  method ParsePrinted(kids: seq<Tree>) returns (nodes: seq<Node>)
    requires AllProper(kids)
    ensures nodes == WithKids(Some("list"), 0, kids, 0)
  {
    var tokens := PrintAll(kids) + [Eof];
    ReadAllPrinted(kids, [Eof]);
    var p := new Parser(tokens);
    hide ReadAll, WithKids, PrintAll;
    var ok := p.Parse();
    nodes := p.nodes;
  }

  // --- Walking the array ---

  function NextChild(nodes: seq<Node>, i: nat): nat
    requires i < |nodes|
  {
    i + nodes[i].totalChildren + 1
  }

  /** A tree of nodes, as found by following children; Broken where an index leads outside, and there is no
      telling where the next child would be. */
  datatype Walked = Branch(node: Node, index: nat, kids: seq<Walked>) | Broken(index: nat)

  function Walk(nodes: seq<Node>, i: nat): Walked
    decreases |nodes| - i, 0, 0
  {
    if i >= |nodes| then Broken(i) else Branch(nodes[i], i, WalkKids(nodes, i + 1, nodes[i].arity))
  }

  function WalkKids(nodes: seq<Node>, i: nat, n: nat): seq<Walked>
    decreases |nodes| - i, 1, n
  {
    if n == 0 then [] else
    if i >= |nodes| then [Broken(i)] else [Walk(nodes, i)] + WalkKids(nodes, NextChild(nodes, i), n - 1)
  }

  /** The same tree straight from the syntax, its nodes numbered in preorder from an index. */
  function Numbered(t: Tree, at: nat, i: nat): Walked
    requires Proper(t)
    decreases t, 1
  {
    match t
    case Form(_, kids) => Branch(Flat(t, at)[0], i, NumberedAll(kids, at + 2, i + 1))
    case List(kids) => Branch(Flat(t, at)[0], i, NumberedAll(kids, at + 1, i + 1))
    case _ => Branch(Flat(t, at)[0], i, [])
  }

  function NumberedAll(ts: seq<Tree>, at: nat, i: nat): seq<Walked>
    requires AllProper(ts)
    decreases ts, 0
  {
    if ts == [] then [] else
    [Numbered(ts[0], at, i)] + NumberedAll(ts[1..], at + |Print(ts[0])|, i + |Flat(ts[0], at)|)
  }

  lemma FlatHead(t: Tree, at: nat)
    requires Proper(t)
    ensures Flat(t, at)[0].totalChildren == |Flat(t, at)| - 1
    ensures t.Form? ==> Flat(t, at)[0].arity == |t.kids| && Flat(t, at)[1..] == FlatAll(t.kids, at + 2)
    ensures t.List? ==> Flat(t, at)[0].arity == |t.kids| && Flat(t, at)[1..] == FlatAll(t.kids, at + 1)
    ensures !t.Form? && !t.List? ==> Flat(t, at)[0].arity == 0 && |Flat(t, at)| == 1
  {
    if t.Form? || t.List? {
      hide FlatAll;
    }
  }

  /** Wherever a tree's nodes lie in an array, following children from its first node gives back that tree,
      node for node. */
  lemma {:induction false} WalkFinds(nodes: seq<Node>, i: nat, t: Tree, at: nat)
    requires Proper(t) && i + |Flat(t, at)| <= |nodes| && nodes[i..i + |Flat(t, at)|] == Flat(t, at)
    ensures Walk(nodes, i) == Numbered(t, at, i) && NextChild(nodes, i) == i + |Flat(t, at)|
    decreases t, 1
  {
    var flat := Flat(t, at);
    FlatHead(t, at);
    assert nodes[i] == nodes[i..i + |flat|][0];
    if t.Form? || t.List? {
      var from := if t.Form? then at + 2 else at + 1;
      assert nodes[i + 1..i + |flat|] == nodes[i..i + |flat|][1..];
      WalkFindsAll(nodes, i + 1, t.kids, from);
    }
  }

  lemma {:induction false} WalkFindsAll(nodes: seq<Node>, i: nat, ts: seq<Tree>, at: nat)
    requires AllProper(ts) && i + |FlatAll(ts, at)| <= |nodes| && nodes[i..i + |FlatAll(ts, at)|] == FlatAll(ts, at)
    ensures WalkKids(nodes, i, |ts|) == NumberedAll(ts, at, i)
    decreases ts, 0
  {
    if ts != [] {
      var first, later := Flat(ts[0], at), FlatAll(ts[1..], at + |Print(ts[0])|);
      SliceTwo(nodes, i, first, later);
      WalkFinds(nodes, i, ts[0], at);
      WalkFindsAll(nodes, i + |first|, ts[1..], at + |Print(ts[0])|);
      hide Walk, Numbered, Flat, FlatAll, Print;
    }
  }

  lemma SliceTwo(nodes: seq<Node>, i: nat, a: seq<Node>, b: seq<Node>)
    requires i + |a + b| <= |nodes| && nodes[i..i + |a + b|] == a + b
    ensures nodes[i..i + |a|] == a && nodes[i + |a|..i + |a| + |b|] == b
  {
    assert nodes[i..i + |a|] == nodes[i..i + |a + b|][..|a|];
    assert nodes[i + |a|..i + |a| + |b|] == nodes[i..i + |a + b|][|a|..];
  }

  /** The walk over what was parsed is the walk over what was printed. */
  lemma WalkWhole(kids: seq<Tree>)
    requires AllProper(kids)
    ensures var nodes := WithKids(Some("list"), 0, kids, 0);
            Walk(nodes, 0) == Branch(nodes[0], 0, NumberedAll(kids, 0, 1)) && NextChild(nodes, 0) == |nodes|
  {
    var nodes := WithKids(Some("list"), 0, kids, 0);
    assert nodes[1..1 + |FlatAll(kids, 0)|] == FlatAll(kids, 0);
    WalkFindsAll(nodes, 1, kids, 0);
  }

  /** A printed line: index, indentation, and whether there is such a node. */
  datatype Line = Line(index: nat, indent: nat, valid: bool)

  /** What is printed for a walk, up to the first index that leads outside. */
  function Lines(w: Walked, indent: nat): seq<Line>
    decreases w, 1
  {
    if w.Broken? then [Line(w.index, indent, false)] else [Line(w.index, indent, true)] + LinesAll(w.kids, indent + 1)
  }

  function LinesAll(ws: seq<Walked>, indent: nat): seq<Line>
    decreases ws, 0
  {
    if ws == [] then [] else Lines(ws[0], indent) + (if Whole(ws[0]) then LinesAll(ws[1..], indent) else [])
  }

  predicate Whole(w: Walked) { w.Branch? && forall k | 0 <= k < |w.kids| :: Whole(w.kids[k]) }

  ghost predicate AllWhole(ws: seq<Walked>) { forall k | 0 <= k < |ws| :: Whole(ws[k]) }

  /** Print a node and, indented, its children, stepping over each child's own. An index that leads outside is
      printed as invalid; looking for the child behind it stops the program. */
  method InspectNode(nodes: seq<Node>, idx: nat, indent: nat, out: seq<Line>) returns (out': seq<Line>, ok: bool)
    ensures out' == out + Lines(Walk(nodes, idx), indent)
    ensures ok <==> idx >= |nodes| || Whole(Walk(nodes, idx))
    decreases if idx < |nodes| then |nodes| - idx else 0, 1
  {
    out', ok := out + [Line(idx, indent, idx < |nodes|)], true;
    if idx >= |nodes| { return; }
    var arity := nodes[idx].arity;
    var i, at := 0, idx + 1;
    ghost var kids, start := WalkKids(nodes, at, arity), out';
    assert kids[0..] == kids && start + LinesAll(kids, indent + 1) == out + Lines(Walk(nodes, idx), indent) by {
      LinesAssoc(out, [Line(idx, indent, true)], LinesAll(kids, indent + 1));
    }
    assert Whole(Walk(nodes, idx)) <==> AllWhole(kids);
    hide *;
    while i < arity && ok
      invariant i <= arity && at > idx
      invariant ok ==> SoFar(nodes, kids, i, at, arity, indent + 1, start, out')
      invariant !ok ==> out' == start + LinesAll(kids, indent + 1) && !AllWhole(kids)
    {
      out', at, ok := InspectKid(nodes, kids, i, at, arity, indent + 1, start, out');
      i := i + 1;
    }
    if ok { AllPrinted(nodes, kids, at, arity, indent + 1, start, out'); }
  }

  /** The first i children have been printed, and the next one is at an index. */
  ghost predicate SoFar(nodes: seq<Node>, kids: seq<Walked>, i: nat, at: nat, arity: nat, indent: nat, start: seq<Line>, out: seq<Line>) {
    && i <= |kids| && i <= arity
    && WalkKids(nodes, at, arity - i) == kids[i..]
    && AllWhole(kids[..i])
    && out + LinesAll(kids[i..], indent) == start + LinesAll(kids, indent)
  }

  lemma AllPrinted(nodes: seq<Node>, kids: seq<Walked>, at: nat, arity: nat, indent: nat, start: seq<Line>, out: seq<Line>)
    requires SoFar(nodes, kids, arity, at, arity, indent, start, out)
    ensures out == start + LinesAll(kids, indent) && AllWhole(kids)
  {
    assert kids[arity..] == [] && LinesAll([], indent) == [];
    assert kids[..arity] == kids;
  }

  /** One round of the loop over the children. */
  method InspectKid(nodes: seq<Node>, ghost kids: seq<Walked>, ghost i: nat, at: nat, ghost arity: nat, indent: nat, ghost start: seq<Line>, out: seq<Line>)
    returns (out': seq<Line>, at': nat, ok: bool)
    requires SoFar(nodes, kids, i, at, arity, indent, start, out) && i < arity
    ensures at' >= at
    ensures ok ==> SoFar(nodes, kids, i + 1, at', arity, indent, start, out')
    ensures !ok ==> out' == start + LinesAll(kids, indent) && !AllWhole(kids)
    decreases if at < |nodes| then |nodes| - at else 0, 2
  {
    at' := at;
    out', ok := InspectNode(nodes, at, indent, out);
    KidPrinted(nodes, kids, i, at, arity, indent, start, out);
    if !ok || at >= |nodes| { return out', at, false; }
    at' := NextChild(nodes, at);
  }

  lemma KidPrinted(nodes: seq<Node>, kids: seq<Walked>, i: nat, at: nat, arity: nat, indent: nat, start: seq<Line>, out: seq<Line>)
    requires SoFar(nodes, kids, i, at, arity, indent, start, out) && i < arity
    ensures var out' := out + Lines(Walk(nodes, at), indent);
            if at < |nodes| && Whole(Walk(nodes, at))
            then SoFar(nodes, kids, i + 1, NextChild(nodes, at), arity, indent, start, out')
            else out' == start + LinesAll(kids, indent) && !AllWhole(kids)
  {
    var rest := kids[i..];
    assert rest != [] && rest[0] == kids[i] == Walk(nodes, at) && rest[1..] == kids[i + 1..];
    hide Lines, Walk;
    var ls := Lines(kids[i], indent);
    if at < |nodes| && Whole(kids[i]) {
      assert kids[..i + 1] == kids[..i] + [kids[i]];
      LinesAssoc(out, ls, LinesAll(kids[i + 1..], indent));
    } else {
      assert ls + [] == ls;
    }
  }

  lemma LinesAssoc(a: seq<Line>, b: seq<Line>, c: seq<Line>)
    ensures a + b + c == a + (b + c)
  {}

  /** Print a whole array, if there is anything in it. */
  method Inspect(nodes: seq<Node>) returns (out: seq<Line>, ok: bool)
    ensures out == if nodes == [] then [] else Lines(Walk(nodes, 0), 0)
    ensures ok <==> nodes == [] || Whole(Walk(nodes, 0))
  {
    out, ok := [], true;
    if nodes != [] { out, ok := InspectNode(nodes, 0, 0, out); }
  }

  /** How many of the first n nodes have node k among what follows them as their own. */
  function Around(nodes: seq<Node>, n: nat, k: nat): nat
    requires n <= |nodes|
  {
    if n == 0 then 0 else Around(nodes, n - 1, k) + (if k <= n - 1 + nodes[n - 1].totalChildren then 1 else 0)
  }

  /** One line for every node, in order, as far in as there are nodes around it. */
  ghost predicate Listed(ls: seq<Line>, nodes: seq<Node>, i: nat, indent: nat) {
    |ls| == |nodes| && forall k | 0 <= k < |ls| :: ls[k] == Line(i + k, indent + Around(nodes, k, k), true)
  }

  /** No node claims anything behind the end. */
  ghost predicate Nested(nodes: seq<Node>) {
    forall j | 0 <= j < |nodes| :: j + nodes[j].totalChildren < |nodes|
  }

  lemma {:induction false} AroundLeft(a: seq<Node>, b: seq<Node>, n: nat, k: nat)
    requires n <= |a|
    ensures Around(a + b, n, k) == Around(a, n, k)
    decreases n
  {
    if n > 0 { AroundLeft(a, b, n - 1, k); }
  }

  lemma {:induction false} AroundRight(a: seq<Node>, b: seq<Node>, m: nat, k: nat)
    requires m <= |b| && |a| <= k
    ensures Around(a + b, |a| + m, k) == Around(a, |a|, k) + Around(b, m, k - |a|)
    decreases m
  {
    if m > 0 {
      AroundRight(a, b, m - 1, k);
      assert (a + b)[|a| + m - 1] == b[m - 1];
    } else {
      AroundLeft(a, b, |a|, k);
    }
  }

  lemma {:induction false} NoneAround(a: seq<Node>, n: nat, k: nat)
    requires Nested(a) && n <= |a| <= k
    ensures Around(a, n, k) == 0
    decreases n
  {
    if n > 0 { NoneAround(a, n - 1, k); }
  }

  lemma ListedBeside(xs: seq<Line>, a: seq<Node>, ys: seq<Line>, b: seq<Node>, i: nat, indent: nat)
    requires Listed(xs, a, i, indent) && Listed(ys, b, i + |a|, indent) && Nested(a)
    ensures Listed(xs + ys, a + b, i, indent)
  {
    hide Around;
    var ls := xs + ys;
    forall k | 0 <= k < |ls| ensures ls[k] == Line(i + k, indent + Around(a + b, k, k), true) {
      if k < |a| {
        AroundLeft(a, b, k, k);
      } else {
        AroundRight(a, b, k - |a|, k);
        NoneAround(a, |a|, k);
        assert ls[k] == ys[k - |a|];
      }
    }
  }

  lemma ListedUnder(h: Node, b: seq<Node>, ys: seq<Line>, i: nat, indent: nat)
    requires Listed(ys, b, i + 1, indent + 1) && h.totalChildren == |b|
    ensures Listed([Line(i, indent, true)] + ys, [h] + b, i, indent)
  {
    var ls := [Line(i, indent, true)] + ys;
    forall k | 0 <= k < |ls| ensures ls[k] == Line(i + k, indent + Around([h] + b, k, k), true) {
      if k > 0 {
        AroundRight([h], b, k - 1, k);
        assert Around([h], 1, k) == 1;
        assert ls[k] == ys[k - 1];
      }
    }
  }

  lemma NestedUnder(h: Node, b: seq<Node>)
    requires Nested(b) && h.totalChildren == |b|
    ensures Nested([h] + b)
  {
    forall j | 0 <= j < |[h] + b| ensures j + ([h] + b)[j].totalChildren < |[h] + b| {
      if j > 0 { assert ([h] + b)[j] == b[j - 1]; }
    }
  }

  /** The lines of a numbered tree go through its nodes one by one, none left out and none twice, each as far in as
      its node is deep. */
  lemma {:induction false} LinesInOrder(t: Tree, at: nat, i: nat, indent: nat)
    requires Proper(t)
    ensures Whole(Numbered(t, at, i))
    ensures Listed(Lines(Numbered(t, at, i), indent), Flat(t, at), i, indent) && Nested(Flat(t, at))
    decreases t, 1
  {
    FlatHead(t, at);
    if t.Form? || t.List? {
      var from := if t.Form? then at + 2 else at + 1;
      LinesInOrderAll(t.kids, from, i + 1, indent + 1);
      var h, b := Flat(t, at)[0], FlatAll(t.kids, from);
      assert [h] + b == Flat(t, at);
      ListedUnder(h, b, LinesAll(NumberedAll(t.kids, from, i + 1), indent + 1), i, indent);
      NestedUnder(h, b);
      hide Listed, Nested, FlatAll, NumberedAll, LinesAll, Flat;
    } else {
      assert LinesAll([], indent + 1) == [];
    }
  }

  lemma {:induction false} LinesInOrderAll(ts: seq<Tree>, at: nat, i: nat, indent: nat)
    requires AllProper(ts)
    ensures forall k | 0 <= k < |NumberedAll(ts, at, i)| :: Whole(NumberedAll(ts, at, i)[k])
    ensures Listed(LinesAll(NumberedAll(ts, at, i), indent), FlatAll(ts, at), i, indent) && Nested(FlatAll(ts, at))
    decreases ts, 0
  {
    if ts != [] {
      var at', i' := at + |Print(ts[0])|, i + |Flat(ts[0], at)|;
      LinesInOrder(ts[0], at, i, indent);
      LinesInOrderAll(ts[1..], at', i', indent);
      var first, later := Numbered(ts[0], at, i), NumberedAll(ts[1..], at', i');
      var kids := NumberedAll(ts, at, i);
      assert kids == [first] + later && kids[1..] == later;
      assert LinesAll(kids, indent) == Lines(first, indent) + LinesAll(later, indent);
      assert FlatAll(ts, at) == Flat(ts[0], at) + FlatAll(ts[1..], at');
      hide *;
      ListedBeside(Lines(first, indent), Flat(ts[0], at), LinesAll(later, indent), FlatAll(ts[1..], at'), i, indent);
      NestedBeside(Flat(ts[0], at), FlatAll(ts[1..], at'));
      forall k | 0 <= k < |kids| ensures Whole(kids[k]) {
        if k > 0 { assert kids[k] == later[k - 1]; }
      }
    }
  }

  lemma NestedBeside(a: seq<Node>, b: seq<Node>)
    requires Nested(a) && Nested(b)
    ensures Nested(a + b)
  {
    forall j | 0 <= j < |a + b| ensures j + (a + b)[j].totalChildren < |a + b| {
      if j >= |a| { assert (a + b)[j] == b[j - |a|]; }
    }
  }

  // --- What the nodes say about the tokens ---

  /** The name a node has for the token it points to: a form is called by the token behind its parenthesis, an empty
      one has no name, and anything else is called by its kind. */
  ghost predicate Names(id: Option<string>, toks: seq<Token>, j: nat) {
    j < |toks| &&
    if 0 < j && toks[j - 1] == ParL then (toks[j].Id? || toks[j].Str?) && id == Some(toks[j].text) else
      || (toks[j].ParL? && id == None)
      || (toks[j].BrL? && id == Some("list"))
      || (toks[j].Id? && id == Some("id"))
      || (toks[j].Int? && id == Some("int"))
      || (toks[j].Float? && id == Some("float"))
      || (toks[j].Str? && id == Some("string"))
      || (toks[j].EscStr? && id == Some("escaped_string"))
  }

  /** Nodes that name their tokens, in the order of the tokens, the first of which is number `at`. */
  ghost predicate AllNamed(nodes: seq<Node>, toks: seq<Token>, at: nat) {
    && (forall k | 0 <= k < |nodes| :: at <= nodes[k].token && Names(nodes[k].id, toks, nodes[k].token - at))
    && (forall j, k | 0 <= j < k < |nodes| :: nodes[j].token < nodes[k].token)
  }

  lemma NamedWithin(nodes: seq<Node>, toks: seq<Token>, at: nat, pre: seq<Token>, post: seq<Token>)
    requires AllNamed(nodes, toks, at + |pre|) && (pre != [] ==> pre[|pre| - 1] != ParL)
    ensures AllNamed(nodes, pre + toks + post, at)
  {
    var all := pre + toks + post;
    forall k | 0 <= k < |nodes| ensures Names(nodes[k].id, all, nodes[k].token - at) {
      var j := nodes[k].token - at - |pre|;
      assert Names(nodes[k].id, toks, j);
      assert all[|pre| + j] == toks[j];
      if j > 0 { assert all[|pre| + j - 1] == toks[j - 1]; }
    }
  }

  lemma NamedBoth(a: seq<Node>, b: seq<Node>, toks: seq<Token>, at: nat, mid: nat)
    requires AllNamed(a, toks, at) && AllNamed(b, toks, at)
    requires (forall k | 0 <= k < |a| :: a[k].token < mid) && (forall k | 0 <= k < |b| :: mid <= b[k].token)
    ensures AllNamed(a + b, toks, at)
  {
    var nodes := a + b;
    hide Names;
    forall k | 0 <= k < |nodes| ensures at <= nodes[k].token && Names(nodes[k].id, toks, nodes[k].token - at) {
      if k >= |a| { assert nodes[k] == b[k - |a|]; }
    }
  }

  lemma LastToken(t: Tree)
    requires Proper(t)
    ensures Print(t)[|Print(t)| - 1] != ParL
  {}

  lemma NamedRange(nodes: seq<Node>, toks: seq<Token>, at: nat)
    requires AllNamed(nodes, toks, at)
    ensures forall k | 0 <= k < |nodes| :: at <= nodes[k].token < at + |toks|
  {}

  /** A node and, behind what opens it, its children. */
  lemma NamedUnder(h: Node, b: seq<Node>, open: seq<Token>, toks: seq<Token>, close: seq<Token>, at: nat)
    requires open != [] && open[|open| - 1] != ParL && AllNamed(b, toks, at + |open|)
    requires at <= h.token < at + |open| && Names(h.id, open + toks + close, h.token - at)
    ensures AllNamed([h] + b, open + toks + close, at)
  {
    hide Names;
    NamedRange(b, toks, at + |open|);
    NamedWithin(b, toks, at, open, close);
    NamedBoth([h], b, open + toks + close, at, at + |open|);
  }

  lemma NamedBeside(a: seq<Node>, first: seq<Token>, b: seq<Node>, later: seq<Token>, at: nat)
    requires first != [] && first[|first| - 1] != ParL
    requires AllNamed(a, first, at) && AllNamed(b, later, at + |first|)
    ensures AllNamed(a + b, first + later, at)
  {
    hide Names;
    NamedRange(a, first, at);
    NamedRange(b, later, at + |first|);
    hide AllNamed;
    NamedWithin(a, first, at, [], later);
    NamedWithin(b, later, at, first, []);
    assert [] + first + later == first + later && first + later + [] == first + later;
    NamedBoth(a, b, first + later, at, at + |first|);
  }

  /** What a tree with children is made of. */
  lemma NodesUnder(t: Tree, at: nat, open: seq<Token>, close: seq<Token>)
    requires Proper(t) && (t.Form? || t.List?)
    requires open == (if t.Form? then [ParL, t.name] else [BrL]) && close == (if t.Form? then [ParR] else [BrR])
    ensures var h := Flat(t, at)[0];
            && Flat(t, at) == [h] + FlatAll(t.kids, at + |open|) && Print(t) == open + PrintAll(t.kids) + close
            && at <= h.token < at + |open| && Names(h.id, Print(t), h.token - at)
  {
    hide FlatAll, PrintAll;
  }

  /** Every node of a tree points at the token it was made from and is named after it. */
  lemma {:induction false} NodesNamed(t: Tree, at: nat)
    requires Proper(t)
    ensures AllNamed(Flat(t, at), Print(t), at)
    decreases t, 1
  {
    if t.Form? || t.List? {
      var open, close := if t.Form? then [ParL, t.name] else [BrL], if t.Form? then [ParR] else [BrR];
      var from := at + |open|;
      NodesNamedAll(t.kids, from);
      NodesUnder(t, at, open, close);
      hide *;
      NamedUnder(Flat(t, at)[0], FlatAll(t.kids, from), open, PrintAll(t.kids), close, at);
    }
  }

  lemma {:induction false} NodesNamedAll(ts: seq<Tree>, at: nat)
    requires AllProper(ts)
    ensures AllNamed(FlatAll(ts, at), PrintAll(ts), at)
    decreases ts, 0
  {
    if ts != [] {
      NodesNamed(ts[0], at);
      NodesNamedAll(ts[1..], at + |Print(ts[0])|);
      LastToken(ts[0]);
      assert ts == [ts[0]] + ts[1..];
      AllOf(ts[0], ts[1..], at);
      hide *;
      NamedBeside(Flat(ts[0], at), Print(ts[0]), FlatAll(ts[1..], at + |Print(ts[0])|), PrintAll(ts[1..]), at);
    }
  }
}
