/** The set of names: a binary tree ordered by hash, where names with equal hashes go to the left. */
module HashTree {
  type Atom = nat

  datatype Tree = Empty | Node(item: Atom, hash: nat, child0: Tree, child1: Tree)

  function Items(t: Tree): set<Atom> {
    if t.Empty? then {} else {t.item} + Items(t.child0) + Items(t.child1)
  }

  /** The node first, then what is left of it, then what is right. */
  function Preorder(t: Tree): seq<Atom> {
    if t.Empty? then [] else [t.item] + Preorder(t.child0) + Preorder(t.child1)
  }

  ghost predicate Searchable(t: Tree, hash: Atom -> nat) {
    t.Node? ==>
      && t.hash == hash(t.item)
      && Searchable(t.child0, hash) && Searchable(t.child1, hash)
      && (forall x | x in Items(t.child0) :: hash(x) <= t.hash && x != t.item)
      && (forall x | x in Items(t.child1) :: hash(x) > t.hash)
  }

  /** Where the search for a name goes from a node that is not its own. */
  function Towards(t: Tree, hash: nat): Tree
    requires t.Node?
  {
    if hash > t.hash then t.child1 else t.child0
  }

  function Inserted(t: Tree, x: Atom, hash: nat): Tree {
    if t.Empty? then Node(x, hash, Empty, Empty)
    else if hash == t.hash && x == t.item then t
    else if hash > t.hash then t.(child1 := Inserted(t.child1, x, hash))
    else t.(child0 := Inserted(t.child0, x, hash))
  }

  lemma {:induction false} InsertedItems(t: Tree, x: Atom, hash: Atom -> nat)
    requires Searchable(t, hash)
    ensures Searchable(Inserted(t, x, hash(x)), hash)
    ensures Items(Inserted(t, x, hash(x))) == Items(t) + {x}
  {
    if t.Node? {
      InsertedItems(t.child0, x, hash);
      InsertedItems(t.child1, x, hash);
    }
  }

  predicate NoDuplicates<T(==)>(xs: seq<T>) { forall i, j | 0 <= i < j < |xs| :: xs[i] != xs[j] }

  /** The walk lists every name once. */
  lemma {:induction false} PreorderItems(t: Tree, hash: Atom -> nat)
    requires Searchable(t, hash)
    ensures NoDuplicates(Preorder(t))
    ensures forall x :: x in Preorder(t) <==> x in Items(t)
  {
    if t.Node? {
      PreorderItems(t.child0, hash);
      PreorderItems(t.child1, hash);
      var xs, ys := Preorder(t.child0), Preorder(t.child1);
      forall i, j | 0 <= i < j < |Preorder(t)| ensures Preorder(t)[i] != Preorder(t)[j] {
        if 0 < i <= |xs| < j { assert xs[i - 1] in Items(t.child0) && ys[j - 1 - |xs|] in Items(t.child1); }
        if i == 0 && j <= |xs| { assert xs[j - 1] in Items(t.child0); }
        if i == 0 && j > |xs| { assert ys[j - 1 - |xs|] in Items(t.child1); }
      }
    }
  }

  class AtomSet {
    const hash: Atom -> nat
    var root: Tree

    constructor (hash: Atom -> nat)
      ensures this.hash == hash && root == Empty && Valid()
    {
      this.hash, root := hash, Empty;
    }

    ghost predicate Valid()
      reads this
    {
      Searchable(root, hash)
    }

    /** Walking down by hash finds a name exactly when it is in the set, whatever collides. */
    method Find(x: Atom) returns (found: bool)
      requires Valid()
      ensures found <==> x in Items(root)
    {
      var h := hash(x);
      var node := root;
      while node.Node?
        invariant Searchable(node, hash)
        invariant x in Items(root) <==> x in Items(node)
        decreases node
      {
        if h == node.hash && x == node.item {
          return true;
        }
        node := Towards(node, h);
      }
      return false;
    }

    method Insert(x: Atom)
      requires Valid()
      modifies this
      ensures Valid() && Items(root) == old(Items(root)) + {x}
    {
      InsertedItems(root, x, hash);
      root := Inserted(root, x, hash(x));
    }
  }
}
