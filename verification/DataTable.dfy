/** Global data of a program, allocated when first needed, with pointers between blocks. */
module DataTable {
  /** Where in its block a pointer goes, and which datum it points at. */
  datatype Reloc = Reloc(offset: nat, target: nat)

  datatype Option<+T> = None | Some(value: T)

  /** The size of a block, what it begins with, if anything, and its relocations, in order. */
  datatype Decl = Decl(size: nat, init: Option<seq<nat>>, relocs: seq<Reloc>)

  /** The bytes of a block before anything is relocated: the given ones, or zeros. */
  ghost predicate Initial(bytes: seq<nat>, d: Decl) {
    && |bytes| == d.size
    && forall k | 0 <= k < d.size :: match d.init
         case Some(given) => k < |given| && bytes[k] == given[k]
         case None => bytes[k] == 0
  }

  class Block {
    const index: nat
    var bytes: seq<nat>
    var pointers: map<nat, Block>   // what has been stored over the bytes, by offset

    constructor (index: nat, bytes: seq<nat>)
      ensures this.index == index && this.bytes == bytes && pointers == map[]
    {
      this.index, this.bytes, pointers := index, bytes, map[];
    }
  }

  predicate Has(data: seq<Block?>, i: nat) { i < |data| && data[i] != null }

  ghost predicate Grows(a: seq<Block?>, b: seq<Block?>) {
    |a| <= |b| && forall i | 0 <= i < |a| && a[i] != null :: b[i] == a[i]
  }

  /** A later relocation goes to the same place. */
  predicate Overwritten(relocs: seq<Reloc>, k: nat, n: nat)
    requires k < n <= |relocs|
  {
    exists j | k < j < n :: relocs[j].offset == relocs[k].offset
  }

  function Offsets(relocs: seq<Reloc>, n: nat): set<nat>
    requires n <= |relocs|
  {
    set k | 0 <= k < n :: relocs[k].offset
  }

  /** The first n relocations of a block are in place: pointers are where relocations put them and nowhere else, and
      each is the address of the target of the last relocation for its place. */
  ghost predicate Pointing(pointers: map<nat, Block>, relocs: seq<Reloc>, n: nat, data: seq<Block?>) {
    && n <= |relocs|
    && pointers.Keys == Offsets(relocs, n)
    && forall k | 0 <= k < n :: Has(data, relocs[k].target) &&
         (!Overwritten(relocs, k, n) ==> pointers[relocs[k].offset] == data[relocs[k].target])
  }

  lemma PointingGrows(pointers: map<nat, Block>, relocs: seq<Reloc>, n: nat, a: seq<Block?>, b: seq<Block?>)
    requires Pointing(pointers, relocs, n, a) && Grows(a, b)
    ensures Pointing(pointers, relocs, n, b)
  {}

  lemma PointingMore(pointers: map<nat, Block>, relocs: seq<Reloc>, n: nat, data: seq<Block?>)
    requires n < |relocs| && Pointing(pointers, relocs, n, data) && Has(data, relocs[n].target)
    ensures Pointing(pointers[relocs[n].offset := data[relocs[n].target]], relocs, n + 1, data)
  {
    var offset := relocs[n].offset;
    var pointers' := pointers[offset := data[relocs[n].target]];
    OffsetsMore(relocs, n);
    hide Overwritten, Offsets;
    assert pointers'.Keys == pointers.Keys + {offset};
    forall k | 0 <= k < n + 1
      ensures Has(data, relocs[k].target)
      ensures !Overwritten(relocs, k, n + 1) ==> pointers'[relocs[k].offset] == data[relocs[k].target]
    {
      if k < n && !Overwritten(relocs, k, n + 1) { NotYetOver(relocs, k, n); }
    }
  }

  lemma OffsetsMore(relocs: seq<Reloc>, n: nat)
    requires n < |relocs|
    ensures Offsets(relocs, n + 1) == Offsets(relocs, n) + {relocs[n].offset}
  {}

  lemma NotYetOver(relocs: seq<Reloc>, k: nat, n: nat)
    requires k < n < |relocs| && !Overwritten(relocs, k, n + 1)
    ensures !Overwritten(relocs, k, n) && relocs[n].offset != relocs[k].offset
  {}

  class RunData {
    const decls: seq<Decl>
    var data: seq<Block?>

    constructor (decls: seq<Decl>)
      requires forall i, k | 0 <= i < |decls| && 0 <= k < |decls[i].relocs| :: decls[i].relocs[k].target < |decls|
      requires forall i | 0 <= i < |decls| && decls[i].init.Some? :: |decls[i].init.value| >= decls[i].size
      ensures this.decls == decls && data == [] && Known() && Ok({})
    {
      this.decls, data := decls, [];
    }

    /** Relocations point at data of the program, and what is given fills its block. */
    ghost predicate Known() {
      && (forall i, k | 0 <= i < |decls| && 0 <= k < |decls[i].relocs| :: decls[i].relocs[k].target < |decls|)
      && (forall i | 0 <= i < |decls| && decls[i].init.Some? :: |decls[i].init.value| >= decls[i].size)
    }

    /** Blocks are each their own; one that nobody is filling is initialised and points where it should. */
    ghost predicate Ok(busy: set<nat>)
      reads this, data
    {
      && (forall i | 0 <= i < |data| && data[i] != null ::
            i < |decls| && data[i].index == i && Initial(data[i].bytes, decls[i]))
      && forall i | 0 <= i < |data| && data[i] != null && i !in busy ::
           Pointing(data[i].pointers, decls[i].relocs, |decls[i].relocs|, data)
    }

    ghost function Missing(): set<nat>
      reads this
    {
      set i | 0 <= i < |decls| && !Has(data, i)
    }

    method Reserve(index: nat, ghost busy: set<nat>)
      requires Ok(busy)
      modifies `data
      ensures Ok(busy) && index < |data| && old(data) <= data
      ensures forall i | old(|data|) <= i < |data| :: data[i] == null
    {
      while index >= |data|
        invariant old(data) <= data && Ok(busy)
        invariant forall i | old(|data|) <= i < |data| :: data[i] == null
        decreases index + 1 - |data|
      {
        ghost var before := data;
        data := data + [null];
        forall i | 0 <= i < |data| && data[i] != null && i !in busy
          ensures Pointing(data[i].pointers, decls[i].relocs, |decls[i].relocs|, data)
        {
          PointingGrows(data[i].pointers, decls[i].relocs, |decls[i].relocs|, before, data);
        }
      }
    }

    /** The address of a datum: allocated and filled once, its pointers being the addresses of what they name,
        also around cycles. */
    method GetDataAddr(index: nat, ghost busy: set<nat>) returns (b: Block)
      requires Known() && index < |decls| && Ok(busy)
      modifies `data
      decreases Missing(), 1
      ensures Ok(busy) && Grows(old(data), data) && Has(data, index) && b == data[index]
    {
      ghost var missing := Missing();
      Reserve(index, busy);
      if data[index] != null {
        return data[index];
      }
      var decl := decls[index];
      var bytes := match decl.init
        case Some(given) => given[..decl.size]
        case None => seq(decl.size, _ => 0);
      b := new Block(index, bytes);
      ghost var before := data;
      data := data[index := b];
      forall i | 0 <= i < |data| && data[i] != null && i !in busy + {index}
        ensures Pointing(data[i].pointers, decls[i].relocs, |decls[i].relocs|, data)
      {
        PointingGrows(data[i].pointers, decls[i].relocs, |decls[i].relocs|, before, data);
      }
      assert index in missing && index !in Missing() && Missing() <= missing;
      Relocate(index, b, busy);
    }

    /** Store the address of each target. */
    method Relocate(index: nat, b: Block, ghost busy: set<nat>)
      requires Known() && index < |decls| && Has(data, index) && data[index] == b && Ok(busy + {index})
      requires Pointing(b.pointers, decls[index].relocs, 0, data)
      modifies `data, b`pointers
      decreases Missing(), 2
      ensures Ok(busy) && Grows(old(data), data)
    {
      var relocs := decls[index].relocs;
      ghost var missing := Missing();
      var k := 0;
      while k < |relocs|
        invariant 0 <= k <= |relocs| && Grows(old(data), data) && data[index] == b
        invariant Ok(busy + {index}) && Pointing(b.pointers, relocs, k, data)
        invariant Missing() <= missing
      {
        ghost var before := data;
        var target := GetDataAddr(relocs[k].target, busy + {index});
        PointingGrows(b.pointers, relocs, k, before, data);
        OwnBlock(index, b);
        PointingMore(b.pointers, relocs, k, data);
        b.pointers := b.pointers[relocs[k].offset := target];
        k := k + 1;
      }
    }

    lemma OwnBlock(index: nat, b: Block)
      requires Has(data, index) && data[index] == b
      requires forall i | 0 <= i < |data| && data[i] != null :: data[i].index == i
      ensures forall i | 0 <= i < |data| && i != index :: data[i] != b
    {
      assert b.index == index;
    }
  }
}
