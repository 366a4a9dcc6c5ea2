/** The arena: a block of memory handed out from the bottom, given back from the top. */
module Arena {
  import opened Rounding

  /** The address a padded allocation starts at: masking with a power of two minus one is the remainder. */
  function AlignUp(address: nat, align: nat): nat
    requires align > 0
  {
    address + (align - address % align) % align
  }

  /** It is the first multiple of the alignment that is not below the address. */
  lemma AlignUpIsLeast(address: nat, align: nat, other: nat)
    requires align > 0
    ensures address <= AlignUp(address, align) < address + align && AlignUp(address, align) % align == 0
    ensures other >= address && other % align == 0 ==> AlignUp(address, align) <= other
  {
    var q := address / align;
    Quotient(address, align);
    Padding(address % align, align);
    NextMultiple(q, align);
    MulMod(q + 1, align);
    if address % align != 0 && other < (q + 1) * align && other % align == 0 { NoneBetween(q, align, other); }
  }

  lemma Quotient(x: nat, m: nat)
    requires m > 0
    ensures x == (x / m) * m + x % m && x % m < m
  {}

  lemma Padding(r: nat, m: nat)
    requires r < m
    ensures (m - r) % m == if r == 0 then 0 else m - r
  {}

  lemma NextMultiple(q: nat, m: nat)
    ensures (q + 1) * m == q * m + m
  {}

  /** What an allocation of n bytes does to an arena at data of which size bytes are in use. */
  function Start(data: nat, size: nat, align: nat): (start: nat)
    requires align > 0
    ensures size <= start < size + align
    ensures (data + start) % align == 0
  {
    AlignUpIsLeast(data + size, align, 0);
    AlignUp(data + size, align) - data
  }

  class Arena {
    const data: nat   // the address memory begins at
    var size: nat

    constructor (data: nat)
      ensures this.data == data && size == 0
    {
      this.data, size := data, 0;
    }

    /** Memory at an aligned address, directly behind what is in use. */
    method AllocAligned(n: nat, align: nat) returns (mem: nat)
      requires align > 0
      modifies this
      ensures mem == data + Start(data, old(size), align) && size == Start(data, old(size), align) + n
    {
      mem := data + size;
      mem := mem + (align - mem % align) % align;
      size := size + (mem - (data + size)) + n;
    }

    /** Without padding memory starts exactly where use ends. */
    method AllocHere(n: nat) returns (mem: nat)
      modifies this
      ensures mem == data + old(size) && size == old(size) + n
    {
      mem := data + size;
      size := size + n;
    }

    /** Only the topmost block is given back. */
    method Free(block: nat, blockSize: nat)
      requires data <= block && block + blockSize <= data + size
      modifies this
      ensures size == if block + blockSize == data + old(size) then old(size) - blockSize else old(size)
    {
      if data + size == block + blockSize {
        Pop(blockSize);
      }
    }

    /** The topmost block grows or shrinks in place, still aligned; any other is left where it is, and the new one
        lies aligned above everything in use. */
    method Realloc(n: nat, align: nat, block: nat, blockSize: nat) returns (mem: nat)
      requires align > 0 && data <= block && block + blockSize <= data + size && block % align == 0
      modifies this
      ensures mem % align == 0 && mem + n == data + size
      ensures if block + blockSize == data + old(size) then mem == block else data + old(size) <= mem < data + old(size) + align
    {
      if data + size == block + blockSize {
        Pop(blockSize);
        mem := AllocHere(n);
      } else {
        mem := AllocAligned(n, align);
      }
    }

    method Pop(n: nat)
      requires n <= size
      modifies this
      ensures size == old(size) - n
    {
      size := size - n;
    }

    function Grab(): nat
      reads this
    {
      size
    }

    method PopFrame(frame: nat)
      requires frame <= size
      modifies this
      ensures size == frame
    {
      Pop(size - frame);
    }
  }
}
