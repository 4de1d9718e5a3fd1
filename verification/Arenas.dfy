// The arenas of wordhash.c: nmalloc hands out hash nodes and smalloc blocks of
// bytes, both from the front of large chunks that are kept on a list.

module Arenas {
  const N_CHUNK := 2000
  const S_CHUNK := 20000
  const ALIGNMENT := 8

  /** wh_alloc_node and wh_alloc_str: size units in one piece, the first used of them handed out. */
  class Chunk {
    const size: nat
    var avail: nat
    var used: nat
    const next: Chunk?

    constructor (size: nat, next: Chunk?)
      ensures this.size == size && avail == size && used == 0 && this.next == next
    {
      this.size, this.next, avail, used := size, next, size, 0;
    }
  }

  /** What is handed out: leng units of a chunk from at on. */
  datatype Block = Block(chunk: Chunk, at: nat, leng: nat)

  /** Two blocks have no unit in common. */
  predicate Disjoint(a: Block, b: Block) {
    a.chunk != b.chunk || a.at + a.leng <= b.at || b.at + b.leng <= a.at
  }

  ghost predicate InBounds(b: Block)
    reads b.chunk
  {
    b.at + b.leng <= b.chunk.used <= b.chunk.size
  }

  /** n rounded up to the natural boundary. */
  function Aligned(n: nat): (r: nat)
    ensures n <= r < n + ALIGNMENT && r % ALIGNMENT == 0
  {
    if n % ALIGNMENT != 0 then n + (ALIGNMENT - n % ALIGNMENT) else n
  }

  class Arena {
    var head: Chunk?
    ghost var chunks: set<Chunk>
    ghost var blocks: seq<Block>   // all that has been handed out, in order

    /** No two blocks overlap, and all lie in what their chunk has handed out. */
    ghost predicate Valid()
      reads this, chunks
    {
      && (head != null ==> head in chunks)
      && (forall c | c in chunks :: c.used + c.avail == c.size)
      && (forall i {:trigger blocks[i]} | 0 <= i < |blocks| :: blocks[i].chunk in chunks && InBounds(blocks[i]))
      && (forall i, j | 0 <= i < j < |blocks| :: Disjoint(blocks[i], blocks[j]))
    }

    constructor ()
      ensures Valid() && blocks == [] && chunks == {}
    {
      head, chunks, blocks := null, {}, [];
    }

    /** The next n units, from a new chunk of this size if the newest has not enough left. */
    method Take(n: nat, size: nat) returns (b: Block)
      requires Valid() && n <= size
      modifies this, chunks
      ensures Valid() && blocks == old(blocks) + [b] && b.leng == n && fresh(chunks - old(chunks))
      ensures chunks == old(chunks) + {b.chunk} && b.chunk.used == b.at + n
      ensures if old(head) != null && n <= old(head.avail) then b.chunk == old(head) && b.at == old(head.used)
              else b.at == 0
      ensures forall c | c in old(chunks) && c != b.chunk :: c.used == old(c.used) && c.avail == old(c.avail)
    {
      var c := head;
      if c == null || c.avail < n {
        c := new Chunk(size, head);
        head := c;
        chunks := chunks + {c};
      }
      c.avail := c.avail - n;
      b := Block(c, c.used, n);
      c.used := c.used + n;
      blocks := blocks + [b];
    }
  }

  /** nmalloc: one hash node. */
  method Nmalloc(nodes: Arena) returns (b: Block)
    requires nodes.Valid()
    modifies nodes, nodes.chunks
    ensures nodes.Valid() && nodes.blocks == old(nodes.blocks) + [b] && b.leng == 1
    ensures fresh(nodes.chunks - old(nodes.chunks))
  {
    b := nodes.Take(1, N_CHUNK);
  }

  /** Every chunk of the strings has handed out whole multiples of the boundary. */
  ghost predicate AllAligned(strings: Arena)
    reads strings, strings.chunks
  {
    forall c | c in strings.chunks :: c.used % ALIGNMENT == 0
  }

  /** smalloc: a block of at least n bytes at the natural boundary. */
  method Smalloc(strings: Arena, n0: nat) returns (b: Block)
    requires strings.Valid() && AllAligned(strings)
    modifies strings, strings.chunks
    ensures strings.Valid() && AllAligned(strings) && strings.blocks == old(strings.blocks) + [b]
    ensures b.leng == Aligned(n0) && b.at % ALIGNMENT == 0
    ensures fresh(strings.chunks - old(strings.chunks))
  {
    var n := n0;
    if n % ALIGNMENT != 0 { n := n + (ALIGNMENT - n % ALIGNMENT); }
    b := strings.Take(n, S_CHUNK + n);
  }
}
