/**
  The pool of fixed-size blocks: pages of blocks set up on demand, each page's free blocks chained
  through their first word, and each block zeroed as it is handed out.
 */
module PaFixed {
  import opened PaMath

  type Atom = nat

  // A 32-bit word of a block: a link while the block is free, an atom or bits once it is handed out.
  type Word = n: nat | n < 0x1_0000_0000

  const BLOCK_WORDS: nat := 256

  type Block = b: seq<Word> | |b| == BLOCK_WORDS witness ZERO_BLOCK

  const ZERO_BLOCK: seq<Word> := seq(BLOCK_WORDS, _ => 0)

  // What follows atom a on the free chain: the next atom, or nothing after the last.
  ghost function Successor(a: Atom, maxAtoms: nat): Atom {
    if a + 1 < maxAtoms then a + 1 else 0
  }

  /** Atoms below `next` have been handed out; the chain runs through all the others in order.
      Blocks exist for the atoms below `limit`. */
  ghost predicate ChainOk(blocks: map<Atom, Block>, limit: nat, maxAtoms: nat, next: Atom) {
    && limit <= maxAtoms && 0 < next <= (if limit == 0 then 1 else limit)
    && (forall a :: 0 <= a < limit <==> a in blocks)
    && (forall a :: next <= a < limit ==> blocks[a][0] == Successor(a, maxAtoms))
  }

  /** The loop of pa_fixed_alloc_setup_page: chains all the blocks of a page but the last. */
  method FillPage(before: map<Atom, Block>, first: Atom, count: nat,
                  contents: seq<Block>) returns (blocks: map<Atom, Block>)
    requires count > 1 && |contents| == count && first + count <= 0x1_0000_0000
    requires forall a :: 0 <= a < first <==> a in before
    ensures forall a :: 0 <= a < first + count - 1 <==> a in blocks
    ensures forall a :: a in before ==> blocks[a] == before[a]
    ensures forall a :: first <= a < first + count - 1 ==> blocks[a][0] == a + 1
  {
    blocks := before;
    for i := 0 to count - 1
      invariant forall a :: 0 <= a < first + i <==> a in blocks
      invariant forall a :: a in before ==> blocks[a] == before[a]
      invariant forall a :: first <= a < first + i ==> blocks[a][0] == a + 1
    {
      blocks := blocks[first + i := contents[i][0 := first + i + 1]];
    }
  }

  /** Storing a word in a block handed out leaves the chain of free blocks as it was. */
  lemma {:induction false} StoreKeepsChain(blocks: map<Atom, Block>, limit: nat, maxAtoms: nat, next: Atom,
                                           a: Atom, i: nat, w: Word)
    requires ChainOk(blocks, limit, maxAtoms, next) && 0 < a < next && a in blocks && i < BLOCK_WORDS
    ensures ChainOk(blocks[a := blocks[a][i := w]], limit, maxAtoms, next)
  {
  }

  method FirstUnset(table: seq<bool>, start: nat) returns (i: nat)
    requires start <= |table|
    ensures start <= i <= |table| && (i < |table| ==> !table[i])
    ensures forall p :: start <= p < i ==> table[p]
  {
    i := start;
    while i < |table| && table[i]
      invariant start <= i <= |table|
      invariant forall p :: start <= p < i ==> table[p]
    {
      i := i + 1;
    }
  }

  class Pool {
    const shift: nat     // pf_shift
    const maxAtoms: nat  // pf_max_atoms, a whole number of pages
    var blocks: map<Atom, Block>
    var free: Atom
    var table: seq<bool>  // which pages are set up
    ghost var pages: nat
    ghost var limit: nat  // blocks in the pages set up
    ghost var next: Atom

    // Blocks in a page.
    function Count(): nat {
      Shl(1, shift)
    }

    ghost predicate Valid()
      reads this
    {
      && Count() > 1 && 0 < maxAtoms <= 0x1_0000_0000 && Shl(|table|, shift) == maxAtoms
      && Shl(pages, shift) == limit && ChainOk(blocks, limit, maxAtoms, next)
      && free == (if next < maxAtoms then next else 0)
      && pages <= |table| && (forall p :: 0 <= p < |table| ==> (table[p] <==> p < pages))
    }

    // pa_fixed_init on a new database: no page yet, and number 1 as the first free atom.
    constructor (shift: nat, maxPages: nat)
      requires shift > 0 && maxPages > 0 && Shl(maxPages, shift) <= 0x1_0000_0000
      ensures Valid() && next == 1 && this.shift == shift && this.maxAtoms == Shl(maxPages, shift)
    {
      this.shift, this.maxAtoms := shift, Shl(maxPages, shift);
      blocks := map[];
      free := 1;
      table := seq(maxPages, _ => false);
      pages, limit, next := 0, 0, 1;
      new;
      FirstPage(shift, maxPages);
    }

    /** pa_fixed_alloc_setup_page: `contents` is whatever the new memory holds. */
    method SetupPage(atom: Atom, contents: seq<Block>)
      requires Valid() && Shr(atom, shift) == pages < |table| && |contents| == Count() && limit <= next <= limit + 1
      modifies `blocks, `table, `pages, `limit
      ensures Valid() && pages == old(pages) + 1 && limit == old(limit) + Count()
      ensures forall a :: a in old(blocks) ==> a in blocks && blocks[a] == old(blocks)[a]
    {
      var page := Shr(atom, shift);
      var count := Count();
      NextPage(page, shift, |table|);
      var first := Shl(page, shift);
      table := table[page := true];
      var link := NextLink(page);
      ChainPage(first, count, contents, link);
      pages := pages + 1;
      limit := limit + count;
    }

    // Makes the blocks of a page and chains them.
    method ChainPage(first: Atom, count: nat, contents: seq<Block>, link: nat)
      requires count > 1 && |contents| == count && first + count <= maxAtoms <= 0x1_0000_0000
      requires first <= next <= first + 1 && 0 < next && forall a :: 0 <= a < first <==> a in blocks
      requires link == Successor(first + count - 1, maxAtoms)
      modifies `blocks
      ensures ChainOk(blocks, first + count, maxAtoms, next)
      ensures forall a :: a in old(blocks) ==> a in blocks && blocks[a] == old(blocks)[a]
    {
      blocks := FillPage(blocks, first, count, contents);
      blocks := blocks[first + count - 1 := contents[count - 1][0 := link]];
      PageChain(blocks, first, count, maxAtoms, next);
    }

    // The last block of a page leads to the first page not set up, if there is one.
    method NextLink(page: nat) returns (link: nat)
      requires page < |table| && forall p :: page < p < |table| ==> !table[p]
      ensures link == if page + 1 < |table| then Shl(page + 1, shift) else 0
    {
      var other := FirstUnset(table, page + 1);
      assert page + 1 < |table| ==> !table[page + 1];
      link := if other < |table| then Shl(other, shift) else 0;
    }

    /** Hands out the first free block, zeroed; zero when the pool is used up or no memory is mapped. */
    method Alloc(mapped: bool, contents: seq<Block>) returns (atom: Atom)
      requires Valid() && |contents| == Count()
      modifies `blocks, `table, `pages, `limit, `free, `next
      ensures Valid()
      ensures atom == 0 ==> next == old(next) && blocks == old(blocks)
      ensures atom == 0 ==> old(next) == maxAtoms || !mapped
      ensures atom == 0 || !mapped ==> table == old(table) && pages == old(pages) && limit == old(limit)
      ensures atom != 0 ==>
        atom == old(next) && next == atom + 1 && atom in blocks && blocks[atom] == ZERO_BLOCK
      ensures forall a :: 0 < a < old(next) ==> a in blocks && a in old(blocks) && blocks[a] == old(blocks)[a]
    {
      if free == 0 {
        return 0;
      }
      PageOfFree(free, shift, pages, |table|);
      if !table[Shr(free, shift)] {
        if !mapped {
          return 0;
        }
        SetupPage(free, contents);
      }
      atom := TakeFirst();
    }

    // A store by the user of a block, through the address of its atom.
    method Store(atom: Atom, i: nat, w: Word)
      requires Valid() && 0 < atom < next && atom in blocks && i < BLOCK_WORDS
      modifies `blocks
      ensures Valid() && blocks == old(blocks)[atom := old(blocks)[atom][i := w]]
    {
      StoreKeepsChain(blocks, limit, maxAtoms, next, atom, i, w);
      blocks := blocks[atom := blocks[atom][i := w]];
    }

    // Unchains the first free block of a page that is set up, and clears it (PFF_INIT_ZERO).
    method TakeFirst() returns (atom: Atom)
      requires Valid() && 0 < free < limit
      modifies `blocks, `free, `next
      ensures Valid() && atom == old(next) && next == atom + 1
      ensures atom in old(blocks) && blocks == old(blocks)[atom := ZERO_BLOCK]
    {
      atom := free;
      free := blocks[atom][0];
      blocks := blocks[atom := ZERO_BLOCK];
      next := next + 1;
    }
  }

  lemma {:induction false} PageChain(blocks: map<Atom, Block>, first: Atom, count: nat, maxAtoms: nat, next: Atom)
    requires count > 1 && first <= next <= first + 1 && 0 < next && first + count <= maxAtoms
    requires forall a :: 0 <= a < first + count <==> a in blocks
    requires forall a :: first <= a < first + count - 1 ==> blocks[a][0] == a + 1
    requires blocks[first + count - 1][0] == Successor(first + count - 1, maxAtoms)
    ensures ChainOk(blocks, first + count, maxAtoms, next)
  {
  }

  lemma {:induction false} FirstPage(shift: nat, maxPages: nat)
    requires shift > 0 && maxPages > 0
    ensures Shl(0, shift) == 0 && Shl(1, shift) > 1 && Shl(maxPages, shift) > 1
  {
    ShlAdd(0, 0, shift);
    ShlMono(0, 1, shift - 1);
    ShlTwice(1, shift - 1);
    ShlMono(1, maxPages, shift);
  }

  lemma {:induction false} NextPage(page: nat, shift: nat, maxPages: nat)
    requires page < maxPages
    ensures Shl(page + 1, shift) == Shl(page, shift) + Shl(1, shift)
    ensures if page + 1 < maxPages then Shl(page + 1, shift) < Shl(maxPages, shift)
            else Shl(page + 1, shift) == Shl(maxPages, shift)
  {
    ShlAdd(page, 1, shift);
    ShlMono(page + 1, maxPages, shift);
  }

  // The first free atom lies in a page set up, or it is where the next page starts.
  lemma {:induction false} PageOfFree(free: Atom, shift: nat, pages: nat, maxPages: nat)
    requires Shl(1, shift) > 1 && pages <= maxPages && 0 < free < Shl(maxPages, shift)
    requires free <= (if Shl(pages, shift) == 0 then 1 else Shl(pages, shift))
    ensures Shr(free, shift) < maxPages && Shr(free, shift) <= pages
    ensures Shr(free, shift) < pages <==> free < Shl(pages, shift)
    ensures Shr(free, shift) == pages ==> Shl(pages, shift) <= free <= Shl(pages, shift) + 1
  {
    ShrBelow(free, maxPages, shift);
    ShrBelow(free, pages, shift);
    ShrBelow(free, pages + 1, shift);
    ShlAdd(pages, 1, shift);
    ShlMono(0, pages, shift);
    ShlAdd(0, 0, shift);
  }
}
