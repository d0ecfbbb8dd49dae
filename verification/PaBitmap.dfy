/**
  Bitmaps in a shared pool: a table of 256 block atoms per bitmap, each block 8192 bits, both kinds of
  block of the same size and drawn from the same pool.
 */
module PaBitmap {
  import opened PaMath
  import opened PaBits
  import opened PaFixed

  const BITS_PER_UNIT: nat := 32
  const UNITS_PER_CHUNK: nat := 256
  const BITS_PER_CHUNK: nat := 8192
  const CHUNKS: nat := 256
  const MAX_BIT: nat := 0x20_0000
  const FIND_START: nat := 0x7FFF_FFFF
  const FIND_DONE: nat := 0x8000_0000

  function BitNum(num: nat): nat {
    num % BITS_PER_UNIT
  }

  function UnitNum(num: nat): nat {
    (num / BITS_PER_UNIT) % UNITS_PER_CHUNK
  }

  function ChunkNum(num: nat): nat {
    (num / 8 / 1024) % CHUNKS
  }

  function NumberOf(chunk: nat, unit: nat, bit: nat): nat {
    chunk * BITS_PER_CHUNK + unit * BITS_PER_UNIT + bit
  }

  lemma {:induction false} NumberParts(num: nat)
    requires num < MAX_BIT
    ensures ChunkNum(num) < CHUNKS && UnitNum(num) < UNITS_PER_CHUNK && BitNum(num) < BITS_PER_UNIT
    ensures ChunkNum(num) == num / BITS_PER_CHUNK
    ensures num == NumberOf(ChunkNum(num), UnitNum(num), BitNum(num))
  {
    assert num / 8 / 1024 == num / 8192;
    assert num / 32 / 256 == num / 8192;
  }

  lemma {:induction false} PartsOf(chunk: nat, unit: nat, bit: nat)
    requires chunk < CHUNKS && unit < UNITS_PER_CHUNK && bit < BITS_PER_UNIT
    ensures var n := NumberOf(chunk, unit, bit);
            n < MAX_BIT && ChunkNum(n) == chunk && UnitNum(n) == unit && BitNum(n) == bit
  {
    var n := NumberOf(chunk, unit, bit);
    assert n / 32 == chunk * 256 + unit;
    assert n / 8 / 1024 == n / 32 / 256;
  }

  type Blocks = map<Atom, Block>

  // The block holding chunk c of a bitmap, or zero if no bit of it was ever set.
  function Entry(blocks: Blocks, id: Atom, c: nat): Atom
    requires id in blocks && c < CHUNKS
  {
    blocks[id][c]
  }

  /** Membership: the bit in the block the table names. */
  predicate Member(blocks: Blocks, id: Atom, num: nat) {
    id in blocks && num < MAX_BIT &&
    var a := Entry(blocks, id, ChunkNum(num));
    a != 0 && a in blocks && Bit(blocks[a][UnitNum(num)], BitNum(num))
  }

  ghost predicate EntryOk(blocks: Blocks, next: Atom, owner: map<Atom, (Atom, nat)>, id: Atom, c: nat)
    requires id in blocks && c < CHUNKS
  {
    var a := Entry(blocks, id, c);
    a != 0 ==> a < next && a in blocks && a in owner && owner[a] == (id, c)
  }

  /** Tables and bit blocks are distinct blocks, and each bit block belongs to one place of one table. */
  ghost predicate FamilyOk(blocks: Blocks, next: Atom, ids: set<Atom>, owner: map<Atom, (Atom, nat)>) {
    && (forall a :: 0 < a < next ==> a in blocks)
    && (forall id :: id in ids ==> 0 < id < next && id !in owner)
    && (forall a :: a in owner ==> 0 < a < next)
    && (forall id, c {:trigger EntryOk(blocks, next, owner, id, c)} ::
          id in ids && id in blocks && 0 <= c < CHUNKS ==> EntryOk(blocks, next, owner, id, c))
  }

  // ----- what the steps keep

  /** A block newly handed out belongs to no bitmap. */
  lemma {:induction false} FreshBlock(blocks: Blocks, next: Atom, ids: set<Atom>, owner: map<Atom, (Atom, nat)>,
                                      blocks': Blocks)
    requires FamilyOk(blocks, next, ids, owner) && next > 0
    requires next in blocks' && forall a :: 0 < a < next ==> a in blocks' && blocks'[a] == blocks[a]
    ensures FamilyOk(blocks', next + 1, ids, owner) && next !in ids && next !in owner
    ensures forall id: Atom, n: nat :: id in ids ==> (Member(blocks', id, n) <==> Member(blocks, id, n))
  {
    var next' := next + 1;
    forall id, c | id in ids && 0 <= c < CHUNKS ensures EntryOk(blocks', next', owner, id, c) {
      assert EntryOk(blocks, next, owner, id, c);
    }
    forall id: Atom, n: nat | id in ids ensures Member(blocks', id, n) <==> Member(blocks, id, n) {
      assert n < MAX_BIT ==> EntryOk(blocks, next, owner, id, ChunkNum(n));
    }
  }

  /** A zeroed block makes an empty bitmap. */
  lemma {:induction false} EmptyBitmap(blocks: Blocks, next: Atom, ids: set<Atom>,
                                       owner: map<Atom, (Atom, nat)>, id: Atom)
    requires FamilyOk(blocks, next, ids, owner)
    requires 0 < id < next && id !in owner && blocks[id] == ZERO_BLOCK
    ensures FamilyOk(blocks, next, ids + {id}, owner)
    ensures forall n: nat :: !Member(blocks, id, n)
  {
    forall i, c | i in ids + {id} && 0 <= c < CHUNKS ensures EntryOk(blocks, next, owner, i, c) {
      assert i in ids ==> EntryOk(blocks, next, owner, i, c);
    }
  }

  /** Entering a zeroed block in a table changes no bitmap. */
  lemma {:induction false} EnterBlock(blocks: Blocks, next: Atom, ids: set<Atom>, owner: map<Atom, (Atom, nat)>,
                                      id: Atom, c: nat, atom: Atom)
    requires FamilyOk(blocks, next, ids, owner) && id in ids && c < CHUNKS && Entry(blocks, id, c) == 0
    requires 0 < atom < next && atom !in ids && atom !in owner && blocks[atom] == ZERO_BLOCK && atom < WORD_LIMIT
    ensures var blocks' := blocks[id := blocks[id][c := atom]];
            && FamilyOk(blocks', next, ids, owner[atom := (id, c)])
            && (forall i: Atom, n: nat :: i in ids ==> (Member(blocks', i, n) <==> Member(blocks, i, n)))
  {
    var blocks', owner' := blocks[id := blocks[id][c := atom]], owner[atom := (id, c)];
    forall i, k | i in ids && 0 <= k < CHUNKS ensures EntryOk(blocks', next, owner', i, k) {
      assert EntryOk(blocks, next, owner, i, k);
    }
    forall i: Atom, n: nat | i in ids ensures Member(blocks', i, n) <==> Member(blocks, i, n) {
      if n < MAX_BIT {
        assert EntryOk(blocks, next, owner, i, ChunkNum(n));
        ZeroBit(BitNum(n));
      }
    }
  }

  /** Rewriting one unit of a bit block keeps the family, and every member outside that unit. */
  lemma {:induction false} UnitRewritten(blocks: Blocks, next: Atom, ids: set<Atom>, owner: map<Atom, (Atom, nat)>,
                                         id: Atom, c: nat, u: nat, w: Word)
    requires FamilyOk(blocks, next, ids, owner) && id in ids && c < CHUNKS && u < UNITS_PER_CHUNK
    requires Entry(blocks, id, c) != 0
    ensures EntryOk(blocks, next, owner, id, c)
    ensures var a := Entry(blocks, id, c); var blocks' := blocks[a := blocks[a][u := w]];
            && FamilyOk(blocks', next, ids, owner)
            && (forall i: Atom, n: nat :: i in ids ==>
                  (Member(blocks', i, n) <==>
                   if i == id && n < MAX_BIT && ChunkNum(n) == c && UnitNum(n) == u then Bit(w, BitNum(n))
                   else Member(blocks, i, n)))
  {
    assert EntryOk(blocks, next, owner, id, c);
    var a := Entry(blocks, id, c);
    var blocks' := blocks[a := blocks[a][u := w]];
    forall i, k | i in ids && 0 <= k < CHUNKS ensures EntryOk(blocks', next, owner, i, k) {
      assert EntryOk(blocks, next, owner, i, k);
    }
    forall i: Atom, n: nat | i in ids
      ensures Member(blocks', i, n) <==>
              if i == id && n < MAX_BIT && ChunkNum(n) == c && UnitNum(n) == u then Bit(w, BitNum(n))
              else Member(blocks, i, n)
    {
      if n < MAX_BIT {
        assert EntryOk(blocks, next, owner, i, ChunkNum(n));
      }
    }
  }

  lemma {:induction false} SameNumber(n: nat, num: nat)
    requires n < MAX_BIT && num < MAX_BIT
    ensures n == num <==> ChunkNum(n) == ChunkNum(num) && UnitNum(n) == UnitNum(num) && BitNum(n) == BitNum(num)
  {
    NumberParts(n);
    NumberParts(num);
  }

  lemma {:induction false} WordWritten(w: nat, b: nat, c: nat, on: bool)
    ensures Bit(if on then Or(w, Pow2(b)) else AndNot(w, Pow2(b)), c) <==> if c == b then on else Bit(w, c)
  {
    OrBit(w, Pow2(b), c);
    AndNotBit(w, Pow2(b), c);
    MaskBits(b, c);
  }

  lemma {:induction false} WordFits(w: Word, b: nat)
    requires b < BITS_PER_UNIT
    ensures Or(w, Pow2(b)) < WORD_LIMIT && AndNot(w, Pow2(b)) < WORD_LIMIT
  {
    Pow2Table();
    Pow2Less(b, 32);
    OrBelow(w, Pow2(b), 32);
    AndNotAtMost(w, Pow2(b));
  }

  /** Writing 1 or 0 to the bit of `num` adds or removes `num` and touches no other number of any bitmap. */
  lemma {:induction false} BitWritten(blocks: Blocks, next: Atom, ids: set<Atom>, owner: map<Atom, (Atom, nat)>,
                                      id: Atom, num: nat, on: bool)
    requires FamilyOk(blocks, next, ids, owner) && id in ids && num < MAX_BIT
    requires Entry(blocks, id, ChunkNum(num)) != 0
    ensures EntryOk(blocks, next, owner, id, ChunkNum(num))
    ensures var a := Entry(blocks, id, ChunkNum(num)); var w0 := blocks[a][UnitNum(num)];
            var w := if on then Or(w0, Pow2(BitNum(num))) else AndNot(w0, Pow2(BitNum(num)));
            w < WORD_LIMIT &&
            var blocks' := blocks[a := blocks[a][UnitNum(num) := w]];
            && FamilyOk(blocks', next, ids, owner)
            && (forall i: Atom, n: nat :: i in ids ==>
                  (Member(blocks', i, n) <==> if i == id && n == num then on else Member(blocks, i, n)))
  {
    var a, c, u, b := Entry(blocks, id, ChunkNum(num)), ChunkNum(num), UnitNum(num), BitNum(num);
    assert EntryOk(blocks, next, owner, id, c);
    var w0 := blocks[a][u];
    var w := if on then Or(w0, Pow2(b)) else AndNot(w0, Pow2(b));
    WordFits(w0, b);
    UnitRewritten(blocks, next, ids, owner, id, c, u, w);
    var blocks' := blocks[a := blocks[a][u := w]];
    forall i: Atom, n: nat | i in ids
      ensures Member(blocks', i, n) <==> if i == id && n == num then on else Member(blocks, i, n)
    {
      if n < MAX_BIT {
        SameNumber(n, num);
        WordWritten(w0, b, BitNum(n), on);
      }
    }
  }

  lemma {:induction false} Pow2Less(a: nat, b: nat)
    requires a < b
    ensures Pow2(a) < Pow2(b)
  {
    if a + 1 < b {
      Pow2Less(a, b - 1);
    }
  }

  /** All the bitmaps over one pool. */
  class Bitmaps {
    const data: Pool  // pb_data
    ghost var ids: set<Atom>
    ghost var owner: map<Atom, (Atom, nat)>

    ghost predicate Valid()
      reads this, data
    {
      data.Valid() && FamilyOk(data.blocks, data.next, ids, owner)
    }

    constructor (shift: nat, maxPages: nat)
      requires shift > 0 && maxPages > 0 && Shl(maxPages, shift) <= 0x1_0000_0000
      ensures Valid() && ids == {} && fresh(data)
    {
      data := new Pool(shift, maxPages);
      ids, owner := {}, map[];
    }

    /** A new bitmap is empty; the others keep their members. */
    method Alloc(mapped: bool, contents: seq<Block>) returns (id: Atom)
      requires Valid() && |contents| == data.Count()
      modifies this, data
      ensures Valid()
      ensures id == 0 ==> ids == old(ids) && (old(data.next) == data.maxAtoms || !mapped)
      ensures id != 0 ==> id !in old(ids) && ids == old(ids) + {id} && forall n: nat :: !Member(data.blocks, id, n)
      ensures forall i: Atom, n: nat :: i in old(ids) ==>
        (Member(data.blocks, i, n) <==> old(Member(data.blocks, i, n)))
    {
      ghost var before, next := data.blocks, data.next;
      id := data.Alloc(mapped, contents);
      if id != 0 {
        FreshBlock(before, next, ids, owner, data.blocks);
        EmptyBitmap(data.blocks, data.next, ids, owner, id);
        ids := ids + {id};
      } else {
        assert data.blocks == before;
      }
    }

    method Test(id: Atom, num: nat) returns (r: bool)
      requires Valid() && id in ids
      ensures r <==> Member(data.blocks, id, num)
    {
      if num >= MAX_BIT {
        return false;
      }
      NumberParts(num);
      assert EntryOk(data.blocks, data.next, owner, id, ChunkNum(num));
      var atom := data.blocks[id][ChunkNum(num)];
      if atom == 0 {
        return false;
      }
      r := Bit(data.blocks[atom][UnitNum(num)], BitNum(num));
    }

    // The block for a chunk, allocated and entered in the table if there is none yet.
    method NeedChunk(id: Atom, c: nat, mapped: bool, contents: seq<Block>) returns (atom: Atom)
      requires Valid() && id in ids && c < CHUNKS && |contents| == data.Count()
      modifies this, data
      ensures Valid() && ids == old(ids) && id in data.blocks && Entry(data.blocks, id, c) == atom
      ensures id in old(data.blocks)
      ensures atom == 0 ==> old(Entry(data.blocks, id, c)) == 0 && (old(data.next) == data.maxAtoms || !mapped)
      ensures forall i: Atom, n: nat :: i in ids ==> (Member(data.blocks, i, n) <==> old(Member(data.blocks, i, n)))
    {
      assert EntryOk(data.blocks, data.next, owner, id, c);
      atom := data.blocks[id][c];
      if atom == 0 {
        ghost var before, next := data.blocks, data.next;
        atom := data.Alloc(mapped, contents);
        if atom == 0 {
          assert data.blocks == before;
          return;
        }
        FreshBlock(before, next, ids, owner, data.blocks);
        EnterBlock(data.blocks, data.next, ids, owner, id, c, atom);
        data.Store(id, c, atom);
        owner := owner[atom := (id, c)];
      }
    }

    /** Adds `num` to one bitmap and touches no other number of any bitmap.  `stored` is false only for a
        number out of range, or when a block was needed and none could be had. */
    method Set(id: Atom, num: nat, mapped: bool, contents: seq<Block>) returns (ghost stored: bool)
      requires Valid() && id in ids && |contents| == data.Count()
      modifies this, data
      ensures Valid() && ids == old(ids)
      ensures !stored && num < MAX_BIT ==>
        (id in old(data.blocks) && old(Entry(data.blocks, id, ChunkNum(num))) == 0
         && (old(data.next) == data.maxAtoms || !mapped))
      ensures forall i: Atom, n: nat :: i in ids ==>
        (Member(data.blocks, i, n) <==> (stored && i == id && n == num) || old(Member(data.blocks, i, n)))
    {
      if num >= MAX_BIT {
        return false;
      }
      NumberParts(num);
      var atom := NeedChunk(id, ChunkNum(num), mapped, contents);
      if atom == 0 {
        return false;
      }
      var u, b := UnitNum(num), BitNum(num);
      ghost var mid := data.blocks;
      BitWritten(mid, data.next, ids, owner, id, num, true);
      WordFits(data.blocks[atom][u], b);
      data.Store(atom, u, Or(data.blocks[atom][u], Pow2(b)));
      stored := true;
      forall i: Atom, n: nat | i in ids
        ensures Member(data.blocks, i, n) <==> (i == id && n == num) || old(Member(data.blocks, i, n))
      {
        assert Member(mid, i, n) <==> old(Member(data.blocks, i, n));
      }
    }

    /** Removes `num` from one bitmap and touches no other number of any bitmap. */
    method Clear(id: Atom, num: nat)
      requires Valid() && id in ids
      modifies data
      ensures Valid()
      ensures forall i: Atom, n: nat :: i in ids ==>
        (Member(data.blocks, i, n) <==> old(Member(data.blocks, i, n)) && !(i == id && n == num))
    {
      if num >= MAX_BIT {
        assert forall i: Atom :: i in ids ==> !Member(data.blocks, i, num);
        return;
      }
      NumberParts(num);
      var u, b := UnitNum(num), BitNum(num);
      assert EntryOk(data.blocks, data.next, owner, id, ChunkNum(num));
      var atom := data.blocks[id][ChunkNum(num)];
      ghost var was := data.blocks;
      if atom == 0 {
        assert !Member(was, id, num);
        return;
      }
      BitWritten(was, data.next, ids, owner, id, num, false);
      WordFits(data.blocks[atom][u], b);
      ghost var now := was[atom := was[atom][u := AndNot(was[atom][u], Pow2(b))]];
      assert forall i: Atom, n: nat :: i in ids ==>
        (Member(now, i, n) <==> Member(was, i, n) && !(i == id && n == num));
      data.Store(atom, u, AndNot(data.blocks[atom][u], Pow2(b)));
      assert data.blocks == now;
    }
  }
}
