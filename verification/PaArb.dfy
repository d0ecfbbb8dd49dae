/**
  The arbitrary-size allocator over a memory of 4-byte words: free lists threaded through the
  chunks themselves, headers in front of every block, and whole pages for large blocks.
 */
module PaArb {
  import opened PaMath
  import opened PaArbSize

  type Atom = nat

  // A word of memory: a header as the allocator reads it, or anything else.
  datatype Word = SmallHead(inUse: bool, slot: nat, chunk: nat) | LargeHead(size: nat) | Data(val: nat)

  // A run of pages obtained from the memory map, by what it is used for.
  datatype Region = SmallPage(slot: nat) | LargeBlock(pages: nat) | Leaked(pages: nat)

  function Read(mem: map<nat, Word>, addr: nat): Word {
    if addr in mem then mem[addr] else Data(0)
  }

  // Words; a page is 1024 of them.
  function HeadAt(a: Atom): nat {
    (a / 256) * 1024 + (a % 256) * 4
  }

  function Head(mem: map<nat, Word>, a: Atom): Word {
    Read(mem, HeadAt(a))
  }

  // The first word after the header holds the next free atom while the chunk is free.
  function Next(mem: map<nat, Word>, a: Atom): Atom {
    var w := Read(mem, HeadAt(a) + 1);
    if w.Data? then w.val else 0
  }

  ghost function RegionPages(r: Region): nat {
    match r
    case SmallPage(s) => if s <= PA_ARB_MAX_POW2 then SlotPages(s) else 1
    case LargeBlock(n) => n
    case Leaked(n) => n
  }

  type Regions = map<nat, Region>

  // Page numbers leave room for the eight offset bits of a 32-bit atom: 64 GB.
  const MAX_PAGES: nat := 0x100_0000

  ghost predicate RegionOk(rs: Regions, m: nat)
    requires m in rs
  {
    && m >= 1 && RegionPages(rs[m]) >= 1 && m + RegionPages(rs[m]) <= MAX_PAGES
    && (rs[m].SmallPage? ==> rs[m].slot <= PA_ARB_MAX_POW2)
  }

  ghost predicate Apart(rs: Regions, m: nat, n: nat)
    requires m in rs && n in rs
  {
    m + RegionPages(rs[m]) <= n || n + RegionPages(rs[n]) <= m
  }

  /** What the memory map may answer: a run of pages that overlaps none still held. */
  ghost predicate Grantable(rs: Regions, m: nat, pages: nat) {
    && m >= 1 && m !in rs && m + pages <= MAX_PAGES
    && forall n :: n in rs ==> m + pages <= n || n + RegionPages(rs[n]) <= m
  }

  // The chunks of the small pages.
  ghost predicate IsChunk(rs: Regions, a: Atom) {
    && a / 256 in rs && rs[a / 256].SmallPage? && rs[a / 256].slot <= PA_ARB_MAX_POW2
    && (a % 256) % Pow2(rs[a / 256].slot) == 0
  }

  ghost function SlotOf(rs: Regions, a: Atom): nat
    requires IsChunk(rs, a)
  {
    rs[a / 256].slot
  }

  ghost predicate IsLarge(rs: Regions, a: Atom) {
    a % 256 == 0 && a / 256 in rs && rs[a / 256].LargeBlock?
  }

  ghost predicate IsBlock(rs: Regions, a: Atom) {
    IsChunk(rs, a) || IsLarge(rs, a)
  }

  // Words in a block, header included.
  ghost function Words(rs: Regions, a: Atom): nat
    requires IsBlock(rs, a)
  {
    if IsChunk(rs, a) then 4 * Pow2(SlotOf(rs, a)) else 1024 * rs[a / 256].pages
  }

  ghost predicate RegionsOk(rs: Regions) {
    && (forall m :: m in rs ==> RegionOk(rs, m))
    && (forall m, n :: m in rs && n in rs && m != n ==> Apart(rs, m, n))
  }

  ghost predicate ChunkOk(mem: map<nat, Word>, rs: Regions, lists: seq<seq<Atom>>, a: Atom)
    requires |lists| == 13 && IsChunk(rs, a)
  {
    && Head(mem, a).SmallHead?
    && Head(mem, a).slot == SlotOf(rs, a)
    && Head(mem, a).chunk == (a % 256) / Pow2(SlotOf(rs, a))
    && (!Head(mem, a).inUse <==> a in lists[SlotOf(rs, a)])
  }

  ghost predicate LinkOk(mem: map<nat, Word>, rs: Regions, list: seq<Atom>, s: nat, i: nat)
    requires i < |list|
  {
    && IsChunk(rs, list[i]) && SlotOf(rs, list[i]) == s
    && Next(mem, list[i]) == (if i + 1 < |list| then list[i + 1] else 0)
  }

  /** The list of a slot runs through free chunks of that slot, each once, and ends. */
  ghost predicate ListOk(mem: map<nat, Word>, rs: Regions, list: seq<Atom>, s: nat, first: Atom) {
    && first == (if list == [] then 0 else list[0])
    && (forall i {:trigger LinkOk(mem, rs, list, s, i)} :: 0 <= i < |list| ==> LinkOk(mem, rs, list, s, i))
    && (forall i, j :: 0 <= i < j < |list| ==> list[i] != list[j])
  }

  ghost predicate Sound(mem: map<nat, Word>, rs: Regions, lists: seq<seq<Atom>>, free: seq<Atom>) {
    && |lists| == |free| == 13
    && RegionsOk(rs)
    && (forall s :: 0 <= s < 13 ==> ListOk(mem, rs, lists[s], s, free[s]))
    && (forall a: Atom {:trigger IsChunk(rs, a)} :: IsChunk(rs, a) ==> ChunkOk(mem, rs, lists, a))
    && (forall a: Atom {:trigger IsLarge(rs, a)} ::
          IsLarge(rs, a) ==> Head(mem, a) == LargeHead(RecordedSize(RegionPages(rs[a / 256]))))
  }

  /** A block handed out and not yet freed. */
  ghost predicate Live(mem: map<nat, Word>, rs: Regions, a: Atom) {
    IsLarge(rs, a) || (IsChunk(rs, a) && Head(mem, a).SmallHead? && Head(mem, a).inUse)
  }

  // ----- blocks do not overlap

  lemma {:induction false} OffsetInPage(slot: nat, off: nat)
    requires slot <= PA_ARB_MAX_POW2 && off < 256 && off % Pow2(slot) == 0
    ensures off + Pow2(slot) <= 256 * SlotPages(slot)
  {
    SlotFacts(slot);
    if slot > 8 {
      ModSmall(off, Pow2(slot));
      WholePages(slot);
    } else {
      MultipleBelow(Pow2(slot), ChunksPerPage(slot), off);
    }
  }

  // A chunk of more than a page takes whole pages.
  lemma {:induction false} WholePages(slot: nat)
    requires 8 < slot <= PA_ARB_MAX_POW2
    ensures Pow2(slot) == 256 * SlotPages(slot)
  {
    SlotFacts(slot);
    assert ChunkBytes(slot) == 16 * Pow2(slot);
  }

  lemma {:induction false} BlockInRegion(rs: Regions, a: Atom)
    requires RegionsOk(rs) && IsBlock(rs, a)
    ensures Words(rs, a) >= 4 && 0 < a < UINT32
    ensures (a / 256) * 1024 <= HeadAt(a)
    ensures HeadAt(a) + Words(rs, a) <= (a / 256 + RegionPages(rs[a / 256])) * 1024
  {
    assert RegionOk(rs, a / 256);
    if IsChunk(rs, a) {
      OffsetInPage(SlotOf(rs, a), a % 256);
    }
  }

  lemma {:induction false} MultipleBelow(p: nat, n: nat, off: nat)
    requires p > 0 && n * p == 256 && off < 256 && off % p == 0
    ensures off + p <= 256
  {
    var c := off / p;
    assert off == p * c;
    MulMono(p, n, if c >= n then c else n);
    MulMono(p, c + 1, n);
    assert p * (c + 1) == p * c + p;
  }

  lemma {:induction false} MultiplesApart(p: nat, x: nat, y: nat)
    requires p > 0 && x % p == 0 && y % p == 0 && x < y
    ensures x + p <= y
  {
    var i, j := x / p, y / p;
    assert x == p * i && y == p * j;
    MulMono(p, j, if i >= j then i else j);
    MulMono(p, i + 1, j);
    assert p * (i + 1) == p * i + p;
  }

  /** No two blocks share a word. */
  lemma {:induction false} BlocksDisjoint(rs: Regions, a: Atom, b: Atom)
    requires RegionsOk(rs) && IsBlock(rs, a) && IsBlock(rs, b) && a != b
    ensures HeadAt(a) + Words(rs, a) <= HeadAt(b) || HeadAt(b) + Words(rs, b) <= HeadAt(a)
  {
    BlockInRegion(rs, a);
    BlockInRegion(rs, b);
    if a / 256 == b / 256 {
      assert IsChunk(rs, a) && IsChunk(rs, b);
      var p := Pow2(SlotOf(rs, a));
      if a % 256 < b % 256 {
        MultiplesApart(p, a % 256, b % 256);
      } else {
        MultiplesApart(p, b % 256, a % 256);
      }
    } else {
      assert Apart(rs, a / 256, b / 256);
    }
  }

  /** Writing one word of a block leaves the headers and links of every other block as they were. */
  lemma {:induction false} WriteKeepsOthers(mem: map<nat, Word>, rs: Regions, a: Atom, off: nat, w: Word, b: Atom)
    requires RegionsOk(rs) && IsBlock(rs, a) && IsBlock(rs, b) && a != b && off < Words(rs, a)
    ensures Head(mem[HeadAt(a) + off := w], b) == Head(mem, b)
    ensures Next(mem[HeadAt(a) + off := w], b) == Next(mem, b)
  {
    BlocksDisjoint(rs, a, b);
    BlockInRegion(rs, b);
  }

  /** Every word of a block reads as it did. */
  ghost predicate Untouched(mem: map<nat, Word>, rs: Regions, mem': map<nat, Word>, a: Atom) {
    IsBlock(rs, a) ==>
      forall x: nat :: HeadAt(a) <= x < HeadAt(a) + Words(rs, a) ==> Read(mem', x) == Read(mem, x)
  }

  // ----- the steps on words, and what they keep

  // Marks a free chunk in use or back; `link` is the next atom, written only when a chunk is freed.
  ghost function Marked(mem: map<nat, Word>, a: Atom, inUse: bool): map<nat, Word>
    requires Head(mem, a).SmallHead?
  {
    mem[HeadAt(a) := Head(mem, a).(inUse := inUse)]
  }

  lemma {:induction false} PopSound(mem: map<nat, Word>, rs: Regions, lists: seq<seq<Atom>>, free: seq<Atom>, s: nat)
    requires Sound(mem, rs, lists, free) && s < 13 && lists[s] != []
    ensures var a := lists[s][0]; IsChunk(rs, a) && Head(mem, a).SmallHead? && !Live(mem, rs, a)
    ensures var a := lists[s][0];
            Sound(Marked(mem, a, true), rs, lists[s := lists[s][1..]], free[s := Next(mem, a)])
    ensures var a := lists[s][0]; Live(Marked(mem, a, true), rs, a)
    ensures forall b: Atom :: b != lists[s][0] && IsBlock(rs, b) ==>
              (Live(Marked(mem, lists[s][0], true), rs, b) <==> Live(mem, rs, b))
  {
    var a := lists[s][0];
    assert ListOk(mem, rs, lists[s], s, free[s]) && LinkOk(mem, rs, lists[s], s, 0) && IsChunk(rs, a);
    assert ChunkOk(mem, rs, lists, a);
    var mem', lists', free' := Marked(mem, a, true), lists[s := lists[s][1..]], free[s := Next(mem, a)];
    BlockInRegion(rs, a);
    forall b: Atom | IsBlock(rs, b) && b != a ensures Head(mem', b) == Head(mem, b) && Next(mem', b) == Next(mem, b) {
      WriteKeepsOthers(mem, rs, a, 0, Head(mem, a).(inUse := true), b);
    }
    forall t | 0 <= t < 13 ensures ListOk(mem', rs, lists'[t], t, free'[t]) {
      assert ListOk(mem, rs, lists[t], t, free[t]);
      var k := if t == s then 1 else 0;
      forall i | 0 <= i < |lists'[t]| ensures LinkOk(mem', rs, lists'[t], t, i) {
        assert LinkOk(mem, rs, lists[t], t, i + k);
        assert lists'[t][i] == lists[t][i + k];
      }
    }
    forall b: Atom | IsChunk(rs, b) ensures ChunkOk(mem', rs, lists', b) {
      assert ChunkOk(mem, rs, lists, b);
      assert SlotOf(rs, b) < 13;
    }
    forall b: Atom | IsLarge(rs, b) ensures Head(mem', b) == LargeHead(RecordedSize(RegionPages(rs[b / 256]))) {
    }
  }

  /** A client may write any word of a live block but its header. */
  lemma {:induction false} ClientSound(mem: map<nat, Word>, rs: Regions, lists: seq<seq<Atom>>, free: seq<Atom>,
                                       a: Atom, off: nat, w: Word)
    requires Sound(mem, rs, lists, free) && Live(mem, rs, a) && 1 <= off < Words(rs, a)
    ensures Sound(mem[HeadAt(a) + off := w], rs, lists, free)
    ensures forall b: Atom :: IsBlock(rs, b) ==> (Live(mem[HeadAt(a) + off := w], rs, b) <==> Live(mem, rs, b))
  {
    var mem' := mem[HeadAt(a) + off := w];
    forall b: Atom | IsBlock(rs, b)
      ensures Head(mem', b) == Head(mem, b) && (b != a ==> Next(mem', b) == Next(mem, b))
    {
      if b != a {
        WriteKeepsOthers(mem, rs, a, off, w, b);
      }
    }
    forall t | 0 <= t < 13 ensures ListOk(mem', rs, lists[t], t, free[t]) {
      assert ListOk(mem, rs, lists[t], t, free[t]);
      forall i | 0 <= i < |lists[t]| ensures LinkOk(mem', rs, lists[t], t, i) {
        assert LinkOk(mem, rs, lists[t], t, i);
        assert ChunkOk(mem, rs, lists, lists[t][i]);
      }
    }
    forall b: Atom | IsChunk(rs, b) ensures ChunkOk(mem', rs, lists, b) {
      assert ChunkOk(mem, rs, lists, b);
    }
    forall b: Atom | IsLarge(rs, b) ensures Head(mem', b) == LargeHead(RecordedSize(RegionPages(rs[b / 256]))) {
    }
  }

  /** Freeing, once the link word has been written: the header is marked and the list starts here. */
  lemma {:induction false} PushMarked(mem: map<nat, Word>, rs: Regions, lists: seq<seq<Atom>>, free: seq<Atom>,
                                      a: Atom)
    requires Sound(mem, rs, lists, free) && IsChunk(rs, a) && Live(mem, rs, a)
    requires SlotOf(rs, a) < 13 && Next(mem, a) == free[SlotOf(rs, a)]
    ensures var s := SlotOf(rs, a);
            Sound(Marked(mem, a, false), rs, lists[s := [a] + lists[s]], free[s := a])
    ensures !Live(Marked(mem, a, false), rs, a)
    ensures forall b: Atom :: b != a && IsBlock(rs, b) ==> (Live(Marked(mem, a, false), rs, b) <==> Live(mem, rs, b))
  {
    assert ChunkOk(mem, rs, lists, a);
    var s := SlotOf(rs, a);
    var mem', lists', free' := Marked(mem, a, false), lists[s := [a] + lists[s]], free[s := a];
    BlockInRegion(rs, a);
    forall b: Atom | IsBlock(rs, b) && b != a ensures Head(mem', b) == Head(mem, b) && Next(mem', b) == Next(mem, b) {
      WriteKeepsOthers(mem, rs, a, 0, Head(mem, a).(inUse := false), b);
    }
    forall t | 0 <= t < 13 ensures ListOk(mem', rs, lists'[t], t, free'[t]) {
      assert ListOk(mem, rs, lists[t], t, free[t]);
      if t == s {
        PushedList(mem, rs, lists[s], s, free[s], a, mem');
      } else {
        SameList(mem, rs, lists[t], t, free[t], mem', a);
      }
    }
    forall b: Atom | IsChunk(rs, b) ensures ChunkOk(mem', rs, lists', b) {
      assert ChunkOk(mem, rs, lists, b);
      assert SlotOf(rs, b) < 13;
    }
    forall b: Atom | IsLarge(rs, b) ensures Head(mem', b) == LargeHead(RecordedSize(RegionPages(rs[b / 256]))) {
    }
  }

  lemma {:induction false} SameList(mem: map<nat, Word>, rs: Regions, list: seq<Atom>, t: nat, first: Atom,
                                    mem': map<nat, Word>, a: Atom)
    requires ListOk(mem, rs, list, t, first) && IsChunk(rs, a) && SlotOf(rs, a) != t
    requires forall b: Atom :: IsBlock(rs, b) && b != a ==> Next(mem', b) == Next(mem, b)
    ensures ListOk(mem', rs, list, t, first)
  {
    forall i | 0 <= i < |list| ensures LinkOk(mem', rs, list, t, i) {
      assert LinkOk(mem, rs, list, t, i);
    }
  }

  lemma {:induction false} PushedList(mem: map<nat, Word>, rs: Regions, list: seq<Atom>, s: nat, first: Atom,
                                      a: Atom, mem': map<nat, Word>)
    requires ListOk(mem, rs, list, s, first) && IsChunk(rs, a) && SlotOf(rs, a) == s && a !in list
    requires Next(mem', a) == first
    requires forall b: Atom :: IsBlock(rs, b) && b != a ==> Next(mem', b) == Next(mem, b)
    ensures ListOk(mem', rs, [a] + list, s, a)
  {
    var l := [a] + list;
    forall i | 0 <= i < |l| ensures LinkOk(mem', rs, l, s, i) {
      if i > 0 {
        assert LinkOk(mem, rs, list, s, i - 1);
      }
    }
  }

  // ----- a new page, carved into chunks

  ghost predicate SameOutside(mem: map<nat, Word>, mem': map<nat, Word>, m: nat, pages: nat) {
    forall x: nat :: x < m * 1024 || (m + pages) * 1024 <= x ==> Read(mem', x) == Read(mem, x)
  }

  ghost predicate Carved(mem: map<nat, Word>, m: nat, slot: nat, c: nat)
    requires slot <= PA_ARB_MAX_POW2
  {
    && Head(mem, BuildAtom(m, slot, c)) == SmallHead(false, slot, c)
    && Next(mem, BuildAtom(m, slot, c)) == (if c + 1 < ChunksPerPage(slot) then BuildAtom(m, slot, c + 1) else 0)
  }

  lemma {:induction false} ChunkHeadAt(m: nat, slot: nat, c: nat)
    requires slot <= PA_ARB_MAX_POW2 && c < ChunksPerPage(slot)
    ensures HeadAt(BuildAtom(m, slot, c)) == m * 1024 + 4 * (Pow2(slot) * c)
    ensures m * 1024 <= HeadAt(BuildAtom(m, slot, c))
    ensures HeadAt(BuildAtom(m, slot, c)) + 4 <= (m + SlotPages(slot)) * 1024
  {
    AtomRoundTrip(m, slot, c);
    ChunkOffset(slot, c);
  }

  /** Carving chunk i leaves the chunks already carved as they are. */
  lemma {:induction false} CarveKeeps(mem: map<nat, Word>, m: nat, slot: nat, c: nat, i: nat, h: Word, n: Word)
    requires slot <= PA_ARB_MAX_POW2 && c < i < ChunksPerPage(slot) && Carved(mem, m, slot, c)
    ensures var at := HeadAt(BuildAtom(m, slot, i)); Carved(mem[at := h][at + 1 := n], m, slot, c)
  {
    ChunkHeadAt(m, slot, c);
    ChunkHeadAt(m, slot, i);
    var p := Pow2(slot);
    MulMono(p, c + 1, i);
    assert p * (c + 1) == p * c + p;
  }

  ghost function Carve(mem: map<nat, Word>, m: nat, slot: nat, i: nat): map<nat, Word>
    requires slot <= PA_ARB_MAX_POW2
  {
    var at := HeadAt(BuildAtom(m, slot, i));
    mem[at := SmallHead(false, slot, i)]
       [at + 1 := Data(if i == ChunksPerPage(slot) - 1 then 0 else BuildAtom(m, slot, i + 1))]
  }

  /** One turn of the carving loop. */
  lemma {:induction false} CarveStep(before: map<nat, Word>, mem: map<nat, Word>, m: nat, slot: nat, i: nat)
    requires slot <= PA_ARB_MAX_POW2 && i < ChunksPerPage(slot) && SameOutside(before, mem, m, SlotPages(slot))
    requires forall c {:trigger Carved(mem, m, slot, c)} :: 0 <= c < i ==> Carved(mem, m, slot, c)
    ensures SameOutside(before, Carve(mem, m, slot, i), m, SlotPages(slot))
    ensures forall c {:trigger Carved(Carve(mem, m, slot, i), m, slot, c)} ::
              0 <= c < i + 1 ==> Carved(Carve(mem, m, slot, i), m, slot, c)
  {
    ChunkHeadAt(m, slot, i);
    var mem' := Carve(mem, m, slot, i);
    forall c | 0 <= c < i + 1 ensures Carved(mem', m, slot, c) {
      if c < i {
        assert Carved(mem, m, slot, c);
        CarveKeeps(mem, m, slot, c, i, SmallHead(false, slot, i),
                   Data(if i == ChunksPerPage(slot) - 1 then 0 else BuildAtom(m, slot, i + 1)));
      }
    }
  }

  lemma {:induction false} IsCarvedChunk(m: nat, slot: nat, a: Atom) returns (c: nat)
    requires slot <= PA_ARB_MAX_POW2 && a / 256 == m && (a % 256) % Pow2(slot) == 0
    ensures c < ChunksPerPage(slot) && a == BuildAtom(m, slot, c) && (a % 256) / Pow2(slot) == c
  {
    var p, off: nat := Pow2(slot), a % 256;
    SlotFacts(slot);
    c := off / p;
    QuotientInPage(p, ChunksPerPage(slot), off);
  }

  lemma {:induction false} QuotientInPage(p: nat, n: nat, off: nat)
    requires p > 0 && off < 256 && off % p == 0 && (n * p == 256 || (n == 1 && p > 256))
    ensures off / p < n && off == p * (off / p)
  {
    var c := off / p;
    assert off == p * c;
    MulMono(p, n, if c >= n then c else n);
  }

  ghost function PageList(m: nat, slot: nat): seq<Atom>
    requires slot <= PA_ARB_MAX_POW2
  {
    seq(ChunksPerPage(slot), (c: nat) => BuildAtom(m, slot, c))
  }

  lemma {:induction false} RegionKept(rs: Regions, m: nat, r: Region, b: Atom)
    requires RegionsOk(rs) && m !in rs
    ensures IsBlock(rs, b) ==> IsBlock(rs[m := r], b) && b / 256 != m
    ensures IsChunk(rs, b) ==> IsChunk(rs[m := r], b) && SlotOf(rs[m := r], b) == SlotOf(rs, b)
    ensures b / 256 != m && IsBlock(rs[m := r], b) ==> IsBlock(rs, b)
  {
  }

  lemma {:induction false} GrantOk(rs: Regions, m: nat, r: Region)
    requires RegionsOk(rs) && Grantable(rs, m, RegionPages(r)) && RegionPages(r) >= 1
    requires r.SmallPage? ==> r.slot <= PA_ARB_MAX_POW2
    ensures RegionsOk(rs[m := r])
  {
    var rs' := rs[m := r];
    forall n | n in rs' ensures RegionOk(rs', n) {
      if n != m { assert RegionOk(rs, n); }
    }
    forall i, j | i in rs' && j in rs' && i != j ensures Apart(rs', i, j) {
      if i != m && j != m { assert Apart(rs, i, j); }
    }
  }

  /** Writing inside a granted run of pages leaves every block that was there before as it was. */
  lemma {:induction false} OldBlocksKept(mem: map<nat, Word>, mem': map<nat, Word>, rs: Regions, m: nat,
                                         pages: nat, b: Atom)
    requires RegionsOk(rs) && Grantable(rs, m, pages) && SameOutside(mem, mem', m, pages)
    requires IsBlock(rs, b)
    ensures forall x: nat :: HeadAt(b) <= x < HeadAt(b) + Words(rs, b) ==> Read(mem', x) == Read(mem, x)
    ensures Head(mem', b) == Head(mem, b) && Next(mem', b) == Next(mem, b)
  {
    BlockInRegion(rs, b);
    var n: nat := b / 256;
    assert m + pages <= n || n + RegionPages(rs[n]) <= m;
    if m + pages <= n {
      assert (m + pages) * 1024 <= n * 1024;
    } else {
      assert (n + RegionPages(rs[n])) * 1024 <= m * 1024;
    }
  }

  lemma {:induction false} OldListKept(mem: map<nat, Word>, mem': map<nat, Word>, rs: Regions, m: nat, r: Region,
                                       list: seq<Atom>, t: nat, first: Atom)
    requires RegionsOk(rs) && Grantable(rs, m, RegionPages(r)) && SameOutside(mem, mem', m, RegionPages(r))
    requires ListOk(mem, rs, list, t, first)
    ensures ListOk(mem', rs[m := r], list, t, first)
  {
    var rs' := rs[m := r];
    forall i | 0 <= i < |list| ensures LinkOk(mem', rs', list, t, i) {
      assert LinkOk(mem, rs, list, t, i);
      OldBlocksKept(mem, mem', rs, m, RegionPages(r), list[i]);
    }
  }

  lemma {:induction false} PageListOk(mem: map<nat, Word>, rs: Regions, m: nat, slot: nat)
    requires slot <= PA_ARB_MAX_POW2 && m in rs && rs[m] == SmallPage(slot)
    requires forall c {:trigger Carved(mem, m, slot, c)} :: 0 <= c < ChunksPerPage(slot) ==> Carved(mem, m, slot, c)
    ensures ListOk(mem, rs, PageList(m, slot), slot, BuildAtom(m, slot, 0))
  {
    SlotFacts(slot);
    var list := PageList(m, slot);
    forall i | 0 <= i < |list| ensures LinkOk(mem, rs, list, slot, i) {
      assert Carved(mem, m, slot, i);
      AtomRoundTrip(m, slot, i);
      ChunkOffset(slot, i);
    }
    forall i, j | 0 <= i < j < |list| ensures list[i] != list[j] {
      AtomsDistinct(m, m, slot, i, j);
    }
  }

  lemma {:induction false} PageSound(mem: map<nat, Word>, rs: Regions, lists: seq<seq<Atom>>, free: seq<Atom>,
                                     m: nat, slot: nat, mem': map<nat, Word>)
    requires Sound(mem, rs, lists, free) && slot <= PA_ARB_MAX_POW2 && lists[slot] == []
    requires Grantable(rs, m, SlotPages(slot)) && SameOutside(mem, mem', m, SlotPages(slot))
    requires forall c {:trigger Carved(mem', m, slot, c)} :: 0 <= c < ChunksPerPage(slot) ==> Carved(mem', m, slot, c)
    ensures Sound(mem', rs[m := SmallPage(slot)], lists[slot := PageList(m, slot)], free[slot := BuildAtom(m, slot, 0)])
    ensures forall b: Atom :: IsBlock(rs, b) ==>
              IsBlock(rs[m := SmallPage(slot)], b) && (Live(mem', rs[m := SmallPage(slot)], b) <==> Live(mem, rs, b))
    ensures forall b: Atom :: IsBlock(rs, b) ==>
              Words(rs[m := SmallPage(slot)], b) == Words(rs, b) && Untouched(mem, rs, mem', b)
    ensures forall b: Atom :: Live(mem', rs[m := SmallPage(slot)], b) ==> IsBlock(rs, b)
  {
    var r := SmallPage(slot);
    var rs', lists', free' := rs[m := r], lists[slot := PageList(m, slot)], free[slot := BuildAtom(m, slot, 0)];
    SlotFacts(slot);
    GrantOk(rs, m, r);
    forall t | 0 <= t < 13 ensures ListOk(mem', rs', lists'[t], t, free'[t]) {
      assert ListOk(mem, rs, lists[t], t, free[t]);
      if t == slot {
        PageListOk(mem', rs', m, slot);
      } else {
        OldListKept(mem, mem', rs, m, r, lists[t], t, free[t]);
      }
    }
    forall b: Atom | IsBlock(rs, b)
      ensures IsBlock(rs', b) && (Live(mem', rs', b) <==> Live(mem, rs, b))
      ensures Words(rs', b) == Words(rs, b) && Untouched(mem, rs, mem', b)
    {
      RegionKept(rs, m, r, b);
      OldBlocksKept(mem, mem', rs, m, SlotPages(slot), b);
    }
    forall b: Atom | IsChunk(rs', b)
      ensures ChunkOk(mem', rs', lists', b) && (b / 256 == m ==> !Live(mem', rs', b))
    {
      if b / 256 == m {
        var c := IsCarvedChunk(m, slot, b);
        assert Carved(mem', m, slot, c) && PageList(m, slot)[c] == b;
      } else {
        RegionKept(rs, m, r, b);
        assert ChunkOk(mem, rs, lists, b);
        OldBlocksKept(mem, mem', rs, m, SlotPages(slot), b);
        if SlotOf(rs, b) == slot && b in PageList(m, slot) {
          var c :| 0 <= c < ChunksPerPage(slot) && PageList(m, slot)[c] == b;
          AtomRoundTrip(m, slot, c);
        }
      }
    }
    forall b: Atom | IsLarge(rs', b) ensures Head(mem', b) == LargeHead(RecordedSize(RegionPages(rs'[b / 256]))) {
      assert IsLarge(rs, b);
      OldBlocksKept(mem, mem', rs, m, SlotPages(slot), b);
    }
  }

  /** A large block: its header is the only word written. */
  lemma {:induction false} LargeSound(mem: map<nat, Word>, rs: Regions, lists: seq<seq<Atom>>, free: seq<Atom>,
                                      m: nat, pages: nat)
    requires Sound(mem, rs, lists, free) && pages >= 1 && Grantable(rs, m, pages)
    ensures var mem' := mem[HeadAt(m * 256) := LargeHead(RecordedSize(pages))];
            && Sound(mem', rs[m := LargeBlock(pages)], lists, free)
            && Live(mem', rs[m := LargeBlock(pages)], m * 256)
            && (forall b: Atom :: IsBlock(rs, b) ==>
                  IsBlock(rs[m := LargeBlock(pages)], b)
                  && (Live(mem', rs[m := LargeBlock(pages)], b) <==> Live(mem, rs, b)))
  {
    var r := LargeBlock(pages);
    var mem', rs' := mem[HeadAt(m * 256) := LargeHead(RecordedSize(pages))], rs[m := r];
    GrantOk(rs, m, r);
    forall t | 0 <= t < 13 ensures ListOk(mem', rs', lists[t], t, free[t]) {
      assert ListOk(mem, rs, lists[t], t, free[t]);
      OldListKept(mem, mem', rs, m, r, lists[t], t, free[t]);
    }
    forall b: Atom | IsBlock(rs, b)
      ensures IsBlock(rs', b) && (Live(mem', rs', b) <==> Live(mem, rs, b))
    {
      RegionKept(rs, m, r, b);
      OldBlocksKept(mem, mem', rs, m, pages, b);
    }
    forall b: Atom | IsChunk(rs', b) ensures ChunkOk(mem', rs', lists, b) {
      RegionKept(rs, m, r, b);
      assert ChunkOk(mem, rs, lists, b);
      OldBlocksKept(mem, mem', rs, m, pages, b);
    }
    forall b: Atom | IsLarge(rs', b) ensures Head(mem', b) == LargeHead(RecordedSize(RegionPages(rs'[b / 256]))) {
      if b / 256 != m {
        assert IsLarge(rs, b);
        OldBlocksKept(mem, mem', rs, m, pages, b);
      }
    }
  }

  /** Giving a large block's pages back, or losing them, touches no word. */
  lemma {:induction false} ReleaseSound(mem: map<nat, Word>, rs: Regions, lists: seq<seq<Atom>>,
                                        free: seq<Atom>, m: nat, lost: bool)
    requires Sound(mem, rs, lists, free) && m in rs && rs[m].LargeBlock?
    ensures var rs' := if lost then rs[m := Leaked(rs[m].pages)] else rs - {m};
            && Sound(mem, rs', lists, free)
            && (forall b: Atom :: IsBlock(rs', b) <==> IsBlock(rs, b) && b / 256 != m)
  {
    var rs' := if lost then rs[m := Leaked(rs[m].pages)] else rs - {m};
    forall b: Atom ensures IsBlock(rs', b) <==> IsBlock(rs, b) && b / 256 != m {
      if IsBlock(rs, b) && b / 256 != m {
        assert b / 256 in rs' && rs'[b / 256] == rs[b / 256];
      }
    }
    forall n | n in rs' ensures RegionOk(rs', n) {
      assert RegionOk(rs, n);
    }
    forall i, j | i in rs' && j in rs' && i != j ensures Apart(rs', i, j) {
      assert Apart(rs, i, j);
    }
    forall t | 0 <= t < 13 ensures ListOk(mem, rs', lists[t], t, free[t]) {
      assert ListOk(mem, rs, lists[t], t, free[t]);
      forall i | 0 <= i < |lists[t]| ensures LinkOk(mem, rs', lists[t], t, i) {
        assert LinkOk(mem, rs, lists[t], t, i);
      }
    }
    forall b: Atom | IsChunk(rs', b) ensures ChunkOk(mem, rs', lists, b) {
      assert IsChunk(rs, b) && ChunkOk(mem, rs, lists, b);
    }
    forall b: Atom | IsLarge(rs', b) ensures Head(mem, b) == LargeHead(RecordedSize(RegionPages(rs'[b / 256]))) {
      assert IsLarge(rs, b);
    }
  }

  // The loop of pa_arb_make_page: writes a header and a link in every chunk of a fresh page.
  method CarvePage(before: map<nat, Word>, m: nat, slot: nat) returns (mem: map<nat, Word>)
    requires slot <= PA_ARB_MAX_POW2
    ensures SameOutside(before, mem, m, SlotPages(slot))
    ensures forall c {:trigger Carved(mem, m, slot, c)} :: 0 <= c < ChunksPerPage(slot) ==> Carved(mem, m, slot, c)
  {
    mem := before;
    var imax := ChunksPerPage(slot);
    var atom := BuildAtom(m, slot, 0);
    for i := 0 to imax
      invariant atom == if i < imax then BuildAtom(m, slot, i) else 0
      invariant SameOutside(before, mem, m, SlotPages(slot))
      invariant forall c {:trigger Carved(mem, m, slot, c)} :: 0 <= c < i ==> Carved(mem, m, slot, c)
    {
      var prhp := HeadAt(atom);
      CarveStep(before, mem, m, slot, i);
      atom := if i == imax - 1 then 0 else BuildAtom(m, slot, i + 1);
      mem := mem[prhp := SmallHead(false, slot, i)];
      mem := mem[prhp + 1 := Data(atom)];
    }
  }

  class Arb {
    var mem: map<nat, Word>
    const free: array<Atom>  // pri_free
    ghost var regions: Regions
    ghost var lists: seq<seq<Atom>>

    ghost predicate Valid()
      reads this, free
    {
      free.Length == 13 && Sound(mem, regions, lists, free[..])
    }

    // A database with no page yet; its memory may hold anything.
    constructor (contents: map<nat, Word>)
      ensures Valid() && mem == contents && regions == map[] && lists == seq(13, _ => [])
      ensures fresh(free)
    {
      mem := contents;
      free := new Atom[13](_ => 0);
      regions := map[];
      lists := seq(13, _ => []);
    }

    /** pa_arb_make_page: `answer` is what the memory map gave, zero for nothing. */
    method MakePage(slot: nat, answer: nat)
      requires Valid() && slot <= PA_ARB_MAX_POW2 && lists[slot] == []
      requires answer != 0 ==> Grantable(regions, answer, SlotPages(slot))
      modifies this, free
      ensures Valid()
      ensures answer == 0 ==>
        mem == old(mem) && regions == old(regions) && lists == old(lists) && free[..] == old(free[..])
      ensures answer != 0 ==>
        && regions == old(regions)[answer := SmallPage(slot)]
        && lists == old(lists)[slot := PageList(answer, slot)]
        && SameOutside(old(mem), mem, answer, SlotPages(slot))
        && (forall b: Atom :: IsBlock(old(regions), b) ==> (Live(mem, regions, b) <==> old(Live(mem, regions, b))))
        && (forall b: Atom :: Live(mem, regions, b) ==> IsBlock(old(regions), b))
        && (forall b: Atom :: IsBlock(old(regions), b) ==>
              IsBlock(regions, b) && Words(regions, b) == Words(old(regions), b)
                                                           && Untouched(old(mem), old(regions), mem, b))
    {
      if answer == 0 {
        return;
      }
      ghost var before := mem;
      mem := CarvePage(mem, answer, slot);
      PageSound(before, regions, lists, free[..], answer, slot, mem);
      free[slot] := BuildAtom(answer, slot, 0);
      regions := regions[answer := SmallPage(slot)];
      lists := lists[slot := PageList(answer, slot)];
      assert free[..] == old(free[..])[slot := BuildAtom(answer, slot, 0)];
    }

    // The tail of the small path: unchain the first free chunk and mark it in use.
    method TakeFirst(slot: nat) returns (atom: Atom)
      requires Valid() && slot <= PA_ARB_MAX_POW2 && lists[slot] != []
      modifies `mem, `lists, free
      ensures Valid() && atom == old(lists)[slot][0] && lists == old(lists)[slot := old(lists)[slot][1..]]
      ensures atom != 0 && IsChunk(regions, atom) && SlotOf(regions, atom) == slot
      ensures Live(mem, regions, atom) && !old(Live(mem, regions, atom))
      ensures forall b: Atom :: b != atom ==> (Live(mem, regions, b) <==> old(Live(mem, regions, b)))
      ensures forall b: Atom :: b != atom ==> Untouched(old(mem), regions, mem, b)
    {
      ListHead(mem, regions, lists[slot], slot, free[slot]);
      PopSound(mem, regions, lists, free[..], slot);
      assert LinkOk(mem, regions, lists[slot], slot, 0);
      atom := free[slot];
      OthersUntouched(mem, regions, atom, mem[HeadAt(atom) := Head(mem, atom).(inUse := true)]);
      free[slot] := Next(mem, atom);
      mem := mem[HeadAt(atom) := Head(mem, atom).(inUse := true)];
      lists := lists[slot := lists[slot][1..]];
      assert free[..] == old(free[..])[slot := free[slot]];
    }

    // The "small" branch: a chunk from the slot's list, after carving a page if the list is empty.
    method AllocSmall(slot: nat, answer: nat) returns (atom: Atom)
      requires Valid() && slot <= PA_ARB_MAX_POW2
      requires answer != 0 ==> Grantable(regions, answer, SlotPages(slot))
      modifies this, free
      ensures Valid()
      ensures old(lists)[slot] == [] && answer == 0 ==>
        atom == 0 && lists == old(lists) && regions == old(regions) && mem == old(mem)
      ensures old(lists)[slot] != [] || answer != 0 ==>
        var pool := if old(lists)[slot] != [] then old(lists)[slot] else PageList(answer, slot);
        && pool != [] && atom == pool[0] && lists == old(lists)[slot := pool[1..]]
        && regions == (if old(lists)[slot] != [] then old(regions) else old(regions)[answer := SmallPage(slot)])
        && atom != 0 && IsChunk(regions, atom) && SlotOf(regions, atom) == slot
        && Live(mem, regions, atom) && !old(Live(mem, regions, atom))
      ensures forall b: Atom :: b != atom ==> (Live(mem, regions, b) <==> old(Live(mem, regions, b)))
      ensures forall b: Atom :: old(Live(mem, regions, b)) ==> Untouched(old(mem), old(regions), mem, b)
    {
      assert ListOk(mem, regions, lists[slot], slot, free[slot]);
      ListHead(mem, regions, lists[slot], slot, free[slot]);
      if free[slot] == 0 {
        MakePage(slot, answer);
        SlotFacts(slot);
        assert ListOk(mem, regions, lists[slot], slot, free[slot]);
        ListHead(mem, regions, lists[slot], slot, free[slot]);
        if free[slot] == 0 {
          return 0;
        }
      }
      ghost var mem1, rs1 := mem, regions;
      atom := TakeFirst(slot);
      forall b: Atom | old(Live(mem, regions, b)) ensures Untouched(old(mem), old(regions), mem, b) {
        assert Live(mem1, rs1, b) && IsBlock(rs1, b) && Words(rs1, b) == Words(old(regions), b);
        assert Untouched(old(mem), old(regions), mem1, b) && Untouched(mem1, rs1, mem, b);
      }
    }

    // The "large" branch: whole pages, the header in front.
    method AllocLarge(full: nat, answer: nat) returns (atom: Atom)
      requires Valid() && HEADER_SIZE <= full < PA_ARB_MAX_LARGE
      requires answer != 0 ==> Grantable(regions, answer, Pages(full))
      modifies this
      ensures Valid() && lists == old(lists)
      ensures answer == 0 ==> atom == 0 && regions == old(regions) && mem == old(mem)
      ensures answer != 0 ==>
        && atom == answer * 256 && regions == old(regions)[answer := LargeBlock(Pages(full))]
        && Live(mem, regions, atom) && !old(Live(mem, regions, atom))
      ensures forall b: Atom :: b != atom ==> (Live(mem, regions, b) <==> old(Live(mem, regions, b)))
      ensures forall b: Atom :: old(Live(mem, regions, b)) ==> Untouched(old(mem), old(regions), mem, b)
    {
      if answer == 0 {
        return 0;
      }
      var pages := Pages(full);
      atom := answer * 256;
      ghost var mem' := mem[HeadAt(atom) := LargeHead(RecordedSize(pages))];
      forall b: Atom | IsBlock(regions, b) ensures Untouched(mem, regions, mem', b) {
        OldBlocksKept(mem, mem', regions, answer, pages, b);
      }
      LargeSound(mem, regions, lists, free[..], answer, pages);
      mem := mem[HeadAt(atom) := LargeHead(RecordedSize(pages))];
      regions := regions[answer := LargeBlock(pages)];
    }

    /** pa_arb_alloc.  A zero result means failure and leaves the whole state as it was. */
    method Alloc(size: nat, answer: nat) returns (atom: Atom)
      requires Valid() && size < UINT64
      requires answer != 0 ==> Grantable(regions, answer, PagesWanted(FullSize(size)))
      modifies this, free
      ensures Valid()
      ensures match Route(FullSize(size), old(lists), answer)
        case FromList(s, pool, carved) =>
          && |lists| == 13 && s < 13 && pool != [] && atom == pool[0] && atom != 0
          && lists == old(lists)[s := pool[1..]]
          && regions == (if carved then old(regions)[answer := SmallPage(s)] else old(regions))
          && IsChunk(regions, atom) && SlotOf(regions, atom) == s
        case FromPages(pages) =>
          && atom == answer * 256 && atom != 0 && lists == old(lists)
          && regions == old(regions)[answer := LargeBlock(pages)]
        case Refused =>
          atom == 0 && lists == old(lists) && regions == old(regions) && mem == old(mem)
      ensures atom == 0 ==> answer == 0 || size + HEADER_SIZE >= PA_ARB_MAX_LARGE
      ensures forall s :: 0 <= s < 13 && LeastHolding(s, size) ==>
                && (atom != 0 <==> old(lists)[s] != [] || answer != 0)
                && (atom != 0 ==> IsChunk(regions, atom) && SlotOf(regions, atom) == s)
      ensures 65536 < size + HEADER_SIZE < PA_ARB_MAX_LARGE ==>
        && (atom != 0 <==> answer != 0)
        && (atom != 0 ==> IsLarge(regions, atom) && atom == answer * 256)
      ensures atom != 0 ==> Live(mem, regions, atom) && !old(Live(mem, regions, atom))
      ensures atom != 0 ==>
        (4 * Words(regions, atom) >= size + HEADER_SIZE <==> size + HEADER_SIZE <= UINT32)
      ensures forall b: Atom :: b != atom ==> (Live(mem, regions, b) <==> old(Live(mem, regions, b)))
      ensures forall b: Atom :: old(Live(mem, regions, b)) ==> Untouched(old(mem), old(regions), mem, b)
    {
      var full := (size + HEADER_SIZE) % UINT64;
      var slot := Slot(full);
      CoversRequest(size);
      OnlySlot(size);
      if slot <= PA_ARB_MAX_POW2 {
        atom := AllocSmall(slot, answer);
      } else if full < PA_ARB_MAX_LARGE {
        SlotFacts(0);
        assert full >= HEADER_SIZE;
        atom := AllocLarge(full, answer);
      } else {
        atom := 0;
      }
    }

    /**
      pa_arb_free_atom.  `unmapped` is what is handed back to the memory map: a page and a byte count.  An atom that is
      no block any more goes by the word where its header was: unless that is the header of a large block, nothing
      happens, and if it is, its pages are handed back once more.
     */
    method Free(atom: Atom) returns (unmapped: seq<(nat, nat)>)
      requires Valid()
      requires atom != 0 && Head(mem, atom).SmallHead? && Head(mem, atom).inUse ==> IsBlock(regions, atom)
      modifies this, free
      ensures Valid()
      ensures atom == 0 || (IsChunk(old(regions), atom) && !old(Live(mem, regions, atom))) ==>
        unmapped == [] && mem == old(mem) && lists == old(lists) && regions == old(regions) && free[..] == old(free[..])
      ensures atom != 0 && IsChunk(old(regions), atom) && old(Live(mem, regions, atom)) ==>
        var s := SlotOf(old(regions), atom);
        && s < 13 && unmapped == [] && regions == old(regions) && lists == old(lists)[s := [atom] + old(lists)[s]]
        && !Live(mem, regions, atom)
      ensures atom != 0 && IsLarge(old(regions), atom) ==>
        var pages := old(regions)[atom / 256].pages;
        && unmapped == [(atom / 256, RecordedSize(pages) * PA_MMAP_ATOM_SIZE)]
        && mem == old(mem) && lists == old(lists)
        && regions == (if RecordedSize(pages) == pages then old(regions) - {atom / 256}
                       else old(regions)[atom / 256 := Leaked(pages)])
      ensures atom != 0 && !IsBlock(old(regions), atom) ==>
        && mem == old(mem) && lists == old(lists) && regions == old(regions) && free[..] == old(free[..])
        && unmapped == match old(Head(mem, atom))
                       case LargeHead(size) => [(atom / 256, size * PA_MMAP_ATOM_SIZE)]
                       case _ => []
      ensures forall b: Atom :: b != atom ==> (Live(mem, regions, b) <==> old(Live(mem, regions, b)))
      ensures forall b: Atom :: b != atom && old(Live(mem, regions, b)) ==> Untouched(old(mem), old(regions), mem, b)
    {
      unmapped := [];
      if atom == 0 {
        return;
      }
      if IsChunk(regions, atom) {
        assert ChunkOk(mem, regions, lists, atom);
      }
      var prhp := HeadAt(atom);
      match Head(mem, atom) {
        case SmallHead(inUse, slot, chunk) =>
          if inUse {
            FreeChunk(atom, slot, chunk);
          }
        case LargeHead(size) =>
          unmapped := [(atom / 256, size * PA_MMAP_ATOM_SIZE)];
          if IsLarge(regions, atom) {
            ReleaseSound(mem, regions, lists, free[..], atom / 256, size != regions[atom / 256].pages);
            regions := if size == regions[atom / 256].pages then regions - {atom / 256}
                       else regions[atom / 256 := Leaked(regions[atom / 256].pages)];
          }
        case Data(_) =>
      }
    }

    // A chunk goes in front of its list.
    method FreeChunk(atom: Atom, slot: nat, chunk: nat)
      requires Valid() && atom != 0 && IsChunk(regions, atom) && Head(mem, atom) == SmallHead(true, slot, chunk)
      modifies this, free
      ensures Valid() && slot == SlotOf(old(regions), atom) < 13
      ensures regions == old(regions) && lists == old(lists)[slot := [atom] + old(lists)[slot]]
      ensures !Live(mem, regions, atom)
      ensures forall b: Atom :: b != atom ==> (Live(mem, regions, b) <==> old(Live(mem, regions, b)))
      ensures forall b: Atom :: b != atom && old(Live(mem, regions, b)) ==> Untouched(old(mem), old(regions), mem, b)
    {
      assert ChunkOk(mem, regions, lists, atom);
      var prhp := HeadAt(atom);
      OthersUntouched(mem, regions, atom, mem[prhp + 1 := Data(free[slot])][prhp := SmallHead(false, slot, chunk)]);
      BlockInRegion(regions, atom);
      ClientSound(mem, regions, lists, free[..], atom, 1, Data(free[slot]));
      PushMarked(mem[prhp + 1 := Data(free[slot])], regions, lists, free[..], atom);
      mem := mem[prhp + 1 := Data(free[slot])];
      ghost var was := free[..];
      free[slot] := atom;
      mem := mem[prhp := SmallHead(false, slot, chunk)];
      lists := lists[slot := [atom] + lists[slot]];
      assert free[..] == was[slot := atom];
    }

    /** A client stores a word in a live block: any word but the header. */
    method ClientWrite(atom: Atom, off: nat, val: nat)
      requires Valid() && Live(mem, regions, atom) && 1 <= off < Words(regions, atom)
      modifies `mem
      ensures Valid() && mem == old(mem)[HeadAt(atom) + off := Data(val)]
      ensures forall b: Atom :: IsBlock(regions, b) ==> (Live(mem, regions, b) <==> old(Live(mem, regions, b)))
      ensures forall b: Atom :: b != atom ==> Untouched(old(mem), regions, mem, b)
    {
      ClientSound(mem, regions, lists, free[..], atom, off, Data(val));
      forall b: Atom | b != atom && IsBlock(regions, b)
        ensures Untouched(mem, regions, mem[HeadAt(atom) + off := Data(val)], b)
      {
        BlocksDisjoint(regions, atom, b);
      }
      mem := mem[HeadAt(atom) + off := Data(val)];
    }
  }

  /** Rewriting the first two words of a block touches no other block. */
  lemma {:induction false} OthersUntouched(mem: map<nat, Word>, rs: Regions, a: Atom, mem': map<nat, Word>)
    requires RegionsOk(rs) && IsBlock(rs, a)
    requires forall x: nat :: x != HeadAt(a) && x != HeadAt(a) + 1 ==> Read(mem', x) == Read(mem, x)
    ensures forall b: Atom :: b != a ==> Untouched(mem, rs, mem', b)
  {
    BlockInRegion(rs, a);
    forall b: Atom | b != a && IsBlock(rs, b) ensures Untouched(mem, rs, mem', b) {
      BlocksDisjoint(rs, a, b);
    }
  }

  lemma {:induction false} PutBack(lists: seq<seq<Atom>>, s: nat, atom: Atom)
    requires s < |lists|
    ensures ([atom] + lists[s])[1..] == lists[s]
    ensures lists[s := [atom] + lists[s]][s := lists[s]] == lists
  {
  }

  /** Freeing a chunk and asking for its size again gives the same chunk back and restores every list. */
  method FreeThenAlloc(arb: Arb, atom: Atom, size: nat) returns (again: Atom)
    requires arb.Valid() && Live(arb.mem, arb.regions, atom) && IsChunk(arb.regions, atom)
    requires size + HEADER_SIZE < UINT64 && Slot(size + HEADER_SIZE) == SlotOf(arb.regions, atom)
    modifies arb, arb.free
    ensures arb.Valid() && again == atom && arb.lists == old(arb.lists) && arb.regions == old(arb.regions)
    ensures forall b: Atom :: Live(arb.mem, arb.regions, b) <==> old(Live(arb.mem, arb.regions, b))
  {
    ghost var was := arb.lists;
    BlockInRegion(arb.regions, atom);
    var unmapped := arb.Free(atom);
    ghost var s := SlotOf(arb.regions, atom);
    assert arb.lists == was[s := [atom] + was[s]];
    assert Route(FullSize(size), arb.lists, 0) == FromList(s, [atom] + was[s], false) by {
      ModSmall(size + HEADER_SIZE, UINT64);
    }
    PutBack(was, s, atom);
    again := arb.Alloc(size, 0);
  }

  /** What a client stored is still there after another block was given out. */
  method StoreThenAlloc(arb: Arb, atom: Atom, off: nat, val: nat, size: nat, answer: nat) returns (another: Atom)
    requires arb.Valid() && Live(arb.mem, arb.regions, atom) && 1 <= off < Words(arb.regions, atom)
    requires size < UINT64 && (answer != 0 ==> Grantable(arb.regions, answer, PagesWanted(FullSize(size))))
    modifies arb, arb.free
    ensures arb.Valid() && Live(arb.mem, arb.regions, atom) && another != atom
    ensures Read(arb.mem, HeadAt(atom) + off) == Data(val)
  {
    arb.ClientWrite(atom, off, val);
    ghost var mem, rs := arb.mem, arb.regions;
    another := arb.Alloc(size, answer);
    assert Untouched(mem, rs, arb.mem, atom);
  }

  /** And after another block was freed. */
  method StoreThenFree(arb: Arb, atom: Atom, off: nat, val: nat, other: Atom)
    requires arb.Valid() && Live(arb.mem, arb.regions, atom) && 1 <= off < Words(arb.regions, atom)
    requires Live(arb.mem, arb.regions, other) && other != atom
    modifies arb, arb.free
    ensures arb.Valid() && Live(arb.mem, arb.regions, atom) && Read(arb.mem, HeadAt(atom) + off) == Data(val)
  {
    arb.ClientWrite(atom, off, val);
    ghost var mem, rs := arb.mem, arb.regions;
    var unmapped := arb.Free(other);
    assert Untouched(mem, rs, arb.mem, atom);
  }

  /** Nothing marks a large block as freed: freed again, its pages are handed back to the memory map again. */
  method FreeTwice(arb: Arb, atom: Atom) returns (first: seq<(nat, nat)>, second: seq<(nat, nat)>)
    requires arb.Valid() && atom != 0 && IsLarge(arb.regions, atom)
    modifies arb, arb.free
    ensures arb.Valid() && first == second
    ensures first == [(atom / 256, RecordedSize(old(arb.regions)[atom / 256].pages) * PA_MMAP_ATOM_SIZE)]
  {
    first := arb.Free(atom);
    assert !IsBlock(arb.regions, atom);
    second := arb.Free(atom);
  }

  // What the source computes as full_size, in 64 bits.
  function FullSize(size: nat): nat {
    (size + HEADER_SIZE) % UINT64
  }

  // The chunk or the pages hold the header and the request, up to 2^32 bytes.
  lemma {:induction false} CoversRequest(size: nat)
    requires size < UINT64
    ensures var full, want := FullSize(size), size + HEADER_SIZE; var slot := Slot(full);
      && (slot <= PA_ARB_MAX_POW2 ==> (want <= 16 * Pow2(slot) <==> want <= UINT32))
      && (slot > PA_ARB_MAX_POW2 && full < PA_ARB_MAX_LARGE ==> want == full <= 4096 * Pages(full))
  {
    var full := FullSize(size);
    if size + HEADER_SIZE < UINT64 {
      assert full == size + HEADER_SIZE;
      if Slot(full) <= PA_ARB_MAX_POW2 {
        SmallSlotFits(full);
      } else if full < PA_ARB_MAX_LARGE {
        LargeSizeRecovered(full);
      }
    } else {
      assert full < HEADER_SIZE && Slot(full) == 0 && Pow2(0) == 1;
    }
  }

  ghost function PagesWanted(full: nat): nat {
    if Slot(full) <= PA_ARB_MAX_POW2 then SlotPages(Slot(full)) else Pages(full)
  }

  // Where a request is served from: the head of a pool of chunks (fresh ones if the list is empty),
  // whole pages, or nowhere.
  datatype Source = FromList(slot: nat, pool: seq<Atom>, carved: bool) | FromPages(pages: nat) | Refused

  ghost function Route(full: nat, lists: seq<seq<Atom>>, answer: nat): Source
    requires |lists| == 13
  {
    var s := Slot(full);
    if s <= PA_ARB_MAX_POW2 then
      if lists[s] != [] then FromList(s, lists[s], false)
      else if answer != 0 then FromList(s, PageList(answer, s), true)
      else Refused
    else if full < PA_ARB_MAX_LARGE && answer != 0 then FromPages(Pages(full))
    else Refused
  }

  // Slot s is the least whose chunks, of 16 bytes doubled s times, hold the request and its header.
  ghost predicate LeastHolding(s: nat, size: nat) {
    size + HEADER_SIZE <= 16 * Pow2(s) && (s > 0 ==> 8 * Pow2(s) < size + HEADER_SIZE)
  }

  lemma {:induction false} LeastSlot(size: nat, s: nat)
    requires s <= PA_ARB_MAX_POW2 && LeastHolding(s, size)
    ensures Slot(FullSize(size)) == s
  {
    var want := size + HEADER_SIZE;
    assert want <= 0x1_0000 by {
      Pow2Table();
      Pow2Mono(s, PA_ARB_MAX_POW2);
    }
    SlotIsLeast(want, s);
    if s > 0 {
      assert ChunkBytes(s - 1) == 8 * Pow2(s);
      SlotIsLeast(want, s - 1);
    }
    ModSmall(want, UINT64);
  }

  lemma {:induction false} OnlySlot(size: nat)
    ensures forall s :: 0 <= s < 13 && LeastHolding(s, size) ==> s == Slot(FullSize(size))
    ensures 65536 < size + HEADER_SIZE < PA_ARB_MAX_LARGE ==>
      Slot(FullSize(size)) > PA_ARB_MAX_POW2 && FullSize(size) == size + HEADER_SIZE
  {
    if 65536 < size + HEADER_SIZE < PA_ARB_MAX_LARGE {
      ModSmall(size + HEADER_SIZE, UINT64);
      SlotIsLeast(size + HEADER_SIZE, PA_ARB_MAX_POW2);
      Pow2Table();
    }
    forall s | 0 <= s < 13 && LeastHolding(s, size)
      ensures s == Slot(FullSize(size))
    {
      LeastSlot(size, s);
    }
  }

  lemma {:induction false} ListHead(mem: map<nat, Word>, rs: Regions, list: seq<Atom>, s: nat, first: Atom)
    requires ListOk(mem, rs, list, s, first) && RegionsOk(rs)
    ensures first == 0 <==> list == []
  {
    if list != [] {
      assert LinkOk(mem, rs, list, s, 0);
      BlockInRegion(rs, list[0]);
    }
  }
}
