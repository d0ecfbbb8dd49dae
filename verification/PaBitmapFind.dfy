/**
  The ordered iterator over one bitmap: what a call returns, when it ends, and what a whole iteration visits.
 */
module PaBitmapFind {
  import opened PaMath
  import opened PaBits
  import opened PaFixed
  import opened PaBitmap

  // Bit numbers have 32 bits.
  const BIT_NUMBERS: nat := 0x1_0000_0000

  ghost predicate TableOk(blocks: Blocks, id: Atom) {
    id in blocks && forall c :: 0 <= c < CHUNKS && blocks[id][c] != 0 ==> blocks[id][c] in blocks
  }

  // ----- one trip from the `restart` label to a return or the next goto

  datatype Trip = Return(num: nat) | Restart(num: nat, bitmask: nat)

  // The first allocated chunk from c on, or 256.
  function NextChunk(blocks: Blocks, id: Atom, c: nat): (r: nat)
    requires id in blocks && c <= CHUNKS
    ensures c <= r <= CHUNKS && (r < CHUNKS ==> Entry(blocks, id, r) != 0)
    ensures forall k :: c <= k < r ==> Entry(blocks, id, k) == 0
    decreases CHUNKS - c
  {
    if c == CHUNKS || Entry(blocks, id, c) != 0 then c else NextChunk(blocks, id, c + 1)
  }

  // The first unit with a bit set from u on, or 256.
  function NextUnit(block: Block, u: nat): (r: nat)
    requires u <= UNITS_PER_CHUNK
    ensures u <= r <= UNITS_PER_CHUNK && (r < UNITS_PER_CHUNK ==> block[r] != 0)
    ensures forall k :: u <= k < r ==> block[k] == 0
    decreases UNITS_PER_CHUNK - u
  {
    if u == UNITS_PER_CHUNK || block[u] != 0 then u else NextUnit(block, u + 1)
  }

  function OneTrip(blocks: Blocks, id: Atom, num: nat, bitmask: nat): Trip
    requires TableOk(blocks, id)
  {
    var c := ChunkNum(num);
    var atom := Entry(blocks, id, c);
    if atom == 0 then
      var c' := NextChunk(blocks, id, c + 1);
      if c' < CHUNKS then Restart(c' * BITS_PER_CHUNK, bitmask) else Return(FIND_DONE)
    else
      var u := UnitNum(num);
      var value := AndNot(blocks[atom][u], bitmask);
      if value == 0 then
        var u' := NextUnit(blocks[atom], u + 1);
        if u' < UNITS_PER_CHUNK then Restart(NumberOf(c, u', 0), 0) else Restart((c + 1) * BITS_PER_CHUNK, 0)
      else
        Return(NumberOf(c, u, LowestFrom(value, 0)))
  }

  // ----- what a call should return

  /** The least member from s on, or MAX_BIT. */
  ghost function LeastFrom(blocks: Blocks, id: Atom, s: nat): (r: nat)
    requires s <= MAX_BIT
    ensures s <= r <= MAX_BIT && (r < MAX_BIT ==> Member(blocks, id, r))
    ensures forall n :: s <= n < r ==> !Member(blocks, id, n)
    decreases MAX_BIT - s
  {
    if s == MAX_BIT || Member(blocks, id, s) then s else LeastFrom(blocks, id, s + 1)
  }

  datatype Answer = Found(num: nat) | Done | Never

  /** The answer to a search from s: past the last chunk the search starts again at number zero. */
  ghost function Search(blocks: Blocks, id: Atom, s: nat): Answer
    requires id in blocks && s <= MAX_BIT
  {
    if LeastFrom(blocks, id, s) < MAX_BIT then Found(LeastFrom(blocks, id, s))
    else if Entry(blocks, id, 255) == 0 then Done
    else if LeastFrom(blocks, id, 0) < MAX_BIT then Found(LeastFrom(blocks, id, 0))
    else Never
  }

  /**
    Where members count from, for a search entered at s: in a chunk that is not allocated the mask of the bits below s
    is kept for the next one that is.
   */
  ghost function Entered(blocks: Blocks, id: Atom, s: nat): (p: nat)
    requires id in blocks && s < MAX_BIT
  {
    if Entry(blocks, id, ChunkNum(s)) != 0 then s
    else NextChunk(blocks, id, ChunkNum(s) + 1) * BITS_PER_CHUNK + BitNum(s)
  }

  // From any number, the start marker and numbers past the last included.
  ghost function Next(blocks: Blocks, id: Atom, num: nat): Answer
    requires id in blocks
  {
    if num == FIND_START then Search(blocks, id, 0)
    else if num + 1 == MAX_BIT then Done
    else
      var p := Entered(blocks, id, (num + 1) % MAX_BIT);
      if p < MAX_BIT then Search(blocks, id, p) else Done
  }

  function Encode(a: Answer): nat
    requires a != Never
  {
    if a.Found? then a.num else FIND_DONE
  }

  // ----- one trip against membership

  /** Where a trip may start: the mask hides the bits below `num` in its unit, and a chunk that is not
      allocated is entered at its first bit. */
  ghost predicate AtRestart(blocks: Blocks, id: Atom, num: nat, bitmask: nat)
    requires id in blocks
  {
    && num <= MAX_BIT && bitmask == Pow2(BitNum(num)) - 1
    && (if num < MAX_BIT then Entry(blocks, id, ChunkNum(num)) == 0 ==> num % BITS_PER_CHUNK == 0
        else Entry(blocks, id, 255) != 0)
  }

  lemma {:induction false} NoneInNullChunks(blocks: Blocks, id: Atom, c: nat, c': nat, n: nat)
    requires id in blocks && c <= c' <= CHUNKS && forall k :: c <= k < c' ==> Entry(blocks, id, k) == 0
    requires c * BITS_PER_CHUNK <= n < c' * BITS_PER_CHUNK
    ensures !Member(blocks, id, n)
  {
    NumberParts(n);
  }

  lemma {:induction false} NoneInZeroUnits(blocks: Blocks, id: Atom, c: nat, u: nat, u': nat, n: nat)
    requires TableOk(blocks, id) && c < CHUNKS && Entry(blocks, id, c) != 0 && u <= u' <= UNITS_PER_CHUNK
    requires forall k :: u <= k < u' ==> blocks[Entry(blocks, id, c)][k] == 0
    requires NumberOf(c, u, 0) <= n < NumberOf(c, u', 0)
    ensures !Member(blocks, id, n)
  {
    NumberParts(n);
    assert ChunkNum(n) == c;
    ZeroBit(BitNum(n));
  }

  lemma {:induction false} NoneLeftInUnit(blocks: Blocks, id: Atom, num: nat, bitmask: nat, n: nat)
    requires TableOk(blocks, id) && num < MAX_BIT && AtRestart(blocks, id, num, bitmask)
    requires Entry(blocks, id, ChunkNum(num)) != 0
    requires AndNot(blocks[Entry(blocks, id, ChunkNum(num))][UnitNum(num)], bitmask) == 0
    requires num <= n < NumberOf(ChunkNum(num), UnitNum(num) + 1, 0)
    ensures !Member(blocks, id, n)
  {
    NumberParts(num);
    NumberParts(n);
    assert ChunkNum(n) == ChunkNum(num) && UnitNum(n) == UnitNum(num);
    var w := blocks[Entry(blocks, id, ChunkNum(num))][UnitNum(num)];
    AndNotBit(w, bitmask, BitNum(n));
    MaskBits(BitNum(num), BitNum(n));
    ZeroBit(BitNum(n));
  }

  lemma {:induction false} LowestInUnit(blocks: Blocks, id: Atom, num: nat, bitmask: nat)
    requires TableOk(blocks, id) && num < MAX_BIT && AtRestart(blocks, id, num, bitmask)
    requires Entry(blocks, id, ChunkNum(num)) != 0
    requires AndNot(blocks[Entry(blocks, id, ChunkNum(num))][UnitNum(num)], bitmask) != 0
    ensures var value := AndNot(blocks[Entry(blocks, id, ChunkNum(num))][UnitNum(num)], bitmask);
            && LowestFrom(value, 0) < 32
            && NumberOf(ChunkNum(num), UnitNum(num), LowestFrom(value, 0)) == LeastFrom(blocks, id, num)
  {
    var c, u := ChunkNum(num), UnitNum(num);
    var w := blocks[Entry(blocks, id, c)][u];
    var value := AndNot(w, bitmask);
    NumberParts(num);
    AndNotAtMost(w, bitmask);
    LowestFound(value);
    var b := LowestFrom(value, 0);
    var r := NumberOf(c, u, b);
    PartsOf(c, u, b);
    AndNotBit(w, bitmask, b);
    MaskBits(BitNum(num), b);
    assert Member(blocks, id, r) && num <= r;
    forall n | num <= n < r ensures !Member(blocks, id, n) {
      NumberParts(n);
      assert ChunkNum(n) == c && UnitNum(n) == u && BitNum(n) < b;
      AndNotBit(w, bitmask, BitNum(n));
      MaskBits(BitNum(num), BitNum(n));
    }
  }

  ghost predicate TripOk(blocks: Blocks, id: Atom, num: nat, trip: Trip)
    requires id in blocks && num <= MAX_BIT
  {
    match trip
    case Return(r) =>
      if r == FIND_DONE then Entry(blocks, id, 255) == 0 && LeastFrom(blocks, id, num) == MAX_BIT
      else r == LeastFrom(blocks, id, num) && r < MAX_BIT
    case Restart(num', bitmask') =>
      num < num' && AtRestart(blocks, id, num', bitmask') && LeastFrom(blocks, id, num) == LeastFrom(blocks, id, num')
  }

  lemma {:induction false} NullChunkTrip(blocks: Blocks, id: Atom, num: nat, bitmask: nat)
    requires TableOk(blocks, id) && num < MAX_BIT && AtRestart(blocks, id, num, bitmask)
    requires Entry(blocks, id, ChunkNum(num)) == 0
    ensures TripOk(blocks, id, num, OneTrip(blocks, id, num, bitmask))
  {
    NumberParts(num);
    var c := ChunkNum(num);
    var c' := NextChunk(blocks, id, c + 1);
    forall n | num <= n < c' * BITS_PER_CHUNK ensures !Member(blocks, id, n) {
      NoneInNullChunks(blocks, id, c, c', n);
    }
    SameLeast(blocks, id, num, c' * BITS_PER_CHUNK);
    if c' < CHUNKS {
      PartsOf(c', 0, 0);
    }
  }

  lemma {:induction false} EmptyUnitTrip(blocks: Blocks, id: Atom, num: nat, bitmask: nat)
    requires TableOk(blocks, id) && num < MAX_BIT && AtRestart(blocks, id, num, bitmask)
    requires Entry(blocks, id, ChunkNum(num)) != 0
    requires AndNot(blocks[Entry(blocks, id, ChunkNum(num))][UnitNum(num)], bitmask) == 0
    ensures TripOk(blocks, id, num, OneTrip(blocks, id, num, bitmask))
  {
    NumberParts(num);
    var c, u := ChunkNum(num), UnitNum(num);
    var u' := NextUnit(blocks[Entry(blocks, id, c)], u + 1);
    NoneToUnit(blocks, id, num, bitmask, u');
    SameLeast(blocks, id, num, NumberOf(c, u', 0));
    RestartAligned(blocks, id, c, u');
  }

  lemma {:induction false} NoneToUnit(blocks: Blocks, id: Atom, num: nat, bitmask: nat, u': nat)
    requires TableOk(blocks, id) && num < MAX_BIT && AtRestart(blocks, id, num, bitmask)
    requires var atom := Entry(blocks, id, ChunkNum(num));
      && atom != 0 && AndNot(blocks[atom][UnitNum(num)], bitmask) == 0
      && UnitNum(num) < u' <= UNITS_PER_CHUNK && forall k :: UnitNum(num) + 1 <= k < u' ==> blocks[atom][k] == 0
    ensures forall n :: num <= n < NumberOf(ChunkNum(num), u', 0) ==> !Member(blocks, id, n)
  {
    var c, u := ChunkNum(num), UnitNum(num);
    forall n | num <= n < NumberOf(c, u', 0) ensures !Member(blocks, id, n) {
      if n < NumberOf(c, u + 1, 0) {
        NoneLeftInUnit(blocks, id, num, bitmask, n);
      } else {
        NoneInZeroUnits(blocks, id, c, u + 1, u', n);
      }
    }
  }

  lemma {:induction false} RestartAligned(blocks: Blocks, id: Atom, c: nat, u: nat)
    requires id in blocks && c < CHUNKS && Entry(blocks, id, c) != 0 && u <= UNITS_PER_CHUNK
    ensures NumberOf(c, UNITS_PER_CHUNK, 0) == (c + 1) * BITS_PER_CHUNK
    ensures AtRestart(blocks, id, NumberOf(c, u, 0), 0)
  {
    if u < UNITS_PER_CHUNK {
      PartsOf(c, u, 0);
    } else if c + 1 < CHUNKS {
      PartsOf(c + 1, 0, 0);
    }
  }

  /** A trip returns the least member from `num` on, or moves on past numbers that are not members, or
      finds no chunk left. */
  lemma {:induction false} TripMoves(blocks: Blocks, id: Atom, num: nat, bitmask: nat)
    requires TableOk(blocks, id) && num < MAX_BIT && AtRestart(blocks, id, num, bitmask)
    ensures TripOk(blocks, id, num, OneTrip(blocks, id, num, bitmask))
  {
    if Entry(blocks, id, ChunkNum(num)) == 0 {
      NullChunkTrip(blocks, id, num, bitmask);
    } else if AndNot(blocks[Entry(blocks, id, ChunkNum(num))][UnitNum(num)], bitmask) == 0 {
      EmptyUnitTrip(blocks, id, num, bitmask);
    } else {
      LowestInUnit(blocks, id, num, bitmask);
    }
  }

  lemma {:induction false} SameLeast(blocks: Blocks, id: Atom, s: nat, t: nat)
    requires s <= t <= MAX_BIT && forall n :: s <= n < t ==> !Member(blocks, id, n)
    ensures LeastFrom(blocks, id, s) == LeastFrom(blocks, id, t)
    decreases t - s
  {
    if s < t {
      SameLeast(blocks, id, s + 1, t);
    }
  }

  /** Past the last chunk the arithmetic wraps: the trip is the one from number zero. */
  lemma {:induction false} WrapsToZero(blocks: Blocks, id: Atom)
    requires TableOk(blocks, id)
    ensures ChunkNum(MAX_BIT) == 0 && OneTrip(blocks, id, MAX_BIT, 0) == OneTrip(blocks, id, 0, 0)
  {
  }

  // ----- the call

  // The code between the `restart` label and the next goto or return.
  method TakeTrip(blocks: Blocks, id: Atom, num: nat, bitmask: nat) returns (trip: Trip)
    requires TableOk(blocks, id)
    ensures trip == OneTrip(blocks, id, num, bitmask)
  {
    var chunknum := ChunkNum(num);
    var atom := blocks[id][chunknum];
    if atom == 0 {
      chunknum := chunknum + 1;
      while chunknum < CHUNKS && blocks[id][chunknum] == 0
        invariant chunknum <= CHUNKS
        invariant NextChunk(blocks, id, ChunkNum(num) + 1) == NextChunk(blocks, id, chunknum)
      {
        chunknum := chunknum + 1;
      }
      return if chunknum < CHUNKS then Restart(chunknum * BITS_PER_CHUNK, bitmask) else Return(FIND_DONE);
    }
    var data := blocks[atom];
    var unitnum := UnitNum(num);
    var value := AndNot(data[unitnum], bitmask);
    if value == 0 {
      unitnum := unitnum + 1;
      while unitnum < UNITS_PER_CHUNK && data[unitnum] == 0
        invariant unitnum <= UNITS_PER_CHUNK
        invariant NextUnit(data, UnitNum(num) + 1) == NextUnit(data, unitnum)
      {
        unitnum := unitnum + 1;
      }
      return if unitnum < UNITS_PER_CHUNK then Restart(chunknum * BITS_PER_CHUNK + unitnum * BITS_PER_UNIT, 0)
             else Restart((chunknum + 1) * BITS_PER_CHUNK, 0);
    }
    var found := LowestFrom(value, 0);
    trip := Return(chunknum * BITS_PER_CHUNK + unitnum * BITS_PER_UNIT + found);
  }

  /** Where the search stands: `wrapped` once it has started again at zero. */
  ghost predicate Searching(blocks: Blocks, id: Atom, s: nat, cur: nat, bitmask: nat, wrapped: bool)
    requires id in blocks && s < MAX_BIT
  {
    && AtRestart(blocks, id, cur, bitmask)
    && (if wrapped then cur < MAX_BIT && LeastFrom(blocks, id, s) == MAX_BIT && Entry(blocks, id, 255) != 0
          && LeastFrom(blocks, id, 0) == LeastFrom(blocks, id, cur)
        else LeastFrom(blocks, id, s) == LeastFrom(blocks, id, cur))
  }

  ghost predicate StepOk(blocks: Blocks, id: Atom, s: nat, cur: nat, wrapped: bool, trip: Trip)
    requires id in blocks && s < MAX_BIT && Search(blocks, id, s) != Never
  {
    match trip
    case Return(r) => r == Encode(Search(blocks, id, s))
    case Restart(cur', bitmask') =>
      cur < cur' && (wrapped ==> cur' < MAX_BIT) && Searching(blocks, id, s, cur', bitmask', wrapped)
  }

  lemma {:induction false} SearchStep(blocks: Blocks, id: Atom, s: nat, cur: nat, bitmask: nat, wrapped: bool)
    requires TableOk(blocks, id) && s < MAX_BIT && cur < MAX_BIT && Searching(blocks, id, s, cur, bitmask, wrapped)
    requires Search(blocks, id, s) != Never
    ensures StepOk(blocks, id, s, cur, wrapped, OneTrip(blocks, id, cur, bitmask))
  {
    TripMoves(blocks, id, cur, bitmask);
  }

  /** After the last chunk the search starts over at zero. */
  lemma {:induction false} SearchWraps(blocks: Blocks, id: Atom, s: nat, bitmask: nat, wrapped: bool)
    requires TableOk(blocks, id) && s < MAX_BIT && Searching(blocks, id, s, MAX_BIT, bitmask, wrapped)
    ensures !wrapped && bitmask == 0 && Searching(blocks, id, s, 0, 0, true)
  {
  }

  // A trip looks at the chunk and the unit of a number only.
  predicate SamePlace(cur: nat, at: nat) {
    ChunkNum(cur) == ChunkNum(at) && UnitNum(cur) == UnitNum(at)
  }

  lemma {:induction false} SameTrip(blocks: Blocks, id: Atom, cur: nat, at: nat, bitmask: nat)
    requires TableOk(blocks, id) && SamePlace(cur, at)
    ensures OneTrip(blocks, id, cur, bitmask) == OneTrip(blocks, id, at, bitmask)
  {
  }

  // Numbers past the last one are taken modulo their count.
  lemma {:induction false} PastTheLast(num: nat)
    requires num < BIT_NUMBERS
    ensures var cur, at := (num + 1) % BIT_NUMBERS, (num + 1) % MAX_BIT;
      SamePlace(cur, at) && BitNum(cur) == BitNum(at) && (cur == MAX_BIT <==> num + 1 == MAX_BIT)
  {
    if num + 1 < BIT_NUMBERS {
      ModSmall(num + 1, BIT_NUMBERS);
      SamePlaceModulo((num + 1) / MAX_BIT, (num + 1) % MAX_BIT);
    }
  }

  lemma {:induction false} SamePlaceModulo(k: nat, at: nat)
    requires at < MAX_BIT
    ensures SamePlace(MAX_BIT * k + at, at) && BitNum(MAX_BIT * k + at) == BitNum(at)
  {
    var n := MAX_BIT * k + at;
    assert n / 32 == 256 * (256 * k) + at / 32;
    assert n / 8 / 1024 == 256 * k + at / 8 / 1024;
    PlusRounds(256 * k, at / 32);
    PlusRounds(k, at / 8 / 1024);
  }

  lemma {:induction false} PlusRounds(k: nat, x: nat)
    ensures (256 * k + x) % 256 == x % 256
  {
  }

  ghost predicate Entering(blocks: Blocks, id: Atom, at: nat, bitmask: nat, s: nat)
    requires id in blocks
  {
    && at < MAX_BIT && Entry(blocks, id, ChunkNum(at)) == 0 && bitmask == Pow2(BitNum(at)) - 1
    && s == Entered(blocks, id, at)
  }

  // The trip out of a chunk that is not allocated.
  lemma {:induction false} EnteringStep(blocks: Blocks, id: Atom, at: nat, bitmask: nat, s: nat)
    requires TableOk(blocks, id) && Entering(blocks, id, at, bitmask, s)
    ensures at < s
    ensures match OneTrip(blocks, id, at, bitmask)
      case Return(r) => r == FIND_DONE && s >= MAX_BIT
      case Restart(num, mask) => mask == bitmask && s < MAX_BIT && SamePlace(num, s) && AtRestart(blocks, id, s, mask)
  {
    NumberParts(at);
    var c' := NextChunk(blocks, id, ChunkNum(at) + 1);
    if c' < CHUNKS {
      PartsOf(c', 0, 0);
      PartsOf(c', 0, BitNum(at));
    }
  }

  /** Where a call stands: `entering` up to the first allocated chunk, `at` the number it looks for members from. */
  ghost predicate Looking(blocks: Blocks, id: Atom, at: nat, bitmask: nat, s: nat, entering: bool, wrapped: bool)
    requires id in blocks
  {
    if entering then Entering(blocks, id, at, bitmask, s)
    else s < MAX_BIT && Searching(blocks, id, s, at, bitmask, wrapped)
  }

  ghost function Answers(blocks: Blocks, id: Atom, s: nat): Answer
    requires id in blocks
  {
    if s < MAX_BIT then Search(blocks, id, s) else Done
  }

  lemma {:induction false} FirstLook(blocks: Blocks, id: Atom, num: nat) returns (at: nat, s: nat, entering: bool)
    requires TableOk(blocks, id) && num < BIT_NUMBERS && num != FIND_START && num + 1 != MAX_BIT
    ensures var cur := (num + 1) % BIT_NUMBERS;
      SamePlace(cur, at) && Looking(blocks, id, at, Pow2(BitNum(cur)) - 1, s, entering, false)
    ensures Next(blocks, id, num) == Answers(blocks, id, s)
  {
    PastTheLast(num);
    at := (num + 1) % MAX_BIT;
    NumberParts(at);
    entering := Entry(blocks, id, ChunkNum(at)) == 0;
    s := Entered(blocks, id, at);
  }

  // One turn: an answer, or a step on, or back to the start once.
  lemma {:induction false} LookStep(blocks: Blocks, id: Atom, at: nat, bitmask: nat, s: nat, entering: bool,
                                    wrapped: bool) returns (at': nat, wrapped': bool)
    requires TableOk(blocks, id) && Looking(blocks, id, at, bitmask, s, entering, wrapped)
    requires Answers(blocks, id, s) != Never
    ensures match OneTrip(blocks, id, at, bitmask)
      case Return(r) => r == Encode(Answers(blocks, id, s))
      case Restart(num, mask) =>
        && SamePlace(num, at') && Looking(blocks, id, at', mask, s, false, wrapped')
        && at' <= MAX_BIT && (entering || (!wrapped && wrapped') || (wrapped == wrapped' && at < at'))
  {
    at', wrapped' := 0, wrapped;
    var trip := OneTrip(blocks, id, at, bitmask);
    if entering {
      EnteringStep(blocks, id, at, bitmask, s);
      at', wrapped' := s, false;
    } else if at == MAX_BIT {
      SearchWraps(blocks, id, s, bitmask, wrapped);
      WrapsToZero(blocks, id);
      SearchStep(blocks, id, s, 0, 0, true);
      at', wrapped' := if trip.Restart? then trip.num else 0, true;
    } else {
      SearchStep(blocks, id, s, at, bitmask, wrapped);
      at' := if trip.Restart? then trip.num else 0;
    }
  }

  /** pa_bitmap_find_next, from any number, whenever it returns at all. */
  method FindNext(blocks: Blocks, id: Atom, num: nat) returns (r: nat)
    requires TableOk(blocks, id) && num < BIT_NUMBERS
    requires Next(blocks, id, num) != Never
    ensures r == Encode(Next(blocks, id, num))
  {
    var cur: nat, bitmask: nat := 0, 0;
    ghost var at: nat, s: nat, entering, wrapped := 0, 0, false, false;
    if num != FIND_START {
      cur := (num + 1) % BIT_NUMBERS;
      PastTheLast(num);
      if cur == MAX_BIT {
        return FIND_DONE;
      }
      bitmask := Pow2(BitNum(cur)) - 1;
      at, s, entering := FirstLook(blocks, id, num);
    }
    while true
      invariant SamePlace(cur, at) && Looking(blocks, id, at, bitmask, s, entering, wrapped)
      invariant Next(blocks, id, num) == Answers(blocks, id, s)
      decreases entering, !wrapped, MAX_BIT - at
    {
      var trip := TakeTrip(blocks, id, cur, bitmask);
      SameTrip(blocks, id, cur, at, bitmask);
      at, wrapped := LookStep(blocks, id, at, bitmask, s, entering, wrapped);
      entering := false;
      if trip.Return? {
        return trip.num;
      }
      cur, bitmask := trip.num, trip.bitmask;
    }
  }

  lemma {:induction false} NextIs(blocks: Blocks, id: Atom, num: nat)
    requires id in blocks && num + 1 < MAX_BIT
    ensures Next(blocks, id, num) == Answers(blocks, id, Entered(blocks, id, num + 1))
  {
    ModSmall(num + 1, MAX_BIT);
  }

  /** From a number whose chunk is allocated, a member in particular, nothing is skipped. */
  lemma {:induction false} NextFromAllocated(blocks: Blocks, id: Atom, num: nat)
    requires TableOk(blocks, id) && num + 1 < MAX_BIT && Entry(blocks, id, ChunkNum(num)) != 0
    ensures Next(blocks, id, num) == Search(blocks, id, num + 1)
  {
    NextIs(blocks, id, num);
    NumberParts(num);
    NumberParts(num + 1);
    if Entry(blocks, id, ChunkNum(num + 1)) == 0 {
      NextChunkStart(num);
      NoneBefore(blocks, id, num + 1);
    }
  }

  lemma {:induction false} NextChunkStart(num: nat)
    requires num + 1 < MAX_BIT && ChunkNum(num + 1) != ChunkNum(num)
    ensures BitNum(num + 1) == 0
  {
    NumberParts(num);
    NumberParts(num + 1);
  }

  // A chunk that is not allocated, and those behind it, hold no members up to the next that is.
  lemma {:induction false} NoneBefore(blocks: Blocks, id: Atom, s: nat)
    requires TableOk(blocks, id) && s < MAX_BIT && Entry(blocks, id, ChunkNum(s)) == 0
    ensures var t := NextChunk(blocks, id, ChunkNum(s) + 1) * BITS_PER_CHUNK;
      && t <= MAX_BIT && LeastFrom(blocks, id, s) == LeastFrom(blocks, id, t)
      && (t == MAX_BIT ==> Search(blocks, id, s) == Done)
  {
    NumberParts(s);
    var c := ChunkNum(s);
    var c' := NextChunk(blocks, id, c + 1);
    forall n | s <= n < c' * BITS_PER_CHUNK ensures !Member(blocks, id, n) {
      NoneInNullChunks(blocks, id, c, c', n);
    }
    SameLeast(blocks, id, s, c' * BITS_PER_CHUNK);
  }

  /**
    From a number whose chunk is not allocated, the members below the kept mask in the next chunk are skipped: the call
    gives the next member after all exactly if there is none of them, or if it starts over and comes to the same.
   */
  lemma {:induction false} KeptMaskSkips(blocks: Blocks, id: Atom, num: nat)
    requires TableOk(blocks, id) && num + 1 < MAX_BIT && Entry(blocks, id, ChunkNum(num + 1)) == 0
    ensures var p, q := Entered(blocks, id, num + 1), LeastFrom(blocks, id, num + 1);
      Next(blocks, id, num) == Search(blocks, id, num + 1) <==>
        || p <= q || p >= MAX_BIT
        || (LeastFrom(blocks, id, p) == MAX_BIT && Entry(blocks, id, 255) != 0 && LeastFrom(blocks, id, 0) == q)
  {
    var p := Entered(blocks, id, num + 1);
    NextIs(blocks, id, num);
    NumberParts(num + 1);
    NoneBefore(blocks, id, num + 1);
    if p < MAX_BIT {
      SearchLater(blocks, id, num + 1, p);
    }
  }

  // A bitmap that holds 8192 only: from 30, where nothing is allocated, it is passed by.
  lemma {:induction false} KeptMaskMisses(blocks: Blocks, id: Atom)
    requires TableOk(blocks, id) && Entry(blocks, id, 0) == 0 && Entry(blocks, id, 255) == 0
    requires forall n: nat :: Member(blocks, id, n) <==> n == BITS_PER_CHUNK
    ensures LeastFrom(blocks, id, 31) == BITS_PER_CHUNK && Next(blocks, id, 30) == Done
  {
    NextIs(blocks, id, 30);
    MemberAllocated(blocks, id, BITS_PER_CHUNK);
    PartsOf(0, 0, 31);
    PartsOf(1, 0, 0);
    assert NextChunk(blocks, id, 1) == 1;
    assert Entered(blocks, id, 31) == BITS_PER_CHUNK + 31;
  }

  lemma {:induction false} SearchLater(blocks: Blocks, id: Atom, s: nat, p: nat)
    requires id in blocks && s <= p < MAX_BIT
    ensures var q := LeastFrom(blocks, id, s);
      Search(blocks, id, p) == Search(blocks, id, s) <==>
        p <= q || (LeastFrom(blocks, id, p) == MAX_BIT && Entry(blocks, id, 255) != 0 && LeastFrom(blocks, id, 0) == q)
  {
    if p <= LeastFrom(blocks, id, s) {
      SameLeast(blocks, id, s, p);
    }
  }

  // ----- when a call ends, and when an iteration does

  // The state after k trips from a restart, or the answer once there is one.
  function Trips(blocks: Blocks, id: Atom, num: nat, bitmask: nat, k: nat): Trip
    requires TableOk(blocks, id)
  {
    if k == 0 then Restart(num, bitmask)
    else match Trips(blocks, id, num, bitmask, k - 1)
         case Return(r) => Return(r)
         case Restart(n, m) => OneTrip(blocks, id, n, m)
  }

  /** With nothing set and the last chunk allocated, no number of trips ends the call. */
  lemma {:induction false} RunsForever(blocks: Blocks, id: Atom, k: nat)
    requires TableOk(blocks, id) && Search(blocks, id, 0) == Never
    ensures var t := Trips(blocks, id, 0, 0, k); t.Restart? && AtRestart(blocks, id, t.num, t.bitmask)
  {
    if k > 0 {
      RunsForever(blocks, id, k - 1);
      var t := Trips(blocks, id, 0, 0, k - 1);
      if t.num == MAX_BIT {
        WrapsToZero(blocks, id);
      }
      var from := if t.num == MAX_BIT then 0 else t.num;
      TripMoves(blocks, id, from, t.bitmask);
      NoneAtAll(blocks, id, from);
    }
  }

  lemma {:induction false} NoneAtAll(blocks: Blocks, id: Atom, s: nat)
    requires s <= MAX_BIT && LeastFrom(blocks, id, 0) == MAX_BIT
    ensures LeastFrom(blocks, id, s) == MAX_BIT
  {
  }

  // Where an iteration must end: at its last member, or at once if there is none.
  ghost predicate IsLast(blocks: Blocks, id: Atom, last: nat) {
    if last == FIND_START then forall n :: 0 <= n < MAX_BIT ==> !Member(blocks, id, n)
    else Member(blocks, id, last) && forall n :: last < n < MAX_BIT ==> !Member(blocks, id, n)
  }

  /** The call made at the last member reports the end exactly when chunk 255 is not allocated or the
      last number of all is a member; otherwise it starts over or never returns. */
  lemma {:induction false} EndsIff(blocks: Blocks, id: Atom, last: nat)
    requires TableOk(blocks, id) && IsLast(blocks, id, last) && (last == FIND_START || last < MAX_BIT)
    ensures Next(blocks, id, last) == Done <==> Entry(blocks, id, 255) == 0 || Member(blocks, id, MAX_BIT - 1)
    ensures Next(blocks, id, last) != Done ==>
              Next(blocks, id, last) == (if last == FIND_START then Never else Found(LeastFrom(blocks, id, 0)))
  {
    if last != FIND_START {
      assert LeastFrom(blocks, id, 0) <= last;
      if last + 1 < MAX_BIT {
        NextFromAllocated(blocks, id, last);
        assert LeastFrom(blocks, id, last + 1) == MAX_BIT;
        assert !Member(blocks, id, MAX_BIT - 1);
      }
    } else {
      assert !Member(blocks, id, MAX_BIT - 1);
    }
  }

  lemma {:induction false} MemberAllocated(blocks: Blocks, id: Atom, n: nat)
    requires id in blocks && Member(blocks, id, n)
    ensures Entry(blocks, id, ChunkNum(n)) != 0
  {
  }

  /** Iterating from the start marker visits every member once, in increasing order, and then stops. */
  method Iterate(blocks: Blocks, id: Atom) returns (visited: seq<nat>)
    requires TableOk(blocks, id)
    requires Entry(blocks, id, 255) == 0 || Member(blocks, id, MAX_BIT - 1)
    ensures forall i, j :: 0 <= i < j < |visited| ==> visited[i] < visited[j]
    ensures forall n: nat :: n in visited <==> Member(blocks, id, n)
  {
    visited := [];
    var num: nat := FIND_START;
    while true
      invariant num == FIND_START || Member(blocks, id, num)
      invariant if num == FIND_START then visited == [] else visited != [] && visited[|visited| - 1] == num
      invariant forall i, j :: 0 <= i < j < |visited| ==> visited[i] < visited[j]
      invariant forall n: nat :: n in visited <==> Member(blocks, id, n) && num != FIND_START && n <= num
      decreases if num == FIND_START then MAX_BIT else MAX_BIT - 1 - num
    {
      var s := if num == FIND_START then 0 else num + 1;
      if s < MAX_BIT && LeastFrom(blocks, id, s) == MAX_BIT {
        EndsIff(blocks, id, num);
      }
      if num != FIND_START && s < MAX_BIT {
        MemberAllocated(blocks, id, num);
        NextFromAllocated(blocks, id, num);
      }
      num := FindNext(blocks, id, num);
      if num == FIND_DONE {
        return;
      }
      visited := visited + [num];
    }
  }
}
