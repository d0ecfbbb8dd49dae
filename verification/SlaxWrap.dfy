/**
  The writer's line buffer, and the wrapping of long expressions over several lines.
 */
module SlaxWrap {
  import Seqs
  import opened SlaxString

  const BUF_EXTEND: nat := 2048

  function Max(a: nat, b: nat): nat {
    if a < b then b else a
  }

  // The size of the buffer once slaxWrite takes n more characters for stored.
  function Grown(bufsiz: nat, cur: nat, n: nat): (size: nat)
    requires cur <= bufsiz
    ensures size >= bufsiz && size > 0 && cur + n <= size
    decreases cur + n + 1 - bufsiz
  {
    if bufsiz != 0 && n <= bufsiz - cur then bufsiz else Grown(Max(cur + BUF_EXTEND, 2 * bufsiz), cur, n)
  }

  // The text reaches the last byte of the buffer.
  predicate Fills(bufsiz: nat, cur: nat, n: nat)
    requires cur <= bufsiz
  {
    n > 0 && cur + n == Grown(bufsiz, cur, n)
  }

  // The room there is for a line before the buffer has to grow.
  function Room(bufsiz: nat): nat {
    if bufsiz == 0 then BUF_EXTEND else bufsiz
  }

  lemma {:induction false} NotFilled(bufsiz: nat, cur: nat, n: nat)
    requires cur <= bufsiz
    ensures Room(Grown(bufsiz, cur, n)) >= Room(bufsiz)
    ensures cur + n < Room(bufsiz) ==> !Fills(bufsiz, cur, n)
  {
    if bufsiz == 0 && n < BUF_EXTEND {
      assert Grown(0, 0, n) == Grown(BUF_EXTEND, 0, n) == BUF_EXTEND;
    }
  }

  /** The first buffer has 2048 bytes, and one of at least that size is doubled when a text does not fit. */
  lemma {:induction false} GrownDoubles(bufsiz: nat, cur: nat, n: nat)
    ensures n <= 2048 ==> Grown(0, 0, n) == 2048
    ensures 2048 <= bufsiz && cur <= bufsiz < cur + n <= 2 * bufsiz ==> Grown(bufsiz, cur, n) == 2 * bufsiz
  {
    if n <= 2048 {
      assert Grown(2048, 0, n) == 2048;
    }
    if 2048 <= bufsiz && cur <= bufsiz < cur + n <= 2 * bufsiz {
      assert Grown(2 * bufsiz, cur, n) == 2 * bufsiz;
    }
  }

  class Writer {
    const width: nat        // sw_width
    var bufsiz: nat         // sw_bufsiz
    var mem: string         // the string that stands in sw_buf, up to its NUL
    var cur: nat            // sw_cur
    var sent: string        // what was passed on, a line at a time
    ghost var lost: bool    // whether a character was ever dropped

    ghost predicate Valid()
      reads this
    {
      cur <= bufsiz && |mem| <= bufsiz && (!lost ==> cur <= |mem|)
    }

    constructor (width: nat)
      ensures Valid() && this.width == width && sent == mem == "" && cur == 0 && !lost
    {
      this.width, bufsiz, mem, cur, sent, lost := width, 0, "", 0, "", false;
    }

    // All output so far.
    ghost function Text(): string
      requires Valid()
      reads this
    {
      sent + if cur <= |mem| then mem[..cur] else mem
    }

    /**
      slaxWrite of a text: it is stored whole unless it fills the buffer to the last byte. Then its last
      character is replaced by the NUL, and what follows on the line is out of sight.
     */
    method Write(s: string)
      requires Valid()
      modifies this
      ensures Valid() && sent == old(sent) && cur == old(cur) + |s|
      ensures lost <==> old(lost) || Fills(old(bufsiz), old(cur), |s|)
      ensures bufsiz == Grown(old(bufsiz), old(cur), |s|)
      ensures !lost ==> Text() == old(Text()) + s && mem == old(mem[..cur]) + s
    {
      while true
        invariant unchanged(`mem) && unchanged(`cur) && unchanged(`sent) && unchanged(`lost) && cur <= bufsiz
        invariant Grown(bufsiz, cur, |s|) == Grown(old(bufsiz), cur, |s|)
        invariant |mem| <= bufsiz
        decreases cur + |s| + 1 - bufsiz
      {
        if bufsiz != 0 {
          var len := bufsiz - cur;
          if |s| <= len {
            var stored := if |s| == len && len > 0 then s[..len - 1] else s;
            lost := lost || stored != s;
            mem := if cur <= |mem| then mem[..cur] + stored else mem;
            cur := cur + |s|;
            return;
          }
        }
        bufsiz := Max(cur + BUF_EXTEND, 2 * bufsiz);
      }
    }

    // slaxWriteNewline without a change of indentation
    method Newline()
      requires Valid()
      modifies this
      ensures Valid() && lost == old(lost) && bufsiz == old(bufsiz)
      ensures bufsiz > 0 ==> sent == old(sent) + old(mem) + "\n" && mem == "" && cur == 0
      ensures bufsiz == 0 ==> unchanged(this)
    {
      if bufsiz == 0 { return; }
      sent := sent + mem + "\n";
      mem, cur := "", 0;
    }
  }

  // ----- where to break

  // The right-most mark below limit, the left-most one from there on.
  datatype Mark = NoMark | Marked(at: nat)

  function LastMark(marks: string, limit: nat): (m: Mark)
    requires limit <= |marks|
    ensures m.NoMark? ==> forall k :: 0 <= k < limit ==> marks[k] == ' '
    ensures m.Marked? ==> m.at < limit && marks[m.at] != ' ' && forall k :: m.at < k < limit ==> marks[k] == ' '
  {
    if limit == 0 then NoMark else if marks[limit - 1] != ' ' then Marked(limit - 1) else LastMark(marks, limit - 1)
  }

  function FirstMark(marks: string, from: nat): (m: Mark)
    requires from <= |marks|
    ensures m.NoMark? ==> forall k :: from <= k < |marks| ==> marks[k] == ' '
    ensures m.Marked? ==>
      from <= m.at < |marks| && marks[m.at] != ' ' && forall k :: from <= k < m.at ==> marks[k] == ' '
    decreases |marks| - from
  {
    if from == |marks| then NoMark else if marks[from] != ' ' then Marked(from) else FirstMark(marks, from + 1)
  }

  /** slaxMemrnchr, for a blank */
  method Memrnchr(marks: string, from: nat, len: nat) returns (m: Mark)
    requires from + len <= |marks|
    ensures m == LastMark(marks[from..], len)
  {
    if len == 0 { return NoMark; }
    var cp: nat := len - 1;
    while true
      invariant cp < len && LastMark(marks[from..], len) == LastMark(marks[from..], cp + 1)
      decreases cp
    {
      if marks[from + cp] != ' ' { return Marked(cp); }
      if cp == 0 { break; }
      cp := cp - 1;
    }
    return NoMark;
  }

  /** slaxMemnchr, for a blank */
  method Memnchr(marks: string, from: nat, skip: nat) returns (m: Mark)
    requires from + skip <= |marks|
    ensures m == FirstMark(marks[from..], skip)
  {
    var cp := skip;
    while from + cp < |marks|
      invariant from + cp <= |marks| && FirstMark(marks[from..], skip) == FirstMark(marks[from..], cp)
    {
      if marks[from + cp] != ' ' { return Marked(cp); }
      cp := cp + 1;
    }
    return NoMark;
  }

  // A break goes after a comma, if a blank follows it.
  function AfterComma(marks: string, at: nat): nat
    requires at < |marks|
  {
    if marks[at] == ',' && at + 1 < |marks| && marks[at + 1] == ' ' then at + 1 else at
  }

  // What a turn of the loop does: print the rest, break after count characters, or start on a new line.
  datatype Turn = Print | Break(count: nat) | Again

  function NextTurn(marks: string, starting: nat, width: nat): (turn: Turn)
    requires starting < width
    ensures turn.Break? ==> 0 < turn.count < |marks|
  {
    var limit := width - starting;
    if |marks| < limit then Print
    else
      var m := LastMark(marks, limit);
      if m.Marked? && m.at > 0 then Break(AfterComma(marks, m.at))
      else
        var f := FirstMark(marks, limit);
        if f == NoMark then Print
        else if starting > width / 2 then Again
        else Break(AfterComma(marks, f.at))
  }

  // A place where the text may be cut: a mark, but just behind a marked comma rather than in front of it.
  predicate MayCut(marks: string, p: nat) {
    0 < p < |marks| && (marks[p] != ' ' || marks[p - 1] == ',')
    && !(marks[p] == ',' && p + 1 < |marks| && marks[p + 1] == ' ')
  }

  predicate Blank(marks: string, from: nat, to: nat) {
    forall k :: from <= k < to && k < |marks| ==> marks[k] == ' '
  }

  // A line that takes n characters from start on: as full as the marks allow, and too long only where they
  // do not allow less.
  predicate LineOk(marks: string, start: nat, n: nat, limit: nat) {
    && (n <= limit || Blank(marks, start + 1, start + limit))
    && Blank(marks, start + n + 1, start + limit)
  }

  lemma {:induction false} TurnCuts(marks: string, start: nat, starting: nat, width: nat)
    requires starting < width && start <= |marks|
    ensures var turn := NextTurn(marks[start..], starting, width); var limit := width - starting;
      && (turn.Break? ==> MayCut(marks, start + turn.count) && LineOk(marks, start, turn.count, limit))
      && (turn.Print? ==> LineOk(marks, start, |marks| - start, limit))
  {
    var rest, limit := marks[start..], width - starting;
    assert forall k {:trigger marks[k]} :: start <= k < |marks| ==> marks[k] == rest[k - start];
    if |rest| >= limit {
      var m, f := LastMark(rest, limit), FirstMark(rest, limit);
    }
  }

  // ----- lines without end

  // What is left to print after k turns, from a start that is already at the place for later lines.
  function LeftAfter(marks: string, starting: nat, width: nat, k: nat): string
    requires starting < width
    decreases k
  {
    if k == 0 then marks
    else match NextTurn(marks, starting, width)
      case Print => ""
      case Break(count) => LeftAfter(marks[count..], starting, width, k - 1)
      case Again => LeftAfter(marks, starting, width, k - 1)
  }

  /** Were three indents more than half the width, some expressions would be started again for ever. */
  lemma {:induction false} SpinsForever(starting: nat, width: nat, k: nat)
    requires width / 2 < starting < width
    ensures var marks := Blanks(width - starting) + "/"; LeftAfter(marks, starting, width, k) == marks
    decreases k
  {
    if k > 0 {
      var limit := width - starting;
      var marks := Blanks(limit) + "/";
      assert forall i {:trigger marks[i]} :: 0 <= i < limit ==> marks[i] == ' ';
      assert LastMark(marks, limit) == NoMark;
      assert marks[limit] == '/' && FirstMark(marks, limit) == Marked(limit);
      SpinsForever(starting, width, k - 1);
    }
  }

  // ----- the whole expression

  function Flat(slices: seq<string>): string {
    if slices == [] then "" else Flat(slices[..|slices| - 1]) + slices[|slices| - 1]
  }

  // Lines that are broken off: the first break is followed by first blanks, the others by next.
  function Broken(slices: seq<string>, first: nat, next: nat): string {
    if slices == [] then ""
    else
      Broken(slices[..|slices| - 1], first, next) + slices[|slices| - 1] + "\n"
      + Blanks(if |slices| == 1 then first else next)
  }

  // The lines of an expression: broken only where that is allowed, and as long as they may be.
  ghost predicate Wrapped(slices: seq<string>, marks: string, first: nat, next: nat, width: nat)
    requires first < width && next < width
  {
    slices == [] ||
    var done := slices[..|slices| - 1];
    && Wrapped(done, marks, first, next, width)
    && (done != [] ==> MayCut(marks, |Flat(done)|))
    && LineOk(marks, |Flat(done)|, |slices[|slices| - 1]|, width - if done == [] then first else next)
  }

  lemma {:induction false} WrappedMore(done: seq<string>, s: string, marks: string, first: nat, next: nat, width: nat)
    requires first < width && next < width && Wrapped(done, marks, first, next, width)
    requires done != [] ==> MayCut(marks, |Flat(done)|)
    requires LineOk(marks, |Flat(done)|, |s|, width - if done == [] then first else next)
    ensures Wrapped(done + [s], marks, first, next, width) && Flat(done + [s]) == Flat(done) + s
    ensures Broken(done + [s], first, next) ==
      Broken(done, first, next) + s + "\n" + Blanks(if done == [] then first else next)
  {
    assert (done + [s])[..|done|] == done;
  }

  /**
    What that says of line i: it starts at a mark or behind a marked comma, has no mark left that it could reach,
    and is longer than the room for it only if there is no mark within.
   */
  lemma {:induction false} LinesMeasured(slices: seq<string>, marks: string, first: nat, next: nat, width: nat, i: nat)
    requires first < width && next < width && Wrapped(slices, marks, first, next, width) && i < |slices|
    ensures var start, n := |Flat(slices[..i])|, |slices[i]|; var limit := width - if i == 0 then first else next;
      && (forall k :: start + n < k < start + limit && k < |marks| ==> marks[k] == ' ')
      && (n > limit ==> forall k :: start < k < start + limit && k < |marks| ==> marks[k] == ' ')
      && (i > 0 ==> 0 < start < |marks| && (marks[start] != ' ' || marks[start - 1] == ',')
                    && !(marks[start] == ',' && start + 1 < |marks| && marks[start + 1] == ' '))
    decreases |slices|
  {
    var done := slices[..|slices| - 1];
    if i < |done| {
      LinesMeasured(done, marks, first, next, width, i);
      assert done[..i] == slices[..i] && done[i] == slices[i];
    } else {
      assert slices[..i] == done;
    }
  }

  // One pass through the loop: the same choice that NextTurn makes for the marks from pos on.
  method ChooseTurn(marks: string, pos: nat, starting: nat, width: nat) returns (turn: Turn)
    requires starting < width && pos <= |marks|
    ensures turn == NextTurn(marks[pos..], starting, width)
  {
    var len, this_width := |marks| - pos, width - starting;
    if len < this_width { return Print; }
    var cp := Memrnchr(marks, pos, this_width);
    if cp == NoMark || cp.at == 0 {
      cp := Memnchr(marks, pos, this_width);
      if cp == NoMark { return Print; }
      if starting > width / 2 { return Again; }
    }
    var count := cp.at;
    if marks[pos + count] == ',' && pos + count + 1 < |marks| && marks[pos + count + 1] == ' ' {
      count := count + 1;
    }
    return Break(count);
  }

  // What the choice means for the place reached.
  method TakeTurn(marks: string, pos: nat, starting: nat, width: nat) returns (turn: Turn)
    requires starting < width && pos <= |marks|
    ensures turn.Break? ==>
      turn.count > 0 && MayCut(marks, pos + turn.count) && LineOk(marks, pos, turn.count, width - starting)
    ensures turn.Print? ==> LineOk(marks, pos, |marks| - pos, width - starting)
    ensures turn.Again? ==> starting > width / 2
  {
    TurnCuts(marks, pos, starting, width);
    turn := ChooseTurn(marks, pos, starting, width);
  }

  // Writes a line, ends it, and indents the next.
  method WriteLine(w: Writer, s: string, indent: nat)
    requires w.Valid() && (!w.lost ==> w.cur == |w.mem|) && s != ""
    modifies w
    ensures w.Valid() && (!w.lost ==> w.cur == |w.mem| && !old(w.lost))
    ensures !w.lost ==> w.Text() == old(w.Text()) + s + "\n" + Blanks(indent)
    ensures var grown := Grown(old(w.bufsiz), old(w.cur), |s|);
      && w.cur == indent && w.bufsiz == Grown(grown, 0, indent)
      && (w.lost <==> old(w.lost) || Fills(old(w.bufsiz), old(w.cur), |s|) || Fills(grown, 0, indent))
  {
    w.Write(s);
    w.Newline();
    w.Write(Blanks(indent));
  }

  // What starts a line of its own: a line break only where there is a buffer.
  function LineStart(bufsiz: nat, indent: nat): string {
    if bufsiz == 0 then Blanks(indent) else "\n" + Blanks(indent)
  }

  // Ends the line and indents the next, if anything was ever written.
  method StartLine(w: Writer, indent: nat) returns (ghost lead: string)
    requires w.Valid() && (!w.lost ==> w.cur <= |w.mem|)
    modifies w
    ensures w.Valid() && (!w.lost ==> w.cur == |w.mem| && !old(w.lost))
    ensures lead == LineStart(old(w.bufsiz), indent)
    ensures !w.lost ==> w.Text() == old(w.sent) + old(w.mem) + lead
    ensures !w.lost && old(w.cur == |w.mem|) ==> w.Text() == old(w.Text()) + lead
    ensures w.cur == indent && w.bufsiz == Grown(old(w.bufsiz), 0, indent)
    ensures w.lost <==> old(w.lost) || Fills(old(w.bufsiz), 0, indent)
  {
    lead := LineStart(w.bufsiz, indent);
    assert w.cur == |w.mem| ==> w.mem[..w.cur] == w.mem;
    w.Newline();
    w.Write(Blanks(indent));
  }

  // The lines broken off so far, and where the next one starts and how far it is indented.
  ghost predicate Underway(slices: seq<string>, buf: string, marks: string, pos: nat, starting: nat, first: nat,
      next: nat, width: nat)
  {
    && |marks| == |buf| && pos <= |buf| && Flat(slices) == buf[..pos]
    && starting < width && next < width && first < width
    && starting == (if slices == [] then first else next)
    && Wrapped(slices, marks, first, next, width)
    && (slices != [] ==> MayCut(marks, pos))
  }

  lemma {:induction false} OneMoreLine(slices: seq<string>, buf: string, marks: string, pos: nat, starting: nat,
      first: nat, next: nat, width: nat, count: nat, text: string)
    requires Underway(slices, buf, marks, pos, starting, first, next, width)
    requires count > 0 && MayCut(marks, pos + count) && LineOk(marks, pos, count, width - starting)
    ensures pos + count <= |buf|
    ensures var line := buf[pos..pos + count];
      && Underway(slices + [line], buf, marks, pos + count, next, first, next, width)
      && text + Broken(slices + [line], first, next) ==
           text + Broken(slices, first, next) + line + "\n" + Blanks(starting)
  {
    var line := buf[pos..pos + count];
    WrappedMore(slices, line, marks, first, next, width);
    assert buf[..pos] + line == buf[..pos + count];
    var before, end := Broken(slices, first, next), Blanks(starting);
    Seqs.Assoc(text, before + line + "\n", end);
    Seqs.Assoc(text, before + line, "\n");
    Seqs.Assoc(text, before, line);
  }

  lemma {:induction false} LastLine(slices: seq<string>, buf: string, marks: string, pos: nat, starting: nat,
      first: nat, next: nat, width: nat)
    requires Underway(slices, buf, marks, pos, starting, first, next, width)
    requires LineOk(marks, pos, |marks| - pos, width - starting)
    ensures Wrapped(slices + [buf[pos..]], marks, first, next, width) && Flat(slices) + buf[pos..] == buf
  {
    WrappedMore(slices, buf[pos..], marks, first, next, width);
  }

  // A first line that starts beyond half the width may be put on a line of its own.
  ghost predicate LeadOk(lead: string, first: nat, starting: nat, next: nat, width: nat, own: string) {
    (lead == "" && first == starting) || (starting > width / 2 && first == next && lead == own)
  }

  // The lines broken off: how far the first and the others are indented, and what came before them.
  datatype Done = Done(first: nat, lead: string, slices: seq<string>)

  // Where the loop stands, after a start at begin.
  ghost predicate Going(w: Writer, base: string, buf: string, marks: string, begin: nat, next: nat, pos: nat,
                        starting: nat, d: Done, own: string)
    reads w
  {
    && w.Valid() && (!w.lost ==> w.cur == |w.mem|)
    && pos <= |buf| == |marks| && starting < w.width
    && Underway(d.slices, buf, marks, pos, starting, d.first, next, w.width)
    && (starting == next || (starting == begin && d.slices == [] && d.lead == ""))
    && LeadOk(d.lead, d.first, begin, next, w.width, own) && (starting != next ==> own == LineStart(w.bufsiz, next))
    && (!w.lost ==> w.Text() == base + d.lead + Broken(d.slices, d.first, next))
  }

  // Every line, from b on, stays below room.
  ghost predicate Fitting(lines: seq<string>, b: nat, room: nat) {
    b < room && forall k :: 0 <= k < |lines| ==> b + |lines[k]| < room
  }

  // Everything so far fitted: while no line, from b on, comes up to room, the writer has lost no more than at first.
  ghost predicate Fitted(w: Writer, slices: seq<string>, b: nat, room: nat, lost: bool)
    reads w
  {
    Fitting(slices, b, room) ==> w.lost == lost && w.cur <= b && room <= Room(w.bufsiz)
  }

  // Puts the first line on a line of its own.
  method StartAgain(w: Writer, ghost base: string, ghost buf: string, ghost marks: string, ghost begin: nat,
                    next: nat, ghost pos: nat, ghost starting: nat, ghost d: Done, ghost own: string,
                    ghost b: nat, ghost room: nat, ghost lost: bool) returns (ghost after: Done)
    requires Going(w, base, buf, marks, begin, next, pos, starting, d, own)
    requires next <= w.width / 2 < starting && next <= b && Fitted(w, d.slices, b, room, lost)
    modifies w
    ensures Going(w, base, buf, marks, begin, next, pos, next, after, own) && (old(w.lost) ==> w.lost)
    ensures Fitted(w, after.slices, b, room, lost)
  {
    Seqs.NoChange(base);
    NotFilled(w.bufsiz, 0, next);
    var lead := StartLine(w, next);
    Seqs.NoChange(base + lead);
    after := Done(next, lead, []);
  }

  // Breaks a line off.
  method BreakLine(w: Writer, ghost base: string, buf: string, ghost marks: string, ghost begin: nat,
                   ghost next: nat, pos: nat, starting: nat, ghost d: Done, count: nat, ghost own: string,
                   ghost b: nat, ghost room: nat, ghost lost: bool) returns (ghost after: Done)
    requires Going(w, base, buf, marks, begin, next, pos, starting, d, own)
    requires starting <= b && Fitted(w, d.slices, b, room, lost)
    requires count > 0 && MayCut(marks, pos + count) && LineOk(marks, pos, count, w.width - starting)
    modifies w
    ensures Going(w, base, buf, marks, begin, next, pos + count, next, after, own)
    ensures old(w.lost) ==> w.lost
    ensures Fitted(w, after.slices, b, room, lost)
  {
    OneMoreLine(d.slices, buf, marks, pos, starting, d.first, next, w.width, count, base + d.lead);
    after := d.(slices := d.slices + [buf[pos..pos + count]]);
    LineFits(w, d.slices, buf[pos..pos + count], starting, b, room, lost);
    WriteLine(w, buf[pos..pos + count], starting);
  }

  lemma {:induction false} LineFits(w: Writer, slices: seq<string>, s: string, indent: nat, b: nat, room: nat,
                                    lost: bool)
    requires w.Valid() && Fitted(w, slices, b, room, lost) && indent <= b
    ensures Fitting(slices + [s], b, room) ==>
      var grown := Grown(w.bufsiz, w.cur, |s|);
      && w.lost == lost && !Fills(w.bufsiz, w.cur, |s|) && !Fills(grown, 0, indent)
      && room <= Room(Grown(grown, 0, indent))
  {
    var all, grown := slices + [s], Grown(w.bufsiz, w.cur, |s|);
    NotFilled(w.bufsiz, w.cur, |s|);
    NotFilled(grown, 0, indent);
    if Fitting(all, b, room) {
      assert all[|slices|] == s && forall k :: 0 <= k < |slices| ==> all[k] == slices[k];
    }
  }

  // One turn of the loop of slaxWriteEmitExpression, unless all that is left fits.
  method EmitTurn(w: Writer, ghost base: string, buf: string, marks: string, ghost begin: nat, next: nat, pos0: nat,
                  starting0: nat, ghost d0: Done, ghost own: string, ghost b: nat, ghost room: nat, ghost lost: bool)
      returns (last: bool, pos: nat, starting: nat, ghost d: Done)
    requires Going(w, base, buf, marks, begin, next, pos0, starting0, d0, own) && next <= w.width / 2
    requires starting0 <= b && next <= b && Fitted(w, d0.slices, b, room, lost)
    modifies w
    ensures starting <= b && Fitted(w, d.slices, b, room, lost)
    ensures Going(w, base, buf, marks, begin, next, pos, starting, d, own) && (old(w.lost) ==> w.lost)
    ensures last ==> d == d0 && pos == pos0 && LineOk(marks, pos, |marks| - pos, w.width - starting)
    ensures !last ==> pos > pos0 || (pos == pos0 && starting < starting0)
  {
    last, pos, starting, d := false, pos0, starting0, d0;
    var turn := TakeTurn(marks, pos, starting, w.width);
    match turn {
      case Print =>
        last := true;
      case Again =>
        d := StartAgain(w, base, buf, marks, begin, next, pos, starting, d, own, b, room, lost);
        starting := next;
      case Break(count) =>
        d := BreakLine(w, base, buf, marks, begin, next, pos, starting, d, count, own, b, room, lost);
        pos, starting := pos + count, next;
    }
  }

  // The loop of slaxWriteEmitExpression.
  method EmitLines(w: Writer, buf: string, marks: string, starting0: nat, next: nat, ghost b: nat, ghost room: nat,
                   ghost was: bool)
      returns (ghost first: nat, ghost lead: string, ghost slices: seq<string>, ghost rest: string)
    requires w.Valid() && (!w.lost ==> w.cur == |w.mem|) && |marks| == |buf|
    requires starting0 < w.width && next <= w.width / 2 && starting0 <= b && next <= b && Fitted(w, [], b, room, was)
    modifies w
    ensures w.Valid() && (old(w.lost) ==> w.lost)
    ensures Fitting(slices + [rest], b, room) ==> w.lost == was
    ensures LeadOk(lead, first, starting0, next, w.width, LineStart(old(w.bufsiz), next))
    ensures first < w.width && Flat(slices) + rest == buf && Wrapped(slices + [rest], marks, first, next, w.width)
    ensures !w.lost ==> w.Text() == old(w.Text()) + lead + Broken(slices, first, next) + rest
  {
    var last, pos: nat, starting: nat := false, 0, starting0;
    ghost var base, own, d := w.Text(), LineStart(w.bufsiz, next), Done(starting0, "", []);
    Seqs.NoChange(base);
    while !last
      invariant Going(w, base, buf, marks, starting0, next, pos, starting, d, own) && (old(w.lost) ==> w.lost)
      invariant starting <= b && Fitted(w, d.slices, b, room, was)
      invariant last ==> LineOk(marks, pos, |marks| - pos, w.width - starting)
      decreases !last, |buf| - pos, starting
    {
      last, pos, starting, d := EmitTurn(w, base, buf, marks, starting0, next, pos, starting, d, own, b, room, was);
    }
    first, lead, slices, rest := d.first, d.lead, d.slices, buf[pos..];
    LastLine(slices, buf, marks, pos, starting, first, next, w.width);
    LineFits(w, slices, rest, 0, b, room, was);
    w.Write(buf[pos..]);
  }

  lemma {:induction false} WholeFits(w: Writer, buf: string, b: nat, room: nat)
    requires w.Valid() && w.cur <= b && room == Room(w.bufsiz)
    ensures Fitting([] + [buf], b, room) ==> !Fills(w.bufsiz, w.cur, |buf|)
  {
    assert ([] + [buf])[0] == buf;
    NotFilled(w.bufsiz, w.cur, |buf|);
  }

  // The whole expression goes on a line of its own; a blank before it should go.
  method OwnLine(w: Writer, indent: nat, ghost b: nat, ghost room: nat, ghost was: bool) returns (ghost lead: string)
    requires w.Valid() && (!w.lost ==> w.cur == |w.mem|)
    requires indent <= b && room == Room(w.bufsiz) && was == w.lost
    modifies w
    ensures w.Valid() && (!w.lost ==> w.cur == |w.mem| && !old(w.lost))
    ensures lead == LineStart(old(w.bufsiz), indent)
    ensures !w.lost ==> w.Text() == old(w.Text()) + lead
    ensures Fitted(w, [], b, room, was)
  {
    assert !w.lost ==> w.mem[..w.cur] == w.mem;
    NotFilled(w.bufsiz, 0, indent);
    if w.cur > 0 && w.cur <= |w.mem| && w.mem[w.cur - 1] == ' ' {
      w.cur := w.cur - 1; // the string in the buffer still ends in the blank
    }
    lead := StartLine(w, indent);
  }

  /**
    slaxWriteEmitExpression for an expression buf and its marks: the loop ends, and as long as no write
    exactly fills the buffer, what is written is the expression, broken only where the marks allow it.
   */
  method EmitExpression(w: Writer, buf: string, marks: string, indent: nat) returns (rc: bool, ghost first: nat,
      ghost next: nat, ghost lead: string, ghost slices: seq<string>, ghost rest: string)
    requires w.Valid() && (!w.lost ==> w.cur == |w.mem|) && |marks| == |buf|
    requires w.width > 0 ==> w.cur + indent <= w.width / 2 || 3 * indent <= w.width / 2
    modifies w
    ensures w.Valid() && Flat(slices) + rest == buf
    ensures !w.lost ==> w.Text() == old(w.Text()) + lead + Broken(slices, first, next) + rest
    ensures rc <==>
      w.width > 0 && old(w.cur) + indent > w.width / 2 && old(w.cur) + indent > w.width - 3 && |buf| < w.width
    ensures rc || w.width == 0 ==> lead == "" && slices == []
    ensures Fitting(slices + [rest], old(w.cur) + 3 * indent, if old(w.bufsiz) == 0 then 2048 else old(w.bufsiz)) ==>
      w.lost == old(w.lost)
    ensures !rc && w.width > 0 ==>
      var start, own := old(w.cur) + indent, if old(w.bufsiz) == 0 then Blanks(next) else "\n" + Blanks(next);
      && next == (if start > w.width / 2 then 3 * indent else start)
      && ((lead == "" && first == start) || (lead == own && first == next && start > w.width / 2))
      && (start > w.width / 2 && start > w.width - 3 ==> lead == own && first == next)
    ensures !rc && w.width > 0 ==>
      first < w.width && next < w.width && Wrapped(slices + [rest], marks, first, next, w.width)
  {
    rc, first, next, lead, slices, rest := false, 0, 0, "", [], buf;
    ghost var base, b, room, was := w.Text(), w.cur + 3 * indent, Room(w.bufsiz), w.lost;
    NothingBroken(base, buf);
    WholeFits(w, buf, b, room);
    if w.width == 0 {
      w.Write(buf);
      return;
    }
    var starting := w.cur + indent;
    var later := starting;
    if starting > w.width / 2 {
      later := 3 * indent;
      if starting > w.width - 3 {
        if |buf| < w.width {
          w.Write(buf);
          rc := true;
          return;
        }
        lead := OwnLine(w, later, b, room, was);
        starting := later;
      }
    }
    ghost var indented, more := lead, "";
    first, more, slices, rest := EmitLines(w, buf, marks, starting, later, b, room, was);
    next, lead := later, if indented == "" then more else indented;
    LeadJoined(base, indented, more);
  }

  lemma {:induction false} NothingBroken(base: string, buf: string)
    ensures base + "" + Broken([], 0, 0) == base && base + "" == base && Flat([]) + buf == buf
  {
  }

  lemma {:induction false} LeadJoined(base: string, indented: string, more: string)
    requires indented == "" || more == ""
    ensures base + indented + more == base + if indented == "" then more else indented
  {
    Seqs.NoChange(base);
    Seqs.NoChange(base + indented);
  }
}
