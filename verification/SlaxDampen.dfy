/**
  slax:dampen: a limit on how often an event may happen, kept in a file of time stamps.
 */
module SlaxDampen {
  import Seqs
  import opened SlaxDigits

  const USEC_PER_SEC: int := 1000000
  const SEC_PER_MIN: int := 60

  // ----- time

  datatype Time = Time(sec: int, usec: int)

  function Micros(t: Time): int {
    t.sec * USEC_PER_SEC + t.usec
  }

  predicate Stamp(t: Time) {
    t.sec >= 0 && 0 <= t.usec < USEC_PER_SEC
  }

  // lrint: to the nearest whole number, half-way cases to the even one.
  function Rint(x: real): (n: int)
    ensures x - 0.5 <= n as real <= x + 0.5
  {
    var f := x.Floor;
    if x - f as real < 0.5 then f
    else if x - f as real > 0.5 then f + 1
    else if f % 2 == 0 then f else f + 1
  }

  // The period in seconds, or what it is rounded to if that is more; in microseconds.
  function Window(freq: real): real {
    var x := freq * SEC_PER_MIN as real;
    (if x < Rint(x) as real then Rint(x) as real else x) * USEC_PER_SEC as real
  }

  predicate Close(now: Time, rec: Time, freq: real) {
    (Micros(now) - Micros(rec)) as real < Window(freq)
  }

  /** slaxExtTimeDiff */
  method TimeDiff(newer: Time, older: Time) returns (diff: Time, whole: int)
    requires 0 <= newer.usec < USEC_PER_SEC
    ensures Micros(diff) == Micros(newer) - Micros(older) && whole == diff.sec
    ensures 0 <= older.usec < USEC_PER_SEC ==> 0 <= diff.usec < USEC_PER_SEC
    ensures 0 <= older.usec < USEC_PER_SEC ==> (whole < 0 <==> Micros(newer) < Micros(older))
  {
    var sec, usec := newer.sec, newer.usec;
    if newer.usec < older.usec {
      usec := usec + USEC_PER_SEC;
      sec := sec - 1;
    }
    diff := Time(sec - older.sec, usec - older.usec);
    whole := sec - older.sec;
  }

  /** slaxExtTimeCompare */
  method TimeCompare(t: Time, limit: real) returns (below: bool)
    ensures below <==> Micros(t) as real < limit * USEC_PER_SEC as real
  {
    var d := t.sec as real + t.usec as real / USEC_PER_SEC as real;
    below := d < limit;
    assert d * USEC_PER_SEC as real == Micros(t) as real;
  }

  // The two tests of the loop together are one test against the window.
  lemma {:induction false} TwoTests(diff: Time, freq: real)
    requires 0 <= diff.usec < USEC_PER_SEC
    ensures diff.sec < Rint(freq * SEC_PER_MIN as real)
      || Micros(diff) as real < freq * SEC_PER_MIN as real * USEC_PER_SEC as real
      <==> Micros(diff) as real < Window(freq)
  {
    var x := freq * SEC_PER_MIN as real;
    var n := Rint(x);
    assert diff.sec < n <==> Micros(diff) < n * USEC_PER_SEC;
  }

  /** The window is a minute for each unit of the period, or up to half a second more where that is no whole second. */
  lemma {:induction false} WindowIsMinutes(now: Time, rec: Time, freq: real, minutes: int)
    ensures 60000000.0 * freq <= Window(freq) <= 60000000.0 * freq + 500000.0
    ensures Close(now, rec, minutes as real) <==>
      1000000 * (now.sec - rec.sec) + (now.usec - rec.usec) < 60000000 * minutes
  {
    var x := minutes as real * SEC_PER_MIN as real;
    assert x == (60 * minutes) as real;
    assert Rint(x) == 60 * minutes;
    assert Window(minutes as real) == (60000000 * minutes) as real;
  }

  // ----- the text of a record

  // %0*lu
  function Padded(n: nat, width: nat): string {
    if width == 0 then "" else Padded(n / 10, width - 1) + [Digit(n % 10)]
  }

  function Format(t: Time): string
    requires Stamp(t)
  {
    Decimal(t.sec) + "." + Padded(t.usec, 6) + "\n"
  }

  // strtol
  function Strtol(s: string): int {
    if s != "" && (s[0] == ' ' || s[0] == '\t') then Strtol(s[1..])
    else if s != "" && s[0] == '-' then -Leading(s[1..], 0)
    else if s != "" && s[0] == '+' then Leading(s[1..], 0)
    else Leading(s, 0)
  }

  function Dot(s: string): nat {
    if s == "" || s[0] == '.' then 0 else 1 + Dot(s[1..])
  }

  datatype Option<T> = None | Some(value: T)

  // A line of the file; remarks and lines without a dot are no records.
  function Parse(line: string): Option<Time> {
    if line != "" && line[0] == '#' then None
    else if Dot(line) >= |line| then None
    else Some(Time(Strtol(line[..Dot(line)]), Strtol(line[Dot(line) + 1..])))
  }

  lemma {:induction false} PaddedDigits(n: nat, width: nat)
    ensures |Padded(n, width)| == width && forall k :: 0 <= k < width ==> IsDigit(Padded(n, width)[k])
  {
    if width > 0 { PaddedDigits(n / 10, width - 1); }
  }

  function Pow10(k: nat): nat {
    if k == 0 then 1 else 10 * Pow10(k - 1)
  }

  lemma {:induction false} PaddedValue(n: nat, width: nat)
    requires n < Pow10(width)
    ensures Leading(Padded(n, width), 0) == n
  {
    if width > 0 {
      PaddedValue(n / 10, width - 1);
      PaddedDigits(n / 10, width - 1);
      LeadingAll(Padded(n / 10, width - 1), [Digit(n % 10)], 0);
      LeadingOne(Digit(n % 10), n / 10);
    }
  }

  lemma {:induction false} DotAfterDigits(a: string, rest: string)
    requires forall k :: 0 <= k < |a| ==> IsDigit(a[k])
    ensures Dot(a + "." + rest) == |a|
  {
    if a != "" {
      assert (a + "." + rest)[1..] == a[1..] + "." + rest;
      DotAfterDigits(a[1..], rest);
    }
  }

  /** A record that was written is read back as it was. */
  lemma {:induction false} ParseFormat(t: Time)
    requires Stamp(t)
    ensures Parse(Format(t)) == Some(t)
  {
    var a, b := Decimal(t.sec), Padded(t.usec, 6);
    DecimalDigits(t.sec);
    PaddedDigits(t.usec, 6);
    assert Format(t) == a + "." + (b + "\n");
    DotAfterDigits(a, b + "\n");
    assert Format(t)[..|a|] == a && Format(t)[|a| + 1..] == b + "\n";
    assert a[0] == Format(t)[0];
    DecimalValue(t.sec);
    assert Pow10(6) == 1000000;
    PaddedValue(t.usec, 6);
    LeadingAll(b, "\n", 0);
    assert b[0] == (b + "\n")[0];
  }

  // Seconds, a dot, six digits of microseconds.
  lemma {:induction false} FormatShape(t: Time)
    requires Stamp(t)
    ensures var sec, text := Decimal(t.sec), Format(t);
      && |text| == |sec| + 8 && text[..|sec|] == sec && text[|sec|] == '.' && text[|sec| + 7] == '\n'
      && forall k :: |sec| < k < |sec| + 7 ==> IsDigit(text[k])
  {
    PaddedDigits(t.usec, 6);
    var sec, usec := Decimal(t.sec), Padded(t.usec, 6);
    assert Format(t) == sec + "." + (usec + "\n");
    assert forall k :: |sec| < k < |sec| + 7 ==> Format(t)[k] == usec[k - |sec| - 1];
  }

  /** Numbers are read behind blanks and tabs, with a sign or without, up to the first character that is no digit. */
  lemma {:induction false} StrtolReads(n: nat, blanks: string, rest: string)
    requires (forall k :: 0 <= k < |blanks| ==> blanks[k] == ' ' || blanks[k] == '\t')
    requires rest == "" || !('0' <= rest[0] <= '9')
    ensures Strtol(blanks + (Decimal(n) + rest)) == Strtol(blanks + ("+" + (Decimal(n) + rest))) == n
    ensures -Strtol(blanks + ("-" + (Decimal(n) + rest))) == n
  {
    var text := Decimal(n) + rest;
    DecimalDigits(n);
    DecimalValue(n);
    LeadingAll(Decimal(n), rest, 0);
    assert ("+" + text)[1..] == text && ("-" + text)[1..] == text;
    BlanksSkipped(blanks, text);
    BlanksSkipped(blanks, "+" + text);
    BlanksSkipped(blanks, "-" + text);
  }

  lemma {:induction false} BlanksSkipped(blanks: string, text: string)
    requires (forall k :: 0 <= k < |blanks| ==> blanks[k] == ' ' || blanks[k] == '\t')
    ensures Strtol(blanks + text) == Strtol(text)
  {
    if blanks != "" {
      assert (blanks + text)[1..] == blanks[1..] + text;
      BlanksSkipped(blanks[1..], text);
    } else {
      assert blanks + text == text;
    }
  }

  /** A line is no record exactly if it is a remark or has no dot; else the seconds are before its first dot and the
      microseconds behind. */
  lemma {:induction false} ParseMeans(line: string)
    ensures Parse(line).None? <==> '.' !in line || line[0] == '#'
    ensures Parse(line).Some? ==> exists d ::
      && 0 <= d < |line| && line[d] == '.' && '.' !in line[..d]
      && Parse(line) == Some(Time(Strtol(line[..d]), Strtol(line[d + 1..])))
  {
    FirstDot(line);
  }

  lemma {:induction false} FirstDot(s: string)
    ensures Dot(s) <= |s| && '.' !in s[..Dot(s)] && (Dot(s) < |s| <==> '.' in s)
    ensures Dot(s) < |s| ==> s[Dot(s)] == '.'
  {
    if s != "" && s[0] != '.' {
      FirstDot(s[1..]);
      assert s[..Dot(s)] == [s[0]] + s[1..][..Dot(s[1..])];
      assert s == [s[0]] + s[1..];
    }
  }

  // ----- one call

  predicate Later(rec: Time, now: Time) {
    Micros(now) < Micros(rec)
  }

  predicate Warped(recs: seq<Time>, now: Time) {
    exists k :: 0 <= k < |recs| && Later(recs[k], now)
  }

  // The records that are copied: those within the window, up to the first from the future.
  function Kept(recs: seq<Time>, now: Time, freq: real): seq<Time> {
    if recs == [] || Later(recs[0], now) then []
    else (if Close(now, recs[0], freq) then [recs[0]] else []) + Kept(recs[1..], now, freq)
  }

  function Count(recs: seq<Time>, now: Time, freq: real): nat {
    if Warped(recs, now) then 0 else |Kept(recs, now, freq)|
  }

  function NextLog(recs: seq<Time>, now: Time, max: int, freq: real): seq<Time> {
    Kept(recs, now, freq) + if Count(recs, now, freq) < max then [now] else []
  }

  function RecordOf(line: string): seq<Time> {
    var p := Parse(line);
    if p.None? then [] else [p.value]
  }

  function Records(lines: seq<string>): seq<Time> {
    if lines == [] then [] else Records(lines[..|lines| - 1]) + RecordOf(lines[|lines| - 1])
  }

  lemma {:induction false} RecordsSnoc(lines: seq<string>, line: string)
    ensures Records(lines + [line]) == Records(lines) + RecordOf(line)
  {
    assert (lines + [line])[..|lines|] == lines;
  }

  // What the line at i adds to the records.
  lemma {:induction false} LineRead(lines: seq<string>, i: nat)
    requires i < |lines|
    ensures var before := Records(lines[..i]);
      match Parse(lines[i])
      case None => Records(lines[..i + 1]) == before
      case Some(rec) =>
        && Records(lines[..i + 1]) == before + [rec]
        && |before| < |Records(lines)| && Records(lines)[|before|] == rec && Records(lines)[..|before|] == before
  {
    var before := Records(lines[..i]);
    assert lines[..i + 1] == lines[..i] + [lines[i]];
    RecordsSnoc(lines[..i], lines[i]);
    RecordsPrefix(lines, i + 1);
    if Parse(lines[i]).Some? {
      var more := Records(lines)[..|before| + 1];
      assert more == before + [Parse(lines[i]).value] && more[..|before|] == Records(lines)[..|before|];
    } else {
      Seqs.NoChange(before);
    }
  }

  // The records of some lines come before those of the lines behind them.
  lemma {:induction false} RecordsPrefix(lines: seq<string>, i: nat)
    requires i <= |lines|
    ensures |Records(lines[..i])| <= |Records(lines)|
    ensures Records(lines)[..|Records(lines[..i])|] == Records(lines[..i])
    decreases |lines|
  {
    if i < |lines| {
      var init := lines[..|lines| - 1];
      assert init[..i] == lines[..i];
      RecordsPrefix(init, i);
    } else {
      assert lines[..i] == lines;
    }
  }

  lemma {:induction false} KeptSnoc(recs: seq<Time>, rec: Time, now: Time, freq: real)
    requires !Warped(recs, now)
    ensures Kept(recs + [rec], now, freq) ==
      if !Later(rec, now) && Close(now, rec, freq) then Kept(recs, now, freq) + [rec] else Kept(recs, now, freq)
    ensures Warped(recs + [rec], now) <==> Later(rec, now)
  {
    WarpedSnoc(recs, rec, now);
    var all := recs + [rec];
    if recs != [] {
      assert all[1..] == recs[1..] + [rec] && all[0] == recs[0];
      KeptSnoc(recs[1..], rec, now, freq);
      Seqs.Assoc(if Close(now, recs[0], freq) then [recs[0]] else [], Kept(recs[1..], now, freq), [rec]);
    } else {
      assert all[1..] == [];
      Seqs.NoChange([rec]);
    }
  }

  lemma {:induction false} WarpedSnoc(recs: seq<Time>, rec: Time, now: Time)
    requires !Warped(recs, now)
    ensures recs != [] ==> !Later(recs[0], now) && !Warped(recs[1..], now)
    ensures Warped(recs + [rec], now) <==> Later(rec, now)
  {
    var all := recs + [rec];
    assert all[|recs|] == rec;
    if recs != [] {
      assert !Later(recs[0], now);
      forall k | 0 <= k < |recs| - 1 ensures !Later(recs[1..][k], now) {
        assert recs[1..][k] == recs[k + 1];
      }
    }
  }

  // Nothing behind a record from the future is looked at.
  lemma {:induction false} KeptStops(recs: seq<Time>, n: nat, now: Time, freq: real)
    requires n < |recs| && !Warped(recs[..n], now) && Later(recs[n], now)
    ensures Kept(recs, now, freq) == Kept(recs[..n], now, freq)
  {
    if n > 0 {
      assert recs[..n][0] == recs[0] && recs[..n][1..] == recs[1..][..n - 1];
      assert !Later(recs[..n][0], now);
      assert !Warped(recs[..n][1..], now);
      KeptStops(recs[1..], n - 1, now, freq);
    }
  }

  // What the loop asks of a record: whether it is from the future, and if not, whether it still counts.
  method Judge(now: Time, rec: Time, freq: real) returns (future: bool, recent: bool)
    requires Stamp(now) && Stamp(rec)
    ensures future <==> Later(rec, now)
    ensures !future ==> (recent <==> Close(now, rec, freq))
  {
    var limit := freq * SEC_PER_MIN as real;
    var freq_in_secs := Rint(limit);
    var diff, whole := TimeDiff(now, rec);
    if whole < 0 {
      return true, false;
    }
    TwoTests(diff, freq);
    var below := TimeCompare(diff, limit);
    return false, diff.sec < freq_in_secs || below;
  }

  // The loop over the old file: the lines of the new one, and how many records count.
  method CopyRecent(old_lines: seq<string>, now: Time, freq: real) returns (new_lines: seq<string>, no_of_recs: nat)
    requires Stamp(now) && forall t :: t in Records(old_lines) ==> Stamp(t)
    ensures Records(new_lines) == Kept(Records(old_lines), now, freq)
    ensures no_of_recs == Count(Records(old_lines), now, freq)
  {
    ghost var recs := Records(old_lines);
    var i := 0;
    new_lines, no_of_recs := [], 0;
    assert old_lines[..0] == [];
    while i < |old_lines|
      invariant i <= |old_lines| && !Warped(Records(old_lines[..i]), now)
      invariant Records(new_lines) == Kept(Records(old_lines[..i]), now, freq)
      invariant no_of_recs == |Records(new_lines)|
    {
      var p := Parse(old_lines[i]);
      LineRead(old_lines, i);
      if p.None? {
        i := i + 1;
        continue;
      }
      var rec := p.value;
      ghost var before := Records(old_lines[..i]);
      assert rec in recs;
      KeptSnoc(before, rec, now, freq);
      var future, recent := Judge(now, rec, freq);
      if future {
        KeptStops(recs, |before|, now, freq);
        return new_lines, 0;
      }
      if recent {
        ParseFormat(rec);
        RecordsSnoc(new_lines, Format(rec));
        new_lines := new_lines + [Format(rec)];
        no_of_recs := no_of_recs + 1;
      }
      i := i + 1;
    }
    assert old_lines[..i] == old_lines;
  }

  class DampenFile {
    var lines: seq<string>

    // Every record in the file is a time that this function could have written.
    ghost predicate Valid()
      reads this
    {
      forall t :: t in Records(lines) ==> Stamp(t)
    }

    constructor ()
      ensures Valid() && lines == []
    {
      lines := [];
    }

    /** slaxExtDampen, but for opening, locking and renaming the file. */
    method Dampen(now: Time, max: int, freq: real) returns (ok: bool)
      requires Valid() && Stamp(now)
      modifies this
      ensures Valid()
      ensures max <= 0 || Rint(freq * SEC_PER_MIN as real) <= 0 ==> !ok && lines == old(lines)
      ensures max > 0 && Rint(freq * SEC_PER_MIN as real) > 0 ==>
        && (ok <==> Count(Records(old(lines)), now, freq) < max)
        && Records(lines) == NextLog(Records(old(lines)), now, max, freq)
    {
      var freq_in_secs := Rint(freq * SEC_PER_MIN as real);
      if max <= 0 || freq_in_secs <= 0 {
        return false;
      }
      ghost var recs := Records(lines);
      var new_lines, no_of_recs := CopyRecent(lines, now, freq);
      KeptInRecords(recs, now, freq);
      if no_of_recs < max {
        ParseFormat(now);
        RecordsSnoc(new_lines, Format(now));
        new_lines := new_lines + [Format(now)];
        ok := true;
      } else {
        Seqs.NoChange(Kept(recs, now, freq));
        ok := false;
      }
      lines := new_lines;
    }
  }

  lemma {:induction false} KeptInRecords(recs: seq<Time>, now: Time, freq: real)
    ensures forall t :: t in Kept(recs, now, freq) ==> t in recs
  {
    if recs != [] {
      KeptInRecords(recs[1..], now, freq);
    }
  }

  // ----- runs

  // The calls of a run, one clock reading each.
  predicate Ordered(calls: seq<Time>) {
    forall i, k :: 0 <= i < k < |calls| ==> Micros(calls[i]) <= Micros(calls[k])
  }

  function LogAfter(calls: seq<Time>, max: int, freq: real): seq<Time> {
    if calls == [] then [] else NextLog(LogAfter(calls[..|calls| - 1], max, freq), calls[|calls| - 1], max, freq)
  }

  predicate LastSucceeds(calls: seq<Time>, max: int, freq: real)
    requires calls != []
  {
    Count(LogAfter(calls[..|calls| - 1], max, freq), calls[|calls| - 1], freq) < max
  }

  // The times of the calls that succeeded.
  function Successes(calls: seq<Time>, max: int, freq: real): seq<Time> {
    if calls == [] then []
    else
      Successes(calls[..|calls| - 1], max, freq)
      + if LastSucceeds(calls, max, freq) then [calls[|calls| - 1]] else []
  }

  // Those of some times that lie within the window before now.
  function Recent(ts: seq<Time>, now: Time, freq: real): seq<Time> {
    if ts == [] then []
    else Recent(ts[..|ts| - 1], now, freq) + if Close(now, ts[|ts| - 1], freq) then [ts[|ts| - 1]] else []
  }

  predicate NoneLater(ts: seq<Time>, now: Time) {
    forall k :: 0 <= k < |ts| ==> Micros(ts[k]) <= Micros(now)
  }

  lemma {:induction false} RecentSubset(ts: seq<Time>, now: Time, freq: real)
    ensures forall t :: t in Recent(ts, now, freq) ==> t in ts
  {
    if ts != [] { RecentSubset(ts[..|ts| - 1], now, freq); }
  }

  // What was too old for an earlier call is too old for a later one.
  lemma {:induction false} RecentTwice(ts: seq<Time>, early: Time, now: Time, freq: real)
    requires Micros(early) <= Micros(now)
    ensures Recent(Recent(ts, early, freq), now, freq) == Recent(ts, now, freq)
  {
    if ts != [] {
      var init, t := ts[..|ts| - 1], ts[|ts| - 1];
      RecentTwice(init, early, now, freq);
      assert Recent(init, early, freq) + [] == Recent(init, early, freq);
      assert Recent(init, now, freq) + [] == Recent(init, now, freq);
      if Close(early, t, freq) {
        RecentSnoc(Recent(init, early, freq), t, now, freq);
      }
    }
  }

  lemma {:induction false} RecentSnoc(ts: seq<Time>, t: Time, now: Time, freq: real)
    ensures Recent(ts + [t], now, freq) == Recent(ts, now, freq) + if Close(now, t, freq) then [t] else []
  {
    assert (ts + [t])[..|ts|] == ts;
  }

  lemma {:induction false} KeptIsRecent(ts: seq<Time>, now: Time, freq: real)
    requires NoneLater(ts, now)
    ensures !Warped(ts, now) && Kept(ts, now, freq) == Recent(ts, now, freq)
  {
    if ts != [] {
      var init, t := ts[..|ts| - 1], ts[|ts| - 1];
      KeptIsRecent(init, now, freq);
      assert ts == init + [t];
      KeptSnoc(init, t, now, freq);
    }
  }

  lemma {:induction false} SuccessesAreCalls(calls: seq<Time>, max: int, freq: real)
    ensures forall t :: t in Successes(calls, max, freq) ==> t in calls
  {
    if calls != [] { SuccessesAreCalls(calls[..|calls| - 1], max, freq); }
  }

  lemma {:induction false} SuccessesNotLater(calls: seq<Time>, max: int, freq: real, now: Time)
    requires NoneLater(calls, now)
    ensures NoneLater(Successes(calls, max, freq), now)
  {
    SuccessesAreCalls(calls, max, freq);
    var ts := Successes(calls, max, freq);
    forall k | 0 <= k < |ts| ensures Micros(ts[k]) <= Micros(now) {
      assert ts[k] in ts;
    }
  }

  /** Under a clock that does not go back, the log holds the recent successes, oldest first. */
  lemma {:induction false} LogIsRecent(calls: seq<Time>, max: int, freq: real)
    requires Ordered(calls) && calls != [] && max > 0 && Window(freq) > 0.0
    ensures LogAfter(calls, max, freq) == Recent(Successes(calls, max, freq), calls[|calls| - 1], freq)
    ensures LastSucceeds(calls, max, freq) <==>
      |Recent(Successes(calls[..|calls| - 1], max, freq), calls[|calls| - 1], freq)| < max
  {
    var init, now := calls[..|calls| - 1], calls[|calls| - 1];
    var ts, log := Successes(init, max, freq), LogAfter(init, max, freq);
    SuccessesNotLater(init, max, freq, now);
    if init != [] {
      var early := init[|init| - 1];
      LogIsRecent(init, max, freq);
      StillRecent(ts, early, now, freq);
    }
    KeptIsRecent(log, now, freq);
    assert Recent(ts, now, freq) + [] == Recent(ts, now, freq);
    RecentSnoc(ts, now, now, freq);
    assert ts + [] == ts;
  }

  lemma {:induction false} StillRecent(ts: seq<Time>, early: Time, now: Time, freq: real)
    requires NoneLater(ts, now) && Micros(early) <= Micros(now)
    ensures NoneLater(Recent(ts, early, freq), now)
    ensures Recent(Recent(ts, early, freq), now, freq) == Recent(ts, now, freq)
  {
    var log := Recent(ts, early, freq);
    RecentSubset(ts, early, freq);
    forall k | 0 <= k < |log| ensures Micros(log[k]) <= Micros(now) {
      assert log[k] in ts;
    }
    RecentTwice(ts, early, now, freq);
  }

  /** A call succeeds exactly when fewer than max earlier successes lie within the window before it. */
  lemma {:induction false} SucceedsIff(calls: seq<Time>, k: nat, max: int, freq: real)
    requires Ordered(calls) && k < |calls| && max > 0 && Window(freq) > 0.0
    ensures LastSucceeds(calls[..k + 1], max, freq) <==>
      |Recent(Successes(calls[..k], max, freq), calls[k], freq)| < max
  {
    var upto := calls[..k + 1];
    assert upto[..k] == calls[..k];
    LogIsRecent(upto, max, freq);
  }

  /** The log never holds more than max records. */
  lemma {:induction false} LogBounded(calls: seq<Time>, max: int, freq: real)
    requires Ordered(calls) && max > 0 && Window(freq) > 0.0
    ensures |LogAfter(calls, max, freq)| <= max
  {
    if calls != [] {
      var init, now := calls[..|calls| - 1], calls[|calls| - 1];
      var log := LogAfter(init, max, freq);
      LogBounded(init, max, freq);
      LogIsRecent(calls, max, freq);
      var ts := Successes(init, max, freq);
      KeptShrinks(log, now, freq);
      if LastSucceeds(calls, max, freq) {
        SuccessesNotLater(init, max, freq, now);
        RecentSnoc(ts, now, now, freq);
      }
    }
  }

  lemma {:induction false} KeptShrinks(recs: seq<Time>, now: Time, freq: real)
    ensures |Kept(recs, now, freq)| <= |recs|
  {
    if recs != [] { KeptShrinks(recs[1..], now, freq); }
  }

  // The times from a given one on, for the length of a window.
  function Within(ts: seq<Time>, from: real, freq: real): seq<Time> {
    if ts == [] then []
    else
      var t := ts[|ts| - 1];
      Within(ts[..|ts| - 1], from, freq)
      + if from <= Micros(t) as real < from + Window(freq) then [t] else []
  }

  lemma {:induction false} WithinSnoc(ts: seq<Time>, t: Time, from: real, freq: real)
    ensures Within(ts + [t], from, freq) ==
      Within(ts, from, freq) + if from <= Micros(t) as real < from + Window(freq) then [t] else []
  {
    assert (ts + [t])[..|ts|] == ts;
  }

  // What lies in a window together with now is recent.
  lemma {:induction false} WithinIsRecent(ts: seq<Time>, from: real, now: Time, freq: real)
    requires Micros(now) as real < from + Window(freq)
    ensures |Within(ts, from, freq)| <= |Recent(ts, now, freq)|
  {
    if ts != [] { WithinIsRecent(ts[..|ts| - 1], from, now, freq); }
  }

  /** No window, wherever it starts, holds more than max successes. */
  lemma {:induction false} WindowBounded(calls: seq<Time>, from: real, max: int, freq: real)
    requires Ordered(calls) && max > 0 && Window(freq) > 0.0
    ensures |Within(Successes(calls, max, freq), from, freq)| <= max
  {
    if calls != [] {
      var init, now := calls[..|calls| - 1], calls[|calls| - 1];
      var ts := Successes(init, max, freq);
      WindowBounded(init, from, max, freq);
      LogIsRecent(calls, max, freq);
      if LastSucceeds(calls, max, freq) {
        WithinSnoc(ts, now, from, freq);
        if Micros(now) as real < from + Window(freq) {
          WithinIsRecent(ts, from, now, freq);
        }
      } else {
        assert ts + [] == ts;
      }
    }
  }

  // ----- a clock that goes back

  lemma {:induction false} NotWarped(recs: seq<Time>, now: Time)
    ensures Warped(recs, now) <==> !NoneLater(recs, now)
  {
    assert !Warped(recs, now) ==> forall k :: 0 <= k < |recs| ==> !Later(recs[k], now);
  }

  /**
    A call counts the records within the window exactly if none of them is from the future, or they are too few
    to matter: with a clock set back, a call that should fail succeeds.
   */
  lemma {:induction false} WarpForgets(recs: seq<Time>, now: Time, max: int, freq: real)
    requires max > 0
    ensures (Count(recs, now, freq) < max <==> |Recent(recs, now, freq)| < max)
      <==> !(Warped(recs, now) && |Recent(recs, now, freq)| >= max)
  {
    NotWarped(recs, now);
    if !Warped(recs, now) {
      KeptIsRecent(recs, now, freq);
    }
  }

  // No call of the run met a record from the future.
  predicate Straight(calls: seq<Time>, max: int, freq: real) {
    forall k :: 0 <= k < |calls| ==> !Warped(LogAfter(calls[..k], max, freq), calls[k])
  }

  lemma {:induction false} StraightInit(calls: seq<Time>, max: int, freq: real)
    requires calls != [] && Straight(calls, max, freq)
    ensures Straight(calls[..|calls| - 1], max, freq)
    ensures !Warped(LogAfter(calls[..|calls| - 1], max, freq), calls[|calls| - 1])
  {
    var init := calls[..|calls| - 1];
    forall k | 0 <= k < |init| ensures !Warped(LogAfter(init[..k], max, freq), init[k]) {
      assert init[..k] == calls[..k];
    }
  }

  // All of them are recent before an earlier time, if none comes behind it.
  lemma {:induction false} StillAllRecent(ts: seq<Time>, late: Time, now: Time, freq: real)
    requires Micros(now) <= Micros(late)
    ensures |Recent(Recent(ts, late, freq), now, freq)| == |Recent(ts, late, freq)|
  {
    if ts != [] {
      var init, t := ts[..|ts| - 1], ts[|ts| - 1];
      StillAllRecent(init, late, now, freq);
      if Close(late, t, freq) {
        RecentSnoc(Recent(init, late, freq), t, now, freq);
      } else {
        Seqs.NoChange(Recent(init, late, freq));
      }
    }
  }

  /** As long as no record is from the future, the log tells as much as all successes would. */
  lemma {:induction false} StraightLog(calls: seq<Time>, now: Time, max: int, freq: real)
    requires Straight(calls, max, freq) && max > 0 && Window(freq) > 0.0
    requires !Warped(LogAfter(calls, max, freq), now)
    ensures var log, ts := LogAfter(calls, max, freq), Successes(calls, max, freq);
      |Recent(log, now, freq)| >= max || Recent(log, now, freq) == Recent(ts, now, freq)
    decreases |calls|
  {
    if calls != [] {
      var init, c := calls[..|calls| - 1], calls[|calls| - 1];
      var log, ts := LogAfter(init, max, freq), Successes(init, max, freq);
      StraightInit(calls, max, freq);
      StraightLog(init, c, max, freq);
      NotWarped(log, c);
      KeptIsRecent(log, c, freq);
      NotWarped(LogAfter(calls, max, freq), now);
      if LastSucceeds(calls, max, freq) {
        assert LogAfter(calls, max, freq) == Recent(ts, c, freq) + [c];
        assert (Recent(ts, c, freq) + [c])[|Recent(ts, c, freq)|] == c;
        RecentTwice(ts, c, now, freq);
        RecentSnoc(Recent(ts, c, freq), c, now, freq);
        RecentSnoc(ts, c, now, freq);
      } else {
        Seqs.NoChange(Recent(log, c, freq));
        Seqs.NoChange(ts);
        if Micros(now) <= Micros(c) {
          StillAllRecent(log, c, now, freq);
        } else {
          RecentTwice(log, c, now, freq);
          NotWarped(log, now);
          StraightLog(init, now, max, freq);
        }
      }
    }
  }

  lemma {:induction false} KeptRecentFewer(recs: seq<Time>, c: Time, now: Time, freq: real)
    ensures |Recent(Kept(recs, c, freq), now, freq)| <= |Recent(recs, now, freq)|
  {
    if recs != [] {
      var more := Kept(recs[1..], c, freq);
      RecentCons(recs[0], recs[1..], now, freq);
      assert recs == [recs[0]] + recs[1..];
      KeptRecentFewer(recs[1..], c, now, freq);
      RecentCons(recs[0], more, now, freq);
      Seqs.NoChange(more);
    }
  }

  lemma {:induction false} RecentCons(t: Time, ts: seq<Time>, now: Time, freq: real)
    ensures |Recent([t] + ts, now, freq)| == |Recent(ts, now, freq)| + if Close(now, t, freq) then 1 else 0
  {
    if ts == [] {
      assert [t] + ts == [] + [t];
      RecentSnoc([], t, now, freq);
    } else {
      var init, last := ts[..|ts| - 1], ts[|ts| - 1];
      RecentCons(t, init, now, freq);
      assert [t] + ts == ([t] + init) + [last];
      RecentSnoc([t] + init, last, now, freq);
    }
  }

  /** On any clock, the log holds successes only, so that a call with fewer recent ones is never refused. */
  lemma {:induction false} LogHoldsFewer(calls: seq<Time>, now: Time, max: int, freq: real)
    ensures |Recent(LogAfter(calls, max, freq), now, freq)| <= |Recent(Successes(calls, max, freq), now, freq)|
  {
    if calls != [] {
      var init, c := calls[..|calls| - 1], calls[|calls| - 1];
      var log, ts := LogAfter(init, max, freq), Successes(init, max, freq);
      LogHoldsFewer(init, now, max, freq);
      KeptRecentFewer(log, c, now, freq);
      RecentSnoc(Kept(log, c, freq), c, now, freq);
      RecentSnoc(ts, c, now, freq);
      Seqs.NoChange(Kept(log, c, freq));
      Seqs.NoChange(ts);
    }
  }

  /**
    In a run on any clock, up to the first record from the future: the next call succeeds exactly when fewer than
    max successes lie within the window, unless it meets a record from the future while max of them do.
   */
  lemma {:induction false} PromiseKeptIff(calls: seq<Time>, now: Time, max: int, freq: real)
    requires Straight(calls, max, freq) && max > 0 && Window(freq) > 0.0
    ensures var recent := |Recent(Successes(calls, max, freq), now, freq)|;
      (LastSucceeds(calls + [now], max, freq) <==> recent < max)
      <==> !(Warped(LogAfter(calls, max, freq), now) && recent >= max)
  {
    var log := LogAfter(calls, max, freq);
    assert (calls + [now])[..|calls|] == calls;
    WarpForgets(log, now, max, freq);
    LogHoldsFewer(calls, now, max, freq);
    if !Warped(log, now) {
      StraightLog(calls, now, max, freq);
    }
  }

  /** A clock that does not go back meets no record from the future. */
  lemma {:induction false} OrderedIsStraight(calls: seq<Time>, max: int, freq: real)
    requires Ordered(calls)
    ensures Straight(calls, max, freq)
  {
    forall k | 0 <= k < |calls| ensures !Warped(LogAfter(calls[..k], max, freq), calls[k]) {
      LogInCalls(calls[..k], max, freq);
      var log := LogAfter(calls[..k], max, freq);
      forall i | 0 <= i < |log| ensures !Later(log[i], calls[k]) {
        assert log[i] in log && log[i] in calls[..k];
      }
    }
  }

  lemma {:induction false} LogInCalls(calls: seq<Time>, max: int, freq: real)
    ensures forall t :: t in LogAfter(calls, max, freq) ==> t in calls
  {
    if calls != [] {
      LogInCalls(calls[..|calls| - 1], max, freq);
      KeptInRecords(LogAfter(calls[..|calls| - 1], max, freq), calls[|calls| - 1], freq);
    }
  }

  // The calls that met a record from the future.
  function Warps(calls: seq<Time>, max: int, freq: real): nat {
    if calls == [] then 0
    else
      var init := calls[..|calls| - 1];
      Warps(init, max, freq) + if Warped(LogAfter(init, max, freq), calls[|calls| - 1]) then 1 else 0
  }

  // The successes since the last such call, which is one itself.
  function Since(calls: seq<Time>, max: int, freq: real): seq<Time> {
    if calls == [] then []
    else
      var init, c := calls[..|calls| - 1], calls[|calls| - 1];
      if Warped(LogAfter(init, max, freq), c) then [c]
      else Since(init, max, freq) + if LastSucceeds(calls, max, freq) then [c] else []
  }

  // The log tells of them what is needed.
  lemma {:induction false} LogSince(calls: seq<Time>, now: Time, max: int, freq: real)
    requires max > 0 && Window(freq) > 0.0 && !Warped(LogAfter(calls, max, freq), now)
    ensures var log := |Recent(LogAfter(calls, max, freq), now, freq)|;
      log >= max || |Recent(Since(calls, max, freq), now, freq)| <= log
    decreases |calls|
  {
    if calls != [] {
      var init, c := calls[..|calls| - 1], calls[|calls| - 1];
      var log, since := LogAfter(init, max, freq), Since(init, max, freq);
      NotWarped(LogAfter(calls, max, freq), now);
      if Warped(log, c) {
        RecentSnoc(Kept(log, c, freq), c, now, freq);
        RecentSnoc([], c, now, freq);
        assert [] + [c] == [c];
      } else {
        NotWarped(log, c);
        KeptIsRecent(log, c, freq);
        LogSinceStep(calls, now, max, freq);
        if LastSucceeds(calls, max, freq) || Micros(c) < Micros(now) {
          NotWarped(log, now);
          LogSince(init, now, max, freq);
        }
      }
    }
  }

  // From one call to the next, where it meets no record from the future.
  lemma {:induction false} LogSinceStep(calls: seq<Time>, now: Time, max: int, freq: real)
    requires calls != [] && max > 0 && Window(freq) > 0.0
    requires var init, c := calls[..|calls| - 1], calls[|calls| - 1]; var log := LogAfter(init, max, freq);
      !Warped(log, c) && Kept(log, c, freq) == Recent(log, c, freq) && NoneLater(LogAfter(calls, max, freq), now)
    ensures var init, c := calls[..|calls| - 1], calls[|calls| - 1];
      var log, since := LogAfter(init, max, freq), Since(init, max, freq);
      var after, more := |Recent(LogAfter(calls, max, freq), now, freq)|, |Recent(Since(calls, max, freq), now, freq)|;
      if LastSucceeds(calls, max, freq) then
        && Micros(c) <= Micros(now)
        && after - |Recent(log, now, freq)| == more - |Recent(since, now, freq)| >= 0
      else if Micros(c) < Micros(now) then after == |Recent(log, now, freq)| && more == |Recent(since, now, freq)|
      else after >= max
  {
    var init, c := calls[..|calls| - 1], calls[|calls| - 1];
    var log, since := LogAfter(init, max, freq), Since(init, max, freq);
    if LastSucceeds(calls, max, freq) {
      assert LogAfter(calls, max, freq) == Recent(log, c, freq) + [c];
      assert (Recent(log, c, freq) + [c])[|Recent(log, c, freq)|] == c;
      RecentTwice(log, c, now, freq);
      RecentSnoc(Recent(log, c, freq), c, now, freq);
      RecentSnoc(since, c, now, freq);
    } else {
      Seqs.NoChange(Recent(log, c, freq));
      Seqs.NoChange(since);
      if Micros(c) < Micros(now) {
        RecentTwice(log, c, now, freq);
      } else {
        StillAllRecent(log, c, now, freq);
      }
    }
  }

  lemma {:induction false} SinceBounded(calls: seq<Time>, from: real, max: int, freq: real)
    requires max > 0 && Window(freq) > 0.0
    ensures |Within(Since(calls, max, freq), from, freq)| <= max
  {
    if calls != [] {
      var init, c := calls[..|calls| - 1], calls[|calls| - 1];
      var log, since := LogAfter(init, max, freq), Since(init, max, freq);
      SinceBounded(init, from, max, freq);
      WithinSnoc([], c, from, freq);
      assert [] + [c] == [c];
      WithinSnoc(since, c, from, freq);
      Seqs.NoChange(since);
      if !Warped(log, c) && Micros(c) as real < from + Window(freq) {
        LogSince(init, c, max, freq);
        NotWarped(log, c);
        KeptIsRecent(log, c, freq);
        WithinIsRecent(since, from, c, freq);
      }
    }
  }

  /**
    On any clock, no window holds more than max successes for each stretch of calls between those that met a record
    from the future.
   */
  lemma {:induction false} WindowOnAnyClock(calls: seq<Time>, from: real, max: int, freq: real)
    requires max > 0 && Window(freq) > 0.0
    ensures |Within(Successes(calls, max, freq), from, freq)| <= max * (1 + Warps(calls, max, freq))
  {
    WindowSplits(calls, from, max, freq);
    SinceBounded(calls, from, max, freq);
    OnceMore(max, Warps(calls, max, freq));
  }

  lemma {:induction false} OnceMore(m: int, w: nat)
    ensures m * (1 + w) == m * (w + 1) == m * w + m
  {
  }

  lemma {:induction false} WindowSplits(calls: seq<Time>, from: real, max: int, freq: real)
    requires max > 0 && Window(freq) > 0.0
    ensures |Within(Successes(calls, max, freq), from, freq)| <=
      max * Warps(calls, max, freq) + |Within(Since(calls, max, freq), from, freq)|
  {
    if calls != [] {
      var init := calls[..|calls| - 1];
      WindowSplits(init, from, max, freq);
      SinceBounded(init, from, max, freq);
      WindowGrows(calls, from, max, freq);
      OnceMore(max, Warps(init, max, freq));
    }
  }

  // A call adds the same to all successes in a window and to those since the last warp, which starts them anew.
  lemma {:induction false} WindowGrows(calls: seq<Time>, from: real, max: int, freq: real)
    requires calls != [] && max > 0
    ensures var init, c := calls[..|calls| - 1], calls[|calls| - 1];
      var more := |Within(Successes(calls, max, freq), from, freq)| - |Within(Successes(init, max, freq), from, freq)|;
      |Within(Since(calls, max, freq), from, freq)| == more +
        if Warped(LogAfter(init, max, freq), c) then 0 else |Within(Since(init, max, freq), from, freq)|
  {
    var init, c := calls[..|calls| - 1], calls[|calls| - 1];
    var ts, since := Successes(init, max, freq), Since(init, max, freq);
    WithinSnoc(ts, c, from, freq);
    WithinSnoc(since, c, from, freq);
    WithinSnoc([], c, from, freq);
    assert [] + [c] == [c];
    Seqs.NoChange(ts);
    Seqs.NoChange(since);
  }

  lemma {:induction false} StraightIff(calls: seq<Time>, max: int, freq: real)
    ensures Straight(calls, max, freq) <==> Warps(calls, max, freq) == 0
  {
    if calls != [] {
      var init := calls[..|calls| - 1];
      StraightIff(init, max, freq);
      if Straight(calls, max, freq) {
        StraightInit(calls, max, freq);
      }
      if Warps(calls, max, freq) == 0 {
        forall k | 0 <= k < |calls| ensures !Warped(LogAfter(calls[..k], max, freq), calls[k]) {
          if k < |init| {
            assert init[..k] == calls[..k] && init[k] == calls[k];
          }
        }
      }
    }
  }

  lemma {:induction false} MinuteWindow()
    ensures Window(1.0) == 60000000.0
  {
    assert 60.0.Floor == 60;
  }

  lemma {:induction false} BothSucceed()
    ensures Successes([Time(100, 0), Time(50, 0)], 1, 1.0) == [Time(100, 0), Time(50, 0)]
  {
    var a, b := Time(100, 0), Time(50, 0);
    var calls := [a, b];
    assert calls[..1] == [a] && [a][..0] == [];
    assert LogAfter([a], 1, 1.0) == [a];
    assert Later([a][0], b);
    assert Successes([a], 1, 1.0) == [a];
  }

  // With a limit of one per minute, calls at 100 and then, on a clock set back, at 50 seconds both succeed.
  lemma {:induction false} WarpBreaksLimit()
    ensures |Within(Successes([Time(100, 0), Time(50, 0)], 1, 1.0), 50000000.0, 1.0)| == 2
  {
    var a, b := Time(100, 0), Time(50, 0);
    MinuteWindow();
    BothSucceed();
    WithinSnoc([], a, 50000000.0, 1.0);
    WithinSnoc([a], b, 50000000.0, 1.0);
    assert [] + [a] == [a] && [a] + [b] == [a, b];
  }
}
