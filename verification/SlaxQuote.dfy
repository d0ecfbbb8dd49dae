/**
  Quoted strings: printed by the writer, found again by the lexer, decoded into a token.
 */
module SlaxQuote {
  type Byte = n: nat | n < 256

  const NUL: Byte := 0
  const TAB: Byte := 9
  const LF: Byte := 10
  const CR: Byte := 13
  const DQUOTE: Byte := 34
  const SQUOTE: Byte := 39
  const PLUS: Byte := 43
  const MINUS: Byte := 45
  const BACKSLASH: Byte := 92
  const LOWER_N: Byte := 110
  const LOWER_R: Byte := 114
  const LOWER_T: Byte := 116
  const LOWER_U: Byte := 117
  const LOWER_X: Byte := 120

  // ----- the writer

  // SEF_NEWLINE, SEF_DOUBLEQ, SEF_SINGLEQ
  datatype Flags = Flags(newline: bool, doubleq: bool, singleq: bool)

  function EscapedChar(c: Byte, f: Flags): seq<Byte> {
    if c == LF && f.newline then [BACKSLASH, LOWER_N]
    else if c == CR then [BACKSLASH, LOWER_R]
    else if c == DQUOTE && f.doubleq then [BACKSLASH, DQUOTE]
    else if c == BACKSLASH then [BACKSLASH, BACKSLASH]
    else if c == SQUOTE && f.singleq then [BACKSLASH, SQUOTE]
    else [c]
  }

  function Escaped(s: seq<Byte>, f: Flags): seq<Byte> {
    if s == [] then [] else EscapedChar(s[0], f) + Escaped(s[1..], f)
  }

  /** What is printed holds no carriage return, and where the flags say so, no line feed. */
  lemma {:induction false} EscapedLine(s: seq<Byte>, f: Flags)
    ensures 13 !in Escaped(s, f) && (f.newline ==> 10 !in Escaped(s, f))
  {
    if s != [] {
      EscapedLine(s[1..], f);
    }
  }

  lemma {:induction false} EscapedAppend(s: seq<Byte>, t: seq<Byte>, f: Flags)
    ensures Escaped(s + t, f) == Escaped(s, f) + Escaped(t, f)
  {
    if s == [] {
      assert s + t == t;
    } else {
      assert (s + t)[1..] == s[1..] + t;
      EscapedAppend(s[1..], t, f);
    }
  }

  // The delimiter that slaxWriteContent puts around a text written with these flags.
  function Delimiter(f: Flags): Byte {
    if f.singleq then SQUOTE else DQUOTE
  }

  // A text printed with these flags holds no bare delimiter.
  predicate Fenced(s: seq<Byte>, f: Flags, q: Byte) {
    q in s ==> if q == DQUOTE then f.doubleq else f.singleq
  }

  class Writer {
    var buf: seq<Byte>

    constructor ()
      ensures buf == []
    {
      buf := [];
    }

    method WriteEscapedChar(c: Byte, f: Flags)
      modifies this
      ensures buf == old(buf) + EscapedChar(c, f)
    {
      var two: seq<Byte> := [];
      if c == LF {
        if f.newline { two := [LOWER_N]; }
      } else if c == CR {
        two := [LOWER_R];
      } else if c == DQUOTE {
        if f.doubleq { two := [c]; }
      } else if c == BACKSLASH {
        two := [c];
      } else if c == SQUOTE {
        if f.singleq { two := [c]; }
      }
      buf := buf + if two != [] then [BACKSLASH] + two else [c];
    }

    method WriteEscaped(s: seq<Byte>, f: Flags)
      modifies this
      ensures buf == old(buf) + Escaped(s, f)
    {
      var i := 0;
      while i < |s|
        invariant i <= |s|
        invariant buf == old(buf) + Escaped(s[..i], f)
      {
        ghost var before := buf;
        WriteEscapedChar(s[i], f);
        assert s[..i + 1] == s[..i] + [s[i]];
        EscapedAppend(s[..i], [s[i]], f);
        assert Escaped([s[i]], f) == EscapedChar(s[i], f) + Escaped([s[i]][1..], f);
        assert buf == old(buf) + (Escaped(s[..i], f) + EscapedChar(s[i], f));
        i := i + 1;
      }
      assert s[..i] == s;
    }

    // slaxWriteContentQuote: the first quote met decides.
    method ContentQuote(s: seq<Byte>) returns (f: Flags)
      ensures Fenced(s, f, Delimiter(f)) && f.newline
      ensures Delimiter(f) == SQUOTE <==> DQUOTE in s && (SQUOTE in s ==> First(s, DQUOTE) < First(s, SQUOTE))
    {
      for i := 0 to |s|
        invariant SQUOTE !in s[..i] && DQUOTE !in s[..i]
      {
        FirstAt(s, i);
        assert s == s[..i] + s[i..];
        if s[i] == SQUOTE {
          return Flags(true, true, false);
        } else if s[i] == DQUOTE {
          return Flags(true, false, true);
        }
        assert s[..i + 1] == s[..i] + [s[i]];
      }
      assert s[..|s|] == s;
      return Flags(true, false, false);
    }

    /** One text node of slaxWriteContent. */
    method WriteText(s: seq<Byte>) returns (f: Flags)
      modifies this
      ensures Fenced(s, f, Delimiter(f))
      ensures buf == old(buf) + [Delimiter(f)] + Escaped(s, f) + [Delimiter(f)]
    {
      f := ContentQuote(s);
      var quote := if f.singleq then SQUOTE else DQUOTE;
      buf := buf + [quote];
      WriteEscaped(s, f);
      buf := buf + [quote];
    }
  }

  // Where a byte first occurs; the length if it does not.
  function First(s: seq<Byte>, c: Byte): nat {
    if s == [] || s[0] == c then 0 else 1 + First(s[1..], c)
  }

  lemma {:induction false} FirstAt(s: seq<Byte>, i: nat)
    requires i < |s| && SQUOTE !in s[..i] && DQUOTE !in s[..i]
    ensures s[i] == SQUOTE ==> First(s, SQUOTE) == i < First(s, DQUOTE)
    ensures s[i] == DQUOTE ==> First(s, DQUOTE) == i < First(s, SQUOTE)
  {
    if i > 0 {
      assert s[0] in s[..i];
      assert forall c: Byte :: c in s[1..][..i - 1] ==> c in s[..i] by {
        assert s[1..][..i - 1] == s[..i][1..];
      }
      FirstAt(s[1..], i - 1);
    }
  }

  // ----- the lexer

  datatype Option<T> = None | Some(value: T)

  /** Where the closing quote of a string ends, when its body starts at i. */
  function Scan(text: seq<Byte>, i: nat, q: Byte, xpath: bool): (end: Option<nat>)
    ensures end.Some? ==> i < end.value <= |text| && text[end.value - 1] == q
    decreases |text| - i
  {
    if i >= |text| then None
    else if text[i] == q then Some(i + 1)
    else if text[i] == BACKSLASH && !xpath then Scan(text, i + 2, q, xpath)
    else Scan(text, i + 1, q, xpath)
  }

  function Flat(feed: seq<seq<Byte>>): seq<Byte> {
    if feed == [] then [] else feed[0] + Flat(feed[1..])
  }

  /** Byte j of line k stands behind all the lines before it. */
  lemma {:induction false} FlatBytes(feed: seq<seq<Byte>>, k: nat)
    requires k < |feed|
    ensures var at := |Flat(feed[..k])|;
      && at + |feed[k]| <= |Flat(feed)| && Flat(feed)[at..at + |feed[k]|] == feed[k]
      && (k + 1 == |feed| ==> at + |feed[k]| == |Flat(feed)|) && (k == 0 ==> at == 0)
  {
    if k == 0 {
      assert feed[..0] == [];
      assert k + 1 == |feed| ==> feed[1..] == [];
    } else {
      var rest := feed[1..];
      FlatBytes(rest, k - 1);
      assert feed[..k][0] == feed[0] && feed[..k][1..] == rest[..k - 1];
      var a, at := feed[0], |Flat(rest[..k - 1])|;
      assert Flat(feed)[|a| + at..|a| + at + |feed[k]|] == Flat(rest)[at..at + |feed[k]|];
    }
  }

  // How a turn of the scan ends.
  datatype Turn = More | Found | Ended

  datatype Token = TQuoted | TUnterminated | EndOfInput

  const SD_BUF_FUDGE: nat := 128
  const SD_BUF_INCR: nat := 8192

  class Lexer {
    var buf: seq<Byte>        // sd_buf[..sd_len]
    var size: nat             // sd_size
    var start: nat            // sd_start
    var cur: nat              // sd_cur
    var feed: seq<seq<Byte>>  // what fgets will still deliver, line by line

    ghost predicate Valid()
      reads this
    {
      && start <= cur <= |buf|
      && forall k: nat :: k < |feed| ==> feed[k] != []
    }

    // Everything from the start of the current token on, read or not.
    ghost function Text(): seq<Byte>
      requires Valid()
      reads this
    {
      buf[start..] + Flat(feed)
    }

    ghost function Pos(): nat
      requires Valid()
      reads this
    {
      cur - start
    }

    constructor (lines: seq<seq<Byte>>)
      requires forall k: nat :: k < |lines| ==> lines[k] != []
      ensures Valid() && Text() == Flat(lines) && Pos() == 0 && cur == |buf|
    {
      buf, size, start, cur, feed := [], 0, 0, 0, lines;
      new;
      assert buf[start..] + Flat(feed) == Flat(lines);
    }

    // slaxGetInput when all that was read is used up; true means no more input.
    method GetInput() returns (fail: bool)
      requires Valid() && cur == |buf|
      modifies this
      ensures Valid() && Text() == old(Text()) && Pos() == old(Pos())
      ensures fail <==> Pos() == |Text()|
      ensures !fail ==> cur < |buf|
      ensures size == old(size) + if old(|buf|) + 128 > old(size) && old(start) <= 128 then 8192 else 0
      ensures start == if old(|buf|) + 128 > old(size) && old(start) > 128 then 0 else old(start)
    {
      if |buf| + SD_BUF_FUDGE > size {
        if start > SD_BUF_FUDGE {
          buf, cur, start := buf[start..], cur - start, 0;
        } else {
          size := size + SD_BUF_INCR;
        }
      }
      assert Text() == old(Text());
      if feed == [] { return true; }
      assert buf[start..] + (feed[0] + Flat(feed[1..])) == (buf + feed[0])[start..] + Flat(feed[1..]);
      buf, feed := buf + feed[0], feed[1..];
      return false;
    }

    // slaxMoveCur; true means the end of input. The point stays when it was already past all that was read.
    method MoveCur() returns (fail: bool)
      requires Valid()
      modifies this
      ensures Valid() && Text() == old(Text())
      ensures fail <==> old(Pos()) + (if old(cur < |buf|) then 1 else 0) >= |Text()|
      ensures !fail ==> Pos() == old(Pos()) + (if old(cur < |buf|) then 1 else 0) && cur < |buf|
      ensures fail ==> Pos() == old(Pos())
    {
      var moved := cur < |buf|;
      if moved { cur := cur + 1; }
      if cur == |buf| {
        fail := GetInput();
        if fail {
          if moved { cur := cur - 1; }
          return true;
        }
      }
      return false;
    }

    // Over what was read.
    method Advance(n: nat)
      requires Valid() && cur + n <= |buf|
      modifies `cur
      ensures Valid() && Text() == old(Text()) && Pos() == old(Pos()) + n && cur == old(cur) + n
    {
      cur := cur + n;
    }

    lemma {:induction false} PointIsRead()
      requires Valid()
      ensures cur < |buf| ==> Pos() < |Text()| && Text()[Pos()] == buf[cur]
    {
    }

    lemma {:induction false} RestIsRead(k: nat)
      requires Valid() && start + k <= |buf|
      ensures var t := buf[start + k..]; |t| <= |Text()| - k && t == Text()[k..k + |t|]
    {
    }

    // One turn of the scan for the closing quote: over a byte, over an escaped pair, or to the end.
    method ScanTurn(ch1: Byte, xpath: bool) returns (turn: Turn)
      requires Valid()
      modifies this
      ensures Valid() && Text() == old(Text())
      ensures turn == Found ==> Pos() == old(Pos()) < |Text()| && Text()[Pos()] == ch1 && cur < |buf|
      ensures turn == Ended ==> Scan(Text(), old(Pos()), ch1, xpath) == None
      ensures turn == More ==>
        && old(Pos()) < Pos() <= |Text()|
        && Scan(Text(), Pos(), ch1, xpath) == Scan(Text(), old(Pos()), ch1, xpath)
    {
      if cur == |buf| {
        var none := GetInput();
        if none { return Ended; }
      }
      PointIsRead();
      if buf[cur] == ch1 { return Found; }
      var bump := if buf[cur] == BACKSLASH then 1 else 0;
      var fail := MoveCur();
      if fail { return Ended; }
      if bump == 1 && !xpath && cur < |buf| {
        Advance(bump);
      }
      return More;
    }

    /**
      The quoted-string branch of slaxLexer, with the point on the opening quote: however the input
      is cut into lines, the token runs to the first closing quote that Scan finds.
     */
    method ScanQuoted(xpath: bool) returns (tok: Token)
      requires Valid() && cur < |buf|
      modifies this
      ensures Valid() && Text() == old(Text())
      ensures var end := Scan(old(Text()), old(Pos()) + 1, old(buf[cur]), xpath);
        if tok == TQuoted then end == Some(Pos()) else end == None
      ensures tok == EndOfInput <==> old(Pos()) + 1 == |old(Text())|
    {
      var ch1 := buf[cur];
      ghost var text, pos := Text(), Pos();
      PointIsRead();
      var fail := MoveCur();
      if fail { return EndOfInput; }
      var turn := More;
      while turn == More
        invariant Valid() && Text() == text && pos + 1 < |text|
        invariant turn == More ==>
          pos < Pos() <= |text| && Scan(text, Pos(), ch1, xpath) == Scan(text, pos + 1, ch1, xpath)
        invariant turn == Found ==> Scan(text, pos + 1, ch1, xpath) == Some(Pos() + 1) && cur < |buf|
        invariant turn == Ended ==> Scan(text, pos + 1, ch1, xpath) == None
        decreases turn == More, |text| - Pos()
      {
        turn := ScanTurn(ch1, xpath);
      }
      if turn == Ended { return TUnterminated; }
      if cur < |buf| { Advance(1); }
      return TQuoted;
    }
  }

  // ----- the decoder

  function Hex(c: int): (v: int)
    ensures v == -1 || 0 <= v < 16
  {
    if 48 <= c <= 57 then c - 48
    else if 97 <= c <= 102 then c - 97 + 10
    else if 65 <= c <= 70 then c - 65 + 10
    else -1
  }

  function At(t: seq<Byte>, i: nat): Byte {
    if i < |t| then t[i] else NUL
  }

  const UTF_WIDTH4: nat := 4
  const UTF_WIDTH6: nat := 6
  const UTF_INVALID_NUMBER: nat := 0xfffd

  // slaxUtfWord
  function UtfWord(t: seq<Byte>, i: nat, width: nat): (val: nat)
    requires width == UTF_WIDTH4 || width == UTF_WIDTH6
    ensures val < if width == UTF_WIDTH4 then 0x10000 else 0x1000000
  {
    var v1, v2, v3, v4 := Hex(At(t, i)), Hex(At(t, i + 1)), Hex(At(t, i + 2)), Hex(At(t, i + 3));
    if v1 < 0 || v2 < 0 || v3 < 0 || v4 < 0 then UTF_INVALID_NUMBER else
    var val := ((v1 * 16 + v2) * 16 + v3) * 16 + v4;
    if width == UTF_WIDTH4 then val else
    var v5, v6 := Hex(At(t, i + 4)), Hex(At(t, i + 5));
    if v5 < 0 || v6 < 0 then UTF_INVALID_NUMBER else (val * 16 + v5) * 16 + v6
  }

  // The bytes written for a code point.
  function Utf8(w: nat): seq<Byte>
    requires w < 0x1000000
  {
    if w <= 0x7f then [w]
    else if w <= 0x7ff then [0xc0 + w / 64, 0x80 + w % 64]
    else if w <= 0xffff then [0xe0 + w / 4096, 0x80 + w / 64 % 64, 0x80 + w % 64]
    else [0xf0 + w / 262144 % 8, 0x80 + w / 4096 % 64, 0x80 + w / 64 % 64, 0x80 + w % 64]
  }

  // The code point that a UTF-8 sequence stands for (section 3 of RFC 3629): the shortest form only, no
  // surrogates, nothing beyond 10FFFF.
  function CodePoint(b: seq<Byte>): Option<int> {
    if |b| == 1 && b[0] < 0x80 then Some(b[0])
    else if |b| == 2 && 0xc2 <= b[0] < 0xe0 && Tail(b[1]) then Some(Join(b[0] - 0xc0, b[1]))
    else if |b| == 3 && 0xe0 <= b[0] < 0xf0 && Tail(b[1]) && Tail(b[2]) then
      var w := Join(Join(b[0] - 0xe0, b[1]), b[2]);
      if 0x800 <= w && !(0xd800 <= w < 0xe000) then Some(w) else None
    else if |b| == 4 && 0xf0 <= b[0] < 0xf5 && Tail(b[1]) && Tail(b[2]) && Tail(b[3]) then
      var w := Join(Join(Join(b[0] - 0xf0, b[1]), b[2]), b[3]);
      if 0x10000 <= w <= 0x10ffff then Some(w) else None
    else None
  }

  function Join(high: int, b: Byte): int {
    high * 64 + (b as int - 0x80)
  }

  predicate Tail(b: Byte) {
    0x80 <= b < 0xc0
  }

  /** The bytes of a \\u escape are the UTF-8 form of its number exactly when that is a Unicode scalar value. */
  lemma {:induction false} Utf8IsUtf8(w: nat)
    requires w < 0x1000000
    ensures CodePoint(Utf8(w)) == Some(w) <==> w < 0xd800 || 0xe000 <= w <= 0x10ffff
  {
    if w > 0xffff {
      FourBytes(w);
    } else {
      assert w / 64 == 64 * (w / 4096) + w / 64 % 64;
      assert w == 64 * (w / 64) + w % 64;
    }
  }

  lemma {:induction false} FourBytes(w: nat)
    requires 0xffff < w < 0x1000000
    ensures CodePoint(Utf8(w)) == Some(w) <==> w <= 0x10ffff
  {
    var a, b, c, d := w / 262144, w / 4096 % 64, w / 64 % 64, w % 64;
    assert w / 64 == 64 * (w / 4096) + c;
    assert w / 4096 == 64 * a + b;
    assert w == 64 * (w / 64) + d;
    assert w == 262144 * a + 4096 * b + 64 * c + d && 0 <= a < 64;
    var e := a % 8;
    var v := 262144 * e + 4096 * b + 64 * c + d;
    JoinFour(e, b, c, d);
    assert Utf8(w) == [0xf0 + e, 0x80 + b, 0x80 + c, 0x80 + d];
    assert CodePoint(Utf8(w)) == if e < 5 && 0x10000 <= v <= 0x10ffff then Some(v) else None;
    assert v == w <==> e == a;
  }

  lemma {:induction false} JoinFour(a: nat, b: nat, c: nat, d: nat)
    requires b < 64 && c < 64 && d < 64
    ensures Join(Join(Join(a, 0x80 + b), 0x80 + c), 0x80 + d) == 262144 * a + 4096 * b + 64 * c + d
  {
  }

  // What one escape gives and where decoding goes on.
  datatype Piece = Piece(out: seq<Byte>, next: nat)

  // The escape whose letter stands at k, inside a text that ends at len.
  function Escape(t: seq<Byte>, k: nat, len: nat): (p: Piece)
    requires k < len <= |t|
    ensures p.next > k
  {
    if t[k] == LOWER_N then Piece([LF], k + 1)
    else if t[k] == LOWER_R then Piece([CR], k + 1)
    else if t[k] == LOWER_T then Piece([TAB], k + 1)
    else if t[k] == LOWER_X then
      var v1, v2 := Hex(At(t, k + 1)), Hex(At(t, k + 2));
      Piece(if v1 >= 0 && v2 >= 0 then Utf8(v1 * 16 + v2) else [LOWER_X], k + 3)
    else if t[k] == LOWER_U then
      if At(t, k + 1) == PLUS && len - (k + 1) >= UTF_WIDTH4 then
        Piece(Utf8(UtfWord(t, k + 2, UTF_WIDTH4)), k + UTF_WIDTH4 + 3)
      else if At(t, k + 1) == MINUS && len - (k + 1) >= UTF_WIDTH6 then
        Piece(Utf8(UtfWord(t, k + 2, UTF_WIDTH6)), k + UTF_WIDTH6 + 3)
      else Piece([LOWER_U], k + 1)
    else Piece([t[k]], k + 1)
  }

  // The base-16 digit for n, in either case.
  predicate DigitOf(b: Byte, n: nat)
    requires n < 16
  {
    b == "0123456789abcdef"[n] as int || b == "0123456789ABCDEF"[n] as int
  }

  lemma {:induction false} HexReads(b: Byte, n: nat)
    requires n < 16
    ensures DigitOf(b, n) <==> Hex(b) == n
  {
    var lower, upper := "0123456789abcdef", "0123456789ABCDEF";
    if n < 10 {
      assert lower[n] as int == upper[n] as int == 48 + n;
    } else {
      assert lower[n] as int == 87 + n && upper[n] as int == 55 + n;
    }
  }

  // The bytes at i are w written in base 16 with this many digits.
  predicate Spelled(t: seq<Byte>, i: nat, width: nat, w: nat) {
    if width == 0 then w == 0
    else i + width <= |t| && DigitOf(t[i + width - 1], w % 16) && Spelled(t, i, width - 1, w / 16)
  }

  /** The digits of a number in base 16 are read as that number. */
  lemma {:induction false} UtfWordReads(t: seq<Byte>, i: nat, width: nat, w: nat)
    requires (width == UTF_WIDTH4 || width == UTF_WIDTH6) && Spelled(t, i, width, w)
    ensures UtfWord(t, i, width) == w
  {
    var rest := if width == UTF_WIDTH4 then w else w / 16 / 16;
    if width == UTF_WIDTH6 {
      assert w == 16 * (w / 16) + w % 16 && w / 16 == 16 * rest + w / 16 % 16;
      assert Spelled(t, i, 5, w / 16) && Spelled(t, i, 4, rest);
      HexReads(t[i + 5], w % 16);
      HexReads(t[i + 4], w / 16 % 16);
    }
    FourReads(t, i, rest);
  }

  lemma {:induction false} PairReads(t: seq<Byte>, i: nat, w: nat)
    requires Spelled(t, i, 2, w)
    ensures Hex(At(t, i)) >= 0 && Hex(At(t, i + 1)) >= 0 && w == 16 * Hex(At(t, i)) + Hex(At(t, i + 1))
  {
    assert Spelled(t, i, 1, w / 16);
    SpelledOne(t, i, w / 16);
    HexReads(t[i + 1], w % 16);
  }

  lemma {:induction false} SpelledOne(t: seq<Byte>, i: nat, w: nat)
    requires Spelled(t, i, 1, w)
    ensures i < |t| && Hex(At(t, i)) == w < 16
  {
    assert Spelled(t, i, 0, w / 16);
    HexReads(t[i], w % 16);
  }

  lemma {:induction false} FourReads(t: seq<Byte>, i: nat, w: nat)
    requires Spelled(t, i, 4, w)
    ensures UtfWord(t, i, UTF_WIDTH4) == w && forall k :: i <= k < i + 4 ==> Hex(At(t, k)) >= 0
  {
    var a, b := w / 16, w / 16 / 16;
    assert w == 16 * a + w % 16 && a == 16 * b + a % 16;
    assert Spelled(t, i, 3, a) && Spelled(t, i, 2, b);
    HexReads(t[i + 3], w % 16);
    HexReads(t[i + 2], a % 16);
    PairReads(t, i, b);
  }

  /** The escapes of a single letter; any other byte stands for itself. */
  lemma {:induction false} LetterEscapes(t: seq<Byte>, k: nat, len: nat)
    requires k < len <= |t|
    ensures var p := Escape(t, k, len); var letter := t[k] as char;
      && (letter == 'n' ==> p == Piece([10], k + 1))
      && (letter == 'r' ==> p == Piece([13], k + 1))
      && (letter == 't' ==> p == Piece([9], k + 1))
      && (letter !in {'n', 'r', 't', 'u', 'x'} ==> p == Piece([t[k]], k + 1))
  {
    assert t[k] as char == 'x' <==> t[k] == 120;
  }

  lemma {:induction false} HexOut(t: seq<Byte>, k: nat, len: nat, w: nat)
    requires k < len <= |t| && t[k] == LOWER_X && Hex(At(t, k + 1)) >= 0 && Hex(At(t, k + 2)) >= 0
    requires w == 16 * Hex(At(t, k + 1)) + Hex(At(t, k + 2))
    ensures w < 256 && Escape(t, k, len) == Piece(Utf8(w), k + 3)
  {
  }

  /** \xHH is the character with that number. */
  lemma {:induction false} HexEscape(t: seq<Byte>, k: nat, len: nat, w: nat)
    requires k < len <= |t| && t[k] as char == 'x' && Spelled(t, k + 1, 2, w)
    ensures CodePoint(Escape(t, k, len).out) == Some(w) && Escape(t, k, len).next == k + 3
  {
    PairReads(t, k + 1, w);
    HexOut(t, k, len, w);
    Utf8IsUtf8(w);
  }

  /** \u is followed by a plus and four digits, or a minus and six. */
  lemma {:induction false} UnicodeEscape(t: seq<Byte>, k: nat, len: nat, six: bool, w: nat)
    requires k + (if six then 7 else 5) < len <= |t|
    requires t[k] as char == 'u' && t[k + 1] as char == (if six then '-' else '+')
    requires Spelled(t, k + 2, if six then 6 else 4, w)
    ensures w < 0x1000000
    ensures CodePoint(Escape(t, k, len).out) == Some(w) <==> w < 0xd800 || 0xe000 <= w <= 0x10ffff
  {
    UtfWordReads(t, k + 2, if six then UTF_WIDTH6 else UTF_WIDTH4, w);
    assert Escape(t, k, len).out == Utf8(w);
    Utf8IsUtf8(w);
  }

  // The token, and whether a backslash at the very end was complained about.
  datatype Decoded = Decoded(token: seq<Byte>, trailing: bool)

  // One turn of the decoding loop, unless it is stopped by a backslash at the end.
  function Step(t: seq<Byte>, i: nat, len: nat, xpath: bool): (p: Piece)
    requires i < len <= |t| && !Trailing(t, i, len, xpath)
    ensures p.next > i
  {
    if t[i] == BACKSLASH && !xpath then Escape(t, i + 1, len) else Piece([t[i]], i + 1)
  }

  predicate Trailing(t: seq<Byte>, i: nat, len: nat, xpath: bool)
    requires i < len <= |t|
  {
    t[i] == BACKSLASH && !xpath && i == len - 1
  }

  function Decode(t: seq<Byte>, i: nat, len: nat, xpath: bool): Decoded
    requires len <= |t|
    decreases len - i
  {
    if i >= len then Decoded([], false)
    else if Trailing(t, i, len, xpath) then Decoded([], true)
    else
      var p := Step(t, i, len, xpath);
      var d := Decode(t, p.next, len, xpath);
      d.(token := p.out + d.token)
  }

  /** Inside an XPath expression no backslash is an escape: a string is its bytes. */
  lemma {:induction false} XPathVerbatim(t: seq<Byte>, i: nat, len: nat)
    requires i <= len <= |t|
    ensures Decode(t, i, len, true) == Decoded(t[i..len], false)
    decreases len - i
  {
    if i < len {
      XPathVerbatim(t, i + 1, len);
      assert t[i..len] == [t[i]] + t[i + 1..len];
    }
  }

  lemma {:induction false} StepFits(t: seq<Byte>, i: nat, len: nat, xpath: bool)
    requires i < len < |t| && Hex(t[len]) < 0 && !Trailing(t, i, len, xpath)
    ensures var p := Step(t, i, len, xpath); |p.out| <= p.next - i && 1 <= |p.out| <= len - i
  {
  }

  /** The decoded token never outgrows the quoted text, so the room allocated for it suffices. */
  lemma {:induction false} DecodeFits(t: seq<Byte>, i: nat, len: nat, xpath: bool)
    requires i <= len < |t| && Hex(t[len]) < 0
    ensures |Decode(t, i, len, xpath).token| <= len - i
    decreases len - i
  {
    if i < len && !Trailing(t, i, len, xpath) {
      StepFits(t, i, len, xpath);
      var p := Step(t, i, len, xpath);
      if p.next <= len {
        DecodeFits(t, p.next, len, xpath);
      }
    }
  }

  // ----- there and back

  // The printed text sits in t from i up to len.
  predicate Holds(t: seq<Byte>, i: nat, len: nat, s: seq<Byte>, f: Flags) {
    i <= len <= |t| && t[i..len] == Escaped(s, f)
  }

  lemma {:induction false} HoldsStep(t: seq<Byte>, i: nat, len: nat, s: seq<Byte>, f: Flags)
    requires Holds(t, i, len, s, f) && s != []
    ensures var e := EscapedChar(s[0], f);
      i + |e| <= len && t[i] == e[0] && (|e| == 2 ==> t[i + 1] == e[1]) && Holds(t, i + |e|, len, s[1..], f)
  {
    var e := EscapedChar(s[0], f);
    assert t[i..len][0] == t[i] && t[i..len][|e|..] == t[i + |e|..len];
    assert |e| == 2 ==> t[i..len][1] == t[i + 1];
  }

  lemma {:induction false} EscapedStep(t: seq<Byte>, i: nat, len: nat, s: seq<Byte>, f: Flags) returns (next: nat)
    requires Holds(t, i, len, s, f) && s != []
    ensures next <= len && Holds(t, next, len, s[1..], f)
    ensures var rest := Decode(t, next, len, false);
      Decode(t, i, len, false) == Decoded([s[0]] + rest.token, rest.trailing)
  {
    HoldsStep(t, i, len, s, f);
    var e := EscapedChar(s[0], f);
    next := i + |e|;
    assert !Trailing(t, i, len, false) && Step(t, i, len, false) == Piece([s[0]], next);
    DecodeStep(t, i, len, [s[0]], next);
  }

  lemma {:induction false} DecodeEscaped(t: seq<Byte>, i: nat, len: nat, s: seq<Byte>, f: Flags)
    requires Holds(t, i, len, s, f)
    ensures Decode(t, i, len, false) == Decoded(s, false)
    decreases |s|
  {
    if s != [] {
      var next := EscapedStep(t, i, len, s, f);
      DecodeEscaped(t, next, len, s[1..], f);
      assert [s[0]] + s[1..] == s;
    }
  }

  // The scan ends at a bare delimiter, and passes over anything else that is printed.
  lemma {:induction false} ScanChar(t: seq<Byte>, i: nat, c: Byte, f: Flags, q: Byte)
    requires q == DQUOTE || q == SQUOTE
    requires var e := EscapedChar(c, f); i + |e| <= |t| && t[i] == e[0] && (|e| == 2 ==> t[i + 1] == e[1])
    ensures Scan(t, i, q, false) ==
      if c == q && Fenced([c], f, q) == false then Some(i + 1) else Scan(t, i + |EscapedChar(c, f)|, q, false)
  {
    assert [c][0] == c;
  }

  lemma {:induction false} FencedCons(s: seq<Byte>, f: Flags, q: Byte)
    requires s != []
    ensures Fenced(s, f, q) <==> Fenced([s[0]], f, q) && Fenced(s[1..], f, q)
  {
    assert s == [s[0]] + s[1..];
  }

  lemma {:induction false} ScanFirst(t: seq<Byte>, i: nat, len: nat, s: seq<Byte>, f: Flags, q: Byte)
    requires Holds(t, i, len, s, f) && s != [] && (q == DQUOTE || q == SQUOTE)
    ensures var next := i + |EscapedChar(s[0], f)|;
      && i < next <= len && Holds(t, next, len, s[1..], f)
      && (if Fenced([s[0]], f, q) then Scan(t, i, q, false) == Scan(t, next, q, false)
          else Scan(t, i, q, false) == Some(i + 1))
      && (Fenced(s, f, q) <==> Fenced([s[0]], f, q) && Fenced(s[1..], f, q))
  {
    HoldsStep(t, i, len, s, f);
    ScanChar(t, i, s[0], f, q);
    FencedCons(s, f, q);
    assert s[0] != q ==> Fenced([s[0]], f, q);
  }

  // A fenced text is passed over whole; otherwise the string ends at its first bare delimiter.
  lemma {:induction false} ScanEscaped(t: seq<Byte>, i: nat, len: nat, s: seq<Byte>, f: Flags, q: Byte)
    requires Holds(t, i, len, s, f) && len < |t| && t[len] == q && (q == DQUOTE || q == SQUOTE)
    ensures Scan(t, i, q, false).Some?
    ensures Scan(t, i, q, false).value == len + 1 <==> Fenced(s, f, q)
    ensures Scan(t, i, q, false).value <= len + 1
    decreases |s|
  {
    if s == [] {
    } else {
      ScanFirst(t, i, len, s, f, q);
      ScanEscaped(t, i + |EscapedChar(s[0], f)|, len, s[1..], f, q);
    }
  }

  // The printed form of a text, and whatever follows it.
  function Printed(s: seq<Byte>, f: Flags, q: Byte, rest: seq<Byte>): seq<Byte> {
    [q] + Escaped(s, f) + [q] + rest
  }

  /**
    Printed and read again: the lexer takes exactly the printed text, whatever follows, if and only if
    the flags escape every occurrence of the delimiter; what is then decoded is the text that was printed.
   */
  lemma {:induction false} QuoteRoundTrip(s: seq<Byte>, f: Flags, q: Byte, rest: seq<Byte>)
    requires q == DQUOTE || q == SQUOTE
    ensures Scan(Printed(s, f, q, rest), 1, q, false) == Some(|Escaped(s, f)| + 2) <==> Fenced(s, f, q)
    ensures Decode(Printed(s, f, q, rest)[1..], 0, |Escaped(s, f)|, false) == Decoded(s, false)
  {
    var t := Printed(s, f, q, rest);
    var n := |Escaped(s, f)|;
    assert t[1..n + 1] == Escaped(s, f);
    ScanEscaped(t, 1, n + 1, s, f, q);
    assert t[1..][0..n] == Escaped(s, f);
    DecodeEscaped(t[1..], 0, n, s, f);
  }

  // The letter at k starts a \\u escape with enough text for its digits.
  predicate Unicode(t: seq<Byte>, k: nat, len: nat)
    requires k < len <= |t|
  {
    t[k] == LOWER_U &&
    ((At(t, k + 1) == PLUS && len - (k + 1) >= UTF_WIDTH4) || (At(t, k + 1) == MINUS && len - (k + 1) >= UTF_WIDTH6))
  }

  function WordAt(t: seq<Byte>, k: nat, len: nat): (w: nat)
    requires k < len <= |t| && Unicode(t, k, len)
    ensures w < 0x1000000
  {
    UtfWord(t, k + 2, if At(t, k + 1) == PLUS then UTF_WIDTH4 else UTF_WIDTH6)
  }

  predicate HexPair(t: seq<Byte>, k: nat) {
    Hex(At(t, k)) >= 0 && Hex(At(t, k + 1)) >= 0
  }

  // The letter at k stands for itself behind a backslash.
  predicate StandsAlone(t: seq<Byte>, k: nat, len: nat)
    requires k < len <= |t|
  {
    t[k] != LOWER_N && t[k] != LOWER_R && t[k] != LOWER_T && t[k] != LOWER_X && !Unicode(t, k, len)
  }

  // The byte at d does no harm when it is lost: there is none, or an odd number of backslashes comes before a
  // byte that stands for itself.
  predicate Harmless(t: seq<Byte>, d: nat, len: nat)
    requires len <= |t|
    decreases len - d
  {
    d >= len ||
    (t[d] == BACKSLASH && d + 1 < len &&
     if t[d + 1] == BACKSLASH then d + 2 < len && t[d + 2] == BACKSLASH && Harmless(t, d + 2, len)
     else StandsAlone(t, d + 1, len))
  }

  // Backslashes before an escape that gives the very byte it would be compared with, or before an x without
  // two digits.
  predicate Tangled(t: seq<Byte>, d: nat, len: nat)
    requires len <= |t|
    decreases len - d
  {
    d + 1 < len && t[d] == BACKSLASH &&
    if t[d + 1] != BACKSLASH then
      (t[d + 1] == LOWER_X && !HexPair(t, d + 2)) || (Unicode(t, d + 1, len) && WordAt(t, d + 1, len) == LOWER_U)
    else
      d + 2 < len && if t[d + 2] == BACKSLASH then Tangled(t, d + 2, len)
                     else Unicode(t, d + 2, len) && WordAt(t, d + 2, len) == BACKSLASH
  }

  lemma {:induction false} DecodeStep(t: seq<Byte>, i: nat, len: nat, out: seq<Byte>, next: nat)
    requires i < len <= |t| && !Trailing(t, i, len, false) && Step(t, i, len, false) == Piece(out, next)
    ensures Decode(t, i, len, false) ==
      Decoded(out + Decode(t, next, len, false).token, Decode(t, next, len, false).trailing)
  {
  }

  lemma {:induction false} DecodePlain(t: seq<Byte>, i: nat, len: nat)
    requires i < len <= |t| && t[i] != BACKSLASH
    ensures Decode(t, i, len, false).token == [t[i]] + Decode(t, i + 1, len, false).token
  {
    DecodeStep(t, i, len, [t[i]], i + 1);
  }

  // Two hexadecimal digits behind an x at k lie inside the text, and are taken as they are from there.
  lemma {:induction false} DecodeHexPair(t: seq<Byte>, k: nat, len: nat)
    requires k < len <= |t| && Hex(At(t, len)) < 0 && t[k] == LOWER_X && HexPair(t, k + 1)
    ensures k + 2 < len
    ensures |Decode(t, k, len, false).token| == 3 + |Decode(t, k + 3, len, false).token|
  {
    DecodePlain(t, k, len);
    DecodePlain(t, k + 1, len);
    DecodePlain(t, k + 2, len);
  }

  // A single backslash lost in front of a letter.
  lemma {:induction false} OneSwallowed(t: seq<Byte>, d: nat, len: nat)
    requires d + 1 < len <= |t| && Hex(At(t, len)) < 0 && t[d] == BACKSLASH && t[d + 1] != BACKSLASH
    requires !Tangled(t, d, len)
    ensures Decode(t, d, len, false) == Decode(t, d + 1, len, false) <==> StandsAlone(t, d + 1, len)
  {
    var k := d + 1;
    var p := Escape(t, k, len);
    DecodeStep(t, d, len, p.out, p.next);
    DecodeStep(t, k, len, [t[k]], k + 1);
    if t[k] == LOWER_X {
      DecodeHexPair(t, k, len);
    } else if !StandsAlone(t, k, len) {
      EscapeStarts(t, k, len);
      assert Decode(t, d, len, false).token[0] == p.out[0] && Decode(t, k, len, false).token[0] == t[k];
    }
  }

  // What an escape that changes its letter starts with.
  lemma {:induction false} EscapeStarts(t: seq<Byte>, k: nat, len: nat)
    requires k < len <= |t| && t[k] != LOWER_X && !StandsAlone(t, k, len)
    requires Unicode(t, k, len) ==> WordAt(t, k, len) != LOWER_U
    ensures Escape(t, k, len).out != [] && Escape(t, k, len).out[0] != t[k]
  {
    if Unicode(t, k, len) {
      EscapeIsWord(t, k, len);
      Utf8Starts(WordAt(t, k, len), t[k]);
    }
  }

  lemma {:induction false} EscapeIsWord(t: seq<Byte>, k: nat, len: nat)
    requires k < len <= |t| && Unicode(t, k, len)
    ensures Escape(t, k, len).out == Utf8(WordAt(t, k, len))
  {
  }

  lemma {:induction false} Utf8Starts(w: nat, c: Byte)
    requires w < 0x1000000 && c < 0x80 && w != c
    ensures Utf8(w) != [] && Utf8(w)[0] != c
  {
  }

  lemma {:induction false} EscapeNoBackslash(t: seq<Byte>, k: nat, len: nat)
    requires k < len <= |t| && t[k] != BACKSLASH && (t[k] == LOWER_X ==> !HexPair(t, k + 1))
    requires Unicode(t, k, len) ==> WordAt(t, k, len) != BACKSLASH
    ensures Escape(t, k, len).out != [] && Escape(t, k, len).out[0] != BACKSLASH
  {
    if Unicode(t, k, len) {
      EscapeIsWord(t, k, len);
      Utf8Starts(WordAt(t, k, len), BACKSLASH);
    }
  }

  // The first of exactly two.
  lemma {:induction false} TwoSwallowed(t: seq<Byte>, d: nat, len: nat)
    requires d + 1 < len <= |t| && Hex(At(t, len)) < 0 && t[d] == t[d + 1] == BACKSLASH
    requires d + 2 < len ==> t[d + 2] != BACKSLASH
    requires !Tangled(t, d, len)
    ensures Decode(t, d, len, false) != Decode(t, d + 1, len, false)
  {
    DecodeStep(t, d, len, [BACKSLASH], d + 2);
    if d + 2 < len {
      var p := Escape(t, d + 2, len);
      DecodeStep(t, d + 1, len, p.out, p.next);
      if t[d + 2] == LOWER_X && HexPair(t, d + 3) {
        DecodeHexPair(t, d + 2, len);
      } else {
        EscapeNoBackslash(t, d + 2, len);
        assert Decode(t, d, len, false).token[0] != Decode(t, d + 1, len, false).token[0];
      }
    }
  }

  lemma {:induction false} SwallowedByte(t: seq<Byte>, d: nat, len: nat)
    requires len <= |t| && Hex(At(t, len)) < 0 && !Tangled(t, d, len)
    ensures Decode(t, d, len, false) == Decode(t, d + 1, len, false) <==> Harmless(t, d, len)
    decreases len - d
  {
    if d < len {
      if t[d] != BACKSLASH {
        DecodePlain(t, d, len);
      } else if d + 1 < len {
        if t[d + 1] != BACKSLASH {
          OneSwallowed(t, d, len);
        } else if d + 2 < len && t[d + 2] == BACKSLASH {
          DecodeStep(t, d, len, [BACKSLASH], d + 2);
          DecodeStep(t, d + 1, len, [BACKSLASH], d + 3);
          SwallowedByte(t, d + 2, len);
          SameTail(BACKSLASH, Decode(t, d + 2, len, false).token, Decode(t, d + 3, len, false).token);
        } else {
          TwoSwallowed(t, d, len);
        }
      }
    }
  }

  lemma {:induction false} SameTail(b: Byte, x: seq<Byte>, y: seq<Byte>)
    ensures [b] + x == [b] + y <==> x == y
  {
    assert ([b] + x)[1..] == x && ([b] + y)[1..] == y;
  }

  lemma {:induction false} SameFront(a: seq<Byte>, x: seq<Byte>, y: seq<Byte>)
    ensures a + x == a + y <==> x == y
  {
    assert (a + x)[|a|..] == x && (a + y)[|a|..] == y;
  }

  // What a \\u escape at i with its digits means, and the text behind them.
  function Documented(t: seq<Byte>, i: nat, len: nat, width: nat): Decoded
    requires len <= |t| && (width == UTF_WIDTH4 || width == UTF_WIDTH6)
  {
    var d := Decode(t, i + 3 + width, len, false);
    d.(token := Utf8(UtfWord(t, i + 3, width)) + d.token)
  }

  /**
    A \\u escape also takes the byte after its digits, which is lost. The string still has the value that is
    documented if there is no such byte, or it is one of an odd number of backslashes before a byte that stands for
    itself, and only then, except where the bytes that follow are Tangled.
   */
  lemma {:induction false} UnicodeEscapeTakesOneMore(t: seq<Byte>, i: nat, len: nat, six: bool)
    requires i + (if six then 9 else 7) <= len <= |t| && Hex(At(t, len)) < 0
    requires t[i] == BACKSLASH && t[i + 1] == LOWER_U && t[i + 2] == if six then MINUS else PLUS
    ensures var width := if six then UTF_WIDTH6 else UTF_WIDTH4; var d := i + 3 + width;
      && Decode(t, i, len, false).token == Utf8(UtfWord(t, i + 3, width)) + Decode(t, d + 1, len, false).token
      && (Harmless(t, d, len) ==> Decode(t, i, len, false) == Documented(t, i, len, width))
      && (!Tangled(t, d, len) ==>
            (Decode(t, i, len, false) == Documented(t, i, len, width) <==> Harmless(t, d, len)))
  {
    var width := if six then UTF_WIDTH6 else UTF_WIDTH4;
    var d, word := i + 3 + width, Utf8(UtfWord(t, i + 3, width));
    EscapeIsWord(t, i + 1, len);
    DecodeStep(t, i, len, word, d + 1);
    HarmlessUntangled(t, d, len);
    if !Tangled(t, d, len) {
      SwallowedByte(t, d, len);
      SameFront(word, Decode(t, d, len, false).token, Decode(t, d + 1, len, false).token);
    }
  }

  lemma {:induction false} HarmlessUntangled(t: seq<Byte>, d: nat, len: nat)
    requires len <= |t|
    ensures Harmless(t, d, len) ==> !Tangled(t, d, len)
    decreases len - d
  {
    if d + 1 < len && t[d + 1] == BACKSLASH {
      HarmlessUntangled(t, d + 2, len);
    }
  }

  // Tangled bytes can go either way: "\\u+0041\\x" means what it should, "\\u+0041\\xy" does not.
  lemma {:induction false} TangledEitherWay()
    ensures var t: seq<Byte> := [BACKSLASH, LOWER_U, PLUS, 48, 48, 52, 49, BACKSLASH, LOWER_X, DQUOTE];
      Tangled(t, 7, 9) && Decode(t, 0, 9, false) == Documented(t, 0, 9, UTF_WIDTH4) == Decoded([65, LOWER_X], false)
    ensures var t: seq<Byte> := [BACKSLASH, LOWER_U, PLUS, 48, 48, 52, 49, BACKSLASH, LOWER_X, 121, DQUOTE];
      Tangled(t, 7, 10) && Decode(t, 0, 10, false) != Documented(t, 0, 10, UTF_WIDTH4)
  {
    var t: seq<Byte> := [BACKSLASH, LOWER_U, PLUS, 48, 48, 52, 49, BACKSLASH, LOWER_X, DQUOTE];
    assert UtfWord(t, 3, UTF_WIDTH4) == 65;
    DecodeStep(t, 0, 9, [65], 8);
    DecodeStep(t, 7, 9, [LOWER_X], 11);
    DecodeStep(t, 8, 9, [LOWER_X], 9);
    var u: seq<Byte> := [BACKSLASH, LOWER_U, PLUS, 48, 48, 52, 49, BACKSLASH, LOWER_X, 121, DQUOTE];
    assert UtfWord(u, 3, UTF_WIDTH4) == 65;
    DecodeStep(u, 0, 10, [65], 8);
    DecodeStep(u, 7, 10, [LOWER_X], 11);
    DecodeStep(u, 8, 10, [LOWER_X], 9);
    DecodeStep(u, 9, 10, [121], 10);
    assert |Decode(u, 0, 10, false).token| == 3;
    assert |Documented(u, 0, 10, UTF_WIDTH4).token| == 2;
  }

  // A is 0x41: "\\u+0041B" is read as "A".
  lemma {:induction false} UnicodeEscapeLosesByte()
    ensures Decode([BACKSLASH, LOWER_U, PLUS, 48, 48, 52, 49, 66, DQUOTE], 0, 8, false) == Decoded([65], false)
  {
    var t: seq<Byte> := [BACKSLASH, LOWER_U, PLUS, 48, 48, 52, 49, 66, DQUOTE];
    assert UtfWord(t, 3, UTF_WIDTH4) == 65;
    assert Decode(t, 8, 8, false) == Decoded([], false);
    assert Escape(t, 1, 8) == Piece([65], 8);
  }

  // All bytes of a code point but the last.
  method PutUtf8(word: nat, a: array<Byte>, at: nat) returns (ch: Byte, cp: nat)
    requires word < 0x1000000 && at + |Utf8(word)| < a.Length
    modifies a
    ensures cp + 1 == at + |Utf8(word)|
    ensures a[..cp] + [ch] == old(a[..at]) + Utf8(word)
  {
    cp := at;
    if word <= 0x7f {
      ch := word;
    } else if word <= 0x7ff {
      a[cp] := 0xc0 + word / 64;
      cp, ch := cp + 1, 0x80 + word % 64;
    } else if word <= 0xffff {
      a[cp], a[cp + 1] := 0xe0 + word / 4096, 0x80 + word / 64 % 64;
      cp, ch := cp + 2, 0x80 + word % 64;
    } else {
      a[cp], a[cp + 1], a[cp + 2] := 0xf0 + word / 262144 % 8, 0x80 + word / 4096 % 64, 0x80 + word / 64 % 64;
      cp, ch := cp + 3, 0x80 + word % 64;
    }
  }

  /**
    The escape whose letter is at k: all of its bytes but the last are stored at cp and up, the last is
    handed back in ch.
   */
  method DecodeEscape(t: seq<Byte>, k: nat, len: nat, a: array<Byte>, at: nat) returns (ch: Byte, i: nat, cp: nat)
    requires 0 < k < len < |t| && Hex(t[len]) < 0
    requires at + |Escape(t, k, len).out| < a.Length
    modifies a
    ensures i + 1 == Escape(t, k, len).next
    ensures cp + 1 == at + |Escape(t, k, len).out|
    ensures a[..cp] + [ch] == old(a[..at]) + Escape(t, k, len).out
  {
    i, cp, ch := k, at, t[k];
    if ch == LOWER_N {
      ch := LF;
    } else if ch == LOWER_R {
      ch := CR;
    } else if ch == LOWER_T {
      ch := TAB;
    } else if ch == LOWER_X {
      var v1, v2 := Hex(At(t, i + 1)), Hex(At(t, i + 2));
      i := i + 2;
      if v1 >= 0 && v2 >= 0 {
        ch, cp := PutUtf8(v1 * 16 + v2, a, cp);
      }
    } else if ch == LOWER_U {
      i := i + 1;
      ch := At(t, i);
      var width: nat;
      if ch == PLUS && len - i >= UTF_WIDTH4 {
        width := UTF_WIDTH4;
      } else if ch == MINUS && len - i >= UTF_WIDTH6 {
        width := UTF_WIDTH6;
      } else {
        return LOWER_U, i - 1, cp;
      }
      var word := UtfWord(t, i + 1, width);
      i := i + width + 1;
      ch, cp := PutUtf8(word, a, cp);
    }
  }

  // The body of the decoding loop, at a place where it does not stop.
  method DecodeOne(t: seq<Byte>, k: nat, len: nat, xpath: bool, a: array<Byte>, at: nat) returns (i: nat, cp: nat)
    requires k < len < |t| && Hex(t[len]) < 0 && !Trailing(t, k, len, xpath)
    requires at + len - k < a.Length
    modifies a
    ensures i == Step(t, k, len, xpath).next
    ensures cp == at + |Step(t, k, len, xpath).out| < a.Length
    ensures a[..cp] == old(a[..at]) + Step(t, k, len, xpath).out
  {
    StepFits(t, k, len, xpath);
    i, cp := k, at;
    var ch := t[i];
    if ch == BACKSLASH && !xpath {
      i := i + 1;
      ch, i, cp := DecodeEscape(t, i, len, a, cp);
    }
    ghost var kept := a[..cp];
    a[cp] := ch;
    assert a[..cp + 1] == kept + [ch];
    cp, i := cp + 1, i + 1;
  }

  // The whole token is what is done and what is left.
  predicate Continues(all: Decoded, done: seq<Byte>, left: Decoded) {
    all == Decoded(done + left.token, left.trailing)
  }

  lemma {:induction false} ContinuesStep(all: Decoded, done: seq<Byte>, t: seq<Byte>, i: nat, len: nat, xpath: bool)
    requires i < len <= |t| && !Trailing(t, i, len, xpath)
    requires Continues(all, done, Decode(t, i, len, xpath))
    ensures var p := Step(t, i, len, xpath); Continues(all, done + p.out, Decode(t, p.next, len, xpath))
  {
    var p := Step(t, i, len, xpath);
    assert done + (p.out + Decode(t, p.next, len, xpath).token) == done + p.out + Decode(t, p.next, len, xpath).token;
  }

  /** The T_QUOTED branch of slaxStringCreate, into a buffer of len + 1 bytes. */
  method DecodeQuoted(t: seq<Byte>, len: nat, xpath: bool) returns (token: array<Byte>, used: nat, errors: bool)
    requires len < |t| && Hex(t[len]) < 0
    ensures fresh(token) && token.Length == len + 1 && used <= len && token[used] == NUL
    ensures Decoded(token[..used], errors) == Decode(t, 0, len, xpath)
  {
    token := new Byte[len + 1];
    errors := false;
    var i: nat, cp: nat := 0, 0;
    ghost var all := Decode(t, 0, len, xpath);
    while i < len
      invariant cp <= i && cp <= len < token.Length && !errors
      invariant Continues(all, token[..cp], Decode(t, i, len, xpath))
      decreases len - i
    {
      if t[i] == BACKSLASH && !xpath && i == len - 1 {
        errors := true;
        break;
      }
      StepFits(t, i, len, xpath);
      ContinuesStep(all, token[..cp], t, i, len, xpath);
      i, cp := DecodeOne(t, i, len, xpath, token, cp);
    }
    token[cp] := NUL;
    used := cp;
  }

  lemma {:induction false} PrintedBody(s: seq<Byte>, f: Flags, q: Byte, rest: seq<Byte>, t: seq<Byte>)
    requires |Escaped(s, f)| < |t| < |Printed(s, f, q, rest)| && t == Printed(s, f, q, rest)[1..1 + |t|]
    ensures t[|Escaped(s, f)|] == q
    ensures Decode(t, 0, |Escaped(s, f)|, false) == Decoded(s, false)
  {
    var e, whole := Escaped(s, f), Printed(s, f, q, rest);
    assert whole[1..1 + |e|] == e && whole[1 + |e|] == q;
    assert t[0..|e|] == whole[1..1 + |t|][0..|e|] == whole[1..1 + |e|];
    DecodeEscaped(t, 0, |Escaped(s, f)|, s, f);
  }

  /** The lexer and slaxStringCreate on a printed text, however the input is cut into lines. */
  method ReadBack(ghost s: seq<Byte>, ghost f: Flags, ghost q: Byte, ghost rest: seq<Byte>, lines: seq<seq<Byte>>)
      returns (token: array<Byte>, used: nat, errors: bool)
    requires forall k: nat :: k < |lines| ==> lines[k] != []
    requires Flat(lines) == Printed(s, f, q, rest) && (q == DQUOTE || q == SQUOTE) && Fenced(s, f, q)
    ensures used < token.Length && token[..used] == s && !errors
  {
    ghost var text, n := Printed(s, f, q, rest), |Escaped(s, f)|;
    QuoteRoundTrip(s, f, q, rest);
    assert text[0] == q && |text| >= n + 2;
    var lexer := ReadToken(text, n + 2, lines);
    token, used, errors := DecodeToken(s, f, q, rest, lexer);
  }

  // The lexer on a text whose first token is a string.
  method ReadToken(ghost text: seq<Byte>, ghost end: nat, lines: seq<seq<Byte>>) returns (lexer: Lexer)
    requires (forall k: nat :: k < |lines| ==> lines[k] != []) && Flat(lines) == text && text != []
    requires Scan(text, 1, text[0], false) == Some(end)
    ensures fresh(lexer) && lexer.Valid() && lexer.Text() == text && lexer.Pos() == end
  {
    lexer := new Lexer(lines);
    var none := lexer.GetInput();
    lexer.PointIsRead();
    var tok := lexer.ScanQuoted(false);
  }

  // slaxStringCreate on the token that the lexer has just read over.
  method DecodeToken(ghost s: seq<Byte>, ghost f: Flags, ghost q: Byte, ghost rest: seq<Byte>, lexer: Lexer)
      returns (token: array<Byte>, used: nat, errors: bool)
    requires lexer.Valid() && lexer.Text() == Printed(s, f, q, rest) && (q == DQUOTE || q == SQUOTE)
    requires lexer.Pos() == |Escaped(s, f)| + 2
    ensures used < token.Length && token[..used] == s && !errors
  {
    ghost var n := |Escaped(s, f)|;
    var t := lexer.buf[lexer.start + 1..];
    lexer.RestIsRead(1);
    assert lexer.cur - lexer.start == n + 2 && n < |t| < |Printed(s, f, q, rest)|;
    PrintedBody(s, f, q, rest, t);
    token, used, errors := DecodeQuoted(t, lexer.cur - lexer.start - 2, false);
  }
}
