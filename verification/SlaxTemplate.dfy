/**
  Attribute value templates: printed from the operands of a concatenation, and split again.
 */
module SlaxTemplate {
  import Seqs
  import opened SlaxString
  import opened SlaxRender

  datatype Piece = Text(text: string) | Expr(source: string)

  datatype Option<T> = None | Some(value: T)

  // ----- what a template means (section 7.6.2 of XSLT 1.0)

  predicate IsQuote(c: char) {
    c == '"' || c == '\''
  }

  // Where the next c stands, from i on.
  function Find(s: string, i: nat, c: char): (at: Option<nat>)
    ensures at.Some? ==> i <= at.value < |s| && s[at.value] == c
    decreases |s| - i
  {
    if i >= |s| then None else if s[i] == c then Some(i) else Find(s, i + 1, c)
  }

  // The brace that closes an expression: the first one outside all literals.
  function ExprEnd(s: string, i: nat): (at: Option<nat>)
    ensures at.Some? ==> i <= at.value < |s| && s[at.value] == '}'
    decreases |s| - i
  {
    if i >= |s| then None
    else if s[i] == '}' then Some(i)
    else if IsQuote(s[i]) then
      var q := Find(s, i + 1, s[i]);
      if q.None? then None else ExprEnd(s, q.value + 1)
    else ExprEnd(s, i + 1)
  }

  // Text in front of pieces; two texts never stand next to each other.
  function AddText(t: string, pieces: seq<Piece>): seq<Piece> {
    if t == "" then pieces
    else if pieces != [] && pieces[0].Text? then [Text(t + pieces[0].text)] + pieces[1..]
    else [Text(t)] + pieces
  }

  function Then(t: string, pieces: Option<seq<Piece>>): Option<seq<Piece>> {
    if pieces.None? then None else Some(AddText(t, pieces.value))
  }

  function Before(p: Piece, pieces: Option<seq<Piece>>): Option<seq<Piece>> {
    if pieces.None? then None else Some([p] + pieces.value)
  }

  /** The pieces of a template; none if a brace is left over. */
  function Split(s: string): Option<seq<Piece>> {
    if s == "" then Some([])
    else if !IsBrace(s[0]) then Then([s[0]], Split(s[1..]))
    else if |s| > 1 && s[1] == s[0] then Then([s[0]], Split(s[2..]))
    else if s[0] == '}' then None
    else
      var end := ExprEnd(s, 1);
      if end.None? then None else Before(Expr(s[1..end.value]), Split(s[end.value + 1..]))
  }

  // The pieces as they are read back: empty texts are gone, neighbours are one.
  function Merge(pieces: seq<Piece>): seq<Piece> {
    if pieces == [] then []
    else if pieces[0].Text? then AddText(pieces[0].text, Merge(pieces[1..]))
    else [pieces[0]] + Merge(pieces[1..])
  }

  function Printed(pieces: seq<Piece>): string {
    if pieces == [] then "" else PrintedPiece(pieces[0]) + Printed(pieces[1..])
  }

  function PrintedPiece(p: Piece): string {
    if p.Text? then Doubled(p.text) else "{" + p.source + "}"
  }

  // An expression whose literals are closed and whose braces are inside them.
  predicate ExprOk(e: string) {
    ExprEnd(e + "}", 0) == Some(|e|) && (e != "" ==> e[0] != '{')
  }

  lemma {:induction false} AddTextTwice(s: string, t: string, pieces: seq<Piece>)
    ensures AddText(s, AddText(t, pieces)) == AddText(s + t, pieces)
  {
    if s == "" {
      assert s + t == t;
    } else if t == "" {
      assert s + t == s;
    } else if pieces != [] && pieces[0].Text? {
      assert s + (t + pieces[0].text) == s + t + pieces[0].text;
    }
  }

  lemma {:induction false} SplitDoubled(t: string, rest: string)
    ensures Split(Doubled(t) + rest) == Then(t, Split(rest))
    decreases |t|
  {
    if t == "" {
      assert Doubled(t) + rest == rest;
    } else {
      var init, c := t[..|t| - 1], t[|t| - 1];
      var tail := DoubledChar(c) + rest;
      assert Doubled(t) + rest == Doubled(init) + tail;
      SplitDoubled(init, tail);
      assert tail[|DoubledChar(c)|..] == rest;
      assert t == init + [c];
      if Split(rest).Some? {
        AddTextTwice(init, [c], Split(rest).value);
      }
    }
  }

  // What follows the closing brace does not matter.
  lemma {:induction false} FindPrefix(s: string, more: string, i: nat, c: char)
    requires Find(s, i, c).Some?
    ensures Find(s + more, i, c) == Find(s, i, c)
    decreases |s| - i
  {
    if s[i] != c { FindPrefix(s, more, i + 1, c); }
  }

  lemma {:induction false} ExprEndPrefix(s: string, more: string, i: nat)
    requires ExprEnd(s, i).Some?
    ensures ExprEnd(s + more, i) == ExprEnd(s, i)
    decreases |s| - i
  {
    if s[i] == '}' {
    } else if IsQuote(s[i]) {
      FindPrefix(s, more, i + 1, s[i]);
      ExprEndPrefix(s, more, Find(s, i + 1, s[i]).value + 1);
    } else {
      ExprEndPrefix(s, more, i + 1);
    }
  }

  function Plus(at: Option<nat>, k: nat): Option<nat> {
    if at.None? then None else Some(at.value + k)
  }

  lemma {:induction false} FindShift(p: string, s: string, i: nat, c: char)
    ensures Find(p + s, |p| + i, c) == Plus(Find(s, i, c), |p|)
    decreases |s| - i
  {
    if i < |s| && s[i] != c { FindShift(p, s, i + 1, c); }
  }

  lemma {:induction false} ExprEndShift(p: string, s: string, i: nat)
    ensures ExprEnd(p + s, |p| + i) == Plus(ExprEnd(s, i), |p|)
    decreases |s| - i
  {
    if i >= |s| || s[i] == '}' {
    } else if IsQuote(s[i]) {
      FindShift(p, s, i + 1, s[i]);
      var q := Find(s, i + 1, s[i]);
      if q.Some? { ExprEndShift(p, s, q.value + 1); }
    } else {
      ExprEndShift(p, s, i + 1);
    }
  }

  lemma {:induction false} SplitExpr(e: string, rest: string)
    requires ExprOk(e)
    ensures Split("{" + e + "}" + rest) == Before(Expr(e), Split(rest))
  {
    var s := "{" + e + "}" + rest;
    assert s == "{" + (e + "}" + rest);
    ExprEndPrefix(e + "}", rest, 0);
    ExprEndShift("{", e + "}" + rest, 0);
    assert s[1..|e| + 1] == e && s[|e| + 2..] == rest;
    assert s[1] == if e == "" then '}' else e[0];
  }

  /** A printed template splits into the pieces it was printed from, up to texts that meet. */
  lemma {:induction false} PrintedSplits(pieces: seq<Piece>)
    requires forall i :: 0 <= i < |pieces| && pieces[i].Expr? ==> ExprOk(pieces[i].source)
    ensures Split(Printed(pieces)) == Some(Merge(pieces))
  {
    if pieces != [] {
      var rest := pieces[1..];
      PrintedSplits(rest);
      if pieces[0].Text? {
        SplitDoubled(pieces[0].text, Printed(rest));
      } else {
        SplitExpr(pieces[0].source, Printed(rest));
        assert Printed(pieces) == "{" + pieces[0].source + "}" + Printed(rest);
      }
    }
  }

  // ----- splitting in place

  // memmove of everything behind cur + 1 down by one.
  method Collapse(buf: array<char>, cur: nat, endp: nat)
    requires cur + 2 <= endp <= buf.Length
    modifies buf
    ensures buf[..cur + 1] == old(buf[..cur + 1])
    ensures buf[cur + 1..endp - 1] == old(buf[cur + 2..endp])
  {
    var k := cur + 1;
    while k < endp - 1
      invariant cur + 1 <= k <= endp - 1
      invariant buf[..cur + 1] == old(buf[..cur + 1])
      invariant buf[cur + 1..k] == old(buf[cur + 2..k + 1])
      invariant buf[k + 1..endp] == old(buf[k + 1..endp])
    {
      ghost var done := buf[cur + 1..k];
      assert buf[k + 1] == buf[k + 1..endp][0];
      assert old(buf[k + 1..endp])[1..] == old(buf[k + 2..endp]);
      buf[k] := buf[k + 1];
      assert buf[cur + 1..k + 1] == done + [buf[k]];
      k := k + 1;
    }
  }

  // Finds the brace that closes an expression; an open literal leaves the place behind the end.
  method ScanExpr(buf: array<char>, from: nat, endp: nat) returns (cur: nat)
    requires from <= endp <= buf.Length
    ensures from <= cur <= endp + 1
    ensures ExprEnd(buf[..endp], from).Some? ==> cur == ExprEnd(buf[..endp], from).value < endp
  {
    cur := from;
    while cur < endp
      invariant from <= cur <= endp + 1
      invariant cur <= endp ==> ExprEnd(buf[..endp], cur) == ExprEnd(buf[..endp], from)
      invariant cur > endp ==> ExprEnd(buf[..endp], from) == None
    {
      if buf[cur] == '}' { break; }
      if buf[cur] == '\'' || buf[cur] == '"' {
        var quotes, open := buf[cur], cur;
        cur := cur + 1;
        while cur < endp
          invariant open < cur <= endp
          invariant Find(buf[..endp], open + 1, quotes) == Find(buf[..endp], cur, quotes)
        {
          if buf[cur] == quotes { break; }
          cur := cur + 1;
        }
      }
      cur := cur + 1;
    }
  }

  // What is found, the text read since, and what is still to be read make up the whole.
  ghost predicate Underway(goal: Option<seq<Piece>>, done: seq<Piece>, text: string, rest: string) {
    UnderwayFor(goal, done, text, Split(rest))
  }

  ghost predicate UnderwayFor(goal: Option<seq<Piece>>, done: seq<Piece>, text: string, left: Option<seq<Piece>>) {
    goal.Some? ==> left.Some? && goal.value == done + AddText(text, left.value)
  }

  lemma {:induction false} UnderwayText(goal: Option<seq<Piece>>, done: seq<Piece>, text: string, rest: string, n: nat)
    requires Underway(goal, done, text, rest) && n <= |rest| && rest != "" && n == (if IsBrace(rest[0]) then 2 else 1)
    requires goal.Some? && IsBrace(rest[0]) ==> rest[1] == rest[0]
    ensures Underway(goal, done, text + [rest[0]], rest[n..])
  {
    if goal.Some? {
      AddTextTwice(text, [rest[0]], Split(rest[n..]).value);
    }
  }

  lemma {:induction false} SplitAtBrace(s: string) returns (end: nat)
    requires Split(s).Some? && s != "" && s[0] == '{' && (|s| > 1 ==> s[1] != '{')
    ensures ExprEnd(s, 1) == Some(end) && 1 <= end < |s|
    ensures Split(s[end + 1..]).Some? && Split(s).value == [Expr(s[1..end])] + Split(s[end + 1..]).value
  {
    end := ExprEnd(s, 1).value;
  }

  lemma {:induction false} AddTextExpr(done: seq<Piece>, text: string, e: Piece, left: seq<Piece>)
    requires e.Expr?
    ensures done + AddText(text, [e] + left) ==
      done + (if text == "" then [] else [Text(text)]) + [e] + AddText("", left)
  {
    var front := if text == "" then [] else [Text(text)];
    assert front == [] ==> front + ([e] + left) == [e] + left;
    assert AddText(text, [e] + left) == front + ([e] + left);
    Seqs.Assoc(done, front, [e] + left);
    Seqs.Assoc(done + front, [e], left);
  }

  lemma {:induction false} UnderwayExpr(goal: Option<seq<Piece>>, done: seq<Piece>, text: string, rest: string)
    returns (end: nat)
    requires Underway(goal, done, text, rest) && goal.Some? && rest != "" && rest[0] == '{'
    requires |rest| > 1 ==> rest[1] != '{'
    ensures ExprEnd(rest, 1) == Some(end) && 1 <= end < |rest|
    ensures Underway(goal, done + (if text == "" then [] else [Text(text)]) + [Expr(rest[1..end])], "", rest[end + 1..])
  {
    end := SplitAtBrace(rest);
    ExprDone(goal, done, text, Split(rest), Expr(rest[1..end]), Split(rest[end + 1..]));
  }

  lemma {:induction false} ExprDone(goal: Option<seq<Piece>>, done: seq<Piece>, text: string,
                                    split: Option<seq<Piece>>, e: Piece, left: Option<seq<Piece>>)
    requires UnderwayFor(goal, done, text, split) && goal.Some? && e.Expr?
    requires left.Some? && split == Some([e] + left.value)
    ensures UnderwayFor(goal, done + (if text == "" then [] else [Text(text)]) + [e], "", left)
  {
    AddTextExpr(done, text, e, left.value);
  }

  lemma {:induction false} LastText(goal: Option<seq<Piece>>, done: seq<Piece>, text: string)
    requires Underway(goal, done, text, "") && goal.Some?
    ensures goal.value == done + if text == "" then [] else [Text(text)]
  {
  }

  // Two equal braces become one.
  method ReadPair(buf: array<char>, ghost start: nat, cur: nat, endp: nat, ghost text: string, ghost rest: string)
    requires start <= cur && cur + 2 <= endp <= buf.Length
    requires buf[start..cur] == text && buf[cur..endp] == rest
    modifies buf
    ensures buf[start..cur + 1] == text + [rest[0]] && buf[cur + 1..endp - 1] == rest[2..]
  {
    ghost var head := buf[..cur + 1];
    assert head[start..] == text + [rest[0]] && rest[2..] == buf[cur + 2..endp];
    Collapse(buf, cur, endp);
    assert buf[start..cur + 1] == head[start..];
  }

  lemma {:induction false} LoneBrace(s: string)
    requires s != "" && s[0] == '}' && (|s| > 1 ==> s[1] != '}')
    ensures Split(s) == None
  {
  }

  lemma {:induction false} OpenBrace(s: string)
    requires |s| == 1 && IsBrace(s[0])
    ensures Split(s) == None
  {
  }

  lemma {:induction false} UnderwayPlain(goal: Option<seq<Piece>>, done: seq<Piece>, text: string, rest: string)
    requires Underway(goal, done, text, rest) && rest != "" && rest[0] != '{'
    requires |rest| > 1 ==> rest[0] != '}' || rest[1] != '}'
    ensures Underway(goal, done, text + [rest[0]], rest[1..])
  {
    if rest[0] == '}' {
      LoneBrace(rest);
    } else {
      UnderwayText(goal, done, text, rest, 1);
    }
  }

  // The end of the expression that opens at cur, by place in the buffer.
  lemma {:induction false} ExprEndAt(buf: string, cur: nat, endp: nat, rest: string)
    requires cur < endp <= |buf| && rest == buf[cur..endp]
    ensures ExprEnd(buf[..endp], cur + 1) == Plus(ExprEnd(rest, 1), cur)
  {
    assert buf[..cur] + rest == buf[..endp];
    ExprEndShift(buf[..cur], rest, 1);
  }

  method ScanRest(buf: array<char>, cur: nat, endp: nat, ghost rest: string) returns (end: nat, ghost left: string)
    requires cur < endp < buf.Length && buf[cur..endp] == rest
    ensures cur < end <= endp + 1
    ensures end < endp ==> buf[end + 1..endp] == left
    ensures ExprEnd(rest, 1).Some? ==>
      && end == cur + ExprEnd(rest, 1).value < endp && buf[cur + 1..end] == rest[1..end - cur]
      && left == rest[end - cur + 1..]
    ensures end == endp ==> ExprEnd(rest, 1).None?
  {
    ExprEndAt(buf[..], cur, endp, rest);
    assert buf[..][..endp] == buf[..endp];
    end := ScanExpr(buf, cur + 1, endp);
    left := if end < endp then buf[end + 1..endp] else "";
    if ExprEnd(rest, 1).Some? {
      assert end == cur + ExprEnd(rest, 1).value;
      assert buf[cur + 1..end] == rest[1..end - cur] && buf[end + 1..endp] == rest[end - cur + 1..];
    }
  }

  lemma {:induction false} ExprRead(goal: Option<seq<Piece>>, done: seq<Piece>, text: string, rest: string,
                                    front: seq<Piece>) returns (at: nat)
    requires goal.Some? && Underway(goal, done, text, rest) && rest != "" && rest[0] == '{'
    requires (|rest| > 1 ==> rest[1] != '{') && front == if text == "" then [] else [Text(text)]
    ensures ExprEnd(rest, 1) == Some(at) && 1 <= at < |rest|
    ensures Underway(goal, done + (front + [Expr(rest[1..at])]), "", rest[at + 1..])
  {
    at := UnderwayExpr(goal, done, text, rest);
    Seqs.Assoc(done, front, [Expr(rest[1..at])]);
  }

  // The text so far, and the expression that opens at cur, up to its closing brace.
  method ReadExpr(ghost goal: Option<seq<Piece>>, ghost done: seq<Piece>, buf: array<char>, start: nat, cur: nat,
      endp: nat, ghost text: string, ghost rest: string) returns (found: seq<Piece>, after: nat, ghost left: string)
    requires start <= cur < endp < buf.Length && buf[start..cur] == text && buf[cur..endp] == rest
    requires rest[0] == '{' && (|rest| > 1 ==> rest[1] != '{')
    requires Underway(goal, done, text, rest)
    ensures cur < after <= endp + 2
    ensures goal.Some? ==> after <= endp
    ensures after <= endp ==> left == buf[after..endp] && Underway(goal, done + found, "", left)
  {
    found, after, left := ReadPieces(buf, start, cur, endp, text, rest);
    if goal.Some? {
      ghost var at := ExprRead(goal, done, text, rest, if text == "" then [] else [Text(text)]);
    }
  }

  // The text so far and the expression behind it.
  method ReadPieces(buf: array<char>, start: nat, cur: nat, endp: nat, ghost text: string, ghost rest: string)
      returns (found: seq<Piece>, after: nat, ghost left: string)
    requires start <= cur < endp < buf.Length && buf[start..cur] == text && buf[cur..endp] == rest
    ensures cur < after <= endp + 2 && (after <= endp ==> left == buf[after..endp])
    ensures ExprEnd(rest, 1).Some? ==>
      var at := ExprEnd(rest, 1).value;
      && after == cur + at + 1 <= endp && left == rest[at + 1..]
      && found == (if text == "" then [] else [Text(text)]) + [Expr(rest[1..at])]
  {
    var end;
    found := TextBefore(buf, start, cur, text);
    end, left := ScanRest(buf, cur, endp, rest);
    found := found + [Expr(buf[cur + 1..end])];
    after := end + 1;
  }

  // The text since the last expression, if there is any.
  method TextBefore(buf: array<char>, start: nat, cur: nat, ghost text: string) returns (found: seq<Piece>)
    requires start <= cur <= buf.Length && buf[start..cur] == text
    ensures found == if text == "" then [] else [Text(text)]
  {
    found := if start != cur then [Text(buf[start..cur])] else [];
  }

  /**
    slaxMakeAttribValueTemplate, up to the rewriting of each expression: every well-formed template comes
    apart as its definition says. Only a template with a brace left over can move bytes from beyond its end.
   */
  method MakeAttribValueTemplate(value: string) returns (pieces: seq<Piece>, overrun: bool)
    ensures Split(value).Some? ==> !overrun && Some(pieces) == Split(value)
  {
    pieces, overrun := [], false;
    var blen := |value|;
    if blen == 0 { return; }
    var buf := new char[blen + 1](i => if 0 <= i < blen then value[i] else NUL);
    var endp: nat, start: nat, cur: nat := blen, 0, 0;
    ghost var goal, text, rest := Split(value), "", value;
    assert buf[cur..endp] == rest;
    while cur < endp
      invariant start <= cur && endp <= blen
      invariant goal.Some? ==> cur <= endp
      invariant cur <= endp ==>
        buf[start..cur] == text && buf[cur..endp] == rest && Underway(goal, pieces, text, rest)
      decreases endp - cur
    {
      assert rest[0] == buf[cur] && (cur + 1 < endp ==> rest[1] == buf[cur + 1]);
      if (buf[cur] == '}' && buf[cur + 1] == '}') || (buf[cur] == '{' && buf[cur + 1] == '{') {
        if endp < cur + 2 {
          OpenBrace(rest);
          return pieces, true;
        }
        UnderwayText(goal, pieces, text, rest, 2);
        ReadPair(buf, start, cur, endp, text, rest);
        text, rest := text + [rest[0]], rest[2..];
        endp := endp - 1;
        cur := cur + 1;
      } else if buf[cur] != '{' {
        UnderwayPlain(goal, pieces, text, rest);
        text, rest := text + [rest[0]], rest[1..];
        cur := cur + 1;
      } else {
        var found;
        found, cur, rest := ReadExpr(goal, pieces, buf, start, cur, endp, text, rest);
        pieces := pieces + found;
        start := cur;
        text := "";
      }
    }
    if goal.Some? {
      assert rest == "";
      LastText(goal, pieces, text);
      assert pieces + [] == pieces && |text| == endp - start;
    }
    if start < endp {
      pieces := pieces + [Text(buf[start..endp])];
    }
  }

  // ----- printing the operands of a concatenation

  predicate OperandOk(op: seq<Tok>) {
    op != [] && (forall t :: t in op ==> TokOk(t)) && !Axis(op[|op| - 1])
  }

  predicate AllOk(ops: seq<seq<Tok>>) {
    forall i :: 0 <= i < |ops| ==> OperandOk(ops[i])
  }

  function OperandText(op: seq<Tok>, y: Style): string
    requires op != []
  {
    if op[0].ttype == T_QUOTED || y.xpath then Joined(op, y) else "{" + Joined(op, y.(quotes := true)) + "}"
  }

  function TemplateText(ops: seq<seq<Tok>>, y: Style): string
    requires AllOk(ops)
  {
    if ops == [] then ""
    else
      TemplateText(ops[..|ops| - 1], y) + OperandText(ops[|ops| - 1], y)
  }

  function OperandRoom(op: seq<Tok>, y: Style): nat
    requires op != []
  {
    if op[0].ttype != T_QUOTED && !y.xpath then 2 + Costs(op, y.(quotes := true)) + 1 else Costs(op, y) + 1
  }

  function Room(ops: seq<seq<Tok>>, y: Style): nat
    requires AllOk(ops)
  {
    if ops == [] then 0
    else
      Room(ops[..|ops| - 1], y) + OperandRoom(ops[|ops| - 1], y)
  }

  lemma {:induction false} RoomPrefix(ops: seq<seq<Tok>>, y: Style, i: nat)
    requires i < |ops| && AllOk(ops)
    ensures AllOk(ops[..i])
    ensures AllOk(ops[..i + 1])
    ensures Room(ops[..i + 1], y) == Room(ops[..i], y) + OperandRoom(ops[i], y) <= Room(ops, y)
    ensures TemplateText(ops[..i + 1], y) == TemplateText(ops[..i], y) + OperandText(ops[i], y)
    decreases |ops|
  {
    assert ops[..i + 1][..i] == ops[..i];
    if i + 1 < |ops| {
      var init := ops[..|ops| - 1];
      assert init[..i] == ops[..i] && init[..i + 1] == ops[..i + 1];
      RoomPrefix(init, y, i);
    } else {
      assert ops[..i + 1] == ops;
    }
  }

  /** slaxStringValueTemplateLength, over the operands that the chain of a concatenation leads to. */
  method TemplateLength(ops: seq<seq<Tok>>, y: Style) returns (len: nat)
    requires AllOk(ops)
    ensures len == Room(ops, y)
  {
    len := 0;
    for i := 0 to |ops|
      invariant AllOk(ops[..i])
      invariant len == Room(ops[..i], y)
    {
      RoomPrefix(ops, y, i);
      var xflags := y;
      if ops[i][0].ttype != T_QUOTED && !xflags.xpath {
        len := len + 2;
        xflags := xflags.(quotes := true);
      }
      var more, _ := LengthCheck(ops[i], xflags, false);
      len := len + more;
    }
    assert ops[..|ops|] == ops;
  }

  // A list that ends in no axis, into what is left of the buffer.
  method ListCopy(op: seq<Tok>, flags: Style, blen: nat) returns (s: string)
    requires OperandOk(op) && Costs(op, flags) + 1 <= blen && !flags.noparens
    ensures s == Joined(op, flags) && |s| + 1 <= Costs(op, flags)
  {
    var bp := new char[blen];
    var len := CopyMarked(bp, null, op, flags);
    assert Kept(op, flags) == op && Joined(op, flags)[..len] == Joined(op, flags);
    CostCovers(op, flags);
    s := bp[..len];
  }

  // One operand.
  method OperandCopy(op: seq<Tok>, y: Style, blen0: nat) returns (s: string, blen: nat)
    requires OperandOk(op) && OperandRoom(op, y) <= blen0 && !y.noparens
    ensures s == OperandText(op, y) && blen + |s| == blen0 && |s| < OperandRoom(op, y)
  {
    s, blen := "", blen0;
    var xflags := y;
    if op[0].ttype != T_QUOTED && !xflags.xpath {
      s := s + "{";
      blen := blen - 1;
      xflags := xflags.(quotes := true);
    }
    var list := ListCopy(op, xflags, blen);
    blen := blen - |list|;
    s := s + list;
    if op[0].ttype != T_QUOTED && !xflags.xpath {
      s := s + "}";
      blen := blen - 1;
    }
  }

  lemma {:induction false} CostCovers(toks: seq<Tok>, y: Style)
    requires forall t :: t in toks ==> TokOk(t)
    ensures |Joined(toks, y)| + |Pending(toks)| <= Costs(toks, y)
  {
    if toks != [] {
      var init, t := toks[..|toks| - 1], toks[|toks| - 1];
      assert toks == init + [t];
      CostCovers(init, y);
      JoinedSnoc(init, t, y);
      RenderFits(t, y);
    }
  }

  /** slaxStringValueTemplateCopy into the room that slaxStringValueTemplateLength sets aside. */
  method TemplateCopy(len: nat, ops: seq<seq<Tok>>, y: Style) returns (s: string)
    requires AllOk(ops) && !y.noparens && len == Room(ops, y)
    ensures s == TemplateText(ops, y) && |s| <= len
  {
    s := "";
    var blen := len;
    for i := 0 to |ops|
      invariant AllOk(ops[..i])
      invariant s == TemplateText(ops[..i], y) && blen + |s| == len && |s| <= Room(ops[..i], y)
    {
      RoomPrefix(ops, y, i);
      var more;
      more, blen := OperandCopy(ops[i], y, blen);
      s := s + more;
    }
    assert ops[..|ops|] == ops;
  }

  // ----- and read again

  // What an operand is meant as: a literal as text, everything else as an expression.
  function PieceOf(op: seq<Tok>, y: Style): Piece
    requires op != []
  {
    if IsLiteral(op) then Text(op[0].token) else Expr(Joined(op, y.(quotes := true)))
  }

  predicate IsLiteral(op: seq<Tok>) {
    |op| == 1 && op[0].ttype == T_QUOTED
  }

  function PiecesOf(ops: seq<seq<Tok>>, y: Style): seq<Piece>
    requires AllOk(ops)
  {
    if ops == [] then [] else PiecesOf(ops[..|ops| - 1], y) + [PieceOf(ops[|ops| - 1], y)]
  }

  // What it is written as: text, if it only starts with a literal.
  function WrittenAs(op: seq<Tok>, y: Style): Piece
    requires op != []
  {
    if op[0].ttype == T_QUOTED then Text(Joined(op, y.(braces := false))) else PieceOf(op, y)
  }

  function AllWritten(ops: seq<seq<Tok>>, y: Style): seq<Piece>
    requires AllOk(ops)
  {
    if ops == [] then [] else AllWritten(ops[..|ops| - 1], y) + [WrittenAs(ops[|ops| - 1], y)]
  }

  // Only literals hold quotes and braces.
  predicate Readable(t: Tok) {
    t.ttype == T_QUOTED || forall c :: c in t.token ==> !IsQuote(c) && !IsBrace(c)
  }

  predicate BothQuotes(s: string) {
    '"' in s && '\'' in s
  }

  // A literal inside an expression has at most one kind of quote, as in XPath.
  predicate OperandReadable(op: seq<Tok>) {
    && OperandOk(op)
    && (forall t :: t in op ==> Readable(t))
    && (op[0].ttype != T_QUOTED ==> forall t :: t in op && t.ttype == T_QUOTED ==> !BothQuotes(t.token))
  }

  predicate AllReadable(ops: seq<seq<Tok>>) {
    forall i :: 0 <= i < |ops| ==> OperandReadable(ops[i])
  }

  // Reading an expression passes over s without ending in it.
  ghost predicate Passes(s: string) {
    forall t: string {:trigger ExprEnd(s + t, 0)} :: ExprEnd(s + t, 0) == Plus(ExprEnd(t, 0), |s|)
  }

  lemma {:induction false} PassesBoth(a: string, b: string)
    requires Passes(a) && Passes(b)
    ensures Passes(a + b)
  {
    forall t: string ensures ExprEnd(a + b + t, 0) == Plus(ExprEnd(t, 0), |a + b|) {
      assert a + b + t == a + (b + t);
      assert ExprEnd(a + (b + t), 0) == Plus(ExprEnd(b + t, 0), |a|);
      assert ExprEnd(b + t, 0) == Plus(ExprEnd(t, 0), |b|);
    }
  }

  lemma {:induction false} PlainPasses(s: string)
    requires forall c :: c in s ==> !IsQuote(c) && c != '}'
    ensures Passes(s)
  {
    forall t: string ensures ExprEnd(s + t, 0) == Plus(ExprEnd(t, 0), |s|) {
      PlainSkip(s, t, 0);
    }
  }

  lemma {:induction false} PlainSkip(s: string, t: string, i: nat)
    requires i <= |s| && forall c :: c in s ==> !IsQuote(c) && c != '}'
    ensures ExprEnd(s + t, i) == Plus(ExprEnd(t, 0), |s|)
    decreases |s| - i
  {
    if i < |s| {
      assert s[i] in s && (s + t)[i] == s[i];
      PlainSkip(s, t, i + 1);
    } else {
      ExprEndShift(s, t, 0);
    }
  }

  /** Where braces are asked for, a variable is written as an expression of its own; elsewhere as it is. */
  lemma {:induction false} VariableIsExpr(t: Tok, y: Style, rest: string)
    requires t.ttype == T_VAR && t.token != "" && forall c :: c in t.token ==> c !in {'"', '\'', '{', '}'}
    ensures y.xpath ==> Split(Render(t, y) + rest) == Before(Expr(t.token), Split(rest))
    ensures !y.xpath ==> Render(t, y) == t.token
  {
    PlainSkip(t.token, "}", 0);
    assert ExprEnd("}", 0) == Some(0) && t.token[0] in t.token;
    SplitExpr(t.token, rest);
  }

  lemma {:induction false} FindSkip(s: string, i: nat, c: char, at: nat)
    requires i <= at < |s| && s[at] == c && forall k :: i <= k < at ==> s[k] != c
    ensures Find(s, i, c) == Some(at)
    decreases at - i
  {
    if i < at { FindSkip(s, i + 1, c, at); }
  }

  lemma {:induction false} LiteralPasses(q: char, s: string)
    requires IsQuote(q) && q !in s
    ensures Passes([q] + s + [q])
  {
    var l := [q] + s + [q];
    forall t: string ensures ExprEnd(l + t, 0) == Plus(ExprEnd(t, 0), |l|) {
      assert forall k :: 1 <= k < |s| + 1 ==> (l + t)[k] == s[k - 1] && s[k - 1] in s;
      FindSkip(l + t, 1, q, |s| + 1);
      ExprEndShift(l, t, 0);
    }
  }

  lemma {:induction false} TokenPasses(t: Tok, y: Style)
    requires Readable(t) && (t.ttype == T_QUOTED ==> !BothQuotes(t.token)) && y.quotes && !y.escape && !y.xpath
    ensures Passes(Render(t, y))
  {
    if t.ttype == T_QUOTED {
      LiteralPasses(QuoteFor(t.token), t.token);
    } else {
      PlainPasses(t.token);
    }
  }

  lemma {:induction false} JoinedPasses(toks: seq<Tok>, y: Style)
    requires y.quotes && !y.escape && !y.xpath
    requires forall t :: t in toks ==> TokOk(t) && Readable(t) && (t.ttype == T_QUOTED ==> !BothQuotes(t.token))
    ensures Passes(Joined(toks, y))
  {
    if toks == [] {
      PlainPasses("");
    } else {
      var init, t := toks[..|toks| - 1], toks[|toks| - 1];
      assert toks == init + [t] && t in toks;
      JoinedPasses(init, y);
      JoinedSnoc(init, t, y);
      PlainPasses(Sep(init, t, y));
      PassesBoth(Joined(init, y), Sep(init, t, y));
      TokenPasses(t, y);
      PassesBoth(Joined(init, y) + Sep(init, t, y), Render(t, y));
    }
  }

  lemma {:induction false} JoinedStart(toks: seq<Tok>, y: Style)
    requires toks != [] && forall t :: t in toks ==> TokOk(t)
    ensures Render(toks[0], y) != "" ==> Joined(toks, y) != "" && Joined(toks, y)[0] == Render(toks[0], y)[0]
  {
    if |toks| > 1 {
      JoinedStart(toks[..|toks| - 1], y);
    }
  }

  lemma {:induction false} OperandExprOk(op: seq<Tok>, y: Style)
    requires OperandReadable(op) && op[0].ttype != T_QUOTED && y.quotes && !y.escape && !y.xpath
    ensures ExprOk(Joined(op, y))
  {
    JoinedPasses(op, y);
    JoinedStart(op, y);
    assert op[0] in op;
    var e := Joined(op, y);
    assert ExprEnd(e + "}", 0) == Plus(ExprEnd("}", 0), |e|);
  }

  lemma {:induction false} PrintedCons(p: Piece, rest: seq<Piece>)
    ensures Printed([p] + rest) == PrintedPiece(p) + Printed(rest)
  {
    assert ([p] + rest)[1..] == rest;
  }

  lemma {:induction false} PrintedSnoc(pieces: seq<Piece>, p: Piece)
    ensures Printed(pieces + [p]) == Printed(pieces) + Printed([p])
  {
    if pieces == [] {
      assert [] + [p] == [p];
    } else {
      var first, rest := pieces[0], pieces[1..];
      PrintedSnoc(rest, p);
      PrintedCons(first, rest);
      PrintedCons(first, rest + [p]);
      assert pieces == [first] + rest && pieces + [p] == [first] + (rest + [p]);
      Seqs.Assoc(PrintedPiece(first), Printed(rest), Printed([p]));
    }
  }

  lemma {:induction false} DoubledBoth(a: string, b: string)
    ensures Doubled(a + b) == Doubled(a) + Doubled(b)
  {
    if b == "" {
      Seqs.NoChange(a);
      Seqs.NoChange(Doubled(a));
    } else {
      var init, last := b[..|b| - 1], DoubledChar(b[|b| - 1]);
      assert (a + b)[..|a + b| - 1] == a + init;
      DoubledBoth(a, init);
      Seqs.Assoc(Doubled(a), Doubled(init), last);
    }
  }

  lemma {:induction false} DoubledPlain(s: string)
    requires forall c :: c in s ==> !IsBrace(c)
    ensures Doubled(s) == s
  {
    if s != "" {
      var init := s[..|s| - 1];
      assert s == init + [s[|s| - 1]];
      DoubledPlain(init);
    }
  }

  // Doubling changes neither how a text ends nor whether it is a lone minus sign.
  lemma {:induction false} DoubledEnd(s: string)
    ensures Doubled(s) == "" <==> s == ""
    ensures s != "" ==> Doubled(s)[|Doubled(s)| - 1] == s[|s| - 1]
    ensures Doubled(s) == "-" <==> s == "-"
  {
    if s != "" {
      DoubledEnd(s[..|s| - 1]);
      assert s == s[..|s| - 1] + [s[|s| - 1]];
    }
  }

  lemma {:induction false} SepDoubled(init: seq<Tok>, t: Tok, y: Style)
    requires Joined(init, y) == Doubled(Joined(init, y.(braces := false)))
    ensures Sep(init, t, y) == Sep(init, t, y.(braces := false)) == Doubled(Sep(init, t, y.(braces := false)))
  {
    if init != [] {
      GapDoubled(Joined(init, y.(braces := false)), init[|init| - 1], t);
    }
    DoubledPlain(" ");
  }

  // Doubling braces changes no gap.
  lemma {:induction false} GapDoubled(text: string, prev: Tok, t: Tok)
    ensures Gap(Doubled(text), prev, t) <==> Gap(text, prev, t)
  {
    DoubledEnd(text);
  }

  lemma {:induction false} RenderDoubled(t: Tok, y: Style)
    requires Readable(t) && y.braces && !y.quotes && !y.xpath
    ensures Render(t, y) == Doubled(Render(t, y.(braces := false)))
  {
    if t.ttype != T_QUOTED { DoubledPlain(t.token); }
  }

  // Where only literals hold braces, doubling them one by one is doubling those of the whole.
  lemma {:induction false} JoinedDoubled(toks: seq<Tok>, y: Style)
    requires (forall t :: t in toks ==> TokOk(t) && Readable(t)) && y.braces && !y.quotes && !y.xpath
    ensures Joined(toks, y) == Doubled(Joined(toks, y.(braces := false)))
  {
    if toks != [] {
      var init, t := toks[..|toks| - 1], toks[|toks| - 1];
      assert toks == init + [t] && t in toks;
      JoinedDoubled(init, y);
      OneDoubled(init, t, y);
    }
  }

  lemma {:induction false} OneDoubled(init: seq<Tok>, t: Tok, y: Style)
    requires (forall d :: d in init ==> TokOk(d)) && TokOk(t) && Readable(t) && y.braces && !y.quotes && !y.xpath
    requires Joined(init, y) == Doubled(Joined(init, y.(braces := false)))
    ensures Joined(init + [t], y) == Doubled(Joined(init + [t], y.(braces := false)))
  {
    var z := y.(braces := false);
    SepDoubled(init, t, y);
    RenderDoubled(t, y);
    JoinedSnoc(init, t, y);
    JoinedSnoc(init, t, z);
    DoubledBoth(Joined(init, z), Sep(init, t, z));
    DoubledBoth(Joined(init, z) + Sep(init, t, z), Render(t, z));
  }

  lemma {:induction false} OperandIsPiece(op: seq<Tok>, y: Style)
    requires OperandReadable(op) && y.braces && !y.quotes && !y.xpath
    ensures OperandText(op, y) == Printed([WrittenAs(op, y)])
  {
    assert [WrittenAs(op, y)][1..] == [];
    if op[0].ttype == T_QUOTED { JoinedDoubled(op, y); }
  }

  lemma {:induction false} TemplateSnoc(init: seq<seq<Tok>>, op: seq<Tok>, y: Style)
    requires AllOk(init) && OperandOk(op)
    ensures AllOk(init + [op])
    ensures TemplateText(init + [op], y) == TemplateText(init, y) + OperandText(op, y)
    ensures AllWritten(init + [op], y) == AllWritten(init, y) + [WrittenAs(op, y)]
  {
    assert (init + [op])[..|init|] == init;
  }

  lemma {:induction false} TemplateIsPrinted(ops: seq<seq<Tok>>, y: Style)
    requires AllOk(ops) && AllReadable(ops) && y.braces && !y.quotes && !y.xpath
    ensures TemplateText(ops, y) == Printed(AllWritten(ops, y))
  {
    if ops != [] {
      var init, op := ops[..|ops| - 1], ops[|ops| - 1];
      assert ops == init + [op];
      TemplateIsPrinted(init, y);
      TemplateSnoc(init, op, y);
      PrintedSnoc(AllWritten(init, y), WrittenAs(op, y));
      OperandIsPiece(op, y);
    }
  }

  function Exprs(pieces: seq<Piece>): nat {
    if pieces == [] then 0 else (if pieces[0].Expr? then 1 else 0) + Exprs(pieces[1..])
  }

  // Merging texts loses no expression.
  lemma {:induction false} MergeKeepsExprs(pieces: seq<Piece>)
    ensures Exprs(Merge(pieces)) == Exprs(pieces)
  {
    if pieces != [] {
      MergeKeepsExprs(pieces[1..]);
      var rest := Merge(pieces[1..]);
      if pieces[0].Text? {
        AddTextKeepsExprs(pieces[0].text, rest);
      } else {
        assert ([pieces[0]] + rest)[1..] == rest;
      }
    }
  }

  lemma {:induction false} AddTextKeepsExprs(t: string, pieces: seq<Piece>)
    ensures Exprs(AddText(t, pieces)) == Exprs(pieces)
  {
    if t != "" {
      var rest := if pieces != [] && pieces[0].Text? then pieces[1..] else pieces;
      assert AddText(t, pieces)[0].Text? && AddText(t, pieces)[1..] == rest;
    }
  }

  // An operand that starts with a literal and goes on.
  predicate LiteralFirst(op: seq<Tok>) {
    |op| > 1 && op[0].ttype == T_QUOTED
  }

  lemma {:induction false} ExprsSnoc(pieces: seq<Piece>, p: Piece)
    ensures Exprs(pieces + [p]) == Exprs(pieces) + if p.Expr? then 1 else 0
  {
    if pieces == [] {
      assert [] + [p] == [p] && [p][1..] == [];
    } else {
      assert (pieces + [p])[1..] == pieces[1..] + [p];
      ExprsSnoc(pieces[1..], p);
    }
  }

  predicate NoneLiteralFirst(ops: seq<seq<Tok>>) {
    forall op :: op in ops ==> !LiteralFirst(op)
  }

  lemma {:induction false} NoneLiteralSnoc(init: seq<seq<Tok>>, op: seq<Tok>)
    ensures NoneLiteralFirst(init + [op]) <==> NoneLiteralFirst(init) && !LiteralFirst(op)
  {
    if NoneLiteralFirst(init + [op]) {
      assert op in init + [op];
      assert forall o :: o in init ==> o in init + [op];
    }
  }

  lemma {:induction false} ExprsWritten(ops: seq<seq<Tok>>, y: Style)
    requires AllOk(ops)
    ensures Exprs(AllWritten(ops, y)) <= Exprs(PiecesOf(ops, y))
    ensures Exprs(AllWritten(ops, y)) == Exprs(PiecesOf(ops, y)) <==> NoneLiteralFirst(ops)
  {
    if ops != [] {
      var init, op := ops[..|ops| - 1], ops[|ops| - 1];
      assert ops == init + [op] && OperandOk(op);
      ExprsWritten(init, y);
      NoneLiteralSnoc(init, op);
      ExprsSnoc(AllWritten(init, y), WrittenAs(op, y));
      ExprsSnoc(PiecesOf(init, y), PieceOf(op, y));
      assert WrittenAs(op, y).Expr? <==> PieceOf(op, y).Expr? && !LiteralFirst(op);
    }
  }

  lemma {:induction false} SameWritten(ops: seq<seq<Tok>>, y: Style)
    requires AllOk(ops) && NoneLiteralFirst(ops) && !y.quotes
    ensures AllWritten(ops, y) == PiecesOf(ops, y)
  {
    if ops != [] {
      var init, op := ops[..|ops| - 1], ops[|ops| - 1];
      assert ops == init + [op] && OperandOk(op);
      NoneLiteralSnoc(init, op);
      SameWritten(init, y);
      assert WrittenAs(op, y) == PieceOf(op, y);
    }
  }

  // What is written can be read back.
  lemma {:induction false} WrittenOk(ops: seq<seq<Tok>>, y: Style)
    requires AllOk(ops) && AllReadable(ops) && y.braces && !y.quotes && !y.xpath && !y.escape
    ensures forall i :: 0 <= i < |AllWritten(ops, y)| && AllWritten(ops, y)[i].Expr? ==>
      ExprOk(AllWritten(ops, y)[i].source)
  {
    if ops != [] {
      var init, op := ops[..|ops| - 1], ops[|ops| - 1];
      WrittenOk(init, y);
      assert OperandReadable(op);
      if op[0].ttype != T_QUOTED {
        OperandExprOk(op, y.(quotes := true));
      }
    }
  }

  /**
    A concatenation printed as an attribute value template and split again gives its operands back, the
    literals as text, everything else as the expression it is, exactly if no operand starts with a literal
    and goes on: that one is written without braces.
   */
  lemma {:induction false} TemplateRoundTrip(ops: seq<seq<Tok>>, y: Style)
    requires AllOk(ops) && AllReadable(ops) && y.braces && !y.quotes && !y.xpath && !y.escape
    ensures Split(TemplateText(ops, y)) == Some(Merge(PiecesOf(ops, y))) <==> NoneLiteralFirst(ops)
  {
    var pieces, meant := AllWritten(ops, y), PiecesOf(ops, y);
    TemplateIsPrinted(ops, y);
    WrittenOk(ops, y);
    PrintedSplits(pieces);
    ExprsWritten(ops, y);
    MergeKeepsExprs(pieces);
    MergeKeepsExprs(meant);
    if NoneLiteralFirst(ops) { SameWritten(ops, y); }
  }

  // ----- a single number or literal

  // slaxStringIsSimple2
  predicate Lone(ops: seq<seq<Tok>>) {
    |ops| == 1 && |ops[0]| == 1 && (ops[0][0].ttype == T_QUOTED || ops[0][0].ttype == T_NUMBER)
  }

  function ValueText(ops: seq<seq<Tok>>, y: Style): string
    requires AllOk(ops)
  {
    if Lone(ops) then Joined(ops[0], y) else TemplateText(ops, y)
  }

  // A number on its own is meant as the text it is written as.
  function ValuePieces(ops: seq<seq<Tok>>, y: Style): seq<Piece>
    requires AllOk(ops)
  {
    if Lone(ops) then [Text(ops[0][0].token)] else PiecesOf(ops, y)
  }

  /** slaxStringAsValueTemplate */
  method AsValueTemplate(ops: seq<seq<Tok>>, flags: Style) returns (s: string)
    requires AllOk(ops) && ops != [] && !flags.noparens
    ensures s == ValueText(ops, flags.(braces := true))
  {
    var y := flags.(braces := true);
    if |ops| == 1 && |ops[0]| == 1 && (ops[0][0].ttype == T_QUOTED || ops[0][0].ttype == T_NUMBER) {
      s := AsChar(ops[0], y);
      return;
    }
    var len := TemplateLength(ops, y);
    s := TemplateCopy(len, ops, y);
  }

  /** The value of any attribute, a lone number or literal included, is split into what it is meant as. */
  lemma {:induction false} ValueRoundTrip(ops: seq<seq<Tok>>, y: Style)
    requires AllOk(ops) && AllReadable(ops) && y.braces && !y.quotes && !y.xpath && !y.escape
    ensures Split(ValueText(ops, y)) == Some(Merge(ValuePieces(ops, y))) <==> NoneLiteralFirst(ops)
  {
    if Lone(ops) {
      LoneRoundTrip(ops[0], y);
      assert forall op :: op in ops ==> op == ops[0];
    } else {
      TemplateRoundTrip(ops, y);
    }
  }

  lemma {:induction false} LoneRoundTrip(op: seq<Tok>, y: Style)
    requires Lone([op]) && OperandReadable(op) && y.braces && !y.quotes && !y.xpath
    ensures Split(Joined(op, y)) == Some(Merge([Text(op[0].token)]))
  {
    var pieces := [Text(op[0].token)];
    assert op[0] in op && pieces[1..] == [];
    PrintedSplits(pieces);
    if op[0].ttype == T_NUMBER { DoubledPlain(op[0].token); }
    assert Printed(pieces) == Doubled(op[0].token) + "" == Doubled(op[0].token);
  }

  /** A lone number or literal is text in the template, without braces around it. */
  lemma {:induction false} LoneIsText(t: Tok, y: Style)
    requires (t.ttype == T_QUOTED || t.ttype == T_NUMBER) && t.token != "" && AllOk([[t]]) && OperandReadable([t])
    requires y.braces && !y.quotes && !y.xpath
    ensures Split(ValueText([[t]], y)) == Some([Text(t.token)])
  {
    LoneRoundTrip([t], y);
    assert Lone([[t]]) && ValueText([[t]], y) == Joined([t], y);
    assert [Text(t.token)][1..] == [] && AddText(t.token, []) == [Text(t.token)];
  }

  lemma {:induction false} WithGap(done: seq<Tok>, t: Tok, y: Style, text: string)
    requires done != [] && Joined(done, y) == text && (|text| == 1 ==> text[0] != '-')
    requires done[|done| - 1].ttype in {T_QUOTED, L_EQUALS} && t.ttype in {L_EQUALS, T_VAR}
    ensures Joined(done + [t], y) == text + " " + Render(t, y)
  {
    assert (done + [t])[..|done|] == done;
  }

  const COMPARISON := [Tok(T_QUOTED, "a"), Tok(L_EQUALS, "="), Tok(T_VAR, "$b")]

  lemma {:induction false} ComparisonText(y: Style)
    requires y.braces && !y.quotes && !y.xpath
    ensures Joined(COMPARISON, y) == "a" + " " + "=" + " " + "$b"
  {
    var a, e, b := Tok(T_QUOTED, "a"), Tok(L_EQUALS, "="), Tok(T_VAR, "$b");
    OneLiteral(a, y);
    WithGap([a], e, y, "a");
    WithGap([a] + [e], b, y, Joined([a] + [e], y));
    assert [a] + [e] + [b] == COMPARISON;
  }

  lemma {:induction false} OneLiteral(a: Tok, y: Style)
    requires a.ttype == T_QUOTED && y.braces && !y.quotes && forall c :: c in a.token ==> !IsBrace(c)
    ensures Joined([a], y) == a.token
  {
    DoubledPlain(a.token);
  }

  // The comparison "a" = $b is written as the text a = $b.
  lemma {:induction false} ComparisonLosesBraces(y: Style)
    requires y.braces && !y.quotes && !y.xpath && !y.escape
    ensures AllOk([COMPARISON]) && TemplateText([COMPARISON], y) == "a = $b"
    ensures Split("a = $b") != Some(Merge(PiecesOf([COMPARISON], y)))
  {
    var ops := [COMPARISON];
    assert ops[..0] == [];
    ComparisonText(y);
    assert "a" + " " + "=" + " " + "$b" == "a = $b";
    assert COMPARISON in ops && LiteralFirst(COMPARISON);
    TemplateRoundTrip(ops, y);
  }
}
