/**
  Token lists rendered into a buffer sized beforehand, with a parallel row of line-break marks.
 */
module SlaxRender {
  import opened SlaxString
  import SlaxConcat

  // SSF_QUOTES, SSF_BRACES, SSF_ESCAPE, SSF_XPATH, SSF_NOPARENS, SSF_ATTRIB
  datatype Style = Style(quotes: bool, braces: bool, escape: bool, xpath: bool, noparens: bool, attrib: bool)

  const NUL: char := '\0'

  // ----- what each token looks like

  predicate NeedsEscape(c: char) {
    c == '\t' || c == '\n' || c == '\r' || c == '\\'
  }

  function EscapedTo(c: char): char {
    if c == '\t' then 't' else if c == '\n' then 'n' else if c == '\r' then 'r' else c
  }

  function EscapedChar(c: char): string {
    if NeedsEscape(c) then ['\\', EscapedTo(c)] else [c]
  }

  function EscapedText(s: string): string {
    if s == "" then "" else EscapedText(s[..|s| - 1]) + EscapedChar(s[|s| - 1])
  }

  // What a string says when a backslash before n, r or t stands for a control character.
  function Read(s: string): string {
    if s == "" then ""
    else if s[0] == '\\' && |s| > 1 then
      [match s[1] case 'n' => '\U{a}' case 'r' => '\U{d}' case 't' => '\U{9}' case c => c] + Read(s[2..])
    else [s[0]] + Read(s[1..])
  }

  /** An escaped text reads as the text. */
  lemma {:induction false} EscapedReads(s: string, rest: string)
    ensures Read(EscapedText(s) + rest) == s + Read(rest)
  {
    if s == "" {
      assert EscapedText(s) + rest == rest && s + Read(rest) == Read(rest);
    } else {
      var init, c := s[..|s| - 1], s[|s| - 1];
      EscapedReads(init, EscapedChar(c) + rest);
      EscapedCharReads(c, rest);
      EscapedJoin(EscapedText(init), EscapedChar(c), rest);
      EscapedJoin(init, [c], Read(rest));
      assert init + [c] == s;
    }
  }

  lemma {:induction false} EscapedJoin(a: string, b: string, c: string)
    ensures a + b + c == a + (b + c)
  {
  }

  /** It holds no tab and no line break. */
  lemma {:induction false} EscapedOneLine(s: string)
    ensures '\U{9}' !in EscapedText(s) && '\U{a}' !in EscapedText(s) && '\U{d}' !in EscapedText(s)
  {
    if s != "" {
      EscapedOneLine(s[..|s| - 1]);
    }
  }

  lemma {:induction false} EscapedCharReads(c: char, rest: string)
    ensures Read(EscapedChar(c) + rest) == [c] + Read(rest)
  {
    var e := EscapedChar(c) + rest;
    assert e[|EscapedChar(c)|..] == rest;
  }

  predicate IsDouble(c: char) {
    c == '"'
  }

  predicate IsBrace(c: char) {
    c == '{' || c == '}'
  }

  function DoubledChar(c: char): string {
    if IsBrace(c) then [c, c] else [c]
  }

  function Doubled(s: string): string {
    if s == "" then "" else Doubled(s[..|s| - 1]) + DoubledChar(s[|s| - 1])
  }

  function QuoteFor(s: string): char {
    if '"' in s && '\'' !in s then '\'' else '"'
  }

  function Render(t: Tok, y: Style): string {
    if t.ttype == T_QUOTED && y.quotes then
      [QuoteFor(t.token)] + (if y.escape then EscapedText(t.token) else t.token) + [QuoteFor(t.token)]
    else if t.ttype == T_QUOTED && y.braces then Doubled(t.token)
    else if t.ttype == T_VAR && y.xpath then "{" + t.token + "}"
    else t.token
  }

  // Tokens that are not followed by a space of their own.
  predicate Axis(t: Tok) {
    t.ttype == T_AXIS_NAME || t.ttype == L_DCOLON
  }

  // Only a literal may be empty, and the lexer gives no axis that ends in a space.
  predicate TokOk(t: Tok) {
    && NUL !in t.token
    && (t.token == "" ==> t.ttype == T_QUOTED)
    && (Axis(t) ==> t.token[|t.token| - 1] != ' ')
  }

  // ----- the room set aside

  function CountOf(s: string, p: char -> bool): nat {
    if s == "" then 0 else CountOf(s[..|s| - 1], p) + if p(s[|s| - 1]) then 1 else 0
  }

  function Cost(t: Tok, y: Style): nat {
    |t.token|
    + (if Axis(t) then 0 else 1)
    + (if t.ttype == T_QUOTED then
         (if y.quotes then 2 + CountOf(t.token, IsDouble) else 0)
         + (if y.braces then CountOf(t.token, IsBrace) else 0)
         + (if y.escape then CountOf(t.token, NeedsEscape) else 0)
       else if t.ttype == T_VAR && y.xpath then 2 else 0)
  }

  function Costs(toks: seq<Tok>, y: Style): nat {
    if toks == [] then 0 else Costs(toks[..|toks| - 1], y) + Cost(toks[|toks| - 1], y)
  }

  lemma {:induction false} CountsAre(s: string)
    ensures CountOf(s, IsDouble) == multiset(s)['"'] && CountOf(s, IsBrace) == multiset(s)['{'] + multiset(s)['}']
    ensures CountOf(s, NeedsEscape) ==
      multiset(s)['\U{9}'] + multiset(s)['\U{a}'] + multiset(s)['\U{d}'] + multiset(s)['\\']
  {
    if s != "" {
      CountsAre(s[..|s| - 1]);
      assert s == s[..|s| - 1] + [s[|s| - 1]];
    }
  }

  /** A literal is given room for its text, a space, and by the style: two quotes and a place for each double quote,
      a place for each brace, a place for each tab, line break and backslash. */
  lemma {:induction false} LiteralCost(t: Tok, y: Style)
    requires t.ttype == T_QUOTED
    ensures var n := multiset(t.token);
      Cost(t, y) == |t.token| + 1 + (if y.quotes then 2 + n['"'] else 0) + (if y.braces then n['{'] + n['}'] else 0)
        + (if y.escape then n['\U{9}'] + n['\U{a}'] + n['\U{d}'] + n['\\'] else 0)
  {
    CountsAre(t.token);
  }

  lemma {:induction false} EscapedLength(s: string)
    ensures |EscapedText(s)| == |s| + CountOf(s, NeedsEscape)
  {
    if s != "" { EscapedLength(s[..|s| - 1]); }
  }

  lemma {:induction false} DoubledLength(s: string)
    ensures |Doubled(s)| == |s| + CountOf(s, IsBrace)
  {
    if s != "" { DoubledLength(s[..|s| - 1]); }
  }

  /** The room set aside for a token holds its rendering and the space behind it. */
  lemma {:induction false} RenderFits(t: Tok, y: Style)
    ensures |Render(t, y)| + (if Axis(t) then 0 else 1) <= Cost(t, y)
  {
    EscapedLength(t.token);
    DoubledLength(t.token);
  }

  lemma {:induction false} RenderHolds(t: Tok, y: Style)
    ensures |t.token| + (if y.quotes && t.ttype == T_QUOTED then 2 else 0) <= |Render(t, y)|
  {
    EscapedLength(t.token);
    DoubledLength(t.token);
  }

  lemma {:induction false} CostsSplit(a: seq<Tok>, b: seq<Tok>, y: Style)
    ensures Costs(a + b, y) == Costs(a, y) + Costs(b, y)
  {
    if b == [] {
      assert a + b == a;
    } else {
      assert (a + b)[..|a + b| - 1] == a + b[..|b| - 1];
      CostsSplit(a, b[..|b| - 1], y);
    }
  }

  // A parenthesis opens the list and is first closed by its last token.
  predicate Enclosed(toks: seq<Tok>) {
    && |toks| > 0 && toks[0].ttype == L_OPAREN && toks[|toks| - 1].ttype == L_CPAREN
    && forall i :: 0 <= i < |toks| - 1 && toks[i].ttype == L_CPAREN ==> SlaxConcat.Net(toks[..i + 1]) != 0
  }

  predicate Matched(toks: seq<Tok>) {
    SlaxConcat.Net(toks) == 0 && forall i :: 0 <= i <= |toks| ==> SlaxConcat.Net(toks[..i]) >= 0
  }

  /** The outer parentheses of a well-nested list can be dropped exactly when they enclose the whole of it. */
  lemma {:induction false} EnclosedDrops(toks: seq<Tok>)
    requires Matched(toks) && |toks| >= 2 && toks[0].ttype == L_OPAREN && toks[|toks| - 1].ttype == L_CPAREN
    ensures Enclosed(toks) <==> Matched(toks[1..|toks| - 1])
  {
    var inner, n := toks[1..|toks| - 1], |toks|;
    forall i | 0 <= i <= n - 2
      ensures SlaxConcat.Net(toks[..i + 1]) == 1 + SlaxConcat.Net(inner[..i])
    {
      assert toks[..i + 1] == [toks[0]] + inner[..i];
      SlaxConcat.NetConcat([toks[0]], inner[..i]);
      SlaxConcat.NetOne(toks[0]);
    }
    assert inner[..n - 2] == inner;
    assert toks[..n] == toks && toks[..n][..n - 1] == toks[..n - 1];
    if Enclosed(toks) {
      forall i | 0 <= i <= n - 2
        ensures SlaxConcat.Net(inner[..i]) >= 0
      {
        StaysOpen(toks, i);
      }
    }
    if Matched(inner) {
      forall i | 0 <= i < n - 1 && toks[i].ttype == L_CPAREN
        ensures SlaxConcat.Net(toks[..i + 1]) != 0
      {
        assert SlaxConcat.Net(inner[..i]) >= 0;
      }
    }
  }

  lemma {:induction false} StaysOpen(toks: seq<Tok>, i: nat)
    requires Matched(toks) && Enclosed(toks) && i + 1 < |toks|
    ensures SlaxConcat.Net(toks[..i + 1]) >= 1
  {
    assert toks[..i + 1][..i] == toks[..i];
    assert SlaxConcat.Net(toks[..i + 1]) >= 0;
    if i > 0 {
      StaysOpen(toks, i - 1);
    } else {
      assert toks[..0] == [];
    }
  }

  // The room that one token needs.
  method TokenRoom(t: Tok, y: Style) returns (len: nat)
    ensures len == Cost(t, y)
  {
    len := |t.token|;
    if !Axis(t) {
      len := len + 1;
    }
    if t.ttype == T_QUOTED {
      if y.quotes {
        var extra := Count(t.token, IsDouble);
        len := len + 2 + extra;
      }
      if y.braces {
        var extra := Count(t.token, IsBrace);
        len := len + extra;
      }
      if y.escape {
        var extra := Count(t.token, NeedsEscape);
        len := len + extra;
      }
    } else if t.ttype == T_VAR && y.xpath {
      len := len + 2;
    }
  }

  /** slaxStringLengthCheck */
  method LengthCheck(toks: seq<Tok>, y: Style, track: bool) returns (len: nat, hasParens: bool)
    ensures len == Costs(toks, y) + 1
    ensures hasParens <==> track && Enclosed(toks)
  {
    len, hasParens := 0, false;
    var soFar, depth, first := false, 0, true;
    for i := 0 to |toks|
      invariant len == Costs(toks[..i], y)
      invariant first == (i == 0 || !track)
      invariant track ==> depth == SlaxConcat.Net(toks[..i])
      invariant track && 0 < i < |toks| ==>
        soFar == (toks[0].ttype == L_OPAREN
                  && forall k :: 0 <= k < i && toks[k].ttype == L_CPAREN ==> SlaxConcat.Net(toks[..k + 1]) != 0)
      invariant hasParens <==> track && i == |toks| && Enclosed(toks)
    {
      var t := toks[i];
      assert toks[..i + 1][..i] == toks[..i];
      if track {
        if first {
          soFar := t.ttype == L_OPAREN;
          first := false;
        }
        if t.ttype == L_OPAREN {
          depth := depth + 1;
        } else if t.ttype == L_CPAREN {
          depth := depth - 1;
          if depth == 0 && i + 1 < |toks| {
            soFar := false;
          }
        }
        if i + 1 == |toks| {
          if t.ttype != L_CPAREN {
            soFar := false;
          }
          hasParens := soFar;
        }
      }
      var more := TokenRoom(t, y);
      len := len + more;
    }
    assert toks[..|toks|] == toks;
    len := len + 1;
  }

  method Count(s: string, p: char -> bool) returns (n: nat)
    ensures n == CountOf(s, p)
  {
    n := 0;
    for i := 0 to |s|
      invariant n == CountOf(s[..i], p)
    {
      assert s[..i + 1][..i] == s[..i];
      if p(s[i]) { n := n + 1; }
    }
    assert s[..|s|] == s;
  }

  // ----- spaces between tokens

  predicate NoSpace(t: TType) {
    t == L_AT || t == L_SLASH || t == L_DSLASH || t == L_OPAREN || t == L_CPAREN || t == L_OBRACK || t == L_CBRACK
  }

  predicate Closer(t: TType) {
    t == L_CPAREN || t == L_CBRACK
  }

  // slaxStringTrimSpace, where text is what stands before the trailing space.
  predicate Trim(text: string, last: TType, following: TType) {
    if Closer(last)
       && !(Closer(following) || following == L_OBRACK || following == L_SLASH || following == L_DSLASH) then
      following == L_COMMA
    else TrimInside(text == "" || text[|text| - 1] == ',', text == "-", last, following)
  }

  // The same, were closers not special, for a text that ends in a comma or is a lone minus sign.
  predicate TrimInside(comma: bool, minus: bool, last: TType, following: TType) {
    if last == L_UNDERSCORE || following == L_UNDERSCORE then false
    else if following == L_COMMA then true
    else if Infix(last) && following == L_OPAREN then false
    else if last == L_CBRACK && following == L_OBRACK then true
    else if last == L_QUESTION && following == L_COLON then true
    else if NoSpace(last) || NoSpace(following) then !comma
    else
      || (last == T_NUMBER && following == L_DOT)
      || (last == L_DOT && following == T_NUMBER)
      || minus
  }

  predicate Infix(t: TType) {
    t == L_PLUS || t == L_MINUS || t == L_STAR || t == L_UNDERSCORE || t == L_QUESTION || t == L_COLON
  }

  // Whether a space separates the text so far, which ends in the token prev, from the token t.
  predicate Gap(text: string, prev: Tok, t: Tok) {
    !Axis(prev) && !(text != "" && Trim(text, prev.ttype, t.ttype))
  }

  /** The tokens in order, each with or without one space before it. */
  function Joined(toks: seq<Tok>, y: Style): string {
    if toks == [] then ""
    else if |toks| == 1 then Render(toks[0], y)
    else
      var init := toks[..|toks| - 1];
      var text := Joined(init, y);
      text + (if Gap(text, init[|init| - 1], toks[|toks| - 1]) then " " else "") + Render(toks[|toks| - 1], y)
  }

  // What stands between the tokens done and the next one.
  function Sep(done: seq<Tok>, t: Tok, y: Style): string {
    if done != [] && Gap(Joined(done, y), done[|done| - 1], t) then " " else ""
  }

  lemma {:induction false} JoinedSnoc(done: seq<Tok>, t: Tok, y: Style)
    requires (forall d :: d in done ==> TokOk(d)) && TokOk(t)
    ensures forall d :: d in done + [t] ==> TokOk(d)
    ensures Joined(done + [t], y) == Joined(done, y) + Sep(done, t, y) + Render(t, y)
    ensures Marks(done + [t], y) == Marks(done, y) + Sep(done, t, y) + MarkRow(t, Last(done), y)
    ensures Sep(done, t, y) ==
      if Joined(done, y) != "" && Trim(Joined(done, y), Last(done), t.ttype) then "" else Pending(done)
  {
    assert (done + [t])[..|done|] == done;
  }

  // A text that ends in an axis ends in that axis's own last character.
  lemma {:induction false} JoinedEnd(toks: seq<Tok>, y: Style)
    requires forall t :: t in toks ==> TokOk(t)
    ensures toks != [] && Axis(toks[|toks| - 1]) ==>
      Joined(toks, y) != "" && Joined(toks, y)[|Joined(toks, y)| - 1] != ' '
  {
    if toks != [] {
      assert toks[|toks| - 1] in toks;
    }
  }

  function Pending(toks: seq<Tok>): string {
    if toks == [] || Axis(toks[|toks| - 1]) then "" else " "
  }

  function Last(toks: seq<Tok>): TType {
    if toks == [] then T_NONE else toks[|toks| - 1].ttype
  }

  /** slaxStringTrimSpace, with a space at bp - 1. */
  method TrimSpace(this_ttype: TType, last: TType, buf: array<char>, bp: nat) returns (trim: bool)
    requires 1 < bp <= buf.Length
    ensures trim == Trim(buf[..bp - 1], last, this_ttype)
  {
    trim := false;
    var comma := false;
    if last == L_UNDERSCORE || this_ttype == L_UNDERSCORE {
      trim := false;
    } else if this_ttype == L_COMMA {
      trim, comma := true, true;
    } else if Infix(last) && this_ttype == L_OPAREN {
      trim := false;
    } else if last == L_CBRACK && this_ttype == L_OBRACK {
      trim := true;
    } else if last == L_QUESTION && this_ttype == L_COLON {
      trim := true;
    } else if NoSpace(last) || NoSpace(this_ttype) {
      if bp >= 2 && buf[bp - 2] != ',' { trim := true; }
    } else if last == T_NUMBER && this_ttype == L_DOT {
      trim := true;
    } else if last == L_DOT && this_ttype == T_NUMBER {
      trim := true;
    } else if bp == 2 && buf[0] == '-' {
      trim := true;
    }
    assert bp == 2 ==> buf[..bp - 1] == [buf[0]];
    assert trim == TrimInside(buf[bp - 2] == ',', bp == 2 && buf[0] == '-', last, this_ttype);
    if Closer(last)
      && !(Closer(this_ttype) || this_ttype == L_OBRACK || this_ttype == L_SLASH || this_ttype == L_DSLASH) {
      trim := comma;
    }
  }

  // ----- marks

  predicate Multi(t: TType) {
    t == L_DCOLON || t == L_DAMPER || t == L_DEQUALS || t == L_DOTDOT || t == L_DSLASH || t == L_DVBAR
    || t == L_GRTREQ || t == L_LESSEQ || t == L_NOTEQUALS
  }

  // The mark at the first character of a token that is copied as it is; a space for none.
  function MarkFor(t: Tok, last: TType, y: Style): char
    requires TokOk(t)
  {
    if t.token == "" then ' '
    else if t.ttype == L_SLASH then '/'
    else if y.attrib && t.ttype == L_EQUALS then ' '
    else if Multi(t.ttype) then t.token[0]
    else if !Closer(t.ttype) && Closer(last) then t.token[0]
    else if t.ttype == L_COMMA || t.ttype == L_UNDERSCORE then t.token[0]
    else ' '
  }

  predicate Plain(t: Tok, y: Style) {
    !(t.ttype == T_QUOTED && (y.quotes || y.braces)) && !(t.ttype == T_VAR && y.xpath)
  }

  function MarkRow(t: Tok, last: TType, y: Style): (row: string)
    requires TokOk(t)
    ensures |row| == |Render(t, y)|
  {
    if Plain(t, y) && t.token != "" then [MarkFor(t, last, y)] + Blanks(|t.token| - 1)
    else Blanks(|Render(t, y)|)
  }

  function Marks(toks: seq<Tok>, y: Style): (m: string)
    requires forall t :: t in toks ==> TokOk(t)
    ensures |m| == |Joined(toks, y)|
  {
    if toks == [] then ""
    else if |toks| == 1 then MarkRow(toks[0], T_NONE, y)
    else
      var init := toks[..|toks| - 1];
      Marks(init, y)
      + (if Gap(Joined(init, y), init[|init| - 1], toks[|toks| - 1]) then " " else "")
      + MarkRow(toks[|toks| - 1], Last(init), y)
  }

  // Every mark is a blank or the character it stands under.
  predicate Under(marks: string, text: string) {
    |marks| == |text| && forall k :: 0 <= k < |marks| ==> marks[k] == ' ' || marks[k] == text[k]
  }

  lemma {:induction false} UnderConcat(m: string, s: string, n: string, t: string)
    requires Under(m, s) && Under(n, t)
    ensures Under(m + n, s + t)
  {
  }

  lemma {:induction false} RowUnder(t: Tok, last: TType, y: Style)
    requires TokOk(t) && (t.ttype == L_SLASH ==> t.token[0] == '/')
    ensures Under(MarkRow(t, last, y), Render(t, y))
  {
  }

  /** A mark repeats the character it stands under, given that slashes are spelled "/". */
  lemma {:induction false} MarksMatch(toks: seq<Tok>, y: Style)
    requires forall t :: t in toks ==> TokOk(t) && (t.ttype == L_SLASH ==> t.token[0] == '/')
    ensures Under(Marks(toks, y), Joined(toks, y))
  {
    if toks != [] {
      var init, t := toks[..|toks| - 1], toks[|toks| - 1];
      assert toks == init + [t] && t in toks;
      MarksMatch(init, y);
      JoinedSnoc(init, t, y);
      var sep := Sep(init, t, y);
      UnderConcat(Marks(init, y), Joined(init, y), sep, sep);
      RowUnder(t, Last(init), y);
      UnderConcat(Marks(init, y) + sep, Joined(init, y) + sep, MarkRow(t, Last(init), y), Render(t, y));
    }
  }

  // Names, numbers and literals: no operator, bracket, slash or dot.
  predicate WordLike(t: Tok) {
    t.ttype == T_NUMBER || t.ttype == T_QUOTED || t.ttype == T_VAR || t.ttype == T_FUNCTION_NAME || t.ttype == M_XPATH
    || t.ttype > L_NOTEQUALS
  }

  /** Two names, numbers or literals next to each other stay apart, unless all that precedes is a minus sign. */
  lemma {:induction false} WordsStayApart(toks: seq<Tok>, y: Style, a: Tok, b: Tok)
    requires WordLike(a) && WordLike(b)
    requires Joined(toks + [a], y) != "-"
    ensures Joined(toks + [a, b], y) == Joined(toks + [a], y) + " " + Render(b, y)
  {
    var all := toks + [a, b];
    assert all[..|all| - 1] == toks + [a];
  }

  lemma {:induction false} JoinedPair(toks: seq<Tok>, y: Style, a: Tok, b: Tok, text: string, gap: bool)
    requires text == Joined(toks + [a], y) && Gap(text, a, b) == gap
    ensures Joined(toks + [a, b], y) == text + (if gap then " " else "") + Render(b, y)
  {
    var all := toks + [a, b];
    assert all[..|all| - 1] == toks + [a];
  }

  lemma {:induction false} JoinedThree(toks: seq<Tok>, y: Style, a: Tok, m: Tok, b: Tok, text: string, text': string,
                                       gap: bool, gap': bool)
    requires text == Joined(toks + [a], y) && Gap(text, a, m) == gap
    requires text' == text + (if gap then " " else "") + Render(m, y) && Gap(text', m, b) == gap'
    ensures Joined(toks + [a, m, b], y) == text' + (if gap' then " " else "") + Render(b, y)
  {
    JoinedPair(toks, y, a, m, text, gap);
    assert toks + [a] + [m] == toks + [a, m] && toks + [a] + [m, b] == toks + [a, m, b];
    JoinedPair(toks + [a], y, m, b, text', gap');
  }

  const OPERATORS: set<TType> := {L_PLUS, L_MINUS, L_STAR, L_UNDERSCORE, L_QUESTION, L_COLON, L_EQUALS, L_DEQUALS,
                                  L_NOTEQUALS, L_LESSEQ, L_GRTREQ, L_DAMPER, L_DVBAR}

  lemma {:induction false} OperatorGap(text: string, a: Tok, op: Tok)
    requires WordLike(a) && text != "-"
    requires op.ttype in OPERATORS
    ensures Gap(text, a, op)
  {
  }

  lemma {:induction false} OperandGap(text: string, op: Tok, b: Tok)
    requires text != "-"
    requires WordLike(b) || (b.ttype == L_OPAREN && op.ttype in {L_PLUS, L_MINUS, L_STAR, L_QUESTION, L_COLON})
    requires op.ttype in OPERATORS || op.ttype == L_COMMA
    ensures Gap(text, op, b)
  {
  }

  lemma {:induction false} TightGap(text: string, a: Tok, m: Tok)
    requires text != "" && text[|text| - 1] != ','
    requires WordLike(a) && m.ttype in {L_SLASH, L_DSLASH, L_AT, L_OPAREN, L_OBRACK, L_CPAREN, L_CBRACK}
    ensures !Gap(text, a, m)
  {
  }

  lemma {:induction false} OpenerGap(text: string, m: Tok, b: Tok)
    requires text != "" && text[|text| - 1] != ','
    requires WordLike(b) && m.ttype in {L_SLASH, L_DSLASH, L_AT, L_OPAREN, L_OBRACK}
    ensures !Gap(text, m, b)
  {
  }

  lemma {:induction false} CloserGap(text: string, close: Tok, b: Tok)
    requires text != "" && text[|text| - 1] != ',' && close.ttype in {L_CPAREN, L_CBRACK}
    ensures WordLike(b) || b.ttype in {L_PLUS, L_MINUS, L_STAR, L_UNDERSCORE, L_EQUALS, L_OPAREN, L_AT} ==>
      Gap(text, close, b)
    ensures b.ttype in {L_SLASH, L_DSLASH, L_CPAREN, L_CBRACK, L_OBRACK} ==> !Gap(text, close, b)
  {
  }

  /** An operator between two words keeps the space before it and the one behind it, also before a parenthesis. */
  lemma {:induction false} OperatorKeepsSpaces(toks: seq<Tok>, y: Style, a: Tok, op: Tok, b: Tok)
    requires WordLike(a) && Joined(toks + [a], y) != "-"
    requires WordLike(b) || (b.ttype == L_OPAREN && op.ttype in {L_PLUS, L_MINUS, L_STAR, L_QUESTION, L_COLON})
    requires op.ttype in OPERATORS
    ensures Joined(toks + [a, op, b], y) == Joined(toks + [a], y) + " " + Render(op, y) + " " + Render(b, y)
  {
    var text := Joined(toks + [a], y);
    OperatorGap(text, a, op);
    assert (text + " " + Render(op, y))[|text|] == ' ';
    OperandGap(text + " " + Render(op, y), op, b);
    JoinedThree(toks, y, a, op, b, text, text + " " + Render(op, y), true, true);
  }

  /** A number has no space before or behind its dot. */
  lemma {:induction false} DotInNumber(toks: seq<Tok>, y: Style, whole: Tok, dot: Tok, part: Tok)
    requires whole.ttype == part.ttype == T_NUMBER && dot.ttype == L_DOT && Joined(toks + [whole], y) != ""
    ensures Joined(toks + [whole, dot, part], y) == Joined(toks + [whole], y) + Render(dot, y) + Render(part, y)
  {
    var text := Joined(toks + [whole], y);
    assert text + "" + Render(dot, y) == text + Render(dot, y);
    JoinedThree(toks, y, whole, dot, part, text, text + Render(dot, y), false, false);
  }

  /** A comma follows at once and has a space behind it. */
  lemma {:induction false} CommaThenSpace(toks: seq<Tok>, y: Style, a: Tok, comma: Tok, b: Tok)
    requires (WordLike(a) || a.ttype == L_CPAREN || a.ttype == L_CBRACK) && comma.ttype == L_COMMA && WordLike(b)
    requires Joined(toks + [a], y) != "" && Render(comma, y) == ","
    ensures Joined(toks + [a, comma, b], y) == Joined(toks + [a], y) + ", " + Render(b, y)
  {
    var text := Joined(toks + [a], y);
    assert text + "" + "," == text + "," && text + "," + " " == text + ", ";
    OperandGap(text + ",", comma, b);
    JoinedThree(toks, y, a, comma, b, text, text + ",", false, true);
  }

  /** Slashes, at signs and opening brackets stand close to the words around them, unless a comma comes first. */
  lemma {:induction false} PathIsTight(toks: seq<Tok>, y: Style, a: Tok, m: Tok, b: Tok)
    requires WordLike(a) && WordLike(b) && m.ttype in {L_SLASH, L_DSLASH, L_AT, L_OPAREN, L_OBRACK}
    requires Joined(toks + [a], y) != "" && EndOf(Joined(toks + [a], y)) != ',' && EndOf(Render(m, y)) !in {',', NUL}
    ensures Joined(toks + [a, m, b], y) == Joined(toks + [a], y) + Render(m, y) + Render(b, y)
  {
    var text := Joined(toks + [a], y);
    TightGap(text, a, m);
    assert text + "" + Render(m, y) == text + Render(m, y);
    OpenerGap(text + Render(m, y), m, b);
    JoinedThree(toks, y, a, m, b, text, text + Render(m, y), false, false);
  }

  function EndOf(text: string): char {
    if text == "" then NUL else text[|text| - 1]
  }

  /** A closing bracket follows at once; a word or an operator behind it stands apart, a slash does not. */
  lemma {:induction false} BehindCloser(toks: seq<Tok>, y: Style, a: Tok, close: Tok, b: Tok)
    requires WordLike(a) && close.ttype in {L_CPAREN, L_CBRACK}
    requires Joined(toks + [a], y) != "" && EndOf(Joined(toks + [a], y)) != ','
    requires EndOf(Render(close, y)) !in {',', NUL}
    ensures var text := Joined(toks + [a], y) + Render(close, y);
      && (WordLike(b) || b.ttype in {L_PLUS, L_MINUS, L_STAR, L_UNDERSCORE, L_EQUALS, L_OPAREN, L_AT} ==>
            Joined(toks + [a, close, b], y) == text + " " + Render(b, y))
      && (b.ttype in {L_SLASH, L_DSLASH, L_CPAREN, L_CBRACK, L_OBRACK} ==>
            Joined(toks + [a, close, b], y) == text + Render(b, y))
  {
    var text := Joined(toks + [a], y);
    TightGap(text, a, close);
    var more := text + Render(close, y);
    assert text + "" + Render(close, y) == more && more + "" == more;
    CloserGap(more, close, b);
    JoinedThree(toks, y, a, close, b, text, more, false, Gap(more, close, b));
  }

  /** A minus sign with nothing before it stands close to its operand. */
  lemma {:induction false} LoneMinus(y: Style, minus: Tok, b: Tok)
    requires minus.ttype == L_MINUS && minus.token == "-" && WordLike(b)
    ensures Joined([minus, b], y) == "-" + Render(b, y)
  {
    assert [] + [minus] == [minus] && [] + [minus, b] == [minus, b];
    JoinedPair([], y, minus, b, "-", false);
  }

  /** Neither an axis nor its colons have a space behind them. */
  lemma {:induction false} AxisIsTight(toks: seq<Tok>, y: Style, axis: Tok, colons: Tok, b: Tok)
    requires axis.ttype == T_AXIS_NAME && colons.ttype == L_DCOLON
    ensures Joined(toks + [axis, colons, b], y) == Joined(toks + [axis], y) + Render(colons, y) + Render(b, y)
  {
    var text := Joined(toks + [axis], y);
    assert text + "" + Render(colons, y) == text + Render(colons, y);
    JoinedThree(toks, y, axis, colons, b, text, text + Render(colons, y), false, false);
  }

  /** An underscore is set off on both sides, whatever stands there, and one predicate follows another at once. */
  lemma {:induction false} UnderscoreApart(toks: seq<Tok>, y: Style, a: Tok, b: Tok)
    requires a.ttype != T_AXIS_NAME && a.ttype != L_DCOLON
    ensures a.ttype == L_UNDERSCORE || b.ttype == L_UNDERSCORE ==>
      Joined(toks + [a, b], y) == Joined(toks + [a], y) + " " + Render(b, y)
    ensures a.ttype == L_CBRACK && b.ttype == L_OBRACK && Joined(toks + [a], y) != "" ==>
      Joined(toks + [a, b], y) == Joined(toks + [a], y) + Render(b, y)
  {
    var text := Joined(toks + [a], y);
    JoinedPair(toks, y, a, b, text, Gap(text, a, b));
    assert text + "" + Render(b, y) == text + Render(b, y);
  }

  /** The two signs of a conditional without its second term stand together. */
  lemma {:induction false} ShortConditional(toks: seq<Tok>, y: Style, question: Tok, colon: Tok)
    requires question.ttype == L_QUESTION && colon.ttype == L_COLON && Joined(toks + [question], y) != ""
    ensures Joined(toks + [question, colon], y) == Joined(toks + [question], y) + Render(colon, y)
  {
    var text := Joined(toks + [question], y);
    assert text + "" + Render(colon, y) == text + Render(colon, y);
    JoinedPair(toks, y, question, colon, text, false);
  }

  const BREAK_SIGNS: set<TType> := {L_DCOLON, L_DAMPER, L_DEQUALS, L_DOTDOT, L_DSLASH, L_DVBAR, L_GRTREQ, L_LESSEQ,
                                    L_NOTEQUALS, L_COMMA, L_UNDERSCORE}

  /** A line may be broken before a slash, a sign of two characters, a comma or an underscore, and before whatever
      follows a closing bracket but is none; nowhere else. */
  lemma {:induction false} MarkPlaces(toks: seq<Tok>, t: Tok, y: Style)
    requires (forall d :: d in toks ==> TokOk(d)) && TokOk(t) && t.token != ""
    requires !(t.ttype == T_QUOTED && (y.quotes || y.braces)) && !(t.ttype == T_VAR && y.xpath)
    ensures forall d :: d in toks + [t] ==> TokOk(d)
    ensures var m, p := Marks(toks + [t], y), |Marks(toks + [t], y)| - |t.token|;
      && |Marks(toks, y)| <= p && m[..|Marks(toks, y)|] == Marks(toks, y)
      && (forall k :: |Marks(toks, y)| <= k < |m| && k != p ==> m[k] == ' ')
      && (t.ttype == L_SLASH ==> m[p] == '/')
      && (t.ttype in BREAK_SIGNS ==> m[p] == t.token[0])
      && (t.ttype != L_SLASH && t.ttype !in BREAK_SIGNS ==>
            m[p] == if toks != [] && toks[|toks| - 1].ttype in {L_CPAREN, L_CBRACK} && t.ttype !in {L_CPAREN, L_CBRACK}
                       && !(y.attrib && t.ttype == L_EQUALS) then t.token[0] else ' ')
  {
    MarkTable(t, Last(toks), y);
    var sep := MarksSnoc(toks, t, y);
    RowPlaced(Marks(toks, y), sep, MarkFor(t, Last(toks), y), |t.token| - 1);
  }

  lemma {:induction false} MarksSnoc(toks: seq<Tok>, t: Tok, y: Style) returns (sep: string)
    requires (forall d :: d in toks ==> TokOk(d)) && TokOk(t)
    ensures forall d :: d in toks + [t] ==> TokOk(d)
    ensures Marks(toks + [t], y) == Marks(toks, y) + sep + MarkRow(t, Last(toks), y) && (sep == "" || sep == " ")
  {
    JoinedSnoc(toks, t, y);
    sep := Sep(toks, t, y);
  }

  lemma {:induction false} RowPlaced(before: string, sep: string, c: char, n: nat)
    requires sep == "" || sep == " "
    ensures var m := before + sep + ([c] + Blanks(n)); var p := |m| - (n + 1);
      && p == |before| + |sep| && m[..|before|] == before && m[p] == c
      && forall k :: |before| <= k < |m| && k != p ==> m[k] == ' '
  {
  }

  lemma {:induction false} MarkTable(t: Tok, last: TType, y: Style)
    requires TokOk(t) && t.token != "" && Plain(t, y)
    ensures var c := MarkFor(t, last, y);
      && MarkRow(t, last, y) == [c] + Blanks(|t.token| - 1)
      && (t.ttype == L_SLASH ==> c == '/')
      && (t.ttype in BREAK_SIGNS ==> c == t.token[0])
      && (t.ttype != L_SLASH && t.ttype !in BREAK_SIGNS ==>
            c == if last in {L_CPAREN, L_CBRACK} && t.ttype !in {L_CPAREN, L_CBRACK}
                    && !(y.attrib && t.ttype == L_EQUALS) then t.token[0] else ' ')
  {
  }

  // ----- the copy

  class Copier {
    const buf: array<char>
    const marks: array?<char>
    const bufsiz: nat
    var bp: nat
    var mp: nat
    var len: int

    ghost predicate Valid()
      reads this, buf, marks
    {
      && bufsiz == buf.Length && bp <= buf.Length
      && (marks != null ==>
        && marks != buf
        && marks.Length == bufsiz
        && mp == bp
        && (forall p :: mp <= p < bufsiz - 1 ==> marks[p] == ' '))
    }

    constructor (buf: array<char>, marks: array?<char>)
      requires buf.Length > 0 && (marks != null ==> marks != buf && marks.Length == buf.Length)
      modifies marks
      ensures Valid() && bp == 0 && len == 0 && this.buf == buf && this.marks == marks
    {
      this.buf, this.marks, bufsiz, bp, mp, len := buf, marks, buf.Length, 0, 0, 0;
      new;
      if marks != null {
        forall p | 0 <= p < bufsiz { marks[p] := ' '; }
        marks[bufsiz - 1] := NUL;
      }
    }

    ghost function Out(): string
      requires Valid()
      reads this, buf, marks
    {
      buf[..bp]
    }

    ghost function Row(): string
      requires Valid()
      reads this, buf, marks
    {
      if marks == null then "" else marks[..mp]
    }

    // Since the output was out and the marks row, s was written and not marked.
    ghost predicate Wrote(out: string, row: string, s: string)
      reads this, buf, marks
    {
      Valid() && Out() == out + s && (marks != null ==> Row() == row + Blanks(|s|)) && bp == |out| + |s|
    }

    lemma {:induction false} WroteMore(out: string, row: string, s: string, row1: string, t: string)
      requires Wrote(out + s, row1, t) && (marks != null ==> row1 == row + Blanks(|s|))
      ensures Wrote(out, row, s + t)
    {
      assert out + (s + t) == out + s + t;
      BlanksAdd(|s|, |t|);
      assert row + (Blanks(|s|) + Blanks(|t|)) == row + Blanks(|s|) + Blanks(|t|);
    }

    // slaxStringMark, for a position that is to be moved on
    method Mark(markp: char, count: int, pre: bool)
      requires marks != null ==> mp + count >= 0
      requires marks != null && markp != NUL ==> if pre then mp < marks.Length else mp + count <= marks.Length
      modifies `mp, marks
      ensures marks == null ==> mp == old(mp)
      ensures marks != null ==>
        && mp == old(mp) + count
        && marks[..] == (
          if markp != NUL && pre then old(marks[..])[old(mp) := markp]
          else if markp != NUL && count > 0 then old(marks[..])[mp - 1 := markp]
          else old(marks[..]))
    {
      if marks == null { return; }
      if markp != NUL && pre { marks[mp] := markp; }
      mp := mp + count;
      if markp != NUL && !pre && count > 0 { marks[mp - 1] := markp; }
    }

    // One character, not marked.
    method PutChar(c: char)
      requires Valid() && bp + 1 < bufsiz
      modifies `bp, `mp, buf, marks
      ensures Wrote(old(Out()), old(Row()), [c])
    {
      ghost var out := Out();
      buf[bp] := c;
      assert buf[..bp + 1] == out + [c];
      bp := bp + 1;
      Mark(NUL, 1, false);
    }

    method PutText(s: string)
      requires Valid() && bp + |s| < bufsiz
      modifies `bp, `mp, buf, marks
      ensures Wrote(old(Out()), old(Row()), s)
    {
      for i := 0 to |s|
        invariant Wrote(old(Out()), old(Row()), s[..i])
      {
        assert s[..i + 1] == s[..i] + [s[i]];
        ghost var row := Row();
        PutChar(s[i]);
        WroteMore(old(Out()), old(Row()), s[..i], row, [s[i]]);
      }
      assert s[..|s|] == s;
    }

    method PutEscapedChar(c: char)
      requires Valid() && bp + |EscapedChar(c)| < bufsiz && len + |EscapedChar(c)| - 1 < bufsiz
      modifies `bp, `mp, `len, buf, marks
      ensures Wrote(old(Out()), old(Row()), EscapedChar(c))
      ensures len == old(len) + |EscapedChar(c)| - 1
    {
      if NeedsEscape(c) {
        len := len + 1;
        if len < bufsiz {
          PutText(['\\', EscapedTo(c)]);
        }
      } else {
        PutText([c]);
      }
    }

    // The text of a literal with its escapes; len counts the characters added.
    method PutEscaped(s: string)
      requires Valid() && bp + |EscapedText(s)| < bufsiz
      requires len + |EscapedText(s)| - |s| < bufsiz
      modifies `bp, `mp, `len, buf, marks
      ensures Wrote(old(Out()), old(Row()), EscapedText(s))
      ensures len == old(len) + |EscapedText(s)| - |s|
    {
      for i := 0 to |s|
        invariant Wrote(old(Out()), old(Row()), EscapedText(s[..i]))
        invariant len == old(len) + |EscapedText(s[..i])| - i
      {
        EscapedGrows(s, i);
        ghost var row := Row();
        PutEscapedChar(s[i]);
        WroteMore(old(Out()), old(Row()), EscapedText(s[..i]), row, EscapedChar(s[i]));
      }
      assert s[..|s|] == s;
    }

    method PutDoubledChar(c: char)
      requires Valid() && bp + |DoubledChar(c)| < bufsiz
      modifies `bp, `mp, `len, buf, marks
      ensures Wrote(old(Out()), old(Row()), DoubledChar(c))
      ensures len == old(len) + |DoubledChar(c)| - 1
    {
      if IsBrace(c) {
        PutText([c, c]);
        len := len + 1;
      } else {
        PutText([c]);
      }
    }

    method PutDoubled(s: string)
      requires Valid() && bp + |Doubled(s)| < bufsiz
      modifies `bp, `mp, `len, buf, marks
      ensures Wrote(old(Out()), old(Row()), Doubled(s))
      ensures len == old(len) + |Doubled(s)| - |s|
    {
      for i := 0 to |s|
        invariant Wrote(old(Out()), old(Row()), Doubled(s[..i]))
        invariant len == old(len) + |Doubled(s[..i])| - i
      {
        DoubledGrows(s, i);
        ghost var row := Row();
        PutDoubledChar(s[i]);
        WroteMore(old(Out()), old(Row()), Doubled(s[..i]), row, DoubledChar(s[i]));
      }
      assert s[..|s|] == s;
    }

    // memcpy; the marks are not moved on.
    method CopyText(s: string)
      requires Valid() && bp + |s| <= bufsiz
      modifies `bp, buf
      ensures bp == old(bp) + |s| && buf[..bp] == old(Out()) + s
    {
      var k: nat := 0;
      while k < |s|
        invariant k <= |s| && bp == old(bp)
        invariant buf[..bp + k] == old(Out()) + s[..k]
      {
        buf[bp + k] := s[k];
        assert buf[..bp + k + 1] == buf[..bp + k] + [s[k]];
        assert s[..k + 1] == s[..k] + [s[k]];
        k := k + 1;
      }
      assert s[..|s|] == s;
      bp := bp + |s|;
    }

    method ChooseMark(t: Tok, last: TType, y: Style) returns (markp: char, frontp: bool)
      requires TokOk(t)
      ensures frontp ==> t.token != "" && markp == NUL && MarkFor(t, last, y) == t.token[0]
      ensures !frontp ==> MarkFor(t, last, y) == if markp == NUL then ' ' else markp
      ensures markp != NUL ==> t.token != ""
      ensures Closer(t.ttype) ==> !frontp && markp == NUL
    {
      markp, frontp := NUL, false;
      if t.ttype == L_SLASH {
        markp := '/';
      } else if y.attrib && t.ttype == L_EQUALS {
        markp := NUL;
      } else if Multi(t.ttype) {
        frontp := true;
      } else if !Closer(t.ttype) && Closer(last) {
        markp := if t.token == "" then NUL else t.token[0];
      } else if t.ttype == L_COMMA || t.ttype == L_UNDERSCORE {
        markp := t.token[0];
      }
    }

    // Where a token that is copied as it is may be broken off.
    method MarkToken(t: Tok, last: TType, y: Style)
      requires marks != null && TokOk(t) && Plain(t, y) && mp + |t.token| < marks.Length
      requires forall p :: mp <= p < mp + |t.token| ==> marks[p] == ' '
      modifies `mp, marks
      ensures mp == old(mp) + |t.token|
      ensures marks[..mp] == old(marks[..mp]) + MarkRow(t, last, y)
      ensures forall p :: mp <= p < marks.Length ==> marks[p] == old(marks[p])
    {
      var markp, frontp := ChooseMark(t, last, y);
      ghost var before, c := marks[..], MarkFor(t, last, y);
      if frontp {
        Mark(t.token[0], 1, true);
      }
      Mark(markp, |t.token| - if frontp then 1 else 0, true);
      assert marks[..] == if c != ' ' then before[old(mp) := c] else before;
      assert marks[old(mp)..mp] == MarkRow(t, last, y);
      if Closer(t.ttype) && mp > 0 && marks[mp - 1] == 'x' {
        assert false; // a closer is never marked
      }
    }

    method PutPlain(t: Tok, last: TType, y: Style)
      requires Valid() && TokOk(t) && Plain(t, y) && bp + |t.token| < bufsiz
      modifies `bp, `mp, buf, marks
      ensures Valid() && bp == old(bp) + |t.token|
      ensures Out() == old(Out()) + t.token
      ensures marks != null ==> Row() == old(Row()) + MarkRow(t, last, y)
    {
      CopyText(t.token);
      if marks != null {
        MarkToken(t, last, y);
      }
    }

    // A literal between quotes of the kind it does not hold, if there is one.
    method PutQuoted(t: Tok, y: Style)
      requires Valid() && t.ttype == T_QUOTED && y.quotes && bp + |Render(t, y)| < bufsiz
      requires len + |Render(t, y)| - |t.token| - 2 < bufsiz
      modifies `bp, `mp, `len, buf, marks
      ensures Wrote(old(Out()), old(Row()), Render(t, y))
      ensures len == old(len) + |Render(t, y)| - |t.token| - 2
    {
      var dqp, sqp, squote := '"' in t.token, '\'' in t.token, false;
      ghost var q, text := [QuoteFor(t.token)], if y.escape then EscapedText(t.token) else t.token;
      ghost var row := Row();
      if dqp && sqp {
        PutChar('"');
      } else if dqp {
        PutChar('\'');
        squote := true;
      } else {
        PutChar('"');
      }
      ghost var row1 := Row();
      if y.escape {
        PutEscaped(t.token);
      } else {
        PutText(t.token);
      }
      WroteMore(old(Out()), row, q, row1, text);
      ghost var row2 := Row();
      PutChar(if squote then '\'' else '"');
      WroteMore(old(Out()), row, q + text, row2, q);
    }

    method PutVar(t: Tok)
      requires Valid() && bp + |t.token| + 2 < bufsiz
      modifies `bp, `mp, `len, buf, marks
      ensures Wrote(old(Out()), old(Row()), "{" + t.token + "}") && len == old(len) + 2
    {
      ghost var row := Row();
      PutChar('{');
      ghost var row1 := Row();
      PutText(t.token);
      WroteMore(old(Out()), row, "{", row1, t.token);
      ghost var row2 := Row();
      PutChar('}');
      WroteMore(old(Out()), row, "{" + t.token, row2, "}");
      len := len + 2;
    }

    // Everything up to the tokens done is rendered and marked.
    ghost predicate Reached(done: seq<Tok>, y: Style)
      requires forall t :: t in done ==> TokOk(t)
      reads this, buf, marks
    {
      && Valid() && len == bp
      && Out() == Joined(done, y) + Pending(done)
      && (marks != null ==> Row() == Marks(done, y) + Pending(done))
    }

    // Drops the space behind the text so far where none is wanted before the token t.
    method Tighten(ghost text: string, ghost row: string, ghost tail: string, t: Tok, last: TType)
      requires Valid() && (tail == " " || (tail == "" && (text == "" || text[|text| - 1] != ' ')))
      requires Out() == text + tail && (marks != null ==> Row() == row + tail)
      modifies `bp, `mp, `len, marks
      ensures Valid() && len - bp == old(len) - old(bp) && bp <= old(bp)
      ensures var sep := if text != "" && Trim(text, last, t.ttype) then "" else tail;
        Out() == text + sep && (marks != null ==> Row() == row + sep)
    {
      assert |text| + |tail| == bp;
      if bp > 1 && buf[bp - 1] == ' ' {
        assert buf[bp - 1] == (text + tail)[bp - 1];
        assert buf[..bp - 1] == Out()[..bp - 1] == text;
        var trim := TrimSpace(t.ttype, last, buf, bp);
        if trim {
          bp := bp - 1;
          Mark(NUL, -1, false);
          len := len - 1;
        }
      }
    }

    // The text of one token, without the space behind it.
    method PutToken(t: Tok, last: TType, y: Style)
      requires Valid() && TokOk(t) && bp + |Render(t, y)| < bufsiz
      requires t.ttype == T_QUOTED ==> len + |Render(t, y)| - |t.token| - (if y.quotes then 2 else 0) < bufsiz
      modifies `bp, `mp, `len, buf, marks
      ensures Valid() && bp == old(bp) + |Render(t, y)|
      ensures len == old(len) + |Render(t, y)| - |t.token| - (if t.ttype == T_QUOTED && y.quotes then 2 else 0)
      ensures Out() == old(Out()) + Render(t, y)
      ensures marks != null ==> Row() == old(Row()) + MarkRow(t, last, y)
    {
      if y.quotes && t.ttype == T_QUOTED {
        PutQuoted(t, y);
      } else if y.braces && t.ttype == T_QUOTED {
        PutDoubled(t.token);
      } else if t.ttype == T_VAR && y.xpath {
        PutVar(t);
      } else {
        PutPlain(t, last, y);
      }
    }

    // Up to the separator that belongs between the tokens done and the token t.
    method Lead(ghost done: seq<Tok>, t: Tok, last: TType, ghost y: Style)
      requires forall d :: d in done ==> TokOk(d)
      requires TokOk(t) && Valid() && last == Last(done)
      requires Out() == Joined(done, y) + Pending(done)
      requires marks != null ==> Row() == Marks(done, y) + Pending(done)
      modifies `bp, `mp, `len, marks
      ensures Valid() && len - bp == old(len) - old(bp) && bp <= old(bp)
      ensures Out() == Joined(done, y) + Sep(done, t, y)
      ensures marks != null ==> Row() == Marks(done, y) + Sep(done, t, y)
    {
      JoinedEnd(done, y);
      JoinedSnoc(done, t, y);
      Tighten(Joined(done, y), Marks(done, y), Pending(done), t, last);
    }

    method Space(t: Tok)
      requires Valid() && len == bp + 1 && (!Axis(t) ==> bp + 1 < bufsiz)
      modifies `bp, `mp, `len, buf, marks
      ensures Valid() && len == bp
      ensures Out() == old(Out()) + Pending([t]) && (marks != null ==> Row() == old(Row()) + Pending([t]))
    {
      if Axis(t) {
        len := len - 1;
      } else {
        PutChar(' ');
      }
    }

    // One turn of the loop of slaxStringCopyMarked.
    method AddToken(ghost done: seq<Tok>, t: Tok, last: TType, y: Style)
      requires (forall d :: d in done ==> TokOk(d)) && TokOk(t)
      requires Reached(done, y) && last == Last(done) && bp + Cost(t, y) < bufsiz
      modifies `bp, `mp, `len, buf, marks
      ensures (forall d :: d in done + [t] ==> TokOk(d))
      ensures Reached(done + [t], y) && bp <= old(bp) + Cost(t, y)
    {
      RenderFits(t, y);
      AddRendered(done, t, last, y, Cost(t, y));
    }

    method AddRendered(ghost done: seq<Tok>, t: Tok, last: TType, y: Style, ghost room: nat)
      requires (forall d :: d in done ==> TokOk(d)) && TokOk(t)
      requires Reached(done, y) && last == Last(done)
      requires |Render(t, y)| + (if Axis(t) then 0 else 1) <= room && bp + room < bufsiz
      modifies `bp, `mp, `len, buf, marks
      ensures (forall d :: d in done + [t] ==> TokOk(d))
      ensures Reached(done + [t], y) && bp <= old(bp) + room
    {
      var slen := |t.token|;
      len := len + slen + 1;
      if y.quotes && t.ttype == T_QUOTED {
        len := len + 2;
      }
      RenderHolds(t, y);
      assert len <= bufsiz; // there is always room
      Lead(done, t, last, y);
      PutToken(t, last, y);
      Space(t);
      JoinedSnoc(done, t, y);
    }

    // The closing NUL takes the place of the last character written.
    method Finish(ghost done: seq<Tok>, ghost y: Style) returns (n: nat)
      requires (forall d :: d in done ==> TokOk(d)) && Reached(done, y) && bp < bufsiz
      modifies buf, marks
      ensures done == [] ==> n == 0
      ensures done != [] ==>
        && n == |Joined(done, y)| - (if Axis(done[|done| - 1]) then 1 else 0) < bufsiz
        && buf[..n] == Joined(done, y)[..n] && buf[n] == NUL
        && (marks != null ==> marks[..n] == Marks(done, y)[..n] && marks[n] == NUL)
    {
      JoinedEnd(done, y);
      if len <= 0 { return 0; }
      n := len - 1;
      assert buf[..n] == Out()[..n] && (marks != null ==> marks[..n] == Row()[..n]);
      buf[n] := NUL;
      if marks != null { marks[n] := NUL; }
    }
  }

  lemma {:induction false} BlanksAdd(m: nat, n: nat)
    ensures Blanks(m + n) == Blanks(m) + Blanks(n)
  {
  }

  lemma {:induction false} EscapedGrows(s: string, i: nat)
    requires i < |s|
    ensures EscapedText(s[..i + 1]) == EscapedText(s[..i]) + EscapedChar(s[i])
    ensures |EscapedText(s[..i + 1])| - (i + 1) <= |EscapedText(s)| - |s|
    ensures |EscapedText(s[..i + 1])| <= |EscapedText(s)|
    decreases |s|
  {
    assert s[..i + 1][..i] == s[..i];
    if i + 1 < |s| {
      EscapedGrows(s[..|s| - 1], i);
      assert s[..|s| - 1][..i + 1] == s[..i + 1];
    } else {
      assert s[..i + 1] == s;
    }
  }

  lemma {:induction false} DoubledGrows(s: string, i: nat)
    requires i < |s|
    ensures Doubled(s[..i + 1]) == Doubled(s[..i]) + DoubledChar(s[i])
    ensures |Doubled(s[..i + 1])| <= |Doubled(s)|
    decreases |s|
  {
    assert s[..i + 1][..i] == s[..i];
    if i + 1 < |s| {
      DoubledGrows(s[..|s| - 1], i);
      assert s[..|s| - 1][..i + 1] == s[..i + 1];
    } else {
      assert s[..i + 1] == s;
    }
  }

  // ----- the whole list

  // With SSF_NOPARENS an opening parenthesis in front and a closing one at the end are passed over.
  function Kept(toks: seq<Tok>, y: Style): seq<Tok> {
    Done(toks, y, |toks|)
  }

  // Those that are kept among the first i.
  function Done(toks: seq<Tok>, y: Style, i: nat): seq<Tok>
    requires i <= |toks|
  {
    var from := if i > 0 && y.noparens && toks[0].ttype == L_OPAREN then 1 else 0;
    var to := if 1 < i == |toks| && y.noparens && toks[i - 1].ttype == L_CPAREN then i - 1 else i;
    toks[from..to]
  }

  lemma {:induction false} DoneStep(toks: seq<Tok>, y: Style, i: nat)
    requires i < |toks|
    ensures var skip := y.noparens && if i == 0 then toks[0].ttype == L_OPAREN
                                      else i + 1 == |toks| && toks[i].ttype == L_CPAREN;
      Done(toks, y, i + 1) == if skip then Done(toks, y, i) else Done(toks, y, i) + [toks[i]]
  {
  }

  /**
    slaxStringCopyMarked into buffers of the size given by slaxStringLengthCheck: whatever the flags, the
    text and the marks are those of the tokens joined, nothing is dropped for want of room. Only a list
    that ends in an axis loses its last character.
   */
  method CopyMarked(buf: array<char>, marks: array?<char>, toks: seq<Tok>, y: Style) returns (n: nat)
    requires forall t :: t in toks ==> TokOk(t)
    requires buf.Length >= Costs(toks, y) + 1 && (marks != null ==> marks != buf && marks.Length == buf.Length)
    modifies buf, marks
    ensures forall t :: t in Kept(toks, y) ==> TokOk(t)
    ensures var kept := Kept(toks, y);
      if kept == [] then n == 0
      else
        && n == |Joined(kept, y)| - (if Axis(kept[|kept| - 1]) then 1 else 0) < buf.Length
        && buf[..n] == Joined(kept, y)[..n] && buf[n] == NUL
        && (marks != null ==> marks[..n] == Marks(kept, y)[..n] && marks[n] == NUL)
  {
    var c := new Copier(buf, marks);
    var last_ttype := T_NONE;
    assert Done(toks, y, 0) == [] && toks[..|toks|] == toks;
    for i := 0 to |toks|
      invariant c.buf == buf && c.marks == marks && CopiedTo(c, toks, y, i, last_ttype)
    {
      last_ttype := CopyTurn(c, toks, y, i, last_ttype);
    }
    assert Done(toks, y, |toks|) == Kept(toks, y);
    n := c.Finish(Kept(toks, y), y);
  }

  // The first i tokens are done.
  ghost predicate CopiedTo(c: Copier, toks: seq<Tok>, y: Style, i: nat, last: TType)
    requires i <= |toks|
    reads c, c.buf, c.marks
  {
    var done := Done(toks, y, i);
    && (forall t :: t in done ==> TokOk(t))
    && c.Reached(done, y) && last == Last(done) && c.bp <= Costs(toks[..i], y)
  }

  // Copies the token at i, or passes over a parenthesis that is not wanted.
  method CopyTurn(c: Copier, toks: seq<Tok>, y: Style, i: nat, last: TType) returns (last_ttype: TType)
    requires i < |toks| && (forall t :: t in toks ==> TokOk(t)) && CopiedTo(c, toks, y, i, last)
    requires c.bufsiz >= Costs(toks, y) + 1
    modifies c`bp, c`mp, c`len, c.buf, c.marks
    ensures CopiedTo(c, toks, y, i + 1, last_ttype)
  {
    var t := toks[i];
    CostsStep(toks, y, i);
    DoneStep(toks, y, i);
    ghost var done := Done(toks, y, i);
    if i == 0 {
      if y.noparens && t.ttype == L_OPAREN {
        assert Done(toks, y, i + 1) == done;
        return last;
      }
    } else if y.noparens && i + 1 == |toks| && t.ttype == L_CPAREN {
      assert Done(toks, y, i + 1) == done;
      return last;
    }
    assert Done(toks, y, i + 1) == done + [t];
    c.AddToken(done, t, last, y);
    return t.ttype;
  }

  lemma {:induction false} CostsStep(toks: seq<Tok>, y: Style, i: nat)
    requires i < |toks|
    ensures Costs(toks[..i + 1], y) == Costs(toks[..i], y) + Cost(toks[i], y) <= Costs(toks, y)
  {
    CostsSplit(toks[..i + 1], toks[i + 1..], y);
    assert toks[..i + 1] + toks[i + 1..] == toks && toks[..i + 1][..i] == toks[..i];
  }

  /** slaxStringAsChar: parentheses are only dropped when they enclose the whole list. */
  method AsChar(toks: seq<Tok>, y: Style) returns (s: string)
    requires forall t :: t in toks ==> TokOk(t)
    ensures var dropped := y.noparens && Enclosed(toks);
      var inner := if dropped then toks[1..|toks| - 1] else toks;
      (inner != [] && !Axis(inner[|inner| - 1]) ==> s == Joined(inner, y.(noparens := dropped)))
  {
    var len, hasParens := LengthCheck(toks, y, y.noparens);
    var flags := y;
    if !hasParens {
      flags := y.(noparens := false);
    }
    SameCosts(toks, y, flags);
    var buf := new char[len];
    var n := CopyMarked(buf, null, toks, flags);
    assert flags == y.(noparens := hasParens);
    KeptInside(toks, flags, hasParens);
    ghost var inner := Kept(toks, flags);
    assert inner != [] ==> Joined(inner, flags)[..|Joined(inner, flags)|] == Joined(inner, flags);
    s := buf[..n];
  }

  lemma {:induction false} KeptInside(toks: seq<Tok>, y: Style, dropped: bool)
    requires y.noparens == dropped && (dropped ==> Enclosed(toks))
    ensures Kept(toks, y) == if dropped then toks[1..|toks| - 1] else toks
  {
  }

  lemma {:induction false} SameCosts(toks: seq<Tok>, y: Style, z: Style)
    requires z == y.(noparens := z.noparens)
    ensures Costs(toks, y) == Costs(toks, z)
  {
    if toks != [] {
      SameCosts(toks[..|toks| - 1], y, z);
    }
  }
}
