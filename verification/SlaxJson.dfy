/**
  The JSON writer: an XML tree in the form the JSON reader makes, printed as the tokens of a JSON text.
 */
module SlaxJson {
  import Seqs

  datatype Option<T> = None | Some(value: T)

  // ----- XML

  // Type and name are the attributes of these names. Nodes that are neither elements nor text are Other.
  datatype Node =
    | Text(content: string)
    | Elem(tag: string, kind: Option<string>, name: Option<string>, kids: seq<Node>)
    | Other

  function NameOf(n: Node): string
    requires n.Elem?
  {
    if n.name.Some? then n.name.value else n.tag
  }

  // jsonValue
  function TextOf(n: Node): Option<string>
    requires n.Elem?
  {
    if n.kids != [] && n.kids[0].Text? then Some(n.kids[0].content) else None
  }

  predicate HasChildNodes(kids: seq<Node>) {
    exists k :: 0 <= k < |kids| && !kids[k].Text?
  }

  predicate ScalarKind(n: Node)
    requires n.Elem?
  {
    n.kind in {Some("number"), Some("true"), Some("false"), Some("null")}
  }

  // ----- strings

  function EscapeOf(c: char): Option<char> {
    if c == '\U{8}' then Some('b')
    else if c == '\n' then Some('n')
    else if c == '\r' then Some('r')
    else if c == '\t' then Some('t')
    else None
  }

  function EscapedChar(c: char): string {
    var e := EscapeOf(c);
    if e.Some? then ['\\', e.value] else [c]
  }

  function Escaped(s: string): string {
    if s == "" then "" else EscapedChar(s[0]) + Escaped(s[1..])
  }

  lemma {:induction false} EscapedSnoc(s: string, c: char)
    ensures Escaped(s + [c]) == Escaped(s) + EscapedChar(c)
  {
    if s == "" {
      assert s + [c] == [c] && [c][1..] == "";
    } else {
      assert (s + [c])[1..] == s[1..] + [c];
      EscapedSnoc(s[1..], c);
    }
  }

  lemma {:induction false} EscapedFits(s: string)
    ensures |s| <= |Escaped(s)| <= 2 * |s|
  {
    if s != "" { EscapedFits(s[1..]); }
  }

  lemma {:induction false} EscapedGrows(s: string, i: nat)
    requires i <= |s|
    ensures |Escaped(s[..i])| <= |Escaped(s)|
  {
    if i > 0 {
      assert s[..i][0] == s[0] && s[..i][1..] == s[1..][..i - 1];
      EscapedGrows(s[1..], i - 1);
    }
  }

  /** jsonEscape, into a buffer that the escaped text and its NUL fit into: nothing is cut off. */
  method Escape(buf: array<char>, s: string) returns (used: nat)
    requires |Escaped(s)| < buf.Length
    modifies buf
    ensures used < buf.Length && buf[used] == '\0' && buf[..used] == Escaped(s)
  {
    var bufsiz: int := buf.Length;
    used := 0;
    for i := 0 to |s|
      invariant used + bufsiz == buf.Length && used <= |Escaped(s)|
      invariant buf[..used] == Escaped(s[..i])
    {
      if bufsiz < 1 { break; }
      assert s[..i + 1] == s[..i] + [s[i]];
      EscapedSnoc(s[..i], s[i]);
      EscapedGrows(s, i + 1);
      var esc := EscapeOf(s[i]);
      ghost var before := buf[..used];
      if esc.None? {
        buf[used] := s[i];
        assert buf[..used + 1] == before + [s[i]];
        used, bufsiz := used + 1, bufsiz - 1;
      } else {
        buf[used], buf[used + 1] := '\\', esc.value;
        assert buf[..used + 2] == before + ['\\', esc.value];
        used, bufsiz := used + 2, bufsiz - 2;
      }
    }
    assert s[..|s|] == s;
    buf[used] := '\0';
    assert buf[..used] == Escaped(s);
  }

  /** What jsonWriteNode makes of a name or a value, in the room that it sets aside. */
  method EscapeText(s: string) returns (text: string)
    ensures text == Escaped(s)
  {
    var buf := new char[2 * (|s| + 1)];
    EscapedFits(s);
    var used := Escape(buf, s);
    text := buf[..used];
  }

  // What a string that stands between quotes means (section 2.5 of RFC 4627), without \u escapes.
  function Unescaped(t: string): Option<string> {
    if t == "" then Some("")
    else if t[0] == '\\' then
      if |t| == 1 || EscapeFor(t[1]).None? then None
      else
        var rest := Unescaped(t[2..]);
        if rest.None? then None else Some([EscapeFor(t[1]).value] + rest.value)
    else if t[0] == '"' || t[0] < ' ' then None
    else
      var rest := Unescaped(t[1..]);
      if rest.None? then None else Some([t[0]] + rest.value)
  }

  function EscapeFor(c: char): Option<char> {
    if c == '"' || c == '\\' || c == '/' then Some(c)
    else if c == 'b' then Some('\U{8}')
    else if c == 'f' then Some('\U{c}')
    else if c == 'n' then Some('\n')
    else if c == 'r' then Some('\r')
    else if c == 't' then Some('\t')
    else None
  }

  // No quote, no backslash, and no control characters but backspace, line feed, carriage return and tab.
  predicate Plain(s: string) {
    forall k :: 0 <= k < |s| ==> PlainChar(s[k])
  }

  predicate PlainChar(c: char) {
    c != '"' && c != '\\' && (c >= ' ' || c == '\U{8}' || c == '\n' || c == '\r' || c == '\t')
  }

  lemma {:induction false} NoLonger(s: string)
    ensures Unescaped(Escaped(s)).Some? ==> |Unescaped(Escaped(s)).value| <= |s|
    decreases |s|
  {
    if s != "" {
      var t, c := Escaped(s), s[0];
      assert t[|EscapedChar(c)|..] == Escaped(s[1..]);
      NoLonger(s[1..]);
      if c == '\\' && |s| > 1 {
        assert s[1..][0] == s[1] && s[1..][1..] == s[2..];
        NoLonger(s[2..]);
        PairNoLonger(s[1], Escaped(s[2..]), |s| - 2);
        assert t == ['\\'] + (EscapedChar(s[1]) + Escaped(s[2..]));
      }
    }
  }

  // A backslash, and what is written for the character behind it.
  lemma {:induction false} PairNoLonger(d: char, t: string, n: nat)
    requires Unescaped(t).Some? ==> |Unescaped(t).value| <= n
    ensures var u := Unescaped(['\\'] + (EscapedChar(d) + t)); u.Some? ==> |u.value| <= n + 2
  {
    var all := ['\\'] + (EscapedChar(d) + t);
    if EscapeOf(d).Some? {
      assert all[2..] == [EscapeOf(d).value] + t;
      assert all[2..][1..] == t;
    } else {
      assert all[2..] == t;
    }
  }

  // A backslash is read together with what follows it.
  lemma {:induction false} BackslashLost(s: string)
    requires s != "" && s[0] == '\\'
    ensures Unescaped(Escaped(s)) != Some(s)
  {
    var t := Escaped(s);
    assert t == ['\\'] + Escaped(s[1..]);
    if |s| > 1 {
      assert s[1..][0] == s[1] && s[1..][1..] == s[2..];
      assert Escaped(s[1..]) == EscapedChar(s[1]) + Escaped(s[2..]);
      if EscapeOf(s[1]).Some? {
        assert t[2..] == [EscapeOf(s[1]).value] + Escaped(s[2..]);
        assert t[1] == '\\' && s[1] != EscapeOf(s[1]).value;
      } else {
        assert t[2..] == Escaped(s[2..]) && t[1] == s[1];
        NoLonger(s[2..]);
      }
    }
  }

  /** What is written for a string means it exactly if it holds no quote, backslash or odd control character. */
  lemma {:induction false} EscapeMeans(s: string)
    ensures Unescaped(Escaped(s)) == Some(s) <==> Plain(s)
  {
    if s != "" {
      EscapeMeans(s[1..]);
      var t, c := Escaped(s), s[0];
      assert s == [c] + s[1..];
      assert t[|EscapedChar(c)|..] == Escaped(s[1..]);
      PlainCons(s);
      if c == '\\' { BackslashLost(s); }
    }
  }

  /** The escapes of a string (section 2.5 of RFC 4627), and that no others are read. */
  lemma {:induction false} EscapesRead(c: char)
    ensures Unescaped(['\\', c]) ==
      match c
      case '"' | '\\' | '/' => Some([c])
      case 'b' => Some(['\U{8}'])
      case 'f' => Some(['\U{c}'])
      case 'n' => Some(['\U{a}'])
      case 'r' => Some(['\U{d}'])
      case 't' => Some(['\U{9}'])
      case _ => None
  {
    assert ['\\', c][2..] == "";
    if EscapeFor(c).Some? {
      Seqs.NoChange([EscapeFor(c).value]);
    }
  }

  lemma {:induction false} PlainCons(s: string)
    requires s != ""
    ensures Plain(s) <==> PlainChar(s[0]) && Plain(s[1..])
  {
    if Plain(s) {
      assert PlainChar(s[0]);
      forall k | 0 <= k < |s| - 1 ensures PlainChar(s[1..][k]) {
        assert s[1..][k] == s[k + 1];
      }
    }
    if PlainChar(s[0]) && Plain(s[1..]) {
      forall k | 0 <= k < |s| ensures PlainChar(s[k]) {
        if k > 0 { assert s[k] == s[1..][k - 1]; }
      }
    }
  }

  predicate NoEscapes(s: string) {
    forall c :: c in s ==> EscapeOf(c).None?
  }

  lemma {:induction false} NoEscapesCons(s: string)
    requires s != ""
    ensures NoEscapes(s) <==> EscapeOf(s[0]).None? && NoEscapes(s[1..])
  {
    assert s == [s[0]] + s[1..];
  }

  lemma {:induction false} WrittenAsIs(s: string)
    requires NoEscapes(s)
    ensures Escaped(s) == s
  {
    if s != "" {
      NoEscapesCons(s);
      WrittenAsIs(s[1..]);
      assert s == [s[0]] + s[1..];
    }
  }

  // Only a backslash shows that something was escaped.
  lemma {:induction false} NothingEscaped(s: string)
    ensures '\\' !in Escaped(s) || Escaped(s) == s ==> NoEscapes(s)
  {
    if s != "" {
      NothingEscaped(s[1..]);
      NoEscapesCons(s);
      var t := Escaped(s[1..]);
      if EscapeOf(s[0]).Some? {
        assert Escaped(s)[0] == '\\';
      } else {
        assert Escaped(s) == [s[0]] + t && Escaped(s)[1..] == t;
      }
    }
  }

  // ----- names without quotes

  predicate WordChar(c: char) {
    'a' <= c <= 'z' || 'A' <= c <= 'Z' || IsDigit(c) || c == '_'
  }

  // slaxIsBareChar
  predicate IsBareChar(c: char) {
    WordChar(c) || c == ':' || c == '.' || c == '-' || c >= '\U{80}'
  }

  predicate BareAt(buf: string, i: nat) {
    i < |buf| && IsBareChar(buf[i])
  }

  // slaxKeywordMatch
  predicate KeywordMatch(buf: string, word: string) {
    word <= buf && !BareAt(buf, |word|)
  }

  const KEYWORDS := ["false", "null", "true"]

  // The token at the start of the input, as far as names go: a bare word or a keyword with its length.
  datatype Lexeme = Bare(len: nat) | Keyword(len: nat) | NoWord

  // Where a run of letters, digits and underscores ends.
  function WordEnd(buf: string, i: nat): (j: nat)
    requires i <= |buf|
    ensures i <= j <= |buf| && (forall k :: i <= k < j ==> WordChar(buf[k])) && (j < |buf| ==> !WordChar(buf[j]))
    decreases |buf| - i
  {
    if i < |buf| && WordChar(buf[i]) then WordEnd(buf, i + 1) else i
  }

  function KeywordFrom(buf: string, k: nat): Lexeme
    requires k <= |KEYWORDS|
    decreases |KEYWORDS| - k
  {
    if k == |KEYWORDS| then NoWord
    else if KeywordMatch(buf, KEYWORDS[k]) then Keyword(|KEYWORDS[k]|)
    else KeywordFrom(buf, k + 1)
  }

  function FirstLexeme(buf: string): Lexeme {
    if buf == "" || !WordChar(buf[0]) || IsDigit(buf[0]) || (buf[0] == '_' && !BareAt(buf, 1)) then NoWord
    else if KeywordFrom(buf, 0).Keyword? then KeywordFrom(buf, 0)
    else Bare(WordEnd(buf, 0))
  }

  // The first token of a JSON text that starts with a letter or an underscore: keywords first, then bare words.
  method LexWord(buf: string) returns (l: Lexeme)
    requires buf != "" && WordChar(buf[0]) && !IsDigit(buf[0])
    ensures l == FirstLexeme(buf)
  {
    var cur: nat := 0;
    if buf[0] == '_' {
      cur := 1;
      if !BareAt(buf, 1) {
        return NoWord;
      }
    }
    for k := 0 to |KEYWORDS|
      invariant KeywordFrom(buf, 0) == KeywordFrom(buf, k)
    {
      if KeywordMatch(buf, KEYWORDS[k]) {
        return Keyword(|KEYWORDS[k]|);
      }
    }
    while cur < |buf| && WordChar(buf[cur])
      invariant cur <= |buf| && WordEnd(buf, 0) == WordEnd(buf, cur)
    {
      cur := cur + 1;
    }
    l := Bare(cur);
  }

  // Letters, digits and underscores, no digit in front.
  predicate BareName(name: string) {
    name != "" && !IsDigit(name[0]) && forall c :: c in name ==> WordChar(c)
  }

  lemma {:induction false} NoKeywordBefore(name: string, k: nat)
    requires BareName(name) && k <= |KEYWORDS|
    ensures KeywordFrom(name + ":", k) == NoWord
    decreases |KEYWORDS| - k
  {
    if k < |KEYWORDS| {
      var buf, word := name + ":", KEYWORDS[k];
      if word <= buf && |word| < |name| {
        assert buf[|word|] == name[|word|] && name[|word|] in name;
      } else if word <= buf && |word| == |name| {
        assert buf[|word|] == ':';
      } else if word <= buf {
        assert word[|name|] == ':';
      }
      NoKeywordBefore(name, k + 1);
    }
  }

  /**
    A name in front of a colon is one bare word to the lexer exactly if it is made of letters, digits and underscores
    and starts with no digit. It may be a keyword: a colon right behind keeps it from being taken as one.
   */
  lemma {:induction false} BareNameIff(name: string)
    ensures name != "" && FirstLexeme(name + ":") == Bare(|name|) <==>
      name != "" && !('0' <= name[0] <= '9') &&
      forall c :: c in name ==> 'a' <= c <= 'z' || 'A' <= c <= 'Z' || '0' <= c <= '9' || c == '_'
    ensures name != "" && FirstLexeme(name + ":") == Bare(|name|) <==> BareName(name)
  {
    var buf := name + ":";
    if name != "" {
      assert buf[|name|] == ':' && buf[0] == name[0];
      var j := WordEnd(buf, 0);
      if BareName(name) {
        NoKeywordBefore(name, 0);
        assert forall k :: 0 <= k < |name| ==> buf[k] == name[k] && WordChar(buf[k]);
        assert name == "_" ==> buf[1] == ':';
        assert |name| > 1 ==> buf[1] == name[1] && name[1] in name;
      }
      if FirstLexeme(buf) == Bare(|name|) {
        assert forall k :: 0 <= k < |name| ==> buf[k] == name[k];
      }
    }
  }

  /** A keyword is taken as one exactly if no letter, digit or sign of a name comes right behind it. */
  lemma {:induction false} KeywordIff(word: string, rest: string)
    requires word in {"true", "false", "null"}
    ensures FirstLexeme(word + rest) == Keyword(|word|) <==>
      rest == "" || !('a' <= rest[0] <= 'z' || 'A' <= rest[0] <= 'Z' || '0' <= rest[0] <= '9'
                      || rest[0] in {'_', ':', '.', '-'} || rest[0] >= '\U{80}')
  {
    var buf := word + rest;
    assert buf[0] == word[0] && (rest != "" ==> buf[|word|] == rest[0]);
    assert "false"[0] == 'f' && "null"[0] == 'n' && "true"[0] == 't';
    assert KeywordFrom(buf, 3) == NoWord;
    forall k | 0 <= k < 3 && KEYWORDS[k] <= buf ensures KEYWORDS[k] == word {
      assert buf[0] == KEYWORDS[k][0];
    }
  }

  // ----- numbers and keywords

  predicate IsDigit(c: char) {
    '0' <= c <= '9'
  }

  function DigitsEnd(s: string, i: nat): (j: nat)
    requires i <= |s|
    ensures i <= j <= |s| && forall k :: i <= k < j ==> IsDigit(s[k])
    decreases |s| - i
  {
    if i < |s| && IsDigit(s[i]) then DigitsEnd(s, i + 1) else i
  }

  // Section 2.4 of RFC 4627: minus, a whole part without leading zeros, a fraction, an exponent.
  predicate NumberText(s: string) {
    var i := if s != "" && s[0] == '-' then 1 else 0;
    var j := DigitsEnd(s, i);
    i < j && (s[i] == '0' ==> j == i + 1) && FractionAt(s, j)
  }

  predicate FractionAt(s: string, i: nat)
    requires i <= |s|
  {
    if i < |s| && s[i] == '.' then i + 1 < DigitsEnd(s, i + 1) && ExponentAt(s, DigitsEnd(s, i + 1))
    else ExponentAt(s, i)
  }

  predicate ExponentAt(s: string, i: nat)
    requires i <= |s|
  {
    i == |s| ||
    ((s[i] == 'e' || s[i] == 'E') &&
     var j := if i + 1 < |s| && (s[i + 1] == '+' || s[i + 1] == '-') then i + 2 else i + 1;
     j < DigitsEnd(s, j) == |s|)
  }

  predicate NumberChar(c: char) {
    IsDigit(c) || c == '-' || c == '+' || c == '.' || c == 'e' || c == 'E'
  }

  lemma {:induction false} ExponentChars(s: string, k: nat)
    requires k <= |s| && ExponentAt(s, k)
    ensures forall m :: k <= m < |s| ==> NumberChar(s[m])
  {
    if k < |s| {
      var j := if k + 1 < |s| && (s[k + 1] == '+' || s[k + 1] == '-') then k + 2 else k + 1;
      assert forall m :: j <= m < DigitsEnd(s, j) ==> IsDigit(s[m]);
    }
  }

  lemma {:induction false} NumberChars(s: string)
    ensures NumberText(s) ==> forall c :: c in s ==> NumberChar(c)
  {
    if NumberText(s) {
      var i := if s[0] == '-' then 1 else 0;
      var j := DigitsEnd(s, i);
      var k := if j < |s| && s[j] == '.' then DigitsEnd(s, j + 1) else j;
      ExponentChars(s, k);
      assert forall m :: i <= m < j ==> IsDigit(s[m]);
      assert forall m :: j < m < k ==> IsDigit(s[m]);
      assert forall m :: 0 <= m < k ==> NumberChar(s[m]);
    }
  }

  /** Digits without a leading zero, a minus sign in front or not, a dot with digits or not, an exponent or not. */
  lemma {:induction false} NumberForms(sign: string, whole: string, fraction: string, exponent: string)
    requires sign in {"", "-"} && whole != "" && AllDigits(whole) && (|whole| > 1 ==> whole[0] != '0')
    requires fraction == "" || (|fraction| > 1 && fraction[0] == '.' && AllDigits(fraction[1..]))
    requires exponent == "" || (|exponent| > 1 && exponent[0] in {'e', 'E'} && AllDigits(exponent[1..]))
    ensures NumberText(sign + whole + fraction + exponent)
  {
    var s := sign + whole + fraction + exponent;
    var i, j, k := PartsAt(sign, whole, fraction, exponent);
    assert AllDigits(s[i..j]) && s[i..j] == whole;
    DigitsUpTo(s, i, j);
    ExponentGood(s, k);
    if fraction != "" {
      assert s[j + 1..k] == fraction[1..];
      DigitsUpTo(s, j + 1, k);
    }
  }

  lemma {:induction false} PartsAt(sign: string, whole: string, fraction: string, exponent: string)
      returns (i: nat, j: nat, k: nat)
    ensures var s := sign + whole + fraction + exponent;
      && i == |sign| && j == i + |whole| && k == j + |fraction| && k <= |s|
      && s[..i] == sign && s[i..j] == whole && s[j..k] == fraction && s[k..] == exponent
      && (fraction != "" ==> s[j] == fraction[0] && s[j + 1..k] == fraction[1..])
      && (exponent != "" ==> s[k] == exponent[0] && s[k + 1..] == exponent[1..])
  {
    i, j, k := |sign|, |sign| + |whole|, |sign| + |whole| + |fraction|;
  }

  lemma {:induction false} ExponentGood(s: string, k: nat)
    requires k <= |s|
    requires k == |s| || (k + 1 < |s| && s[k] in {'e', 'E'} && AllDigits(s[k + 1..]))
    ensures ExponentAt(s, k)
  {
    if k < |s| {
      DigitsUpTo(s, k + 1, |s|);
      assert s[k + 1] == s[k + 1..][0];
    }
  }

  predicate AllDigits(s: string) {
    forall k :: 0 <= k < |s| ==> '0' <= s[k] <= '9'
  }

  lemma {:induction false} DigitsUpTo(s: string, i: nat, j: nat)
    requires i <= j <= |s| && AllDigits(s[i..j])
    requires j < |s| ==> !('0' <= s[j] <= '9')
    ensures DigitsEnd(s, i) == j
    decreases j - i
  {
    if i < j {
      assert s[i] == s[i..j][0] && s[i + 1..j] == s[i..j][1..];
      DigitsUpTo(s, i + 1, j);
    }
  }

  /** Blanks around a word go, and nothing else does. */
  lemma {:induction false} TrimBlanks(before: nat, word: string, behind: nat)
    requires word != "" && word[0] != ' ' && word[|word| - 1] != ' '
    ensures Trim(seq(before, _ => ' ') + word + seq(behind, _ => ' ')) == word
    decreases before + behind
  {
    var s := seq(before, _ => ' ') + word + seq(behind, _ => ' ');
    if before > 0 {
      assert s[1..] == seq(before - 1, _ => ' ') + word + seq(behind, _ => ' ');
      TrimBlanks(before - 1, word, behind);
    } else if behind > 0 {
      assert s[0] == word[0] && s[..|s| - 1] == seq(before, _ => ' ') + word + seq(behind - 1, _ => ' ');
      TrimBlanks(before, word, behind - 1);
    } else {
      assert s == word;
    }
  }

  // Blanks around a bare word are white space between tokens.
  function Trim(s: string): string
    decreases |s|
  {
    if s != "" && s[0] == ' ' then Trim(s[1..])
    else if s != "" && s[|s| - 1] == ' ' then Trim(s[..|s| - 1])
    else s
  }

  lemma {:induction false} TrimKeeps(s: string, c: char)
    requires c != ' '
    ensures c in s <==> c in Trim(s)
    decreases |s|
  {
    if s != "" && s[0] == ' ' {
      TrimKeeps(s[1..], c);
      assert s == [s[0]] + s[1..];
    } else if s != "" && s[|s| - 1] == ' ' {
      TrimKeeps(s[..|s| - 1], c);
      assert s == s[..|s| - 1] + [s[|s| - 1]];
    }
  }

  // The value of a bare word.
  function Word(w: string): Option<Json> {
    if w == "true" then Some(True)
    else if w == "false" then Some(False)
    else if w == "null" then Some(Null)
    else if NumberText(w) then Some(Num(w))
    else None
  }

  // A word that means something is written as it is.
  lemma {:induction false} WordUnescaped(s: string)
    ensures Word(Trim(Escaped(s))).Some? || Word(Trim(s)).Some? ==> Escaped(s) == s
  {
    var t := Escaped(s);
    if Word(Trim(t)).Some? {
      WordPlain(t);
      NothingEscaped(s);
      WrittenAsIs(s);
    }
    if Word(Trim(s)).Some? {
      WordPlain(s);
      WrittenAsIs(s);
    }
  }

  lemma {:induction false} WordPlain(s: string)
    requires Word(Trim(s)).Some?
    ensures '\\' !in s && NoEscapes(s)
  {
    NumberChars(Trim(s));
    forall c | c in s ensures c != '\\' && EscapeOf(c).None? {
      if c != ' ' { TrimKeeps(s, c); }
    }
  }

  // ----- JSON

  datatype Json =
    | Str(s: string) | Num(s: string) | True | False | Null
    | Obj(members: seq<Member>) | Arr(elements: seq<Json>)

  datatype Member = Member(name: string, value: Json)

  // Names, strings and bare words stand for what is written, without quotes and the blanks around.
  datatype Token = LBrace | RBrace | LBracket | RBracket | Comma | Colon | Name(name: string, quoted: bool)
    | StrTok(s: string) | WordTok(s: string)

  // Whether a name is put in quotes.
  type Quoting = string -> bool

  // The name that a name token means; without quotes it is one only if the lexer takes it whole.
  function NameMeant(t: string, quoted: bool): Option<string> {
    if quoted then Unescaped(t) else if t != "" && FirstLexeme(t + ":") == Bare(|t|) then Some(t) else None
  }

  // A name that is read back.
  predicate NameLegal(name: string, q: Quoting) {
    if q(name) then Plain(name) else BareName(name)
  }

  lemma {:induction false} NameReads(name: string, q: Quoting)
    ensures NameMeant(Escaped(name), q(name)) == Some(name) <==> NameLegal(name, q)
  {
    EscapeMeans(name);
    BareNameIff(Escaped(name));
    if BareName(name) {
      BareNoEscapes(name);
      WrittenAsIs(name);
    }
  }

  lemma {:induction false} BareNoEscapes(name: string)
    requires BareName(name)
    ensures NoEscapes(name)
  {
    assert forall c: char :: WordChar(c) ==> EscapeOf(c).None?;
  }

  // jsonNameNeedsQuotes, where `valid` is what libxml2 takes for a name of XML.
  function NeedsQuotes(name: string, optional: bool, valid: string -> bool): bool {
    !(optional && valid(name) && forall c :: c in name ==> c !in "\":;{} \n\t")
  }

  /**
    Leaving out quotes where they are optional keeps a name exactly if it is made of letters, digits and underscores:
    a-b is a name in XML, and is not read back.
   */
  lemma {:induction false} OptionalQuotes(name: string, valid: string -> bool)
    requires valid(name) && (name != "" ==> !IsDigit(name[0])) && name != ""
    requires forall c :: c in name ==> c !in "\":;{} \n\t"
    ensures !NeedsQuotes(name, true, valid)
    ensures NameMeant(Escaped(name), NeedsQuotes(name, true, valid)) == Some(name) <==>
      forall c :: c in name ==> WordChar(c)
    ensures NeedsQuotes(name, false, valid)
  {
    var q: Quoting := n => NeedsQuotes(n, true, valid);
    NameReads(name, q);
  }

  // The token sequence of a value, by the grammar: members and elements are separated by commas.
  function Show(v: Json, q: Quoting): seq<Token> {
    match v
    case Str(s) => [StrTok(Escaped(s))]
    case Num(s) => [WordTok(s)]
    case True => [WordTok("true")]
    case False => [WordTok("false")]
    case Null => [WordTok("null")]
    case Obj(ms) => [LBrace] + ShowMembers(ms, q) + [RBrace]
    case Arr(es) => [LBracket] + ShowElements(es, q) + [RBracket]
  }

  function ShowMember(m: Member, q: Quoting): seq<Token> {
    [Name(Escaped(m.name), q(m.name)), Colon] + Show(m.value, q)
  }

  function ShowMembers(ms: seq<Member>, q: Quoting): seq<Token> {
    if ms == [] then []
    else ShowMember(ms[0], q) + (if |ms| > 1 then [Comma] else []) + ShowMembers(ms[1..], q)
  }

  function ShowElements(es: seq<Json>, q: Quoting): seq<Token> {
    if es == [] then []
    else Show(es[0], q) + (if |es| > 1 then [Comma] else []) + ShowElements(es[1..], q)
  }

  // Values that can be shown: strings and names mean themselves when they are escaped, numbers are numbers.
  predicate Sayable(v: Json, q: Quoting) {
    match v
    case Str(s) => Plain(s)
    case Num(s) => NumberText(s)
    case Obj(ms) => forall m :: m in ms ==> NameLegal(m.name, q) && Sayable(m.value, q)
    case Arr(es) => forall e :: e in es ==> Sayable(e, q)
    case _ => true
  }

  // ----- reading by the grammar

  datatype Read<T> = Fail | Ok(value: T, rest: seq<Token>)

  // value -> string | number | object | array | 'true' | 'false' | 'null'
  function ReadValue(ts: seq<Token>): (r: Read<Json>)
    ensures r.Ok? ==> |r.rest| < |ts|
    decreases |ts|, 0
  {
    if ts == [] then Fail
    else match ts[0]
      case StrTok(s) =>
        var text := Unescaped(s);
        if text.None? then Fail else Ok(Str(text.value), ts[1..])
      case WordTok(s) =>
        var v := Word(s);
        if v.None? then Fail else Ok(v.value, ts[1..])
      case LBrace =>
        if |ts| > 1 && ts[1] == RBrace then Ok(Obj([]), ts[2..])
        else
          var ms := ReadMembers(ts[1..]);
          if ms.Fail? || ms.rest == [] || ms.rest[0] != RBrace then Fail else Ok(Obj(ms.value), ms.rest[1..])
      case LBracket =>
        if |ts| > 1 && ts[1] == RBracket then Ok(Arr([]), ts[2..])
        else
          var es := ReadElements(ts[1..]);
          if es.Fail? || es.rest == [] || es.rest[0] != RBracket then Fail else Ok(Arr(es.value), es.rest[1..])
      case _ => Fail
  }

  // pair -> name ':' value;  member-list -> pair | pair ',' member-list
  function ReadMembers(ts: seq<Token>): (r: Read<seq<Member>>)
    ensures r.Ok? ==> |r.rest| < |ts|
    decreases |ts|, 1
  {
    if |ts| < 2 || !ts[0].Name? || ts[1] != Colon then Fail
    else
      var name, v := NameMeant(ts[0].name, ts[0].quoted), ReadValue(ts[2..]);
      if name.None? || v.Fail? then Fail
      else
        var m := Member(name.value, v.value);
        if v.rest != [] && v.rest[0] == Comma then
          var more := ReadMembers(v.rest[1..]);
          if more.Fail? then Fail else Ok([m] + more.value, more.rest)
        else Ok([m], v.rest)
  }

  // element-list -> value | value ',' element-list
  function ReadElements(ts: seq<Token>): (r: Read<seq<Json>>)
    ensures r.Ok? ==> |r.rest| < |ts|
    decreases |ts|, 1
  {
    var v := ReadValue(ts);
    if v.Fail? then Fail
    else if v.rest != [] && v.rest[0] == Comma then
      var more := ReadElements(v.rest[1..]);
      if more.Fail? then Fail else Ok([v.value] + more.value, more.rest)
    else Ok([v.value], v.rest)
  }

  // What may follow a whole list.
  predicate Ends(rest: seq<Token>) {
    rest == [] || rest[0] != Comma
  }

  lemma {:induction false} Behind(front: seq<Token>, rest: seq<Token>)
    ensures (front + rest)[|front|..] == rest && (front != [] ==> (front + rest)[0] == front[0])
  {
  }

  // ----- reading what is shown

  /** The tokens of a value are read as that value, whatever follows. */
  lemma {:induction false} ReadShow(v: Json, q: Quoting, rest: seq<Token>)
    requires Sayable(v, q)
    ensures ReadValue(Show(v, q) + rest) == Ok(v, rest)
    decreases v, 2
  {
    match v {
      case Obj(ms) => ReadShowObj(ms, q, rest);
      case Arr(es) => ReadShowArr(es, q, rest);
      case Str(s) =>
        Behind([StrTok(Escaped(s))], rest);
        EscapeMeans(s);
      case _ =>
        Behind([Show(v, q)[0]], rest);
    }
  }

  lemma {:induction false} ReadShowObj(ms: seq<Member>, q: Quoting, rest: seq<Token>)
    requires Sayable(Obj(ms), q)
    ensures ReadValue([LBrace] + ShowMembers(ms, q) + [RBrace] + rest) == Ok(Obj(ms), rest)
    decreases ms, 3
  {
    MembersStart(ms, q);
    ReadGroup(LBrace, ShowMembers(ms, q), RBrace, rest);
    if ms != [] {
      ReadShowMembers(ms, q, [RBrace] + rest);
    }
  }

  lemma {:induction false} ReadShowArr(es: seq<Json>, q: Quoting, rest: seq<Token>)
    requires Sayable(Arr(es), q)
    ensures ReadValue([LBracket] + ShowElements(es, q) + [RBracket] + rest) == Ok(Arr(es), rest)
    decreases es, 3
  {
    if es != [] {
      StartOk(es[0], q);
      assert ShowElements(es, q)[0] == Show(es[0], q)[0];
      ReadShowElements(es, q, [RBracket] + rest);
    }
    ReadGroup(LBracket, ShowElements(es, q), RBracket, rest);
  }

  // What stands between brackets, read as a list.
  lemma {:induction false} ReadGroup(open: Token, inside: seq<Token>, close: Token, rest: seq<Token>)
    requires (open == LBrace && close == RBrace) || (open == LBracket && close == RBracket)
    requires inside != [] ==> inside[0] != close
    ensures var ts := [open] + inside + [close] + rest; var tail := inside + ([close] + rest);
      && (inside == [] ==> ReadValue(ts) == Ok(if open == LBrace then Obj([]) else Arr([]), rest))
      && (inside != [] && open == LBrace ==>
            var ms := ReadMembers(tail);
            ReadValue(ts) == if ms.Fail? || ms.rest == [] || ms.rest[0] != RBrace then Fail
                             else Ok(Obj(ms.value), ms.rest[1..]))
      && (inside != [] && open == LBracket ==>
            var es := ReadElements(tail);
            ReadValue(ts) == if es.Fail? || es.rest == [] || es.rest[0] != RBracket then Fail
                             else Ok(Arr(es.value), es.rest[1..]))
      && ([close] + rest)[1..] == rest
  {
    var ts, tail := [open] + inside + [close] + rest, inside + ([close] + rest);
    assert ts[0] == open && ts[1..] == tail;
    if inside == [] {
      assert ts[1] == close && ts[2..] == rest;
    } else {
      assert ts[1] == inside[0];
    }
  }

  lemma {:induction false} MembersStart(ms: seq<Member>, q: Quoting)
    ensures ms != [] ==> ShowMembers(ms, q) != [] && ShowMembers(ms, q)[0].Name?
  {
  }

  lemma {:induction false} StartOk(v: Json, q: Quoting)
    ensures Show(v, q) != [] && Show(v, q)[0] != RBracket
  {
  }

  lemma {:induction false} ReadShowMembers(ms: seq<Member>, q: Quoting, rest: seq<Token>)
    requires ms != [] && Ends(rest) && Sayable(Obj(ms), q)
    ensures ReadMembers(ShowMembers(ms, q) + rest) == Ok(ms, rest)
    decreases ms, 1
  {
    var m, later := ms[0], ms[1..];
    assert ms == [m] + later && m in ms;
    MembersSplit(m, later, q, rest);
    NameReads(m.name, q);
    var name := Name(Escaped(m.name), q(m.name));
    if later != [] {
      var more := ShowMembers(later, q) + rest;
      ReadShow(m.value, q, [Comma] + more);
      ReadShowMembers(later, q, rest);
      ReadMember(name, Show(m.value, q) + ([Comma] + more));
      Behind([Comma], more);
    } else {
      ReadShow(m.value, q, rest);
      ReadMember(name, Show(m.value, q) + rest);
      assert ms == [m];
    }
  }

  // One pair, and what comes behind it.
  lemma {:induction false} ReadMember(name: Token, ts: seq<Token>)
    requires name.Name?
    ensures ReadMembers([name, Colon] + ts) ==
      var meant, v := NameMeant(name.name, name.quoted), ReadValue(ts);
      if meant.None? || v.Fail? then Fail
      else if v.rest != [] && v.rest[0] == Comma then
        var more := ReadMembers(v.rest[1..]);
        if more.Fail? then Fail else Ok([Member(meant.value, v.value)] + more.value, more.rest)
      else Ok([Member(meant.value, v.value)], v.rest)
  {
    Behind([name, Colon], ts);
  }

  lemma {:induction false} MembersSplit(m: Member, later: seq<Member>, q: Quoting, rest: seq<Token>)
    ensures ShowMembers([m] + later, q) + rest == [Name(Escaped(m.name), q(m.name)), Colon]
      + (Show(m.value, q) + if later != [] then [Comma] + (ShowMembers(later, q) + rest) else rest)
  {
    var ms, name := [m] + later, [Name(Escaped(m.name), q(m.name)), Colon];
    assert ms[0] == m && ms[1..] == later;
    Seqs.Assoc5(name, Show(m.value, q), if |ms| > 1 then [Comma] else [], ShowMembers(later, q), rest);
    Seqs.NoChange(rest);
  }

  lemma {:induction false} ElementsSplit(v: Json, later: seq<Json>, q: Quoting, rest: seq<Token>)
    ensures ShowElements([v] + later, q) + rest ==
      Show(v, q) + if later != [] then [Comma] + (ShowElements(later, q) + rest) else rest
  {
    var es := [v] + later;
    assert es[0] == v && es[1..] == later;
    Seqs.Assoc4(Show(v, q), if |es| > 1 then [Comma] else [], ShowElements(later, q), rest);
    Seqs.NoChange(rest);
  }

  lemma {:induction false} ReadShowElements(es: seq<Json>, q: Quoting, rest: seq<Token>)
    requires es != [] && Ends(rest) && Sayable(Arr(es), q)
    ensures ReadElements(ShowElements(es, q) + rest) == Ok(es, rest)
    decreases es, 1
  {
    var v, later := es[0], es[1..];
    assert es == [v] + later && v in es;
    ElementsSplit(v, later, q, rest);
    if later != [] {
      var more := ShowElements(later, q) + rest;
      ReadShow(v, q, [Comma] + more);
      ReadShowElements(later, q, rest);
      ReadMoreElements(v, Show(v, q) + ([Comma] + more), more, later, rest);
    } else {
      ReadShow(v, q, rest);
      ReadLastElement(v, Show(v, q) + rest, rest);
      assert es == [v];
    }
  }

  lemma {:induction false} ReadMoreElements(v: Json, ts: seq<Token>, more: seq<Token>, later: seq<Json>,
                                            rest: seq<Token>)
    requires ReadValue(ts) == Ok(v, [Comma] + more) && ReadElements(more) == Ok(later, rest)
    ensures ReadElements(ts) == Ok([v] + later, rest)
  {
    Behind([Comma], more);
  }

  lemma {:induction false} ReadLastElement(v: Json, ts: seq<Token>, rest: seq<Token>)
    requires ReadValue(ts) == Ok(v, rest) && Ends(rest)
    ensures ReadElements(ts) == Ok([v], rest)
  {
  }

  // ----- what a tree stands for

  // The tree can be printed at all: elements of a scalar type have text.
  predicate Printable(n: Node) {
    n.Elem? ==> if ScalarKind(n) then TextOf(n).Some? else AllPrintable(n.kids)
  }

  predicate AllPrintable(kids: seq<Node>) {
    kids != [] ==> Printable(kids[0]) && AllPrintable(kids[1..])
  }

  function TextOr(n: Node): string
    requires n.Elem?
  {
    if TextOf(n).Some? then TextOf(n).value else ""
  }

  // What the type of a scalar and its text stand for.
  function Scalar(n: Node): Json
    requires n.Elem? && ScalarKind(n)
  {
    match n.kind.value
    case "true" => True
    case "false" => False
    case "null" => Null
    case _ => Num(Trim(TextOr(n)))
  }

  // The JSON value of an element.
  function Meaning(n: Node): Json
    requires n.Elem?
    decreases n, 0
  {
    if ScalarKind(n) then Scalar(n)
    else if n.kind == Some("array") then Arr(Values(n.kids))
    else if HasChildNodes(n.kids) then Obj(Members(n.kids))
    else Str(TextOr(n))
  }

  function Values(kids: seq<Node>): seq<Json> {
    if kids == [] then [] else (if kids[0].Elem? then [Meaning(kids[0])] else []) + Values(kids[1..])
  }

  function MemberOf(n: Node): Member
    requires n.Elem?
    decreases n, 1
  {
    Member(NameOf(n), Meaning(n))
  }

  function Members(kids: seq<Node>): seq<Member> {
    if kids == [] then [] else (if kids[0].Elem? then [MemberOf(kids[0])] else []) + Members(kids[1..])
  }

  // ----- trees that are printed as JSON

  // The text of a scalar is one of its type: the keyword itself, or a number.
  predicate ScalarLegal(n: Node)
    requires n.Elem? && ScalarKind(n)
  {
    var w := Trim(TextOr(n));
    if n.kind == Some("number") then NumberText(w) else w == n.kind.value
  }

  // Scalars, strings and names hold legal text.
  predicate TextsLegal(n: Node, q: Quoting)
    requires n.Elem?
    decreases n, 0
  {
    if ScalarKind(n) then ScalarLegal(n)
    else if n.kind == Some("array") then AllTextsLegal(n.kids, true, q)
    else if HasChildNodes(n.kids) then AllTextsLegal(n.kids, false, q)
    else Plain(TextOr(n))
  }

  predicate AllTextsLegal(kids: seq<Node>, inArray: bool, q: Quoting) {
    kids != [] ==>
      && (kids[0].Elem? ==> TextsLegal(kids[0], q) && (inArray || NameLegal(NameOf(kids[0]), q)))
      && AllTextsLegal(kids[1..], inArray, q)
  }

  predicate HasElements(kids: seq<Node>) {
    exists k :: 0 <= k < |kids| && kids[k].Elem?
  }

  // An element of type member is found under arrays only, and after the last element comes text at most.
  predicate Placed(n: Node, inArray: bool)
    requires n.Elem?
    decreases n, 1
  {
    (n.kind == Some("member") ==> inArray) && InsidePlaced(n)
  }

  predicate InsidePlaced(n: Node)
    requires n.Elem?
    decreases n, 0
  {
    if ScalarKind(n) then true
    else if n.kind == Some("array") then AllPlaced(n.kids, true)
    else HasChildNodes(n.kids) ==> AllPlaced(n.kids, false)
  }

  predicate AllPlaced(kids: seq<Node>, inArray: bool) {
    kids != [] ==>
      && (kids[0].Elem? ==> Placed(kids[0], inArray) && (HasChildNodes(kids[1..]) ==> HasElements(kids[1..])))
      && AllPlaced(kids[1..], inArray)
  }

  // ----- the tokens that are written

  // jsonNeedsComma, for the siblings behind a node
  predicate NeedsComma(later: seq<Node>) {
    HasChildNodes(later)
  }

  function CommaFor(later: seq<Node>): seq<Token> {
    if NeedsComma(later) then [Comma] else []
  }

  // What the writer makes of an element; inArray says whether it leaves out the name.
  function Tokens(n: Node, inArray: bool, q: Quoting): seq<Token>
    requires n.Elem?
    decreases n, 1
  {
    NameTokens(n, inArray || n.kind == Some("member"), q) + ValueTokens(n, q)
  }

  function NameTokens(n: Node, unnamed: bool, q: Quoting): seq<Token>
    requires n.Elem?
  {
    if unnamed then [] else [Name(Escaped(NameOf(n)), q(NameOf(n))), Colon]
  }

  function ValueTokens(n: Node, q: Quoting): seq<Token>
    requires n.Elem?
    decreases n, 0
  {
    if ScalarKind(n) then [WordTok(Trim(Escaped(TextOr(n))))]
    else if n.kind == Some("array") then [LBracket] + KidTokens(n.kids, true, q) + [RBracket]
    else if HasChildNodes(n.kids) then [LBrace] + KidTokens(n.kids, false, q) + [RBrace]
    else [StrTok(Escaped(TextOr(n)))]
  }

  function KidTokens(kids: seq<Node>, inArray: bool, q: Quoting): seq<Token> {
    if kids == [] then []
    else
      (if kids[0].Elem? then Tokens(kids[0], inArray, q) + CommaFor(kids[1..]) else [])
      + KidTokens(kids[1..], inArray, q)
  }

  function FirstTokens(kids: seq<Node>, i: nat, inArray: bool, q: Quoting): seq<Token>
    requires i < |kids|
  {
    if kids[i].Elem? then Tokens(kids[i], inArray, q) + CommaFor(kids[i + 1..]) else []
  }

  lemma {:induction false} KidsSplit(kids: seq<Node>, i: nat, inArray: bool, q: Quoting)
    requires i < |kids| && AllPrintable(kids[i..])
    ensures Printable(kids[i]) && AllPrintable(kids[i + 1..])
    ensures KidTokens(kids[i..], inArray, q) == FirstTokens(kids, i, inArray, q) + KidTokens(kids[i + 1..], inArray, q)
  {
    assert kids[i..][0] == kids[i] && kids[i..][1..] == kids[i + 1..];
  }

  lemma {:induction false} Join3(a: seq<Token>, b: seq<Token>, c: seq<Token>)
    ensures a + (b + c) == a + b + c && (b == [] ==> a + (b + c) == a + c)
  {
  }

  lemma {:induction false} KidsAt(kids: seq<Node>, i: nat, inArray: bool, q: Quoting, out: seq<Token>)
    requires i < |kids| && AllPrintable(kids[i..])
    ensures Printable(kids[i]) && AllPrintable(kids[i + 1..])
    ensures out + KidTokens(kids[i..], inArray, q) ==
      out + FirstTokens(kids, i, inArray, q) + KidTokens(kids[i + 1..], inArray, q)
    ensures !kids[i].Elem? ==> out + KidTokens(kids[i..], inArray, q) == out + KidTokens(kids[i + 1..], inArray, q)
  {
    KidsSplit(kids, i, inArray, q);
    Join3(out, FirstTokens(kids, i, inArray, q), KidTokens(kids[i + 1..], inArray, q));
  }

  class JsonWriter {
    var out: seq<Token>

    constructor ()
      ensures out == []
    {
      out := [];
    }

    // A loop over the siblings behind a node.
    method WantsComma(later: seq<Node>) returns (comma: bool)
      ensures comma == NeedsComma(later)
    {
      for i := 0 to |later|
        invariant !HasChildNodes(later[..i])
      {
        if !later[i].Text? { return true; }
        assert later[..i + 1] == later[..i] + [later[i]];
      }
      assert later[..|later|] == later;
      return false;
    }

    // The name in front of a value, outside arrays.
    method WriteName(n: Node, inArray: bool, q: Quoting)
      requires n.Elem?
      modifies this
      ensures out == old(out) + NameTokens(n, inArray, q)
    {
      var ename := EscapeText(NameOf(n));
      if !inArray {
        out := out + [Name(ename, q(NameOf(n))), Colon];
      }
    }

    // A container with the elements below it.
    method WriteGroup(open: Token, close: Token, kids: seq<Node>, inArray: bool, comma: bool, q: Quoting)
      requires AllPrintable(kids)
      modifies this
      ensures out == old(out) + ([open] + KidTokens(kids, inArray, q) + [close]) + if comma then [Comma] else []
      decreases kids, 1
    {
      ghost var was, inside, tail := out, KidTokens(kids, inArray, q), if comma then [Comma] else [];
      out := out + [open];
      WriteChildren(kids, inArray, q);
      out := out + [close] + if comma then [Comma] else [];
      Seqs.Assoc(was + [open] + inside, [close], tail);
      Seqs.Assoc4(was, [open], inside, [close]);
      Seqs.Assoc([open], inside, [close]);
      Seqs.Assoc(was, [open] + inside + [close], tail);
    }

    // The value of an element: a literal, an array, an object or a string.
    method WriteValue(n: Node, comma: bool, q: Quoting)
      requires n.Elem? && Printable(n)
      modifies this
      ensures out == old(out) + ValueTokens(n, q) + if comma then [Comma] else []
      decreases n, 1
    {
      if ScalarKind(n) {
        var evalue := EscapeText(n.kids[0].content);
        out := out + [WordTok(Trim(evalue))] + if comma then [Comma] else [];
      } else if n.kind == Some("array") {
        WriteGroup(LBracket, RBracket, n.kids, true, comma, q);
      } else if HasChildNodes(n.kids) {
        WriteGroup(LBrace, RBrace, n.kids, false, comma, q);
      } else {
        var value := TextOf(n);
        var evalue := "";
        if value.Some? {
          evalue := EscapeText(value.value);
        }
        out := out + [StrTok(evalue)] + if comma then [Comma] else [];
      }
    }

    /** jsonWriteNode */
    method WriteNode(n: Node, later: seq<Node>, inArray: bool, q: Quoting)
      requires n.Elem? && Printable(n)
      modifies this
      ensures out == old(out) + (Tokens(n, inArray, q) + CommaFor(later))
      decreases n, 2
    {
      var comma := WantsComma(later);
      var flag := inArray;
      if n.kind == Some("member") {
        flag := true;
      }
      WriteName(n, flag, q);
      WriteValue(n, comma, q);
    }

    /** jsonWriteChildren */
    method WriteChildren(kids: seq<Node>, inArray: bool, q: Quoting)
      requires AllPrintable(kids)
      modifies this
      ensures out == old(out) + KidTokens(kids, inArray, q)
      decreases kids, 0
    {
      ghost var all := out + KidTokens(kids, inArray, q);
      var i := 0;
      assert kids[0..] == kids;
      while i < |kids|
        invariant i <= |kids| && AllPrintable(kids[i..])
        invariant out + KidTokens(kids[i..], inArray, q) == all
      {
        KidsAt(kids, i, inArray, q, out);
        ghost var later := kids[i + 1..];
        if kids[i].Elem? {
          WriteNode(kids[i], kids[i + 1..], inArray, q);
        }
        i := i + 1;
        assert kids[i..] == later;
      }
      assert kids[i..] == [] && out + [] == out;
    }

    /** slaxJsonWriteNode */
    method WriteDocument(root: Node, q: Quoting)
      requires root.Elem? && AllPrintable(root.kids)
      modifies this
      ensures out == old(out) + DocumentTokens(root, q)
    {
      var flag := root.kind == Some("array");
      out := out + [if flag then LBracket else LBrace];
      WriteChildren(root.kids, flag, q);
      out := out + [if flag then RBracket else RBrace];
    }
  }

  function GroupTokens(kids: seq<Node>, inArray: bool, q: Quoting): seq<Token> {
    if inArray then [LBracket] + KidTokens(kids, true, q) + [RBracket]
    else [LBrace] + KidTokens(kids, false, q) + [RBrace]
  }

  function DocumentTokens(root: Node, q: Quoting): seq<Token>
    requires root.Elem?
  {
    GroupTokens(root.kids, root.kind == Some("array"), q)
  }

  // ----- what is written, and when it is JSON

  lemma {:induction false} TailNodes(kids: seq<Node>)
    requires kids != []
    ensures HasElements(kids) <==> kids[0].Elem? || HasElements(kids[1..])
    ensures HasChildNodes(kids) <==> !kids[0].Text? || HasChildNodes(kids[1..])
  {
    assert kids == [kids[0]] + kids[1..];
    assert forall k :: 0 <= k < |kids| - 1 ==> kids[k + 1] == kids[1..][k];
    assert forall k :: 1 <= k < |kids| ==> kids[k] == kids[1..][k - 1];
  }

  lemma {:induction false} NoElements(kids: seq<Node>, inArray: bool, q: Quoting)
    ensures HasElements(kids) <==> KidTokens(kids, inArray, q) != []
    ensures HasElements(kids) <==> Values(kids) != []
    ensures HasElements(kids) <==> Members(kids) != []
    ensures HasElements(kids) ==> HasChildNodes(kids)
    ensures !HasElements(kids) ==> AllTextsLegal(kids, inArray, q) && AllPlaced(kids, inArray)
  {
    if kids != [] {
      TailNodes(kids);
      NoElements(kids[1..], inArray, q);
      if kids[0].Elem? { TokensStart(kids[0], inArray, q); }
    }
  }

  lemma {:induction false} TokensStart(n: Node, inArray: bool, q: Quoting)
    requires n.Elem?
    ensures Tokens(n, inArray, q) != [] && Tokens(n, inArray, q)[0] !in {RBracket, RBrace, Comma, Colon}
  {
  }

  /** Behind an element a comma goes exactly where a value follows, unless other nodes follow and no element. */
  lemma {:induction false} CommaBetween(later: seq<Node>)
    ensures (NeedsComma(later) <==> Values(later) != []) <==> (HasChildNodes(later) ==> HasElements(later))
    ensures (NeedsComma(later) <==> Members(later) != []) <==> (HasChildNodes(later) ==> HasElements(later))
  {
    NoElements(later, true, _ => true);
  }

  lemma {:induction false} ScalarReads(n: Node)
    requires n.Elem? && ScalarKind(n)
    ensures Word(Trim(Escaped(TextOr(n)))) == Some(Scalar(n)) <==> ScalarLegal(n)
  {
    WordUnescaped(TextOr(n));
    WordIs(Trim(TextOr(n)));
  }

  lemma {:induction false} WordIs(w: string)
    ensures Word(w) == Some(True) <==> w == "true"
    ensures Word(w) == Some(False) <==> w == "false"
    ensures Word(w) == Some(Null) <==> w == "null"
    ensures Word(w) == Some(Num(w)) <==> NumberText(w)
  {
    assert !NumberText("true") && !NumberText("false") && !NumberText("null");
  }

  lemma {:induction false} NodeShows(n: Node, inArray: bool, q: Quoting)
    requires n.Elem? && TextsLegal(n, q) && Placed(n, inArray)
    ensures Tokens(n, inArray, q) == if inArray then Show(Meaning(n), q) else ShowMember(MemberOf(n), q)
    decreases n, 1
  {
    ValueShows(n, q);
  }

  lemma {:induction false} ValueShows(n: Node, q: Quoting)
    requires n.Elem? && TextsLegal(n, q) && InsidePlaced(n)
    ensures ValueTokens(n, q) == Show(Meaning(n), q)
    decreases n, 0
  {
    if ScalarKind(n) {
      ScalarShows(n, q);
    } else if n.kind == Some("array") || HasChildNodes(n.kids) {
      KidsShow(n.kids, n.kind == Some("array"), q);
    }
  }

  lemma {:induction false} ScalarShows(n: Node, q: Quoting)
    requires n.Elem? && ScalarKind(n) && ScalarLegal(n)
    ensures ValueTokens(n, q) == Show(Scalar(n), q)
  {
    WordIs(Trim(TextOr(n)));
    WordUnescaped(TextOr(n));
  }

  lemma {:induction false} KidsShow(kids: seq<Node>, inArray: bool, q: Quoting)
    requires AllTextsLegal(kids, inArray, q) && AllPlaced(kids, inArray)
    ensures KidTokens(kids, inArray, q) ==
      if inArray then ShowElements(Values(kids), q) else ShowMembers(Members(kids), q)
    decreases kids, 0
  {
    if kids != [] {
      KidsShow(kids[1..], inArray, q);
      var vs, ms := Values(kids), Members(kids);
      if kids[0].Elem? {
        NodeShows(kids[0], inArray, q);
        CommaBetween(kids[1..]);
        assert vs[1..] == Values(kids[1..]) && ms[1..] == Members(kids[1..]);
        assert vs[0] == Meaning(kids[0]) && ms[0] == MemberOf(kids[0]);
      } else {
        assert vs == Values(kids[1..]) && ms == Members(kids[1..]);
        assert KidTokens(kids, inArray, q) == KidTokens(kids[1..], inArray, q);
      }
    }
  }

  // What is read for an element is either nothing or all that was written for it.
  ghost predicate ReadWhole<T>(r: Read<T>, meant: T, rest: seq<Token>, legal: bool) {
    (r.Ok? ==> r.rest == rest) && (r == Ok(meant, rest) <==> legal)
  }

  /** The value of an element is read back exactly if its texts are legal and the nodes inside are well placed. */
  lemma {:induction false} ValueReads(n: Node, q: Quoting, rest: seq<Token>)
    requires n.Elem?
    ensures ReadWhole(ReadValue(ValueTokens(n, q) + rest), Meaning(n), rest, TextsLegal(n, q) && InsidePlaced(n))
    decreases n, 0
  {
    if ScalarKind(n) {
      Behind(ValueTokens(n, q), rest);
      ScalarReads(n);
    } else if n.kind == Some("array") {
      GroupReads(n.kids, true, q, rest);
    } else if HasChildNodes(n.kids) {
      GroupReads(n.kids, false, q, rest);
    } else {
      Behind(ValueTokens(n, q), rest);
      EscapeMeans(TextOr(n));
    }
  }

  function Group(kids: seq<Node>, inArray: bool): Json {
    if inArray then Arr(Values(kids)) else Obj(Members(kids))
  }

  lemma {:induction false} GroupReads(kids: seq<Node>, inArray: bool, q: Quoting, rest: seq<Token>)
    ensures ReadWhole(ReadValue(GroupTokens(kids, inArray, q) + rest), Group(kids, inArray), rest,
                      AllTextsLegal(kids, inArray, q) && AllPlaced(kids, inArray))
    decreases kids, 3
  {
    var open, close := if inArray then LBracket else LBrace, if inArray then RBracket else RBrace;
    var inside := KidTokens(kids, inArray, q);
    NoElements(kids, inArray, q);
    KidsStart(kids, inArray, q);
    ReadGroup(open, inside, close, rest);
    if inside != [] {
      if inArray {
        ElementsRead(kids, q, [close] + rest);
      } else {
        MembersRead(kids, q, [close] + rest);
      }
    }
  }

  lemma {:induction false} KidsStart(kids: seq<Node>, inArray: bool, q: Quoting)
    ensures KidTokens(kids, inArray, q) != [] ==>
      KidTokens(kids, inArray, q)[0] !in {RBracket, RBrace, Comma, Colon}
  {
    if kids != [] {
      if kids[0].Elem? {
        TokensStart(kids[0], inArray, q);
      } else {
        KidsStart(kids[1..], inArray, q);
        Seqs.NoChange(KidTokens(kids[1..], inArray, q));
      }
    }
  }

  // The tokens of the first element, and what comes behind them.
  lemma {:induction false} FirstElement(kids: seq<Node>, inArray: bool, q: Quoting, rest: seq<Token>)
    requires kids != [] && kids[0].Elem?
    ensures KidTokens(kids, inArray, q) + rest ==
      NameTokens(kids[0], inArray || kids[0].kind == Some("member"), q)
      + (ValueTokens(kids[0], q) + (CommaFor(kids[1..]) + (KidTokens(kids[1..], inArray, q) + rest)))
  {
    Seqs.Assoc5(NameTokens(kids[0], inArray || kids[0].kind == Some("member"), q), ValueTokens(kids[0], q),
                CommaFor(kids[1..]), KidTokens(kids[1..], inArray, q), rest);
  }

  // A first element that is read whole or not at all, and others behind it; `any` says whether there are others.
  lemma {:induction false} ElementsJoin(ts: seq<Token>, comma: bool, any: bool, more: seq<Token>, rest: seq<Token>,
                                        first: Json, later: seq<Json>, firstLegal: bool, laterLegal: bool)
    requires rest != [] && rest[0] == RBracket && (any ==> comma)
    requires ReadWhole(ReadValue(ts), first, if comma then [Comma] + more else rest, firstLegal)
    requires if any then ReadWhole(ReadElements(more), later, rest, laterLegal)
             else more == rest && later == [] && laterLegal
    ensures ReadWhole(ReadElements(ts), [first] + later, rest, firstLegal && (comma ==> any) && laterLegal)
  {
    Behind([Comma], more);
    Seqs.NoChange([first]);
    assert ReadValue(rest) == Fail;
    var v := ReadValue(ts);
    if v.Ok? {
      ListEqual(v.value, first, later);
    }
  }

  // Lists are equal if their first elements are, and the others.
  lemma {:induction false} ListEqual<T(!new)>(v: T, first: T, later: seq<T>)
    ensures forall more :: [v] + more == [first] + later <==> v == first && more == later
  {
    forall more: seq<T> | [v] + more == [first] + later ensures v == first && more == later {
      assert ([v] + more)[0] == v && ([v] + more)[1..] == more;
      assert ([first] + later)[0] == first && ([first] + later)[1..] == later;
    }
  }

  lemma {:induction false} ElementsRead(kids: seq<Node>, q: Quoting, rest: seq<Token>)
    requires HasElements(kids) && rest != [] && rest[0] == RBracket
    ensures ReadWhole(ReadElements(KidTokens(kids, true, q) + rest), Values(kids), rest,
                      AllTextsLegal(kids, true, q) && AllPlaced(kids, true))
    decreases kids, 1
  {
    TailNodes(kids);
    var n, later := kids[0], kids[1..];
    if n.Elem? {
      var more := KidTokens(later, true, q) + rest;
      var ts := ValueTokens(n, q) + (CommaFor(later) + more);
      FirstElement(kids, true, q, rest);
      Seqs.NoChange(ts);
      Seqs.NoChange(more);
      Seqs.NoChange(rest);
      ValueReads(n, q, CommaFor(later) + more);
      NoElements(later, true, q);
      if HasElements(later) {
        ElementsRead(later, q, rest);
      }
      ElementsJoin(ts, NeedsComma(later), HasElements(later), more, rest, Meaning(n), Values(later),
                   TextsLegal(n, q) && InsidePlaced(n), AllTextsLegal(later, true, q) && AllPlaced(later, true));
    } else {
      ElementsRead(later, q, rest);
      Seqs.NoChange(KidTokens(later, true, q));
      Seqs.NoChange(Values(later));
    }
  }

  // The same for pairs.
  lemma {:induction false} MembersJoin(name: string, q: Quoting, ts: seq<Token>, comma: bool, any: bool,
                                       more: seq<Token>, rest: seq<Token>, first: Json, later: seq<Member>,
                                       firstLegal: bool, laterLegal: bool)
    requires rest != [] && rest[0] == RBrace && (any ==> comma)
    requires ReadWhole(ReadValue(ts), first, if comma then [Comma] + more else rest, firstLegal)
    requires if any then ReadWhole(ReadMembers(more), later, rest, laterLegal)
             else more == rest && later == [] && laterLegal
    ensures ReadWhole(ReadMembers([Name(Escaped(name), q(name)), Colon] + ts), [Member(name, first)] + later, rest,
                      NameLegal(name, q) && firstLegal && (comma ==> any) && laterLegal)
  {
    ReadMember(Name(Escaped(name), q(name)), ts);
    NameReads(name, q);
    Behind([Comma], more);
    Seqs.NoChange([Member(name, first)]);
    var meant, v := NameMeant(Escaped(name), q(name)), ReadValue(ts);
    if meant.Some? && v.Ok? {
      ListEqual(Member(meant.value, v.value), Member(name, first), later);
    }
  }

  lemma {:induction false} MembersRead(kids: seq<Node>, q: Quoting, rest: seq<Token>)
    requires HasElements(kids) && rest != [] && rest[0] == RBrace
    ensures ReadWhole(ReadMembers(KidTokens(kids, false, q) + rest), Members(kids), rest,
                      AllTextsLegal(kids, false, q) && AllPlaced(kids, false))
    decreases kids, 1
  {
    TailNodes(kids);
    var n, later := kids[0], kids[1..];
    if n.Elem? {
      var more := KidTokens(later, false, q) + rest;
      var ts := ValueTokens(n, q) + (CommaFor(later) + more);
      FirstElement(kids, false, q, rest);
      if n.kind == Some("member") {
        Seqs.NoChange(ts);
        assert !ts[0].Name?;
      } else {
        Seqs.NoChange(more);
        Seqs.NoChange(rest);
        ValueReads(n, q, CommaFor(later) + more);
        NoElements(later, false, q);
        if HasElements(later) {
          MembersRead(later, q, rest);
        }
        MembersJoin(NameOf(n), q, ts, NeedsComma(later), HasElements(later), more, rest, Meaning(n), Members(later),
                    TextsLegal(n, q) && InsidePlaced(n), AllTextsLegal(later, false, q) && AllPlaced(later, false));
      }
    } else {
      MembersRead(later, q, rest);
      Seqs.NoChange(KidTokens(later, false, q));
      Seqs.NoChange(Members(later));
    }
  }

  function DocumentValue(root: Node): Json
    requires root.Elem?
  {
    Group(root.kids, root.kind == Some("array"))
  }

  /**
    A document is read by the grammar as the value of its tree exactly if scalars, strings and names hold legal
    text, no element of type member is found outside arrays, and no other node but text comes behind the last
    element of a group.
   */
  lemma {:induction false} DocumentReads(root: Node, q: Quoting)
    requires root.Elem?
    ensures ReadValue(DocumentTokens(root, q)) == Ok(DocumentValue(root), [])
      <==> AllTextsLegal(root.kids, root.kind == Some("array"), q) && AllPlaced(root.kids, root.kind == Some("array"))
  {
    GroupReads(root.kids, root.kind == Some("array"), q, []);
    Seqs.NoChange(DocumentTokens(root, q));
  }

  /** Such a document can be printed at all. */
  lemma {:induction false} LegalPrintable(kids: seq<Node>, inArray: bool, q: Quoting)
    requires AllTextsLegal(kids, inArray, q)
    ensures AllPrintable(kids)
  {
    if kids != [] {
      LegalPrintable(kids[1..], inArray, q);
      var n := kids[0];
      if n.Elem? {
        if ScalarKind(n) {
          ScalarHasText(n);
        } else if n.kind == Some("array") || HasChildNodes(n.kids) {
          LegalPrintable(n.kids, n.kind == Some("array"), q);
        } else {
          TextsPrintable(n.kids);
        }
      }
    }
  }

  lemma {:induction false} ScalarHasText(n: Node)
    requires n.Elem? && ScalarKind(n) && ScalarLegal(n)
    ensures TextOf(n).Some?
  {
    assert Trim("") == "" && !NumberText("");
  }

  lemma {:induction false} TextsPrintable(kids: seq<Node>)
    requires !HasChildNodes(kids)
    ensures AllPrintable(kids)
  {
    if kids != [] {
      TailNodes(kids);
      TextsPrintable(kids[1..]);
    }
  }

  // A member element under an object is written without a name.
  lemma {:induction false} MemberNeedsArray(q: Quoting)
    ensures var root := Elem("json", None, None, [Elem("member", Some("member"), None, [Text("x")])]);
      ReadValue(DocumentTokens(root, q)) != Ok(DocumentValue(root), [])
  {
    var root := Elem("json", None, None, [Elem("member", Some("member"), None, [Text("x")])]);
    DocumentReads(root, q);
  }

  // A comment behind the last element leaves a comma with nothing after it; in front of it, it does no harm.
  lemma {:induction false} CommentLeavesComma(q: Quoting)
    ensures var root := Elem("json", Some("array"), None, [Elem("a", None, None, []), Other]);
      ReadValue(DocumentTokens(root, q)) != Ok(DocumentValue(root), [])
    ensures var root := Elem("json", Some("array"), None, [Other, Elem("a", None, None, [])]);
      ReadValue(DocumentTokens(root, q)) == Ok(DocumentValue(root), [])
  {
    var a := Elem("a", None, None, []);
    DocumentReads(Elem("json", Some("array"), None, [a, Other]), q);
    assert [a, Other][1..] == [Other] && !HasElements([Other]) && [Other][0] == Other && HasChildNodes([Other]);
    DocumentReads(Elem("json", Some("array"), None, [Other, a]), q);
    assert [Other, a][1..] == [a] && [a][1..] == [];
  }
}
