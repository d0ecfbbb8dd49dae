/**
  The concatenation operator and the concat() function: what rewriting one to the other and back means
  on token sequences.
 */
module SlaxConcat {
  import Seqs
  import opened SlaxString

  // An expression by value: its tokens, and the places its ss_concat chain visits (none if there is no chain).
  datatype Expr = Expr(toks: seq<Tok>, marks: seq<nat>)

  const CONCAT := Tok(M_CONCAT, "concat")
  const OPEN := Tok(L_OPAREN, "(")
  const CLOSE := Tok(L_CPAREN, ")")
  const COMMA := Tok(L_COMMA, ",")
  const UNDERSCORE := Tok(L_UNDERSCORE, "_")

  predicate IsLiteral(toks: seq<Tok>) {
    |toks| == 1 && toks[0].ttype == T_QUOTED
  }

  predicate SameQuotes(l: seq<Tok>, r: seq<Tok>) {
    IsLiteral(l) && IsLiteral(r) && QuotesIn(l[0].token) == QuotesIn(r[0].token)
  }

  // Two literals become one, unless there is no text to fuse.
  predicate Fuses(l: seq<Tok>, r: seq<Tok>) {
    SameQuotes(l, r) && |l[0].token + r[0].token| > 0
  }

  // Two empty literals: linked into one list, then not fused.
  predicate Stuck(l: seq<Tok>, r: seq<Tok>) {
    SameQuotes(l, r) && |l[0].token + r[0].token| == 0
  }

  function Rewrite(l: Expr, r: seq<Tok>): Expr
    requires l.toks != []
  {
    if Fuses(l.toks, r) then
      Expr([Tok(T_QUOTED, l.toks[0].token + r[0].token)], [])
    else if l.toks[0].ttype != M_CONCAT then
      Expr([CONCAT, OPEN] + l.toks + [COMMA] + r + [CLOSE], [2 + |l.toks|, 3 + |l.toks| + |r|])
    else if l.toks[|l.toks| - 1].ttype == L_CPAREN then
      Expr(l.toks[..|l.toks| - 1] + [COMMA] + r + [CLOSE], l.marks + [|l.toks| + |r|])
    else l
  }

  // The parser folds the operator from the left.
  function Fold(es: seq<seq<Tok>>): (x: Expr)
    requires |es| > 0 && forall i :: 0 <= i < |es| ==> es[i] != []
    ensures x.toks != []
  {
    if |es| == 1 then Expr(es[0], []) else Rewrite(Fold(es[..|es| - 1]), es[|es| - 1])
  }

  // ----- what the fold builds

  // The operands after fusing: a literal joins what came before as long as that is one literal.
  function Operands(es: seq<seq<Tok>>): (fs: seq<seq<Tok>>)
    requires |es| > 0
    ensures |fs| > 0
  {
    if |es| == 1 then es else
      var fs := Operands(es[..|es| - 1]);
      var e := es[|es| - 1];
      if |fs| == 1 && Fuses(fs[0], e) then [[Tok(T_QUOTED, fs[0][0].token + e[0].token)]] else fs + [e]
  }

  function Join(fs: seq<seq<Tok>>, sep: Tok): seq<Tok>
    requires |fs| > 0
  {
    if |fs| == 1 then fs[0] else Join(fs[..|fs| - 1], sep) + [sep] + fs[|fs| - 1]
  }

  // Where the separators stand in a join.
  function Seps(fs: seq<seq<Tok>>): seq<nat>
    requires |fs| > 0
  {
    if |fs| == 1 then [] else Seps(fs[..|fs| - 1]) + [|Join(fs[..|fs| - 1], COMMA)|]
  }

  function ConcatCall(head: Tok, fs: seq<seq<Tok>>): seq<Tok>
    requires |fs| > 0
  {
    [head, OPEN] + Join(fs, COMMA) + [CLOSE]
  }

  function Shift(s: seq<nat>, k: nat): (t: seq<nat>)
    ensures |t| == |s| && forall i :: 0 <= i < |s| ==> t[i] == s[i] + k
  {
    if s == [] then [] else Shift(s[..|s| - 1], k) + [s[|s| - 1] + k]
  }

  function Built(fs: seq<seq<Tok>>): Expr
    requires |fs| > 0
  {
    if |fs| == 1 then Expr(fs[0], [])
    else Expr(ConcatCall(CONCAT, fs), Shift(Seps(fs), 2) + [|ConcatCall(CONCAT, fs)| - 1])
  }

  ghost predicate FoldOk(es: seq<seq<Tok>>) {
    && |es| > 0 && (forall i :: 0 <= i < |es| ==> es[i] != [])
    && es[0][0].ttype != M_CONCAT && !TwoEmpties(es)
  }

  // The rewriting never returns from these.
  predicate TwoEmpties(es: seq<seq<Tok>>) {
    |es| > 1 && Stuck(es[0], es[1])
  }

  lemma {:induction false} FoldOkInit(es: seq<seq<Tok>>)
    requires FoldOk(es) && |es| > 1
    ensures FoldOk(es[..|es| - 1])
  {
  }

  // What is fused of several literals is not empty.
  lemma {:induction false} FusedNotEmpty(es: seq<seq<Tok>>)
    requires |es| > 1 && |Operands(es)| == 1
    ensures IsLiteral(Operands(es)[0]) && Operands(es)[0][0].token != ""
  {
  }

  /** Where the first two operands are not both empty literals, no rewriting gets stuck on the way. */
  lemma {:induction false} NeverStuck(es: seq<seq<Tok>>)
    requires FoldOk(es) && |es| > 1
    ensures !Stuck(Fold(es[..|es| - 1]).toks, es[|es| - 1])
  {
    var init := es[..|es| - 1];
    FoldOkInit(es);
    FoldBuilds(init);
    if |init| > 1 && |Operands(init)| == 1 {
      FusedNotEmpty(init);
    }
  }

  lemma {:induction false} FirstOperand(es: seq<seq<Tok>>)
    requires FoldOk(es)
    ensures Operands(es)[0] != [] && Operands(es)[0][0].ttype != M_CONCAT
  {
    if |es| > 1 {
      FirstOperand(es[..|es| - 1]);
    }
  }

  /** Folding gives `concat(e1, ..., en)` over the operands left after fusing, with the chain through
      the separating commas to the closing parenthesis. */
  lemma {:induction false} FoldBuilds(es: seq<seq<Tok>>)
    requires FoldOk(es)
    ensures Fold(es) == Built(Operands(es))
  {
    if |es| > 1 {
      var init, e := es[..|es| - 1], es[|es| - 1];
      FoldBuilds(init);
      FirstOperand(init);
      var fs := Operands(init);
      if |fs| == 1 {
        if !Fuses(fs[0], e) {
          FirstBuilt(fs[0], e);
          assert fs + [e] == [fs[0], e];
        }
      } else {
        ExtendBuilt(fs, e);
      }
    }
  }

  lemma {:induction false} FirstBuilt(f: seq<Tok>, e: seq<Tok>)
    requires f != [] && f[0].ttype != M_CONCAT && !Fuses(f, e)
    ensures Rewrite(Expr(f, []), e) == Built([f, e])
  {
    assert [f, e][..1] == [f];
    assert Join([f, e], COMMA) == f + [COMMA] + e;
    Seqs.Assoc([CONCAT, OPEN], f + [COMMA], e);
    Seqs.Assoc([CONCAT, OPEN], f, [COMMA]);
    assert Seps([f, e]) == [|f|];
    assert [|f|][..0] == [] && Shift([|f|], 2) == [|f| + 2];
    var x, call := Rewrite(Expr(f, []), e), ConcatCall(CONCAT, [f, e]);
    assert x.toks == call;
    assert x.marks == [|f| + 2] + [|call| - 1];
  }

  lemma {:induction false} ExtendBuilt(fs: seq<seq<Tok>>, e: seq<Tok>)
    requires |fs| > 1
    ensures Rewrite(Built(fs), e) == Built(fs + [e])
  {
    var call := ConcatCall(CONCAT, fs);
    var j := Join(fs, COMMA);
    assert (fs + [e])[..|fs|] == fs;
    assert call[..|call| - 1] == [CONCAT, OPEN] + j;
    assert Join(fs + [e], COMMA) == j + [COMMA] + e;
    assert ConcatCall(CONCAT, fs + [e]) == call[..|call| - 1] + [COMMA] + e + [CLOSE];
    assert Seps(fs + [e]) == Seps(fs) + [|j|];
    var s := Seps(fs + [e]);
    assert s[..|s| - 1] == Seps(fs);
    assert Shift(s, 2) == Shift(Seps(fs), 2) + [|j| + 2];
  }

  // ----- the text of the operands

  function TextOf(es: seq<seq<Tok>>): string
    requires forall i :: 0 <= i < |es| ==> IsLiteral(es[i])
  {
    if es == [] then "" else
      assert IsLiteral(es[|es| - 1]);
      TextOf(es[..|es| - 1]) + es[|es| - 1][0].token
  }

  lemma {:induction false} TextOfSnoc(es: seq<seq<Tok>>, e: seq<Tok>)
    requires (forall i :: 0 <= i < |es| ==> IsLiteral(es[i])) && IsLiteral(e)
    ensures TextOf(es + [e]) == TextOf(es) + e[0].token
  {
    assert (es + [e])[..|es|] == es;
  }

  lemma {:induction false} OneText(es: seq<seq<Tok>>)
    requires |es| == 1 && IsLiteral(es[0])
    ensures TextOf(es) == es[0][0].token
  {
    assert es == [] + [es[0]];
    TextOfSnoc([], es[0]);
  }

  lemma {:induction false} KeptOperands(init: seq<seq<Tok>>, e: seq<Tok>, fs: seq<seq<Tok>>, k: nat)
    requires 1 <= k <= |init| && |fs| > 0 && fs[1..] == init[k..]
    ensures (fs + [e])[1..] == (init + [e])[k..] && (fs + [e])[0] == fs[0] && (init + [e])[..k] == init[..k]
  {
    assert (fs + [e])[1..] == fs[1..] + [e];
    assert (init + [e])[k..] == init[k..] + [e];
  }

  lemma {:induction false} FusedText(init: seq<seq<Tok>>, e: seq<Tok>, f: seq<Tok>)
    requires |init| > 0 && (|init| == 1 ==> init[0] == f) && Fuses(f, e)
    requires |init| > 1 ==>
      (forall i :: 0 <= i < |init| ==> IsLiteral(init[i])) && f == [Tok(T_QUOTED, TextOf(init))]
    ensures forall i :: 0 <= i < |init| + 1 ==> IsLiteral((init + [e])[i])
    ensures TextOf(init + [e]) == f[0].token + e[0].token
  {
    if |init| == 1 {
      OneText(init);
    }
    TextOfSnoc(init, e);
  }

  /** Fusing replaces a run of literals at the front by their joined text and keeps the rest. */
  lemma {:induction false} OperandsJoinText(es: seq<seq<Tok>>) returns (k: nat)
    requires |es| > 0
    ensures 1 <= k <= |es| && Operands(es)[1..] == es[k..]
    ensures k == 1 ==> Operands(es)[0] == es[0]
    ensures k > 1 ==>
      && (forall i :: 0 <= i < k ==> IsLiteral(es[i])) && Operands(es)[0] == [Tok(T_QUOTED, TextOf(es[..k]))]
  {
    if |es| == 1 {
      return 1;
    }
    var init, e := es[..|es| - 1], es[|es| - 1];
    assert es == init + [e];
    k := OperandsJoinText(init);
    var fs := Operands(init);
    if |fs| == 1 && Fuses(fs[0], e) {
      assert |init[k..]| == |fs[1..]| == 0;
      assert init[..k] == init && es[..k + 1] == es;
      FusedText(init, e, fs[0]);
      k := k + 1;
    } else {
      KeptOperands(init, e, fs, k);
    }
  }

  // One literal each, with the same kinds of quotes in them.
  ghost predicate Alike(l: seq<Tok>, r: seq<Tok>) {
    && |l| == 1 && l[0].ttype == T_QUOTED && |r| == 1 && r[0].ttype == T_QUOTED
    && ('"' in l[0].token <==> '"' in r[0].token) && ('\'' in l[0].token <==> '\'' in r[0].token)
  }

  /** All literals at the front that hold the same kinds of quotes are fused, and no others. */
  lemma {:induction false} FusesFront(es: seq<seq<Tok>>)
    requires |es| > 0
    ensures |Operands(es)| <= |es|
    ensures var first, k := Operands(es)[0], |es| - |Operands(es)| + 1;
      && (forall i :: 0 <= i < k && k > 1 ==> Alike(es[i], first))
      && (k < |es| && Alike(first, es[k]) ==> first[0].token == es[k][0].token == "")
  {
    if |es| > 1 {
      var init, e := es[..|es| - 1], es[|es| - 1];
      FusesFront(init);
      var fs := Operands(init);
      if |fs| == 1 && Fuses(fs[0], e) {
        var text := fs[0][0].token + e[0].token;
        AlikeFused(fs[0], e, text);
        FrontKept(init, fs[0]);
        assert forall i :: 0 <= i < |init| ==> es[i] == init[i] && Alike(es[i], fs[0]);
      } else if |fs| == 1 {
        NotAlike(fs[0], e);
      }
    }
  }

  lemma {:induction false} FrontKept(es: seq<seq<Tok>>, first: seq<Tok>)
    requires |es| > 0 && Operands(es) == [first] && IsLiteral(first)
    requires |es| > 1 ==> forall i :: 0 <= i < |es| ==> Alike(es[i], first)
    ensures forall i :: 0 <= i < |es| ==> Alike(es[i], first)
  {
  }

  lemma {:induction false} AlikeFused(l: seq<Tok>, r: seq<Tok>, text: string)
    requires Fuses(l, r) && text == l[0].token + r[0].token
    ensures Alike(l, r) && Alike(l, [Tok(T_QUOTED, text)]) && Alike(r, [Tok(T_QUOTED, text)])
  {
    assert QuotesIn(l[0].token).single == QuotesIn(r[0].token).single;
    assert QuotesIn(l[0].token).double == QuotesIn(r[0].token).double;
  }

  lemma {:induction false} NotAlike(l: seq<Tok>, r: seq<Tok>)
    requires !Fuses(l, r)
    ensures Alike(l, r) ==> l[0].token == r[0].token == ""
  {
  }

  // ----- nesting of parentheses

  function Step(t: Tok): int {
    if t.ttype == L_OPAREN then 1 else if t.ttype == L_CPAREN then -1 else 0
  }

  function Net(toks: seq<Tok>): int {
    if toks == [] then 0 else Net(toks[..|toks| - 1]) + Step(toks[|toks| - 1])
  }

  lemma {:induction false} NetConcat(a: seq<Tok>, b: seq<Tok>)
    ensures Net(a + b) == Net(a) + Net(b)
  {
    if b == [] {
      assert a + b == a;
    } else {
      assert (a + b)[..|a + b| - 1] == a + b[..|b| - 1];
      NetConcat(a, b[..|b| - 1]);
    }
  }

  // Parentheses match, and no comma stands outside all of them: the form of any operand.
  ghost predicate Balanced(e: seq<Tok>) {
    && Net(e) == 0
    && (forall i {:trigger Net(e[..i])} :: 0 <= i <= |e| ==> Net(e[..i]) >= 0)
    && (forall i {:trigger e[i]} :: 0 <= i < |e| && e[i].ttype == L_COMMA ==> Net(e[..i]) > 0)
  }

  lemma {:induction false} SepsIncrease(fs: seq<seq<Tok>>)
    requires |fs| > 0
    ensures |Seps(fs)| == |fs| - 1
    ensures forall i, k :: 0 <= i < k < |Seps(fs)| ==> Seps(fs)[i] < Seps(fs)[k]
    ensures forall i :: 0 <= i < |Seps(fs)| ==> Seps(fs)[i] < |Join(fs, COMMA)|
  {
    if |fs| > 1 {
      SepsIncrease(fs[..|fs| - 1]);
    }
  }

  lemma {:induction false} NetOne(t: Tok)
    ensures Net([t]) == Step(t)
  {
    assert [t][..0] == [];
  }

  /** The level inside `j sep e`, place by place. */
  lemma {:induction false} LevelAfterSep(j: seq<Tok>, sep: Tok, e: seq<Tok>, i: nat)
    requires Net(j) == 0 && Step(sep) == 0 && i <= |e|
    ensures (j + [sep] + e)[..|j|] == j
    ensures (j + [sep] + e)[..|j| + 1 + i] == j + [sep] + e[..i]
    ensures Net((j + [sep] + e)[..|j| + 1 + i]) == Net(e[..i])
  {
    assert (j + [sep] + e)[..|j| + 1 + i] == j + ([sep] + e[..i]);
    NetConcat(j, [sep] + e[..i]);
    NetConcat([sep], e[..i]);
    NetOne(sep);
  }

  lemma {:induction false} LevelInLast(j: seq<Tok>, sep: Tok, e: seq<Tok>, i: nat)
    requires Net(j) == 0 && Step(sep) == 0 && Balanced(e) && |j| < i <= |j| + 1 + |e|
    ensures Net((j + [sep] + e)[..i]) >= 0 && (i == |j| + 1 + |e| ==> Net((j + [sep] + e)[..i]) == 0)
    ensures i < |j| + 1 + |e| ==> !((j + [sep] + e)[i].ttype == L_COMMA && Net((j + [sep] + e)[..i]) == 0)
  {
    var k := i - |j| - 1;
    LevelAfterSep(j, sep, e, k);
    assert e[..|e|] == e;
    assert Net(e[..k]) >= 0;
    assert k < |e| ==> (j + [sep] + e)[i] == e[k];
  }

  /** In a join of balanced operands the commas at level zero are exactly the separators. */
  lemma {:induction false} JoinLevel(fs: seq<seq<Tok>>, sep: Tok, i: nat)
    requires |fs| > 0 && (sep == COMMA || sep == UNDERSCORE) && i <= |Join(fs, sep)|
    requires forall k :: 0 <= k < |fs| ==> Balanced(fs[k])
    ensures Net(Join(fs, sep)[..i]) >= 0 && (i == |Join(fs, sep)| ==> Net(Join(fs, sep)[..i]) == 0)
    ensures sep == COMMA && i < |Join(fs, sep)| ==>
      (i in Seps(fs) <==> Join(fs, sep)[i].ttype == L_COMMA && Net(Join(fs, sep)[..i]) == 0)
  {
    if |fs| == 1 {
      var e := fs[0];
      assert Balanced(e) && e[..|e|] == e && Net(e[..i]) >= 0;
    } else {
      var init, e := fs[..|fs| - 1], fs[|fs| - 1];
      var j := Join(init, sep);
      var all := j + [sep] + e;
      assert Join(fs, sep) == all;
      JoinLevel(init, sep, |j|);
      assert j[..|j|] == j;
      SepsIncrease(init);
      if i < |j| {
        JoinLevel(init, sep, i);
        assert all[..i] == j[..i] && all[i] == j[i];
      } else if i == |j| {
        assert all[..i] == j && all[i] == sep;
      } else {
        LevelInLast(j, sep, e, i);
      }
    }
  }

  /** The chain of a built concat() visits exactly its top-level commas, in order, then its last parenthesis. */
  lemma {:induction false} ChainVisitsTopCommas(fs: seq<seq<Tok>>)
    requires |fs| > 1 && forall i :: 0 <= i < |fs| ==> Balanced(fs[i])
    ensures var x := Built(fs); var n := |x.marks|;
      && n == |fs| && x.marks[n - 1] == |x.toks| - 1 && x.toks[|x.toks| - 1] == CLOSE
      && (forall i, k :: 0 <= i < k < n ==> x.marks[i] < x.marks[k])
      && (forall i :: 0 <= i < |x.toks| ==>
            (i in x.marks[..n - 1] <==> x.toks[i].ttype == L_COMMA && Net(x.toks[..i]) == 1))
  {
    var s, x := Seps(fs), Built(fs);
    MarksIncrease(fs);
    var n := |x.marks|;
    assert x.marks[..n - 1] == Shift(s, 2);
    forall i | 0 <= i < |x.toks|
      ensures i in Shift(s, 2) <==> x.toks[i].ttype == L_COMMA && Net(x.toks[..i]) == 1
    {
      ChainPlace(fs, i);
    }
  }

  lemma {:induction false} MarksIncrease(fs: seq<seq<Tok>>)
    requires |fs| > 1
    ensures var x := Built(fs); |x.marks| == |fs| && forall i, k :: 0 <= i < k < |fs| ==> x.marks[i] < x.marks[k]
  {
    var s, x := Seps(fs), Built(fs);
    SepsIncrease(fs);
    var end := |ConcatCall(CONCAT, fs)| - 1;
    CallAt(CONCAT, fs, end);
    assert x.marks == Shift(s, 2) + [end];
    forall i, k | 0 <= i < k < |fs| ensures x.marks[i] < x.marks[k] {
      assert x.marks[i] == s[i] + 2;
      if k < |fs| - 1 { assert x.marks[k] == s[k] + 2; } else { assert x.marks[k] == end; }
    }
  }

  lemma {:induction false} InShift(s: seq<nat>, k: nat, i: int)
    ensures i in Shift(s, k) <==> i >= k && i - k in s
  {
    if i >= k && i - k in s {
      var m :| 0 <= m < |s| && s[m] == i - k;
      assert Shift(s, k)[m] == i;
    }
  }

  lemma {:induction false} ChainPlace(fs: seq<seq<Tok>>, i: nat)
    requires |fs| > 1 && (forall k :: 0 <= k < |fs| ==> Balanced(fs[k])) && i < |ConcatCall(CONCAT, fs)|
    ensures var call := ConcatCall(CONCAT, fs);
      i in Shift(Seps(fs), 2) <==> call[i].ttype == L_COMMA && Net(call[..i]) == 1
  {
    InShift(Seps(fs), 2, i);
    CallAt(CONCAT, fs, i);
    if 2 <= i < |ConcatCall(CONCAT, fs)| - 1 {
      ChainInside(fs, i - 2);
    } else if i > 2 {
      SepsIncrease(fs);
    }
  }

  lemma {:induction false} ChainInside(fs: seq<seq<Tok>>, i: nat)
    requires |fs| > 1 && (forall k :: 0 <= k < |fs| ==> Balanced(fs[k])) && i < |Join(fs, COMMA)|
    ensures i in Seps(fs) <==> Join(fs, COMMA)[i].ttype == L_COMMA && Net(ConcatCall(CONCAT, fs)[..i + 2]) == 1
  {
    CallLevel(CONCAT, fs, i);
    JoinLevel(fs, COMMA, i);
  }

  lemma {:induction false} CallAt(head: Tok, fs: seq<seq<Tok>>, i: nat)
    requires |fs| > 0 && i < |ConcatCall(head, fs)|
    ensures var call, j := ConcatCall(head, fs), Join(fs, COMMA);
      |call| == |j| + 3
      && call[i] == if i == 0 then head else if i == 1 then OPEN else if i < |call| - 1 then j[i - 2] else CLOSE
  {
  }

  lemma {:induction false} CallLevel(head: Tok, fs: seq<seq<Tok>>, i: nat)
    requires |fs| > 0 && i <= |Join(fs, COMMA)| && head.ttype != L_OPAREN && head.ttype != L_CPAREN
    ensures Net(ConcatCall(head, fs)[..i + 2]) == 1 + Net(Join(fs, COMMA)[..i])
  {
    var j := Join(fs, COMMA);
    assert ConcatCall(head, fs)[..i + 2] == [head] + ([OPEN] + j[..i]);
    NetConcat([head], [OPEN] + j[..i]);
    NetConcat([OPEN], j[..i]);
    NetOne(head);
    NetOne(OPEN);
  }

  // ----- and back

  // slaxWriteRedoConcat: commas at level one become underscores; the last token is not looked at.
  function Redone(toks: seq<Tok>): seq<Tok> {
    seq(|toks|, i requires 0 <= i < |toks| =>
      if i < |toks| - 1 && toks[i].ttype == L_COMMA && Net(toks[..i]) == 1 then UNDERSCORE else toks[i])
  }

  // slaxWriteRemoveParens: the outer parentheses go unless they close before the end.
  predicate Extraneous(toks: seq<Tok>) {
    && |toks| >= 3 && toks[|toks| - 1].ttype == L_CPAREN
    && (forall i {:trigger Net(toks[1..i])} :: 1 <= i <= |toks| - 1 ==> Net(toks[1..i]) >= 0)
    && Net(toks[1..|toks| - 1]) == 0
  }

  function Unwrapped(toks: seq<Tok>): seq<Tok> {
    if Extraneous(toks) then toks[1..|toks| - 1] else toks
  }

  function RetagZero(toks: seq<Tok>): seq<Tok> {
    seq(|toks|, i requires 0 <= i < |toks| =>
      if toks[i].ttype == L_COMMA && Net(toks[..i]) == 0 then UNDERSCORE else toks[i])
  }

  lemma {:induction false} JoinLength(fs: seq<seq<Tok>>)
    requires |fs| > 0
    ensures |Join(fs, COMMA)| == |Join(fs, UNDERSCORE)|
  {
    if |fs| > 1 {
      JoinLength(fs[..|fs| - 1]);
    }
  }

  lemma {:induction false} RetagPlace(fs: seq<seq<Tok>>, i: nat)
    requires |fs| > 0 && (forall k :: 0 <= k < |fs| ==> Balanced(fs[k])) && i < |Join(fs, COMMA)|
    ensures |Join(fs, COMMA)| == |Join(fs, UNDERSCORE)|
    ensures RetagZero(Join(fs, COMMA))[i] == Join(fs, UNDERSCORE)[i]
  {
    JoinLength(fs);
    if |fs| == 1 {
      assert Balanced(fs[0]);
    } else {
      var init, e := fs[..|fs| - 1], fs[|fs| - 1];
      var j, all := Join(init, COMMA), Join(fs, COMMA);
      JoinLength(init);
      JoinLevel(init, COMMA, |j|);
      assert j[..|j|] == j && all == j + [COMMA] + e;
      if i < |j| {
        RetagPlace(init, i);
        assert all[..i] == j[..i];
      } else if i > |j| {
        LevelInLast(j, COMMA, e, i);
      } else {
        assert all[..i] == j;
      }
    }
  }

  lemma {:induction false} RetagJoin(fs: seq<seq<Tok>>)
    requires |fs| > 0 && forall i :: 0 <= i < |fs| ==> Balanced(fs[i])
    ensures RetagZero(Join(fs, COMMA)) == Join(fs, UNDERSCORE)
  {
    JoinLength(fs);
    forall i | 0 <= i < |Join(fs, COMMA)| ensures RetagZero(Join(fs, COMMA))[i] == Join(fs, UNDERSCORE)[i] {
      RetagPlace(fs, i);
    }
  }

  lemma {:induction false} RedonePlace(head: Tok, fs: seq<seq<Tok>>, i: nat)
    requires |fs| > 0 && i < |ConcatCall(head, fs)|
    requires head.ttype != L_OPAREN && head.ttype != L_CPAREN && head.ttype != L_COMMA
    ensures var call := ConcatCall(head, fs);
      Redone(call)[i] == if 2 <= i < |call| - 1 then RetagZero(Join(fs, COMMA))[i - 2] else call[i]
  {
    if 2 <= i < |ConcatCall(head, fs)| - 1 {
      CallLevel(head, fs, i - 2);
    }
  }

  lemma {:induction false} RedoneCall(head: Tok, fs: seq<seq<Tok>>)
    requires |fs| > 0 && (forall i :: 0 <= i < |fs| ==> Balanced(fs[i]))
    requires head.ttype != L_OPAREN && head.ttype != L_CPAREN && head.ttype != L_COMMA
    ensures Redone(ConcatCall(head, fs)) == [head, OPEN] + Join(fs, UNDERSCORE) + [CLOSE]
  {
    var u, call := Join(fs, UNDERSCORE), ConcatCall(head, fs);
    RetagJoin(fs);
    var want := [head, OPEN] + u + [CLOSE];
    forall i | 0 <= i < |call| ensures Redone(call)[i] == want[i] {
      RedonePlace(head, fs, i);
    }
  }

  /** Rewriting concat(e1, ..., en) back and dropping its parentheses gives e1 _ ... _ en. */
  lemma {:induction false} RedoRestores(head: Tok, fs: seq<seq<Tok>>)
    requires |fs| > 0 && (forall i :: 0 <= i < |fs| ==> Balanced(fs[i])) && Join(fs, UNDERSCORE) != []
    requires head.ttype != L_OPAREN && head.ttype != L_CPAREN && head.ttype != L_COMMA
    ensures Unwrapped(Redone(ConcatCall(head, fs))[1..]) == Join(fs, UNDERSCORE)
  {
    RedoneCall(head, fs);
    WrappedUnwraps(fs);
    assert ([head, OPEN] + Join(fs, UNDERSCORE) + [CLOSE])[1..] == [OPEN] + Join(fs, UNDERSCORE) + [CLOSE];
  }

  // What the first token opens is not closed before the last one.
  ghost predicate StaysOpen(toks: seq<Tok>) {
    forall k {:trigger Net(toks[..k])} :: 1 <= k < |toks| ==> Net(toks[..k]) > 0
  }

  /** The outer parentheses go exactly if the first one is closed by the last token and by none before it, and
      something stands between them. */
  lemma {:induction false} UnwrapsIff(toks: seq<Tok>)
    requires toks != [] && toks[0].ttype == L_OPAREN
    ensures Unwrapped(toks) ==
      if |toks| > 2 && toks[|toks| - 1].ttype == L_CPAREN && Net(toks) == 0 && StaysOpen(toks)
      then toks[1..|toks| - 1] else toks
  {
    var n := |toks|;
    assert Net(toks) == Net(toks[..n - 1]) + Step(toks[n - 1]);
    forall k {:trigger Net(toks[..k])} | 1 <= k < n ensures Net(toks[..k]) == 1 + Net(toks[1..k]) {
      LevelInside(toks, k);
    }
    if StaysOpen(toks) {
      forall i | 1 <= i <= n - 1 ensures Net(toks[1..i]) >= 0 {
        assert Net(toks[..i]) > 0;
      }
    } else {
      var k :| 1 <= k < n && Net(toks[..k]) <= 0;
      assert Net(toks[1..k]) < 0;
    }
    assert n > 2 ==> Net(toks[..n - 1]) == 1 + Net(toks[1..n - 1]);
  }

  lemma {:induction false} LevelInside(toks: seq<Tok>, k: nat)
    requires toks != [] && toks[0].ttype == L_OPAREN && 1 <= k <= |toks|
    ensures Net(toks[..k]) == 1 + Net(toks[1..k])
  {
    assert toks[..k] == [toks[0]] + toks[1..k];
    NetConcat([toks[0]], toks[1..k]);
    NetOne(toks[0]);
  }

  lemma {:induction false} WrappedUnwraps(fs: seq<seq<Tok>>)
    requires |fs| > 0 && (forall i :: 0 <= i < |fs| ==> Balanced(fs[i])) && Join(fs, UNDERSCORE) != []
    ensures Unwrapped([OPEN] + Join(fs, UNDERSCORE) + [CLOSE]) == Join(fs, UNDERSCORE)
  {
    var u := Join(fs, UNDERSCORE);
    var w := [OPEN] + u + [CLOSE];
    forall i | 1 <= i <= |w| - 1 ensures Net(w[1..i]) >= 0 && (i == |w| - 1 ==> Net(w[1..i]) == 0) {
      assert w[1..i] == u[..i - 1];
      JoinLevel(fs, UNDERSCORE, i - 1);
    }
    assert w[1..|w| - 1] == u;
  }

  lemma {:induction false} OperandsBalanced(es: seq<seq<Tok>>)
    requires |es| > 0 && forall i :: 0 <= i < |es| ==> Balanced(es[i])
    ensures forall i :: 0 <= i < |Operands(es)| ==> Balanced(Operands(es)[i])
  {
    if |es| > 1 {
      var init, e := es[..|es| - 1], es[|es| - 1];
      OperandsBalanced(init);
      var fs := Operands(init);
      if |fs| == 1 && Fuses(fs[0], e) {
        LiteralBalanced(fs[0][0].token + e[0].token);
      }
    }
  }

  lemma {:induction false} LiteralBalanced(text: string)
    ensures Balanced([Tok(T_QUOTED, text)])
  {
    var e := [Tok(T_QUOTED, text)];
    NetOne(e[0]);
    assert e[..0] == [] && e[..1] == e;
  }

  /** Folding the operator and rewriting the result back gives the operands joined by the operator again,
      up to the literals that were fused. */
  lemma {:induction false} FoldThenRedo(es: seq<seq<Tok>>)
    requires FoldOk(es) && (forall i :: 0 <= i < |es| ==> Balanced(es[i])) && |Operands(es)| > 1
    ensures Unwrapped(Redone(Fold(es).toks)[1..]) == Join(Operands(es), UNDERSCORE)
  {
    FoldBuilds(es);
    OperandsBalanced(es);
    FirstOperand(es);
    RedoRestores(CONCAT, Operands(es));
  }

  // a _ b is rewritten to concat(a, b), and read back from it.
  lemma {:induction false} CallSpelled(a: Tok, b: Tok)
    requires a.ttype != T_QUOTED && a.ttype != M_CONCAT
    ensures Fold([[a], [b]]).toks ==
      [Tok(M_CONCAT, "concat"), Tok(L_OPAREN, "("), a, Tok(L_COMMA, ","), b, Tok(L_CPAREN, ")")]
    ensures Join([[a], [b]], UNDERSCORE) == [a, Tok(L_UNDERSCORE, "_"), b]
  {
    var es := [[a], [b]];
    assert es[..1] == [[a]] && Fold([[a]]) == Expr([a], []);
    assert Fold(es) == Rewrite(Expr([a], []), [b]);
  }
}
