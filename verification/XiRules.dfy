/**
  Documents read under rules: what comes back, token by token.

  A rule may ask for a tag of its own and may drop the attributes.  A close tag is matched against
  the name that was read and is written with the tag that was stored.
 */
module XiRules {
  import opened XiTree
  import opened XiZipper
  import opened XiEmit
  import opened XiRoundTrip

  // Where the elements still open were opened, outermost first.
  function Openers(toks: seq<Token>): (at: seq<nat>)
    requires OpenNames(toks).Some?
    ensures |at| == |OpenNames(toks).value| && forall m :: 0 <= m < |at| ==> at[m] < |toks|
  {
    if toks == [] then [] else
      var at := Openers(toks[..|toks| - 1]);
      match toks[|toks| - 1]
      case TOpen(_, _) => at + [|toks| - 1]
      case TClose(_) => at[..|at| - 1]
      case _ => at
  }

  // Between an element still open and the end, what is open are the elements inside it.
  ghost predicate OpenedAt(toks: seq<Token>, names: seq<string>, at: seq<nat>, m: nat)
    requires m < |at| == |names|
  {
    && at[m] < |toks| && toks[at[m]].TOpen? && toks[at[m]].name == names[m]
    && OpenNames(toks[at[m] + 1..]) == Some(names[m + 1..])
  }

  lemma {:induction false} OpenersMatch(toks: seq<Token>, m: nat)
    requires OpenNames(toks).Some? && m < |Openers(toks)|
    ensures OpenedAt(toks, OpenNames(toks).value, Openers(toks), m)
  {
    var init, at := toks[..|toks| - 1], Openers(toks);
    if at[m] < |init| {
      OpenersMatch(init, m);
      OpenersMatchStep(toks, OpenNames(init).value, at[m], m);
    } else {
      assert toks[at[m] + 1..] == [] && OpenNames(toks).value[m + 1..] == [];
    }
  }

  lemma {:induction false} OpenersMatchStep(toks: seq<Token>, names: seq<string>, k: nat, m: nat)
    requires toks != [] && k < |toks| - 1 && m < |names|
    requires OpenNames(toks[..|toks| - 1]) == Some(names) && OpenNames(toks).Some?
    requires OpenNames(toks[..|toks| - 1][k + 1..]) == Some(names[m + 1..])
    requires m < |OpenNames(toks).value|
    ensures OpenNames(toks[k + 1..]) == Some(OpenNames(toks).value[m + 1..])
  {
    var part := toks[k + 1..];
    assert part[..|part| - 1] == toks[..|toks| - 1][k + 1..];
    assert part[|part| - 1] == toks[|toks| - 1];
    match toks[|toks| - 1]
    case TOpen(n, _) => assert (names + [n])[m + 1..] == names[m + 1..] + [n];
    case TClose(n) => assert names[..|names| - 1][m + 1..] == names[m + 1..][..|names| - m - 2];
    case _ =>
  }

  function Tag(name: string, rule: Rule): string {
    if rule.useTag.Some? then rule.useTag.value else name
  }

  // The tokens under their stored tags, each with the attributes its rule keeps.
  function Retagged(toks: seq<Token>, rules: seq<Rule>): (out: seq<Token>)
    requires |rules| == |toks| && OpenNames(toks).Some?
    ensures |out| == |toks|
  {
    if toks == [] then [] else
      var init, rest := toks[..|toks| - 1], rules[..|toks| - 1];
      Retagged(init, rest) + [RetagLast(toks, rules)]
  }

  function RetagLast(toks: seq<Token>, rules: seq<Rule>): Token
    requires toks != [] && |rules| == |toks| && OpenNames(toks).Some?
  {
    var init, rule := toks[..|toks| - 1], rules[|toks| - 1];
    match toks[|toks| - 1]
    case TOpen(n, a) => TOpen(Tag(n, rule), Kept(a, rule))
    case TEmpty(n, a) => TEmpty(Tag(n, rule), Kept(a, rule))
    case TClose(n) =>
      var at := Openers(init)[|Openers(init)| - 1];
      TClose(if toks[at].TOpen? then Tag(toks[at].name, rules[at]) else n)
    case tok => tok
  }

  function Ruled(toks: seq<Token>, rules: seq<Rule>): seq<(Token, Rule)>
    requires |rules| == |toks|
  {
    seq(|toks|, i requires 0 <= i < |toks| => (toks[i], rules[i]))
  }

  // Each open element with the tag it is shown by and the name its open tag was read with.
  ghost predicate StackUnder(open: seq<(string, string)>, toks: seq<Token>, rules: seq<Rule>, at: seq<nat>)
    requires |rules| == |toks|
  {
    && |open| == |at|
    && forall m :: 0 <= m < |at| ==>
         at[m] < |toks| && toks[at[m]].TOpen? && open[m] == (Tag(toks[at[m]].name, rules[at[m]]), toks[at[m]].name)
  }

  ghost predicate RanUnder(d: Doc, toks: seq<Token>, rules: seq<Rule>)
    requires |rules| == |toks| && OpenNames(toks).Some?
  {
    d.toks == Collapsed(Retagged(toks, rules)) && StackUnder(d.open, toks, rules, Openers(toks))
  }

  lemma {:induction false} StackKept(open: seq<(string, string)>, toks: seq<Token>, rules: seq<Rule>, at: seq<nat>)
    requires toks != [] && |rules| == |toks|
    requires StackUnder(open, toks[..|toks| - 1], rules[..|toks| - 1], at)
    ensures StackUnder(open, toks, rules, at)
  {
  }

  lemma {:induction false} RetaggedSnoc(toks: seq<Token>, rules: seq<Rule>)
    requires toks != [] && |rules| == |toks| && OpenNames(toks).Some?
    ensures Collapsed(Retagged(toks, rules))
         == CollapseMore(Collapsed(Retagged(toks[..|toks| - 1], rules[..|toks| - 1])), RetagLast(toks, rules))
  {
    var out := Retagged(toks, rules);
    assert out[..|toks| - 1] == Retagged(toks[..|toks| - 1], rules[..|toks| - 1]);
  }

  // What one token does, given the collapsed tokens c and the open elements before it.
  lemma {:induction false} RuledMore(d: Doc, c: seq<Token>, open: seq<(string, string)>, tok: Token, rule: Rule)
    requires d == Doc(c, open) && (tok.TClose? ==> open != [] && open[|open| - 1].1 == tok.name)
    ensures DocStep(d, tok, rule) ==
      match tok
      case TOpen(n, a) => Doc(CollapseMore(c, TOpen(Tag(n, rule), Kept(a, rule))), open + [(Tag(n, rule), n)])
      case TEmpty(n, a) => Doc(CollapseMore(c, TEmpty(Tag(n, rule), Kept(a, rule))), open)
      case TClose(_) => Doc(CollapseMore(c, TClose(open[|open| - 1].0)), open[..|open| - 1])
      case _ => Doc(CollapseMore(c, tok), open)
  {
    if tok.TEmpty? {
      var more := DocOpen(d, tok.name, tok.attribs, rule);
      assert more.toks[..|more.toks| - 1] == c && more.open[..|more.open| - 1] == open;
    }
  }

  lemma {:induction false} ClosesLast(toks: seq<Token>, rules: seq<Rule>, open: seq<(string, string)>)
    requires toks != [] && |rules| == |toks| && OpenNames(toks).Some? && toks[|toks| - 1].TClose?
    requires StackUnder(open, toks, rules, Openers(toks[..|toks| - 1]))
    ensures open != [] && open[|open| - 1].1 == toks[|toks| - 1].name
    ensures RetagLast(toks, rules) == TClose(open[|open| - 1].0)
    ensures StackUnder(open[..|open| - 1], toks, rules, Openers(toks))
  {
    var init := toks[..|toks| - 1];
    var names, at := OpenNames(init).value, Openers(init);
    OpenersMatch(init, |at| - 1);
    assert Openers(toks) == at[..|at| - 1];
  }

  lemma {:induction false} OpensLast(toks: seq<Token>, rules: seq<Rule>, open: seq<(string, string)>, at: seq<nat>)
    requires toks != [] && |rules| == |toks| && toks[|toks| - 1].TOpen?
    requires StackUnder(open, toks, rules, at)
    ensures var n := toks[|toks| - 1].name;
            StackUnder(open + [(Tag(n, rules[|toks| - 1]), n)], toks, rules, at + [|toks| - 1])
  {
  }

  lemma {:induction false} RuledStep(d: Doc, toks: seq<Token>, rules: seq<Rule>)
    requires toks != [] && |rules| == |toks| && OpenNames(toks).Some?
    requires RanUnder(d, toks[..|toks| - 1], rules[..|toks| - 1])
    ensures RanUnder(DocStep(d, toks[|toks| - 1], rules[|toks| - 1]), toks, rules)
  {
    var at, tok, rule := Openers(toks[..|toks| - 1]), toks[|toks| - 1], rules[|toks| - 1];
    RetaggedSnoc(toks, rules);
    StackKept(d.open, toks, rules, at);
    match tok {
      case TOpen(_, _) => OpensLast(toks, rules, d.open, at);
      case TClose(_) => ClosesLast(toks, rules, d.open);
      case _ =>
    }
    RuledMore(d, d.toks, d.open, tok, rule);
  }

  lemma {:induction false} RuledRun(toks: seq<Token>, rules: seq<Rule>)
    requires |rules| == |toks| && OpenNames(toks).Some?
    ensures RanUnder(DocRun(Ruled(toks, rules)), toks, rules)
  {
    if toks != [] {
      var init, rest := toks[..|toks| - 1], rules[..|toks| - 1];
      RuledRun(init, rest);
      assert Ruled(toks, rules)[..|toks| - 1] == Ruled(init, rest);
      RuledStep(DocRun(Ruled(init, rest)), toks, rules);
    }
  }

  /** A balanced document read under any rules comes back under its stored tags, with `<a></a>` as `<a/>`. */
  lemma {:induction false} RuledRoundTrip(toks: seq<Token>, rules: seq<Rule>)
    requires |rules| == |toks| && OpenNames(toks) == Some([])
    ensures Plug(Run(START, Ruled(toks, rules))).Elem?
    ensures ReadBack(WalkDocument(Plug(Run(START, Ruled(toks, rules))))) == Collapsed(Retagged(toks, rules))
  {
    RuledRun(toks, rules);
    EmitGivesTokensBack(Ruled(toks, rules));
  }

  lemma {:induction false} RetaggedAt(toks: seq<Token>, rules: seq<Rule>, i: nat)
    requires |rules| == |toks| && OpenNames(toks).Some? && i < |toks|
    ensures OpenNames(toks[..i + 1]).Some? && Retagged(toks, rules)[i] == RetagLast(toks[..i + 1], rules[..i + 1])
    decreases |toks|
  {
    if i < |toks| - 1 {
      RetaggedAt(toks[..|toks| - 1], rules[..|toks| - 1], i);
      assert toks[..|toks| - 1][..i + 1] == toks[..i + 1] && rules[..|toks| - 1][..i + 1] == rules[..i + 1];
    } else {
      assert toks[..i + 1] == toks && rules[..i + 1] == rules;
    }
  }

  // The close tag at i ends the element opened at j.
  ghost predicate Ends(toks: seq<Token>, j: nat, i: nat)
    requires j < i < |toks|
  {
    toks[j].TOpen? && toks[i] == TClose(toks[j].name) && OpenNames(toks[j + 1..i]) == Some([])
  }

  lemma {:induction false} CloseHasOpen(toks: seq<Token>, rules: seq<Rule>, i: nat) returns (j: nat)
    requires |rules| == |toks| && OpenNames(toks).Some? && i < |toks| && toks[i].TClose?
    ensures j < i && Ends(toks, j, i)
    ensures Retagged(toks, rules)[i] == TClose(Tag(toks[j].name, rules[j]))
  {
    RetaggedAt(toks, rules, i);
    var upto, init := toks[..i + 1], toks[..i];
    assert upto[..|upto| - 1] == init && upto[|upto| - 1] == toks[i];
    var names, at := OpenNames(init).value, Openers(init);
    OpenersMatch(init, |at| - 1);
    j := at[|at| - 1];
    assert init[j + 1..] == toks[j + 1..i] && names[|at|..] == [];
  }

  ghost predicate RetagOk(toks: seq<Token>, rules: seq<Rule>, out: seq<Token>, i: nat)
    requires |rules| == |toks| == |out| && i < |toks|
  {
    match toks[i]
    case TOpen(n, a) => out[i] == TOpen(Tag(n, rules[i]), Kept(a, rules[i]))
    case TEmpty(n, a) => out[i] == TEmpty(Tag(n, rules[i]), Kept(a, rules[i]))
    case TClose(_) => out[i].TClose?
    case tok => out[i] == tok
  }

  lemma {:induction false} RetagIsOk(toks: seq<Token>, rules: seq<Rule>, i: nat)
    requires |rules| == |toks| && OpenNames(toks).Some? && i < |toks|
    ensures RetagOk(toks, rules, Retagged(toks, rules), i)
  {
    RetaggedAt(toks, rules, i);
  }

  lemma {:induction false} TidyCollapsed(toks: seq<Token>, rules: seq<Rule>, out: seq<Token>)
    requires |rules| == |toks| == |out|
    requires forall i :: 0 <= i < |toks| ==> RetagOk(toks, rules, out, i)
    requires forall i :: 0 <= i < |toks| ==> !toks[i].TOther?
    requires forall i :: 0 < i < |toks| && toks[i].TClose? ==> !toks[i - 1].TOpen?
    ensures Collapsed(out) == out
  {
    if toks != [] {
      var n := |toks| - 1;
      assert RetagOk(toks, rules, out, n) && (n > 0 ==> RetagOk(toks, rules, out, n - 1));
      forall i | 0 <= i < n ensures RetagOk(toks[..n], rules[..n], out[..n], i) {
        assert RetagOk(toks, rules, out, i);
      }
      TidyCollapsed(toks[..n], rules[..n], out[..n]);
    }
  }

  // The close tag at i of what comes back is the one of the element it ends.
  ghost predicate CloseBack(toks: seq<Token>, out: seq<Token>, i: nat)
    requires |toks| == |out| && i < |toks|
  {
    exists j: nat :: j < i && Ends(toks, j, i) && out[j].TOpen? && out[i] == TClose(out[j].name)
  }

  lemma {:induction false} CloseIsBack(toks: seq<Token>, rules: seq<Rule>, i: nat)
    requires |rules| == |toks| && OpenNames(toks).Some? && i < |toks| && toks[i].TClose?
    ensures CloseBack(toks, Retagged(toks, rules), i)
  {
    var j := CloseHasOpen(toks, rules, i);
    RetagIsOk(toks, rules, j);
  }

  // What comes back in place of token i: the tag its rule asks for, or else the one read; its attributes only where
  // the rule keeps them; and for a close tag, the tag of the element it ends, matched by the name read.
  ghost predicate BackUnder(toks: seq<Token>, rules: seq<Rule>, out: seq<Token>, i: nat)
    requires |rules| == |toks| == |out| && i < |toks|
  {
    match toks[i]
    case TOpen(n, a) =>
      out[i] == TOpen(if rules[i].useTag.Some? then rules[i].useTag.value else n,
                      if rules[i].action.SaveAtstr? then a else None)
    case TEmpty(n, a) =>
      out[i] == TEmpty(if rules[i].useTag.Some? then rules[i].useTag.value else n,
                       if rules[i].action.SaveAtstr? then a else None)
    case TClose(_) => CloseBack(toks, out, i)
    case tok => out[i] == tok
  }

  /** The tokens under their stored tags, said one by one. */
  lemma {:induction false} RetaggedMeans(toks: seq<Token>, rules: seq<Rule>)
    requires |rules| == |toks| && OpenNames(toks).Some?
    ensures forall i :: 0 <= i < |toks| ==> BackUnder(toks, rules, Retagged(toks, rules), i)
  {
    var out := Retagged(toks, rules);
    forall i | 0 <= i < |toks| ensures BackUnder(toks, rules, out, i) {
      RetagIsOk(toks, rules, i);
      if toks[i].TClose? {
        CloseIsBack(toks, rules, i);
      }
    }
  }

  lemma {:induction false} RetaggedTidy(toks: seq<Token>, rules: seq<Rule>)
    requires |rules| == |toks| && Tidy(toks)
    ensures Collapsed(Retagged(toks, rules)) == Retagged(toks, rules)
  {
    var out := Retagged(toks, rules);
    forall i | 0 <= i < |toks| ensures RetagOk(toks, rules, out, i) {
      RetagIsOk(toks, rules, i);
    }
    TidyCollapsed(toks, rules, out);
  }

  /** A tidy document read under any rules comes back with as many tokens, each the one its rule asks for. */
  lemma {:induction false} RuledTidyRoundTrip(toks: seq<Token>, rules: seq<Rule>)
    requires |rules| == |toks| && Tidy(toks) && OpenNames(toks) == Some([])
    ensures Plug(Run(START, Ruled(toks, rules))).Elem?
    ensures var out := ReadBack(WalkDocument(Plug(Run(START, Ruled(toks, rules)))));
      |out| == |toks| && forall i :: 0 <= i < |toks| ==> BackUnder(toks, rules, out, i)
  {
    RetaggedTidy(toks, rules);
    RetaggedMeans(toks, rules);
    RuledRoundTrip(toks, rules);
  }

  // The last of a run's open elements is closed by the name its open tag was read with.
  lemma {:induction false} ClosesByName(toks: seq<Token>, rules: seq<Rule>, name: string)
    requires |rules| == |toks| && OpenNames(toks).Some?
    ensures var names := OpenNames(toks).value;
      Closes(Run(START, Ruled(toks, rules)), name) <==> names != [] && names[|names| - 1] == name
  {
    var z, d, names := Run(START, Ruled(toks, rules)), DocRun(Ruled(toks, rules)), OpenNames(toks).value;
    RuledRun(toks, rules);
    RunAgrees(Ruled(toks, rules));
    assert |z| == |names| + 1;
    if names != [] {
      var m := |names| - 1;
      OpenersMatch(toks, m);
      assert d.open[m].1 == names[m] && Expected(z[m + 1]) == Some(d.open[m].1);
    }
  }

  /** No close tag of a run fails exactly if each carries the name of the innermost element open, as it was read. */
  lemma {:induction false} NoFailuresIff(toks: seq<Token>, rules: seq<Rule>)
    requires |rules| == |toks|
    ensures Failures(START, Ruled(toks, rules)) == 0 <==> OpenNames(toks).Some?
  {
    if toks != [] {
      var init, rest, tok := toks[..|toks| - 1], rules[..|toks| - 1], toks[|toks| - 1];
      NoFailuresIff(init, rest);
      assert Ruled(toks, rules)[..|toks| - 1] == Ruled(init, rest);
      if OpenNames(init).Some? && tok.TClose? {
        ClosesByName(init, rest, tok.name);
      }
    }
  }
}
