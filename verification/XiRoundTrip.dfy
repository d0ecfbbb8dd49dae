/**
  From tokens through the node store to events and back: what is written out is what was read in,
  with an open tag directly followed by its close written as an empty tag.
 */
module XiRoundTrip {
  import Seqs
  import opened XiTree
  import opened XiZipper
  import XiInsert
  import opened XiEmit

  // ----- the tree in the store is the zipper with its open elements closed

  lemma {:induction false} StoreIsPlug(nodes: seq<Node>, texts: seq<string>, sh: Shape,
                                       st: seq<XiInsert.IStack>, depth: nat)
    requires XiInsert.StateOk(nodes, texts, sh, st, depth)
    ensures TreeOf(nodes, texts, sh, ROOT_ATOM) == Plug(XiInsert.Zip(nodes, texts, sh, st, depth))
    decreases depth
  {
    if depth == 0 {
      assert XiInsert.SlotOk(nodes, sh, st, 0);
    } else {
      XiInsert.PopOk(nodes, texts, sh, st, depth);
      StoreIsPlug(nodes, texts, sh, st[depth := XiInsert.EMPTY_SLOT], depth - 1);
    }
  }

  // ----- reading events as tokens, the way the XML writer prints them

  // `tag` is a start tag not yet ended; `afterEmpty` says the next close belongs to an empty tag.
  datatype Reader = Reader(toks: seq<Token>, tag: Option<Tag>, afterEmpty: bool)
  datatype Tag = Tag(name: string, attribs: Option<string>)

  function NameOf(name: Option<string>): string {
    if name.Some? then name.value else ""
  }

  function ReadEvent(r: Reader, e: Event): Reader {
    match e
    case EOpen(n) => r.(tag := Some(Tag(NameOf(n), None)))
    case EAtstr(d) => if r.tag.Some? then r.(tag := Some(r.tag.value.(attribs := Some(d)))) else r
    case EEolAttrib =>
      if r.tag.Some? then Reader(r.toks + [TOpen(r.tag.value.name, r.tag.value.attribs)], None, false) else r
    case EEolEmpty =>
      if r.tag.Some? then Reader(r.toks + [TEmpty(r.tag.value.name, r.tag.value.attribs)], None, true) else r
    case EText(d) => r.(toks := r.toks + [TText(d)])
    case EClose(n) =>
      if r.afterEmpty then r.(afterEmpty := false)
      else if n.Some? then r.(toks := r.toks + [TClose(n.value)]) else r
    case _ => r
  }

  function ReadAll(r: Reader, evs: seq<Event>): Reader
    decreases |evs|
  {
    if evs == [] then r else ReadAll(ReadEvent(r, evs[0]), evs[1..])
  }

  function ReadBack(evs: seq<Event>): seq<Token> {
    ReadAll(Reader([], None, false), evs).toks
  }

  lemma {:induction false} ReadAllConcat(r: Reader, a: seq<Event>, b: seq<Event>)
    ensures ReadAll(r, a + b) == ReadAll(ReadAll(r, a), b)
    decreases |a|
  {
    if a == [] {
      assert a + b == b;
    } else {
      assert (a + b)[0] == a[0] && (a + b)[1..] == a[1..] + b;
      ReadAllConcat(ReadEvent(r, a[0]), a[1..], b);
    }
  }

  // ----- the tokens of a tree

  // Attribute strings come first in their element, and every element is named.
  predicate Proper(t: Tree) {
    match t
    case Elem(name, kids) => name.Some? && ProperForest(Body(kids))
    case Text(_) => true
    case Attr(_) => false
  }

  predicate ProperForest(f: seq<Tree>) {
    f == [] || (Proper(f[0]) && ProperForest(f[1..]))
  }

  predicate HasAttr(kids: seq<Tree>) {
    kids != [] && kids[0].Attr?
  }

  function AttrOf(kids: seq<Tree>): Option<string> {
    if HasAttr(kids) then Some(kids[0].data) else None
  }

  function Body(kids: seq<Tree>): (b: seq<Tree>)
    ensures |b| <= |kids| && (forall i :: 0 <= i < |b| ==> b[i] in kids)
  {
    if HasAttr(kids) then kids[1..] else kids
  }

  function TokTree(t: Tree): seq<Token> {
    match t
    case Text(d) => [TText(d)]
    case Attr(_) => []
    case Elem(name, kids) =>
      var b := Body(kids);
      if b == [] then [TEmpty(NameOf(name), AttrOf(kids))]
      else [TOpen(NameOf(name), AttrOf(kids))] + TokForest(b) + [TClose(NameOf(name))]
  }

  function TokForest(f: seq<Tree>): seq<Token> {
    if f == [] then [] else TokForest(f[..|f| - 1]) + TokTree(f[|f| - 1])
  }

  lemma {:induction false} TokForestSnoc(f: seq<Tree>, t: Tree)
    ensures TokForest(f + [t]) == TokForest(f) + TokTree(t)
  {
    assert (f + [t])[..|f|] == f;
  }

  lemma {:induction false} TokForestCons(f: seq<Tree>)
    requires f != []
    ensures TokForest(f) == TokTree(f[0]) + TokForest(f[1..])
  {
    if |f| == 1 {
      assert f[..0] == [] && f[1..] == [];
    } else {
      var g, t := f[..|f| - 1], f[|f| - 1];
      TokForestCons(g);
      TokForestSnoc(g[1..], t);
      assert g[1..] + [t] == f[1..];
      Seqs.Assoc(TokTree(f[0]), TokForest(g[1..]), TokTree(t));
    }
  }

  /** Reading the walk of a tree gives the tokens of the tree. */
  lemma {:induction false} ReadWalkTree(r: Reader, t: Tree)
    requires Proper(t) && r.tag == None && !r.afterEmpty
    ensures ReadAll(r, WalkTree(t)) == r.(toks := r.toks + TokTree(t))
    decreases t, 1
  {
    match t
    case Text(d) =>
    case Elem(name, kids) =>
      if kids == [] {
        ReadChildless(r, name);
      } else {
        var w := WalkForest(kids, true);
        var r1 := r.(tag := Some(Tag(NameOf(name), AttrOf(kids))));
        assert WalkTree(t) == [EOpen(name)] + (w + [EClose(name)]);
        ReadStart(r, name, kids);
        ReadAllConcat(ReadEvent(r, EOpen(name)), w, [EClose(name)]);
        ReadWalkBody(r1, Body(kids));
        ReadEnd(r, name, kids, ReadAll(r1, WalkForest(Body(kids), true)));
      }
  }

  lemma {:induction false} ReadChildless(r: Reader, name: Option<string>)
    requires r.tag == None && !r.afterEmpty
    ensures ReadAll(r, [EOpen(name), EEolEmpty, EClose(None)]) == r.(toks := r.toks + [TEmpty(NameOf(name), None)])
  {
    assert [EOpen(name), EEolEmpty, EClose(None)][1..] == [EEolEmpty, EClose(None)];
    assert [EEolEmpty, EClose(None)][1..] == [EClose(None)];
    assert [EClose(None)][1..] == [];
  }

  lemma {:induction false} ReadStart(r: Reader, name: Option<string>, kids: seq<Tree>)
    requires r.tag == None && kids != []
    ensures ReadAll(ReadEvent(r, EOpen(name)), WalkForest(kids, true))
         == ReadAll(r.(tag := Some(Tag(NameOf(name), AttrOf(kids)))), WalkForest(Body(kids), true))
  {
    if HasAttr(kids) {
      assert WalkForest(kids, true) == [EAtstr(kids[0].data)] + WalkForest(Body(kids), true);
      assert ([EAtstr(kids[0].data)] + WalkForest(Body(kids), true))[1..] == WalkForest(Body(kids), true);
    }
  }

  lemma {:induction false} ReadEnd(r: Reader, name: Option<string>, kids: seq<Tree>, r1: Reader)
    requires name.Some?
    requires r1 == (var n, a, b := NameOf(name), AttrOf(kids), Body(kids);
                    if b == [] then Reader(r.toks + [TEmpty(n, a)], None, true)
                    else Reader(r.toks + [TOpen(n, a)] + TokForest(b), None, false))
    ensures ReadAll(r1, [EClose(name)]) == Reader(r.toks + TokTree(Elem(name, kids)), None, false)
  {
    assert [EClose(name)][1..] == [];
  }

  /** The same for the children of an element whose start tag is still open. */
  lemma {:induction false} ReadWalkBody(r: Reader, b: seq<Tree>)
    requires ProperForest(b) && r.tag.Some? && !r.afterEmpty
    ensures ReadAll(r, WalkForest(b, true))
         == if b == [] then Reader(r.toks + [TEmpty(r.tag.value.name, r.tag.value.attribs)], None, true)
            else Reader(r.toks + [TOpen(r.tag.value.name, r.tag.value.attribs)] + TokForest(b), None, false)
    decreases b, 1
  {
    if b == [] {
      assert [EEolEmpty][1..] == [];
    } else {
      var r1 := Reader(r.toks + [TOpen(r.tag.value.name, r.tag.value.attribs)], None, false);
      assert WalkForest(b, true) == [EEolAttrib] + WalkForest(b, false);
      ReadWalkForest(r1, b);
    }
  }

  lemma {:induction false} ReadWalkForest(r: Reader, f: seq<Tree>)
    requires ProperForest(f) && r.tag == None && !r.afterEmpty
    ensures ReadAll(r, WalkForest(f, false)) == r.(toks := r.toks + TokForest(f))
    decreases f, 0
  {
    if f != [] {
      assert WalkForest(f, false) == WalkTree(f[0]) + WalkForest(f[1..], false);
      ReadAllConcat(r, WalkTree(f[0]), WalkForest(f[1..], false));
      ReadWalkTree(r, f[0]);
      var r1 := r.(toks := r.toks + TokTree(f[0]));
      ReadWalkForest(r1, f[1..]);
      TokForestCons(f);
      assert r.toks + TokTree(f[0]) + TokForest(f[1..]) == r.toks + TokForest(f);
    }
  }

  lemma {:induction false} ReadDocument(t: Tree)
    requires t.Elem? && ProperForest(t.kids)
    ensures ReadBack(WalkDocument(t)) == TokForest(t.kids)
  {
    var r := Reader([], None, false);
    var w := WalkForest(t.kids, false);
    var tail := (if t.kids == [] then [] else [EClose(None)]) + [EEof];
    assert WalkDocument(t) == [ERoot] + (w + tail);
    assert ([ERoot] + (w + tail))[1..] == w + tail;
    ReadAllConcat(r, w, tail);
    ReadWalkForest(r, t.kids);
    ReadTail(r.(toks := r.toks + TokForest(t.kids)), tail);
  }

  lemma {:induction false} ReadTail(r: Reader, tail: seq<Event>)
    requires !r.afterEmpty && (tail == [EEof] || tail == [EClose(None), EEof])
    ensures ReadAll(r, tail) == r
  {
    assert [EClose(None), EEof][1..] == [EEof] && [EEof][1..] == [];
  }

  // ----- the tokens a run should give back

  // `open` lists the elements still open: the tag shown for each, and the tag its close must carry.
  datatype Doc = Doc(toks: seq<Token>, open: seq<(string, string)>)

  function Kept(attribs: Option<string>, rule: Rule): Option<string> {
    if rule.action == SaveAtstr then attribs else None
  }

  function DocOpen(d: Doc, name: string, attribs: Option<string>, rule: Rule): Doc {
    var shown := match rule.useTag case Some(tag) => tag case None => name;
    Doc(d.toks + [TOpen(shown, Kept(attribs, rule))], d.open + [(shown, name)])
  }

  // A close right after its open turns the open tag into an empty tag.
  function Ended(toks: seq<Token>, shown: string): seq<Token> {
    if toks != [] && toks[|toks| - 1].TOpen? then
      toks[..|toks| - 1] + [TEmpty(toks[|toks| - 1].name, toks[|toks| - 1].attribs)]
    else
      toks + [TClose(shown)]
  }

  function DocEndTop(d: Doc): Doc
    requires d.open != []
  {
    Doc(Ended(d.toks, d.open[|d.open| - 1].0), d.open[..|d.open| - 1])
  }

  function DocClose(d: Doc, name: string): Doc {
    if d.open != [] && d.open[|d.open| - 1].1 == name then DocEndTop(d) else d
  }

  function DocStep(d: Doc, tok: Token, rule: Rule): Doc {
    match tok
    case TOpen(n, a) => DocOpen(d, n, a, rule)
    case TEmpty(n, a) => DocClose(DocOpen(d, n, a, rule), n)
    case TClose(n) => DocClose(d, n)
    case TText(_) => d.(toks := d.toks + [tok])
    case TOther => d
  }

  function DocRun(toks: seq<(Token, Rule)>): Doc {
    if toks == [] then Doc([], [])
    else DocStep(DocRun(toks[..|toks| - 1]), toks[|toks| - 1].0, toks[|toks| - 1].1)
  }

  function DocEnd(d: Doc): seq<Token>
    decreases |d.open|
  {
    if d.open == [] then d.toks else DocEnd(DocEndTop(d))
  }

  // ----- zippers against documents

  function TokZip(z: Zipper): seq<Token>
    decreases |z|
  {
    if |z| == 1 then TokForest(z[0].done)
    else TokZip(z[..|z| - 1]) + TokFrame(z[|z| - 1])
  }

  function TokFrame(f: Frame): seq<Token> {
    [TOpen(NameOf(f.name), AttrOf(f.done))] + TokForest(Body(f.done))
  }

  ghost predicate ProperFrame(z: Zipper, i: nat)
    requires i < |z|
  {
    if i == 0 then ProperForest(z[0].done) else z[i].name.Some? && ProperForest(Body(z[i].done))
  }

  ghost predicate Agree(z: Zipper, d: Doc) {
    && (forall i :: 0 <= i < |z| ==> ProperFrame(z, i))
    && d.toks == TokZip(z) && |d.open| == |z| - 1
    && (forall i :: 0 <= i < |d.open| ==>
          z[i + 1].name == Some(d.open[i].0) && Expected(z[i + 1]) == Some(d.open[i].1))
  }

  lemma {:induction false} ProperSnoc(f: seq<Tree>, t: Tree)
    requires ProperForest(f) && Proper(t)
    ensures ProperForest(f + [t])
  {
    if f == [] {
      assert f + [t] == [t];
    } else {
      assert (f + [t])[1..] == f[1..] + [t];
      ProperSnoc(f[1..], t);
    }
  }

  lemma {:induction false} ProperLast(f: seq<Tree>)
    requires ProperForest(f) && f != []
    ensures Proper(f[|f| - 1])
  {
    if |f| > 1 {
      ProperLast(f[1..]);
    }
  }

  lemma {:induction false} BodySnoc(kids: seq<Tree>, t: Tree)
    requires Proper(t)
    ensures Body(kids + [t]) == Body(kids) + [t] && AttrOf(kids + [t]) == AttrOf(kids)
  {
  }

  lemma {:induction false} HangFrame(f: Frame, t: Tree)
    requires Proper(t) && ProperForest(Body(f.done))
    ensures TokFrame(f.(done := f.done + [t])) == TokFrame(f) + TokTree(t)
    ensures ProperForest(Body(f.done + [t]))
  {
    BodySnoc(f.done, t);
    TokForestSnoc(Body(f.done), t);
    ProperSnoc(Body(f.done), t);
  }

  lemma {:induction false} HangTok(z: Zipper, t: Tree)
    requires Proper(t) && ProperFrame(z, |z| - 1)
    ensures TokZip(Hang(z, t)) == TokZip(z) + TokTree(t)
    ensures ProperFrame(Hang(z, t), |z| - 1)
  {
    var f := z[|z| - 1];
    var z' := Hang(z, t);
    if |z| == 1 {
      TokForestSnoc(f.done, t);
      ProperSnoc(f.done, t);
    } else {
      HangFrame(f, t);
      assert z'[..|z| - 1] == z[..|z| - 1];
      assert z'[|z| - 1] == f.(done := f.done + [t]);
      Seqs.Assoc(TokZip(z[..|z| - 1]), TokFrame(f), TokTree(t));
    }
  }

  lemma {:induction false} HangNames(z: Zipper, t: Tree)
    ensures |Hang(z, t)| == |z|
    ensures forall i :: 0 <= i < |z| ==>
      Hang(z, t)[i].name == z[i].name && Expected(Hang(z, t)[i]) == Expected(z[i])
  {
  }

  lemma {:induction false} HangFrames(z: Zipper, t: Tree)
    requires Proper(t) && forall i :: 0 <= i < |z| ==> ProperFrame(z, i)
    ensures forall i :: 0 <= i < |Hang(z, t)| ==> ProperFrame(Hang(z, t), i)
  {
    HangTok(z, t);
    forall i | 0 <= i < |Hang(z, t)| ensures ProperFrame(Hang(z, t), i) {
      assert ProperFrame(z, i);
    }
  }

  lemma {:induction false} HangAgrees(z: Zipper, d: Doc, t: Tree)
    requires Agree(z, d) && Proper(t)
    ensures Agree(Hang(z, t), d.(toks := d.toks + TokTree(t)))
  {
    assert ProperFrame(z, |z| - 1);
    HangTok(z, t);
    HangNames(z, t);
    HangFrames(z, t);
  }

  lemma {:induction false} TokForestEnds(f: seq<Tree>)
    requires ProperForest(f) && f != []
    ensures TokForest(f) != [] && !TokForest(f)[|TokForest(f)| - 1].TOpen?
  {
    ProperLast(f);
    var t := f[|f| - 1];
    assert TokTree(t) != [] && !TokTree(t)[|TokTree(t)| - 1].TOpen?;
  }

  /** Ending an element turns the tokens of its frame into the tokens of its tree. */
  lemma {:induction false} EndFrame(toks: seq<Token>, f: Frame)
    requires ProperForest(Body(f.done))
    ensures Ended(toks + TokFrame(f), NameOf(f.name)) == toks + TokTree(Elem(f.name, f.done))
  {
    var b, n := Body(f.done), NameOf(f.name);
    var start := TOpen(n, AttrOf(f.done));
    if b == [] {
      assert TokFrame(f) == [start];
      assert (toks + [start])[..|toks + [start]| - 1] == toks;
    } else {
      TokForestEnds(b);
      var all := toks + TokFrame(f);
      assert all[|all| - 1] == TokForest(b)[|TokForest(b)| - 1];
      assert all + [TClose(n)] == toks + ([start] + TokForest(b) + [TClose(n)]);
    }
  }

  lemma {:induction false} EndTopTok(z: Zipper)
    requires |z| > 1 && ProperFrame(z, |z| - 1) && ProperFrame(z, |z| - 2)
    ensures TokZip(CloseTop(z)) == Ended(TokZip(z), NameOf(z[|z| - 1].name))
    ensures ProperFrame(CloseTop(z), |z| - 2)
  {
    var f, init := z[|z| - 1], z[..|z| - 1];
    assert ProperFrame(init, |z| - 2);
    HangTok(init, Elem(f.name, f.done));
    EndFrame(TokZip(init), f);
  }

  lemma {:induction false} EndTopAgrees(z: Zipper, d: Doc)
    requires Agree(z, d) && |z| > 1
    ensures Agree(CloseTop(z), DocEndTop(d))
  {
    EndTopFrames(z);
    EndTopNames(z, d);
  }

  lemma {:induction false} EndTopFrames(z: Zipper)
    requires |z| > 1 && forall i :: 0 <= i < |z| ==> ProperFrame(z, i)
    ensures var z' := CloseTop(z);
      && |z'| == |z| - 1 && TokZip(z') == Ended(TokZip(z), NameOf(z[|z| - 1].name))
      && forall i :: 0 <= i < |z'| ==> ProperFrame(z', i)
  {
    assert ProperFrame(z, |z| - 1) && ProperFrame(z, |z| - 2);
    EndTopTok(z);
    CloseTopBelow(z);
    forall i | 0 <= i < |z| - 1 ensures ProperFrame(CloseTop(z), i) { CloseTopFrames(z, i); }
  }

  lemma {:induction false} EndTopNames(z: Zipper, d: Doc)
    requires |z| > 1 && |d.open| == |z| - 1
    requires forall i :: 0 <= i < |d.open| ==>
      z[i + 1].name == Some(d.open[i].0) && Expected(z[i + 1]) == Some(d.open[i].1)
    ensures var z', d' := CloseTop(z), DocEndTop(d);
      && |z'| == |z| - 1
      && forall i :: 0 <= i < |d'.open| ==>
           z'[i + 1].name == Some(d'.open[i].0) && Expected(z'[i + 1]) == Some(d'.open[i].1)
  {
    CloseTopBelow(z);
    var z', d' := CloseTop(z), DocEndTop(d);
    forall i | 0 <= i < |d'.open|
      ensures z'[i + 1].name == Some(d'.open[i].0) && Expected(z'[i + 1]) == Some(d'.open[i].1)
    {
      assert d'.open[i] == d.open[i] && z[i + 1].name == Some(d.open[i].0);
      assert z'[i + 1].name == z[i + 1].name && Expected(z'[i + 1]) == Expected(z[i + 1]);
    }
  }

  // The frames below the top stay proper.
  lemma {:induction false} CloseTopFrames(z: Zipper, i: nat)
    requires i + 1 < |z| == |CloseTop(z)| + 1 && ProperFrame(z, i) && ProperFrame(CloseTop(z), |z| - 2)
    ensures ProperFrame(CloseTop(z), i)
  {
    CloseTopBelow(z);
  }

  lemma {:induction false} CloseTopBelow(z: Zipper)
    requires |z| > 1
    ensures var z' := CloseTop(z);
      && |z'| == |z| - 1 && (forall i :: 0 <= i < |z| - 2 ==> z'[i] == z[i])
      && z'[|z| - 2].name == z[|z| - 2].name && Expected(z'[|z| - 2]) == Expected(z[|z| - 2])
  {
  }

  lemma {:induction false} OpenAgrees(z: Zipper, d: Doc, name: string, attribs: Option<string>, rule: Rule)
    requires Agree(z, d)
    ensures Agree(OpenStep(z, name, attribs, rule), DocOpen(d, name, attribs, rule))
  {
    var z' := OpenStep(z, name, attribs, rule);
    assert z'[..|z'| - 1] == z;
    assert Body(KeptAttribs(attribs, rule)) == [] && AttrOf(KeptAttribs(attribs, rule)) == Kept(attribs, rule);
    forall i | 0 <= i < |z'| ensures ProperFrame(z', i) {
      if i < |z| { assert ProperFrame(z, i); }
    }
  }

  lemma {:induction false} StepAgrees(z: Zipper, d: Doc, tok: Token, rule: Rule)
    requires Agree(z, d)
    ensures Agree(Step(z, tok, rule), DocStep(d, tok, rule))
  {
    match tok
    case TOpen(n, a) => OpenAgrees(z, d, n, a, rule);
    case TEmpty(n, a) =>
      OpenAgrees(z, d, n, a, rule);
      CloseAgrees(OpenStep(z, n, a, rule), DocOpen(d, n, a, rule), n);
    case TClose(n) => CloseAgrees(z, d, n);
    case TText(s) => HangAgrees(z, d, Text(s));
    case TOther =>
  }

  lemma {:induction false} CloseAgrees(z: Zipper, d: Doc, name: string)
    requires Agree(z, d)
    ensures Agree(CloseStep(z, name), DocClose(d, name))
  {
    if Closes(z, name) { EndTopAgrees(z, d); }
  }

  lemma {:induction false} RunAgrees(toks: seq<(Token, Rule)>)
    ensures Agree(Run(START, toks), DocRun(toks))
  {
    if toks == [] {
      assert ProperFrame(START, 0);
    } else {
      RunAgrees(toks[..|toks| - 1]);
      StepAgrees(Run(START, toks[..|toks| - 1]), DocRun(toks[..|toks| - 1]), toks[|toks| - 1].0, toks[|toks| - 1].1);
    }
  }

  lemma {:induction false} PlugAgrees(z: Zipper, d: Doc)
    requires Agree(z, d)
    ensures Plug(z).Elem? && ProperForest(Plug(z).kids) && TokForest(Plug(z).kids) == DocEnd(d)
    decreases |z|
  {
    if |z| == 1 {
      assert ProperFrame(z, 0);
    } else {
      EndTopAgrees(z, d);
      PlugAgrees(CloseTop(z), DocEndTop(d));
    }
  }

  /** For every token sequence, balanced or not: parsing it and writing the tree out gives the tokens
      kept, bad closes dropped, open elements closed, and `<a></a>` shown as `<a/>`. */
  lemma {:induction false} EmitGivesTokensBack(toks: seq<(Token, Rule)>)
    ensures Plug(Run(START, toks)).Elem?
    ensures ReadBack(WalkDocument(Plug(Run(START, toks)))) == DocEnd(DocRun(toks))
  {
    RunAgrees(toks);
    PlugAgrees(Run(START, toks), DocRun(toks));
    ReadDocument(Plug(Run(START, toks)));
  }

  // ----- documents that come back exactly

  // Names of the elements left open, or None when some close does not match.
  function OpenNames(toks: seq<Token>): Option<seq<string>> {
    if toks == [] then Some([]) else
      match OpenNames(toks[..|toks| - 1])
      case None => None
      case Some(names) =>
        match toks[|toks| - 1]
        case TOpen(n, _) => Some(names + [n])
        case TClose(n) => if names != [] && names[|names| - 1] == n then Some(names[..|names| - 1]) else None
        case _ => Some(names)
  }

  // Balanced, nothing the parser drops, and no open tag directly followed by its close.
  predicate Tidy(toks: seq<Token>) {
    && OpenNames(toks).Some?
    && (forall i :: 0 <= i < |toks| ==> !toks[i].TOther?)
    && (forall i :: 0 < i < |toks| && toks[i].TClose? ==> !toks[i - 1].TOpen?)
  }

  function Saving(toks: seq<Token>): seq<(Token, Rule)> {
    seq(|toks|, i requires 0 <= i < |toks| => (toks[i], Rule(SaveAtstr, None)))
  }

  ghost predicate RanTo(d: Doc, toks: seq<Token>, names: seq<string>) {
    d.toks == toks && |d.open| == |names| && forall i :: 0 <= i < |names| ==> d.open[i] == (names[i], names[i])
  }

  lemma {:induction false} TidyStep(d: Doc, init: seq<Token>, names: seq<string>, tok: Token)
    requires RanTo(d, init, names) && !tok.TOther?
    requires tok.TClose? ==> names != [] && names[|names| - 1] == tok.name
    requires tok.TClose? && init != [] ==> !init[|init| - 1].TOpen?
    ensures var d' := DocStep(d, tok, Rule(SaveAtstr, None));
            match tok
            case TOpen(n, _) => RanTo(d', init + [tok], names + [n])
            case TClose(_) => RanTo(d', init + [tok], names[..|names| - 1])
            case _ => RanTo(d', init + [tok], names)
  {
    match tok
    case TClose(n) => TidyClose(d, init, names, n);
    case TEmpty(n, a) =>
      var open := DocOpen(d, n, a, Rule(SaveAtstr, None));
      assert open.toks[..|open.toks| - 1] == init && open.open[..|open.open| - 1] == d.open;
    case TOpen(_, _) =>
    case TText(_) =>
    case TOther => assert false;
  }

  lemma {:induction false} TidyClose(d: Doc, init: seq<Token>, names: seq<string>, name: string)
    requires RanTo(d, init, names) && names != [] && names[|names| - 1] == name
    requires init != [] ==> !init[|init| - 1].TOpen?
    ensures RanTo(DocClose(d, name), init + [TClose(name)], names[..|names| - 1])
  {
  }

  lemma {:induction false} TidyInit(toks: seq<Token>)
    requires Tidy(toks) && toks != []
    ensures Tidy(toks[..|toks| - 1])
  {
  }

  lemma {:induction false} TidyRun(toks: seq<Token>)
    requires Tidy(toks)
    ensures RanTo(DocRun(Saving(toks)), toks, OpenNames(toks).value)
  {
    if toks != [] {
      var init, tok := toks[..|toks| - 1], toks[|toks| - 1];
      TidyInit(toks);
      TidyRun(init);
      assert Saving(toks)[..|toks| - 1] == Saving(init);
      assert toks == init + [tok];
      TidyStep(DocRun(Saving(init)), init, OpenNames(init).value, tok);
    }
  }

  /** A balanced, tidy document read with its attributes comes back token for token. */
  lemma {:induction false} TidyRoundTrip(toks: seq<Token>)
    requires Tidy(toks) && OpenNames(toks) == Some([])
    ensures Plug(Run(START, Saving(toks))).Elem?
    ensures ReadBack(WalkDocument(Plug(Run(START, Saving(toks))))) == toks
  {
    TidyRun(toks);
    EmitGivesTokensBack(Saving(toks));
  }

  // A document without what the parser drops, and with each open tag directly before its close made one empty tag.
  function CollapseMore(c: seq<Token>, tok: Token): seq<Token> {
    if tok.TOther? then c
    else if tok.TClose? && c != [] && c[|c| - 1].TOpen? then
      c[..|c| - 1] + [TEmpty(c[|c| - 1].name, c[|c| - 1].attribs)]
    else c + [tok]
  }

  function Collapsed(toks: seq<Token>): seq<Token> {
    if toks == [] then [] else CollapseMore(Collapsed(toks[..|toks| - 1]), toks[|toks| - 1])
  }

  lemma {:induction false} CollapseStep(d: Doc, c: seq<Token>, names: seq<string>, tok: Token)
    requires RanTo(d, c, names) && (tok.TClose? ==> names != [] && names[|names| - 1] == tok.name)
    ensures var d' := DocStep(d, tok, Rule(SaveAtstr, None));
            match tok
            case TOpen(n, _) => RanTo(d', CollapseMore(c, tok), names + [n])
            case TClose(_) => RanTo(d', CollapseMore(c, tok), names[..|names| - 1])
            case _ => RanTo(d', CollapseMore(c, tok), names)
  {
    if tok.TEmpty? {
      var open := c + [TOpen(tok.name, tok.attribs)];
      assert open[..|open| - 1] == c;
    }
  }

  lemma {:induction false} CollapseRun(toks: seq<Token>)
    requires OpenNames(toks).Some?
    ensures RanTo(DocRun(Saving(toks)), Collapsed(toks), OpenNames(toks).value)
  {
    if toks != [] {
      var init, tok := toks[..|toks| - 1], toks[|toks| - 1];
      CollapseRun(init);
      assert Saving(toks)[..|toks| - 1] == Saving(init);
      CollapseStep(DocRun(Saving(init)), Collapsed(init), OpenNames(init).value, tok);
    }
  }

  /** Any balanced document read with its attributes comes back, with `<a></a>` as `<a/>`. */
  lemma {:induction false} BalancedRoundTrip(toks: seq<Token>)
    requires OpenNames(toks) == Some([])
    ensures Plug(Run(START, Saving(toks))).Elem?
    ensures ReadBack(WalkDocument(Plug(Run(START, Saving(toks))))) == Collapsed(toks)
  {
    CollapseRun(toks);
    EmitGivesTokensBack(Saving(toks));
  }

  /** Parse then emit, on the store itself. */
  method ParseAndEmit(toks: seq<(Token, Rule)>) returns (out: seq<Event>)
    requires forall i :: 0 <= i < |toks| ==> PlainToken(toks[i].0)
    requires forall i :: 0 <= i < |toks| ==> |Run(START, toks[..i])| < XI_DEPTH_MAX
    ensures ReadBack(out) == DocEnd(DocRun(toks))
  {
    var xip := new XiInsert.Insert();
    var failures := xip.Parse(toks);
    out := Emit(xip.nodes, xip.texts, xip.shape);
    StoreIsPlug(xip.nodes, xip.texts, xip.shape, xip.stack[..], xip.depth);
    EmitGivesTokensBack(toks);
  }
}
