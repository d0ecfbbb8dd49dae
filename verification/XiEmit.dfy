/**
  Writing a tree out: the single stackless loop over the node store, and the recursive walk it equals.
 */
module XiEmit {
  import Seqs
  import opened XiTree

  datatype Event =
    | ERoot
    | EOpen(name: Option<string>)
    | EAtstr(data: string)
    | EEolAttrib
    | EEolEmpty
    | EText(data: string)
    | EClose(name: Option<string>)
    | EEof

  // ----- the recursive walk

  function WalkTree(t: Tree): seq<Event> {
    match t
    case Text(d) => [EText(d)]
    case Attr(d) => [EAtstr(d)]
    case Elem(name, kids) =>
      [EOpen(name)] + (if kids == [] then [EEolEmpty, EClose(None)] else WalkForest(kids, true) + [EClose(name)])
  }

  // `pending` says that the start tag of the enclosing element has not been ended yet.
  function WalkForest(f: seq<Tree>, pending: bool): seq<Event> {
    if f == [] then
      if pending then [EEolEmpty] else []
    else
      EndOfAttribs(pending, f[0]) + WalkTree(f[0]) + WalkForest(f[1..], f[0].Attr?)
  }

  function EndOfAttribs(pending: bool, t: Tree): seq<Event> {
    if pending && !t.Attr? then [EEolAttrib] else []
  }

  function WalkDocument(t: Tree): seq<Event>
    requires t.Elem?
  {
    [ERoot] + (if t.kids == [] then [] else WalkForest(t.kids, false) + [EClose(None)]) + [EEof]
  }

  // ----- what the loop still has to write

  /** Events left once the subtree at `a` has been written. */
  ghost function After(nodes: seq<Node>, texts: seq<string>, sh: Shape, a: Atom, pending: bool): seq<Event>
    requires Threaded(nodes, texts, sh) && ROOT_ATOM <= a < |nodes|
    decreases a
  {
    if a == ROOT_ATOM then [] else
      NextOf(nodes, texts, sh, a);
      var p := sh.par[a];
      WalkForest(Forest(nodes, texts, sh, p, |sh.kids[p]|)[sh.pos[a] + 1..], pending)
      + ([EClose(nodes[p].name)] + After(nodes, texts, sh, p, false))
  }

  /** Events left when the loop is about to look at `a`, having just come up from below it or not. */
  ghost function Remaining(nodes: seq<Node>, texts: seq<string>, sh: Shape, a: Atom, up: bool,
                           pending: bool): seq<Event>
    requires Threaded(nodes, texts, sh) && a < |nodes|
  {
    if a == NULL_ATOM then []
    else if up then
      (if pending then [EEolEmpty] else []) + ([EClose(nodes[a].name)] + After(nodes, texts, sh, a, false))
    else
      var t := TreeOf(nodes, texts, sh, a);
      EndOfAttribs(pending, t) + WalkTree(t) + After(nodes, texts, sh, a, t.Attr?)
  }

  ghost function Close(nodes: seq<Node>, texts: seq<string>, sh: Shape, p: Atom): seq<Event>
    requires Threaded(nodes, texts, sh) && ROOT_ATOM <= p < |nodes|
  {
    [EClose(nodes[p].name)] + After(nodes, texts, sh, p, false)
  }

  /** The children of `p` from number i on, then its close, is what is left before child i. */
  lemma {:induction false} BeforeKid(nodes: seq<Node>, texts: seq<string>, sh: Shape, p: Atom, i: nat, pending: bool)
    requires Threaded(nodes, texts, sh) && ROOT_ATOM <= p < |nodes| && i < |sh.kids[p]|
    ensures p < sh.kids[p][i] < |nodes|
    ensures Remaining(nodes, texts, sh, sh.kids[p][i], false, pending)
         == WalkForest(Forest(nodes, texts, sh, p, |sh.kids[p]|)[i..], pending) + Close(nodes, texts, sh, p)
  {
    var f, tail := Forest(nodes, texts, sh, p, |sh.kids[p]|), Close(nodes, texts, sh, p);
    ForestAt(nodes, texts, sh, p, |f|, i);
    var b, t := sh.kids[p][i], f[i];
    NextOf(nodes, texts, sh, b);
    var e, w, r := EndOfAttribs(pending, t), WalkTree(t), WalkForest(f[i + 1..], t.Attr?);
    WalkForestCons(f, i, pending);
    assert After(nodes, texts, sh, b, t.Attr?) == r + tail;
    Seqs.Assoc(e + w, r, tail);
  }

  /** Following xn_next from a finished subtree leads to what is left after it. */
  lemma {:induction false} FollowNext(nodes: seq<Node>, texts: seq<string>, sh: Shape, a: Atom, pending: bool)
    requires Threaded(nodes, texts, sh) && ROOT_ATOM < a < |nodes|
    ensures nodes[a].next < |nodes| && nodes[a].next != NULL_ATOM
    ensures After(nodes, texts, sh, a, pending)
         == Remaining(nodes, texts, sh, nodes[a].next, nodes[nodes[a].next].depth < nodes[a].depth, pending)
  {
    NextOf(nodes, texts, sh, a);
    var p, i := sh.par[a], sh.pos[a];
    var f := Forest(nodes, texts, sh, p, |sh.kids[p]|);
    assert After(nodes, texts, sh, a, pending) == WalkForest(f[i + 1..], pending) + Close(nodes, texts, sh, p);
    if i + 1 < |f| {
      BeforeKid(nodes, texts, sh, p, i + 1, pending);
    } else {
      assert f[i + 1..] == [];
    }
  }

  lemma {:induction false} WalkForestCons(f: seq<Tree>, i: nat, pending: bool)
    requires i < |f|
    ensures WalkForest(f[i..], pending)
         == EndOfAttribs(pending, f[i]) + WalkTree(f[i]) + WalkForest(f[i + 1..], f[i].Attr?)
  {
    assert f[i..][0] == f[i] && f[i..][1..] == f[i + 1..];
  }

  /** Entering a non-empty element leads to its children and then its close. */
  lemma {:induction false} FollowContents(nodes: seq<Node>, texts: seq<string>, sh: Shape, a: Atom, pending: bool)
    requires Threaded(nodes, texts, sh) && ROOT_ATOM <= a < |nodes|
    requires IsContainer(nodes[a]) && sh.kids[a] != []
    ensures a < nodes[a].contents < |nodes| && nodes[nodes[a].contents].depth == nodes[a].depth + 1
    ensures Remaining(nodes, texts, sh, nodes[a].contents, false, pending)
         == WalkForest(Forest(nodes, texts, sh, a, |sh.kids[a]|), pending)
            + Close(nodes, texts, sh, a)
  {
    assert ContentsOk(nodes, texts, sh, a) && KidsOk(nodes, sh, a) && KidOk(nodes, sh, a, 0);
    BeforeKid(nodes, texts, sh, a, 0, pending);
    var f := Forest(nodes, texts, sh, a, |sh.kids[a]|);
    assert f[0..] == f;
  }

  // What the loop writes, where it goes next and whether a start tag stays open, on first reaching a node.
  function DownEvents(n: Node, texts: seq<string>): seq<Event>
    requires n.typ != Root && (n.typ != Elt ==> n.contents < |texts|)
  {
    match n.typ
    case Unesc => [EText(texts[n.contents])]
    case Atstr => [EAtstr(texts[n.contents])]
    case Elt => [EOpen(n.name)] + (if n.contents == NULL_ATOM then [EEolEmpty, EClose(None)] else [])
  }

  function DownNext(n: Node): Atom {
    if n.typ == Elt && n.contents != NULL_ATOM then n.contents else n.next
  }

  predicate DownPending(n: Node) {
    n.typ == Atstr || (n.typ == Elt && n.contents != NULL_ATOM)
  }

  lemma {:induction false} RegroupElement(e: seq<Event>, o: seq<Event>, w: seq<Event>, c: seq<Event>, a: seq<Event>)
    ensures e + (o + (w + c)) + a == e + o + (w + (c + a))
  {
    Seqs.Assoc4(e, o, w, c);
    Seqs.Assoc4(e + o, w, c, a);
    Seqs.Assoc(e + o, w, c + a);
  }

  /** What is left before an element with children: its start, then what is left before its first child. */
  lemma {:induction false} EnterElement(nodes: seq<Node>, texts: seq<string>, sh: Shape, a: Atom, pending: bool)
    requires Threaded(nodes, texts, sh) && ROOT_ATOM < a < |nodes| && nodes[a].typ == Elt && sh.kids[a] != []
    ensures a < nodes[a].contents < |nodes| && nodes[nodes[a].contents].depth == nodes[a].depth + 1
    ensures Remaining(nodes, texts, sh, a, false, pending)
         == (if pending then [EEolAttrib] else []) + [EOpen(nodes[a].name)]
            + Remaining(nodes, texts, sh, nodes[a].contents, false, true)
  {
    FollowContents(nodes, texts, sh, a, true);
    var t, name := TreeOf(nodes, texts, sh, a), nodes[a].name;
    var w, rest := WalkForest(t.kids, true), After(nodes, texts, sh, a, false);
    assert WalkTree(t) == [EOpen(name)] + (w + [EClose(name)]);
    RegroupElement(EndOfAttribs(pending, t), [EOpen(name)], w, [EClose(name)], rest);
  }

  /** What is left before a node with nothing below it: its own events, then what xn_next leads to. */
  lemma {:induction false} VisitLeaf(nodes: seq<Node>, texts: seq<string>, sh: Shape, a: Atom, pending: bool)
    requires Threaded(nodes, texts, sh) && ROOT_ATOM < a < |nodes| && sh.kids[a] == []
    ensures var n := nodes[a]; n.typ != Root && (n.typ != Elt ==> n.contents < |texts|)
    ensures nodes[a].next < |nodes| && nodes[a].next != NULL_ATOM
    ensures nodes[a].typ == Elt ==> nodes[a].contents == NULL_ATOM
    ensures var n := nodes[a];
            Remaining(nodes, texts, sh, a, false, pending)
            == (if pending && n.typ != Atstr then [EEolAttrib] else []) + DownEvents(n, texts)
               + Remaining(nodes, texts, sh, n.next, nodes[n.next].depth < n.depth, DownPending(n))
  {
    NextOf(nodes, texts, sh, a);
    assert ContentsOk(nodes, texts, sh, a);
    var n, t := nodes[a], TreeOf(nodes, texts, sh, a);
    FollowNext(nodes, texts, sh, a, t.Attr?);
    assert WalkTree(t) == DownEvents(n, texts);
  }

  lemma {:induction false} StepDown(nodes: seq<Node>, texts: seq<string>, sh: Shape, a: Atom, pending: bool)
    requires Threaded(nodes, texts, sh) && ROOT_ATOM < a < |nodes|
    ensures var n := nodes[a]; n.typ != Root && (n.typ != Elt ==> n.contents < |texts|)
    ensures var n := nodes[a]; var b := DownNext(n);
            && b != NULL_ATOM && b < |nodes|
            && (nodes[b].depth < n.depth ==> IsContainer(nodes[b]))
            && (nodes[b].depth >= n.depth ==> b != ROOT_ATOM)
            && Remaining(nodes, texts, sh, a, false, pending)
               == (if pending && n.typ != Atstr then [EEolAttrib] else []) + DownEvents(n, texts)
                  + Remaining(nodes, texts, sh, b, nodes[b].depth < n.depth, DownPending(n))
  {
    NextOf(nodes, texts, sh, a);
    assert ContentsOk(nodes, texts, sh, a);
    if sh.kids[a] != [] {
      assert KidsOk(nodes, sh, a) && KidOk(nodes, sh, a, 0);
      EnterElement(nodes, texts, sh, a, pending);
    } else {
      VisitLeaf(nodes, texts, sh, a, pending);
    }
  }

  lemma {:induction false} StepUp(nodes: seq<Node>, texts: seq<string>, sh: Shape, a: Atom, pending: bool)
    requires Threaded(nodes, texts, sh) && ROOT_ATOM <= a < |nodes|
    ensures nodes[a].next < |nodes|
    ensures nodes[a].next == NULL_ATOM <==> a == ROOT_ATOM
    ensures var b := nodes[a].next;
            && (b != NULL_ATOM && nodes[b].depth < nodes[a].depth ==> IsContainer(nodes[b]))
            && (b != NULL_ATOM && nodes[b].depth >= nodes[a].depth ==> b != ROOT_ATOM)
            && Remaining(nodes, texts, sh, a, true, pending)
               == (if pending then [EEolEmpty] else []) + [EClose(nodes[a].name)]
                  + Remaining(nodes, texts, sh, b, nodes[b].depth < nodes[a].depth, false)
  {
    if a != ROOT_ATOM {
      NextOf(nodes, texts, sh, a);
      FollowNext(nodes, texts, sh, a, false);
    }
  }

  lemma {:induction false} StepRoot(nodes: seq<Node>, texts: seq<string>, sh: Shape)
    requires Threaded(nodes, texts, sh)
    ensures TreeOf(nodes, texts, sh, ROOT_ATOM).Elem?
    ensures var b := nodes[ROOT_ATOM].contents;
            && b < |nodes| && b != ROOT_ATOM && (b != NULL_ATOM ==> nodes[b].depth == 1 && nodes[b].typ != Root)
            && WalkDocument(TreeOf(nodes, texts, sh, ROOT_ATOM))
               == [ERoot] + Remaining(nodes, texts, sh, b, false, false) + [EEof]
  {
    assert ContentsOk(nodes, texts, sh, ROOT_ATOM);
    if sh.kids[ROOT_ATOM] != [] {
      FollowContents(nodes, texts, sh, ROOT_ATOM, false);
      NextOf(nodes, texts, sh, nodes[ROOT_ATOM].contents);
    }
  }

  lemma {:induction false} Emitted(total: seq<Event>, out: seq<Event>, ev: seq<Event>, rest: seq<Event>)
    requires total == out + (ev + rest) + [EEof]
    ensures total == (out + ev) + rest + [EEof]
  {
  }

  /** The loop is about to look at `node`, with `rest` still to be written. */
  ghost predicate AtNode(nodes: seq<Node>, texts: seq<string>, sh: Shape,
                         node: Atom, lastDepth: nat, needEol: bool, rest: seq<Event>)
  {
    && Threaded(nodes, texts, sh) && node < |nodes|
    && rest == Remaining(nodes, texts, sh, node, lastDepth > nodes[node].depth, needEol)
    && (node > ROOT_ATOM ==> nodes[node].typ != Root)
    && (node == ROOT_ATOM ==> lastDepth > nodes[node].depth)
    && (node != NULL_ATOM && lastDepth > nodes[node].depth ==> IsContainer(nodes[node]))
  }

  lemma {:induction false} AtNodeUp(nodes: seq<Node>, texts: seq<string>, sh: Shape,
                 node: Atom, lastDepth: nat, needEol: bool, rest: seq<Event>) returns (rest': seq<Event>)
    requires AtNode(nodes, texts, sh, node, lastDepth, needEol, rest) && node != NULL_ATOM
    requires lastDepth > nodes[node].depth
    ensures nodes[node].typ != Atstr
    ensures rest == (if needEol then [EEolEmpty] else []) + [EClose(nodes[node].name)] + rest'
    ensures AtNode(nodes, texts, sh, nodes[node].next, nodes[node].depth, false, rest')
  {
    StepUp(nodes, texts, sh, node, needEol);
    var b := nodes[node].next;
    if b > ROOT_ATOM {
      NextOf(nodes, texts, sh, b);
    }
    rest' := Remaining(nodes, texts, sh, b, nodes[b].depth < nodes[node].depth, false);
  }

  lemma {:induction false} AtNodeDown(nodes: seq<Node>, texts: seq<string>, sh: Shape,
                   node: Atom, lastDepth: nat, needEol: bool, rest: seq<Event>) returns (rest': seq<Event>)
    requires AtNode(nodes, texts, sh, node, lastDepth, needEol, rest) && node != NULL_ATOM
    requires lastDepth <= nodes[node].depth
    ensures nodes[node].typ != Root && (nodes[node].typ != Elt ==> nodes[node].contents < |texts|)
    ensures rest ==
      (if needEol && nodes[node].typ != Atstr then [EEolAttrib] else []) + DownEvents(nodes[node], texts) + rest'
    ensures AtNode(nodes, texts, sh, DownNext(nodes[node]), nodes[node].depth, DownPending(nodes[node]), rest')
  {
    StepDown(nodes, texts, sh, node, needEol);
    NextOf(nodes, texts, sh, node);
    var b := DownNext(nodes[node]);
    if b > ROOT_ATOM {
      NextOf(nodes, texts, sh, b);
    }
    rest' := Remaining(nodes, texts, sh, b, nodes[b].depth < nodes[node].depth, DownPending(nodes[node]));
  }

  /** xi_parse_emit: one loop, no stack.  It ends on every well-threaded store and writes the recursive walk. */
  method Emit(nodes: seq<Node>, texts: seq<string>, ghost sh: Shape) returns (out: seq<Event>)
    requires Threaded(nodes, texts, sh)
    ensures TreeOf(nodes, texts, sh, ROOT_ATOM).Elem?
    ensures out == WalkDocument(TreeOf(nodes, texts, sh, ROOT_ATOM))
  {
    StepRoot(nodes, texts, sh);
    ghost var total := WalkDocument(TreeOf(nodes, texts, sh, ROOT_ATOM));
    out := [];
    var node: Atom, lastDepth: nat, needEol := ROOT_ATOM, 0, false;
    ghost var rest := total[..|total| - 1];
    while node != NULL_ATOM
      invariant total == out + rest + [EEof]
      invariant if out == [] then node == ROOT_ATOM && lastDepth == 0 && !needEol
                else AtNode(nodes, texts, sh, node, lastDepth, needEol, rest)
      decreases |rest|
    {
      var n := nodes[node];
      var up := lastDepth > 0 && lastDepth > n.depth;
      var calls := if !needEol || n.typ == Atstr then [] else if up then [EEolEmpty] else [EEolAttrib];
      ghost var before := rest;
      if up {
        rest := AtNodeUp(nodes, texts, sh, node, lastDepth, needEol, rest);
        calls := calls + [EClose(n.name)];
        needEol := false;
        node := n.next;
      } else if n.typ == Root {
        rest := Remaining(nodes, texts, sh, n.contents, false, false);
        calls := calls + [ERoot];
        assert out == [] && before == total[..|total| - 1] == [ERoot] + rest;
        needEol := false;
        node := if n.contents != NULL_ATOM then n.contents else n.next;
      } else {
        rest := AtNodeDown(nodes, texts, sh, node, lastDepth, needEol, rest);
        calls := calls + DownEvents(n, texts);
        needEol := DownPending(n);
        node := DownNext(n);
      }
      assert before == calls + rest && calls != [];
      Emitted(total, out, calls, rest);
      out := out + calls;
      lastDepth := n.depth;
    }
    out := out + [EEof];
  }
}
