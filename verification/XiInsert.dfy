/**
  The insertion point: the node store and the stack of open nodes, updated in place token by token.
 */
module XiInsert {
  import opened XiTree
  import opened XiZipper

  // xi_istack_t: the open node, the last child hung below it, and the tag it was read with if renamed.
  datatype IStack = IStack(atom: Atom, last: Atom, orig: Option<string>)

  const EMPTY_SLOT := IStack(NULL_ATOM, NULL_ATOM, None)

  ghost predicate SlotOk(nodes: seq<Node>, sh: Shape, st: seq<IStack>, d: nat)
    requires Sized(nodes, sh) && d < |st|
  {
    && ROOT_ATOM <= st[d].atom < |nodes|
    && IsContainer(nodes[st[d].atom])
    && nodes[st[d].atom].depth == d
    && (var kids := sh.kids[st[d].atom]; kids != [] ==> st[d].last == kids[|kids| - 1])
  }

  ghost predicate LinkOk(nodes: seq<Node>, sh: Shape, st: seq<IStack>, d: nat)
    requires Sized(nodes, sh) && d + 1 < |st| && SlotOk(nodes, sh, st, d)
  {
    var kids := sh.kids[st[d].atom];
    kids != [] && kids[|kids| - 1] == st[d + 1].atom
  }

  /** The stack is the rightmost path from the root to the open node; slots above it are clear. */
  ghost predicate StackOk(nodes: seq<Node>, sh: Shape, st: seq<IStack>, depth: nat)
    requires Sized(nodes, sh)
  {
    && depth < |st|
    && st[0].atom == ROOT_ATOM && st[0].orig == None
    && (forall d :: 0 <= d <= depth ==> SlotOk(nodes, sh, st, d))
    && (forall d :: 0 <= d < depth ==> LinkOk(nodes, sh, st, d))
    && (forall d :: depth < d < |st| ==> st[d] == EMPTY_SLOT)
  }

  ghost predicate StateOk(nodes: seq<Node>, texts: seq<string>, sh: Shape, st: seq<IStack>, depth: nat) {
    Threaded(nodes, texts, sh) && StackOk(nodes, sh, st, depth)
  }

  // Children of the open node at level d that are finished: all of them at the top, all but the last below.
  ghost function Finished(sh: Shape, st: seq<IStack>, depth: nat, d: nat): int
    requires d <= depth < |st| && st[d].atom < |sh.kids|
  {
    |sh.kids[st[d].atom]| - (if d < depth then 1 else 0)
  }

  ghost function FrameOf(nodes: seq<Node>, texts: seq<string>, sh: Shape, st: seq<IStack>, depth: nat, d: nat): Frame
    requires StateOk(nodes, texts, sh, st, depth) && d <= depth
  {
    assert SlotOk(nodes, sh, st, d) && (d < depth ==> LinkOk(nodes, sh, st, d));
    Frame(nodes[st[d].atom].name, st[d].orig,
          Forest(nodes, texts, sh, st[d].atom, Finished(sh, st, depth, d)))
  }

  /** The zipper the state stands for. */
  ghost function Zip(nodes: seq<Node>, texts: seq<string>, sh: Shape, st: seq<IStack>, depth: nat): (z: Zipper)
    requires StateOk(nodes, texts, sh, st, depth)
    ensures |z| == depth + 1
  {
    seq(depth + 1, d requires 0 <= d <= depth => FrameOf(nodes, texts, sh, st, depth, d))
  }

  ghost function Path(st: seq<IStack>, depth: nat): set<Atom>
    requires depth < |st|
  {
    set d | 0 <= d <= depth :: st[d].atom
  }

  lemma {:induction false} PathUpClosed(nodes: seq<Node>, texts: seq<string>, sh: Shape, st: seq<IStack>, depth: nat)
    requires StateOk(nodes, texts, sh, st, depth)
    ensures UpClosed(nodes, sh, Path(st, depth))
  {
    forall a | a in Path(st, depth) && ROOT_ATOM < a < |nodes| ensures sh.par[a] in Path(st, depth) {
      var d :| 0 <= d <= depth && st[d].atom == a;
      assert SlotOk(nodes, sh, st, d - 1) && LinkOk(nodes, sh, st, d - 1);
      var p := st[d - 1].atom;
      assert KidsOk(nodes, sh, p) && KidOk(nodes, sh, p, |sh.kids[p]| - 1);
    }
  }

  /** A finished child of an open node is not itself open. */
  lemma {:induction false} FinishedOffPath(nodes: seq<Node>, texts: seq<string>, sh: Shape, st: seq<IStack>,
                                           depth: nat, d: nat, i: nat)
    requires StateOk(nodes, texts, sh, st, depth) && d <= depth
    requires SlotOk(nodes, sh, st, d) && i < Finished(sh, st, depth, d)
    ensures sh.kids[st[d].atom][i] !in Path(st, depth)
  {
    var p := st[d].atom;
    var k := sh.kids[p][i];
    assert KidsOk(nodes, sh, p) && KidOk(nodes, sh, p, i) && KidOk(nodes, sh, p, |sh.kids[p]| - 1);
    assert d < depth ==> LinkOk(nodes, sh, st, d);
    forall e | 0 <= e <= depth ensures st[e].atom != k {
      assert SlotOk(nodes, sh, st, e);
    }
  }

  // ----- hanging one node below the open node

  ghost function Linked(nodes: seq<Node>, slot: IStack, node: Node): seq<Node>
    requires slot.atom < |nodes| && (nodes[slot.atom].contents != NULL_ATOM ==> slot.last < |nodes|)
  {
    (if nodes[slot.atom].contents == NULL_ATOM
     then nodes[slot.atom := nodes[slot.atom].(contents := |nodes|)]
     else nodes[slot.last := nodes[slot.last].(next := |nodes|)]) + [node]
  }

  ghost function GrownShape(sh: Shape, t: Atom): Shape
    requires t < |sh.kids|
  {
    Shape(sh.kids[t := sh.kids[t] + [|sh.kids|]] + [[]], sh.par + [t], sh.pos + [|sh.kids[t]|])
  }

  ghost predicate FreshNode(node: Node, texts: seq<string>, t: Atom, depth: nat) {
    && node.typ != Root && node.next == t && node.depth == depth + 1
    && (if IsContainer(node) then node.contents == NULL_ATOM else node.contents < |texts|)
  }

  lemma {:induction false} LinkedThreaded(nodes: seq<Node>, texts: seq<string>, sh: Shape, st: seq<IStack>,
                                          depth: nat, node: Node)
    requires StateOk(nodes, texts, sh, st, depth)
    requires FreshNode(node, texts, st[depth].atom, depth)
    ensures SlotOk(nodes, sh, st, depth)
    ensures nodes[st[depth].atom].contents != NULL_ATOM ==> st[depth].last < |nodes|
    ensures Threaded(Linked(nodes, st[depth], node), texts, GrownShape(sh, st[depth].atom))
  {
    assert SlotOk(nodes, sh, st, depth);
    var t, n := st[depth].atom, |nodes|;
    var kids := sh.kids[t];
    assert ContentsOk(nodes, texts, sh, t) && KidsOk(nodes, sh, t);
    if kids != [] {
      assert KidOk(nodes, sh, t, |kids| - 1);
      assert KidOk(nodes, sh, t, 0);
    }
    var nodes', sh' := Linked(nodes, st[depth], node), GrownShape(sh, t);
    assert Sized(nodes', sh');
    assert nodes'[t].typ == nodes[t].typ && nodes'[t].depth == depth;
    forall a | ROOT_ATOM <= a < |nodes'| ensures KidsOk(nodes', sh', a) {
      forall i | 0 <= i < |sh'.kids[a]| ensures KidOk(nodes', sh', a, i) {
        if a < n && i < |sh.kids[a]| {
          assert KidsOk(nodes, sh, a) && KidOk(nodes, sh, a, i);
        }
      }
    }
    forall a | ROOT_ATOM <= a < |nodes'| ensures ContentsOk(nodes', texts, sh', a) {
      if a < n {
        assert ContentsOk(nodes, texts, sh, a);
      }
    }
    forall a | ROOT_ATOM < a < |nodes'| ensures UpOk(nodes', sh', a) {
      if a < n {
        assert UpOk(nodes, sh, a);
      }
    }
  }

  lemma {:induction false} LinkedStack(nodes: seq<Node>, texts: seq<string>, sh: Shape, st: seq<IStack>,
                                       depth: nat, node: Node)
    requires StateOk(nodes, texts, sh, st, depth)
    requires FreshNode(node, texts, st[depth].atom, depth)
    ensures SlotOk(nodes, sh, st, depth)
    ensures nodes[st[depth].atom].contents != NULL_ATOM ==> st[depth].last < |nodes|
    ensures StateOk(Linked(nodes, st[depth], node), texts, GrownShape(sh, st[depth].atom),
                    st[depth := st[depth].(last := |nodes|)], depth)
  {
    LinkedThreaded(nodes, texts, sh, st, depth, node);
    var t := st[depth].atom;
    var nodes', sh' := Linked(nodes, st[depth], node), GrownShape(sh, t);
    var st' := st[depth := st[depth].(last := |nodes|)];
    forall d | 0 <= d <= depth ensures SlotOk(nodes', sh', st', d) {
      assert SlotOk(nodes, sh, st, d);
    }
    forall d | 0 <= d < depth ensures LinkOk(nodes', sh', st', d) {
      assert SlotOk(nodes, sh, st, d) && LinkOk(nodes, sh, st, d);
    }
  }

  ghost function LeafTree(node: Node, texts: seq<string>): Tree
    requires !IsContainer(node) ==> node.contents < |texts|
  {
    match node.typ
    case Unesc => Text(texts[node.contents])
    case Atstr => Attr(texts[node.contents])
    case _ => Elem(node.name, [])
  }

  // One frame of the zipper, before and after a node was hung.
  lemma {:induction false} LinkedFrame(nodes: seq<Node>, texts: seq<string>, sh: Shape, st: seq<IStack>, depth: nat,
                                       node: Node, d: nat)
    requires StateOk(nodes, texts, sh, st, depth) && d <= depth
    requires FreshNode(node, texts, st[depth].atom, depth)
    requires SlotOk(nodes, sh, st, depth)
    requires nodes[st[depth].atom].contents != NULL_ATOM ==> st[depth].last < |nodes|
    requires StateOk(Linked(nodes, st[depth], node), texts, GrownShape(sh, st[depth].atom),
                     st[depth := st[depth].(last := |nodes|)], depth)
    requires UpClosed(nodes, sh, Path(st, depth))
    ensures var f := FrameOf(nodes, texts, sh, st, depth, d);
            FrameOf(Linked(nodes, st[depth], node), texts, GrownShape(sh, st[depth].atom),
                    st[depth := st[depth].(last := |nodes|)], depth, d)
            == if d < depth then f else f.(done := f.done + [LeafTree(node, texts)])
  {
    var t, n := st[depth].atom, |nodes|;
    var nodes', sh' := Linked(nodes, st[depth], node), GrownShape(sh, t);
    var st' := st[depth := st[depth].(last := n)];
    assert SlotOk(nodes, sh, st, d) && SlotOk(nodes', sh', st', d);
    assert d < depth ==> LinkOk(nodes, sh, st, d) && LinkOk(nodes', sh', st', d);
    var m := Finished(sh, st, depth, d);
    forall i | 0 <= i < m ensures sh.kids[st[d].atom][i] !in Path(st, depth) {
      FinishedOffPath(nodes, texts, sh, st, depth, d, i);
    }
    ForestUnchanged(nodes, texts, sh, nodes', texts, sh', t, Path(st, depth), st[d].atom, m);
    if d == depth {
      assert Finished(sh', st', depth, d) == m + 1 && sh'.kids[t][m] == n;
      assert TreeOf(nodes', texts, sh', n) == LeafTree(node, texts);
    }
  }

  /** Hanging a node appends one tree to the innermost open element and changes nothing else. */
  lemma {:induction false} LinkedZip(nodes: seq<Node>, texts: seq<string>, sh: Shape, st: seq<IStack>,
                                     depth: nat, node: Node)
    requires StateOk(nodes, texts, sh, st, depth)
    requires FreshNode(node, texts, st[depth].atom, depth)
    requires SlotOk(nodes, sh, st, depth)
    requires nodes[st[depth].atom].contents != NULL_ATOM ==> st[depth].last < |nodes|
    requires StateOk(Linked(nodes, st[depth], node), texts, GrownShape(sh, st[depth].atom),
                     st[depth := st[depth].(last := |nodes|)], depth)
    ensures Zip(Linked(nodes, st[depth], node), texts, GrownShape(sh, st[depth].atom),
                st[depth := st[depth].(last := |nodes|)], depth)
         == Hang(Zip(nodes, texts, sh, st, depth), LeafTree(node, texts))
  {
    var nodes', sh' := Linked(nodes, st[depth], node), GrownShape(sh, st[depth].atom);
    var st' := st[depth := st[depth].(last := |nodes|)];
    var z, z' := Zip(nodes, texts, sh, st, depth), Zip(nodes', texts, sh', st', depth);
    PathUpClosed(nodes, texts, sh, st, depth);
    forall d | 0 <= d <= depth
      ensures z'[d] == if d < depth then z[d] else z[d].(done := z[d].done + [LeafTree(node, texts)])
    {
      LinkedFrame(nodes, texts, sh, st, depth, node, d);
    }
    assert z' == Hang(z, LeafTree(node, texts));
  }

  /** Adding to the text pool changes no tree. */
  lemma {:induction false} MoreText(nodes: seq<Node>, texts: seq<string>, sh: Shape, st: seq<IStack>,
                                    depth: nat, texts': seq<string>)
    requires StateOk(nodes, texts, sh, st, depth) && texts <= texts'
    ensures StateOk(nodes, texts', sh, st, depth)
    ensures Zip(nodes, texts', sh, st, depth) == Zip(nodes, texts, sh, st, depth)
  {
    forall a | ROOT_ATOM <= a < |nodes| ensures ContentsOk(nodes, texts', sh, a) {
      assert ContentsOk(nodes, texts, sh, a);
    }
    var z, z' := Zip(nodes, texts, sh, st, depth), Zip(nodes, texts', sh, st, depth);
    forall d | 0 <= d <= depth ensures z'[d] == z[d] {
      assert SlotOk(nodes, sh, st, d);
      var m := Finished(sh, st, depth, d);
      forall i | 0 <= i < |sh.kids[st[d].atom]| ensures sh.kids[st[d].atom][i] !in {NULL_ATOM} {
        assert KidsOk(nodes, sh, st[d].atom) && KidOk(nodes, sh, st[d].atom, i);
      }
      assert d < depth ==> LinkOk(nodes, sh, st, d);
      ForestUnchanged(nodes, texts, sh, nodes, texts', sh, NULL_ATOM, {NULL_ATOM}, st[d].atom, m);
    }
  }

  // ----- opening and closing

  lemma {:induction false} PushOk(nodes: seq<Node>, texts: seq<string>, sh: Shape, st: seq<IStack>, depth: nat,
                                  atom: Atom)
    requires StateOk(nodes, texts, sh, st, depth) && depth + 1 < |st|
    requires SlotOk(nodes, sh, st, depth)
    requires var kids := sh.kids[st[depth].atom]; kids != [] && kids[|kids| - 1] == atom
    requires ROOT_ATOM <= atom < |nodes| && nodes[atom].typ == Elt && sh.kids[atom] == []
    ensures StateOk(nodes, texts, sh, st[depth + 1 := IStack(atom, NULL_ATOM, None)], depth + 1)
  {
    var t := st[depth].atom;
    var st' := st[depth + 1 := IStack(atom, NULL_ATOM, None)];
    assert KidsOk(nodes, sh, t) && KidOk(nodes, sh, t, |sh.kids[t]| - 1);
    forall d | 0 <= d <= depth + 1 ensures SlotOk(nodes, sh, st', d) {
      if d <= depth { assert SlotOk(nodes, sh, st, d); }
    }
    forall d | 0 <= d < depth + 1 ensures LinkOk(nodes, sh, st', d) {
      assert SlotOk(nodes, sh, st, d) && SlotOk(nodes, sh, st', d);
      if d < depth { assert LinkOk(nodes, sh, st, d); }
    }
  }

  lemma {:induction false} PushZip(nodes: seq<Node>, texts: seq<string>, sh: Shape, st: seq<IStack>, depth: nat,
                                   atom: Atom)
    requires StateOk(nodes, texts, sh, st, depth) && depth + 1 < |st|
    requires SlotOk(nodes, sh, st, depth)
    requires var kids := sh.kids[st[depth].atom]; kids != [] && kids[|kids| - 1] == atom
    requires ROOT_ATOM <= atom < |nodes| && nodes[atom].typ == Elt && sh.kids[atom] == []
    requires StateOk(nodes, texts, sh, st[depth + 1 := IStack(atom, NULL_ATOM, None)], depth + 1)
    ensures var z := Zip(nodes, texts, sh, st, depth);
            z[depth].done != [] &&
            Zip(nodes, texts, sh, st[depth + 1 := IStack(atom, NULL_ATOM, None)], depth + 1)
            == z[depth := z[depth].(done := z[depth].done[..|z[depth].done| - 1])] + [Frame(nodes[atom].name, None, [])]
  {
    var t := st[depth].atom;
    var st' := st[depth + 1 := IStack(atom, NULL_ATOM, None)];
    var z, z' := Zip(nodes, texts, sh, st, depth), Zip(nodes, texts, sh, st', depth + 1);
    assert z[depth].done == Forest(nodes, texts, sh, t, |sh.kids[t]|);
    forall d | 0 <= d < depth ensures z'[d] == z[d] {
    }
    assert z'[depth].done == z[depth].done[..|z[depth].done| - 1];
  }

  lemma {:induction false} PopOk(nodes: seq<Node>, texts: seq<string>, sh: Shape, st: seq<IStack>, depth: nat)
    requires StateOk(nodes, texts, sh, st, depth) && depth > 0
    ensures StateOk(nodes, texts, sh, st[depth := EMPTY_SLOT], depth - 1)
    ensures Zip(nodes, texts, sh, st[depth := EMPTY_SLOT], depth - 1) == CloseTop(Zip(nodes, texts, sh, st, depth))
  {
    var st' := st[depth := EMPTY_SLOT];
    forall d | 0 <= d <= depth - 1 ensures SlotOk(nodes, sh, st', d) {
      assert SlotOk(nodes, sh, st, d);
    }
    forall d | 0 <= d < depth - 1 ensures LinkOk(nodes, sh, st', d) {
      assert SlotOk(nodes, sh, st, d) && LinkOk(nodes, sh, st, d);
    }
    assert SlotOk(nodes, sh, st, depth) && SlotOk(nodes, sh, st, depth - 1) && LinkOk(nodes, sh, st, depth - 1);
    var t, k := st[depth - 1].atom, st[depth].atom;
    assert KidsOk(nodes, sh, t) && KidOk(nodes, sh, t, |sh.kids[t]| - 1);
    var z, z' := Zip(nodes, texts, sh, st, depth), Zip(nodes, texts, sh, st', depth - 1);
    assert z'[depth - 1].done == z[depth - 1].done + [TreeOf(nodes, texts, sh, k)];
    forall d | 0 <= d < depth - 1 ensures z'[d] == z[d] {
    }
    assert z' == CloseTop(z);
  }

  class Insert {
    var nodes: seq<Node>
    var texts: seq<string>
    const stack: array<IStack>
    var depth: nat
    var maxdepth: nat
    ghost var shape: Shape

    ghost predicate Valid()
      reads this, stack
    {
      stack.Length == XI_DEPTH_MAX && StateOk(nodes, texts, shape, stack[..], depth)
    }

    ghost function Abs(): (z: Zipper)
      requires Valid()
      reads this, stack
      ensures |z| == depth + 1
    {
      Zip(nodes, texts, shape, stack[..], depth)
    }

    // xi_parse_open: a store holding only the root node, which is also the open one.
    constructor ()
      ensures Valid() && Abs() == START
      ensures fresh(stack)
    {
      var root := Node(Root, None, 0, NULL_ATOM, NULL_ATOM, false);
      nodes := [root, root];
      texts := [""];
      shape := Shape([[], []], [NULL_ATOM, NULL_ATOM], [0, 0]);
      depth := 0;
      maxdepth := 0;
      stack := new IStack[XI_DEPTH_MAX](i => if i == 0 then IStack(ROOT_ATOM, NULL_ATOM, None) else EMPTY_SLOT);
      new;
      assert SlotOk(nodes, shape, stack[..], 0);
      assert Abs() == START;
    }

    method Push(atom: Atom)
      requires Valid() && depth + 1 < XI_DEPTH_MAX
      requires SlotOk(nodes, shape, stack[..], depth)
      requires var kids := shape.kids[stack[depth].atom]; kids != [] && kids[|kids| - 1] == atom
      requires ROOT_ATOM <= atom < |nodes| && nodes[atom].typ == Elt && shape.kids[atom] == []
      modifies `depth, stack
      ensures Valid() && depth == old(depth) + 1 && stack[depth] == IStack(atom, NULL_ATOM, None)
      ensures |old(Abs())[old(depth)].done| > 0
      ensures Abs() == old(Abs()[depth := Abs()[depth].(done := Abs()[depth].done[..|Abs()[depth].done| - 1])])
                       + [Frame(nodes[atom].name, None, [])]
    {
      PushOk(nodes, texts, shape, stack[..], depth, atom);
      PushZip(nodes, texts, shape, stack[..], depth, atom);
      depth := depth + 1;
      stack[depth] := stack[depth].(atom := atom);
      assert stack[..] == old(stack[..])[depth := IStack(atom, NULL_ATOM, None)];
    }

    // xi_insert_close clears the slot and xi_insert_pop steps down.
    method Pop()
      requires Valid() && depth > 0
      modifies `depth, stack
      ensures Valid() && Abs() == CloseTop(old(Abs()))
    {
      PopOk(nodes, texts, shape, stack[..], depth);
      stack[depth] := EMPTY_SLOT;
      assert stack[..] == old(stack[..])[depth := EMPTY_SLOT];
      depth := depth - 1;
    }

    method InsertNode(typ: NodeType, name: Option<string>, contents: Atom) returns (atom: Atom)
      requires Valid() && typ != Root
      requires if typ == Elt then contents == NULL_ATOM else contents < |texts|
      modifies `nodes, `shape, `maxdepth, stack
      ensures Valid() && atom == old(|nodes|) && |nodes| == atom + 1
      ensures nodes[atom] == Node(typ, name, depth + 1, stack[depth].atom, contents, false)
      ensures SlotOk(nodes, shape, stack[..], depth)
      ensures stack[depth].atom == old(stack[depth].atom) && stack[depth].orig == old(stack[depth].orig)
      ensures var kids := shape.kids[stack[depth].atom]; kids != [] && kids[|kids| - 1] == atom
      ensures shape.kids[atom] == []
      ensures Abs() == Hang(old(Abs()), LeafTree(nodes[atom], texts))
      ensures maxdepth == if depth + 1 > old(maxdepth) then depth + 1 else old(maxdepth)
    {
      atom := |nodes|;
      var xsp := stack[depth];
      ghost var node := Node(typ, name, depth + 1, xsp.atom, contents, false);
      LinkedStack(nodes, texts, shape, stack[..], depth, node);
      LinkedZip(nodes, texts, shape, stack[..], depth, node);
      var newNode := Node(typ, name, depth + 1, xsp.atom, contents, false);
      if nodes[xsp.atom].contents == NULL_ATOM {
        nodes := nodes[xsp.atom := nodes[xsp.atom].(contents := atom)] + [newNode];
      } else {
        nodes := nodes[xsp.last := nodes[xsp.last].(next := atom)] + [newNode];
      }
      shape := GrownShape(shape, xsp.atom);
      stack[depth] := xsp.(last := atom);
      assert stack[..] == old(stack[..])[depth := xsp.(last := atom)];
      if depth + 1 > maxdepth {
        maxdepth := depth + 1;
      }
    }

    // xi_insert_attribs: the attribute string becomes the first child, and the element is flagged.
    method InsertAttribs(owner: Atom, data: string)
      requires Valid() && owner == stack[depth].atom
      modifies `nodes, `texts, `shape, `maxdepth, stack
      ensures Valid() && Abs() == Hang(old(Abs()), Attr(data))
      ensures stack[depth].atom == owner && stack[depth].orig == old(stack[depth].orig)
      ensures owner < |nodes| && nodes[owner].attribs
    {
      MoreText(nodes, texts, shape, stack[..], depth, texts + [data]);
      texts := texts + [data];
      var atom := InsertNode(Atstr, None, |texts| - 1);
      assert SlotOk(nodes, shape, stack[..], depth);
      FlagKeepsState(nodes, texts, shape, stack[..], depth, owner);
      nodes := nodes[owner := nodes[owner].(attribs := true)];
    }

    method InsertText(data: string)
      requires Valid()
      modifies `nodes, `texts, `shape, `maxdepth, stack
      ensures Valid() && Abs() == Hang(old(Abs()), Text(data))
    {
      MoreText(nodes, texts, shape, stack[..], depth, texts + [data]);
      texts := texts + [data];
      var atom := InsertNode(Unesc, None, |texts| - 1);
    }

    method InsertOpen(name: string, attribs: Option<string>, action: Action)
      requires Valid() && depth + 1 < XI_DEPTH_MAX && PlainAttribs(attribs)
      modifies this, stack
      ensures Valid() && Abs() == OpenStep(old(Abs()), name, attribs, Rule(action, None))
      ensures stack[depth].atom < |nodes|
      ensures nodes[stack[depth].atom].attribs <==> attribs.Some? && action == SaveAtstr
    {
      var atom := InsertNode(Elt, Some(name), NULL_ATOM);
      label Hung:
      Push(atom);
      assert Abs() == old(Abs()) + [Frame(Some(name), None, [])];
      if attribs.Some? && action == SaveAtstr {
        ghost var z := Abs();
        InsertAttribs(atom, attribs.value);
        assert z[|z| - 1].done + [Attr(attribs.value)] == [Attr(attribs.value)];
        assert Abs() == z[..|z| - 1] + [Frame(Some(name), None, [Attr(attribs.value)])];
      }
      assert Abs() == old(Abs()) + [Frame(Some(name), None, KeptAttribs(attribs, Rule(action, None)))];
    }

    // Returns false where the source reports a failure; the tree is then untouched.
    method InsertClose(name: string) returns (ok: bool)
      requires Valid()
      modifies `depth, stack
      ensures Valid() && Abs() == CloseStep(old(Abs()), name)
      ensures ok <==> Closes(old(Abs()), name)
    {
      var xsp := stack[depth];
      assert SlotOk(nodes, shape, stack[..], depth);
      if depth == 0 {
        return false;
      } else if xsp.orig.Some? {
        if xsp.orig.value != name {
          return false;
        }
      } else if nodes[xsp.atom].name != Some(name) {
        return false;
      }
      Pop();
      return true;
    }

    // xi_parse_handle_rule, for the actions that save.
    method HandleRule(name: string, attribs: Option<string>, rule: Rule)
      requires Valid() && depth + 1 < XI_DEPTH_MAX && PlainAttribs(attribs)
      modifies this, stack
      ensures Valid() && Abs() == OpenStep(old(Abs()), name, attribs, rule)
      ensures |Abs()| == |old(Abs())| + 1 && Abs()[..|old(Abs())|] == old(Abs())
      ensures var top := Abs()[|old(Abs())|];
        && top.name == (if rule.useTag.Some? then rule.useTag else Some(name))
        && Expected(top) == Some(name)
        && top.done == if attribs.Some? && rule.action.SaveAtstr? then [Attr(attribs.value)] else []
    {
      InsertOpen(Stored(name, rule), attribs, rule.action);
      if rule.useTag.Some? {
        RenameOk(nodes, texts, shape, stack[..], depth, name);
        ghost var was := stack[..];
        stack[depth] := stack[depth].(orig := Some(name));
        assert stack[..] == was[depth := was[depth].(orig := Some(name))];
      }
    }

    // xi_parse: one pass over the tokens, each open or empty tag with the rule found for it.
    method Parse(toks: seq<(Token, Rule)>) returns (failures: nat)
      requires Valid()
      requires forall i :: 0 <= i < |toks| ==> PlainToken(toks[i].0)
      requires forall i :: 0 <= i < |toks| ==> |Run(Abs(), toks[..i])| < XI_DEPTH_MAX
      modifies this, stack
      ensures Valid() && Abs() == Run(old(Abs()), toks)
      ensures failures == Failures(old(Abs()), toks)
    {
      failures := 0;
      ghost var z := Abs();
      assert toks[..0] == [];
      for i := 0 to |toks|
        invariant Valid() && Abs() == Run(z, toks[..i])
        invariant failures == Failures(z, toks[..i])
      {
        var tok, rule := toks[i].0, toks[i].1;
        assert toks[..i + 1][..i] == toks[..i];
        assert |Abs()| == depth + 1;
        var ok := true;
        match tok {
          case TText(data) =>
            InsertText(data);
          case TOpen(name, attribs) =>
            HandleRule(name, attribs, rule);
          case TEmpty(name, attribs) =>
            HandleRule(name, attribs, rule);
            ok := InsertClose(name);
          case TClose(name) =>
            ok := InsertClose(name);
          case TOther =>
        }
        failures := if ok then failures else failures + 1;
      }
      assert toks[..|toks|] == toks;
    }
  }

  lemma {:induction false} FlagKeepsState(nodes: seq<Node>, texts: seq<string>, sh: Shape, st: seq<IStack>,
                                          depth: nat, owner: Atom)
    requires StateOk(nodes, texts, sh, st, depth) && owner < |nodes|
    ensures StateOk(nodes[owner := nodes[owner].(attribs := true)], texts, sh, st, depth)
    ensures
      Zip(nodes[owner := nodes[owner].(attribs := true)], texts, sh, st, depth) == Zip(nodes, texts, sh, st, depth)
  {
    var nodes' := nodes[owner := nodes[owner].(attribs := true)];
    forall a | ROOT_ATOM <= a < |nodes'| ensures KidsOk(nodes', sh, a) && ContentsOk(nodes', texts, sh, a) {
      assert KidsOk(nodes, sh, a) && ContentsOk(nodes, texts, sh, a);
      forall i | 0 <= i < |sh.kids[a]| ensures KidOk(nodes', sh, a, i) {
        assert KidOk(nodes, sh, a, i);
      }
    }
    forall a | ROOT_ATOM < a < |nodes'| ensures UpOk(nodes', sh, a) {
      assert UpOk(nodes, sh, a);
    }
    forall d | 0 <= d <= depth ensures SlotOk(nodes', sh, st, d) {
      assert SlotOk(nodes, sh, st, d);
    }
    forall d | 0 <= d < depth ensures LinkOk(nodes', sh, st, d) {
      assert SlotOk(nodes, sh, st, d) && LinkOk(nodes, sh, st, d);
    }
    var z, z' := Zip(nodes, texts, sh, st, depth), Zip(nodes', texts, sh, st, depth);
    forall d | 0 <= d <= depth ensures z'[d] == z[d] {
      assert SlotOk(nodes, sh, st, d) && (d < depth ==> LinkOk(nodes, sh, st, d));
      forall i | 0 <= i < |sh.kids[st[d].atom]| ensures sh.kids[st[d].atom][i] !in {NULL_ATOM} {
        assert KidsOk(nodes, sh, st[d].atom) && KidOk(nodes, sh, st[d].atom, i);
      }
      ForestUnchanged(nodes, texts, sh, nodes', texts, sh, NULL_ATOM, {NULL_ATOM}, st[d].atom,
                      Finished(sh, st, depth, d));
    }
  }

  lemma {:induction false} RenameOk(nodes: seq<Node>, texts: seq<string>, sh: Shape, st: seq<IStack>,
                                    depth: nat, name: string)
    requires StateOk(nodes, texts, sh, st, depth) && depth > 0
    ensures StateOk(nodes, texts, sh, st[depth := st[depth].(orig := Some(name))], depth)
    ensures var z := Zip(nodes, texts, sh, st, depth);
            Zip(nodes, texts, sh, st[depth := st[depth].(orig := Some(name))], depth)
            == z[depth := z[depth].(orig := Some(name))]
  {
    var st' := st[depth := st[depth].(orig := Some(name))];
    forall d | 0 <= d <= depth ensures SlotOk(nodes, sh, st', d) {
      assert SlotOk(nodes, sh, st, d);
    }
    forall d | 0 <= d < depth ensures LinkOk(nodes, sh, st', d) {
      assert SlotOk(nodes, sh, st, d) && LinkOk(nodes, sh, st, d);
    }
    var z, z' := Zip(nodes, texts, sh, st, depth), Zip(nodes, texts, sh, st', depth);
    forall d | 0 <= d <= depth ensures z'[d] == if d == depth then z[d].(orig := Some(name)) else z[d] {
    }
  }

  /** xi_node_parent: follows sibling links until the depth drops; the node it stops at is the parent. */
  method NodeParent(nodes: seq<Node>, texts: seq<string>, ghost sh: Shape, start: Atom) returns (parent: Option<Atom>)
    requires Threaded(nodes, texts, sh) && ROOT_ATOM <= start < |nodes|
    ensures parent == if start == ROOT_ATOM then None else Some(sh.par[start])
  {
    var node := start;
    var depth := nodes[start].depth;
    while nodes[node].next != NULL_ATOM
      invariant ROOT_ATOM <= node < |nodes| && nodes[node].depth == depth
      invariant start == ROOT_ATOM <==> node == ROOT_ATOM
      invariant node != ROOT_ATOM ==> UpOk(nodes, sh, node) && sh.par[node] == sh.par[start]
      decreases if node == ROOT_ATOM then 0 else |sh.kids[sh.par[node]]| - sh.pos[node]
    {
      NextOf(nodes, texts, sh, node);
      var next := nodes[node].next;
      if nodes[next].depth < depth {
        return Some(next);
      }
      node := next;
    }
    if node != ROOT_ATOM {
      NextOf(nodes, texts, sh, node);
    }
    return None;
  }
}
