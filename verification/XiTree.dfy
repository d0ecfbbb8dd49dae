/**
  The node store of an XML tree and what it means for it to be well threaded.

  Nodes are records addressed by atoms.  A node knows its first child (xn_contents) and its next
  sibling (xn_next); the last sibling's xn_next is its parent, and only xn_depth tells a sibling
  link from a parent link.  A `Shape` names, for reasoning only, the tree that such a store encodes.
 */
module XiTree {
  type Atom = nat

  const NULL_ATOM: Atom := 0
  const ROOT_ATOM: Atom := 1
  const XI_DEPTH_MAX: nat := 254

  datatype Option<+T> = None | Some(value: T)

  datatype NodeType = Root | Elt | Unesc | Atstr

  // xi_node_t: `contents` is the first child of a Root or an Elt, and a text-pool atom otherwise.
  datatype Node = Node(typ: NodeType, name: Option<string>, depth: nat, next: Atom, contents: Atom, attribs: bool)

  // The tree a store encodes: children of each atom in order, and each atom's parent and position.
  datatype Shape = Shape(kids: seq<seq<Atom>>, par: seq<Atom>, pos: seq<nat>)

  // The recursive tree, as a document author would see it.
  datatype Tree = Elem(name: Option<string>, kids: seq<Tree>) | Text(data: string) | Attr(data: string)

  ghost predicate Sized(nodes: seq<Node>, sh: Shape) {
    |nodes| == |sh.kids| == |sh.par| == |sh.pos| && ROOT_ATOM < |nodes|
  }

  ghost predicate IsContainer(n: Node) {
    n.typ == Root || n.typ == Elt
  }

  ghost predicate KidOk(nodes: seq<Node>, sh: Shape, a: Atom, i: nat)
    requires Sized(nodes, sh) && a < |nodes| && i < |sh.kids[a]|
  {
    var k := sh.kids[a][i];
    && a < k < |nodes|
    && sh.par[k] == a && sh.pos[k] == i
    && nodes[k].typ != Root
    && nodes[k].depth == nodes[a].depth + 1
    && nodes[k].next == (if i + 1 < |sh.kids[a]| then sh.kids[a][i + 1] else a)
  }

  ghost predicate KidsOk(nodes: seq<Node>, sh: Shape, a: Atom)
    requires Sized(nodes, sh) && a < |nodes|
  {
    forall i {:trigger KidOk(nodes, sh, a, i)} :: 0 <= i < |sh.kids[a]| ==> KidOk(nodes, sh, a, i)
  }

  ghost predicate ContentsOk(nodes: seq<Node>, texts: seq<string>, sh: Shape, a: Atom)
    requires Sized(nodes, sh) && a < |nodes|
  {
    if IsContainer(nodes[a]) then
      nodes[a].contents == if sh.kids[a] == [] then NULL_ATOM else sh.kids[a][0]
    else
      sh.kids[a] == [] && nodes[a].contents < |texts|
  }

  ghost predicate UpOk(nodes: seq<Node>, sh: Shape, a: Atom)
    requires Sized(nodes, sh) && a < |nodes|
  {
    && ROOT_ATOM <= sh.par[a] < a
    && sh.pos[a] < |sh.kids[sh.par[a]]|
    && sh.kids[sh.par[a]][sh.pos[a]] == a
  }

  /** The store is a tree: every node but the root is listed exactly once among the children of its
      parent, sibling chains end at the parent, and depths are the parent's plus one. */
  ghost predicate Threaded(nodes: seq<Node>, texts: seq<string>, sh: Shape) {
    && Sized(nodes, sh)
    && nodes[ROOT_ATOM].typ == Root && nodes[ROOT_ATOM].depth == 0 && nodes[ROOT_ATOM].next == NULL_ATOM
    && nodes[ROOT_ATOM].name == None
    && (forall a {:trigger KidsOk(nodes, sh, a)} :: ROOT_ATOM <= a < |nodes| ==> KidsOk(nodes, sh, a))
    && (forall a {:trigger ContentsOk(nodes, texts, sh, a)} ::
          ROOT_ATOM <= a < |nodes| ==> ContentsOk(nodes, texts, sh, a))
    && (forall a {:trigger UpOk(nodes, sh, a)} :: ROOT_ATOM < a < |nodes| ==> UpOk(nodes, sh, a))
  }

  /** Reads the recursive tree below an atom. */
  ghost function TreeOf(nodes: seq<Node>, texts: seq<string>, sh: Shape, a: Atom): Tree
    requires Threaded(nodes, texts, sh) && ROOT_ATOM <= a < |nodes|
    decreases |nodes| - a, 1
  {
    assert ContentsOk(nodes, texts, sh, a);
    match nodes[a].typ
    case Unesc => Text(texts[nodes[a].contents])
    case Atstr => Attr(texts[nodes[a].contents])
    case _ => Elem(nodes[a].name, Forest(nodes, texts, sh, a, |sh.kids[a]|))
  }

  /** The trees of the first n children of an atom. */
  ghost function Forest(nodes: seq<Node>, texts: seq<string>, sh: Shape, a: Atom, n: nat): (f: seq<Tree>)
    requires Threaded(nodes, texts, sh) && ROOT_ATOM <= a < |nodes| && n <= |sh.kids[a]|
    ensures |f| == n
    decreases |nodes| - a, 0, n
  {
    if n == 0 then [] else
      assert KidsOk(nodes, sh, a) && KidOk(nodes, sh, a, n - 1);
      Forest(nodes, texts, sh, a, n - 1) + [TreeOf(nodes, texts, sh, sh.kids[a][n - 1])]
  }

  lemma {:induction false} ForestAt(nodes: seq<Node>, texts: seq<string>, sh: Shape, a: Atom, n: nat, i: nat)
    requires Threaded(nodes, texts, sh) && ROOT_ATOM <= a < |nodes| && i < n <= |sh.kids[a]|
    ensures KidsOk(nodes, sh, a) && KidOk(nodes, sh, a, i)
    ensures Forest(nodes, texts, sh, a, n)[i] == TreeOf(nodes, texts, sh, sh.kids[a][i])
  {
    assert KidsOk(nodes, sh, a) && KidOk(nodes, sh, a, i);
    if i + 1 < n {
      ForestAt(nodes, texts, sh, a, n - 1, i);
    }
  }

  /** What xn_next means: the next sibling, one place on at the same depth, or else the parent. */
  lemma {:induction false} NextOf(nodes: seq<Node>, texts: seq<string>, sh: Shape, a: Atom)
    requires Threaded(nodes, texts, sh) && ROOT_ATOM < a < |nodes|
    ensures ROOT_ATOM <= sh.par[a] < a && sh.pos[a] < |sh.kids[sh.par[a]]| && IsContainer(nodes[sh.par[a]])
    ensures nodes[a].typ != Root
    ensures nodes[a].depth == nodes[sh.par[a]].depth + 1
    ensures ROOT_ATOM <= nodes[a].next < |nodes|
    ensures sh.pos[a] + 1 < |sh.kids[sh.par[a]]| ==>
              var b := nodes[a].next;
              b == sh.kids[sh.par[a]][sh.pos[a] + 1] && ROOT_ATOM < b && sh.par[b] == sh.par[a]
              && sh.pos[b] == sh.pos[a] + 1 && nodes[b].depth == nodes[a].depth
    ensures sh.pos[a] + 1 == |sh.kids[sh.par[a]]| ==> nodes[a].next == sh.par[a]
  {
    assert UpOk(nodes, sh, a);
    var p := sh.par[a];
    assert KidsOk(nodes, sh, p) && KidOk(nodes, sh, p, sh.pos[a]) && ContentsOk(nodes, texts, sh, p);
    assert sh.pos[a] + 1 < |sh.kids[p]| ==> KidOk(nodes, sh, p, sh.pos[a] + 1);
  }

  /** The atoms from the root to `t`: a set that contains the parent of each of its members. */
  ghost predicate UpClosed(nodes: seq<Node>, sh: Shape, s: set<Atom>)
    requires Sized(nodes, sh)
  {
    forall a :: a in s && ROOT_ATOM < a < |nodes| ==> sh.par[a] in s
  }

  /** A store after one node has been hung, as last child, below `t`. */
  ghost predicate GrownAt(nodes: seq<Node>, texts: seq<string>, sh: Shape,
                          nodes': seq<Node>, texts': seq<string>, sh': Shape, t: Atom)
    requires Sized(nodes, sh) && Sized(nodes', sh')
  {
    && |nodes| <= |nodes'| && texts <= texts'
    && (forall b :: ROOT_ATOM <= b < |nodes| ==>
          nodes'[b].typ == nodes[b].typ && nodes'[b].name == nodes[b].name
          && (!IsContainer(nodes[b]) ==> nodes'[b].contents == nodes[b].contents))
    && (forall b :: ROOT_ATOM <= b < |nodes| && b != t ==> sh'.kids[b] == sh.kids[b])
  }

  /** Growing the tree below `t` leaves every subtree that does not contain `t` as it was. */
  lemma {:induction false} TreeOfUnchanged(nodes: seq<Node>, texts: seq<string>, sh: Shape,
                                           nodes': seq<Node>, texts': seq<string>, sh': Shape,
                                           t: Atom, path: set<Atom>, a: Atom)
    requires Threaded(nodes, texts, sh) && Threaded(nodes', texts', sh')
    requires GrownAt(nodes, texts, sh, nodes', texts', sh', t)
    requires UpClosed(nodes, sh, path) && t in path
    requires ROOT_ATOM <= a < |nodes| && a !in path
    ensures TreeOf(nodes', texts', sh', a) == TreeOf(nodes, texts, sh, a)
    decreases |nodes| - a, 1
  {
    assert ContentsOk(nodes, texts, sh, a);
    if IsContainer(nodes[a]) {
      forall i | 0 <= i < |sh.kids[a]| ensures sh.kids[a][i] !in path {
        assert KidsOk(nodes, sh, a) && KidOk(nodes, sh, a, i);
      }
      ForestUnchanged(nodes, texts, sh, nodes', texts', sh', t, path, a, |sh.kids[a]|);
    }
  }

  /** The same for the first n children of `a`, none of which lies on the path to `t`. */
  lemma {:induction false} ForestUnchanged(nodes: seq<Node>, texts: seq<string>, sh: Shape,
                                           nodes': seq<Node>, texts': seq<string>, sh': Shape,
                                           t: Atom, path: set<Atom>, a: Atom, n: nat)
    requires Threaded(nodes, texts, sh) && Threaded(nodes', texts', sh')
    requires GrownAt(nodes, texts, sh, nodes', texts', sh', t)
    requires UpClosed(nodes, sh, path) && t in path
    requires ROOT_ATOM <= a < |nodes| && n <= |sh.kids[a]| && sh.kids[a][..n] <= sh'.kids[a]
    requires forall i :: 0 <= i < n ==> sh.kids[a][i] !in path
    ensures Forest(nodes', texts', sh', a, n) == Forest(nodes, texts, sh, a, n)
    decreases |nodes| - a, 0, n
  {
    if n > 0 {
      assert KidsOk(nodes, sh, a) && KidOk(nodes, sh, a, n - 1);
      ForestUnchanged(nodes, texts, sh, nodes', texts', sh', t, path, a, n - 1);
      assert sh'.kids[a][n - 1] == sh.kids[a][n - 1];
      TreeOfUnchanged(nodes, texts, sh, nodes', texts', sh', t, path, sh.kids[a][n - 1]);
    }
  }
}
