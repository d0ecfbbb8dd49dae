/**
  Mutable variables: the values a variable was ever set to live on in the containers of its shadow.
 */
module SlaxMvar {
  import Seqs

  type Ref = nat

  /**
    Nodes by reference: the contents of ordinary ones, the children of trees (result tree fragments, and
    among them the shadow variable's containers), and the list of these containers, oldest first.
   */
  datatype Store = Store(next: Ref, content: map<Ref, Content>, kids: map<Ref, seq<Ref>>, shadow: seq<Ref>)

  // What an ordinary node holds, and whether it is a text node.
  datatype Content = Content(text: bool, s: string)

  const NO_CONTENT: Content := Content(false, "")

  datatype Value = Scalar(s: string) | Nodes(ns: seq<Ref>)

  predicate Tree(st: Store, r: Ref) {
    r in st.kids
  }

  predicate Known(st: Store, r: Ref) {
    r in st.content || r in st.kids
  }

  predicate AllKnown(st: Store, rs: seq<Ref>) {
    forall k :: 0 <= k < |rs| ==> Known(st, rs[k])
  }

  // References are below next; a node is no tree; children are ordinary nodes; containers are trees.
  predicate Sound(st: Store) {
    && (forall r :: r in st.content ==> r < st.next && r !in st.kids)
    && (forall r :: r in st.kids ==> r < st.next)
    && (forall c, k :: c in st.kids && 0 <= k < |st.kids[c]| ==> st.kids[c][k] in st.content)
    && (forall c :: c in st.shadow ==> c in st.kids)
    && (forall i, k :: 0 <= i < k < |st.shadow| ==> st.shadow[i] != st.shadow[k])
  }

  // A node is the child of one tree, once.
  ghost predicate Owned(st: Store) {
    forall c, d, i: nat, k: nat :: OwnedAt(st, c, i, d, k)
  }

  predicate OwnedAt(st: Store, c: Ref, i: nat, d: Ref, k: nat) {
    c in st.kids && d in st.kids && i < |st.kids[c]| && k < |st.kids[d]| && st.kids[c][i] == st.kids[d][k] ==>
      c == d && i == k
  }

  // A container, or the child of one.
  predicate Shadowed(st: Store, r: Ref) {
    r in st.shadow || exists c :: c in st.shadow && c in st.kids && r in st.kids[c]
  }

  // A variable holds containers and their children only; a container can only be the newest, and comes last.
  predicate Held(st: Store, v: Value) {
    v.Nodes? ==>
      && (forall r :: r in v.ns ==> Shadowed(st, r) && Known(st, r))
      && (forall k :: 0 <= k < |v.ns| && Tree(st, v.ns[k]) ==>
            k == |v.ns| - 1 && st.shadow != [] && v.ns[k] == st.shadow[|st.shadow| - 1])
  }

  // Whatever was there is still there: contents the same, children only added behind, containers too.
  predicate Extends(pre: Store, st: Store) {
    && pre.next <= st.next
    && (forall r :: r in pre.content ==> r in st.content && st.content[r] == pre.content[r])
    && (forall c :: c in pre.kids ==> c in st.kids && pre.kids[c] <= st.kids[c])
    && pre.shadow <= st.shadow
  }

  /** The same, but that a text may have got more text behind it. */
  predicate Grows(pre: Store, st: Store) {
    && pre.next <= st.next
    && (forall r :: r in pre.content ==> r in st.content && Continues(pre.content[r], st.content[r]))
    && (forall c :: c in pre.kids ==> c in st.kids && pre.kids[c] <= st.kids[c])
    && pre.shadow <= st.shadow
  }

  predicate Continues(was: Content, now: Content) {
    now == was || (was.text && now.text && was.s <= now.s)
  }

  // ----- what a set of nodes stands for

  // The place of the first tree.
  function FirstTree(st: Store, ns: seq<Ref>): (n: nat)
    ensures n <= |ns|
  {
    FirstTreeFrom(st, ns, 0)
  }

  function FirstTreeFrom(st: Store, ns: seq<Ref>, i: nat): (n: nat)
    requires i <= |ns|
    ensures i <= n <= |ns|
    decreases |ns| - i
  {
    if i == |ns| || Tree(st, ns[i]) then i else FirstTreeFrom(st, ns, i + 1)
  }

  lemma {:induction false} FirstTreeIs(st: Store, ns: seq<Ref>, i: nat)
    requires i <= |ns|
    ensures var n := FirstTreeFrom(st, ns, i); n < |ns| ==> Tree(st, ns[n])
    ensures forall k :: i <= k < FirstTreeFrom(st, ns, i) ==> !Tree(st, ns[k])
    decreases |ns| - i
  {
    if i < |ns| && !Tree(st, ns[i]) { FirstTreeIs(st, ns, i + 1); }
  }

  // The nodes that are copied from a value: those up to the first tree, and that tree's children.
  function Source(st: Store, ns: seq<Ref>): seq<Ref> {
    var n := FirstTree(st, ns);
    ns[..n] + if n < |ns| && ns[n] in st.kids then st.kids[ns[n]] else []
  }

  // The nodes of a value, trees replaced by their children.
  function Listing(st: Store, ns: seq<Ref>): seq<Ref> {
    if ns == [] then [] else (if Tree(st, ns[0]) then st.kids[ns[0]] else [ns[0]]) + Listing(st, ns[1..])
  }

  function Contents(st: Store, rs: seq<Ref>): seq<Content> {
    if rs == [] then [] else [if rs[0] in st.content then st.content[rs[0]] else NO_CONTENT] + Contents(st, rs[1..])
  }

  predicate Distinct(rs: seq<Ref>) {
    forall i, k :: 0 <= i < k < |rs| ==> rs[i] != rs[k]
  }

  function Fresh(from: Ref, n: nat): (rs: seq<Ref>)
    ensures |rs| == n && forall k :: 0 <= k < n ==> rs[k] == from + k
  {
    seq(n, k requires 0 <= k < n => from + k)
  }

  // ----- copying

  /** Copies of some nodes were added to a container, and nothing else happened. */
  ghost predicate Added(pre: Store, st: Store, container: Ref, rs: seq<Ref>)
    requires container in pre.kids
  {
    && st.next == pre.next + |rs| && st.shadow == pre.shadow
    && st.kids == pre.kids[container := pre.kids[container] + Fresh(pre.next, |rs|)]
    && (forall r :: r in st.content <==> r in pre.content || pre.next <= r < st.next)
    && (forall r :: r in pre.content && r < pre.next ==> st.content[r] == pre.content[r])
    && (forall k :: 0 <= k < |rs| && rs[k] in pre.content ==> st.content[pre.next + k] == pre.content[rs[k]])
  }

  lemma {:induction false} AddedSound(pre: Store, st: Store, container: Ref, rs: seq<Ref>)
    requires Sound(pre) && Owned(pre) && container in pre.kids && Added(pre, st, container, rs)
    ensures Sound(st) && Owned(st) && Extends(pre, st)
  {
    AddedStillSound(pre, st, container, rs);
    AddedOwned(pre, st, container, rs);
  }

  // The contents of such copies.
  function NewContent(st: Store, rs: seq<Ref>): map<Ref, Content> {
    map r {:trigger r in st.content} | st.next <= r < st.next + |rs| ::
      if rs[r - st.next] in st.content then st.content[rs[r - st.next]] else NO_CONTENT
  }

  // The store after that.
  function Copied(st: Store, container: Ref, rs: seq<Ref>): Store {
    Store(st.next + |rs|, st.content + NewContent(st, rs),
      if container in st.kids then st.kids[container := st.kids[container] + Fresh(st.next, |rs|)] else st.kids,
      st.shadow)
  }

  function WithNode(st: Store, container: Ref, content: Content): Store {
    Store(st.next + 1, st.content[st.next := content],
      if container in st.kids then st.kids[container := st.kids[container] + [st.next]] else st.kids, st.shadow)
  }

  predicate AllNodes(st: Store, rs: seq<Ref>) {
    forall k :: 0 <= k < |rs| ==> rs[k] in st.content
  }

  lemma {:induction false} CopiedNone(st: Store, container: Ref)
    ensures Copied(st, container, []) == st
  {
    assert container in st.kids ==> st.kids[container] + Fresh(st.next, 0) == st.kids[container];
    assert st.content + NewContent(st, []) == st.content;
  }

  lemma {:induction false} CopiedSnoc(st: Store, container: Ref, rs: seq<Ref>, r: Ref)
    requires r in st.content
    ensures Copied(st, container, rs + [r]) == WithNode(Copied(st, container, rs), container, st.content[r])
  {
    var a, b := Copied(st, container, rs + [r]), WithNode(Copied(st, container, rs), container, st.content[r]);
    NewContentSnoc(st, rs, r);
    assert a.content == b.content;
    FreshMore(st.next, |rs|);
    if container in st.kids {
      var ks := st.kids[container];
      Seqs.Assoc(ks, Fresh(st.next, |rs|), [st.next + |rs|]);
      KidsTwice(st.kids, container, ks + Fresh(st.next, |rs|), ks + Fresh(st.next, |rs| + 1));
    }
    assert a.kids == b.kids;
  }

  lemma {:induction false} KidsTwice(m: map<Ref, seq<Ref>>, c: Ref, a: seq<Ref>, b: seq<Ref>)
    ensures m[c := a][c := b] == m[c := b]
  {
  }

  lemma {:induction false} NewContentSnoc(st: Store, rs: seq<Ref>, r: Ref)
    requires r in st.content
    ensures st.content + NewContent(st, rs + [r]) == (st.content + NewContent(st, rs))[st.next + |rs| := st.content[r]]
  {
    var a, b := NewContent(st, rs + [r]), NewContent(st, rs)[st.next + |rs| := st.content[r]];
    assert a.Keys == b.Keys;
    assert forall k :: k in a ==> a[k] == b[k];
    assert a == b;
  }

  lemma {:induction false} CopiedIsAdded(st: Store, container: Ref, rs: seq<Ref>)
    requires Sound(st) && container in st.kids && AllNodes(st, rs)
    ensures Added(st, Copied(st, container, rs), container, rs)
  {
    var m, made := Copied(st, container, rs), NewContent(st, rs);
    assert m.content == st.content + made && m.next == st.next + |rs|;
    forall r | r in st.content && r < st.next ensures m.content[r] == st.content[r] {
      assert r !in made;
    }
    forall k | 0 <= k < |rs| && rs[k] in st.content ensures m.content[st.next + k] == st.content[rs[k]] {
      assert st.next + k in made && made[st.next + k] == st.content[rs[k]];
    }
  }

  // Copying adds to what there is.
  lemma {:induction false} CopiedKeeps(st: Store, container: Ref, rs: seq<Ref>, r: Ref)
    requires Sound(st) && r in st.content
    ensures var m := Copied(st, container, rs); r in m.content && m.content[r] == st.content[r]
  {
  }

  lemma {:induction false} AddedStillSound(pre: Store, st: Store, container: Ref, rs: seq<Ref>)
    requires Sound(pre) && container in pre.kids && Added(pre, st, container, rs)
    ensures Sound(st) && Extends(pre, st)
  {
    var ids := Fresh(pre.next, |rs|);
    forall c, k | c in st.kids && 0 <= k < |st.kids[c]| ensures st.kids[c][k] in st.content {
      if c == container && k >= |pre.kids[c]| {
        assert st.kids[c][k] == ids[k - |pre.kids[c]|];
      } else {
        assert st.kids[c][k] == pre.kids[c][k];
      }
    }
  }

  lemma {:induction false} AddedKid(pre: Store, st: Store, container: Ref, rs: seq<Ref>, c: Ref, k: nat)
    requires Sound(pre) && container in pre.kids && Added(pre, st, container, rs) && c in st.kids && k < |st.kids[c]|
    ensures c in pre.kids
    ensures if k < |pre.kids[c]| then st.kids[c][k] == pre.kids[c][k] < pre.next
      else c == container && st.kids[c][k] == pre.next + k - |pre.kids[c]|
  {
    if k < |pre.kids[c]| {
      assert pre.kids[c][k] in pre.content;
    }
  }

  lemma {:induction false} AddedOwned(pre: Store, st: Store, container: Ref, rs: seq<Ref>)
    requires Sound(pre) && Owned(pre) && container in pre.kids && Added(pre, st, container, rs)
    ensures Owned(st)
  {
    forall c, d, i: nat, k: nat ensures OwnedAt(st, c, i, d, k) {
      if c in st.kids && d in st.kids && i < |st.kids[c]| && k < |st.kids[d]| {
        AddedKid(pre, st, container, rs, c, i);
        AddedKid(pre, st, container, rs, d, k);
        assert OwnedAt(pre, c, i, d, k);
      }
    }
  }

  // The new children read like the nodes they were copied from.
  lemma {:induction false} AddedContents(pre: Store, st: Store, container: Ref, rs: seq<Ref>)
    requires Sound(pre) && container in pre.kids && Added(pre, st, container, rs) && AllNodes(pre, rs)
    ensures Contents(st, Fresh(pre.next, |rs|)) == Contents(pre, rs)
  {
    var ids := Fresh(pre.next, |rs|);
    forall k | 0 <= k < |rs| ensures CopyOf(pre, st, rs[k], ids[k]) {
      assert rs[k] in pre.content && ids[k] == pre.next + k;
    }
    CopiesRead(pre, st, rs, ids);
  }

  predicate CopyOf(pre: Store, st: Store, r: Ref, id: Ref) {
    r in pre.content && id in st.content && st.content[id] == pre.content[r]
  }

  lemma {:induction false} CopiesRead(pre: Store, st: Store, rs: seq<Ref>, ids: seq<Ref>)
    requires |ids| == |rs| && forall k :: 0 <= k < |rs| ==> CopyOf(pre, st, rs[k], ids[k])
    ensures Contents(st, ids) == Contents(pre, rs)
    decreases |rs|
  {
    if rs != [] {
      assert CopyOf(pre, st, rs[0], ids[0]);
      CopiesRead(pre, st, rs[1..], ids[1..]);
    }
  }

  lemma {:induction false} ContentsConcat(st: Store, a: seq<Ref>, b: seq<Ref>)
    ensures Contents(st, a + b) == Contents(st, a) + Contents(st, b)
  {
    if a == [] {
      assert a + b == b;
    } else {
      assert (a + b)[1..] == a[1..] + b;
      ContentsConcat(st, a[1..], b);
    }
  }

  // Old nodes read as they did.
  lemma {:induction false} ContentsKept(pre: Store, st: Store, rs: seq<Ref>)
    requires Extends(pre, st) && forall r :: r in rs ==> r in pre.content
    ensures Contents(st, rs) == Contents(pre, rs)
  {
    if rs != [] {
      assert rs[0] in rs;
      ContentsKept(pre, st, rs[1..]);
    }
  }

  lemma {:induction false} SourceOk(st: Store, ns: seq<Ref>)
    requires Sound(st) && AllKnown(st, ns)
    ensures AllNodes(st, Source(st, ns))
    ensures forall r :: r in Source(st, ns) ==> r in st.content
  {
    FirstTreeIs(st, ns, 0);
    if FirstTree(st, ns) < |ns| {
      KidsKnown(st, ns[FirstTree(st, ns)]);
    }
  }

  lemma {:induction false} SourceAll(st: Store, ns: seq<Ref>)
    requires FirstTree(st, ns) == |ns|
    ensures Source(st, ns) == ns[..|ns|] == ns
  {
  }

  lemma {:induction false} ListingPlain(st: Store, ns: seq<Ref>)
    requires forall r :: r in ns ==> !Tree(st, r)
    ensures Listing(st, ns) == ns
  {
    if ns != [] {
      assert ns[0] in ns;
      ListingPlain(st, ns[1..]);
    }
  }

  lemma {:induction false} ListingSnoc(st: Store, ns: seq<Ref>, r: Ref)
    ensures Listing(st, ns + [r]) == Listing(st, ns) + if Tree(st, r) then st.kids[r] else [r]
  {
    if ns == [] {
      assert [r][1..] == [];
      assert ns + [r] == [r];
    } else {
      assert (ns + [r])[1..] == ns[1..] + [r];
      ListingSnoc(st, ns[1..], r);
    }
  }

  // ----- texts that meet

  predicate IsText(st: Store, r: Ref) {
    r in st.content && st.content[r].text
  }

  predicate EndsInText(st: Store, c: Ref) {
    c in st.kids && st.kids[c] != [] && IsText(st, st.kids[c][|st.kids[c]| - 1])
  }

  /** xmlAddChild of a new copy: a text behind a text becomes part of it, and the copy is gone. */
  function Hung(st: Store, c: Ref, k: Content): Store {
    if k.text && EndsInText(st, c) then
      var last := st.kids[c][|st.kids[c]| - 1];
      st.(next := st.next + 1, content := st.content[last := Content(true, st.content[last].s + k.s)])
    else WithNode(st, c, k)
  }

  // Copies of some nodes, one after another.
  function HungAll(st: Store, c: Ref, rs: seq<Ref>): Store {
    if rs == [] then st
    else
      var m, r := HungAll(st, c, rs[..|rs| - 1]), rs[|rs| - 1];
      Hung(m, c, if r in m.content then m.content[r] else NO_CONTENT)
  }

  // The copy of the i-th node becomes part of the text before it.
  predicate MeetsAt(st: Store, c: Ref, rs: seq<Ref>, i: nat)
    requires i < |rs|
  {
    IsText(st, rs[i]) && if i == 0 then EndsInText(st, c) else IsText(st, rs[i - 1])
  }

  predicate TextsMeet(st: Store, c: Ref, rs: seq<Ref>) {
    exists i :: 0 <= i < |rs| && MeetsAt(st, c, rs, i)
  }

  ghost predicate SameKinds(pre: Store, st: Store) {
    forall r :: r in pre.content ==> r in st.content && st.content[r].text == pre.content[r].text
  }

  lemma {:induction false} HungOne(st: Store, c: Ref, k: Content)
    requires Sound(st) && Owned(st) && c in st.kids
    ensures var m := Hung(st, c, k); var met := k.text && EndsInText(st, c);
      && m.next == st.next + 1 && m.shadow == st.shadow && Grows(st, m) && SameKinds(st, m)
      && m.content.Keys == st.content.Keys + (if met then {} else {st.next})
      && m.kids == (if met then st.kids else st.kids[c := st.kids[c] + [st.next]])
      && (!met ==> m == WithNode(st, c, k)) && (EndsInText(m, c) <==> k.text)
  {
  }

  lemma {:induction false} HungSound(st: Store, c: Ref, k: Content)
    requires Sound(st) && Owned(st) && c in st.kids
    ensures var m := Hung(st, c, k); Sound(m) && Owned(m)
  {
    var m := Hung(st, c, k);
    HungOne(st, c, k);
    KidsKnown(st, c);
    forall d, i | d in m.kids && 0 <= i < |m.kids[d]| ensures m.kids[d][i] in m.content {
      HungKid(st, c, k, d, i);
    }
    forall d, e, i: nat, j: nat ensures OwnedAt(m, d, i, e, j) {
      if d in m.kids && e in m.kids && i < |m.kids[d]| && j < |m.kids[e]| {
        HungKid(st, c, k, d, i);
        HungKid(st, c, k, e, j);
        assert OwnedAt(st, d, i, e, j);
      }
    }
  }

  // A child there was, or the copy.
  lemma {:induction false} HungKid(st: Store, c: Ref, k: Content, d: Ref, i: nat)
    requires Sound(st) && c in st.kids && d in Hung(st, c, k).kids && i < |Hung(st, c, k).kids[d]|
    ensures var m := Hung(st, c, k);
      && d in st.kids && m.kids[d][i] in m.content
      && if i < |st.kids[d]| then m.kids[d][i] == st.kids[d][i] < st.next
         else d == c && i == |st.kids[c]| && m.kids[d][i] == st.next
  {
    if i < |st.kids[d]| { assert st.kids[d][i] in st.content; }
  }

  // One more copy, after those before it.
  lemma {:induction false} HungMore(st: Store, m: Store, c: Ref, k: Content)
    requires Sound(st) && Sound(m) && Owned(m) && c in st.kids && Grows(st, m) && SameKinds(st, m)
    ensures var now := Hung(m, c, k);
      && Sound(now) && Owned(now) && Grows(st, now) && SameKinds(st, now) && (EndsInText(now, c) <==> k.text)
      && now.next == m.next + 1 && now.shadow == m.shadow && now.kids.Keys == m.kids.Keys
      && (forall d :: d in m.kids && d != c ==> now.kids[d] == m.kids[d])
  {
    HungOne(m, c, k);
    HungSound(m, c, k);
    GrowsTrans(st, m, Hung(m, c, k));
  }

  /** What copying into a container keeps, whatever texts meet. */
  lemma {:induction false} HungAllOk(st: Store, c: Ref, rs: seq<Ref>)
    requires Sound(st) && Owned(st) && c in st.kids && AllNodes(st, rs)
    ensures var m := HungAll(st, c, rs);
      && Sound(m) && Owned(m) && Grows(st, m) && SameKinds(st, m)
      && m.next == st.next + |rs| && m.shadow == st.shadow && m.kids.Keys == st.kids.Keys
      && (forall d :: d in st.kids && d != c ==> m.kids[d] == st.kids[d])
      && (EndsInText(m, c) <==> if rs == [] then EndsInText(st, c) else IsText(st, rs[|rs| - 1]))
  {
    if rs != [] {
      var init, r := rs[..|rs| - 1], rs[|rs| - 1];
      HungAllOk(st, c, init);
      var m := HungAll(st, c, init);
      assert r in st.content;
      HungMore(st, m, c, m.content[r]);
    }
  }

  lemma {:induction false} HungTrees(st: Store, c: Ref, rs: seq<Ref>)
    requires c in st.kids
    ensures HungAll(st, c, rs).kids.Keys == st.kids.Keys && HungAll(st, c, rs).shadow == st.shadow
  {
    if rs != [] { HungTrees(st, c, rs[..|rs| - 1]); }
  }

  lemma {:induction false} GrowsTrans(a: Store, b: Store, c: Store)
    requires Grows(a, b) && Grows(b, c)
    ensures Grows(a, c)
  {
  }

  lemma {:induction false} MeetsInit(st: Store, c: Ref, rs: seq<Ref>, i: nat)
    requires i < |rs| - 1
    ensures MeetsAt(st, c, rs, i) <==> MeetsAt(st, c, rs[..|rs| - 1], i)
  {
  }

  lemma {:induction false} HungKeys(st: Store, c: Ref, k: Content)
    requires c in st.kids
    ensures var m := Hung(st, c, k); var met := k.text && EndsInText(st, c);
      && m.next == st.next + 1 && c in m.kids
      && m.content.Keys == st.content.Keys + (if met then {} else {st.next})
      && m.kids[c] == st.kids[c] + (if met then [] else [st.next])
  {
    Seqs.NoChange(st.kids[c]);
  }

  lemma {:induction false} HungBefore(st: Store, c: Ref, rs: seq<Ref>, r: Ref)
    requires Sound(st) && Owned(st) && c in st.kids && AllNodes(st, rs) && r in st.content
    ensures var m := HungAll(st, c, rs);
      && m.next == st.next + |rs| && c in m.kids && r in m.content && (m.content[r].text <==> IsText(st, r))
      && (EndsInText(m, c) <==> if rs == [] then EndsInText(st, c) else IsText(st, rs[|rs| - 1]))
  {
    HungAllOk(st, c, rs);
  }

  // The last copy is made when it does not become part of a text.
  lemma {:induction false} HungLast(st: Store, c: Ref, rs: seq<Ref>)
    requires Sound(st) && Owned(st) && c in st.kids && AllNodes(st, rs) && rs != []
    ensures var m, now, n := HungAll(st, c, rs[..|rs| - 1]), HungAll(st, c, rs), |rs| - 1;
      && m.next == st.next + n && now.next == st.next + |rs| && c in m.kids && c in now.kids
      && now.content.Keys == m.content.Keys + (if MeetsAt(st, c, rs, n) then {} else {st.next + n})
      && now.kids[c] == m.kids[c] + (if MeetsAt(st, c, rs, n) then [] else [st.next + n])
  {
    var init, r := rs[..|rs| - 1], rs[|rs| - 1];
    var m := HungAll(st, c, init);
    HungBefore(st, c, init, r);
    HungKeys(m, c, m.content[r]);
  }

  lemma {:induction false} HungRange(st: Store, c: Ref, rs: seq<Ref>)
    requires Sound(st) && Owned(st) && c in st.kids && AllNodes(st, rs)
    ensures var m := HungAll(st, c, rs);
      && m.next == st.next + |rs| && (forall r :: r in m.content ==> r in st.content || st.next <= r < m.next)
  {
    if rs != [] {
      HungRange(st, c, rs[..|rs| - 1]);
      HungLast(st, c, rs);
    }
  }

  // The i-th copy is there, in the container, unless it became part of a text.
  lemma {:induction false} HungIs(st: Store, c: Ref, rs: seq<Ref>, i: nat)
    requires Sound(st) && Owned(st) && c in st.kids && AllNodes(st, rs) && i < |rs|
    ensures var m := HungAll(st, c, rs); var id := st.next + i;
      && c in m.kids && (id in m.content <==> !MeetsAt(st, c, rs, i))
      && (!MeetsAt(st, c, rs, i) ==> id in m.kids[c])
    decreases |rs|
  {
    var init, n := rs[..|rs| - 1], |rs| - 1;
    HungLast(st, c, rs);
    if i < n {
      MeetsInit(st, c, rs, i);
      HungIs(st, c, init, i);
    } else {
      HungRange(st, c, init);
      var m := HungAll(st, c, rs);
      if !MeetsAt(st, c, rs, n) {
        assert m.kids[c][|m.kids[c]| - 1] == st.next + n;
      }
    }
  }

  /** Copies stand in the container one by one exactly if no two texts meet. */
  lemma {:induction false} OneByOneIff(st: Store, c: Ref, rs: seq<Ref>)
    requires Sound(st) && Owned(st) && c in st.kids && AllNodes(st, rs)
    ensures HungAll(st, c, rs) == Copied(st, c, rs) <==> !TextsMeet(st, c, rs)
  {
    if TextsMeet(st, c, rs) {
      var i :| 0 <= i < |rs| && MeetsAt(st, c, rs, i);
      HungIs(st, c, rs, i);
      assert st.next + i in NewContent(st, rs);
    } else {
      NoneMeet(st, c, rs);
    }
  }

  lemma {:induction false} NoneMeet(st: Store, c: Ref, rs: seq<Ref>)
    requires Sound(st) && Owned(st) && c in st.kids && AllNodes(st, rs) && !TextsMeet(st, c, rs)
    ensures HungAll(st, c, rs) == Copied(st, c, rs)
  {
    if rs == [] {
      CopiedNone(st, c);
    } else {
      var init, r := rs[..|rs| - 1], rs[|rs| - 1];
      assert rs == init + [r];
      forall i | 0 <= i < |init| ensures !MeetsAt(st, c, init, i) {
        assert !MeetsAt(st, c, rs, i);
      }
      NoneMeet(st, c, init);
      HungAllOk(st, c, init);
      CopiedKeeps(st, c, init, r);
      assert !MeetsAt(st, c, rs, |rs| - 1);
      HungOne(Copied(st, c, init), c, st.content[r]);
      CopiedSnoc(st, c, init, r);
    }
  }

  // A new, empty container at the end of the shadow variable's list.
  function WithBox(st: Store): Store {
    Store(st.next + 1, st.content, st.kids[st.next := []], st.shadow + [st.next])
  }

  lemma {:induction false} WithBoxSound(st: Store)
    requires Sound(st) && Owned(st)
    ensures Sound(WithBox(st)) && Owned(WithBox(st)) && Extends(st, WithBox(st)) && st.next !in st.kids
  {
    var w := WithBox(st);
    assert st.next !in st.kids;
    forall c, k | c in w.kids && 0 <= k < |w.kids[c]| ensures w.kids[c][k] in w.content {
      assert c != st.next && w.kids[c][k] == st.kids[c][k];
    }
    forall c, d, i: nat, k: nat ensures OwnedAt(w, c, i, d, k) {
      assert OwnedAt(st, c, i, d, k);
    }
  }

  // What the text element holds that stands for a scalar.
  function TextElt(s: string): Content {
    Content(false, "<text>" + s + "</text>")
  }

  // What is appended: a value, or the tree that a block of instructions made.
  datatype Arg = Val(v: Value) | Block(tree: Ref)

  // The contents that an argument adds to a set of nodes.
  function Addition(st: Store, arg: Arg): seq<Content> {
    match arg
    case Val(Scalar(s)) => if s == "" then [] else [TextElt(s)]
    case Val(Nodes(ns)) => Contents(st, Source(st, ns))
    case Block(t) => if t in st.kids then Contents(st, st.kids[t]) else []
  }

  function NodesOf(v: Value): seq<Ref> {
    if v.Nodes? then v.ns else []
  }

  predicate ArgKnown(st: Store, arg: Arg) {
    match arg case Val(v) => AllKnown(st, NodesOf(v)) case Block(t) => t in st.kids
  }

  // Whether an argument's tree is the container that it would be copied into.
  predicate IntoItself(st: Store, arg: Arg, container: Ref) {
    match arg
    case Val(Scalar(_)) => false
    case Val(Nodes(ns)) =>
      var n := FirstTree(st, ns);
      n < |ns| && ns[n] == container && container in st.kids && (n > 0 || st.kids[container] != [])
    case Block(t) => t == container
  }

  predicate FeedsItself(st: Store, arg: Arg) {
    st.shadow != [] && IntoItself(st, arg, st.shadow[|st.shadow| - 1])
  }

  // The nodes ids, new in a container, are what the argument adds.
  ghost predicate ArgAdded(was: Store, st: Store, container: Ref, ids: seq<Ref>, arg: Arg) {
    && Sound(st) && Owned(st) && Extends(was, st) && st.shadow == was.shadow
    && container in was.kids && st.kids == was.kids[container := was.kids[container] + ids]
    && ids == Fresh(was.next, |ids|)
    && Contents(st, ids) == Addition(was, arg)
  }

  lemma {:induction false} NothingAdded(st: Store, container: Ref, arg: Arg)
    requires Sound(st) && Owned(st) && container in st.kids && Addition(st, arg) == []
    ensures ArgAdded(st, st, container, [], arg)
  {
    assert st.kids[container] + [] == st.kids[container];
    assert Fresh(st.next, 0) == [];
  }

  lemma {:induction false} TextAdded(st: Store, container: Ref, s: string)
    requires Sound(st) && Owned(st) && container in st.kids && s != ""
    ensures ArgAdded(st, WithNode(st, container, TextElt(s)), container, [st.next], Val(Scalar(s)))
  {
    var now := WithNode(st, container, TextElt(s));
    assert Fresh(st.next, 1) == [st.next] && Added(st, now, container, [st.next]);
    AddedSound(st, now, container, [st.next]);
    assert [st.next][1..] == [];
  }

  lemma {:induction false} CopiesAdded(st: Store, now: Store, container: Ref, rs: seq<Ref>, ids: seq<Ref>, arg: Arg)
    requires Sound(st) && Owned(st) && container in st.kids && AllNodes(st, rs) && Addition(st, arg) == Contents(st, rs)
    requires now == Copied(st, container, rs) && ids == Fresh(st.next, |rs|)
    ensures ArgAdded(st, now, container, ids, arg)
  {
    CopiedIsAdded(st, container, rs);
    AddedSound(st, now, container, rs);
    AddedContents(st, now, container, rs);
  }

  // The store with an argument's nodes in a container, and the new nodes.
  function Grown(st: Store, container: Ref, arg: Arg): Store {
    match arg
    case Val(Scalar(s)) => if s == "" then st else WithNode(st, container, TextElt(s))
    case Val(Nodes(ns)) => HungAll(st, container, Source(st, ns))
    case Block(t) => if t in st.kids then HungAll(st, container, st.kids[t]) else st
  }

  // The nodes that are copied for an argument.
  function ArgSource(st: Store, arg: Arg): seq<Ref> {
    match arg
    case Val(Scalar(_)) => []
    case Val(Nodes(ns)) => Source(st, ns)
    case Block(t) => if t in st.kids then st.kids[t] else []
  }

  // Texts meet when an argument is copied.
  predicate ArgMeets(st: Store, container: Ref, arg: Arg) {
    TextsMeet(st, container, ArgSource(st, arg))
  }

  lemma {:induction false} ArgSourceOk(st: Store, arg: Arg)
    requires Sound(st) && ArgKnown(st, arg)
    ensures AllNodes(st, ArgSource(st, arg))
  {
    match arg {
      case Val(Scalar(_)) =>
      case Val(Nodes(ns)) => SourceOk(st, ns);
      case Block(t) => KidsKnown(st, t);
    }
  }

  /** Whatever texts meet, copying an argument keeps the store sound and loses nothing. */
  lemma {:induction false} GrownKeeps(st: Store, container: Ref, arg: Arg)
    requires Sound(st) && Owned(st) && container in st.kids && ArgKnown(st, arg)
    ensures var m := Grown(st, container, arg);
      Sound(m) && Owned(m) && Grows(st, m) && m.shadow == st.shadow && container in m.kids
  {
    ArgSourceOk(st, arg);
    HungAllOk(st, container, ArgSource(st, arg));
    if arg.Val? && arg.v.Scalar? {
      HungOne(st, container, TextElt(arg.v.s));
      HungSound(st, container, TextElt(arg.v.s));
    }
  }

  function NewIds(st: Store, arg: Arg): seq<Ref> {
    match arg
    case Val(Scalar(s)) => if s == "" then [] else [st.next]
    case Val(Nodes(ns)) => Fresh(st.next, |Source(st, ns)|)
    case Block(t) => if t in st.kids then Fresh(st.next, |st.kids[t]|) else []
  }

  lemma {:induction false} GrownAdds(st: Store, container: Ref, arg: Arg)
    requires Sound(st) && Owned(st) && container in st.kids && ArgKnown(st, arg) && !ArgMeets(st, container, arg)
    ensures ArgAdded(st, Grown(st, container, arg), container, NewIds(st, arg), arg)
  {
    ArgSourceOk(st, arg);
    OneByOneIff(st, container, ArgSource(st, arg));
    match arg {
      case Val(Scalar(s)) =>
        if s == "" { NothingAdded(st, container, arg); } else { TextAdded(st, container, s); }
      case Val(Nodes(ns)) =>
        SourceOk(st, ns);
        CopiesAdded(st, Grown(st, container, arg), container, Source(st, ns), NewIds(st, arg), arg);
      case Block(t) =>
        KidsKnown(st, t);
        CopiesAdded(st, Grown(st, container, arg), container, st.kids[t], NewIds(st, arg), arg);
    }
  }

  // ----- what setting and appending do to a variable

  datatype State = State(store: Store, value: Value)

  function AfterSet(was: State, v: Value): State {
    if v.Scalar? then was.(value := v) else WithNodes(was.store, v.ns)
  }

  // The copies in a container of their own, and the set of nodes that a variable gets.
  function WithNodes(st: Store, ns: seq<Ref>): State {
    var n := FirstTree(st, ns);
    State(HungAll(WithBox(st), st.next, Source(st, ns)),
          Nodes(Fresh(st.next + 1, n) + if n < |ns| then [st.next] else []))
  }

  function AfterAppend(was: State, arg: Arg): State {
    if was.value.Scalar? && arg.Val? && arg.v.Scalar? then was.(value := Scalar(was.value.s + arg.v.s))
    else
      var box := Boxed(was.store);
      if box.shadow == [] then was
      else
        var container := box.shadow[|box.shadow| - 1];
        State(Grown(box, container, arg), Nodes(Appended(NodesOf(was.value), container, NewIds(box, arg))))
  }

  // Texts meet when these nodes are copied into a container of their own.
  predicate SetMeets(st: Store, ns: seq<Ref>) {
    TextsMeet(WithBox(st), st.next, Source(st, ns))
  }

  // Texts meet when an argument is copied behind what there is.
  predicate AppendMeets(st: Store, arg: Arg) {
    var box := Boxed(st);
    box.shadow != [] && ArgMeets(box, box.shadow[|box.shadow| - 1], arg)
  }

  // A value that was set is copied whole into a container of its own; nothing else has changed.
  ghost predicate SetMade(st: Store, now: Store, ns: seq<Ref>, value: Value) {
    var c, n := st.next, FirstTree(st, ns);
    && Extends(st, now) && now.shadow == st.shadow + [c] && c in now.kids
    && Contents(now, now.kids[c]) == Contents(st, Source(st, ns))
    && n <= |now.kids[c]| && value == Nodes(if n == |ns| then now.kids[c] else now.kids[c][..n] + [c])
  }

  // The contents of the argument stand behind those there were, and nothing else has changed.
  ghost predicate AppendMade(st: Store, before: Value, now: Store, after: Value, arg: Arg) {
    var listed := Listing(st, NodesOf(before));
    && Extends(st, now) && after.Nodes?
    && Contents(now, Listing(now, after.ns)) == Contents(st, listed) + Addition(st, arg)
    && (Distinct(listed) ==> Distinct(Listing(now, after.ns)))
  }

  class Mvar {
    var store: Store  // with svar->value
    var value: Value  // var->value

    ghost predicate Valid()
      reads this
    {
      Sound(store) && Owned(store)
    }

    // Every node of the value is there, and belongs to the variable.
    ghost predicate Intact()
      reads this
    {
      Valid() && Held(store, value)
    }

    // slaxMvarInit without an initial value: what the shadow variable's own instructions made, if anything.
    constructor (st: Store)
      requires Sound(st) && Owned(st) && |st.shadow| <= 1
      ensures Valid() && Intact() && store == st
      ensures value == if st.shadow == [] || st.kids[st.shadow[0]] == [] then Scalar("") else Nodes(st.shadow)
    {
      store := st;
      value := if st.shadow == [] || st.kids[st.shadow[0]] == [] then Scalar("") else Nodes([st.shadow[0]]);
    }

    // slaxMvarInit with an initial value.
    method Init(v: Value)
      requires Valid() && store.shadow == [] && AllKnown(store, NodesOf(v))
      modifies this
      ensures Valid() && Grows(old(store), store) && |store.shadow| == 1
      ensures v.Scalar? ==> value == v && store == WithBox(old(store)) && Intact()
      ensures v.Nodes? ==> State(store, value) == AfterSet(State(old(store), v), v)
      ensures v.Nodes? && !SetMeets(old(store), v.ns) ==> Intact() && SetMade(old(store), store, v.ns, value)
    {
      ghost var st := store;
      WithBoxSound(store);
      var container := LastContainer();
      assert [] + [container] == [container];
      if v.Scalar? {
        value := v;
      } else {
        TakeNodes(st, container, v.ns);
      }
    }

    // slaxMvarGetSvarRoot
    method GetSvarRoot() returns (container: Ref)
      requires Sound(store) && Owned(store)
      modifies `store
      ensures store == if old(store).shadow == [] then WithBox(old(store)) else old(store)
      ensures store.shadow != [] && container == store.shadow[0]
    {
      if store.shadow != [] {
        return store.shadow[0];
      }
      container := store.next;
      store := Store(container + 1, store.content, store.kids[container := []], [container]);
      assert [] + [container] == [container];
    }

    // slaxMvarNewContainer
    method NewContainer() returns (container: Ref)
      requires Sound(store) && Owned(store)
      modifies `store
      ensures store == WithBox(old(store)) && container == old(store).next
    {
      if store.shadow == [] {
        container := GetSvarRoot();
        return;
      }
      container := store.next;
      store := Store(container + 1, store.content, store.kids[container := []], store.shadow + [container]);
    }

    // slaxMvarLastContainer
    method LastContainer() returns (container: Ref)
      requires Sound(store) && Owned(store)
      modifies `store
      ensures store == if old(store).shadow == [] then WithBox(old(store)) else old(store)
      ensures store.shadow != [] && container == store.shadow[|store.shadow| - 1]
    {
      if store.shadow == [] {
        container := GetSvarRoot();
        return;
      }
      container := store.shadow[|store.shadow| - 1];
    }

    // slaxMvarAdd, for a node of the given content
    method AddCopy(container: Ref, content: Content) returns (newp: Ref)
      requires Valid() && container in store.kids
      modifies `store
      ensures newp == old(store).next && store == Hung(old(store), container, content)
    {
      newp := store.next;
      var ks := store.kids[container];
      KidsKnown(store, container);
      if content.text && ks != [] && store.content[ks[|ks| - 1]].text {
        var last := ks[|ks| - 1];
        store := store.(next := newp + 1,
                        content := store.content[last := Content(true, store.content[last].s + content.s)]);
      } else {
        store := Store(newp + 1, store.content[newp := content], store.kids[container := ks + [newp]], store.shadow);
      }
    }

    // Adds a copy of a node behind those of the nodes done.
    method AddNode(ghost was: Store, container: Ref, cur: Ref, ghost done: seq<Ref>) returns (newp: Ref)
      requires Sound(was) && Owned(was) && container in was.kids && cur in was.content
      requires store == HungAll(was, container, done) && AllNodes(was, done)
      modifies `store
      ensures store == HungAll(was, container, done + [cur]) && newp == was.next + |done|
    {
      HungAllOk(was, container, done);
      newp := AddCopy(container, store.content[cur]);
      assert (done + [cur])[..|done|] == done;
    }

    // Adds copies of a tree's children behind those of the nodes done.
    method AddTree(ghost was: Store, container: Ref, tree: Ref, ghost done: seq<Ref>) returns (ids: seq<Ref>)
      requires Sound(was) && Owned(was) && container in was.kids && tree in was.kids
      requires store == HungAll(was, container, done) && AllNodes(was, done)
      requires tree != container || (done == [] && was.kids[tree] == [])
      modifies `store
      ensures store == HungAll(was, container, done + was.kids[tree])
      ensures ids == Fresh(was.next + |done|, |was.kids[tree]|)
    {
      ids := [];
      ghost var all := was.kids[tree];
      TreeAsBefore(was, container, tree, done, all, 0);
      assert done + all[..0] == done;
      var i := 0;
      while i < |store.kids[tree]|
        invariant i <= |all| && tree in store.kids && store.kids[tree] == all
        invariant store == HungAll(was, container, done + all[..i]) && ids == Fresh(was.next + |done|, i)
        decreases |all| - i
      {
        TreeStep(was, container, tree, done, all, i);
        var newp := AddNode(was, container, store.kids[tree][i], done + all[..i]);
        ids := ids + [newp];
        i := i + 1;
      }
      assert all[..i] == all;
    }

    // The next node of a set, or the children of the next tree, after which nothing is looked at.
    method AddNext(ghost was: Store, container: Ref, ns: seq<Ref>, i: nat) returns (more: seq<Ref>, stop: bool)
      requires Sound(was) && Owned(was) && container in was.kids && AllKnown(was, ns)
      requires i < |ns| && i <= FirstTree(was, ns)
      requires store == HungAll(was, container, ns[..i]) && AllNodes(was, ns[..i])
      requires !IntoItself(was, Val(Nodes(ns)), container)
      modifies `store
      ensures stop <==> i == FirstTree(was, ns)
      ensures stop ==> store == HungAll(was, container, Source(was, ns)) && |Source(was, ns)| == i + |more|
      ensures !stop ==> store == HungAll(was, container, ns[..i + 1]) && AllNodes(was, ns[..i + 1]) && |more| == 1
      ensures more == Fresh(was.next + i, |more|)
    {
      NextNode(was, container, ns, i);
      HungTrees(was, container, ns[..i]);
      var cur := ns[i];
      if cur in store.kids {
        more := AddTree(was, container, cur, ns[..i]);
        stop := true;
      } else {
        var newp := AddNode(was, container, cur, ns[..i]);
        more := [newp];
        stop := false;
      }
    }

    /** slaxMvarCloneNodeset without a limit: the copies, and what the new set of nodes consists of. */
    method CloneNodeset(container: Ref, ns: seq<Ref>) returns (res: seq<Ref>)
      requires Valid() && container in store.kids && AllKnown(store, ns)
      requires !IntoItself(store, Val(Nodes(ns)), container)
      modifies `store
      ensures store == HungAll(old(store), container, Source(old(store), ns))
      ensures var n := FirstTree(old(store), ns);
        res == Fresh(old(store).next, n) + if n < |ns| then [container] else []
    {
      ghost var was := store;
      assert ns[..0] == [];
      res := [];
      for i := 0 to |ns|
        invariant i <= FirstTree(was, ns) && store == HungAll(was, container, ns[..i]) && AllNodes(was, ns[..i])
        invariant res == Fresh(was.next, i)
      {
        var more, stop := AddNext(was, container, ns, i);
        if stop {
          res := res + [container];
          return;
        }
        FreshJoin(was.next, i, 1);
        res := res + more;
      }
      SourceAll(was, ns);
    }

    // The loop of slaxMvarAppend over a set of nodes.
    method AddNodes(container: Ref, ns: seq<Ref>) returns (ids: seq<Ref>)
      requires Valid() && container in store.kids && AllKnown(store, ns)
      requires !IntoItself(store, Val(Nodes(ns)), container)
      modifies `store
      ensures store == HungAll(old(store), container, Source(old(store), ns))
      ensures ids == Fresh(old(store).next, |Source(old(store), ns)|)
    {
      ghost var was := store;
      assert ns[..0] == [];
      ids := [];
      for i := 0 to |ns|
        invariant i <= FirstTree(was, ns) && store == HungAll(was, container, ns[..i]) && AllNodes(was, ns[..i])
        invariant ids == Fresh(was.next, i)
      {
        var more, stop := AddNext(was, container, ns, i);
        FreshJoin(was.next, i, |more|);
        ids := ids + more;
        if stop { return; }
      }
      SourceAll(was, ns);
    }

    // Copies of some nodes, in a container that was just made.
    method FillBox(ghost st: Store, container: Ref, ns: seq<Ref>) returns (res: seq<Ref>)
      requires Sound(st) && Owned(st) && AllKnown(st, ns) && store == WithBox(st) && container == st.next
      modifies `store
      ensures State(store, Nodes(res)) == WithNodes(st, ns)
    {
      WithBoxSound(st);
      BoxReady(st, ns);
      res := CloneNodeset(container, ns);
    }

    // The variable's value becomes copies of some nodes, in a container that was just made.
    method TakeNodes(ghost st: Store, container: Ref, ns: seq<Ref>)
      requires Sound(st) && Owned(st) && AllKnown(st, ns) && store == WithBox(st) && container == st.next
      modifies this
      ensures Valid() && Grows(st, store) && store.shadow == st.shadow + [container]
      ensures !SetMeets(st, ns) ==> Intact() && SetMade(st, store, ns, value)
      ensures State(store, value) == WithNodes(st, ns)
    {
      SetTakes(st, ns);
      var res := FillBox(st, container, ns);
      value := Nodes(res);
    }

    /** slaxMvarSet; where texts meet among the nodes of the value, the store is only known to grow. */
    method Set(v: Value)
      requires Valid() && AllKnown(store, NodesOf(v))
      modifies this
      ensures Valid() && Grows(old(store), store)
      ensures v.Scalar? ==> value == v && store == old(store)
      ensures v.Nodes? && !SetMeets(old(store), v.ns) ==> Intact() && SetMade(old(store), store, v.ns, value)
      ensures State(store, value) == AfterSet(old(State(store, value)), v)
    {
      if v.Nodes? {
        ghost var st := store;
        var container := NewContainer();
        TakeNodes(st, container, v.ns);
      } else {
        value := v;
      }
    }

    // A text element for a scalar; none for an empty string.
    method AddText(container: Ref, s: string) returns (ids: seq<Ref>)
      requires Valid() && container in store.kids
      modifies `store
      ensures ArgAdded(old(store), store, container, ids, Val(Scalar(s)))
      ensures store == Grown(old(store), container, Val(Scalar(s))) && ids == NewIds(old(store), Val(Scalar(s)))
    {
      ghost var was := store;
      if s == "" {
        NothingAdded(store, container, Val(Scalar(s)));
        return [];
      }
      var newp := AddCopy(container, TextElt(s));
      TextAdded(was, container, s);
      return [newp];
    }

    // Copies of all children of a tree.
    method AddBlock(container: Ref, t: Ref) returns (ids: seq<Ref>)
      requires Valid() && container in store.kids && t in store.kids && t != container
      modifies `store
      ensures store == Grown(old(store), container, Block(t)) && ids == NewIds(old(store), Block(t))
    {
      Seqs.NoChange(store.kids[t]);
      ids := AddTree(store, container, t, []);
    }

    // Copies of the nodes of a set.
    method AddSet(container: Ref, ns: seq<Ref>) returns (ids: seq<Ref>)
      requires Valid() && container in store.kids && AllKnown(store, ns)
      requires !IntoItself(store, Val(Nodes(ns)), container)
      modifies `store
      ensures store == Grown(old(store), container, Val(Nodes(ns))) && ids == NewIds(old(store), Val(Nodes(ns)))
    {
      ids := AddNodes(container, ns);
    }

    // Whatever an argument stands for.
    method AddArg(container: Ref, arg: Arg) returns (ids: seq<Ref>)
      requires Valid() && container in store.kids && ArgKnown(store, arg)
      requires !IntoItself(store, arg, container)
      modifies `store
      ensures Valid() && Grows(old(store), store)
      ensures !ArgMeets(old(store), container, arg) ==> ArgAdded(old(store), store, container, ids, arg)
      ensures store == Grown(old(store), container, arg) && ids == NewIds(old(store), arg)
    {
      GrownKeeps(store, container, arg);
      if !ArgMeets(store, container, arg) {
        GrownAdds(store, container, arg);
      }
      match arg {
        case Val(Scalar(s)) => ids := AddText(container, s);
        case Val(Nodes(ns)) => ids := AddSet(container, ns);
        case Block(t) => ids := AddBlock(container, t);
      }
    }

    /**
      slaxMvarAppend: scalars are joined; otherwise the contents of the argument come behind those the
      variable had, a scalar that was there being dropped, if no texts meet there.
     */
    method Append(arg: Arg)
      requires Valid() && ArgKnown(store, arg) && !FeedsItself(store, arg)
      modifies this
      ensures Valid() && Grows(old(store), store)
      ensures old(value).Scalar? && arg.Val? && arg.v.Scalar? ==>
        store == old(store) && value == Scalar(old(value).s + arg.v.s)
      ensures !(old(value).Scalar? && arg.Val? && arg.v.Scalar?) && old(Intact()) && !AppendMeets(old(store), arg) ==>
        Intact() && AppendMade(old(store), old(value), store, value, arg)
      ensures State(store, value) == AfterAppend(old(State(store, value)), arg)
    {
      if value.Scalar? && arg.Val? && arg.v.Scalar? {
        value := Scalar(value.s + arg.v.s);
      } else {
        AppendNodes(arg);
      }
    }

    // Anything but a string to a string.
    method AppendNodes(arg: Arg)
      requires Valid() && ArgKnown(store, arg) && !FeedsItself(store, arg)
      requires !(value.Scalar? && arg.Val? && arg.v.Scalar?)
      modifies this
      ensures State(store, value) == AfterAppend(old(State(store, value)), arg)
      ensures AppendOk(old(State(store, value)), State(store, value), arg)
    {
      ghost var was := State(store, value);
      AppendDoes(was, arg);
      var res := if value.Scalar? then [] else value.ns;
      var container, ids := Grow(arg);
      value := Nodes(if container in res then res else res + ids);
      AppendIs(was, arg, Boxed(was.store), container);
      assert State(store, value) == AfterAppend(was, arg);
    }

    // Adds what an argument stands for to the last container.
    method Grow(arg: Arg) returns (container: Ref, ids: seq<Ref>)
      requires Valid() && ArgKnown(store, arg) && !FeedsItself(store, arg)
      modifies `store
      ensures var box := Boxed(old(store));
        && box.shadow != [] && container == box.shadow[|box.shadow| - 1]
        && store == Grown(box, container, arg) && ids == NewIds(box, arg)
    {
      BoxKeeps(store, arg);
      container := LastContainer();
      ids := AddArg(container, arg);
    }
  }

  // Nothing is amiss but that a value may list copies that became part of a text.
  ghost predicate Stored(s: State) {
    Sound(s.store) && Owned(s.store)
  }

  ghost predicate Good(s: State) {
    Sound(s.store) && Owned(s.store) && Held(s.store, s.value)
  }

  // The container that an argument is copied into.
  lemma {:induction false} BoxTakes(st: Store, arg: Arg) returns (box: Store, container: Ref)
    requires Sound(st) && Owned(st) && ArgKnown(st, arg) && !FeedsItself(st, arg)
    ensures box == Boxed(st) && box.shadow != [] && container == box.shadow[|box.shadow| - 1]
    ensures Sound(box) && Owned(box) && Grows(st, box) && ArgKnown(box, arg) && container in box.kids
  {
    BoxKeeps(st, arg);
    box := Boxed(st);
    container := box.shadow[|box.shadow| - 1];
    assert container in box.shadow;
  }

  lemma {:induction false} BoxGrown(st: Store, arg: Arg) returns (box: Store, container: Ref, now: Store)
    requires Sound(st) && Owned(st) && ArgKnown(st, arg) && !FeedsItself(st, arg)
    ensures box == Boxed(st) && box.shadow != [] && container == box.shadow[|box.shadow| - 1]
    ensures now == Grown(box, container, arg) && Sound(now) && Owned(now) && Grows(st, now)
  {
    box, container := BoxTakes(st, arg);
    GrownKeeps(box, container, arg);
    now := Grown(box, container, arg);
    GrowsTrans(st, box, now);
  }

  lemma {:induction false} BoxAdds(st: Store, arg: Arg) returns (box: Store, container: Ref, now: Store)
    requires Sound(st) && Owned(st) && ArgKnown(st, arg) && !FeedsItself(st, arg) && !AppendMeets(st, arg)
    ensures box == Boxed(st) && box.shadow != [] && container == box.shadow[|box.shadow| - 1]
    ensures now == Grown(box, container, arg) && ArgAdded(box, now, container, NewIds(box, arg), arg)
  {
    box, container := BoxTakes(st, arg);
    GrownAdds(box, container, arg);
    now := Grown(box, container, arg);
  }

  // Anything but a string to a string goes to the last container, and to the value unless that is in it.
  lemma {:induction false} AppendIs(was: State, arg: Arg, box: Store, container: Ref)
    requires box == Boxed(was.store) && box.shadow != [] && container == box.shadow[|box.shadow| - 1]
    requires !(was.value.Scalar? && arg.Val? && arg.v.Scalar?)
    ensures AfterAppend(was, arg) ==
      State(Grown(box, container, arg), Nodes(Appended(NodesOf(was.value), container, NewIds(box, arg))))
  {
  }

  lemma {:induction false} AppendKeeps(was: State, arg: Arg)
    requires Stored(was) && ArgKnown(was.store, arg) && !FeedsItself(was.store, arg)
    ensures Stored(AfterAppend(was, arg)) && Grows(was.store, AfterAppend(was, arg).store)
  {
    if !(was.value.Scalar? && arg.Val? && arg.v.Scalar?) {
      var box, container, grown := BoxGrown(was.store, arg);
      AppendIs(was, arg, box, container);
      SameStored(was.store, AfterAppend(was, arg), grown);
    }
  }

  lemma {:induction false} SameStored(st: Store, now: State, grown: Store)
    requires now.store == grown && Sound(grown) && Owned(grown) && Grows(st, grown)
    ensures Stored(now) && Grows(st, now.store)
  {
  }

  // What is left and what is made, by an argument that is not joined to a string.
  ghost predicate AppendOk(was: State, now: State, arg: Arg) {
    && Stored(now) && Grows(was.store, now.store) && now.value.Nodes?
    && (Held(was.store, was.value) && !AppendMeets(was.store, arg) ==>
          Held(now.store, now.value) && AppendMade(was.store, was.value, now.store, now.value, arg))
  }

  lemma {:induction false} AppendDoes(was: State, arg: Arg)
    requires Stored(was) && ArgKnown(was.store, arg) && !FeedsItself(was.store, arg)
    requires !(was.value.Scalar? && arg.Val? && arg.v.Scalar?)
    ensures AppendOk(was, AfterAppend(was, arg), arg)
  {
    AppendKeeps(was, arg);
    var box, container, _ := BoxGrown(was.store, arg);
    AppendIs(was, arg, box, container);
    if Held(was.store, was.value) && !AppendMeets(was.store, arg) {
      AppendMeans(was, arg);
    }
  }

  /** Appending nodes, or to nodes: the listing is the old one and the argument's nodes, and nothing is lost. */
  lemma {:induction false} AppendMeans(was: State, arg: Arg)
    requires Good(was) && ArgKnown(was.store, arg) && !FeedsItself(was.store, arg) && !AppendMeets(was.store, arg)
    requires !(was.value.Scalar? && arg.Val? && arg.v.Scalar?)
    ensures var now := AfterAppend(was, arg); Good(now) && AppendMade(was.store, was.value, now.store, now.value, arg)
  {
    var before := NodesOf(was.value);
    var box, container, now := BoxAdds(was.store, arg);
    var ids := NewIds(box, arg);
    AppendResult(was.store, now, container, before, ids, arg);
    AppendIs(was, arg, box, container);
    assert AfterAppend(was, arg) == State(now, Nodes(Appended(before, container, ids)));
  }

  lemma {:induction false} SetTakes(st: Store, ns: seq<Ref>)
    requires Sound(st) && Owned(st) && AllKnown(st, ns)
    ensures var now := WithNodes(st, ns);
      && Stored(now) && Grows(st, now.store) && now.store.shadow == st.shadow + [st.next]
      && (!SetMeets(st, ns) ==> Good(now) && SetMade(st, now.store, ns, now.value))
  {
    SetKeeps(st, ns);
    if !SetMeets(st, ns) {
      SetTakesWhole(st, ns, WithNodes(st, ns).store, WithNodes(st, ns).value.ns);
    }
  }

  lemma {:induction false} SetTakesWhole(st: Store, ns: seq<Ref>, now: Store, res: seq<Ref>)
    requires Sound(st) && Owned(st) && AllKnown(st, ns) && !SetMeets(st, ns)
    requires now == HungAll(WithBox(st), st.next, Source(st, ns))
    requires var n := FirstTree(st, ns); res == Fresh(st.next + 1, n) + if n < |ns| then [st.next] else []
    ensures Held(now, Nodes(res)) && SetMade(st, now, ns, Nodes(res))
  {
    SetClean(st, ns);
    SetState(st, now, ns, res);
  }

  lemma {:induction false} SetKeeps(st: Store, ns: seq<Ref>)
    requires Sound(st) && Owned(st) && AllKnown(st, ns)
    ensures var m := HungAll(WithBox(st), st.next, Source(st, ns));
      Sound(m) && Owned(m) && Grows(st, m) && m.shadow == st.shadow + [st.next]
  {
    WithBoxSound(st);
    SourceOk(st, ns);
    HungAllOk(WithBox(st), st.next, Source(st, ns));
    GrowsTrans(st, WithBox(st), HungAll(WithBox(st), st.next, Source(st, ns)));
  }

  lemma {:induction false} SetClean(st: Store, ns: seq<Ref>)
    requires Sound(st) && Owned(st) && AllKnown(st, ns) && !SetMeets(st, ns)
    ensures HungAll(WithBox(st), st.next, Source(st, ns)) == Copied(WithBox(st), st.next, Source(st, ns))
  {
    WithBoxSound(st);
    SourceOk(st, ns);
    OneByOneIff(WithBox(st), st.next, Source(st, ns));
  }

  // What the i-th node of a set is copied as.
  lemma {:induction false} NextNode(st: Store, container: Ref, ns: seq<Ref>, i: nat)
    requires Sound(st) && AllKnown(st, ns) && i < |ns| && i <= FirstTree(st, ns) && AllNodes(st, ns[..i])
    requires container in st.kids && !IntoItself(st, Val(Nodes(ns)), container)
    ensures Tree(st, ns[i]) <==> i == FirstTree(st, ns)
    ensures Tree(st, ns[i]) ==>
      && Source(st, ns) == ns[..i] + st.kids[ns[i]]
      && (ns[i] != container || (ns[..i] == [] && st.kids[ns[i]] == []))
    ensures !Tree(st, ns[i]) ==> ns[i] in st.content && ns[..i + 1] == ns[..i] + [ns[i]] && AllNodes(st, ns[..i + 1])
  {
    FirstTreeIs(st, ns, 0);
    assert Known(st, ns[i]);
  }

  lemma {:induction false} KidsKnown(st: Store, t: Ref)
    requires Sound(st) && t in st.kids
    ensures AllNodes(st, st.kids[t]) && forall r :: r in st.kids[t] ==> r in st.content
  {
    assert forall k :: 0 <= k < |st.kids[t]| ==> st.kids[t][k] in st.content;
  }

  // The store once there is a container to append to.
  function Boxed(st: Store): Store {
    if st.shadow == [] then WithBox(st) else st
  }

  lemma {:induction false} BoxKeeps(st: Store, arg: Arg)
    requires Sound(st) && Owned(st) && ArgKnown(st, arg) && !FeedsItself(st, arg)
    ensures var box := Boxed(st);
      && Sound(box) && Owned(box) && Extends(st, box) && box.shadow != [] && ArgKnown(box, arg)
      && !IntoItself(box, arg, box.shadow[|box.shadow| - 1]) && Addition(box, arg) == Addition(st, arg)
  {
    if st.shadow == [] {
      WithBoxSound(st);
      match arg {
        case Val(Scalar(_)) =>
        case Val(Nodes(ns)) =>
          SourceSame(st, ns);
          FirstTreeSame(st, ns, 0);
          SourceOk(st, ns);
          ContentsKept(st, WithBox(st), Source(st, ns));
        case Block(t) =>
          KidsKnown(st, t);
          ContentsKept(st, WithBox(st), st.kids[t]);
      }
    }
  }

  // A value that is held has no tree but a last container at its end.
  lemma {:induction false} HeldListing(st: Store, ns: seq<Ref>)
    requires Sound(st) && Held(st, Nodes(ns))
    ensures ns == [] || (st.shadow != [] && ns[|ns| - 1] == st.shadow[|st.shadow| - 1])
      || forall k :: 0 <= k < |ns| ==> !Tree(st, ns[k])
    ensures st.shadow == [] ==> ns == []
    ensures ns != [] ==> forall k :: 0 <= k < |ns| - 1 ==> !Tree(st, ns[k])
    ensures forall k :: 0 <= k < |ns| ==> Known(st, ns[k])
  {
    if ns != [] {
      assert ns[0] in ns && Shadowed(st, ns[0]);
      assert forall k :: 0 <= k < |ns| ==> ns[k] in ns;
    }
  }

  lemma {:induction false} ListingOf(st: Store, ns: seq<Ref>)
    requires ns != [] ==> forall k :: 0 <= k < |ns| - 1 ==> !Tree(st, ns[k])
    ensures Listing(st, ns) ==
      if ns == [] then []
      else ns[..|ns| - 1] + if Tree(st, ns[|ns| - 1]) then st.kids[ns[|ns| - 1]] else [ns[|ns| - 1]]
  {
    if ns != [] {
      var init, r := ns[..|ns| - 1], ns[|ns| - 1];
      assert ns == init + [r];
      forall x | x in init ensures !Tree(st, x) {
        var k :| 0 <= k < |init| && init[k] == x;
        assert ns[k] == x;
      }
      ListingPlain(st, init);
      ListingSnoc(st, init, r);
    }
  }

  // A new container changes nothing about other trees.
  lemma {:induction false} SourceSame(st: Store, ns: seq<Ref>)
    requires Sound(st) && AllKnown(st, ns)
    ensures Source(WithBox(st), ns) == Source(st, ns) && FirstTree(WithBox(st), ns) == FirstTree(st, ns)
  {
    FirstTreeSame(st, ns, 0);
  }

  lemma {:induction false} FirstTreeSame(st: Store, ns: seq<Ref>, i: nat)
    requires Sound(st) && AllKnown(st, ns) && i <= |ns|
    ensures FirstTreeFrom(WithBox(st), ns, i) == FirstTreeFrom(st, ns, i)
    ensures var n := FirstTreeFrom(st, ns, i); n < |ns| ==> ns[n] in st.kids && ns[n] != st.next
    decreases |ns| - i
  {
    if i < |ns| {
      assert Known(st, ns[i]);
      if !Tree(st, ns[i]) { FirstTreeSame(st, ns, i + 1); }
    }
  }

  // A new container is ready to take copies.
  lemma {:induction false} BoxReady(st: Store, ns: seq<Ref>)
    requires Sound(st) && Owned(st) && AllKnown(st, ns)
    ensures var box := WithBox(st);
      && Sound(box) && st.next in box.kids && AllKnown(box, ns) && !IntoItself(box, Val(Nodes(ns)), st.next)
      && Source(box, ns) == Source(st, ns) && FirstTree(box, ns) == FirstTree(st, ns)
  {
    WithBoxSound(st);
    SourceSame(st, ns);
    FirstTreeSame(st, ns, 0);
    assert forall k :: 0 <= k < |ns| ==> Known(st, ns[k]);
  }

  lemma {:induction false} ExtendsTrans(a: Store, b: Store, c: Store)
    requires Extends(a, b) && Extends(b, c)
    ensures Extends(a, c)
  {
  }

  // A tree that is not copied into, or has no children, stays as it is.
  lemma {:induction false} TreeAsBefore(was: Store, container: Ref, tree: Ref, done: seq<Ref>, all: seq<Ref>, i: nat)
    requires Sound(was) && Owned(was) && container in was.kids && tree in was.kids
    requires all == was.kids[tree] && i <= |all|
    requires AllNodes(was, done)
    requires tree != container || (done == [] && all == [])
    ensures var st := HungAll(was, container, done + all[..i]); tree in st.kids && st.kids[tree] == all
    ensures AllNodes(was, done + all[..i])
  {
    KidsKnown(was, tree);
    HungAllOk(was, container, done + all[..i]);
    if tree == container {
      assert done + all[..i] == [];
    }
  }

  lemma {:induction false} TreeStep(was: Store, container: Ref, tree: Ref, done: seq<Ref>, all: seq<Ref>, i: nat)
    requires Sound(was) && Owned(was) && container in was.kids && tree in was.kids && all == was.kids[tree] && i < |all|
    requires AllNodes(was, done)
    requires tree != container || (done == [] && all == [])
    ensures all[i] in was.content && AllNodes(was, done + all[..i])
    ensures done + all[..i + 1] == done + all[..i] + [all[i]]
    ensures var st := HungAll(was, container, done + all[..i + 1]); tree in st.kids && st.kids[tree] == all
    ensures Fresh(was.next + |done|, i + 1) == Fresh(was.next + |done|, i) + [was.next + |done + all[..i]|]
  {
    KidsKnown(was, tree);
    assert all[..i + 1] == all[..i] + [all[i]];
    Seqs.Assoc(done, all[..i], [all[i]]);
    TreeAsBefore(was, container, tree, done, all, i);
    TreeAsBefore(was, container, tree, done, all, i + 1);
    FreshMore(was.next + |done|, i);
  }

  lemma {:induction false} FreshMore(from: Ref, n: nat)
    ensures Fresh(from, n + 1) == Fresh(from, n) + [from + n]
  {
  }

  lemma {:induction false} FreshJoin(from: Ref, m: nat, n: nat)
    ensures Fresh(from, m + n) == Fresh(from, m) + Fresh(from + m, n)
  {
  }

  lemma {:induction false} FreshFront(from: Ref, m: nat, n: nat)
    requires n <= m
    ensures Fresh(from, m)[..n] == Fresh(from, n) && (n == m ==> Fresh(from, m)[..n] == Fresh(from, m))
  {
  }

  // What was cloned into a new container.
  lemma {:induction false} SetState(st: Store, now: Store, ns: seq<Ref>, res: seq<Ref>)
    requires Sound(st) && Owned(st) && AllKnown(st, ns)
    requires now == Copied(WithBox(st), st.next, Source(st, ns))
    requires var n := FirstTree(st, ns); res == Fresh(st.next + 1, n) + if n < |ns| then [st.next] else []
    ensures Sound(now) && Owned(now) && Extends(st, now) && Held(now, Nodes(res)) && now.shadow == st.shadow + [st.next]
    ensures st.next in now.kids && Contents(now, now.kids[st.next]) == Contents(st, Source(st, ns))
    ensures var n := FirstTree(st, ns); var ks := now.kids[st.next];
      n <= |ks| && res == if n == |ns| then ks else ks[..n] + [st.next]
  {
    WithBoxSound(st);
    SourceOk(st, ns);
    CopiedIsAdded(WithBox(st), st.next, Source(st, ns));
    SetSound(st, now, Source(st, ns));
    SetResult(st, now, ns, res);
    SetHeld(now, st.next, FirstTree(st, ns), res);
  }

  lemma {:induction false} SetResult(st: Store, now: Store, ns: seq<Ref>, res: seq<Ref>)
    requires Sound(st) && Owned(st) && AllKnown(st, ns)
    requires Added(WithBox(st), now, st.next, Source(st, ns))
    requires var n := FirstTree(st, ns); res == Fresh(st.next + 1, n) + if n < |ns| then [st.next] else []
    ensures st.next in now.kids && Contents(now, now.kids[st.next]) == Contents(st, Source(st, ns))
    ensures var n := FirstTree(st, ns); var ks := now.kids[st.next];
      n <= |ks| && res == if n == |ns| then ks else ks[..n] + [st.next]
  {
    WithBoxSound(st);
    SetContents(st, WithBox(st), now, Source(st, ns), ns);
    SetShape(st, ns, res);
  }

  lemma {:induction false} SetSound(st: Store, now: Store, rs: seq<Ref>)
    requires Sound(st) && Owned(st) && Added(WithBox(st), now, st.next, rs)
    ensures Sound(now) && Owned(now) && Extends(st, now)
  {
    WithBoxSound(st);
    AddedSound(WithBox(st), now, st.next, rs);
    ExtendsTrans(st, WithBox(st), now);
  }

  lemma {:induction false} SetShape(st: Store, ns: seq<Ref>, res: seq<Ref>)
    requires var n := FirstTree(st, ns); res == Fresh(st.next + 1, n) + if n < |ns| then [st.next] else []
    ensures var n := FirstTree(st, ns); var ids := Fresh(st.next + 1, |Source(st, ns)|);
      n <= |ids| && res == if n == |ns| then ids else ids[..n] + [st.next]
  {
    var n := FirstTree(st, ns);
    FreshFront(st.next + 1, |Source(st, ns)|, n);
    assert res + [] == res;
  }

  lemma {:induction false} SetContents(st: Store, box: Store, now: Store, rs: seq<Ref>, ns: seq<Ref>)
    requires Sound(st) && AllKnown(st, ns) && rs == Source(st, ns)
    requires box == WithBox(st) && Sound(box) && Extends(st, box)
    requires Added(box, now, st.next, rs)
    ensures now.kids[st.next] == Fresh(box.next, |rs|) && Contents(now, Fresh(box.next, |rs|)) == Contents(st, rs)
  {
    SourceOk(st, ns);
    AddedContents(box, now, st.next, rs);
    ContentsKept(st, box, rs);
    assert [] + Fresh(box.next, |rs|) == Fresh(box.next, |rs|);
  }

  lemma {:induction false} SetHeld(st: Store, c: Ref, n: nat, res: seq<Ref>)
    requires Sound(st) && c in st.shadow && c == st.shadow[|st.shadow| - 1] && n <= |st.kids[c]|
    requires res == st.kids[c] || res == st.kids[c][..n] + [c]
    ensures Held(st, Nodes(res))
  {
    KidsKnown(st, c);
    assert forall k :: 0 <= k < |st.kids[c]| ==> st.kids[c][k] in st.content && !Tree(st, st.kids[c][k]);
    assert forall k :: 0 <= k < |res| && k < n ==> res[k] == st.kids[c][k];
    forall r | r in res ensures Shadowed(st, r) && Known(st, r) {
      assert r == c || r in st.kids[c];
    }
  }

  // A set of nodes after the nodes ids were added to its last container.
  function Appended(before: seq<Ref>, container: Ref, ids: seq<Ref>): seq<Ref> {
    if container in before then before else before + ids
  }

  lemma {:induction false} AppendListing(was: Store, now: Store, container: Ref, before: seq<Ref>,
                                         ids: seq<Ref>, arg: Arg)
    requires Sound(was) && Held(was, Nodes(before)) && Boxed(was).shadow != []
    requires container == Boxed(was).shadow[|Boxed(was).shadow| - 1] && ArgAdded(Boxed(was), now, container, ids, arg)
    ensures Listing(now, Appended(before, container, ids)) == Listing(was, before) + ids
    ensures forall r :: r in Listing(was, before) ==> r in was.content
  {
    HeldListing(was, before);
    ListingOf(was, before);
    if container in before {
      ListingPresent(was, now, container, before, ids, arg);
    } else {
      ListingAbsent(was, now, container, before, ids, arg);
    }
  }

  lemma {:induction false} ListingPresent(was: Store, now: Store, container: Ref, before: seq<Ref>,
                                          ids: seq<Ref>, arg: Arg)
    requires Sound(was) && Held(was, Nodes(before)) && Boxed(was).shadow != [] && container in before
    requires container == Boxed(was).shadow[|Boxed(was).shadow| - 1] && ArgAdded(Boxed(was), now, container, ids, arg)
    ensures Listing(now, before) == Listing(was, before) + ids
    ensures forall r :: r in Listing(was, before) ==> r in was.content
  {
    HeldListing(was, before);
    var n := |before| - 1;
    var k :| 0 <= k <= n && before[k] == container;
    assert was.shadow != [] && Tree(was, container) by { assert container in was.shadow; }
    assert k == n;
    ListingOf(was, before);
    ListingOf(now, before);
    KidsKnown(was, container);
    assert forall i :: 0 <= i < n ==> before[i] in was.content;
    Seqs.Assoc(before[..n], was.kids[container], ids);
  }

  lemma {:induction false} ListingAbsent(was: Store, now: Store, container: Ref, before: seq<Ref>,
                                         ids: seq<Ref>, arg: Arg)
    requires Sound(was) && Held(was, Nodes(before)) && Boxed(was).shadow != [] && container !in before
    requires container == Boxed(was).shadow[|Boxed(was).shadow| - 1] && ArgAdded(Boxed(was), now, container, ids, arg)
    ensures Listing(now, before + ids) == Listing(was, before) + ids
    ensures forall r :: r in Listing(was, before) ==> r in was.content
  {
    HeldListing(was, before);
    forall r | r in before ensures r in was.content {
      var k :| 0 <= k < |before| && before[k] == r;
      assert Known(was, before[k]) && !Tree(was, before[k]);
    }
    ListingPlain(was, before);
    var box := Boxed(was);
    forall r | r in before + ids ensures !Tree(now, r) {
      if r !in before {
        var k :| 0 <= k < |ids| && ids[k] == r;
        assert now.kids[container][|box.kids[container]| + k] == r;
      }
    }
    ListingPlain(now, before + ids);
  }

  lemma {:induction false} AppendResult(was: Store, now: Store, container: Ref, before: seq<Ref>, ids: seq<Ref>,
                                        arg: Arg)
    requires Sound(was) && Owned(was) && Held(was, Nodes(before)) && ArgKnown(was, arg) && !FeedsItself(was, arg)
    requires Boxed(was).shadow != [] && container == Boxed(was).shadow[|Boxed(was).shadow| - 1]
    requires ArgAdded(Boxed(was), now, container, ids, arg)
    ensures var res := Appended(before, container, ids);
      && Extends(was, now) && Held(now, Nodes(res))
      && Contents(now, Listing(now, res)) == Contents(was, Listing(was, before)) + Addition(was, arg)
      && (Distinct(Listing(was, before)) ==> Distinct(Listing(now, res)))
  {
    var pre := Listing(was, before);
    BoxKeeps(was, arg);
    ExtendsTrans(was, Boxed(was), now);
    AppendListing(was, now, container, before, ids, arg);
    ContentsConcat(now, pre, ids);
    ContentsKept(was, now, pre);
    forall k | 0 <= k < |pre| ensures pre[k] < was.next {
      assert pre[k] in pre && pre[k] in was.content;
    }
    AppendHeld(was, now, container, before, ids, arg);
  }

  lemma {:induction false} AppendHeld(was: Store, now: Store, container: Ref, before: seq<Ref>, ids: seq<Ref>,
                                      arg: Arg)
    requires Sound(was) && Held(was, Nodes(before)) && Extends(was, now)
    requires Boxed(was).shadow != [] && container == Boxed(was).shadow[|Boxed(was).shadow| - 1]
    requires ArgAdded(Boxed(was), now, container, ids, arg)
    ensures Held(now, Nodes(Appended(before, container, ids)))
  {
    var res := Appended(before, container, ids);
    HeldListing(was, before);
    forall r | r in res ensures Shadowed(now, r) && Known(now, r) {
      if r in before {
        StillShadowed(was, now, r);
      } else {
        assert r in now.kids[container];
        KidsKnown(now, container);
      }
    }
    forall k | 0 <= k < |res| && Tree(now, res[k])
      ensures k == |res| - 1 && res[k] == now.shadow[|now.shadow| - 1]
    {
      if k < |before| {
        assert res[k] == before[k] && Known(was, before[k]);
      } else {
        assert res[k] in now.kids[container];
        KidsKnown(now, container);
      }
    }
  }

  lemma {:induction false} StillShadowed(was: Store, now: Store, r: Ref)
    requires Sound(was) && Extends(was, now) && Shadowed(was, r) && Known(was, r)
    ensures Shadowed(now, r) && Known(now, r)
  {
    if r in was.shadow {
      var k :| 0 <= k < |was.shadow| && was.shadow[k] == r;
      assert now.shadow[k] == r;
    } else {
      var c :| c in was.shadow && c in was.kids && r in was.kids[c];
      var k :| 0 <= k < |was.shadow| && was.shadow[k] == c;
      assert now.shadow[k] == c;
      var j :| 0 <= j < |was.kids[c]| && was.kids[c][j] == r;
      assert now.kids[c][j] == r;
    }
  }

  // ----- over whole runs

  /** A node set that was just set lists no copy twice exactly if no node stood before a tree in it. */
  lemma {:induction false} SetListedOnce(st: Store, c: Ref, n: nat, res: seq<Ref>)
    requires Sound(st) && Owned(st) && c in st.kids && n <= |st.kids[c]|
    requires res == st.kids[c] || res == st.kids[c][..n] + [c]
    ensures Distinct(Listing(st, res)) <==> res == st.kids[c] || n == 0
  {
    var ks := st.kids[c];
    KidsKnown(st, c);
    forall i, k | 0 <= i < k < |ks| ensures ks[i] != ks[k] {
      assert OwnedAt(st, c, i, c, k);
    }
    if res == ks {
      assert forall r :: r in ks ==> !Tree(st, r);
      ListingPlain(st, ks);
    } else {
      assert forall k :: 0 <= k < n ==> res[k] == ks[k] && ks[k] in st.content;
      ListingOf(st, res);
      assert res[..|res| - 1] == ks[..n];
      var all := ks[..n] + ks;
      assert Listing(st, res) == all;
      if n > 0 {
        assert all[0] == all[n];
      } else {
        assert all == ks;
        ContainerIsNoKid(st, c);
      }
    }
  }

  lemma {:induction false} ContainerIsNoKid(st: Store, c: Ref)
    requires Sound(st) && c in st.kids
    ensures c !in st.kids[c]
  {
    KidsKnown(st, c);
  }

  // Successive states of a variable; in between, other parts of the program may have made nodes of their own.
  predicate History(states: seq<State>) {
    && (forall k :: 0 <= k < |states| ==> Sound(states[k].store) && Held(states[k].store, states[k].value))
    && (forall k :: 0 <= k < |states| - 1 ==> Extends(states[k].store, states[k + 1].store))
  }

  lemma {:induction false} HistoryExtends(states: seq<State>, i: nat, k: nat)
    requires History(states) && i <= k < |states|
    ensures Extends(states[i].store, states[k].store)
    decreases k
  {
    if i < k {
      HistoryExtends(states, i, k - 1);
      assert Extends(states[k - 1].store, states[k - 1 + 1].store);
      ExtendsTrans(states[i].store, states[k - 1].store, states[k].store);
    }
  }

  /**
    A reference into any value the variable ever had stays good: the node is still in a container, reads as
    it did, and a container has lost none of its children.
   */
  lemma {:induction false} HistoryKept(states: seq<State>, i: nat, k: nat, r: Ref)
    requires History(states) && i <= k < |states| && r in NodesOf(states[i].value)
    ensures var was, now := states[i].store, states[k].store;
      && Shadowed(now, r) && Known(now, r)
      && (r in was.content ==> r in now.content && now.content[r] == was.content[r])
      && (r in was.kids ==> r in now.kids && was.kids[r] <= now.kids[r])
  {
    HistoryExtends(states, i, k);
    assert Held(states[i].store, states[i].value);
    StillShadowed(states[i].store, states[k].store, r);
  }

  // ----- runs

  // What happens to a variable, one thing after another; in between, other parts of the program make nodes of
  // their own.
  datatype Op = SetTo(v: Value) | AppendOf(arg: Arg) | Elsewhere(made: Store)

  function After(was: State, op: Op): State {
    match op
    case SetTo(v) => AfterSet(was, v)
    case AppendOf(arg) => AfterAppend(was, arg)
    case Elsewhere(made) => was.(store := made)
  }

  // Values and arguments refer to nodes there are; no container is appended to itself; other parts of the program
  // leave what is there alone, the variable's containers in particular.
  ghost predicate Allowed(was: State, op: Op) {
    var st := was.store;
    match op
    case SetTo(v) => AllKnown(st, NodesOf(v))
    case AppendOf(arg) => ArgKnown(st, arg) && !FeedsItself(st, arg)
    case Elsewhere(made) =>
      && Sound(made) && Owned(made) && made.shadow == st.shadow && st.next <= made.next
      && (forall r :: r in st.content ==> r in made.content && made.content[r] == st.content[r])
      && (forall c :: c in st.kids ==> c in made.kids && st.kids[c] <= made.kids[c])
  }

  // No texts meet.
  predicate Clean(was: State, op: Op) {
    match op
    case SetTo(v) => v.Nodes? ==> !SetMeets(was.store, v.ns)
    case AppendOf(arg) => (was.value.Scalar? && arg.Val? && arg.v.Scalar?) || !AppendMeets(was.store, arg)
    case Elsewhere(_) => true
  }

  lemma {:induction false} StepStored(was: State, op: Op)
    requires Stored(was) && Allowed(was, op)
    ensures Stored(After(was, op)) && Grows(was.store, After(was, op).store)
  {
    match op {
      case SetTo(v) => if v.Nodes? { SetKeeps(was.store, v.ns); }
      case AppendOf(arg) => AppendKeeps(was, arg);
      case Elsewhere(_) =>
    }
  }

  lemma {:induction false} StepGood(was: State, op: Op)
    requires Good(was) && Allowed(was, op) && Clean(was, op)
    ensures Good(After(was, op)) && Extends(was.store, After(was, op).store)
  {
    var now := After(was, op);
    match op {
      case SetTo(v) =>
        if v.Nodes? { SetTakes(was.store, v.ns); }
      case AppendOf(arg) =>
        if !(was.value.Scalar? && arg.Val? && arg.v.Scalar?) {
          AppendMeans(was, arg);
        }
      case Elsewhere(made) =>
        ElsewhereHeld(was, made);
    }
  }

  lemma {:induction false} ElsewhereHeld(was: State, made: Store)
    requires Good(was) && Allowed(was, Elsewhere(made))
    ensures Held(made, was.value) && Extends(was.store, made)
  {
    if was.value.Nodes? {
      forall r | r in was.value.ns ensures Shadowed(made, r) && Known(made, r) {
        StillShadowed(was.store, made, r);
      }
      forall k | 0 <= k < |was.value.ns| && Tree(made, was.value.ns[k])
        ensures Tree(was.store, was.value.ns[k])
      {
        var r := was.value.ns[k];
        assert Known(was.store, r);
      }
    }
  }

  ghost predicate RunOk(start: State, ops: seq<Op>) {
    ops == [] || (RunOk(start, ops[..|ops| - 1]) && Allowed(RunTo(start, ops[..|ops| - 1]), ops[|ops| - 1]))
  }

  predicate RunClean(start: State, ops: seq<Op>) {
    ops == [] || (RunClean(start, ops[..|ops| - 1]) && Clean(RunTo(start, ops[..|ops| - 1]), ops[|ops| - 1]))
  }

  // The state after a run.
  function RunTo(start: State, ops: seq<Op>): State {
    if ops == [] then start else After(RunTo(start, ops[..|ops| - 1]), ops[|ops| - 1])
  }

  // All states of it, the first included.
  function StatesOf(start: State, ops: seq<Op>): (states: seq<State>)
    ensures |states| == |ops| + 1
  {
    if ops == [] then [start] else StatesOf(start, ops[..|ops| - 1]) + [RunTo(start, ops)]
  }

  lemma {:induction false} StateOf(start: State, ops: seq<Op>, k: nat)
    requires k <= |ops|
    ensures StatesOf(start, ops)[k] == RunTo(start, ops[..k])
    decreases |ops|
  {
    if k < |ops| {
      var init := ops[..|ops| - 1];
      StateOf(start, init, k);
      assert init[..k] == ops[..k];
    } else {
      assert ops[..k] == ops;
    }
  }

  /** Every run in which no texts meet is a history: each state is sound and keeps all that was there before. */
  lemma {:induction false} RunIsHistory(start: State, ops: seq<Op>)
    requires Good(start) && RunOk(start, ops) && RunClean(start, ops)
    ensures History(StatesOf(start, ops)) && Good(RunTo(start, ops))
    decreases |ops|
  {
    if ops != [] {
      var init, op := ops[..|ops| - 1], ops[|ops| - 1];
      var states := StatesOf(start, init);
      RunIsHistory(start, init);
      StepGood(RunTo(start, init), op);
      StateOf(start, init, |init|);
      assert init[..|init|] == init;
      HistoryMore(states, RunTo(start, ops));
    }
  }

  lemma {:induction false} HistoryMore(states: seq<State>, s: State)
    requires History(states) && states != [] && Sound(s.store) && Held(s.store, s.value)
    requires Extends(states[|states| - 1].store, s.store)
    ensures History(states + [s])
  {
    var all := states + [s];
    forall k | 0 <= k < |all| - 1 ensures Extends(all[k].store, all[k + 1].store) {
      if k < |states| - 1 {
        assert Extends(states[k].store, states[k + 1].store);
      }
    }
  }

  /**
    Over every run of setting and appending in which no texts meet: a node that the variable ever held is a container
    of its, or a child of one, for the rest of the run, and reads as it did; a container loses no child.
   */
  lemma {:induction false} RunKeeps(start: State, ops: seq<Op>, i: nat, k: nat, r: Ref)
    requires Good(start) && RunOk(start, ops) && RunClean(start, ops) && i <= k <= |ops|
    requires r in NodesOf(RunTo(start, ops[..i]).value)
    ensures var was, now := RunTo(start, ops[..i]).store, RunTo(start, ops[..k]).store;
      && Extends(was, now) && Shadowed(now, r) && Known(now, r)
      && (r in was.content ==> r in now.content && now.content[r] == was.content[r])
      && (r in was.kids ==> r in now.kids && was.kids[r] <= now.kids[r])
  {
    var states := StatesOf(start, ops);
    RunIsHistory(start, ops);
    StateOf(start, ops, i);
    StateOf(start, ops, k);
    HistoryExtends(states, i, k);
    HistoryKept(states, i, k, r);
  }

  lemma {:induction false} RunStored(start: State, ops: seq<Op>)
    requires Stored(start) && RunOk(start, ops)
    ensures Stored(RunTo(start, ops))
  {
    if ops != [] {
      RunStored(start, ops[..|ops| - 1]);
      StepStored(RunTo(start, ops[..|ops| - 1]), ops[|ops| - 1]);
    }
  }

  lemma {:induction false} RunOkUpTo(start: State, ops: seq<Op>, i: nat)
    requires RunOk(start, ops) && i <= |ops|
    ensures RunOk(start, ops[..i])
    decreases |ops|
  {
    if i < |ops| {
      RunOkUpTo(start, ops[..|ops| - 1], i);
      assert ops[..|ops| - 1][..i] == ops[..i];
    } else {
      assert ops[..i] == ops;
    }
  }

  /**
    Over every run, whatever texts meet: a child of a container stays one, and reads as it did but for text that came
    behind it; no container loses a child.
   */
  lemma {:induction false} RunGrows(start: State, ops: seq<Op>, i: nat, k: nat)
    requires Stored(start) && RunOk(start, ops) && i <= k <= |ops|
    ensures Grows(RunTo(start, ops[..i]).store, RunTo(start, ops[..k]).store)
  {
    RunOkUpTo(start, ops, k);
    GrowsSince(start, ops[..k], i);
    assert ops[..k][..i] == ops[..i];
  }

  lemma {:induction false} GrowsSince(start: State, ops: seq<Op>, i: nat)
    requires Stored(start) && RunOk(start, ops) && i <= |ops|
    ensures Grows(RunTo(start, ops[..i]).store, RunTo(start, ops).store)
    decreases |ops|
  {
    if i < |ops| {
      var init := ops[..|ops| - 1];
      GrowsSince(start, init, i);
      assert init[..i] == ops[..i];
      RunStep(start, ops);
      GrowsTrans(RunTo(start, ops[..i]).store, RunTo(start, init).store, RunTo(start, ops).store);
    } else {
      assert ops[..i] == ops;
    }
  }

  lemma {:induction false} RunStep(start: State, ops: seq<Op>)
    requires Stored(start) && RunOk(start, ops) && ops != []
    ensures Grows(RunTo(start, ops[..|ops| - 1]).store, RunTo(start, ops).store)
  {
    RunStored(start, ops[..|ops| - 1]);
    StepStored(RunTo(start, ops[..|ops| - 1]), ops[|ops| - 1]);
  }

  /** A run of calls on a variable goes through these states. */
  method Perform(m: Mvar, ops: seq<Op>)
    requires m.Valid() && RunOk(State(m.store, m.value), ops)
    modifies m
    ensures m.Valid() && State(m.store, m.value) == RunTo(old(State(m.store, m.value)), ops)
  {
    ghost var start := State(m.store, m.value);
    assert ops[..0] == [];
    for i := 0 to |ops|
      invariant m.Valid() && State(m.store, m.value) == RunTo(start, ops[..i])
    {
      assert ops[..i + 1][..i] == ops[..i];
      RunOkAt(start, ops, i);
      StepStored(State(m.store, m.value), ops[i]);
      match ops[i] {
        case SetTo(v) => m.Set(v);
        case AppendOf(arg) => m.Append(arg);
        case Elsewhere(made) => m.store := made;
      }
    }
    assert ops[..|ops|] == ops;
  }

  lemma {:induction false} RunOkAt(start: State, ops: seq<Op>, i: nat)
    requires RunOk(start, ops) && i < |ops|
    ensures Allowed(RunTo(start, ops[..i]), ops[i])
    decreases |ops|
  {
    if i < |ops| - 1 {
      var init := ops[..|ops| - 1];
      RunOkAt(start, init, i);
      assert init[..i] == ops[..i];
    }
  }

  // ----- texts that meet, for the variable

  // What is in a value after texts met: the copies that became part of another are listed, but are not there.
  lemma {:induction false} SetGoodIff(was: State, v: Value)
    requires Good(was) && AllKnown(was.store, NodesOf(v))
    ensures Good(AfterSet(was, v)) <==>
      v.Scalar? || !TextsMeet(WithBox(was.store), was.store.next, v.ns[..FirstTree(was.store, v.ns)])
  {
    if v.Nodes? {
      var st := was.store;
      SetKeeps(st, v.ns);
      if TextsMeet(WithBox(st), st.next, v.ns[..FirstTree(st, v.ns)]) {
        SetLists(was, v.ns);
      } else {
        SetListsNone(was, v.ns);
      }
    }
  }

  lemma {:induction false} SetLists(was: State, ns: seq<Ref>)
    requires Stored(was) && AllKnown(was.store, ns)
    requires TextsMeet(WithBox(was.store), was.store.next, ns[..FirstTree(was.store, ns)])
    ensures var now := AfterSet(was, Nodes(ns)); !Held(now.store, now.value)
  {
    var st, now := was.store, AfterSet(was, Nodes(ns));
    var c, n, rs, box := st.next, FirstTree(st, ns), Source(st, ns), WithBox(st);
    WithBoxSound(st);
    SourceOk(st, ns);
    assert rs[..n] == ns[..n];
    var i :| 0 <= i < n && MeetsAt(box, c, ns[..n], i);
    MeetsFront(box, c, rs, n, i);
    FreedIsGone(box, c, rs, i);
    assert now.value.ns[i] == box.next + i && now.value.ns[i] in now.value.ns;
    assert !Known(now.store, now.value.ns[i]);
  }

  lemma {:induction false} SetListsNone(was: State, ns: seq<Ref>)
    requires Stored(was) && AllKnown(was.store, ns)
    requires !TextsMeet(WithBox(was.store), was.store.next, ns[..FirstTree(was.store, ns)])
    ensures var now := AfterSet(was, Nodes(ns)); Held(now.store, now.value)
  {
    var st := was.store;
    var c, n, rs, box := st.next, FirstTree(st, ns), Source(st, ns), WithBox(st);
    WithBoxSound(st);
    SourceOk(st, ns);
    assert rs[..n] == ns[..n];
    forall i | 0 <= i < n ensures !MeetsAt(box, c, rs, i) {
      MeetsFront(box, c, rs, n, i);
      assert !MeetsAt(box, c, ns[..n], i);
    }
    Seqs.NoChange(Fresh(st.next + 1, n));
    ListedHeld(box, HungAll(box, c, rs), c, rs, n, AfterSet(was, Nodes(ns)).value.ns);
  }

  lemma {:induction false} MeetsFront(st: Store, c: Ref, rs: seq<Ref>, n: nat, i: nat)
    requires i < n <= |rs|
    ensures MeetsAt(st, c, rs, i) <==> MeetsAt(st, c, rs[..n], i)
  {
  }

  lemma {:induction false} FreedIsGone(st: Store, c: Ref, rs: seq<Ref>, i: nat)
    requires Sound(st) && Owned(st) && c in st.kids && AllNodes(st, rs) && i < |rs| && MeetsAt(st, c, rs, i)
    ensures !Known(HungAll(st, c, rs), st.next + i)
  {
    HungIs(st, c, rs, i);
    HungAllOk(st, c, rs);
  }

  // The first n copies, in the newest container, and that container perhaps.
  lemma {:induction false} ListedHeld(st: Store, now: Store, c: Ref, rs: seq<Ref>, n: nat, res: seq<Ref>)
    requires Sound(st) && Owned(st) && AllNodes(st, rs) && n <= |rs| && now == HungAll(st, c, rs)
    requires c in st.kids && c in st.shadow && c == st.shadow[|st.shadow| - 1]
    requires forall i {:trigger MeetsAt(st, c, rs, i)} :: 0 <= i < n ==> !MeetsAt(st, c, rs, i)
    requires res == Fresh(st.next, n) || res == Fresh(st.next, n) + [c]
    ensures Held(now, Nodes(res))
  {
    var ids := Fresh(st.next, n);
    CopiesThere(st, now, c, rs, n);
    forall r | r in res ensures Shadowed(now, r) && Known(now, r) {
      if r != c {
        var i :| 0 <= i < n && ids[i] == r;
      }
    }
    assert forall k :: 0 <= k < n ==> res[k] == ids[k];
  }

  lemma {:induction false} CopiesThere(st: Store, now: Store, c: Ref, rs: seq<Ref>, n: nat)
    requires Sound(st) && Owned(st) && AllNodes(st, rs) && n <= |rs| && c in st.kids && now == HungAll(st, c, rs)
    requires forall i {:trigger MeetsAt(st, c, rs, i)} :: 0 <= i < n ==> !MeetsAt(st, c, rs, i)
    ensures now.shadow == st.shadow && c in now.kids
    ensures forall r :: r in Fresh(st.next, n) ==> r in now.kids[c] && r in now.content && !Tree(now, r)
  {
    HungTrees(st, c, rs);
    forall r | r in Fresh(st.next, n) ensures r in now.kids[c] && r in now.content && !Tree(now, r) {
      assert !MeetsAt(st, c, rs, r - st.next);
      CopyThere(st, c, rs, r - st.next);
    }
  }

  lemma {:induction false} CopyThere(st: Store, c: Ref, rs: seq<Ref>, i: nat)
    requires Sound(st) && Owned(st) && AllNodes(st, rs) && i < |rs| && c in st.kids && !MeetsAt(st, c, rs, i)
    ensures var m := HungAll(st, c, rs); var r := st.next + i;
      c in m.kids && r in m.kids[c] && r in m.content && !Tree(m, r)
  {
    HungTrees(st, c, rs);
    HungIs(st, c, rs, i);
  }

  /** After an append the value lists only nodes there are exactly if it lists no new ones, or no texts met. */
  lemma {:induction false} AppendGoodIff(was: State, arg: Arg)
    requires Good(was) && ArgKnown(was.store, arg) && !FeedsItself(was.store, arg)
    requires !(was.value.Scalar? && arg.Val? && arg.v.Scalar?)
    ensures var box := Boxed(was.store);
      && box.shadow != []
      && (Good(AfterAppend(was, arg)) <==>
            box.shadow[|box.shadow| - 1] in NodesOf(was.value) || !AppendMeets(was.store, arg))
  {
    var _, container, _ := BoxGrown(was.store, arg);
    if container in NodesOf(was.value) {
      AppendHidden(was, arg);
    } else if !AppendMeets(was.store, arg) {
      AppendMeans(was, arg);
    } else {
      AppendLists(was, arg);
    }
  }

  // A container that is listed itself has its new children listed with it.
  lemma {:induction false} AppendHidden(was: State, arg: Arg)
    requires Good(was) && ArgKnown(was.store, arg) && !FeedsItself(was.store, arg)
    requires !(was.value.Scalar? && arg.Val? && arg.v.Scalar?)
    requires var box := Boxed(was.store); box.shadow != [] && box.shadow[|box.shadow| - 1] in NodesOf(was.value)
    ensures Good(AfterAppend(was, arg))
  {
    var now := HiddenStore(was, arg);
    AppendIs(was, arg, Boxed(was.store), Boxed(was.store).shadow[|Boxed(was.store).shadow| - 1]);
    assert AfterAppend(was, arg) == State(now, was.value);
  }

  lemma {:induction false} HiddenStore(was: State, arg: Arg) returns (now: Store)
    requires Good(was) && ArgKnown(was.store, arg) && !FeedsItself(was.store, arg)
    requires var box := Boxed(was.store); box.shadow != [] && box.shadow[|box.shadow| - 1] in NodesOf(was.value)
    ensures var box := Boxed(was.store); now == Grown(box, box.shadow[|box.shadow| - 1], arg)
    ensures Sound(now) && Owned(now) && Held(now, was.value)
  {
    HeldListing(was.store, NodesOf(was.value));
    var box, container := BoxTakes(was.store, arg);
    GrownKeeps(box, container, arg);
    now := Grown(box, container, arg);
    StillHeld(was.store, now, was.value.ns);
  }

  // A copy that became part of a text is listed.
  lemma {:induction false} AppendLists(was: State, arg: Arg)
    requires Good(was) && ArgKnown(was.store, arg) && !FeedsItself(was.store, arg) && AppendMeets(was.store, arg)
    requires !(was.value.Scalar? && arg.Val? && arg.v.Scalar?)
    requires var box := Boxed(was.store); box.shadow != [] && box.shadow[|box.shadow| - 1] !in NodesOf(was.value)
    ensures !Good(AfterAppend(was, arg))
  {
    var box, before := Boxed(was.store), NodesOf(was.value);
    var _, container := BoxTakes(was.store, arg);
    var ids := NewIds(box, arg);
    var i := GrownFrees(box, container, arg);
    AppendIs(was, arg, box, container);
    assert AfterAppend(was, arg) == State(Grown(box, container, arg), Nodes(before + ids));
    assert (before + ids)[|before| + i] == ids[i] && ids[i] in before + ids;
  }

  lemma {:induction false} GrownFrees(st: Store, container: Ref, arg: Arg) returns (i: nat)
    requires Sound(st) && Owned(st) && container in st.kids && ArgKnown(st, arg) && ArgMeets(st, container, arg)
    ensures i < |NewIds(st, arg)| && !Known(Grown(st, container, arg), NewIds(st, arg)[i])
  {
    var rs := ArgSource(st, arg);
    ArgSourceOk(st, arg);
    i :| 0 <= i < |rs| && MeetsAt(st, container, rs, i);
    FreedIsGone(st, container, rs, i);
  }

  // A value that was held is, in a store that has only grown by no container.
  lemma {:induction false} StillHeld(was: Store, now: Store, ns: seq<Ref>)
    requires Sound(was) && Sound(now) && Held(was, Nodes(ns)) && Grows(was, now) && was.shadow == now.shadow
    ensures Held(now, Nodes(ns))
  {
    forall r | r in ns ensures Shadowed(now, r) && Known(now, r) {
      if r !in was.shadow {
        var c :| c in was.shadow && c in was.kids && r in was.kids[c];
        var j :| 0 <= j < |was.kids[c]| && was.kids[c][j] == r;
        assert now.kids[c][j] == r;
      }
    }
    forall k | 0 <= k < |ns| && Tree(now, ns[k]) ensures Tree(was, ns[k]) {
      assert Known(was, ns[k]);
    }
  }

  // Two texts set as a value: the copy of the second becomes part of the first, and is listed all the same.
  lemma {:induction false} TwoTextsMerge(st: Store, a: Ref, b: Ref)
    requires Sound(st) && Owned(st) && IsText(st, a) && IsText(st, b)
    ensures var now := AfterSet(State(st, Scalar("")), Nodes([a, b]));
      && st.next + 1 in now.store.content
      && now.store.content[st.next + 1] == Content(true, st.content[a].s + st.content[b].s)
      && st.next + 2 in now.value.ns && !Known(now.store, st.next + 2)
  {
    var ns, box, c := [a, b], WithBox(st), st.next;
    WithBoxSound(st);
    assert FirstTreeFrom(st, ns, 2) == 2 && FirstTreeFrom(st, ns, 1) == 2 && FirstTree(st, ns) == 2;
    SourceAll(st, ns);
    assert ns[..1] == [a] && [a][..0] == [];
    var m := WithNode(box, c, st.content[a]);
    assert HungAll(box, c, []) == box && a in box.content;
    assert HungAll(box, c, [a]) == m;
    assert m.kids[c] == [st.next + 1];
    assert HungAll(box, c, ns) == Hung(m, c, st.content[b]);
    assert Fresh(st.next + 1, 2)[1] == st.next + 2;
  }

  // ----- a container appended to itself

  // One turn of the loop over a container's children, when it is also the one that is added to.
  function Turns(st: Store, c: Ref, k: nat): Store {
    if k == 0 then st
    else
      var now := Turns(st, c, k - 1);
      if c in now.kids && k - 1 < |now.kids[c]| then
        var r := now.kids[c][k - 1];
        Hung(now, c, if r in now.content then now.content[r] else NO_CONTENT)
      else now
  }

  predicate OtherFrom(st: Store, c: Ref, k: nat)
    requires c in st.kids
  {
    exists i :: k <= i < |st.kids[c]| && !IsText(st, st.kids[c][i])
  }

  /**
    Appending a container to itself never ends exactly if one of its children is no text: there is always a next
    child. Texts alone all become part of the last, and the loop ends behind it.
   */
  lemma {:induction false} SelfAppendNeverEnds(st: Store, c: Ref)
    requires Sound(st) && Owned(st) && c in st.kids
    ensures (forall k: nat :: HasNext(st, c, k)) <==> OtherFrom(st, c, 0)
  {
    if OtherFrom(st, c, 0) {
      forall k: nat ensures HasNext(st, c, k) {
        AlwaysNext(st, c, k);
      }
    } else {
      TextsEnd(st, c, |st.kids[c]|);
      assert !HasNext(st, c, |st.kids[c]|);
    }
  }

  // After k turns there is a child to go on with.
  predicate HasNext(st: Store, c: Ref, k: nat) {
    var now := Turns(st, c, k);
    c in now.kids && k < |now.kids[c]|
  }

  lemma {:induction false} TurnsSound(st: Store, c: Ref, k: nat)
    requires Sound(st) && Owned(st) && c in st.kids
    ensures var now := Turns(st, c, k); Sound(now) && Owned(now) && c in now.kids
  {
    if k > 0 {
      var was := Turns(st, c, k - 1);
      TurnsSound(st, c, k - 1);
      if k - 1 < |was.kids[c]| {
        KidsKnown(was, c);
        var r := was.kids[c][k - 1];
        HungTurn(was, c, was.content[r]);
        assert Turns(st, c, k) == Hung(was, c, was.content[r]);
      }
    }
  }

  lemma {:induction false} HungTurn(st: Store, c: Ref, k: Content)
    requires Sound(st) && Owned(st) && c in st.kids
    ensures var m := Hung(st, c, k); Sound(m) && Owned(m) && c in m.kids
  {
    HungSound(st, c, k);
    HungKeys(st, c, k);
  }

  // There is a next child, and its copy is added.
  lemma {:induction false} TurnIs(st: Store, c: Ref, k: nat) returns (was: Store)
    requires Sound(st) && Owned(st) && c in st.kids && k > 0
    ensures was == Turns(st, c, k - 1) && Sound(was) && Owned(was) && c in was.kids
    ensures k - 1 < |was.kids[c]| ==>
      was.kids[c][k - 1] in was.content && Turns(st, c, k) == Hung(was, c, was.content[was.kids[c][k - 1]])
  {
    TurnsSound(st, c, k - 1);
    was := Turns(st, c, k - 1);
    KidsKnown(was, c);
  }

  lemma {:induction false} AlwaysNext(st: Store, c: Ref, k: nat)
    requires Sound(st) && Owned(st) && c in st.kids && OtherFrom(st, c, 0)
    ensures var now := Turns(st, c, k); c in now.kids && OtherFrom(now, c, k)
  {
    if k > 0 {
      AlwaysNext(st, c, k - 1);
      NextTurn(st, c, k);
    }
  }

  lemma {:induction false} NextTurn(st: Store, c: Ref, k: nat)
    requires Sound(st) && Owned(st) && c in st.kids && k > 0
    requires var was := Turns(st, c, k - 1); c in was.kids && OtherFrom(was, c, k - 1)
    ensures var now := Turns(st, c, k); c in now.kids && OtherFrom(now, c, k)
  {
    var was := TurnIs(st, c, k);
    var now := Turns(st, c, k);
    OneTurn(was, c, k - 1, now);
  }

  // The copy of a child that is no text is one more such child behind it.
  lemma {:induction false} OneTurn(was: Store, c: Ref, k: nat, now: Store)
    requires Sound(was) && Owned(was) && c in was.kids && OtherFrom(was, c, k)
    requires k < |was.kids[c]| && was.kids[c][k] in was.content && now == Hung(was, c, was.content[was.kids[c][k]])
    ensures c in now.kids && OtherFrom(now, c, k + 1)
  {
    var content := was.content[was.kids[c][k]];
    HungOne(was, c, content);
    var i :| k <= i < |was.kids[c]| && !IsText(was, was.kids[c][i]);
    KidsKnown(was, c);
    if i == k {
      assert now.kids[c][|was.kids[c]|] == was.next && !IsText(now, was.next);
    } else {
      assert now.kids[c][i] == was.kids[c][i] && !IsText(now, now.kids[c][i]);
    }
  }

  lemma {:induction false} TextsEnd(st: Store, c: Ref, k: nat)
    requires Sound(st) && Owned(st) && c in st.kids && !OtherFrom(st, c, 0) && k <= |st.kids[c]|
    ensures var now := Turns(st, c, k);
      Sound(now) && Owned(now) && now.kids == st.kids && SameKinds(st, now)
  {
    if k > 0 {
      TextsEnd(st, c, k - 1);
      var was := Turns(st, c, k - 1);
      var ks := st.kids[c];
      KidsKnown(st, c);
      assert IsText(st, ks[k - 1]) && IsText(st, ks[|ks| - 1]);
      HungOne(was, c, was.content[ks[k - 1]]);
      HungSound(was, c, was.content[ks[k - 1]]);
    }
  }
}
