/**
  The rewriting of a conditional on the linked segments: its terms become one list, threaded by ss_concat.
 */
module SlaxConditional {
  import Seqs
  import opened SlaxDigits
  import opened SlaxString
  import opened SlaxRewrite
  import opened SlaxTernary

  // What a segment of a layout looks like in memory.
  function TokenOf(g: Seg): Tok {
    match g
    case Single(t) => t
    case Tern(n) => Tok(M_TERNARY, "slax:value($slax-ternary-" + Decimal(n) + ")")
    case Quest(_) => Tok(L_QUESTION, "?")
    case Colon(_) => Tok(L_COLON, ":")
    case End(n) => Tok(M_TERNARY_END, "slax:value($slax-ternary-" + Decimal(n) + ")")
  }

  ghost predicate LooksLike(h: Heap, l: seq<Ref>, segs: seq<Seg>) {
    |l| == |segs| && forall k :: 0 <= k < |segs| ==> TokOf(h, l[k]) == TokenOf(segs[k])
  }

  // From the segment at k ss_concat leads to the one at j.
  ghost predicate Leads(h: Heap, l: seq<Ref>, segs: seq<Seg>, k: nat, j: nat)
    requires |l| == |segs| && k < |segs| && j < |segs|
  {
    !segs[k].Single? && segs[j] == Link(segs[k]) && segs[j] != segs[k] ==> l[k] in h && h[l[k]].concat == l[j]
  }

  ghost predicate Threaded(h: Heap, l: seq<Ref>, segs: seq<Seg>) {
    |l| == |segs| && forall k, j {:trigger Leads(h, l, segs, k, j)} ::
      0 <= k < |segs| && 0 <= j < |segs| ==> Leads(h, l, segs, k, j)
  }

  /** A list of segments in memory that is laid out like this. */
  ghost predicate Shows(h: Heap, l: seq<Ref>, segs: seq<Seg>) {
    LooksLike(h, l, segs) && Threaded(h, l, segs)
  }

  /** Any list without conditionals is one. */
  lemma {:induction false} PlainShows(h: Heap, l: seq<Ref>, segs: seq<Seg>)
    requires |l| == |segs| && forall k :: 0 <= k < |segs| ==> segs[k] == Single(TokOf(h, l[k]))
    ensures Shows(h, l, segs)
  {
    forall k, j | 0 <= k < |segs| && 0 <= j < |segs| ensures Leads(h, l, segs, k, j) {
      assert segs[k].Single?;
    }
  }

  /** The four segments of a conditional in such a list: the variable's value, `?`, `:` and the value again, each with
      its ss_concat on the next. */
  lemma {:induction false} FollowsThread(h: Heap, l: seq<Ref>, segs: seq<Seg>, n: nat, i: nat, q: nat, c: nat, e: nat)
    requires Shows(h, l, segs) && i < |segs| && q < |segs| && c < |segs| && e < |segs|
    requires segs[i] == Tern(n) && segs[q] == Quest(n) && segs[c] == Colon(n) && segs[e] == End(n)
    ensures l[i] in h && h[l[i]].concat == l[q] && l[q] in h && h[l[q]].concat == l[c]
    ensures l[c] in h && h[l[c]].concat == l[e]
    ensures var value := "slax:value($slax-ternary-" + Decimal(n) + ")";
      && TokOf(h, l[i]) == Tok(M_TERNARY, value) && TokOf(h, l[q]) == Tok(L_QUESTION, "?")
      && TokOf(h, l[c]) == Tok(L_COLON, ":") && TokOf(h, l[e]) == Tok(M_TERNARY_END, value)
  {
    assert Leads(h, l, segs, i, q) && Leads(h, l, segs, q, c) && Leads(h, l, segs, c, e);
  }

  // ----- joining parts

  // Segments of a part of the layout carry numbers from a set only.
  predicate Only(segs: seq<Seg>, ns: set<nat>) {
    forall k :: 0 <= k < |segs| ==> segs[k].Single? || segs[k].n in ns
  }

  lemma {:induction false} OnlyNumbers(e: seq<Item>)
    ensures Only(Layout(e), Numbers(e))
  {
    var segs := Layout(e);
    forall k | 0 <= k < |segs| ensures segs[k].Single? || segs[k].n in Numbers(e) {
      if !segs[k].Single? {
        LayoutNumbers(e, segs[k]);
      }
    }
  }

  // Parts that share no number lead nowhere from one into the other.
  lemma {:induction false} JoinParts(h: Heap, la: seq<Ref>, a: seq<Seg>, lb: seq<Ref>, b: seq<Seg>, na: set<nat>,
                                     nb: set<nat>)
    requires Threaded(h, la, a) && Threaded(h, lb, b) && Only(a, na) && Only(b, nb) && na !! nb
    ensures Threaded(h, la + lb, a + b) && Only(a + b, na + nb)
  {
    var l, segs := la + lb, a + b;
    forall k, j | 0 <= k < |segs| && 0 <= j < |segs| ensures Leads(h, l, segs, k, j) {
      if k < |a| && j < |a| {
        assert Leads(h, la, a, k, j);
      } else if k >= |a| && j >= |a| {
        assert Leads(h, lb, b, k - |a|, j - |a|);
      }
    }
  }

  // One more segment of the conditional itself, to which the one at `from` leads.
  lemma {:induction false} JoinLink(h: Heap, la: seq<Ref>, a: seq<Seg>, r: Ref, g: Seg, from: nat, ns: set<nat>)
    requires Threaded(h, la, a) && Only(a, ns) && from < |a| && !a[from].Single? && !g.Single?
    requires a[from].n == g.n && g == Link(a[from]) && la[from] in h && h[la[from]].concat == r
    requires g.n in ns && Link(g) !in a && g !in a
    requires forall k :: 0 <= k < |a| && k != from && !a[k].Single? && a[k].n == g.n ==> Link(a[k]) != g
    ensures Threaded(h, la + [r], a + [g]) && Only(a + [g], ns)
  {
    var l, segs := la + [r], a + [g];
    forall k, j | 0 <= k < |segs| && 0 <= j < |segs| ensures Leads(h, l, segs, k, j) {
      if k < |a| && j < |a| {
        assert Leads(h, la, a, k, j);
      } else if k == |a| && j < |a| {
        assert segs[j] == a[j] && a[j] in a;
      }
    }
  }

  // Where the conditional's own segments stand.
  predicate OwnAt(segs: seq<Seg>, n: nat, at: set<nat>) {
    forall k :: 0 <= k < |segs| && !segs[k].Single? && segs[k].n == n ==> k in at
  }

  lemma {:induction false} OwnAtPart(a: seq<Seg>, n: nat, at: set<nat>, b: seq<Seg>, nb: set<nat>)
    requires OwnAt(a, n, at) && Only(b, nb) && n !in nb
    ensures OwnAt(a + b, n, at)
  {
    assert forall k :: |a| <= k < |a + b| ==> (a + b)[k] == b[k - |a|];
  }

  // A term of the conditional, behind the segments so far.
  lemma {:induction false} AddTerm(h: Heap, la: seq<Ref>, a: seq<Seg>, lb: seq<Ref>, b: seq<Seg>, n: nat, at: set<nat>,
                                   na: set<nat>, nb: set<nat>)
    requires Threaded(h, la, a) && Only(a, na) && OwnAt(a, n, at) && Threaded(h, lb, b) && Only(b, nb)
    requires na !! nb && n in na
    ensures Threaded(h, la + lb, a + b) && Only(a + b, na + nb) && OwnAt(a + b, n, at)
  {
    JoinParts(h, la, a, lb, b, na, nb);
    OwnAtPart(a, n, at, b, nb);
  }

  // The next of its own segments, to which the last of them leads.
  lemma {:induction false} AddOwn(h: Heap, la: seq<Ref>, a: seq<Seg>, r: Ref, g: Seg, from: nat, at: set<nat>,
                                  ns: set<nat>)
    requires Threaded(h, la, a) && Only(a, ns) && from < |a| && !g.Single? && OwnAt(a, g.n, at) && g.n in ns
    requires !a[from].Single? && a[from].n == g.n && Link(a[from]) == g && la[from] in h && h[la[from]].concat == r
    requires forall k :: k in at ==> k < |a| && a[k] != g && a[k] != Link(g) && (k != from ==> Link(a[k]) != g)
    ensures Threaded(h, la + [r], a + [g]) && Only(a + [g], ns) && OwnAt(a + [g], g.n, at + {|a|})
  {
    forall k | 0 <= k < |a| ensures a[k] != g && a[k] != Link(g) {
      if !a[k].Single? && a[k].n == g.n { assert k in at; }
    }
    JoinLink(h, la, a, r, g, from, ns);
  }

  lemma {:induction false} ThreadedLayout(h: Heap, n: nat, lc: seq<Ref>, c: seq<Seg>, ly: seq<Ref>, y: seq<Seg>,
                                          ln: seq<Ref>, no: seq<Seg>, t: Ref, q: Ref, colon: Ref, end: Ref,
                                          nc: set<nat>, ny: set<nat>, nn: set<nat>)
    requires Threaded(h, lc, c) && Threaded(h, ly, y) && Threaded(h, ln, no)
    requires Only(c, nc) && Only(y, ny) && Only(no, nn) && n !in nc + ny + nn
    requires nc !! ny && nc + ny !! nn
    requires t in h && q in h && colon in h && h[t].concat == q && h[q].concat == colon && h[colon].concat == end
    ensures Threaded(h, [t] + lc + [q] + ly + [colon] + ln + [end],
                     [Tern(n)] + c + [Quest(n)] + y + [Colon(n)] + no + [End(n)])
  {
    var l, a := [t], [Tern(n)];
    assert Leads(h, l, a, 0, 0) && Threaded(h, l, a) && Only(a, {n}) && OwnAt(a, n, {0});
    AddTerm(h, l, a, lc, c, n, {0}, {n}, nc);
    l, a := l + lc, a + c;
    AddOwn(h, l, a, q, Quest(n), 0, {0}, {n} + nc);
    l, a := l + [q], a + [Quest(n)];
    var i := 1 + |c|;
    AddTerm(h, l, a, ly, y, n, {0, i}, {n} + nc, ny);
    l, a := l + ly, a + y;
    assert a[0] == Tern(n) && a[i] == Quest(n) && l[i] == q;
    AddOwn(h, l, a, colon, Colon(n), i, {0, i}, {n} + nc + ny);
    l, a := l + [colon], a + [Colon(n)];
    var k := 2 + |c| + |y|;
    AddTerm(h, l, a, ln, no, n, {0, i, k}, {n} + nc + ny, nn);
    l, a := l + ln, a + no;
    assert a[0] == Tern(n) && a[i] == Quest(n) && a[k] == Colon(n) && l[k] == colon;
    AddOwn(h, l, a, end, End(n), k, {0, i, k}, {n} + nc + ny + nn);
  }

  // ----- in memory

  // The terms, and the two segments between them, are lists of their own.
  ghost predicate TermsReady(h: Heap, scond: Ref, lc: seq<Ref>, qsp: Ref, strue: Ref, ly: seq<Ref>, csp: Ref,
                             sfalse: Ref, ln: seq<Ref>)
  {
    && IsList(h, lc) && lc[0] == scond && IsList(h, ln) && ln[0] == sfalse
    && (if strue == 0 then ly == [] else IsList(h, ly) && ly[0] == strue)
    && IsList(h, [qsp]) && IsList(h, [csp]) && qsp != csp
    && Apart(lc, ly) && Apart(lc, ln) && Apart(ly, ln)
    && qsp !in lc + ly + ln && csp !in lc + ly + ln
  }

  // Links changed, and ss_concat for some segments only.
  ghost predicate KeepsParts(h: Heap, h': Heap, own: set<Ref>) {
    forall x :: x in h ==> x in h' && TokOf(h', x) == TokOf(h, x) && (x !in own ==> h'[x].concat == h[x].concat)
  }

  lemma {:induction false} StillShows(h: Heap, h': Heap, own: set<Ref>, l: seq<Ref>, segs: seq<Seg>)
    requires Shows(h, l, segs) && KeepsParts(h, h', own)
    requires forall x :: x in l ==> x in h && x !in own
    ensures Shows(h', l, segs)
  {
    forall k, j | 0 <= k < |segs| && 0 <= j < |segs| ensures Leads(h', l, segs, k, j) {
      assert Leads(h, l, segs, k, j) && l[k] in l;
    }
    forall k | 0 <= k < |segs| ensures TokOf(h', l[k]) == TokenOf(segs[k]) {
      assert l[k] in l;
    }
  }

  lemma {:induction false} LooksBoth(h: Heap, la: seq<Ref>, a: seq<Seg>, lb: seq<Ref>, b: seq<Seg>)
    requires LooksLike(h, la, a) && LooksLike(h, lb, b)
    ensures LooksLike(h, la + lb, a + b)
  {
  }

  // ----- hanging parts on each other

  function Flat(parts: seq<seq<Ref>>): seq<Ref> {
    if parts == [] then [] else parts[0] + Flat(parts[1..])
  }

  ghost predicate AllApart(parts: seq<seq<Ref>>) {
    forall i, k :: 0 <= i < k < |parts| ==> Apart(parts[i], parts[k])
  }

  // The parts before i are lists of their own, the others are one list already.
  ghost predicate HungFrom(h: Heap, parts: seq<seq<Ref>>, i: nat) {
    i < |parts| && AllApart(parts) && (forall k :: 0 <= k < i ==> IsList(h, parts[k])) && IsList(h, Flat(parts[i..]))
  }

  lemma {:induction false} ApartFlat(a: seq<Ref>, parts: seq<seq<Ref>>)
    requires forall k :: 0 <= k < |parts| ==> Apart(a, parts[k])
    ensures Apart(a, Flat(parts))
  {
    if parts != [] {
      assert forall k :: 0 <= k < |parts| - 1 ==> parts[1..][k] == parts[k + 1];
      ApartFlat(a, parts[1..]);
    }
  }

  lemma {:induction false} PartInFlat(parts: seq<seq<Ref>>, i: nat)
    requires i < |parts|
    ensures forall x :: x in parts[i] ==> x in Flat(parts)
  {
    if i > 0 {
      assert parts[1..][i - 1] == parts[i];
      PartInFlat(parts[1..], i - 1);
    }
  }

  // One part more: its last segment leads to the list behind it.
  method Hang(s: Strings, head: Ref, more: Ref, ghost parts: seq<seq<Ref>>, ghost i: nat, ghost h0: Heap)
    requires s.Valid() && 0 < i && HungFrom(s.heap, parts, i) && Relinked(h0, s.heap, Flat(parts))
    requires parts[i - 1][0] == head && parts[i] != [] && parts[i][0] == more
    modifies s`heap
    ensures s.Valid() && HungFrom(s.heap, parts, i - 1) && Relinked(h0, s.heap, Flat(parts))
  {
    ghost var h, a, b := s.heap, parts[i - 1], Flat(parts[i..]);
    forall k | 0 <= k < |parts[i..]| ensures Apart(a, parts[i..][k]) {
      assert parts[i..][k] == parts[i + k];
    }
    ApartFlat(a, parts[i..]);
    assert parts[i..][0] == parts[i] && b[0] == more;
    s.Link(head, a, more, b);
    assert parts[i - 1..][0] == a && parts[i - 1..][1..] == parts[i..];
    assert a[|a| - 1] in a;
    PartInFlat(parts, i - 1);
    forall k | 0 <= k < i - 1 ensures IsList(s.heap, parts[k]) {
      assert Apart(parts[k], a);
      SameList(h, s.heap, parts[k]);
    }
  }

  lemma {:induction false} FlatLayout(t: Ref, lc: seq<Ref>, q: Ref, ly: seq<Ref>, colon: Ref, ln: seq<Ref>, end: Ref)
    ensures Flat([[t], lc, [q], ly, [colon], ln, [end]]) == [t] + lc + [q] + ly + [colon] + ln + [end]
    ensures ly == [] ==>
      Flat([[t], lc, [q], [colon], ln, [end]]) == [t] + lc + [q] + ly + [colon] + ln + [end]
  {
    FlatOne(end);
    FlatCons(ln, [[end]]);
    FlatCons([colon], [ln, [end]]);
    FlatCons(ly, [[colon], ln, [end]]);
    FlatCons([q], [ly, [colon], ln, [end]]);
    FlatCons([q], [[colon], ln, [end]]);
    FlatCons(lc, [[q], ly, [colon], ln, [end]]);
    FlatCons(lc, [[q], [colon], ln, [end]]);
    FlatCons([t], [lc, [q], ly, [colon], ln, [end]]);
    FlatCons([t], [lc, [q], [colon], ln, [end]]);
    Seqs.Assoc7([t], lc, [q], ly, [colon], ln, [end]);
    Seqs.NoChange([colon] + (ln + [end]));
  }

  lemma {:induction false} FlatOne(r: Ref)
    ensures Flat([[r]]) == [r]
  {
    Seqs.NoChange([r]);
    assert [[r]][1..] == [];
  }

  lemma {:induction false} FlatCons(a: seq<Ref>, parts: seq<seq<Ref>>)
    ensures Flat([a] + parts) == a + Flat(parts)
  {
    assert ([a] + parts)[1..] == parts;
  }

  // ----- the rewriting

  ghost function Parts(tsp: Ref, lc: seq<Ref>, qsp: Ref, ly: seq<Ref>, csp: Ref, ln: seq<Ref>, esp: Ref)
      : seq<seq<Ref>> {
    if ly == [] then [[tsp], lc, [qsp], [csp], ln, [esp]] else [[tsp], lc, [qsp], ly, [csp], ln, [esp]]
  }

  // Where the parts of a conditional stand among its six or seven parts.
  ghost predicate PartHeads(parts: seq<seq<Ref>>, tsp: Ref, scond: Ref, qsp: Ref, strue: Ref, csp: Ref, sfalse: Ref,
                            esp: Ref) {
    var n := |parts|;
    && n == (if strue == 0 then 6 else 7) && (forall k :: 0 <= k < n ==> parts[k] != [])
    && parts[0][0] == tsp && parts[1][0] == scond && parts[2][0] == qsp && (strue != 0 ==> parts[3][0] == strue)
    && parts[n - 3][0] == csp && parts[n - 2][0] == sfalse && parts[n - 1][0] == esp
  }

  // From the end of the list towards its front.
  method HangTerms(s: Strings, tsp: Ref, scond: Ref, qsp: Ref, strue: Ref, csp: Ref, sfalse: Ref, esp: Ref,
                   ghost parts: seq<seq<Ref>>)
    requires s.Valid() && PartHeads(parts, tsp, scond, qsp, strue, csp, sfalse, esp)
    requires HungFrom(s.heap, parts, |parts| - 1)
    modifies s`heap
    ensures s.Valid() && HungFrom(s.heap, parts, 0) && Relinked(old(s.heap), s.heap, Flat(parts))
  {
    ghost var n, h0 := |parts|, s.heap;
    Hang(s, sfalse, esp, parts, n - 1, h0);
    Hang(s, csp, sfalse, parts, n - 2, h0);
    var behind := csp;
    if strue != 0 {
      Hang(s, strue, csp, parts, 4, h0);
      behind := strue;
    }
    Hang(s, qsp, behind, parts, 3, h0);
    Hang(s, scond, qsp, parts, 2, h0);
    Hang(s, tsp, scond, parts, 1, h0);
  }

  // The terms and what stands between them are hung on each other.
  method LinkTerms(s: Strings, tsp: Ref, scond: Ref, ghost lc: seq<Ref>, qsp: Ref, strue: Ref, ghost ly: seq<Ref>,
                   csp: Ref, sfalse: Ref, ghost ln: seq<Ref>, esp: Ref) returns (ghost out: seq<Ref>)
    requires s.Valid() && TermsReady(s.heap, scond, lc, qsp, strue, ly, csp, sfalse, ln)
    requires IsList(s.heap, [tsp]) && IsList(s.heap, [esp])
    requires AllApart(Parts(tsp, lc, qsp, ly, csp, ln, esp))
    modifies s`heap
    ensures s.Valid() && out == [tsp] + lc + [qsp] + ly + [csp] + ln + [esp] && IsList(s.heap, out)
    ensures Relinked(old(s.heap), s.heap, out)
  {
    ghost var parts := Parts(tsp, lc, qsp, ly, csp, ln, esp);
    FlatLayout(tsp, lc, qsp, ly, csp, ln, esp);
    FlatOne(esp);
    assert parts[|parts| - 1..] == [[esp]] && parts[0..] == parts;
    HangTerms(s, tsp, scond, qsp, strue, csp, sfalse, esp, parts);
    out := Flat(parts);
  }

  /**
    slaxTernaryRewrite: the terms, the question mark and the colon become one list, threaded by ss_concat from the
    new first segment over the question mark and the colon to the new last one. It shows the layout of the
    conditional if the terms show theirs.
   */
  method TernaryRewrite(s: Strings, n: nat, scond: Ref, ghost lc: seq<Ref>, qsp: Ref, strue: Ref, ghost ly: seq<Ref>,
                        csp: Ref, sfalse: Ref, ghost ln: seq<Ref>, ghost i: Item)
      returns (tsp: Ref, ghost out: seq<Ref>)
    requires s.Valid() && TermsReady(s.heap, scond, lc, qsp, strue, ly, csp, sfalse, ln)
    requires TokOf(s.heap, qsp) == Tok(L_QUESTION, "?") && TokOf(s.heap, csp) == Tok(L_COLON, ":")
    requires !i.Plain? && i.n == n && NumberedItem(i) && (strue == 0 <==> i.Short?)
    requires Shows(s.heap, lc, Layout(i.cond)) && Shows(s.heap, ln, Layout(i.no))
    requires i.Full? ==> Shows(s.heap, ly, Layout(i.yes))
    modifies s
    ensures s.Valid() && IsList(s.heap, out) && out[0] == tsp && Shows(s.heap, out, LayoutItem(i))
    ensures Others(old(s.heap), s.heap, lc + [qsp] + ly + [csp] + ln)
    ensures forall x :: x in out && x in old(s.heap) ==> x in lc + [qsp] + ly + [csp] + ln
  {
    ghost var h := s.heap;
    assert if i.Full? then Shows(h, ly, Layout(i.yes)) else ly == [];
    assert TokOf(h, qsp) == Tok(L_QUESTION, "?") && TokOf(h, csp) == Tok(L_COLON, ":");
    ghost var esp;
    tsp, esp, out := JoinTerms(s, n, scond, lc, qsp, strue, ly, csp, sfalse, ln);
    ghost var h2 := s.heap;
    assert Shows(h2, out, LayoutItem(i)) by {
      TermsShown(h, h2, n, lc, ly, ln, tsp, qsp, csp, esp, i);
    }
  }

  // Three new "concat" links, over the question mark and the colon to the end; else the segments are as they were.
  ghost predicate TermsJoined(h: Heap, h': Heap, n: nat, lc: seq<Ref>, ly: seq<Ref>, ln: seq<Ref>, tsp: Ref, qsp: Ref,
                              csp: Ref, esp: Ref) {
    && KeepsParts(h, h', {tsp, qsp, csp}) && TermsIn(h, lc, qsp, ly, csp, ln)
    && Apart([tsp, qsp, csp], lc) && Apart([tsp, qsp, csp], ly) && Apart([tsp, qsp, csp], ln)
    && tsp in h' && qsp in h' && csp in h'
    && h'[tsp].concat == qsp && h'[qsp].concat == csp && h'[csp].concat == esp
    && TokOf(h', tsp) == TokenOf(Tern(n)) && TokOf(h', esp) == TokenOf(End(n))
  }

  // What that does to the segments, whatever they show.
  method JoinTerms(s: Strings, n: nat, scond: Ref, ghost lc: seq<Ref>, qsp: Ref, strue: Ref, ghost ly: seq<Ref>,
                   csp: Ref, sfalse: Ref, ghost ln: seq<Ref>) returns (tsp: Ref, ghost esp: Ref, ghost out: seq<Ref>)
    requires s.Valid() && TermsReady(s.heap, scond, lc, qsp, strue, ly, csp, sfalse, ln)
    modifies s
    ensures s.Valid() && out == [tsp] + lc + [qsp] + ly + [csp] + ln + [esp] && IsList(s.heap, out)
    ensures Others(old(s.heap), s.heap, lc + [qsp] + ly + [csp] + ln)
    ensures forall x :: x in out && x in old(s.heap) ==> x in lc + [qsp] + ly + [csp] + ln
    ensures TermsJoined(old(s.heap), s.heap, n, lc, ly, ln, tsp, qsp, csp, esp)
  {
    ghost var h := s.heap;
    var newEnd;
    tsp, newEnd := EndsForTerms(s, n, scond, lc, qsp, strue, ly, csp, sfalse, ln);
    esp := newEnd;
    ghost var h1 := s.heap;
    out := ThreadTerms(s, tsp, scond, lc, qsp, strue, ly, csp, sfalse, ln, newEnd);
    AcrossNew(h, h1, s.heap, tsp, lc, qsp, ly, csp, ln, esp, out);
  }

  method EndsForTerms(s: Strings, n: nat, scond: Ref, ghost lc: seq<Ref>, qsp: Ref, strue: Ref, ghost ly: seq<Ref>,
                      csp: Ref, sfalse: Ref, ghost ln: seq<Ref>) returns (tsp: Ref, esp: Ref)
    requires s.Valid() && TermsReady(s.heap, scond, lc, qsp, strue, ly, csp, sfalse, ln)
    modifies s
    ensures s.Valid() && TermsReady(s.heap, scond, lc, qsp, strue, ly, csp, sfalse, ln)
    ensures IsList(s.heap, [tsp]) && IsList(s.heap, [esp]) && AllApart(Parts(tsp, lc, qsp, ly, csp, ln, esp))
    ensures tsp !in old(s.heap) && esp !in old(s.heap) && TermsIn(old(s.heap), lc, qsp, ly, csp, ln)
    ensures forall x :: x in old(s.heap) ==> x in s.heap && s.heap[x] == old(s.heap)[x]
    ensures TokOf(s.heap, tsp) == TokenOf(Tern(n)) && TokOf(s.heap, esp) == TokenOf(End(n))
  {
    ghost var h := s.heap;
    tsp, esp := MakeEnds(s, n);
    NewEnds(h, s.heap, tsp, esp, scond, lc, qsp, strue, ly, csp, sfalse, ln);
  }

  // The first and the last segment, which carry the name of the variable that there will be.
  method MakeEnds(s: Strings, n: nat) returns (tsp: Ref, esp: Ref)
    requires s.Valid()
    modifies s
    ensures s.Valid() && tsp !in old(s.heap) && esp !in old(s.heap) && tsp != esp
    ensures IsList(s.heap, [tsp]) && IsList(s.heap, [esp])
    ensures forall x :: x in old(s.heap) ==> x in s.heap && s.heap[x] == old(s.heap)[x]
    ensures TokOf(s.heap, tsp) == TokenOf(Tern(n)) && TokOf(s.heap, esp) == TokenOf(End(n))
  {
    var varname := "slax:value($slax-ternary-" + Decimal(n) + ")";
    tsp := s.Literal(varname, M_TERNARY);
    esp := s.Literal(varname, M_TERNARY_END);
  }

  // From before the new segments were made to after the links were.
  lemma {:induction false} AcrossNew(h: Heap, h1: Heap, h2: Heap, tsp: Ref, lc: seq<Ref>, qsp: Ref, ly: seq<Ref>,
                                     csp: Ref, ln: seq<Ref>, esp: Ref, out: seq<Ref>)
    requires tsp !in h && esp !in h && forall x :: x in h ==> x in h1 && h1[x] == h[x]
    requires KeepsParts(h1, h2, {tsp, qsp, csp}) && Others(h1, h2, out)
    requires out == [tsp] + lc + [qsp] + ly + [csp] + ln + [esp]
    requires TermsIn(h, lc, qsp, ly, csp, ln) && IsList(h1, [tsp]) && IsList(h1, [esp])
    ensures tsp in h1 && esp in h1 && tsp in h2 && esp in h2
    ensures TokOf(h2, tsp) == TokOf(h1, tsp) && TokOf(h2, esp) == TokOf(h1, esp)
    ensures KeepsParts(h, h2, {tsp, qsp, csp}) && Others(h, h2, lc + [qsp] + ly + [csp] + ln)
    ensures forall x :: x in out && x in h ==> x in lc + [qsp] + ly + [csp] + ln
    ensures Apart([tsp, qsp, csp], lc) && Apart([tsp, qsp, csp], ly) && Apart([tsp, qsp, csp], ln)
  {
    assert [tsp][0] in h1 && [esp][0] in h1;
    assert forall x :: x in h ==> TokOf(h1, x) == TokOf(h, x);
    assert forall x :: x in out <==>
      x == tsp || x == esp || x in lc + [qsp] + ly + [csp] + ln;
  }

  // Hangs the terms on each other and makes the "concat" links.
  method ThreadTerms(s: Strings, tsp: Ref, scond: Ref, ghost lc: seq<Ref>, qsp: Ref, strue: Ref, ghost ly: seq<Ref>,
                     csp: Ref, sfalse: Ref, ghost ln: seq<Ref>, esp: Ref) returns (ghost out: seq<Ref>)
    requires s.Valid() && TermsReady(s.heap, scond, lc, qsp, strue, ly, csp, sfalse, ln)
    requires IsList(s.heap, [tsp]) && IsList(s.heap, [esp])
    requires AllApart(Parts(tsp, lc, qsp, ly, csp, ln, esp)) && tsp != qsp && tsp != csp
    modifies s`heap
    ensures s.Valid() && out == [tsp] + lc + [qsp] + ly + [csp] + ln + [esp] && IsList(s.heap, out)
    ensures KeepsParts(old(s.heap), s.heap, {tsp, qsp, csp}) && Others(old(s.heap), s.heap, out)
    ensures tsp in s.heap && qsp in s.heap && csp in s.heap
    ensures s.heap[tsp].concat == qsp && s.heap[qsp].concat == csp && s.heap[csp].concat == esp
  {
    out := LinkTerms(s, tsp, scond, lc, qsp, strue, ly, csp, sfalse, ln, esp);
    OwnInOut(tsp, lc, qsp, ly, csp, ln, esp);
    SetLinks(s, tsp, qsp, csp, esp, out);
  }

  lemma {:induction false} OwnInOut(tsp: Ref, lc: seq<Ref>, qsp: Ref, ly: seq<Ref>, csp: Ref, ln: seq<Ref>, esp: Ref)
    ensures var out := [tsp] + lc + [qsp] + ly + [csp] + ln + [esp]; tsp in out && qsp in out && csp in out
  {
  }

  method SetLinks(s: Strings, tsp: Ref, qsp: Ref, csp: Ref, esp: Ref, ghost out: seq<Ref>)
    requires s.Valid() && IsList(s.heap, out) && tsp in out && qsp in out && csp in out
    requires tsp != qsp && tsp != csp && qsp != csp
    modifies s`heap
    ensures s.Valid() && IsList(s.heap, out)
    ensures KeepsParts(old(s.heap), s.heap, {tsp, qsp, csp}) && Others(old(s.heap), s.heap, out)
    ensures tsp in s.heap && qsp in s.heap && csp in s.heap
    ensures s.heap[tsp].concat == qsp && s.heap[qsp].concat == csp && s.heap[csp].concat == esp
  {
    ghost var h2 := s.heap;
    s.SetConcat(tsp, qsp);
    s.SetConcat(qsp, csp);
    s.SetConcat(csp, esp);
    SameList(h2, s.heap, out);
  }

  // Two new segments change nothing about the terms.
  lemma {:induction false} NewEnds(h: Heap, h1: Heap, tsp: Ref, esp: Ref, scond: Ref, lc: seq<Ref>, qsp: Ref,
                                   strue: Ref, ly: seq<Ref>, csp: Ref, sfalse: Ref, ln: seq<Ref>)
    requires TermsReady(h, scond, lc, qsp, strue, ly, csp, sfalse, ln)
    requires tsp !in h && esp !in h && tsp != esp && forall x :: x in h ==> x in h1 && h1[x] == h[x]
    ensures TermsReady(h1, scond, lc, qsp, strue, ly, csp, sfalse, ln)
    ensures AllApart(Parts(tsp, lc, qsp, ly, csp, ln, esp))
    ensures TermsIn(h, lc, qsp, ly, csp, ln)
  {
    ListIn(h, lc);
    ListIn(h, ln);
    ListIn(h, [qsp]);
    ListIn(h, [csp]);
    assert [qsp][0] in [qsp] && [csp][0] in [csp];
    SameList(h, h1, lc);
    SameList(h, h1, ln);
    SameList(h, h1, [qsp]);
    SameList(h, h1, [csp]);
    if strue != 0 {
      ListIn(h, ly);
      SameList(h, h1, ly);
    }
    NotInTerms(lc, qsp, ly, csp, ln);
    PartsApart(tsp, lc, qsp, ly, csp, ln, esp);
  }

  ghost predicate InHeap(h: Heap, l: seq<Ref>) {
    forall x :: x in l ==> x in h
  }

  // The terms and the two segments between them are there, and the two are not in the terms.
  ghost predicate TermsIn(h: Heap, lc: seq<Ref>, qsp: Ref, ly: seq<Ref>, csp: Ref, ln: seq<Ref>) {
    && InHeap(h, lc) && InHeap(h, ly) && InHeap(h, ln) && qsp in h && csp in h
    && qsp !in lc && qsp !in ly && qsp !in ln && csp !in lc && csp !in ly && csp !in ln
  }

  lemma {:induction false} ListIn(h: Heap, l: seq<Ref>)
    requires IsList(h, l)
    ensures InHeap(h, l)
  {
  }

  lemma {:induction false} NotInTerms(lc: seq<Ref>, qsp: Ref, ly: seq<Ref>, csp: Ref, ln: seq<Ref>)
    requires qsp !in lc + ly + ln && csp !in lc + ly + ln
    ensures qsp !in lc && qsp !in ly && qsp !in ln && csp !in lc && csp !in ly && csp !in ln
  {
  }

  ghost predicate ApartFromAll(a: seq<Ref>, parts: seq<seq<Ref>>) {
    forall k :: 0 <= k < |parts| ==> Apart(a, parts[k])
  }

  lemma {:induction false} ApartCons(a: seq<Ref>, parts: seq<seq<Ref>>)
    requires AllApart(parts) && ApartFromAll(a, parts)
    ensures AllApart([a] + parts)
  {
    var all := [a] + parts;
    forall i, k | 0 <= i < k < |all| ensures Apart(all[i], all[k]) {
      if i > 0 { assert all[i] == parts[i - 1]; }
      assert all[k] == parts[k - 1];
    }
  }

  lemma {:induction false} LastApart(ly: seq<Ref>, csp: Ref, ln: seq<Ref>, esp: Ref)
    requires Apart(ly, ln) && csp !in ly && csp !in ln && esp !in ly && esp !in ln && esp != csp
    ensures AllApart(if ly == [] then [[csp], ln, [esp]] else [ly, [csp], ln, [esp]])
  {
    ApartCons(ln, [[esp]]);
    ApartCons([csp], [ln, [esp]]);
    assert [[csp]] + [ln, [esp]] == [[csp], ln, [esp]];
    if ly != [] {
      ApartCons(ly, [[csp], ln, [esp]]);
    }
  }

  lemma {:induction false} PartsApart(tsp: Ref, lc: seq<Ref>, qsp: Ref, ly: seq<Ref>, csp: Ref, ln: seq<Ref>, esp: Ref)
    requires Apart(lc, ly) && Apart(lc, ln) && Apart(ly, ln) && qsp != csp && tsp != esp
    requires qsp !in lc && qsp !in ly && qsp !in ln && csp !in lc && csp !in ly && csp !in ln
    requires tsp !in lc && tsp !in ly && tsp !in ln && tsp != qsp && tsp != csp
    requires esp !in lc && esp !in ly && esp !in ln && esp != qsp && esp != csp
    ensures AllApart(Parts(tsp, lc, qsp, ly, csp, ln, esp))
  {
    var tail := if ly == [] then [[csp], ln, [esp]] else [ly, [csp], ln, [esp]];
    LastApart(ly, csp, ln, esp);
    assert ApartFromAll([qsp], tail);
    ApartCons([qsp], tail);
    var more := [[qsp]] + tail;
    assert ApartFromAll(lc, more);
    ApartCons(lc, more);
    var most := [lc] + more;
    assert ApartFromAll([tsp], most);
    ApartCons([tsp], most);
    assert [[tsp]] + most == Parts(tsp, lc, qsp, ly, csp, ln, esp);
  }

  lemma {:induction false} TermsShown(h: Heap, h': Heap, n: nat, lc: seq<Ref>, ly: seq<Ref>, ln: seq<Ref>, tsp: Ref,
                                      qsp: Ref, csp: Ref, esp: Ref, i: Item)
    requires !i.Plain? && i.n == n && NumberedItem(i) && Shows(h, lc, Layout(i.cond)) && Shows(h, ln, Layout(i.no))
    requires if i.Full? then Shows(h, ly, Layout(i.yes)) else ly == []
    requires TermsJoined(h, h', n, lc, ly, ln, tsp, qsp, csp, esp)
    requires TokOf(h, qsp) == Tok(L_QUESTION, "?") && TokOf(h, csp) == Tok(L_COLON, ":")
    ensures Shows(h', [tsp] + lc + [qsp] + ly + [csp] + ln + [esp], LayoutItem(i))
  {
    var own := {tsp, qsp, csp};
    assert forall x :: x in own ==> x in [tsp, qsp, csp];
    var c, y, no := Layout(i.cond), if i.Full? then Layout(i.yes) else [], Layout(i.no);
    var ny := if i.Full? then Numbers(i.yes) else {};
    StillShows(h, h', own, lc, c);
    StillShows(h, h', own, ly, y);
    StillShows(h, h', own, ln, no);
    OnlyNumbers(i.cond);
    OnlyNumbers(i.no);
    if i.Full? { OnlyNumbers(i.yes); }
    ThreadedLayout(h', n, lc, c, ly, y, ln, no, tsp, qsp, csp, esp, Numbers(i.cond), ny, Numbers(i.no));
    LooksBoth(h', [tsp], [Tern(n)], lc, c);
    LooksBoth(h', [tsp] + lc, [Tern(n)] + c, [qsp], [Quest(n)]);
    LooksBoth(h', [tsp] + lc + [qsp], [Tern(n)] + c + [Quest(n)], ly, y);
    LooksBoth(h', [tsp] + lc + [qsp] + ly, [Tern(n)] + c + [Quest(n)] + y, [csp], [Colon(n)]);
    LooksBoth(h', [tsp] + lc + [qsp] + ly + [csp], [Tern(n)] + c + [Quest(n)] + y + [Colon(n)], ln, no);
    LooksBoth(h', [tsp] + lc + [qsp] + ly + [csp] + ln, [Tern(n)] + c + [Quest(n)] + y + [Colon(n)] + no,
              [esp], [End(n)]);
    Seqs.NoChange([Tern(n)] + c + [Quest(n)]);
  }
}
