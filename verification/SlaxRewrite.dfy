/**
  The rewriting of concatenations on the linked segments themselves.
 */
module SlaxRewrite {
  import Seqs
  import opened SlaxString
  import opened SlaxConcat

  /** The ss_concat chain from the head visits these places in turn and ends at the last. */
  ghost predicate ChainAt(h: Heap, l: seq<Ref>, marks: seq<nat>)
  {
    marks != [] ==>
      && l != [] && (forall i :: 0 <= i < |l| ==> l[i] in h)
      && (forall i :: 0 <= i < |marks| ==> marks[i] < |l|)
      && h[l[0]].concat == l[marks[0]]
      && (forall i :: 0 <= i < |marks| - 1 ==> h[l[marks[i]]].concat == l[marks[i + 1]])
      && h[l[marks[|marks| - 1]]].concat == 0
  }

  // Segments outside a list are as they were.
  ghost predicate Others(h: Heap, h': Heap, l: seq<Ref>) {
    forall x :: x in h && x !in l ==> x in h' && h'[x] == h[x]
  }

  // Only ss_next has changed, and for segments of the list alone.
  ghost predicate Relinked(h: Heap, h': Heap, l: seq<Ref>) {
    h'.Keys == h.Keys && Others(h, h', l) && forall x :: x in h ==> h'[x] == h[x].(next := h'[x].next)
  }

  ghost predicate Inside(a: seq<Ref>, l: seq<Ref>) {
    forall x :: x in a ==> x in l
  }

  lemma {:induction false} CallTokensInside(conp: Ref, openp: Ref, commap: Ref, ls: seq<Ref>)
    ensures Inside([conp, openp] + ls, [conp, openp, commap] + ls) && Inside([conp, commap], [conp, openp, commap] + ls)
  {
  }

  lemma {:induction false} OthersTwice(h: Heap, h1: Heap, h2: Heap, a: seq<Ref>, b: seq<Ref>, l: seq<Ref>)
    requires Others(h, h1, a) && Others(h1, h2, b) && Inside(a, l) && Inside(b, l)
    ensures Others(h, h2, l)
  {
  }

  lemma {:induction false} ThreeRelinked(h: Heap, a: Ref, na: Ref, b: Ref, nb: Ref, c: Ref, nc: Ref, l: seq<Ref>)
    requires a in h && b in h && c in h && a in l && b in l && c in l && a != b && a != c && b != c
    ensures Relinked(h, h[a := h[a].(next := na)][b := h[b].(next := nb)][c := h[c].(next := nc)], l)
  {
  }

  // The flags of a segment tell the quotes in it.
  ghost predicate Flagged(h: Heap, r: Ref) {
    r in h && h[r].quotes == QuotesIn(h[r].token)
  }

  function TextFrom(toks: seq<Tok>): string {
    if toks == [] then "" else TextFrom(toks[..|toks| - 1]) + toks[|toks| - 1].token
  }

  lemma {:induction false} TextOfPair(a: Tok, b: Tok)
    ensures TextFrom([a, b]) == a.token + b.token
  {
    assert [a, b][..1] == [a] && [a][..0] == [];
    assert TextFrom([a]) == TextFrom([]) + a.token;
  }

  /** slaxStringFuse: one segment holding the text of a whole list, or nothing if there is no text. */
  method Fuse(s: Strings, start: Ref, ghost l: seq<Ref>) returns (res: Ref)
    requires s.Valid() && IsList(s.heap, l) && l[0] == start
    modifies s
    ensures s.Valid()
    ensures res == 0 <==> TextFrom(old(Toks(s.heap, l))) == ""
    ensures res == 0 ==> s.heap == old(s.heap)
    ensures res != 0 ==>
      var text := TextFrom(old(Toks(s.heap, l)));
      res !in old(s.heap) && s.heap == old(s.heap)[res := Segment(0, 0, old(s.heap)[start].ttype, QuotesIn(text), text)]
  {
    var text := "";
    var ssp := start;
    ghost var i := 0;
    while ssp != 0
      invariant 0 <= i <= |l| && ssp == (if i < |l| then l[i] else 0)
      invariant text == TextFrom(Toks(s.heap, l)[..i])
      decreases |l| - i
    {
      assert Toks(s.heap, l)[..i + 1][..i] == Toks(s.heap, l)[..i];
      assert s.heap[l[i]].next == NextIn(l, i);
      text := text + s.heap[ssp].token;
      ssp := s.heap[ssp].next;
      i := i + 1;
    }
    assert Toks(s.heap, l)[..|l|] == Toks(s.heap, l);
    if |text| == 0 {
      return 0;
    }
    res := s.Literal(text, s.heap[start].ttype);
  }

  // Two literals of one segment each, not both empty, become one.
  method FuseTwo(s: Strings, left: Ref, right: Ref) returns (res: Ref)
    requires s.Valid() && IsList(s.heap, [left]) && IsList(s.heap, [right]) && left != right
    requires left in s.heap && right in s.heap && |s.heap[left].token + s.heap[right].token| > 0
    modifies s
    ensures s.Valid() && IsList(s.heap, [res])
    ensures Toks(s.heap, [res])
      == [Tok(old(s.heap)[left].ttype, old(s.heap)[left].token + old(s.heap)[right].token)]
    ensures res !in old(s.heap) && Flagged(s.heap, res) && Others(old(s.heap), s.heap, [left, right])
  {
    ghost var lt, rt := TokOf(s.heap, left), TokOf(s.heap, right);
    s.Link(left, [left], right, [right]);
    assert Toks(s.heap, [left] + [right]) == [lt, rt];
    TextOfPair(lt, rt);
    res := Fuse(s, left, [left] + [right]);
  }

  // ----- the operands of a rewrite

  ghost predicate OperandsReady(h: Heap, left: Ref, ls: seq<Ref>, op: Ref, right: Ref, rs: seq<Ref>) {
    && IsList(h, ls) && ls[0] == left && IsList(h, rs) && rs[0] == right && Apart(ls, rs)
    && op != 0 && op in h && op !in ls && op !in rs && h[op].next == 0 && h[op].concat == 0
  }

  // What an existing concat() brings: its chain, ending at its closing parenthesis.
  ghost predicate CallReady(h: Heap, ls: seq<Ref>, marks: seq<nat>)
    requires IsList(h, ls)
  {
    && TokOf(h, ls[|ls| - 1]) == CLOSE && |ls| > 1 && marks != [] && marks[|marks| - 1] == |ls| - 1
    && ChainAt(h, ls, marks) && forall i, k :: 0 <= i < k < |marks| ==> marks[i] < marks[k]
  }

  ghost predicate RightLinked(h: Heap, h': Heap, sep: Ref, right: Ref, rs: seq<Ref>, op: Ref)
    requires rs != []
  {
    h'.Keys == h.Keys && forall x :: x in h ==>
      h'[x] == if x == sep then h[x].(next := right) else if x == rs[|rs| - 1] then h[x].(next := op) else h[x]
  }

  lemma {:induction false} KeptAside(h: Heap, h': Heap, sep: Ref, right: Ref, rs: seq<Ref>, op: Ref, l: seq<Ref>)
    requires rs != [] && RightLinked(h, h', sep, right, rs, op) && IsList(h, l) && sep !in l && Apart(l, rs)
    ensures IsList(h', l) && Toks(h', l) == Toks(h, l)
  {
    assert rs[|rs| - 1] in rs;
    SameList(h, h', l);
  }

  // `sep` -> right... -> `op`
  method LinkRight(s: Strings, sep: Ref, right: Ref, ghost rs: seq<Ref>, op: Ref) returns (ghost out: seq<Ref>)
    requires s.Valid() && IsList(s.heap, rs) && rs[0] == right && sep != op && sep !in rs && op !in rs
    requires IsList(s.heap, [sep]) && IsList(s.heap, [op])
    modifies s`heap
    ensures s.Valid() && out == [sep] + rs + [op] && IsList(s.heap, out)
    ensures Toks(s.heap, out) == [TokOf(old(s.heap), sep)] + Toks(old(s.heap), rs) + [TokOf(old(s.heap), op)]
    ensures RightLinked(old(s.heap), s.heap, sep, right, rs, op)
  {
    ghost var h := s.heap;
    s.Link(right, rs, op, [op]);
    assert rs[|rs| - 1] in rs;
    SameList(h, s.heap, [sep]);
    s.Link(sep, [sep], right, rs + [op]);
    out := [sep] + rs + [op];
    assert out == [sep] + (rs + [op]);
  }

  lemma {:induction false} InFront<T>(x: T, y: T, a: seq<T>, b: seq<T>)
    ensures [x] + ([y] + (a + b)) == [x, y] + a + b
  {
    assert [x] + [y] == [x, y];
    Seqs.Assoc4([x], [y], a, b);
  }

  // `conp` -> `openp` -> list...
  method LinkFront(s: Strings, conp: Ref, openp: Ref, head: Ref, ghost l: seq<Ref>)
    requires s.Valid() && IsList(s.heap, l) && l[0] == head && conp !in l && openp !in l
    requires IsList(s.heap, [conp]) && IsList(s.heap, [openp]) && conp != openp
    modifies s`heap
    ensures s.Valid() && IsList(s.heap, [conp] + ([openp] + l))
    ensures conp in old(s.heap) && openp in old(s.heap)
    ensures s.heap == old(s.heap)[openp := old(s.heap)[openp].(next := head)][conp := old(s.heap)[conp].(next := openp)]
    ensures Toks(s.heap, [conp] + ([openp] + l))
      == [TokOf(old(s.heap), conp)] + ([TokOf(old(s.heap), openp)] + Toks(old(s.heap), l))
  {
    ghost var h := s.heap;
    assert conp in [conp] && openp in [openp];
    s.Link(openp, [openp], head, l);
    SameList(h, s.heap, [conp]);
    s.Link(conp, [conp], openp, [openp] + l);
  }

  // `conp` -> `openp` -> left... -> tail...
  method LinkLeft(s: Strings, conp: Ref, openp: Ref, left: Ref, ghost ls: seq<Ref>, more: Ref, ghost tail: seq<Ref>)
    returns (ghost out: seq<Ref>)
    requires s.Valid() && IsList(s.heap, ls) && ls[0] == left && IsList(s.heap, tail) && tail[0] == more
    requires Apart(ls, tail)
    requires IsList(s.heap, [conp]) && IsList(s.heap, [openp]) && conp != openp
    requires conp !in ls + tail && openp !in ls + tail
    modifies s`heap
    ensures s.Valid() && out == [conp, openp] + ls + tail && IsList(s.heap, out)
    ensures Toks(s.heap, out)
      == [TokOf(old(s.heap), conp), TokOf(old(s.heap), openp)] + Toks(old(s.heap), ls) + Toks(old(s.heap), tail)
    ensures Relinked(old(s.heap), s.heap, [conp, openp] + ls)
  {
    ghost var h := s.heap;
    assert ls[|ls| - 1] in ls;
    s.Link(left, ls, more, tail);
    SameList(h, s.heap, [conp]);
    SameList(h, s.heap, [openp]);
    LinkFront(s, conp, openp, left, ls + tail);
    ThreeRelinked(h, ls[|ls| - 1], more, openp, left, conp, openp, [conp, openp] + ls);
    out := [conp, openp] + ls + tail;
    InFront(conp, openp, ls, tail);
    InFront(TokOf(h, conp), TokOf(h, openp), Toks(h, ls), Toks(h, tail));
  }

  /** The first time: concat, an opening parenthesis and a comma are made, and `op` closes. */
  method BuildCall(s: Strings, left: Ref, ghost ls: seq<Ref>, op: Ref, right: Ref, ghost rs: seq<Ref>)
    returns (res: Ref, ghost out: seq<Ref>)
    requires s.Valid() && OperandsReady(s.heap, left, ls, op, right, rs) && TokOf(s.heap, op) == CLOSE
    modifies s
    ensures s.Valid() && IsList(s.heap, out) && out[0] == res
    ensures Toks(s.heap, out) == [CONCAT, OPEN] + old(Toks(s.heap, ls)) + [COMMA] + old(Toks(s.heap, rs)) + [CLOSE]
    ensures ChainAt(s.heap, out, [2 + |ls|, 3 + |ls| + |rs|])
    ensures Flagged(s.heap, res) && Others(old(s.heap), s.heap, ls + rs + [op])
    ensures forall x :: x in out && x in old(s.heap) ==> x in ls + rs + [op]
  {
    ghost var h := s.heap;
    var conp, openp, commap := CallTokens(s);
    ghost var h0, made := s.heap, [conp, openp, commap];
    FreshKeeps(h, h0, ls, made);
    FreshKeeps(h, h0, rs, made);
    FreshKeeps(h, h0, [op], made);
    MadeApart(ls, commap, rs, op, conp, openp);
    out := LinkCall(s, conp, openp, commap, left, ls, op, right, rs);
    CallFrame(h, h0, s.heap, conp, openp, commap, ls, rs, op);
    ghost var lt, rt := Toks(h, ls), Toks(h, rs);
    Seqs.Assoc([CONCAT, OPEN] + lt, [COMMA] + rt, [CLOSE]);
    Seqs.Assoc([CONCAT, OPEN] + lt, [COMMA], rt);
    return conp, out;
  }

  // The links of the source, made from the end of the list towards its front.
  method LinkCall(s: Strings, conp: Ref, openp: Ref, commap: Ref, left: Ref, ghost ls: seq<Ref>, op: Ref, right: Ref,
                  ghost rs: seq<Ref>) returns (ghost out: seq<Ref>)
    requires s.Valid() && IsList(s.heap, ls) && ls[0] == left && IsList(s.heap, rs) && rs[0] == right && Apart(ls, rs)
    requires IsList(s.heap, [op]) && IsList(s.heap, [conp]) && IsList(s.heap, [openp]) && IsList(s.heap, [commap])
    requires Apart(ls, [commap] + rs + [op]) && conp != openp && conp !in ls + ([commap] + rs + [op])
    requires openp !in ls + ([commap] + rs + [op]) && commap !in rs && commap != op && conp != op && op !in rs
    requires conp != commap && Apart([conp], rs) && Apart([openp], rs) && commap !in ls && openp != commap
    requires op in s.heap && s.heap[op].concat == 0
    modifies s`heap
    ensures s.Valid() && out == [conp, openp] + ls + ([commap] + rs + [op]) && IsList(s.heap, out)
    ensures Toks(s.heap, out) == [TokOf(old(s.heap), conp), TokOf(old(s.heap), openp)] + Toks(old(s.heap), ls)
      + ([TokOf(old(s.heap), commap)] + Toks(old(s.heap), rs) + [TokOf(old(s.heap), op)])
    ensures ChainAt(s.heap, out, [2 + |ls|, 3 + |ls| + |rs|])
    ensures Others(old(s.heap), s.heap, [conp, openp, commap] + ls + rs)
    ensures Flagged(old(s.heap), conp) ==> Flagged(s.heap, conp)
  {
    ghost var h0 := s.heap;
    ghost var tail := LinkRight(s, commap, right, rs, op);
    ghost var h1 := s.heap;
    KeptAside(h0, h1, commap, right, rs, op, ls);
    KeptAside(h0, h1, commap, right, rs, op, [conp]);
    KeptAside(h0, h1, commap, right, rs, op, [openp]);
    assert rs[|rs| - 1] in rs && Toks(h1, [conp]) == [TokOf(h1, conp)] && Toks(h1, [openp]) == [TokOf(h1, openp)];
    assert Toks(h0, [conp]) == [TokOf(h0, conp)] && Toks(h0, [openp]) == [TokOf(h0, openp)];
    out := FinishCall(s, conp, openp, left, ls, commap, rs, op, tail);
    forall x | x in h0 && x !in [conp, openp, commap] + ls + rs ensures x in s.heap && s.heap[x] == h0[x] {
      assert x !in [conp, openp, commap] + ls;
    }
  }

  // The segments that a call is made of, old and new.
  lemma {:induction false} CallFrame(h: Heap, h0: Heap, h2: Heap, conp: Ref, openp: Ref, commap: Ref, ls: seq<Ref>,
                                     rs: seq<Ref>, op: Ref)
    requires conp !in h && openp !in h && commap !in h && forall x :: x in h ==> x in h0 && h0[x] == h[x]
    requires Others(h0, h2, [conp, openp, commap] + ls + rs)
    ensures Others(h, h2, ls + rs + [op])
    ensures forall x :: x in [conp, openp] + ls + ([commap] + rs + [op]) && x in h ==> x in ls + rs + [op]
  {
    forall x | x in h && x !in ls + rs + [op] ensures x in h2 && h2[x] == h[x] {
      assert x !in [conp, openp, commap] + ls + rs;
    }
  }

  // Where the segments of a call stand.
  lemma {:induction false} CallPlaces(out: seq<Ref>, conp: Ref, openp: Ref, ls: seq<Ref>, commap: Ref,
                                      rs: seq<Ref>, op: Ref)
    requires out == [conp, openp] + ls + ([commap] + rs + [op])
    ensures |out| == 4 + |ls| + |rs| && out[0] == conp && out[2 + |ls|] == commap && out[3 + |ls| + |rs|] == op
    ensures conp in out && commap in out
  {
    assert out[0] == conp && out[2 + |ls|] == commap && out[3 + |ls| + |rs|] == op;
  }

  method FinishCall(s: Strings, conp: Ref, openp: Ref, left: Ref, ghost ls: seq<Ref>, commap: Ref, ghost rs: seq<Ref>,
                    op: Ref, ghost tail: seq<Ref>) returns (ghost out: seq<Ref>)
    requires s.Valid() && IsList(s.heap, ls) && ls[0] == left && IsList(s.heap, tail) && Apart(ls, tail)
    requires IsList(s.heap, [conp]) && IsList(s.heap, [openp]) && conp != openp
    requires conp !in ls + tail && openp !in ls + tail && conp != commap && commap != op && conp != op
    requires tail == [commap] + rs + [op] && op in s.heap && s.heap[op].concat == 0
    modifies s`heap
    ensures s.Valid() && out == [conp, openp] + ls + tail && IsList(s.heap, out)
    ensures Toks(s.heap, out)
      == [TokOf(old(s.heap), conp), TokOf(old(s.heap), openp)] + Toks(old(s.heap), ls) + Toks(old(s.heap), tail)
    ensures ChainAt(s.heap, out, [2 + |ls|, 3 + |ls| + |rs|])
    ensures Others(old(s.heap), s.heap, [conp, openp, commap] + ls)
    ensures Flagged(old(s.heap), conp) ==> Flagged(s.heap, conp)
  {
    out := LinkLeft(s, conp, openp, left, ls, commap, tail);
    CallPlaces(out, conp, openp, ls, commap, rs, op);
    ghost var h1 := s.heap;
    SetTwoLinks(s, conp, commap, op, out);
    ghost var marks := [2 + |ls|, 3 + |ls| + |rs|];
    CallChain(s.heap, out, conp, commap, op, marks);
    CallTokensInside(conp, openp, commap, ls);
    OthersTwice(old(s.heap), h1, s.heap, [conp, openp] + ls, [conp, commap], [conp, openp, commap] + ls);
  }

  method SetTwoLinks(s: Strings, conp: Ref, commap: Ref, op: Ref, ghost out: seq<Ref>)
    requires s.Valid() && IsList(s.heap, out) && conp in s.heap && commap in s.heap && op in s.heap
    requires conp != commap && conp != op && commap != op
    modifies s`heap
    ensures s.Valid() && IsList(s.heap, out) && Toks(s.heap, out) == Toks(old(s.heap), out)
    ensures conp in s.heap && commap in s.heap && op in s.heap && Others(old(s.heap), s.heap, [conp, commap])
    ensures s.heap[conp].concat == commap && s.heap[commap].concat == op && s.heap[op] == old(s.heap)[op]
    ensures Flagged(old(s.heap), conp) ==> Flagged(s.heap, conp)
  {
    ghost var h2 := s.heap;
    s.SetConcat(conp, commap);
    s.SetConcat(commap, op);
    SameList(h2, s.heap, out);
  }

  method CallTokens(s: Strings) returns (conp: Ref, openp: Ref, commap: Ref)
    requires s.Valid()
    modifies s
    ensures s.Valid() && conp != openp && conp != commap && openp != commap
    ensures conp !in old(s.heap) && openp !in old(s.heap) && commap !in old(s.heap)
    ensures forall x :: x in old(s.heap) ==> x in s.heap && s.heap[x] == old(s.heap)[x]
    ensures IsList(s.heap, [conp]) && IsList(s.heap, [openp]) && IsList(s.heap, [commap])
    ensures Flagged(s.heap, conp)
    ensures TokOf(s.heap, conp) == CONCAT && TokOf(s.heap, openp) == OPEN && TokOf(s.heap, commap) == COMMA
  {
    conp := s.Literal("concat", M_CONCAT);
    openp := s.Literal("(", L_OPAREN);
    commap := s.Literal(",", L_COMMA);
  }

  lemma {:induction false} FreshKeeps(h: Heap, h': Heap, l: seq<Ref>, made: seq<Ref>)
    requires IsList(h, l) && (forall x :: x in h ==> x in h' && h'[x] == h[x])
    requires forall x :: x in made ==> x !in h
    ensures IsList(h', l) && Toks(h', l) == Toks(h, l) && Apart(l, made)
  {
    SameList(h, h', l);
    forall x | x in l ensures x !in made {
      var i :| 0 <= i < |l| && l[i] == x;
    }
  }

  lemma {:induction false} MadeApart(ls: seq<Ref>, sep: Ref, rs: seq<Ref>, op: Ref, conp: Ref, openp: Ref)
    requires Apart(ls, rs) && op !in ls && rs != []
    requires Apart(ls, [conp, openp, sep]) && Apart(rs, [conp, openp, sep]) && Apart([op], [conp, openp, sep])
    requires conp != sep && openp != sep
    ensures var tail := [sep] + rs + [op]; Apart(ls, tail) && conp !in ls + tail && openp !in ls + tail
    ensures sep !in ls && sep !in rs && sep != op && conp != op && Apart([conp], rs) && Apart([openp], rs)
    ensures op != rs[|rs| - 1] || op in rs
  {
    assert conp in [conp, openp, sep] && openp in [conp, openp, sep] && sep in [conp, openp, sep];
    assert op in [op];
  }

  lemma {:induction false} CallChain(h: Heap, out: seq<Ref>, conp: Ref, commap: Ref, op: Ref, marks: seq<nat>)
    requires IsList(h, out) && |marks| == 2 && marks[0] < |out| && marks[1] < |out|
    requires out[0] == conp && out[marks[0]] == commap && out[marks[1]] == op
    requires h[conp].concat == commap && h[commap].concat == op && h[op].concat == 0
    ensures ChainAt(h, out, marks)
  {
  }

  /** The next times: the old closing parenthesis becomes a comma, and `op` closes. */
  method ExtendCall(s: Strings, left: Ref, ghost ls: seq<Ref>, op: Ref, right: Ref, ghost rs: seq<Ref>,
                    ghost marks: seq<nat>)
    returns (res: Ref, ghost out: seq<Ref>)
    requires s.Valid() && OperandsReady(s.heap, left, ls, op, right, rs) && TokOf(s.heap, op) == CLOSE
    requires s.heap[ls[|ls| - 1]].ttype == L_CPAREN ==> CallReady(s.heap, ls, marks)
    modifies s`heap
    ensures s.Valid() && IsList(s.heap, out) && out[0] == res
    ensures if old(s.heap)[ls[|ls| - 1]].ttype == L_CPAREN then
              && Toks(s.heap, out) == old(Toks(s.heap, ls))[..|ls| - 1] + [COMMA] + old(Toks(s.heap, rs)) + [CLOSE]
              && ChainAt(s.heap, out, marks + [|ls| + |rs|])
            else out == ls && s.heap == old(s.heap)
    ensures Flagged(old(s.heap), left) ==> Flagged(s.heap, res)
    ensures Others(old(s.heap), s.heap, ls + rs + [op]) && forall x :: x in out ==> x in ls + rs + [op]
  {
    ghost var h := s.heap;
    var commap := s.LastOf(left, ls);
    if s.heap[commap].ttype != L_CPAREN {
      return left, ls;
    }
    s.Retag(commap, L_COMMA, ',');
    assert ")"[0 := ','] == ",";
    RetaggedLast(h, s.heap, ls);
    assert commap in ls;
    SameList(h, s.heap, rs);
    ghost var h1 := s.heap;
    HangOn(s, left, ls, op, right, rs);
    out := ls + (rs + [op]);
    HungFrame(h, h1, s.heap, left, ls, op, rs);
    ChainExtended(h, s.heap, ls, rs, op, marks);
    return left, out;
  }

  // Linked behind each other, with a "concat" link from the end of the one list to `op`.
  ghost predicate HungOn(h: Heap, h': Heap, ls: seq<Ref>, op: Ref, rs: seq<Ref>)
    requires ls != []
  {
    h'.Keys == h.Keys && forall x :: x in h ==>
      && h'[x] == h[x].(next := h'[x].next, concat := if x == ls[|ls| - 1] then op else h[x].concat)
      && (x !in ls + rs ==> h'[x].next == h[x].next)
  }

  // From before the closing parenthesis was made a comma.
  lemma {:induction false} HungFrame(h: Heap, h1: Heap, h': Heap, left: Ref, ls: seq<Ref>, op: Ref, rs: seq<Ref>)
    requires ls != [] && ls[0] == left && ls[|ls| - 1] in h && HungOn(h1, h', ls, op, rs)
    requires TokOf(h, ls[|ls| - 1]) == CLOSE
    requires var end := ls[|ls| - 1]; h1 == h[end := h[end].(ttype := L_COMMA, token := ",")]
    ensures h'.Keys == h.Keys && Others(h, h', ls + rs + [op])
    ensures forall x :: x in h ==> h'[x].concat == if x == ls[|ls| - 1] then op else h[x].concat
    ensures Flagged(h, left) ==> Flagged(h', left)
  {
    assert ls[|ls| - 1] in ls;
    forall x | x in h && x !in ls + rs + [op] ensures x in h' && h'[x] == h[x] {
      assert x !in ls + rs && x != ls[|ls| - 1];
    }
    assert QuotesIn(")") == QuotesIn(",");
  }

  method HangOn(s: Strings, left: Ref, ghost ls: seq<Ref>, op: Ref, right: Ref, ghost rs: seq<Ref>)
    requires s.Valid() && OperandsReady(s.heap, left, ls, op, right, rs)
    modifies s`heap
    ensures s.Valid() && IsList(s.heap, ls + (rs + [op]))
    ensures Toks(s.heap, ls + (rs + [op])) == old(Toks(s.heap, ls)) + (old(Toks(s.heap, rs)) + [TokOf(old(s.heap), op)])
    ensures HungOn(old(s.heap), s.heap, ls, op, rs)
  {
    var last := s.LastOf(left, ls);
    assert last in ls;
    AppendRight(s, left, ls, op, right, rs);
    ghost var h := s.heap;
    s.SetConcat(last, op);
    SameList(h, s.heap, ls + (rs + [op]));
  }

  // left... -> right... -> `op`
  method AppendRight(s: Strings, left: Ref, ghost ls: seq<Ref>, op: Ref, right: Ref, ghost rs: seq<Ref>)
    requires s.Valid() && OperandsReady(s.heap, left, ls, op, right, rs)
    modifies s`heap
    ensures s.Valid() && IsList(s.heap, ls + (rs + [op]))
    ensures Toks(s.heap, ls + (rs + [op])) == old(Toks(s.heap, ls)) + (old(Toks(s.heap, rs)) + [TokOf(old(s.heap), op)])
    ensures Relinked(old(s.heap), s.heap, ls + rs)
  {
    ghost var h := s.heap;
    assert ls[|ls| - 1] in ls;
    s.Link(right, rs, op, [op]);
    assert rs[|rs| - 1] in rs;
    SameList(h, s.heap, ls);
    s.Link(left, ls, right, rs + [op]);
  }

  lemma {:induction false} RetaggedLast(h: Heap, h': Heap, ls: seq<Ref>)
    requires IsList(h, ls) && TokOf(h, ls[|ls| - 1]) == CLOSE
    requires var end := ls[|ls| - 1]; h' == h[end := h[end].(ttype := L_COMMA, token := ",")]
    ensures IsList(h', ls) && Toks(h', ls) == Toks(h, ls)[..|ls| - 1] + [COMMA]
  {
    forall i | 0 <= i < |ls| ensures h'[ls[i]].next == NextIn(ls, i) {
      assert h[ls[i]].next == NextIn(ls, i);
    }
  }

  lemma {:induction false} ChainExtended(h: Heap, h': Heap, ls: seq<Ref>, rs: seq<Ref>, op: Ref, marks: seq<nat>)
    requires IsList(h, ls) && CallReady(h, ls, marks) && op in h && h[op].concat == 0
    requires forall x :: x in ls + (rs + [op]) ==> x in h && x in h'
    requires op !in ls
    requires forall x :: x in h && x in h' ==> h'[x].concat == if x == ls[|ls| - 1] then op else h[x].concat
    ensures ChainAt(h', ls + (rs + [op]), marks + [|ls| + |rs|])
  {
    var out, m := ls + (rs + [op]), marks + [|ls| + |rs|];
    var n := |marks|;
    assert out[|ls| + |rs|] == op;
    forall i | 0 <= i < n
      ensures out[marks[i]] == ls[marks[i]] && out[marks[i]] in out && (i < n - 1 ==> marks[i] < |ls| - 1)
    {
      assert i < n - 1 ==> marks[i] < marks[n - 1];
    }
    forall i | 0 <= i < |out| ensures out[i] in h' {
      assert out[i] in out;
    }
    assert ls[0] != ls[|ls| - 1];
    forall i | 0 <= i < |m| - 1 ensures h'[out[m[i]]].concat == out[m[i + 1]] {
      if i < n - 1 {
        assert ls[marks[i]] != ls[|ls| - 1];
      }
    }
  }

  /** slaxConcatRewrite.  Two empty literals are excluded: see TwoEmptiesLoop. */
  method ConcatRewrite(s: Strings, left: Ref, ghost ls: seq<Ref>, op: Ref, right: Ref, ghost rs: seq<Ref>,
                       ghost marks: seq<nat>)
    returns (res: Ref, ghost out: seq<Ref>)
    requires s.Valid()
    requires left != 0 && op != 0 && right != 0 ==>
      && OperandsReady(s.heap, left, ls, op, right, rs) && |s.heap[op].token| == 1
      && Flagged(s.heap, left) && Flagged(s.heap, right)
      && !Stuck(Toks(s.heap, ls), Toks(s.heap, rs))
      && (if s.heap[left].ttype == M_CONCAT then s.heap[ls[|ls| - 1]].ttype == L_CPAREN ==> CallReady(s.heap, ls, marks)
          else marks == [])
    modifies s
    ensures s.Valid()
    ensures left == 0 || op == 0 || right == 0 ==> res == left && out == ls && s.heap == old(s.heap)
    ensures left != 0 && op != 0 && right != 0 ==>
      var was := Expr(Toks(old(s.heap), ls), marks);
      var x := Rewrite(was, Toks(old(s.heap), rs));
      && IsList(s.heap, out) && out[0] == res && Toks(s.heap, out) == x.toks
      && (x != was ==> ChainAt(s.heap, out, x.marks))
      && Flagged(s.heap, res) && Others(old(s.heap), s.heap, ls + rs + [op])
      && forall x :: x in out && x in old(s.heap) ==> x in ls + rs + [op]
  {
    out := ls;
    if left == 0 || op == 0 || right == 0 {
      return left, out;
    }
    ghost var h, lt, rt := s.heap, Toks(s.heap, ls), Toks(s.heap, rs);
    assert h[ls[0]].next == NextIn(ls, 0) && h[rs[0]].next == NextIn(rs, 0);
    if s.heap[left].ttype == T_QUOTED && s.heap[right].ttype == T_QUOTED
       && s.heap[left].next == 0 && s.heap[right].next == 0
       && s.heap[left].quotes == s.heap[right].quotes {
      assert ls == [left] && rs == [right] && left in ls && right in rs;
      res := FuseTwo(s, left, right);
      return res, [res];
    }
    assert !Fuses(lt, rt);
    res, out := IntoCall(s, left, ls, op, right, rs, marks);
  }

  lemma {:induction false} NotFused(l: Expr, r: seq<Tok>)
    requires l.toks != [] && !Fuses(l.toks, r) && (l.toks[0].ttype != M_CONCAT ==> l.marks == [])
    ensures Rewrite(l, r) ==
      if l.toks[0].ttype != M_CONCAT then
        Expr([CONCAT, OPEN] + l.toks + [COMMA] + r + [CLOSE], [2 + |l.toks|, 3 + |l.toks| + |r|])
      else if l.toks[|l.toks| - 1].ttype == L_CPAREN then
        Expr(l.toks[..|l.toks| - 1] + [COMMA] + r + [CLOSE], l.marks + [|l.toks| + |r|])
      else l
  {
  }

  // What is not fused becomes a call, or part of the one there is.
  method IntoCall(s: Strings, left: Ref, ghost ls: seq<Ref>, op: Ref, right: Ref, ghost rs: seq<Ref>,
                  ghost marks: seq<nat>)
    returns (res: Ref, ghost out: seq<Ref>)
    requires s.Valid() && OperandsReady(s.heap, left, ls, op, right, rs) && |s.heap[op].token| == 1
    requires left in s.heap && Flagged(s.heap, left) && !Fuses(Toks(s.heap, ls), Toks(s.heap, rs))
    requires if s.heap[left].ttype == M_CONCAT then
               s.heap[ls[|ls| - 1]].ttype == L_CPAREN ==> CallReady(s.heap, ls, marks)
             else marks == []
    modifies s
    ensures s.Valid()
    ensures var was := Expr(Toks(old(s.heap), ls), marks);
      var x := Rewrite(was, Toks(old(s.heap), rs));
      && IsList(s.heap, out) && out[0] == res && Toks(s.heap, out) == x.toks
      && (x != was ==> ChainAt(s.heap, out, x.marks))
    ensures Flagged(s.heap, res) && Others(old(s.heap), s.heap, ls + rs + [op])
    ensures forall x :: x in out && x in old(s.heap) ==> x in ls + rs + [op]
  {
    ghost var lt, rt := Toks(s.heap, ls), Toks(s.heap, rs);
    assert TokOf(s.heap, left) == lt[0] && TokOf(s.heap, ls[|ls| - 1]) == lt[|lt| - 1];
    NotFused(Expr(lt, marks), rt);
    ghost var x := Rewrite(Expr(lt, marks), rt);
    if s.heap[left].ttype != M_CONCAT {
      assert x.toks == [CONCAT, OPEN] + lt + [COMMA] + rt + [CLOSE] && x.marks == [2 + |ls|, 3 + |ls| + |rs|];
      res, out := FirstCall(s, left, ls, op, right, rs);
    } else {
      assert if lt[|lt| - 1].ttype == L_CPAREN then
               x.toks == lt[..|lt| - 1] + [COMMA] + rt + [CLOSE] && x.marks == marks + [|ls| + |rs|]
             else x == Expr(lt, marks);
      res, out := NextCall(s, left, ls, op, right, rs, marks);
    }
  }

  // The operator becomes the closing parenthesis.
  method CloseWith(s: Strings, ghost ls: seq<Ref>, op: Ref, ghost rs: seq<Ref>)
    requires s.Valid() && IsList(s.heap, ls) && IsList(s.heap, rs) && op in s.heap && op !in ls && op !in rs
    requires |s.heap[op].token| == 1
    modifies s`heap
    ensures s.Valid() && IsList(s.heap, ls) && IsList(s.heap, rs)
    ensures Toks(s.heap, ls) == Toks(old(s.heap), ls) && Toks(s.heap, rs) == Toks(old(s.heap), rs)
    ensures op in s.heap && TokOf(s.heap, op) == CLOSE && Relinked(old(s.heap), s.heap[op := old(s.heap)[op]], [])
    ensures s.heap[op].next == old(s.heap)[op].next && s.heap[op].concat == old(s.heap)[op].concat
    ensures forall x :: x in s.heap && x != op ==> x in old(s.heap) && s.heap[x] == old(s.heap)[x]
  {
    ghost var h := s.heap;
    s.Retag(op, L_CPAREN, ')');
    assert TokOf(s.heap, op) == CLOSE;
    SameList(h, s.heap, ls);
    SameList(h, s.heap, rs);
  }

  lemma {:induction false} OthersAcross(h: Heap, h1: Heap, h2: Heap, op: Ref, l: seq<Ref>, out: seq<Ref>)
    requires (forall x :: x in h && x != op ==> x in h1 && h1[x] == h[x]) && op in l && op in h1
    requires Others(h1, h2, l) && forall x :: x in out && x in h1 ==> x in l
    ensures Others(h, h2, l) && forall x :: x in out && x in h ==> x in l
  {
  }

  method FirstCall(s: Strings, left: Ref, ghost ls: seq<Ref>, op: Ref, right: Ref, ghost rs: seq<Ref>)
    returns (res: Ref, ghost out: seq<Ref>)
    requires s.Valid() && OperandsReady(s.heap, left, ls, op, right, rs) && |s.heap[op].token| == 1
    modifies s
    ensures s.Valid() && IsList(s.heap, out) && out[0] == res
    ensures Toks(s.heap, out)
      == [CONCAT, OPEN] + Toks(old(s.heap), ls) + [COMMA] + Toks(old(s.heap), rs) + [CLOSE]
    ensures ChainAt(s.heap, out, [2 + |ls|, 3 + |ls| + |rs|])
    ensures Flagged(s.heap, res) && Others(old(s.heap), s.heap, ls + rs + [op])
    ensures forall x :: x in out && x in old(s.heap) ==> x in ls + rs + [op]
  {
    ghost var h := s.heap;
    CloseWith(s, ls, op, rs);
    ghost var h1 := s.heap;
    res, out := BuildCall(s, left, ls, op, right, rs);
    OthersAcross(h, h1, s.heap, op, ls + rs + [op], out);
  }

  method NextCall(s: Strings, left: Ref, ghost ls: seq<Ref>, op: Ref, right: Ref, ghost rs: seq<Ref>,
                  ghost marks: seq<nat>)
    returns (res: Ref, ghost out: seq<Ref>)
    requires s.Valid() && OperandsReady(s.heap, left, ls, op, right, rs) && |s.heap[op].token| == 1
    requires left in s.heap && Flagged(s.heap, left)
    requires s.heap[ls[|ls| - 1]].ttype == L_CPAREN ==> CallReady(s.heap, ls, marks)
    modifies s`heap
    ensures s.Valid() && IsList(s.heap, out) && out[0] == res
    ensures if old(s.heap)[ls[|ls| - 1]].ttype == L_CPAREN then
              && Toks(s.heap, out) == Toks(old(s.heap), ls)[..|ls| - 1] + [COMMA] + Toks(old(s.heap), rs) + [CLOSE]
              && ChainAt(s.heap, out, marks + [|ls| + |rs|])
            else out == ls && Toks(s.heap, out) == Toks(old(s.heap), ls)
    ensures Flagged(s.heap, res) && Others(old(s.heap), s.heap, ls + rs + [op])
    ensures forall x :: x in out && x in old(s.heap) ==> x in ls + rs + [op]
  {
    ghost var h := s.heap;
    CloseWith(s, ls, op, rs);
    ghost var h1 := s.heap;
    assert left in ls && ls[|ls| - 1] in ls;
    CallStays(h, h1, op, ls, marks);
    res, out := ExtendCall(s, left, ls, op, right, rs, marks);
    OthersAcross(h, h1, s.heap, op, ls + rs + [op], out);
  }

  lemma {:induction false} CallStays(h: Heap, h1: Heap, op: Ref, ls: seq<Ref>, marks: seq<nat>)
    requires IsList(h, ls) && IsList(h1, ls) && op !in ls && forall x :: x in h && x != op ==> x in h1 && h1[x] == h[x]
    ensures CallReady(h, ls, marks) ==> CallReady(h1, ls, marks)
    ensures h1[ls[|ls| - 1]] == h[ls[|ls| - 1]]
  {
    forall i | 0 <= i < |ls| ensures ls[i] in h && h1[ls[i]] == h[ls[i]] {
      assert ls[i] in ls;
    }
  }

  // ----- the operator applied from the left

  // An operand that is still to be joined, and an operator.
  ghost predicate Waiting(h: Heap, l: seq<Ref>, head: Ref) {
    IsList(h, l) && l[0] == head && Flagged(h, head)
  }

  ghost predicate OpReady(h: Heap, op: Ref) {
    op != 0 && op in h && h[op].next == 0 && h[op].concat == 0 && |h[op].token| == 1
  }

  ghost predicate Separate(lists: seq<seq<Ref>>, ops: seq<Ref>) {
    && (forall i, k :: 0 <= i < k < |lists| ==> Apart(lists[i], lists[k]))
    && (forall i, k :: 0 <= i < k < |ops| ==> ops[i] != ops[k])
    && (forall i, k :: 0 <= i < |lists| && 0 <= k < |ops| ==> ops[k] !in lists[i])
  }

  ghost function AllToks(h: Heap, lists: seq<seq<Ref>>): (es: seq<seq<Tok>>)
    ensures |es| == |lists|
  {
    seq(|lists|, i requires 0 <= i < |lists| => Toks(h, lists[i]))
  }

  // The first i operands are joined in the list out, the others are as they were.
  ghost predicate Joined(h: Heap, out: seq<Ref>, res: Ref, es: seq<seq<Tok>>, i: nat, heads: seq<Ref>, ops: seq<Ref>,
                         lists: seq<seq<Ref>>)
    requires |heads| == |lists| == |ops| + 1 == |es| && 0 < i <= |es| && FoldOk(es)
  {
    && Waiting(h, out, res)
    && Toks(h, out) == Fold(es[..i]).toks && ChainAt(h, out, Fold(es[..i]).marks)
    && Queued(h, out, es, i, heads, ops, lists)
  }

  ghost predicate Queued(h: Heap, out: seq<Ref>, es: seq<seq<Tok>>, i: nat, heads: seq<Ref>, ops: seq<Ref>,
                         lists: seq<seq<Ref>>)
    requires |heads| == |lists| == |ops| + 1 == |es| && 0 < i <= |es|
  {
    && (forall k :: i <= k < |lists| ==> InQueue(h, out, es[k], heads[k], lists[k]))
    && (forall k :: i - 1 <= k < |ops| ==> OpReady(h, ops[k]) && ops[k] !in out)
  }

  ghost predicate InQueue(h: Heap, out: seq<Ref>, toks: seq<Tok>, head: Ref, l: seq<Ref>) {
    Waiting(h, l, head) && Toks(h, l) == toks && Apart(out, l)
  }

  // What is joined has the form that the next rewriting asks for.
  lemma {:induction false} JoinedReady(h: Heap, out: seq<Ref>, es: seq<seq<Tok>>)
    requires FoldOk(es) && IsList(h, out) && Toks(h, out) == Fold(es).toks && ChainAt(h, out, Fold(es).marks)
    ensures if h[out[0]].ttype == M_CONCAT then CallReady(h, out, Fold(es).marks) else Fold(es).marks == []
  {
    FoldBuilds(es);
    FirstOperand(es);
    var fs, x := Operands(es), Fold(es);
    assert TokOf(h, out[0]) == x.toks[0];
    if |fs| > 1 {
      MarksIncrease(fs);
      assert TokOf(h, out[|out| - 1]) == x.toks[|out| - 1] == CLOSE;
    }
  }

  // Joining one more leaves the operands behind it as they were.
  lemma {:induction false} StillWaiting(h: Heap, h': Heap, gone: seq<Ref>, out: seq<Ref>, l: seq<Ref>, head: Ref)
    requires Others(h, h', gone) && Waiting(h, l, head) && Apart(gone, l)
    requires forall x :: x in out && x in h ==> x in gone
    ensures Waiting(h', l, head) && Toks(h', l) == Toks(h, l) && Apart(out, l)
  {
    assert forall x :: x in l ==> x in h && x !in gone;
    assert head in l;
    SameList(h, h', l);
  }

  // What is behind the operand that was joined.
  lemma {:induction false} StillQueued(h: Heap, h': Heap, ls: seq<Ref>, out: seq<Ref>, es: seq<seq<Tok>>, i: nat,
                                       heads: seq<Ref>, ops: seq<Ref>, lists: seq<seq<Ref>>)
    requires |heads| == |lists| == |ops| + 1 == |es| && 0 < i < |es|
    requires Separate(lists, ops) && Queued(h, ls, es, i, heads, ops, lists)
    requires Others(h, h', ls + lists[i] + [ops[i - 1]])
    requires forall x :: x in out && x in h ==> x in ls + lists[i] + [ops[i - 1]]
    ensures Queued(h', out, es, i + 1, heads, ops, lists)
  {
    var gone, op := ls + lists[i] + [ops[i - 1]], ops[i - 1];
    forall k | i + 1 <= k < |lists| ensures InQueue(h', out, es[k], heads[k], lists[k]) {
      assert InQueue(h, ls, es[k], heads[k], lists[k]);
      assert Apart(lists[i], lists[k]) && op !in lists[k];
      StillWaiting(h, h', gone, out, lists[k], heads[k]);
    }
    forall k | i <= k < |ops| ensures OpReady(h', ops[k]) && ops[k] !in out {
      assert ops[k] !in lists[i] && ops[k] != op && ops[k] !in gone;
    }
  }

  // One application of the operator.
  method JoinNext(s: Strings, heads: seq<Ref>, ops: seq<Ref>, ghost lists: seq<seq<Ref>>, ghost es: seq<seq<Tok>>,
                  i: nat, left: Ref, ghost ls: seq<Ref>) returns (res: Ref, ghost out: seq<Ref>)
    requires s.Valid() && |heads| == |lists| == |ops| + 1 == |es| && 0 < i < |es| && FoldOk(es)
    requires Separate(lists, ops) && Joined(s.heap, ls, left, es, i, heads, ops, lists)
    modifies s
    ensures s.Valid() && Joined(s.heap, out, res, es, i + 1, heads, ops, lists)
  {
    ghost var h, upto, rs := s.heap, es[..i + 1], lists[i];
    assert upto[..i] == es[..i] && FoldOk(upto) && FoldOk(es[..i]);
    NeverStuck(upto);
    JoinedReady(h, ls, es[..i]);
    assert InQueue(h, ls, es[i], heads[i], rs);
    assert ops[i - 1] !in rs && left in ls && heads[i] in rs;
    res, out := ConcatRewrite(s, left, ls, ops[i - 1], heads[i], rs, Fold(es[..i]).marks);
    assert Fold(upto) == Rewrite(Fold(es[..i]), es[i]);
    FoldGrows(upto);
    StillQueued(h, s.heap, ls, out, es, i, heads, ops, lists);
    assert out[0] in out;
  }

  lemma {:induction false} FoldGrows(es: seq<seq<Tok>>)
    requires FoldOk(es) && |es| > 1
    ensures Fold(es) == Fold(es[..|es| - 1]) ==> Fold(es).marks == []
  {
    var init := es[..|es| - 1];
    FoldOkInit(es);
    FoldBuilds(es);
    FoldBuilds(init);
    if |Operands(es)| > 1 && |Operands(init)| > 1 {
      MarksIncrease(Operands(es));
      MarksIncrease(Operands(init));
    }
  }

  /**
    The grammar's action for `e1 _ ... _ en`, n - 1 times, on the linked segments: the tokens and the chain of
    concat(e1, ..., en), up to the literals that were fused.
   */
  method FoldOperands(s: Strings, heads: seq<Ref>, ops: seq<Ref>, ghost lists: seq<seq<Ref>>)
    returns (res: Ref, ghost out: seq<Ref>)
    requires s.Valid() && |heads| == |lists| == |ops| + 1 && Separate(lists, ops)
    requires forall k :: 0 <= k < |lists| ==> Waiting(s.heap, lists[k], heads[k])
    requires forall k :: 0 <= k < |ops| ==> OpReady(s.heap, ops[k])
    requires FoldOk(AllToks(s.heap, lists))
    modifies s
    ensures s.Valid() && IsList(s.heap, out) && out[0] == res
    ensures var x := Built(Operands(old(AllToks(s.heap, lists))));
      Toks(s.heap, out) == x.toks && ChainAt(s.heap, out, x.marks)
  {
    ghost var es := AllToks(s.heap, lists);
    res, out := heads[0], lists[0];
    assert es[..1] == [es[0]];
    for i := 1 to |heads|
      invariant s.Valid() && Joined(s.heap, out, res, es, i, heads, ops, lists)
    {
      res, out := JoinNext(s, heads, ops, lists, es, i, res, out);
    }
    assert es[..|es|] == es;
    FoldBuilds(es);
  }

  /** slaxWriteRedoConcat: retags in place and drops the leading name. */
  method RedoConcat(s: Strings, func: Ref, ghost l: seq<Ref>) returns (res: Ref)
    requires s.Valid()
    requires func != 0 ==> IsList(s.heap, l) && l[0] == func
    requires func != 0 ==> forall x :: x in l && s.heap[x].ttype == L_COMMA ==> |s.heap[x].token| == 1
    modifies s`heap
    ensures s.Valid()
    ensures if func != 0 && |l| >= 3 && old(s.heap)[func].token == "concat" then
              res == l[1] && IsList(s.heap, l[1..]) && Toks(s.heap, l[1..]) == Redone(Toks(old(s.heap), l))[1..]
            else res == 0 && s.heap == old(s.heap)
  {
    if func == 0 {
      return 0;
    }
    ghost var h, was := s.heap, Toks(s.heap, l);
    assert h[l[0]].next == NextIn(l, 0);
    assert |l| > 1 ==> h[l[1]].next == NextIn(l, 1);
    if s.heap[func].next == 0 || s.heap[s.heap[func].next].next == 0 || s.heap[func].token != "concat" {
      return 0;
    }
    RetagCommas(s, func, l);
    ghost var h2 := s.heap;
    res := s.heap[func].next;
    s.SetNext(func, 0);
    TailOfList(h2, s.heap, l);
    assert Toks(s.heap, l[1..]) == Redone(was)[1..];
  }

  // The loop: commas at level one become underscores.
  method RetagCommas(s: Strings, func: Ref, ghost l: seq<Ref>)
    requires s.Valid() && IsList(s.heap, l) && l[0] == func
    requires forall x :: x in l && s.heap[x].ttype == L_COMMA ==> |s.heap[x].token| == 1
    modifies s`heap
    ensures s.Valid() && IsList(s.heap, l) && Toks(s.heap, l) == Redone(Toks(old(s.heap), l))
  {
    ghost var h, was := s.heap, Toks(s.heap, l);
    assert h[l[0]].next == NextIn(l, 0);
    var ssp := func;
    var level := 0;
    ghost var i := 0;
    while s.heap[ssp].next != 0
      invariant 0 <= i < |l| && ssp == l[i] && s.Valid() && IsList(s.heap, l)
      invariant s.heap[ssp].next == NextIn(l, i)
      invariant level == Net(was[..i])
      invariant forall k :: 0 <= k < |l| ==> TokOf(s.heap, l[k]) == if k < i then Redone(was)[k] else was[k]
      decreases |l| - i
    {
      ghost var h1 := s.heap;
      assert was[..i + 1][..i] == was[..i];
      assert TokOf(s.heap, ssp) == was[i] && ssp in l;
      if s.heap[ssp].ttype == L_COMMA {
        if level == 1 {
          assert TokOf(h, ssp) == was[i];
          s.Retag(ssp, L_UNDERSCORE, '_');
          RetaggedKeeps(h1, s.heap, l, i);
        }
      } else if s.heap[ssp].ttype == L_OPAREN {
        level := level + 1;
      } else if s.heap[ssp].ttype == L_CPAREN {
        level := level - 1;
      }
      ssp := s.heap[ssp].next;
      i := i + 1;
      assert s.heap[l[i]].next == NextIn(l, i);
    }
    assert i == |l| - 1;
    assert Toks(s.heap, l) == Redone(was);
  }

  lemma {:induction false} RetaggedKeeps(h: Heap, h': Heap, l: seq<Ref>, i: nat)
    requires IsList(h, l) && i < |l| && |h[l[i]].token| == 1
    requires h' == h[l[i] := h[l[i]].(ttype := L_UNDERSCORE, token := h[l[i]].token[0 := '_'])]
    ensures IsList(h', l) && TokOf(h', l[i]) == UNDERSCORE
    ensures forall k :: 0 <= k < |l| && k != i ==> TokOf(h', l[k]) == TokOf(h, l[k])
  {
    forall k | 0 <= k < |l| ensures h'[l[k]].next == NextIn(l, k) {
      assert h[l[k]].next == NextIn(l, k);
    }
  }

  lemma {:induction false} TailOfList(h: Heap, h': Heap, l: seq<Ref>)
    requires IsList(h, l) && |l| > 1 && h' == h[l[0] := h[l[0]].(next := 0)]
    ensures h[l[0]].next == l[1] && IsList(h', l[1..]) && Toks(h', l[1..]) == Toks(h, l)[1..]
  {
    assert h[l[0]].next == NextIn(l, 0);
    forall k | 0 <= k < |l| - 1 ensures h'[l[1..][k]].next == NextIn(l[1..], k) {
      assert h[l[k + 1]].next == NextIn(l, k + 1);
    }
  }

  ghost predicate NeverBelow(toks: seq<Tok>, i: nat)
    requires i <= |toks|
  {
    forall k {:trigger Net(toks[1..k])} :: 1 <= k <= i ==> Net(toks[1..k]) >= 0
  }

  lemma {:induction false} LevelStep(toks: seq<Tok>, i: nat)
    requires 1 <= i < |toks|
    ensures Net(toks[1..i + 1]) == Net(toks[1..i]) + Step(toks[i])
  {
    assert toks[1..i + 1][..i - 1] == toks[1..i];
  }

  lemma {:induction false} FrontOfList(h: Heap, h': Heap, l: seq<Ref>)
    requires IsList(h, l) && |l| > 2
    requires h' == h[l[|l| - 2] := h[l[|l| - 2]].(next := 0)]
    ensures IsList(h', l[..|l| - 1]) && Toks(h', l[..|l| - 1]) == Toks(h, l)[..|l| - 1]
  {
    var f := l[..|l| - 1];
    forall k | 0 <= k < |f| ensures h'[f[k]].next == NextIn(f, k) {
      assert h[l[k]].next == NextIn(l, k);
    }
  }

  // The walk to the last segment, unless the first parenthesis is closed before it.
  method OuterClose(s: Strings, expr: Ref, ghost l: seq<Ref>) returns (early: bool, ssp: Ref, last: Ref, parens: int)
    requires s.Valid() && IsList(s.heap, l) && l[0] == expr && |l| >= 2
    ensures var was := Toks(s.heap, l);
      if early then exists k {:trigger Net(was[1..k])} :: 1 <= k <= |l| - 1 && Net(was[1..k]) < 0
      else
        && NeverBelow(was, |l| - 1) && parens == 1 + Net(was[1..|l| - 1])
        && ssp == l[|l| - 1] && last == if |l| == 2 then 0 else l[|l| - 2]
  {
    ghost var h, was := s.heap, Toks(s.heap, l);
    assert h[l[0]].next == NextIn(l, 0) && h[l[1]].next == NextIn(l, 1);
    ssp, last, parens := s.heap[expr].next, 0, 1;
    ghost var i := 1;
    assert was[1..1] == [];
    while s.heap[ssp].next != 0
      invariant 1 <= i < |l| && ssp == l[i] && h[ssp].next == NextIn(l, i)
      invariant last == if i == 1 then 0 else l[i - 1]
      invariant parens == 1 + Net(was[1..i]) && parens > 0 && NeverBelow(was, i)
      decreases |l| - i
    {
      LevelStep(was, i);
      assert TokOf(h, ssp) == was[i];
      if s.heap[ssp].ttype == L_OPAREN {
        parens := parens + 1;
      } else if s.heap[ssp].ttype == L_CPAREN {
        parens := parens - 1;
        if parens == 0 {
          assert Net(was[1..i + 1]) < 0;
          return true, ssp, last, parens;
        }
      }
      last := ssp;
      ssp := s.heap[ssp].next;
      i := i + 1;
      assert h[l[i]].next == NextIn(l, i);
    }
    early := false;
  }

  /** slaxWriteRemoveParens: unlinks the outer parentheses if they enclose the whole expression. */
  method RemoveParens(s: Strings, expr: Ref, ghost l: seq<Ref>) returns (res: Ref, ghost out: seq<Ref>)
    requires s.Valid() && IsList(s.heap, l) && l[0] == expr && |l| >= 2
    modifies s`heap
    ensures s.Valid() && IsList(s.heap, out) && out[0] == res
    ensures Toks(s.heap, out) == Unwrapped(Toks(old(s.heap), l))
  {
    ghost var h, was := s.heap, Toks(s.heap, l);
    var early, ssp, last, parens := OuterClose(s, expr, l);
    if early || s.heap[ssp].ttype != L_CPAREN || parens != 1 || last == 0 {
      assert TokOf(h, ssp) == was[|l| - 1] || early;
      return expr, l;
    }
    s.SetNext(last, 0);
    FrontOfList(h, s.heap, l);
    ghost var h1, front := s.heap, l[..|l| - 1];
    res := s.heap[expr].next;
    s.SetNext(expr, 0);
    TailOfList(h1, s.heap, front);
    out := front[1..];
    assert was[..|was| - 1][1..] == was[1..|was| - 1];
  }

  // ----- the excluded case

  // Where k steps along ss_next lead.
  ghost function Walk(h: Heap, r: Ref, k: nat): Ref
    decreases k
  {
    if k == 0 || r !in h then r else Walk(h, h[r].next, k - 1)
  }

  lemma {:induction false} CycleNeverEnds(h: Heap, a: Ref, b: Ref, k: nat)
    requires a in h && b in h && a != 0 && b != 0 && h[a].next == b && h[b].next == a
    ensures Walk(h, a, k) != 0
    decreases k
  {
    if k > 0 {
      CycleNeverEnds(h, b, a, k - 1);
    }
  }

  /** The statements run for two empty literals up to the search for the end of the right operand: the list
      has become a cycle, so that search never ends. */
  method TwoEmptiesLoop(s: Strings, left: Ref, op: Ref, right: Ref)
    requires s.Valid() && IsList(s.heap, [left]) && IsList(s.heap, [right]) && left != right
    requires op in s.heap && op != left && op != right && |s.heap[op].token| == 1
    requires Stuck(Toks(s.heap, [left]), Toks(s.heap, [right]))
    modifies s
    ensures right in s.heap && right != 0
    ensures var comma := s.heap[right].next; comma != 0 && comma in s.heap && s.heap[comma].next == right
    ensures forall k: nat :: Walk(s.heap, right, k) != 0
  {
    ghost var lt, rt := TokOf(s.heap, left), TokOf(s.heap, right);
    assert [left][0] != 0 && [right][0] != 0;
    s.Link(left, [left], right, [right]);
    ghost var both := [left] + [right];
    assert Toks(s.heap, both) == [lt, rt];
    TextOfPair(lt, rt);
    var fused := Fuse(s, left, both);
    assert fused == 0;
    ghost var h := s.heap;
    s.Retag(op, L_CPAREN, ')');
    SameList(h, s.heap, both);
    ghost var h1 := s.heap;
    var conp, openp, commap := CallTokens(s);
    FreshKeeps(h1, s.heap, both, [conp, openp, commap]);
    assert left in both && right in both && commap in [conp, openp, commap] && conp in [conp, openp, commap];
    assert openp in [conp, openp, commap] && [commap][0] != 0;
    ghost var h2 := s.heap;
    s.SetNext(conp, openp);
    s.SetNext(openp, left);
    SameList(h2, s.heap, both);
    var ssp := s.LastOf(left, both);
    assert ssp == right;
    s.SetNext(ssp, commap);
    s.SetConcat(conp, commap);
    s.SetNext(commap, right);
    forall k: nat ensures Walk(s.heap, right, k) != 0 {
      CycleNeverEnds(s.heap, right, commap, k);
    }
  }
}
