/**
  String segments: the tokens of an expression, chained through ss_next.
 */
module SlaxString {
  // Token types: distinct numbers, of which the code below names these.
  type TType = nat

  const T_NONE: TType := 0
  const T_QUOTED: TType := 1
  const T_NUMBER: TType := 2
  const T_VAR: TType := 3
  const T_AXIS_NAME: TType := 4
  const T_FUNCTION_NAME: TType := 5
  const M_XPATH: TType := 6
  const M_CONCAT: TType := 7
  const M_TERNARY: TType := 8
  const M_TERNARY_END: TType := 9
  const L_OPAREN: TType := 10
  const L_CPAREN: TType := 11
  const L_OBRACK: TType := 12
  const L_CBRACK: TType := 13
  const L_COMMA: TType := 14
  const L_UNDERSCORE: TType := 15
  const L_PLUS: TType := 16
  const L_MINUS: TType := 17
  const L_STAR: TType := 18
  const L_QUESTION: TType := 19
  const L_COLON: TType := 20
  const L_DCOLON: TType := 21
  const L_SLASH: TType := 22
  const L_DSLASH: TType := 23
  const L_AT: TType := 24
  const L_DOT: TType := 25
  const L_EQUALS: TType := 26
  const L_DAMPER: TType := 27
  const L_DEQUALS: TType := 28
  const L_DOTDOT: TType := 29
  const L_DVBAR: TType := 30
  const L_GRTREQ: TType := 31
  const L_LESSEQ: TType := 32
  const L_NOTEQUALS: TType := 33

  // A token by value.
  datatype Tok = Tok(ttype: TType, token: string)

  // SSF_SINGLEQ, SSF_DOUBLEQ and SSF_BOTHQS of ss_flags.
  datatype Quotes = Quotes(single: bool, double: bool, both: bool)

  const NO_QUOTES := Quotes(false, false, false)

  // What slaxStringQFlags should say of a text.
  function QuotesIn(s: string): Quotes {
    Quotes('\'' in s, '"' in s, '\'' in s && '"' in s)
  }

  /** slaxStringQFlags: one pass, stopping at the second kind of quote. */
  method QFlags(s: string) returns (q: Quotes)
    ensures q == QuotesIn(s)
  {
    q := NO_QUOTES;
    var quote: seq<char> := [];
    for i := 0 to |s|
      invariant q.single == ('\'' in s[..i]) && q.double == ('"' in s[..i]) && !q.both
      invariant !(q.single && q.double)
      invariant quote == if q.single then ['\''] else if q.double then ['"'] else []
    {
      assert s[..i + 1] == s[..i] + [s[i]];
      if s[i] == '\'' {
        q := q.(single := true);
      } else if s[i] == '"' {
        q := q.(double := true);
      } else {
        continue;
      }
      if quote != [] && s[i] != quote[0] {
        assert s[i] in s;
        return Quotes(true, true, true);
      }
      quote := [s[i]];
    }
    assert s[..|s|] == s;
  }

  function Blanks(n: nat): (s: string)
    ensures |s| == n && forall k :: 0 <= k < n ==> s[k] == ' '
  {
    seq(n, _ => ' ')
  }

  // ----- segments in memory

  // Where a segment lies; zero is the null pointer.
  type Ref = nat

  datatype Segment = Segment(next: Ref, concat: Ref, ttype: TType, quotes: Quotes, token: string)

  type Heap = map<Ref, Segment>

  /** The segments of a list from the first on, each once, the last one ending it. */
  ghost predicate IsList(h: Heap, l: seq<Ref>) {
    && |l| > 0
    && (forall i :: 0 <= i < |l| ==> l[i] != 0 && l[i] in h)
    && (forall i, j :: 0 <= i < j < |l| ==> l[i] != l[j])
    && (forall i {:trigger NextIn(l, i)} :: 0 <= i < |l| ==> h[l[i]].next == NextIn(l, i))
  }

  ghost function NextIn(l: seq<Ref>, i: nat): Ref {
    if i + 1 < |l| then l[i + 1] else 0
  }

  ghost function TokOf(h: Heap, r: Ref): Tok {
    if r in h then Tok(h[r].ttype, h[r].token) else Tok(T_NONE, "")
  }

  ghost function Toks(h: Heap, l: seq<Ref>): (t: seq<Tok>)
    ensures |t| == |l|
  {
    seq(|l|, i requires 0 <= i < |l| => TokOf(h, l[i]))
  }

  ghost predicate Apart(a: seq<Ref>, b: seq<Ref>) {
    forall x :: x in a ==> x !in b
  }

  // As far as the list and its tokens go, nothing has changed.
  ghost predicate Same(h: Heap, h': Heap, l: seq<Ref>) {
    forall x :: x in l && x in h ==>
      x in h' && h'[x].next == h[x].next && h'[x].ttype == h[x].ttype && h'[x].token == h[x].token
  }

  lemma {:induction false} SameList(h: Heap, h': Heap, l: seq<Ref>)
    requires IsList(h, l) && Same(h, h', l)
    ensures IsList(h', l) && Toks(h', l) == Toks(h, l)
  {
    forall i | 0 <= i < |l| ensures l[i] in h' && h'[l[i]].next == NextIn(l, i) && TokOf(h', l[i]) == TokOf(h, l[i]) {
      assert l[i] in l;
    }
  }

  /** Hanging one list on the end of another. */
  lemma {:induction false} LinkLists(h: Heap, a: seq<Ref>, b: seq<Ref>)
    requires IsList(h, a) && IsList(h, b) && Apart(a, b)
    ensures var h' := h[a[|a| - 1] := h[a[|a| - 1]].(next := b[0])];
            IsList(h', a + b) && Toks(h', a + b) == Toks(h, a) + Toks(h, b)
  {
    var end := a[|a| - 1];
    var h', l := h[end := h[end].(next := b[0])], a + b;
    forall i | 0 <= i < |l| ensures l[i] in h' && h'[l[i]].next == NextIn(l, i) && TokOf(h', l[i]) == TokOf(h, l[i]) {
      if i < |a| {
        assert h[a[i]].next == NextIn(a, i);
      } else {
        assert l[i] in b && end in a;
        assert h[b[i - |a|]].next == NextIn(b, i - |a|);
      }
    }
    forall i, j | 0 <= i < j < |l| ensures l[i] != l[j] {
      assert i < |a| ==> l[i] in a;
      assert j >= |a| ==> l[j] in b;
    }
  }

  /** The memory that segments are made in, rewritten in place and relinked. */
  class Strings {
    var heap: Heap
    var unused: Ref  // no segment lies here or above

    ghost predicate Valid()
      reads this
    {
      unused > 0 && forall r :: r in heap ==> 0 < r < unused
    }

    // slaxStringLiteral
    method Literal(token: string, ttype: TType) returns (r: Ref)
      requires Valid()
      modifies this
      ensures Valid() && r !in old(heap) && r != 0
      ensures heap == old(heap)[r := Segment(0, 0, ttype, QuotesIn(token), token)]
    {
      var quotes := QFlags(token);
      r := unused;
      heap := heap[r := Segment(0, 0, ttype, quotes, token)];
      unused := unused + 1;
    }

    /** The walk to the end of a list that the source repeats at every relinking. */
    method LastOf(head: Ref, ghost l: seq<Ref>) returns (last: Ref)
      requires IsList(heap, l) && l[0] == head
      ensures last == l[|l| - 1]
    {
      last := head;
      ghost var i := 0;
      assert heap[l[0]].next == NextIn(l, 0);
      while heap[last].next != 0
        invariant 0 <= i < |l| && last == l[i] && heap[last].next == NextIn(l, i)
        decreases |l| - i
      {
        last := heap[last].next;
        i := i + 1;
        assert heap[l[i]].next == NextIn(l, i);
      }
    }

    /** Finds the end of one list and hangs another on it. */
    method Link(head: Ref, ghost a: seq<Ref>, more: Ref, ghost b: seq<Ref>)
      requires Valid() && IsList(heap, a) && a[0] == head && IsList(heap, b) && b[0] == more && Apart(a, b)
      modifies `heap
      ensures Valid()
      ensures heap == old(heap)[a[|a| - 1] := old(heap)[a[|a| - 1]].(next := more)]
      ensures IsList(heap, a + b) && Toks(heap, a + b) == old(Toks(heap, a)) + old(Toks(heap, b))
    {
      LinkLists(heap, a, b);
      var last := LastOf(head, a);
      SetNext(last, more);
    }

    method SetNext(r: Ref, next: Ref)
      requires Valid() && r in heap
      modifies `heap
      ensures Valid() && heap == old(heap)[r := old(heap)[r].(next := next)]
    {
      heap := heap[r := heap[r].(next := next)];
    }

    method SetConcat(r: Ref, concat: Ref)
      requires Valid() && r in heap
      modifies `heap
      ensures Valid() && heap == old(heap)[r := old(heap)[r].(concat := concat)]
    {
      heap := heap[r := heap[r].(concat := concat)];
    }

    method Retag(r: Ref, ttype: TType, first: char)
      requires Valid() && r in heap && |heap[r].token| > 0
      modifies `heap
      ensures Valid()
      ensures heap == old(heap)[r := old(heap)[r].(ttype := ttype, token := old(heap)[r].token[0 := first])]
    {
      heap := heap[r := heap[r].(ttype := ttype, token := heap[r].token[0 := first])];
    }
  }
}
