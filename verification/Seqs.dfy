/**
  Regrouping of concatenations, one step at a time.
 */
module Seqs {
  lemma {:induction false} Assoc<T>(a: seq<T>, b: seq<T>, c: seq<T>)
    ensures a + (b + c) == a + b + c
  {
  }

  lemma {:induction false} Assoc4<T>(a: seq<T>, b: seq<T>, c: seq<T>, d: seq<T>)
    ensures a + (b + (c + d)) == a + b + c + d
  {
    Assoc(b, c, d);
    Assoc(a, b + c, d);
    Assoc(a, b, c);
  }

  lemma {:induction false} Assoc5<T>(a: seq<T>, b: seq<T>, c: seq<T>, d: seq<T>, e: seq<T>)
    ensures a + (b + (c + (d + e))) == a + b + c + d + e
  {
    Assoc(c, d, e);
    Assoc4(a, b, c + d, e);
    Assoc(a + b, c, d);
  }

  lemma {:induction false} Assoc8<T>(a: seq<T>, b: seq<T>, c: seq<T>, d: seq<T>, e: seq<T>, f: seq<T>, g: seq<T>,
                                     h: seq<T>)
    ensures a + (b + (c + (d + (e + (f + (g + h)))))) == a + b + c + d + e + f + g + h
  {
    Assoc5(d, e, f, g, h);
    Assoc4(a, b, c, d + e + f + g + h);
    Assoc5(a + b + c, d, e, f, g + h);
    Assoc5(d, e, f, g, h);
    Assoc(a + b + c + d + e + f, g, h);
  }

  lemma {:induction false} Assoc7<T>(a: seq<T>, b: seq<T>, c: seq<T>, d: seq<T>, e: seq<T>, f: seq<T>, g: seq<T>)
    ensures a + (b + (c + (d + (e + (f + g))))) == a + b + c + d + e + f + g
  {
    Assoc4(d, e, f, g);
    Assoc4(a, b, c, d + e + f + g);
    Assoc5(a + b + c, d, e, f, g);
    Assoc4(d, e, f, g);
  }

  /** Adding nothing in front or behind. */
  lemma {:induction false} NoChange<T>(a: seq<T>)
    ensures [] + a == a && a + [] == a
  {
  }
}
