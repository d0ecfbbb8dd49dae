/**
  JSON values through XML and back: the tree that the parser builds for a value, and the JSON that the
  writer makes of it.
 */
module SlaxJsonTree {
  import opened SlaxJson

  // What libxml2 takes for a name of XML.
  type Naming = string -> bool

  // slaxJsonElementOpen: a name that XML does not allow becomes an attribute.
  function Named(name: string, valid: Naming): (string, Option<string>) {
    if valid(name) then (name, None) else ("element", Some(name))
  }

  // What the parser builds for a value; an element of an array is a member unless its value has a type of its own.
  function Tree(tag: string, attr: Option<string>, v: Json, inArray: bool, valid: Naming): (n: Node)
    ensures n.Elem?
    decreases v, 1
  {
    var kind := if inArray then Some("member") else None;
    match v
    case Str(s) => Elem(tag, kind, attr, [Text(s)])
    case Num(s) => Elem(tag, Some("number"), attr, [Text(s)])
    case True => Elem(tag, Some("true"), attr, [Text("true")])
    case False => Elem(tag, Some("false"), attr, [Text("false")])
    case Null => Elem(tag, Some("null"), attr, [Text("null")])
    case Obj(ms) => Elem(tag, kind, attr, MemberTrees(ms, valid))
    case Arr(es) => Elem(tag, Some("array"), attr, ElementTrees(es, valid))
  }

  function MemberTree(m: Member, valid: Naming): (n: Node)
    ensures n.Elem?
  {
    var name := Named(m.name, valid);
    Tree(name.0, name.1, m.value, false, valid)
  }

  function MemberTrees(ms: seq<Member>, valid: Naming): (kids: seq<Node>)
    ensures kids == [] <==> ms == []
  {
    if ms == [] then [] else [MemberTree(ms[0], valid)] + MemberTrees(ms[1..], valid)
  }

  function ElementTrees(es: seq<Json>, valid: Naming): (kids: seq<Node>)
    ensures kids == [] <==> es == []
  {
    if es == [] then [] else [Tree("member", None, es[0], true, valid)] + ElementTrees(es[1..], valid)
  }

  // A value as JSON has it: numbers are written as numbers.
  predicate Proper(v: Json) {
    match v
    case Num(s) => NumberText(s)
    case Obj(ms) => forall m :: m in ms ==> Proper(m.value)
    case Arr(es) => forall e :: e in es ==> Proper(e)
    case _ => true
  }

  // No object without members anywhere in it.
  predicate Filled(v: Json)
    decreases v, 1
  {
    match v
    case Obj(ms) => ms != [] && FilledInside(v)
    case _ => FilledInside(v)
  }

  predicate FilledInside(v: Json)
    decreases v, 0
  {
    match v
    case Obj(ms) => forall m :: m in ms ==> Filled(m.value)
    case Arr(es) => forall e :: e in es ==> Filled(e)
    case _ => true
  }

  lemma {:induction false} NumberTrimmed(s: string)
    requires NumberText(s)
    ensures Trim(s) == s
  {
    NumberChars(s);
    assert s[0] in s && s[|s| - 1] in s;
  }

  lemma {:induction false} WordsTrimmed()
    ensures Trim("true") == "true" && Trim("false") == "false" && Trim("null") == "null"
  {
  }

  lemma {:induction false} AllElements(kids: seq<Node>)
    requires forall k :: 0 <= k < |kids| ==> kids[k].Elem?
    ensures HasElements(kids) <==> kids != []
    ensures HasChildNodes(kids) <==> kids != []
  {
    if kids != [] {
      assert kids[0].Elem?;
    }
  }

  lemma {:induction false} TreesAreElements(ms: seq<Member>, es: seq<Json>, valid: Naming)
    ensures forall k :: 0 <= k < |MemberTrees(ms, valid)| ==> MemberTrees(ms, valid)[k].Elem?
    ensures forall k :: 0 <= k < |ElementTrees(es, valid)| ==> ElementTrees(es, valid)[k].Elem?
    decreases |ms| + |es|
  {
    if ms != [] {
      TreesAreElements(ms[1..], es, valid);
    } else if es != [] {
      TreesAreElements(ms, es[1..], valid);
    }
  }

  /** The tree built for a value means that value exactly if no object in it is empty. */
  lemma {:induction false} TreeMeans(tag: string, attr: Option<string>, v: Json, inArray: bool, valid: Naming)
    requires Proper(v)
    ensures Meaning(Tree(tag, attr, v, inArray, valid)) == v <==> Filled(v)
    decreases v, 2
  {
    match v {
      case Obj(ms) =>
        TreesAreElements(ms, [], valid);
        AllElements(MemberTrees(ms, valid));
        MembersMean(ms, valid);
      case Arr(es) => ElementsMean(es, valid);
      case _ => LeafTree(tag, attr, v, inArray, valid, _ => true);
    }
  }

  // A value without parts.
  lemma {:induction false} LeafTree(tag: string, attr: Option<string>, v: Json, inArray: bool, valid: Naming,
                                    q: Quoting)
    requires Proper(v) && !v.Obj? && !v.Arr?
    ensures Meaning(Tree(tag, attr, v, inArray, valid)) == v
    ensures TextsLegal(Tree(tag, attr, v, inArray, valid), q) <==> Sayable(v, q)
  {
    WordsTrimmed();
    if v.Num? {
      NumberTrimmed(v.s);
    }
  }

  lemma {:induction false} MembersMean(ms: seq<Member>, valid: Naming)
    requires Proper(Obj(ms))
    ensures Members(MemberTrees(ms, valid)) == ms <==> FilledInside(Obj(ms))
    decreases ms, 1
  {
    if ms != [] {
      var m, later := ms[0], ms[1..];
      assert ms == [m] + later && m in ms && forall x :: x in later ==> x in ms;
      MembersMean(later, valid);
      var name := Named(m.name, valid);
      TreeMeans(name.0, name.1, m.value, false, valid);
      var first := MemberOf(MemberTree(m, valid));
      assert first.name == m.name;
      FirstMember(ms, first, valid);
    }
  }

  lemma {:induction false} FirstMember(ms: seq<Member>, first: Member, valid: Naming)
    requires ms != [] && first == MemberOf(MemberTree(ms[0], valid))
    ensures Members(MemberTrees(ms, valid)) == [first] + Members(MemberTrees(ms[1..], valid))
    ensures Members(MemberTrees(ms, valid)) == ms <==>
      first == ms[0] && Members(MemberTrees(ms[1..], valid)) == ms[1..]
    ensures FilledInside(Obj(ms)) <==> Filled(ms[0].value) && FilledInside(Obj(ms[1..]))
  {
    var kids := MemberTrees(ms, valid);
    assert kids[0] == MemberTree(ms[0], valid) && kids[1..] == MemberTrees(ms[1..], valid);
    assert ms == [ms[0]] + ms[1..];
    ListEqual(first, ms[0], ms[1..]);
  }

  lemma {:induction false} ElementsMean(es: seq<Json>, valid: Naming)
    requires Proper(Arr(es))
    ensures Values(ElementTrees(es, valid)) == es <==> FilledInside(Arr(es))
    decreases es, 1
  {
    if es != [] {
      var e, later := es[0], es[1..];
      assert es == [e] + later && e in es && forall x :: x in later ==> x in es;
      ElementsMean(later, valid);
      TreeMeans("member", None, e, true, valid);
      var kids := ElementTrees(es, valid);
      assert kids[0] == Tree("member", None, e, true, valid) && kids[1..] == ElementTrees(later, valid);
      ListEqual(Meaning(kids[0]), e, later);
    }
  }

  /** Its texts are legal exactly if the value can be said, and every element stands where it may. */
  lemma {:induction false} TreeLegal(tag: string, attr: Option<string>, v: Json, inArray: bool, valid: Naming,
                                     q: Quoting)
    requires Proper(v)
    ensures TextsLegal(Tree(tag, attr, v, inArray, valid), q) <==> Sayable(v, q)
    ensures Placed(Tree(tag, attr, v, inArray, valid), inArray)
    decreases v, 2
  {
    match v {
      case Obj(ms) =>
        TreesAreElements(ms, [], valid);
        AllElements(MemberTrees(ms, valid));
        MembersLegal(ms, valid, q);
      case Arr(es) => ElementsLegal(es, valid, q);
      case _ => LeafTree(tag, attr, v, inArray, valid, q);
    }
  }

  lemma {:induction false} MembersLegal(ms: seq<Member>, valid: Naming, q: Quoting)
    requires Proper(Obj(ms))
    ensures AllTextsLegal(MemberTrees(ms, valid), false, q) <==> Sayable(Obj(ms), q)
    ensures AllPlaced(MemberTrees(ms, valid), false)
    decreases ms, 1
  {
    if ms != [] {
      var m, later := ms[0], ms[1..];
      assert ms == [m] + later && m in ms && forall x :: x in later ==> x in ms;
      MembersLegal(later, valid, q);
      var name := Named(m.name, valid);
      TreeLegal(name.0, name.1, m.value, false, valid, q);
      TreesAreElements(later, [], valid);
      AllElements(MemberTrees(later, valid));
      var kids := MemberTrees(ms, valid);
      assert kids[0] == MemberTree(m, valid) && kids[1..] == MemberTrees(later, valid);
      assert NameOf(kids[0]) == m.name;
    }
  }

  lemma {:induction false} ElementsLegal(es: seq<Json>, valid: Naming, q: Quoting)
    requires Proper(Arr(es))
    ensures AllTextsLegal(ElementTrees(es, valid), true, q) <==> Sayable(Arr(es), q)
    ensures AllPlaced(ElementTrees(es, valid), true)
    decreases es, 1
  {
    if es != [] {
      var e, later := es[0], es[1..];
      assert es == [e] + later && e in es && forall x :: x in later ==> x in es;
      ElementsLegal(later, valid, q);
      TreeLegal("member", None, e, true, valid, q);
      TreesAreElements([], later, valid);
      AllElements(ElementTrees(later, valid));
      var kids := ElementTrees(es, valid);
      assert kids[0] == Tree("member", None, e, true, valid) && kids[1..] == ElementTrees(later, valid);
    }
  }

  /**
    A document, an object or an array, made into XML and written as JSON again is read as the same value: exactly
    if its strings and names can be written, given that no object inside is empty, and exactly if no object inside
    is empty, given that its strings and names can be written.
   */
  lemma {:induction false} JsonRoundTrip(v: Json, valid: Naming, q: Quoting)
    requires Proper(v) && (v.Obj? || v.Arr?)
    ensures var back := ReadValue(DocumentTokens(Tree("json", None, v, false, valid), q));
      && (FilledInside(v) ==> (back == Ok(v, []) <==> Sayable(v, q)))
      && (Sayable(v, q) ==> (back == Ok(v, []) <==> FilledInside(v)))
  {
    var root := Tree("json", None, v, false, valid);
    DocumentReads(root, q);
    match v {
      case Obj(ms) =>
        MembersMean(ms, valid);
        MembersLegal(ms, valid, q);
      case Arr(es) =>
        ElementsMean(es, valid);
        ElementsLegal(es, valid, q);
    }
  }

  /** An object inside a document that has no members comes back as the empty string. */
  lemma {:induction false} EmptyObjectLost(valid: Naming, q: Quoting)
    ensures ReadValue(DocumentTokens(Tree("json", None, Arr([Obj([])]), false, valid), q)) == Ok(Arr([Str("")]), [])
  {
    var v := Arr([Obj([])]);
    var root := Tree("json", None, v, false, valid);
    var kid := Tree("member", None, Obj([]), true, valid);
    assert [Obj([])][1..] == [];
    assert root.kids == [kid] && [kid][1..] == [];
    DocumentReads(root, q);
    assert !HasChildNodes([]) && Plain("") && Meaning(kid) == Str("");
    assert Values([kid]) == [Str("")];
  }
}
