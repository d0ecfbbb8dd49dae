/**
  The conditional operator: c ? t : f and c ?: f, moved out of an expression into a variable before it.
 */
module SlaxTernary {
  import Seqs
  import opened SlaxString

  // ----- expressions

  // One token, or the n-th conditional that was parsed, with its second term or without.
  datatype Item =
    | Plain(tok: Tok)
    | Full(n: nat, cond: seq<Item>, yes: seq<Item>, no: seq<Item>)
    | Short(n: nat, cond: seq<Item>, no: seq<Item>)

  // The segments of such an expression; ss_concat leads from Tern(n) to Quest(n), Colon(n) and End(n).
  datatype Seg = Single(tok: Tok) | Tern(n: nat) | Quest(n: nat) | Colon(n: nat) | End(n: nat)

  // Where ss_concat leads.
  function Link(s: Seg): Seg {
    match s case Tern(n) => Quest(n) case Quest(n) => Colon(n) case Colon(n) => End(n) case _ => s
  }

  function LayoutItem(i: Item): seq<Seg> {
    match i
    case Plain(t) => [Single(t)]
    case Full(n, c, yes, no) => [Tern(n)] + Layout(c) + [Quest(n)] + Layout(yes) + [Colon(n)] + Layout(no) + [End(n)]
    case Short(n, c, no) => [Tern(n)] + Layout(c) + [Quest(n)] + [Colon(n)] + Layout(no) + [End(n)]
  }

  function Layout(e: seq<Item>): seq<Seg> {
    if e == [] then [] else LayoutItem(e[0]) + Layout(e[1..])
  }

  // The conditionals anywhere in an expression.
  function Numbers(e: seq<Item>): set<nat> {
    if e == [] then {} else ItemNumbers(e[0]) + Numbers(e[1..])
  }

  function ItemNumbers(i: Item): set<nat> {
    match i
    case Plain(_) => {}
    case Full(n, c, yes, no) => {n} + Numbers(c) + Numbers(yes) + Numbers(no)
    case Short(n, c, no) => {n} + Numbers(c) + Numbers(no)
  }

  // Each conditional has a number of its own, and no part of it is empty.
  predicate Numbered(e: seq<Item>) {
    e != [] ==> NumberedItem(e[0]) && ItemNumbers(e[0]) !! Numbers(e[1..]) && Numbered(e[1..])
  }

  predicate NumberedItem(i: Item) {
    match i
    case Plain(_) => true
    case Full(n, c, yes, no) =>
      c != [] && yes != [] && no != [] && n !in Numbers(c) + Numbers(yes) + Numbers(no)
      && Numbers(c) !! Numbers(yes) && Numbers(c) + Numbers(yes) !! Numbers(no)
      && Numbered(c) && Numbered(yes) && Numbered(no)
    case Short(n, c, no) =>
      c != [] && no != [] && n !in Numbers(c) + Numbers(no) && Numbers(c) !! Numbers(no) && Numbered(c) && Numbered(no)
  }

  // ----- the stylesheet that is built

  datatype Option<T> = None | Some(value: T)

  datatype VarName = Main(n: nat) | Cond(n: nat)

  // A token of an attribute: as it was, slax:value($slax-ternary-n), or $slax-ternary-n-cond.
  datatype Out = Token(tok: Tok) | Value(n: nat) | CondVar(n: nat)

  datatype Tag = Variable | Param | Choose | When | Otherwise | CopyOf | WithParam | Template | Other

  // An element with its name, test and select attributes.
  datatype Elem =
    Elem(tag: Tag, name: Option<VarName>, test: Option<seq<Out>>, select: Option<seq<Out>>, kids: seq<Elem>)

  function Leaf(tag: Tag): Elem {
    Elem(tag, None, None, None, [])
  }

  // The expression with a variable for each conditional.
  function Refs(e: seq<Item>): seq<Out> {
    if e == [] then [] else [if e[0].Plain? then Token(e[0].tok) else Value(e[0].n)] + Refs(e[1..])
  }

  function CopyOfRefs(e: seq<Item>): Elem {
    Leaf(CopyOf).(select := Some(Refs(e)))
  }

  function WhenOf(i: Item): Elem
    requires !i.Plain?
    decreases i, 0
  {
    if i.Full? then Leaf(When).(test := Some(Refs(i.cond)), kids := Vars(i.yes, Variable) + [CopyOfRefs(i.yes)])
    else Leaf(When).(test := Some([CondVar(i.n)]), kids := [Leaf(CopyOf).(select := Some([CondVar(i.n)]))])
  }

  function OtherwiseOf(i: Item): Elem
    requires !i.Plain?
    decreases i, 0
  {
    Leaf(Otherwise).(kids := Vars(i.no, Variable) + [CopyOfRefs(i.no)])
  }

  function CondOf(i: Item): Elem
    requires !i.Plain?
  {
    Leaf(Variable).(name := Some(Cond(i.n)), select := Some(Refs(i.cond)))
  }

  function ChooseOf(i: Item): Elem
    requires !i.Plain?
    decreases i, 1
  {
    Leaf(Choose).(kids := (if i.Full? then Vars(i.cond, Variable) else []) + [WhenOf(i)] + [OtherwiseOf(i)])
  }

  // What stands inside the variable of one conditional.
  function BodyOf(i: Item): seq<Elem>
    requires !i.Plain?
    decreases i, 2
  {
    (if i.Full? then [] else Vars(i.cond, Variable) + [CondOf(i)]) + [ChooseOf(i)]
  }

  function VarOf(i: Item, tag: Tag): Elem
    requires !i.Plain?
    decreases i, 3
  {
    Leaf(tag).(name := Some(Main(i.n)), kids := BodyOf(i))
  }

  // The variables of an expression's own conditionals, in order.
  function Vars(e: seq<Item>, tag: Tag): seq<Elem>
    decreases e, 4
  {
    if e == [] then []
    else if e[0].Plain? then Vars(e[1..], tag)
    else [VarOf(e[0], tag)] + Vars(e[1..], tag)
  }

  // ----- what it means

  // Text nodes are never empty, nor is a number's string.
  type Text = s: string | s != "" witness "0"

  // A node of a result tree: an element or text with its string-value, or a tree's root.
  datatype Node = Element(content: string) | TextNode(text: Text) | Root(children: seq<Node>)

  datatype Val = Str(s: string) | Num(shown: Text, zero: bool) | Bool(b: bool) | Nodes(nodes: seq<Node>)

  predicate Truth(v: Val) {
    match v
    case Str(s) => s != ""
    case Num(_, zero) => !zero
    case Bool(b) => b
    case Nodes(ns) => ns != []
  }

  function CopyNodes(ns: seq<Node>): seq<Node> {
    if ns == [] then [] else (if ns[0].Root? then ns[0].children else [ns[0]]) + CopyNodes(ns[1..])
  }

  // What xsl:copy-of adds to the tree.
  function Copied(v: Val): seq<Node> {
    match v
    case Str(s) => if s == "" then [] else [TextNode(s)]
    case Num(shown, _) => [TextNode(shown)]
    case Bool(b) => [TextNode(if b then "true" else "false")]
    case Nodes(ns) => CopyNodes(ns)
  }

  // slax:value() of a variable that holds a tree.
  function TreeValue(children: seq<Node>): Val {
    if children == [] then Nodes([])
    else if |children| == 1 && children[0].TextNode? then Str(children[0].text)
    else Nodes([Root(children)])
  }

  // A value that went through a variable of its own.
  function Through(v: Val): Val {
    TreeValue(Copied(v))
  }

  // The value of an expression, given the values of its conditionals in order.
  type Eval = (seq<Out>, seq<Val>) -> Val

  // A value, and the evaluations that led to it.
  datatype Done = Done(val: Val, trace: seq<(seq<Out>, seq<Val>)>)

  /** The value of an expression as the operator is meant, where pass is applied to what a conditional gives. */
  function Meaning(ev: Eval, pass: Val -> Val, e: seq<Item>): Done
    decreases e, 1
  {
    var vals := Operands(ev, pass, e);
    Done(ev(Refs(e), vals.0), vals.1 + [(Refs(e), vals.0)])
  }

  function Operands(ev: Eval, pass: Val -> Val, e: seq<Item>): (seq<Val>, seq<(seq<Out>, seq<Val>)>)
    decreases e, 0
  {
    if e == [] then ([], [])
    else
      var rest := Operands(ev, pass, e[1..]);
      if e[0].Plain? then rest
      else
        var d := Choice(ev, pass, e[0]);
        ([d.val] + rest.0, d.trace + rest.1)
  }

  // The condition, then the branch that it selects and no other.
  function Choice(ev: Eval, pass: Val -> Val, i: Item): Done
    requires !i.Plain?
    decreases i, 2
  {
    var c := Meaning(ev, pass, i.cond);
    if Truth(c.val) && i.Short? then Done(pass(c.val), c.trace)
    else
      var d := Meaning(ev, pass, if Truth(c.val) then i.yes else i.no);
      Done(pass(d.val), c.trace + d.trace)
  }

  // ----- running the stylesheet

  type Env = map<VarName, Val>

  datatype Ran = Ran(env: Env, out: seq<Node>, trace: seq<(seq<Out>, seq<Val>)>)

  // The values that the variables of an attribute hold.
  function Fetch(env: Env, toks: seq<Out>): Option<seq<Val>> {
    if toks == [] then Some([])
    else
      var rest := Fetch(env, toks[1..]);
      if toks[0].Token? then rest
      else
        var name := if toks[0].Value? then Main(toks[0].n) else Cond(toks[0].n);
        if name !in env || rest.None? then None else Some([env[name]] + rest.value)
  }

  // A variable on its own is only looked up.
  function Attribute(ev: Eval, env: Env, toks: seq<Out>): Option<Done> {
    var vals := Fetch(env, toks);
    if vals.None? then None
    else if |toks| == 1 && toks[0].CondVar? then Some(Done(vals.value[0], []))
    else Some(Done(ev(toks, vals.value), [(toks, vals.value)]))
  }

  // A sequence of instructions: variables, choices and copies; anything else is an error.
  function Run(ev: Eval, env: Env, es: seq<Elem>): Option<Ran>
    decreases es, 2
  {
    if es == [] then Some(Ran(env, [], []))
    else
      var first := RunOne(ev, env, es[0]);
      if first.None? then None
      else
        var rest := Run(ev, first.value.env, es[1..]);
        if rest.None? then None
        else Some(Ran(rest.value.env, first.value.out + rest.value.out, first.value.trace + rest.value.trace))
  }

  function RunOne(ev: Eval, env: Env, e: Elem): Option<Ran>
    decreases e, 1
  {
    match e.tag
    case Variable | Param =>
      if e.name.None? then None
      else if e.select.Some? then
        var d := Attribute(ev, env, e.select.value);
        if d.None? then None else Some(Ran(env[e.name.value := d.value.val], [], d.value.trace))
      else
        var r := Run(ev, env, e.kids);
        if r.None? then None else Some(Ran(env[e.name.value := TreeValue(r.value.out)], [], r.value.trace))
    case CopyOf =>
      if e.select.None? then None
      else
        var d := Attribute(ev, env, e.select.value);
        if d.None? then None else Some(Ran(env, Copied(d.value.val), d.value.trace))
    case Choose => RunChoose(ev, env, e.kids)
    case _ => None
  }

  // The first xsl:when that holds, or else the xsl:otherwise; nothing else may stand there (section 9.2 of XSLT 1.0).
  function RunChoose(ev: Eval, env: Env, es: seq<Elem>): Option<Ran>
    decreases es, 0
  {
    if es == [] then Some(Ran(env, [], []))
    else if es[0].tag == Otherwise && |es| == 1 then
      var r := Run(ev, env, es[0].kids);
      if r.None? then None else Some(r.value.(env := env))
    else if es[0].tag == When && es[0].test.Some? then
      var t := Attribute(ev, env, es[0].test.value);
      if t.None? then None
      else
        var r := if Truth(t.value.val) then Run(ev, env, es[0].kids) else RunChoose(ev, env, es[1..]);
        if r.None? then None else Some(Ran(env, r.value.out, t.value.trace + r.value.trace))
    else None
  }

  // ----- the two agree

  predicate AllPlain(e: seq<Item>) {
    forall k :: 0 <= k < |e| ==> e[k].Plain?
  }

  // Where conditionals are met, none with all three terms has another one in its condition.
  predicate Runs(ev: Eval, e: seq<Item>)
    decreases e
  {
    e != [] ==> RunsItem(ev, e[0]) && Runs(ev, e[1..])
  }

  predicate RunsItem(ev: Eval, i: Item)
    decreases i
  {
    match i
    case Plain(_) => true
    case Full(_, c, yes, no) => AllPlain(c) && Runs(ev, if Truth(Meaning(ev, Through, c).val) then yes else no)
    case Short(_, c, no) => Runs(ev, c) && (Truth(Meaning(ev, Through, c).val) || Runs(ev, no))
  }

  // The same wherever they stand, met or not.
  predicate PlainConds(e: seq<Item>) {
    e != [] ==> PlainCondsItem(e[0]) && PlainConds(e[1..])
  }

  predicate PlainCondsItem(i: Item) {
    match i
    case Plain(_) => true
    case Full(_, c, yes, no) => AllPlain(c) && PlainConds(yes) && PlainConds(no)
    case Short(_, c, no) => PlainConds(c) && PlainConds(no)
  }

  lemma {:induction false} PlainCondsRun(ev: Eval, e: seq<Item>)
    requires PlainConds(e)
    ensures Runs(ev, e)
    decreases e
  {
    if e != [] {
      PlainCondsRun(ev, e[1..]);
      PlainCondsItemRuns(ev, e[0]);
    }
  }

  lemma {:induction false} PlainCondsItemRuns(ev: Eval, i: Item)
    requires PlainCondsItem(i)
    ensures RunsItem(ev, i)
    decreases i
  {
    if !i.Plain? { PlainCondsRun(ev, i.no); }
    if i.Full? { PlainCondsRun(ev, i.yes); }
    if i.Short? { PlainCondsRun(ev, i.cond); }
  }

  // The variables of an expression's own conditionals hold their values.
  function Bind(env: Env, e: seq<Item>, vals: seq<Val>): Env
    requires |vals| == |Operands0(e)|
    decreases e
  {
    if e == [] then env
    else if e[0].Plain? then Bind(env, e[1..], vals)
    else Bind(env[Main(e[0].n) := vals[0]], e[1..], vals[1..])
  }

  // An expression's own conditionals.
  function Operands0(e: seq<Item>): seq<Item> {
    if e == [] then [] else (if e[0].Plain? then [] else [e[0]]) + Operands0(e[1..])
  }

  lemma {:induction false} OperandsMatch(ev: Eval, pass: Val -> Val, e: seq<Item>)
    ensures |Operands(ev, pass, e).0| == |Operands0(e)|
  {
    if e != [] { OperandsMatch(ev, pass, e[1..]); }
  }

  lemma {:induction false} PlainVars(e: seq<Item>, tag: Tag)
    requires AllPlain(e)
    ensures Vars(e, tag) == [] && forall ev, pass :: Operands(ev, pass, e) == ([], [])
  {
    if e != [] { PlainVars(e[1..], tag); }
  }

  lemma {:induction false} RunConcat(ev: Eval, env: Env, a: seq<Elem>, b: seq<Elem>)
    ensures var ra := Run(ev, env, a);
      Run(ev, env, a + b) ==
        if ra.None? then None
        else
          var rb := Run(ev, ra.value.env, b);
          if rb.None? then None
          else Some(Ran(rb.value.env, ra.value.out + rb.value.out, ra.value.trace + rb.value.trace))
    decreases a
  {
    if a == [] {
      assert a + b == b;
      var rb := Run(ev, env, b);
      if rb.Some? {
        assert [] + rb.value.out == rb.value.out && [] + rb.value.trace == rb.value.trace;
      }
    } else {
      assert (a + b)[0] == a[0] && (a + b)[1..] == a[1..] + b;
      var first := RunOne(ev, env, a[0]);
      if first.Some? {
        RunConcat(ev, first.value.env, a[1..], b);
        var r1 := Run(ev, first.value.env, a[1..]);
        if r1.Some? {
          var rb := Run(ev, r1.value.env, b);
          if rb.Some? {
            Seqs.Assoc(first.value.out, r1.value.out, rb.value.out);
            Seqs.Assoc(first.value.trace, r1.value.trace, rb.value.trace);
          }
        }
      }
    }
  }

  lemma {:induction false} RunSingle(ev: Eval, env: Env, e: Elem)
    ensures Run(ev, env, [e]) == RunOne(ev, env, e)
  {
    var r := RunOne(ev, env, e);
    assert [e][1..] == [];
    if r.Some? {
      assert r.value.out + [] == r.value.out && r.value.trace + [] == r.value.trace;
    }
  }

  // A variable that is not one of an expression's own keeps its value.
  lemma {:induction false} BindKeeps(env: Env, e: seq<Item>, vals: seq<Val>, name: VarName)
    requires |vals| == |Operands0(e)| && (name.Cond? || name.n !in Numbers(e))
    ensures name in Bind(env, e, vals) <==> name in env
    ensures name in env ==> Bind(env, e, vals)[name] == env[name]
    decreases e
  {
    if e != [] {
      if e[0].Plain? {
        BindKeeps(env, e[1..], vals, name);
      } else {
        BindKeeps(env[Main(e[0].n) := vals[0]], e[1..], vals[1..], name);
      }
    }
  }

  lemma {:induction false} FetchRefs(env: Env, e: seq<Item>, vals: seq<Val>)
    requires |vals| == |Operands0(e)| && Numbered(e)
    ensures Fetch(Bind(env, e, vals), Refs(e)) == Some(vals)
    decreases e
  {
    if e != [] {
      var rest := Refs(e)[1..];
      assert rest == Refs(e[1..]);
      if e[0].Plain? {
        FetchRefs(env, e[1..], vals);
      } else {
        var env1 := env[Main(e[0].n) := vals[0]];
        assert e[0].n in ItemNumbers(e[0]);
        FetchRefs(env1, e[1..], vals[1..]);
        BindKeeps(env1, e[1..], vals[1..], Main(e[0].n));
        assert [vals[0]] + vals[1..] == vals;
      }
    }
  }

  lemma {:induction false} NoCondVar(e: seq<Item>, k: nat)
    requires k < |Refs(e)|
    ensures !Refs(e)[k].CondVar?
  {
    if k > 0 { NoCondVar(e[1..], k - 1); }
  }

  // An attribute whose variables are bound has the value that is meant.
  lemma {:induction false} AttributeMeans(ev: Eval, env: Env, e: seq<Item>)
    requires Numbered(e)
    ensures |Operands(ev, Through, e).0| == |Operands0(e)|
    ensures var vals := Operands(ev, Through, e).0;
      Attribute(ev, Bind(env, e, vals), Refs(e)) == Some(Done(ev(Refs(e), vals), [(Refs(e), vals)]))
  {
    OperandsMatch(ev, Through, e);
    FetchRefs(env, e, Operands(ev, Through, e).0);
    if |Refs(e)| == 1 { NoCondVar(e, 0); }
  }

  /** Running the variables gives every conditional its value, and evaluates what its meaning evaluates. */
  lemma {:induction false} VarsRun(ev: Eval, env: Env, e: seq<Item>, tag: Tag)
    requires Numbered(e) && Runs(ev, e) && (tag == Variable || tag == Param)
    ensures |Operands(ev, Through, e).0| == |Operands0(e)|
    ensures var ops := Operands(ev, Through, e);
      Run(ev, env, Vars(e, tag)) == Some(Ran(Bind(env, e, ops.0), [], ops.1))
    decreases e, 3
  {
    OperandsMatch(ev, Through, e);
    if e != [] {
      if e[0].Plain? {
        VarsRun(ev, env, e[1..], tag);
      } else {
        var d := Choice(ev, Through, e[0]);
        var env1 := env[Main(e[0].n) := d.val];
        VarRuns(ev, env, e[0], tag);
        VarsRun(ev, env1, e[1..], tag);
        var rest, ops := Operands(ev, Through, e[1..]), Operands(ev, Through, e);
        assert ops.0[0] == d.val && ops.0[1..] == rest.0 && ops.1 == d.trace + rest.1;
        var vars := Vars(e, tag);
        assert vars[0] == VarOf(e[0], tag) && vars[1..] == Vars(e[1..], tag);
        assert Bind(env, e, ops.0) == Bind(env1, e[1..], rest.0);
        var none: seq<Node> := [];
        assert none + none == none;
      }
    }
  }

  // The variables of an expression and a copy of its value.
  lemma {:induction false} CopyRuns(ev: Eval, env: Env, e: seq<Item>)
    requires Numbered(e) && Runs(ev, e)
    ensures var r := Run(ev, env, Vars(e, Variable) + [CopyOfRefs(e)]); var d := Meaning(ev, Through, e);
      r.Some? && r.value.out == Copied(d.val) && r.value.trace == d.trace
    decreases e, 4
  {
    VarsRun(ev, env, e, Variable);
    var ops := Operands(ev, Through, e);
    RunConcat(ev, env, Vars(e, Variable), [CopyOfRefs(e)]);
    RunSingle(ev, Bind(env, e, ops.0), CopyOfRefs(e));
    AttributeMeans(ev, env, e);
    assert [] + Copied(Meaning(ev, Through, e).val) == Copied(Meaning(ev, Through, e).val);
  }

  lemma {:induction false} OtherwiseRuns(ev: Eval, env: Env, i: Item)
    requires !i.Plain? && Numbered(i.no) && Runs(ev, i.no)
    ensures var r := RunChoose(ev, env, [OtherwiseOf(i)]); var d := Meaning(ev, Through, i.no);
      r == Some(Ran(env, Copied(d.val), d.trace))
    decreases i, 0
  {
    CopyRuns(ev, env, i.no);
  }

  lemma {:induction false} VarRuns(ev: Eval, env: Env, i: Item, tag: Tag)
    requires !i.Plain? && NumberedItem(i) && RunsItem(ev, i) && (tag == Variable || tag == Param)
    ensures var d := Choice(ev, Through, i);
      RunOne(ev, env, VarOf(i, tag)) == Some(Ran(env[Main(i.n) := d.val], [], d.trace))
    decreases i, 3
  {
    if i.Full? { FullRuns(ev, env, i); } else { ShortRuns(ev, env, i); }
  }

  lemma {:induction false} FullRuns(ev: Eval, env: Env, i: Item)
    requires i.Full? && NumberedItem(i) && RunsItem(ev, i)
    ensures var r := Run(ev, env, BodyOf(i)); var d := Choice(ev, Through, i);
      r.Some? && TreeValue(r.value.out) == d.val && r.value.trace == d.trace
    decreases i, 2, 0
  {
    PlainVars(i.cond, Variable);
    Seqs.NoChange([WhenOf(i)]);
    Seqs.NoChange([ChooseOf(i)]);
    RunSingle(ev, env, ChooseOf(i));
    FullChoice(ev, env, i);
  }

  // The choice alone.
  lemma {:induction false} FullChoice(ev: Eval, env: Env, i: Item)
    requires i.Full? && NumberedItem(i) && RunsItem(ev, i)
    ensures var r := RunChoose(ev, env, [WhenOf(i)] + [OtherwiseOf(i)]); var d := Choice(ev, Through, i);
      r.Some? && TreeValue(r.value.out) == d.val && r.value.trace == d.trace
    decreases i, 1
  {
    var es := [WhenOf(i)] + [OtherwiseOf(i)];
    assert es[0] == WhenOf(i) && es[1..] == [OtherwiseOf(i)];
    PlainTest(ev, env, i.cond);
    if Truth(Meaning(ev, Through, i.cond).val) {
      CopyRuns(ev, env, i.yes);
    } else {
      OtherwiseRuns(ev, env, i);
    }
  }

  // A condition without conditionals means what it says.
  lemma {:induction false} PlainTest(ev: Eval, env: Env, e: seq<Item>)
    requires Numbered(e) && AllPlain(e)
    ensures Attribute(ev, env, Refs(e)) == Some(Meaning(ev, Through, e))
  {
    PlainVars(e, Variable);
    AttributeMeans(ev, env, e);
    BindNone(env, e);
    Seqs.NoChange([(Refs(e), Operands(ev, Through, e).0)]);
  }

  lemma {:induction false} BindNone(env: Env, e: seq<Item>)
    requires AllPlain(e)
    ensures |Operands0(e)| == 0 && Bind(env, e, []) == env
  {
    if e != [] { BindNone(env, e[1..]); }
  }

  // The variables of a condition, then the one that holds its value.
  lemma {:induction false} CondRuns(ev: Eval, env: Env, i: Item) returns (env2: Env)
    requires i.Short? && NumberedItem(i) && Runs(ev, i.cond)
    ensures var c := Meaning(ev, Through, i.cond);
      && Cond(i.n) in env2 && env2[Cond(i.n)] == c.val
      && Run(ev, env, Vars(i.cond, Variable) + [CondOf(i)])
           == Some(Ran(env2, [], c.trace))
    decreases i, 0
  {
    var c := Meaning(ev, Through, i.cond);
    var vals := Operands(ev, Through, i.cond);
    var cond := CondOf(i);
    VarsRun(ev, env, i.cond, Variable);
    AttributeMeans(ev, env, i.cond);
    var env1 := Bind(env, i.cond, vals.0);
    env2 := env1[Cond(i.n) := c.val];
    RunConcat(ev, env, Vars(i.cond, Variable), [cond]);
    RunSingle(ev, env1, cond);
    var none: seq<Node> := [];
    assert none + none == none;
  }

  // The choice between the value of the condition and the other branch.
  lemma {:induction false} ShortChoice(ev: Eval, env: Env, i: Item, v: Val)
    requires i.Short? && NumberedItem(i) && RunsItem(ev, i) && Cond(i.n) in env && env[Cond(i.n)] == v
    requires v == Meaning(ev, Through, i.cond).val
    ensures var r := RunChoose(ev, env, [WhenOf(i)] + [OtherwiseOf(i)]); var d := Meaning(ev, Through, i.no);
      r == Some(if Truth(v) then Ran(env, Copied(v), []) else Ran(env, Copied(d.val), d.trace))
    decreases i, 1
  {
    var es := [WhenOf(i)] + [OtherwiseOf(i)];
    assert es[0] == WhenOf(i) && es[1..] == [OtherwiseOf(i)];
    var toks, vals: seq<Val> := [CondVar(i.n)], [v];
    assert toks[1..] == [] && vals + [] == vals;
    assert Fetch(env, toks[1..]) == Some([]);
    assert Fetch(env, toks) == Some(vals);
    if Truth(v) {
      RunSingle(ev, env, Leaf(CopyOf).(select := Some([CondVar(i.n)])));
    } else {
      OtherwiseRuns(ev, env, i);
      var d := Meaning(ev, Through, i.no);
      assert [] + d.trace == d.trace;
    }
  }

  lemma {:induction false} ShortRuns(ev: Eval, env: Env, i: Item)
    requires i.Short? && NumberedItem(i) && RunsItem(ev, i)
    ensures var r := Run(ev, env, BodyOf(i)); var d := Choice(ev, Through, i);
      r.Some? && TreeValue(r.value.out) == d.val && r.value.trace == d.trace
    decreases i, 2, 0
  {
    var c, d := Meaning(ev, Through, i.cond), Meaning(ev, Through, i.no);
    var first := Vars(i.cond, Variable) + [CondOf(i)];
    var choose := ChooseOf(i);
    assert [] + [WhenOf(i)] + [OtherwiseOf(i)] == [WhenOf(i)] + [OtherwiseOf(i)];
    var env2 := CondRuns(ev, env, i);
    RunConcat(ev, env, first, [choose]);
    RunSingle(ev, env2, choose);
    ShortChoice(ev, env2, i, c.val);
    assert c.trace + [] == c.trace;
    assert [] + Copied(c.val) == Copied(c.val) && [] + Copied(d.val) == Copied(d.val);
  }

  /**
    Expanding an expression preserves its value and evaluates the same things: the variables run, and the
    expression then has the value that is meant when every conditional's value goes through a variable.
   */
  lemma {:induction false} ExpandPreserves(ev: Eval, env: Env, e: seq<Item>, tag: Tag)
    requires Numbered(e) && Runs(ev, e) && (tag == Variable || tag == Param)
    ensures var r := Run(ev, env, Vars(e, tag)); var d := Meaning(ev, Through, e);
      && r.Some? && r.value.out == []
      && var a := Attribute(ev, r.value.env, Refs(e));
        a.Some? && a.value.val == d.val && r.value.trace + a.value.trace == d.trace
  {
    VarsRun(ev, env, e, tag);
    AttributeMeans(ev, env, e);
  }

  /** A conditional inside the condition of one with three terms is put where no instruction may stand. */
  lemma {:induction false} NestedConditionFails(ev: Eval, env: Env, i: Item, tag: Tag)
    requires i.Full? && (tag == Variable || tag == Param)
    ensures !AllPlain(i.cond) ==> RunOne(ev, env, VarOf(i, tag)) == None
  {
    if !AllPlain(i.cond) {
      FirstVar(i.cond);
      var kids := Vars(i.cond, Variable) + [WhenOf(i)] + [OtherwiseOf(i)];
      assert kids[0] == Vars(i.cond, Variable)[0];
      assert BodyOf(i) == [ChooseOf(i)];
      RunSingle(ev, env, ChooseOf(i));
    }
  }

  /** The variable of a conditional runs exactly if no nested condition is met on the way. */
  lemma {:induction false} VarRunsIff(ev: Eval, env: Env, i: Item, tag: Tag)
    requires !i.Plain? && NumberedItem(i) && (tag == Variable || tag == Param)
    ensures RunOne(ev, env, VarOf(i, tag)).Some? <==> RunsItem(ev, i)
    decreases i, 3
  {
    if RunsItem(ev, i) {
      VarRuns(ev, env, i, tag);
    } else if i.Short? {
      ShortStops(ev, env, i);
    } else if AllPlain(i.cond) {
      FullStops(ev, env, i);
    } else {
      NestedConditionFails(ev, env, i, tag);
    }
  }

  lemma {:induction false} FullStops(ev: Eval, env: Env, i: Item)
    requires i.Full? && NumberedItem(i) && AllPlain(i.cond) && !RunsItem(ev, i)
    ensures Run(ev, env, BodyOf(i)) == None
    decreases i, 2
  {
    PlainVars(i.cond, Variable);
    Seqs.NoChange([WhenOf(i)]);
    Seqs.NoChange([ChooseOf(i)]);
    RunSingle(ev, env, ChooseOf(i));
    FullChoiceStops(ev, env, i);
  }

  lemma {:induction false} FullChoiceStops(ev: Eval, env: Env, i: Item)
    requires i.Full? && NumberedItem(i) && AllPlain(i.cond) && !RunsItem(ev, i)
    ensures RunChoose(ev, env, [WhenOf(i)] + [OtherwiseOf(i)]) == None
    decreases i, 1
  {
    var es := [WhenOf(i)] + [OtherwiseOf(i)];
    assert es[0] == WhenOf(i) && es[1..] == [OtherwiseOf(i)];
    PlainTest(ev, env, i.cond);
    CopyStops(ev, env, if Truth(Meaning(ev, Through, i.cond).val) then i.yes else i.no);
    assert RunChoose(ev, env, [OtherwiseOf(i)]) == None || Truth(Meaning(ev, Through, i.cond).val);
  }

  lemma {:induction false} ShortStops(ev: Eval, env: Env, i: Item)
    requires i.Short? && NumberedItem(i) && !RunsItem(ev, i)
    ensures Run(ev, env, BodyOf(i)) == None
    decreases i, 2
  {
    var first, choose := Vars(i.cond, Variable) + [CondOf(i)], ChooseOf(i);
    RunConcat(ev, env, first, [choose]);
    if !Runs(ev, i.cond) {
      RunsIff(ev, env, i.cond, Variable);
      RunConcat(ev, env, Vars(i.cond, Variable), [CondOf(i)]);
    } else {
      var env2 := CondRuns(ev, env, i);
      RunSingle(ev, env2, choose);
      CopyStops(ev, env2, i.no);
      ShortOtherwise(ev, env2, i);
      Seqs.NoChange([WhenOf(i)]);
    }
  }

  // A condition that does not hold leads to the other branch.
  lemma {:induction false} ShortOtherwise(ev: Eval, env: Env, i: Item)
    requires i.Short? && Cond(i.n) in env && !Truth(env[Cond(i.n)])
    requires Run(ev, env, Vars(i.no, Variable) + [CopyOfRefs(i.no)]) == None
    ensures RunChoose(ev, env, [WhenOf(i)] + [OtherwiseOf(i)]) == None
  {
    var es := [WhenOf(i)] + [OtherwiseOf(i)];
    assert es[0] == WhenOf(i) && es[1..] == [OtherwiseOf(i)];
    assert RunChoose(ev, env, [OtherwiseOf(i)]) == None;
    var toks, vals: seq<Val> := [CondVar(i.n)], [env[Cond(i.n)]];
    assert toks[1..] == [] && vals + [] == vals;
    assert Fetch(env, toks[1..]) == Some([]);
    assert Fetch(env, toks) == Some(vals);
  }

  lemma {:induction false} CopyStops(ev: Eval, env: Env, e: seq<Item>)
    requires Numbered(e) && !Runs(ev, e)
    ensures Run(ev, env, Vars(e, Variable) + [CopyOfRefs(e)]) == None
    decreases e, 5
  {
    RunsIff(ev, env, e, Variable);
    RunConcat(ev, env, Vars(e, Variable), [CopyOfRefs(e)]);
  }

  /** The variables of an expression run exactly if no nested condition is met on the way, however deep. */
  lemma {:induction false} RunsIff(ev: Eval, env: Env, e: seq<Item>, tag: Tag)
    requires Numbered(e) && (tag == Variable || tag == Param)
    ensures Run(ev, env, Vars(e, tag)).Some? <==> Runs(ev, e)
    decreases e, 4
  {
    if Runs(ev, e) {
      VarsRun(ev, env, e, tag);
    } else if e[0].Plain? {
      RunsIff(ev, env, e[1..], tag);
    } else {
      var rest := Vars(e[1..], tag);
      assert Vars(e, tag) == [VarOf(e[0], tag)] + rest && ([VarOf(e[0], tag)] + rest)[1..] == rest;
      VarRunsIff(ev, env, e[0], tag);
      var first := RunOne(ev, env, VarOf(e[0], tag));
      if first.Some? {
        RunsIff(ev, first.value.env, e[1..], tag);
      }
    }
  }

  lemma {:induction false} OneItem(ev: Eval, i: Item)
    ensures Numbered([i]) <==> NumberedItem(i)
    ensures Numbers([i]) == ItemNumbers(i)
    ensures AllPlain([i]) <==> i.Plain?
    ensures PlainConds([i]) <==> PlainCondsItem(i)
    ensures Runs(ev, [i]) <==> RunsItem(ev, i)
    ensures i.Plain? ==> Meaning(ev, Through, [i]).val == ev([Token(i.tok)], [])
  {
    assert [i][1..] == [];
    assert [i][0] == i;
    if i.Plain? {
      assert Refs([i][1..]) == [];
      assert Refs([i]) == [Token(i.tok)];
      PlainVars([i], Variable);
    }
  }

  /** A nested condition in a branch that is not chosen does no harm. */
  lemma {:induction false} UnchosenIsHarmless(p: Tok, ev: Eval)
    requires Truth(ev([Token(p)], []))
    ensures var bad := Full(1, [Short(2, [Plain(p)], [Plain(p)])], [Plain(p)], [Plain(p)]);
      var e := [Full(0, [Plain(p)], [Plain(p)], [bad])];
      Numbered(e) && !PlainConds(e) && Runs(ev, e)
  {
    var plain, short := Plain(p), Short(2, [Plain(p)], [Plain(p)]);
    var bad := Full(1, [short], [plain], [plain]);
    OneItem(ev, plain);
    OneItem(ev, short);
    OneItem(ev, bad);
    OneItem(ev, Full(0, [plain], [plain], [bad]));
  }

  lemma {:induction false} FirstVar(e: seq<Item>)
    requires !AllPlain(e)
    ensures Vars(e, Variable) != [] && Vars(e, Variable)[0].tag == Variable
  {
    if e[0].Plain? {
      assert !AllPlain(e[1..]) by {
        var k :| 0 <= k < |e| && !e[k].Plain?;
        assert e[1..][k - 1] == e[k];
      }
      FirstVar(e[1..]);
    }
  }

  // ----- values that survive

  /** What slax:value() gives is kept when it goes through another variable, so nesting changes nothing more. */
  lemma {:induction false} ThroughTwice(v: Val)
    ensures Through(Through(v)) == Through(v)
  {
    var c := Copied(v);
    if c == [] {
      assert Copied(Nodes([])) == [];
    } else if |c| == 1 && c[0].TextNode? {
      assert c == [TextNode(c[0].text)];
    } else {
      CopyOfOne(Root(c));
    }
  }

  lemma {:induction false} CopyOfOne(n: Node)
    ensures CopyNodes([n]) == if n.Root? then n.children else [n]
  {
    assert [n][1..] == [] && CopyNodes([n][1..]) == [];
  }

  // Non-empty strings, no nodes, and the root of a tree that is not just text.
  predicate Stable(v: Val) {
    match v
    case Str(s) => s != ""
    case Nodes(ns) =>
      ns == [] || (|ns| == 1 && ns[0].Root? && ns[0].children != []
                   && !(|ns[0].children| == 1 && ns[0].children[0].TextNode?))
    case _ => false
  }

  /** A value goes through a variable unchanged exactly if it is one of these. */
  lemma {:induction false} ThroughKeeps(v: Val)
    ensures Through(v) == v <==> Stable(v)
  {
    if v.Nodes? && |v.nodes| == 1 {
      assert v.nodes == [v.nodes[0]];
      CopyOfOne(v.nodes[0]);
    }
  }

  /** The truth of a value survives unless it is false() or zero, or nodes of which nothing can be copied. */
  lemma {:induction false} TruthKept(v: Val)
    ensures Truth(Through(v)) == Truth(v) <==>
      (v.Bool? ==> v.b) && (v.Num? ==> !v.zero) && (v.Nodes? && v.nodes != [] ==> CopyNodes(v.nodes) != [])
  {
  }

  function Same(v: Val): Val {
    v
  }

  // Every value that a conditional gives on the way is one that survives.
  predicate Kept(ev: Eval, e: seq<Item>)
    decreases e
  {
    e != [] ==> KeptItem(ev, e[0]) && Kept(ev, e[1..])
  }

  predicate KeptItem(ev: Eval, i: Item)
    decreases i
  {
    !i.Plain? ==>
      && Kept(ev, i.cond)
      && var c := Meaning(ev, Same, i.cond).val;
        if Truth(c) && i.Short? then Stable(c)
        else
          var b := if Truth(c) then i.yes else i.no;
          Kept(ev, b) && Stable(Meaning(ev, Same, b).val)
  }

  /**
    The expanded expression has the value that the operator promises, from the same evaluations, exactly if only
    such values are chosen.
   */
  lemma {:induction false} MeaningKeptIff(ev: Eval, e: seq<Item>)
    ensures Meaning(ev, Through, e) == Meaning(ev, Same, e) <==> Kept(ev, e)
  {
    if Kept(ev, e) { MeaningKept(ev, e); } else { MeaningParts(ev, e); }
  }

  // Up to some point the same was evaluated, and then something else.
  ghost predicate Part<T(!new)>(a: seq<T>, b: seq<T>) {
    exists k :: 0 <= k < |a| && k < |b| && a[..k] == b[..k] && a[k] != b[k]
  }

  lemma {:induction false} PartBehind<T(!new)>(pre: seq<T>, a: seq<T>, b: seq<T>, c: seq<T>, d: seq<T>)
    requires Part(a, b)
    ensures Part(pre + a + c, pre + b + d)
  {
    var k :| 0 <= k < |a| && k < |b| && a[..k] == b[..k] && a[k] != b[k];
    var x, y, n := pre + a + c, pre + b + d, |pre| + k;
    assert x[..n] == pre + a[..k] && y[..n] == pre + b[..k];
    assert x[n] == a[k] && y[n] == b[k];
  }

  lemma {:induction false} MeaningParts(ev: Eval, e: seq<Item>)
    requires !Kept(ev, e)
    ensures Part(Meaning(ev, Through, e).trace, Meaning(ev, Same, e).trace)
    decreases e, 1
  {
    OperandsPart(ev, e);
    var t, s := Operands(ev, Through, e), Operands(ev, Same, e);
    var x, y := Meaning(ev, Through, e).trace, Meaning(ev, Same, e).trace;
    if t.1 == s.1 {
      var k := |t.1|;
      assert x[..k] == y[..k] && x[k] != y[k];
    } else {
      PartBehind([], t.1, s.1, [(Refs(e), t.0)], [(Refs(e), s.0)]);
      assert [] + t.1 == t.1 && [] + s.1 == s.1;
    }
  }

  lemma {:induction false} OperandsPart(ev: Eval, e: seq<Item>)
    requires !Kept(ev, e)
    ensures var t, s := Operands(ev, Through, e), Operands(ev, Same, e);
      Part(t.1, s.1) || (t.1 == s.1 && t.0 != s.0)
    decreases e, 0
  {
    var rest := e[1..];
    if !Kept(ev, rest) { OperandsPart(ev, rest); } else { OperandsKept(ev, rest); }
    if !e[0].Plain? {
      var a, b := Operands(ev, Through, rest), Operands(ev, Same, rest);
      if KeptItem(ev, e[0]) { ChoiceKept(ev, e[0]); } else { ChoiceParts(ev, e[0]); }
      var c, d := Choice(ev, Through, e[0]), Choice(ev, Same, e[0]);
      ListsPart(c.val, a.0, d.val, b.0);
      if c.trace != d.trace {
        PartBehind([], c.trace, d.trace, a.1, b.1);
        assert [] + c.trace == c.trace && [] + d.trace == d.trace;
      } else if a.1 != b.1 {
        PartBehind(c.trace, a.1, b.1, [], []);
        assert c.trace + a.1 + [] == c.trace + a.1 && d.trace + b.1 + [] == d.trace + b.1;
      }
    }
  }

  lemma {:induction false} ListsPart<T>(x: T, a: seq<T>, y: T, b: seq<T>)
    ensures [x] + a == [y] + b <==> x == y && a == b
  {
    assert ([x] + a)[1..] == a && ([y] + b)[1..] == b && ([x] + a)[0] == x && ([y] + b)[0] == y;
  }

  lemma {:induction false} ChoiceParts(ev: Eval, i: Item)
    requires !i.Plain? && !KeptItem(ev, i)
    ensures var t, s := Choice(ev, Through, i), Choice(ev, Same, i);
      Part(t.trace, s.trace) || (t.trace == s.trace && t.val != s.val)
    decreases i, 1
  {
    var c := Meaning(ev, Through, i.cond);
    if !Kept(ev, i.cond) {
      MeaningParts(ev, i.cond);
      CondParts(ev, i);
    } else {
      MeaningKept(ev, i.cond);
      if Truth(c.val) && i.Short? {
        ThroughKeeps(c.val);
      } else {
        BranchParts(ev, i, if Truth(c.val) then i.yes else i.no, c);
      }
    }
  }

  // The evaluations of a choice begin with those of its condition.
  lemma {:induction false} CondFirst(ev: Eval, pass: Val -> Val, i: Item) returns (more: seq<(seq<Out>, seq<Val>)>)
    requires !i.Plain?
    ensures Choice(ev, pass, i).trace == [] + Meaning(ev, pass, i.cond).trace + more
  {
    var c := Meaning(ev, pass, i.cond);
    assert [] + c.trace == c.trace;
    if Truth(c.val) && i.Short? {
      more := [];
      assert c.trace + more == c.trace;
    } else {
      more := Meaning(ev, pass, if Truth(c.val) then i.yes else i.no).trace;
    }
  }

  lemma {:induction false} CondParts(ev: Eval, i: Item)
    requires !i.Plain? && Part(Meaning(ev, Through, i.cond).trace, Meaning(ev, Same, i.cond).trace)
    ensures Part(Choice(ev, Through, i).trace, Choice(ev, Same, i).trace)
  {
    var more := CondFirst(ev, Through, i);
    var more' := CondFirst(ev, Same, i);
    PartBehind([], Meaning(ev, Through, i.cond).trace, Meaning(ev, Same, i.cond).trace, more, more');
  }

  lemma {:induction false} BranchParts(ev: Eval, i: Item, b: seq<Item>, c: Done)
    requires !i.Plain? && (b == i.no || (i.Full? && b == i.yes))
    requires !(Kept(ev, b) && Stable(Meaning(ev, Same, b).val))
    ensures var t, s := Meaning(ev, Through, b), Meaning(ev, Same, b);
      Part(c.trace + t.trace, c.trace + s.trace) || (t.trace == s.trace && Through(t.val) != s.val)
    decreases i, 0
  {
    if Kept(ev, b) {
      MeaningKept(ev, b);
      ThroughKeeps(Meaning(ev, Same, b).val);
    } else {
      MeaningParts(ev, b);
      var t, s := Meaning(ev, Through, b), Meaning(ev, Same, b);
      PartBehind(c.trace, t.trace, s.trace, [], []);
      assert c.trace + t.trace + [] == c.trace + t.trace && c.trace + s.trace + [] == c.trace + s.trace;
    }
  }

  lemma {:induction false} MeaningKept(ev: Eval, e: seq<Item>)
    requires Kept(ev, e)
    ensures Meaning(ev, Through, e) == Meaning(ev, Same, e)
    decreases e, 1
  {
    OperandsKept(ev, e);
  }

  lemma {:induction false} OperandsKept(ev: Eval, e: seq<Item>)
    requires Kept(ev, e)
    ensures Operands(ev, Through, e) == Operands(ev, Same, e)
    decreases e, 0
  {
    if e != [] {
      OperandsKept(ev, e[1..]);
      if !e[0].Plain? {
        ChoiceKept(ev, e[0]);
      }
    }
  }

  lemma {:induction false} ChoiceKept(ev: Eval, i: Item)
    requires !i.Plain? && KeptItem(ev, i)
    ensures Choice(ev, Through, i) == Choice(ev, Same, i)
    decreases i, 2
  {
    MeaningKept(ev, i.cond);
    var c := Meaning(ev, Same, i.cond).val;
    if Truth(c) && i.Short? {
      ThroughKeeps(c);
    } else {
      var b := if Truth(c) then i.yes else i.no;
      MeaningKept(ev, b);
      ThroughKeeps(Meaning(ev, Same, b).val);
    }
  }

  // ----- building it

  // An open element, and how far below it on the stack the element is that it belongs to.
  datatype Frame = Frame(elem: Elem, up: nat)

  function AddKids(stack: seq<Frame>, at: nat, es: seq<Elem>): seq<Frame>
    requires at < |stack|
  {
    stack[at := stack[at].(elem := stack[at].elem.(kids := stack[at].elem.kids + es))]
  }

  // The element that a variable goes into: the one around the context node, or around the call that it
  // is a parameter of.
  function Around(stack: seq<Frame>): nat
    requires |stack| >= 3
  {
    if stack[|stack| - 1].elem.tag == WithParam then |stack| - 3 else |stack| - 2
  }

  // Parameters of a template come first, so variables among them are parameters as well.
  function VarTag(stack: seq<Frame>): Tag
    requires |stack| >= 3
  {
    var sib := if stack[|stack| - 1].elem.tag == WithParam then |stack| - 2 else |stack| - 1;
    if stack[sib].elem.tag == Param && stack[sib - 1].elem.tag == Template then Param else Variable
  }

  class Builder {
    var stack: seq<Frame>

    constructor (stack: seq<Frame>)
      ensures this.stack == stack
    {
      this.stack := stack;
    }

    // slaxElementPush
    method Push(tag: Tag, name: Option<VarName>)
      modifies this
      ensures stack == old(stack) + [Frame(Leaf(tag).(name := name), 1)]
    {
      stack := stack + [Frame(Leaf(tag).(name := name), 1)];
    }

    // slaxElementPushVar: the variable goes before the context node.
    method PushVar(name: VarName)
      requires |stack| >= 3
      modifies this
      ensures stack ==
        old(stack) + [Frame(Leaf(VarTag(old(stack))).(name := Some(name)), |old(stack)| - Around(old(stack)))]
      ensures var n := |old(stack)|; var f := stack[n];
        && f.up == (if old(stack)[n - 1].elem.tag == WithParam then 3 else 2)
        && f.elem.tag == (if old(stack)[n - f.up].elem.tag == Template && old(stack)[n - f.up + 1].elem.tag == Param
                          then Param else Variable)
    {
      var tag := Variable;
      var sib := |stack| - 1;
      if stack[sib].elem.tag == WithParam {
        sib := sib - 1;
      }
      if stack[sib].elem.tag == Param && stack[sib - 1].elem.tag == Template {
        tag := Param;
      }
      stack := stack + [Frame(Leaf(tag).(name := Some(name)), |stack| - (sib - 1))];
    }

    // slaxElementPop
    method Pop()
      requires |stack| > 0 && 1 <= stack[|stack| - 1].up < |stack|
      modifies this
      ensures var n := |old(stack)| - 1; var f := old(stack)[n];
        stack == AddKids(old(stack)[..n], n - f.up, [f.elem])
    {
      var n := |stack| - 1;
      var f := stack[n];
      stack := AddKids(stack[..n], n - f.up, [f.elem]);
    }

    method SetTest(toks: seq<Out>)
      requires |stack| > 0
      modifies this
      ensures var n := |stack| - 1;
        && |stack| == |old(stack)|
        && stack == old(stack)[n := old(stack)[n].(elem := old(stack)[n].elem.(test := Some(toks)))]
    {
      var n := |stack| - 1;
      stack := stack[n := stack[n].(elem := stack[n].elem.(test := Some(toks)))];
    }

    method SetSelect(toks: seq<Out>)
      requires |stack| > 0
      modifies this
      ensures var n := |stack| - 1;
        && |stack| == |old(stack)|
        && stack == old(stack)[n := old(stack)[n].(elem := old(stack)[n].elem.(select := Some(toks)))]
    {
      var n := |stack| - 1;
      stack := stack[n := stack[n].(elem := stack[n].elem.(select := Some(toks)))];
    }
  }

  // Where a segment stands.
  method Seek(list: seq<Seg>, from: nat, s: Seg) returns (at: nat)
    requires exists k :: from <= k < |list| && list[k] == s
    ensures from <= at < |list| && list[at] == s && s !in list[from..at]
  {
    at := from;
    while list[at] != s
      invariant from <= at < |list| && s !in list[from..at]
      invariant exists k :: at <= k < |list| && list[k] == s
      decreases |list| - at
    {
      assert list[from..at + 1] == list[from..at] + [list[at]];
      at := at + 1;
    }
  }

  lemma {:induction false} LayoutNumbers(e: seq<Item>, s: Seg)
    requires s in Layout(e) && !s.Single?
    ensures s.n in Numbers(e)
    decreases e
  {
    if s in LayoutItem(e[0]) {
      ItemLayoutNumbers(e[0], s);
    } else {
      LayoutNumbers(e[1..], s);
    }
  }

  lemma {:induction false} ItemLayoutNumbers(i: Item, s: Seg)
    requires s in LayoutItem(i) && !s.Single?
    ensures s.n in ItemNumbers(i)
    decreases i
  {
    if !i.Plain? && s.n != i.n {
      if s in Layout(i.cond) {
        LayoutNumbers(i.cond, s);
      } else if s in Layout(i.no) {
        LayoutNumbers(i.no, s);
      } else {
        LayoutNumbers(i.yes, s);
      }
    }
  }

  // Takes the part that ends at a segment which does not belong to it.
  method TakePart(list: seq<Seg>, from: nat, s: Seg, ghost part: seq<Seg>, ghost rest: seq<Seg>)
      returns (taken: seq<Seg>, at: nat)
    requires from <= |list| && list[from..] == part + ([s] + rest) && s !in part
    ensures taken == part && at < |list| && list[at] == s && list[at + 1..] == rest
  {
    ghost var place := from + |part|;
    TakeFront(list, from, part, [s] + rest);
    TakeFront(list, place, [s], rest);
    at := Seek(list, from, s);
    NotBeyond(list, from, at, part, s);
    taken := list[from..at];
  }

  lemma {:induction false} NotBeyond(list: seq<Seg>, from: nat, at: nat, part: seq<Seg>, s: Seg)
    requires from + |part| < |list| && list[from..from + |part|] == part && list[from + |part|] == s && s !in part
    requires from <= at < |list| && list[at] == s && s !in list[from..at]
    ensures at == from + |part|
  {
    assert forall k {:trigger list[k]} :: from <= k < from + |part| ==> list[k] == part[k - from];
    assert forall k {:trigger list[k]} :: from <= k < at ==> list[k] == list[from..at][k - from];
  }

  lemma {:induction false} TakeFront(list: seq<Seg>, i: nat, a: seq<Seg>, rest: seq<Seg>)
    requires i <= |list| && list[i..] == a + rest
    ensures i + |a| <= |list| && list[i..i + |a|] == a && list[i + |a|..] == rest
    ensures |a| == 1 ==> list[i] == a[0]
    ensures rest != [] ==> i + |a| < |list| && list[i + |a|] == rest[0]
  {
    assert list[i..][..|a|] == list[i..i + |a|];
    assert list[i..][|a|..] == list[i + |a|..];
    assert rest != [] ==> list[i + |a|] == list[i + |a|..][0];
  }

  // The terms of the conditional that starts at i, and where the list goes on behind it.
  method Terms(list: seq<Seg>, i: nat, ghost item: Item, ghost after: seq<Seg>)
      returns (scond: seq<Seg>, strue: seq<Seg>, sfalse: seq<Seg>, next: nat)
    requires i <= |list| && !item.Plain? && NumberedItem(item) && list[i..] == LayoutItem(item) + after
    ensures scond == Layout(item.cond) && sfalse == Layout(item.no)
    ensures strue == if item.Full? then Layout(item.yes) else []
    ensures i < next <= |list| && list[next..] == after
  {
    ghost var y := if item.Full? then Layout(item.yes) else [];
    LayoutNested(item, after);
    OwnSegments(item);
    scond, strue, sfalse, next := TakeThree(list, i, Tern(item.n), Layout(item.cond), y, Layout(item.no), after);
  }

  // The three parts between the segments that are linked to the one at i.
  method TakeThree(list: seq<Seg>, i: nat, ghost t: Seg, ghost c: seq<Seg>, ghost y: seq<Seg>, ghost no: seq<Seg>,
                   ghost after: seq<Seg>)
      returns (scond: seq<Seg>, strue: seq<Seg>, sfalse: seq<Seg>, next: nat)
    requires i <= |list|
    requires list[i..] == [t] + (c + ([Link(t)] + (y + ([Link(Link(t))] + (no + ([Link(Link(Link(t)))] + after))))))
    requires Link(t) !in c && Link(Link(t)) !in y && Link(Link(Link(t))) !in no
    ensures scond == c && strue == y && sfalse == no
    ensures i < next <= |list| && list[next..] == after
  {
    ghost var r3 := no + ([Link(Link(Link(t)))] + after);
    ghost var r2 := y + ([Link(Link(t))] + r3);
    TakeFront(list, i, [t], c + ([Link(t)] + r2));
    var qsp, csp, esp;
    scond, qsp := TakePart(list, i + 1, Link(list[i]), c, r2);
    strue, csp := TakePart(list, qsp + 1, Link(list[qsp]), y, r3);
    sfalse, esp := TakePart(list, csp + 1, Link(list[csp]), no, after);
    next := esp + 1;
  }

  lemma {:induction false} LayoutNested(item: Item, after: seq<Seg>)
    requires !item.Plain?
    ensures var y := if item.Full? then Layout(item.yes) else [];
      LayoutItem(item) + after == [Tern(item.n)] + (Layout(item.cond) + ([Quest(item.n)] + (y + ([Colon(item.n)]
        + (Layout(item.no) + ([End(item.n)] + after))))))
  {
    var n, c, no := item.n, Layout(item.cond), Layout(item.no);
    var y := if item.Full? then Layout(item.yes) else [];
    Seqs.Assoc8([Tern(n)], c, [Quest(n)], y, [Colon(n)], no, [End(n)], after);
    Seqs.NoChange([Tern(n)] + c + [Quest(n)]);
  }

  lemma {:induction false} OwnSegments(i: Item)
    requires !i.Plain? && NumberedItem(i)
    ensures Quest(i.n) !in Layout(i.cond) && End(i.n) !in Layout(i.no)
    ensures i.Full? ==> Colon(i.n) !in Layout(i.yes)
  {
    if Quest(i.n) in Layout(i.cond) { LayoutNumbers(i.cond, Quest(i.n)); }
    if End(i.n) in Layout(i.no) { LayoutNumbers(i.no, End(i.n)); }
    if i.Full? && Colon(i.n) in Layout(i.yes) { LayoutNumbers(i.yes, Colon(i.n)); }
  }

  lemma {:induction false} LayoutNotEmpty(e: seq<Item>)
    ensures |Layout(e)| >= |e|
  {
    if e != [] { LayoutNotEmpty(e[1..]); }
  }

  lemma {:induction false} AddKidsTwice(stack: seq<Frame>, at: nat, a: seq<Elem>, b: seq<Elem>)
    requires at < |stack|
    ensures AddKids(AddKids(stack, at, a), at, b) == AddKids(stack, at, a + b)
  {
    assert stack[at].elem.kids + a + b == stack[at].elem.kids + (a + b);
  }

  lemma {:induction false} AddNoKids(stack: seq<Frame>, at: nat)
    requires at < |stack|
    ensures AddKids(stack, at, []) == stack
  {
    assert stack[at].elem.kids + [] == stack[at].elem.kids;
  }

  // Kids for an element below the top.
  lemma {:induction false} AddKidsBelow(stack: seq<Frame>, more: seq<Frame>, at: nat, a: seq<Elem>)
    requires at < |stack|
    ensures AddKids(stack + more, at, a) == AddKids(stack, at, a) + more
  {
  }

  // slaxAttribAdd: a single segment is taken as it is.
  method AttribAdd(b: Builder, list: seq<Seg>, ghost e: seq<Item>) returns (out: seq<Out>)
    requires list == Layout(e) && e != [] && Numbered(e) && |b.stack| >= 3
    modifies b
    ensures out == Refs(e)
    ensures b.stack == AddKids(old(b.stack), Around(old(b.stack)), Vars(e, VarTag(old(b.stack))))
    decreases e, 6
  {
    if |list| == 1 {
      LayoutNotEmpty(e);
      assert e == [e[0]] && e[1..] == [];
      AddNoKids(b.stack, Around(b.stack));
      return [Token(list[0].tok)];
    }
    out := TernaryExpand(b, list, e);
  }

  // An xsl:copy-of with this expression, for the element on top.
  method CopyBlock(b: Builder, list: seq<Seg>, ghost e: seq<Item>)
    requires list == Layout(e) && e != [] && Numbered(e) && |b.stack| >= 2
    modifies b
    ensures b.stack == AddKids(old(b.stack), |old(b.stack)| - 1, Vars(e, Variable) + [CopyOfRefs(e)])
    decreases e, 7
  {
    ghost var was := b.stack;
    b.Push(CopyOf, None);
    var toks := AttribAdd(b, list, e);
    AddKidsBelow(was, [Frame(Leaf(CopyOf), 1)], |was| - 1, Vars(e, Variable));
    ghost var now := AddKids(was, |was| - 1, Vars(e, Variable));
    assert b.stack == now + [Frame(Leaf(CopyOf), 1)];
    b.SetSelect(toks);
    assert b.stack == now + [Frame(CopyOfRefs(e), 1)];
    assert b.stack[..|was|] == now;
    b.Pop();
    AddKidsTwice(was, |was| - 1, Vars(e, Variable), [CopyOfRefs(e)]);
  }

  method OtherwiseBlock(b: Builder, list: seq<Seg>, ghost i: Item)
    requires !i.Plain? && list == Layout(i.no) && NumberedItem(i) && |b.stack| >= 2
    modifies b
    ensures b.stack == AddKids(old(b.stack), |old(b.stack)| - 1, [OtherwiseOf(i)])
    decreases i, 0
  {
    ghost var was := b.stack;
    b.Push(Otherwise, None);
    CopyBlock(b, list, i.no);
    assert [] + (Vars(i.no, Variable) + [CopyOfRefs(i.no)]) == Vars(i.no, Variable) + [CopyOfRefs(i.no)];
    assert b.stack == was + [Frame(OtherwiseOf(i), 1)];
    assert b.stack[..|was|] == was;
    b.Pop();
  }

  // The xsl:when of a conditional with three terms.
  method WhenBlock(b: Builder, scond: seq<Seg>, strue: seq<Seg>, ghost i: Item)
    requires i.Full? && scond == Layout(i.cond) && strue == Layout(i.yes) && NumberedItem(i) && |b.stack| >= 2
    modifies b
    ensures b.stack == AddKids(old(b.stack), |old(b.stack)| - 1, Vars(i.cond, Variable) + [WhenOf(i)])
    decreases i, 0
  {
    ghost var was := b.stack;
    b.Push(When, None);
    var toks := AttribAdd(b, scond, i.cond);
    ghost var now := AddKids(was, |was| - 1, Vars(i.cond, Variable));
    AddKidsBelow(was, [Frame(Leaf(When), 1)], |was| - 1, Vars(i.cond, Variable));
    assert b.stack == now + [Frame(Leaf(When), 1)];
    b.SetTest(toks);
    assert b.stack == now + [Frame(Leaf(When).(test := Some(Refs(i.cond))), 1)];
    CopyBlock(b, strue, i.yes);
    assert [] + (Vars(i.yes, Variable) + [CopyOfRefs(i.yes)]) == Vars(i.yes, Variable) + [CopyOfRefs(i.yes)];
    assert b.stack == now + [Frame(WhenOf(i), 1)];
    assert b.stack[..|was|] == now;
    b.Pop();
    AddKidsTwice(was, |was| - 1, Vars(i.cond, Variable), [WhenOf(i)]);
  }

  // The variable that holds a condition.
  method CondBlock(b: Builder, n: nat, scond: seq<Seg>, ghost i: Item)
    requires i.Short? && i.n == n && scond == Layout(i.cond) && NumberedItem(i) && |b.stack| >= 2
    modifies b
    ensures b.stack == AddKids(old(b.stack), |old(b.stack)| - 1, Vars(i.cond, Variable) + [CondOf(i)])
    decreases i, 0
  {
    ghost var was := b.stack;
    b.Push(Variable, Some(Cond(n)));
    ghost var frame := Frame(Leaf(Variable).(name := Some(Cond(n))), 1);
    var toks := AttribAdd(b, scond, i.cond);
    ghost var now := AddKids(was, |was| - 1, Vars(i.cond, Variable));
    AddKidsBelow(was, [frame], |was| - 1, Vars(i.cond, Variable));
    assert b.stack == now + [frame];
    b.SetSelect(toks);
    assert b.stack == now + [Frame(CondOf(i), 1)];
    assert b.stack[..|was|] == now;
    b.Pop();
    AddKidsTwice(was, |was| - 1, Vars(i.cond, Variable), [CondOf(i)]);
  }

  // The xsl:when that looks at it.
  method ShortWhenBlock(b: Builder, n: nat, ghost i: Item)
    requires i.Short? && i.n == n && |b.stack| >= 2
    modifies b
    ensures b.stack == AddKids(old(b.stack), |old(b.stack)| - 1, [WhenOf(i)])
  {
    ghost var was := b.stack;
    b.Push(When, None);
    b.SetTest([CondVar(n)]);
    ghost var when := Leaf(When).(test := Some([CondVar(n)]));
    assert b.stack == was + [Frame(when, 1)];
    b.Push(CopyOf, None);
    b.SetSelect([CondVar(n)]);
    ghost var copy := Leaf(CopyOf).(select := Some([CondVar(n)]));
    assert b.stack == was + [Frame(when, 1)] + [Frame(copy, 1)];
    assert b.stack[..|was| + 1] == was + [Frame(when, 1)];
    b.Pop();
    assert [] + [copy] == [copy];
    assert b.stack == was + [Frame(WhenOf(i), 1)];
    assert b.stack[..|was|] == was;
    b.Pop();
  }

  // The xsl:choose of a conditional.
  method ChooseBlock(b: Builder, n: nat, scond: seq<Seg>, strue: seq<Seg>, sfalse: seq<Seg>, short: bool,
                     ghost i: Item)
    requires !i.Plain? && i.n == n && short == i.Short? && NumberedItem(i) && |b.stack| >= 2
    requires scond == Layout(i.cond) && sfalse == Layout(i.no) && (i.Full? ==> strue == Layout(i.yes))
    modifies b
    ensures b.stack == AddKids(old(b.stack), |old(b.stack)| - 1, [ChooseOf(i)])
    decreases i, 1
  {
    ghost var was := b.stack;
    b.Push(Choose, None);
    ghost var vars := if short then [] else Vars(i.cond, Variable);
    if short {
      ShortWhenBlock(b, n, i);
    } else {
      WhenBlock(b, scond, strue, i);
    }
    assert [] + (vars + [WhenOf(i)]) == vars + [WhenOf(i)];
    assert b.stack == was + [Frame(Leaf(Choose).(kids := vars + [WhenOf(i)]), 1)];
    OtherwiseBlock(b, sfalse, i);
    assert b.stack == was + [Frame(ChooseOf(i), 1)];
    assert b.stack[..|was|] == was;
    b.Pop();
  }

  // The variable of one conditional.
  method ExpandOne(b: Builder, n: nat, scond: seq<Seg>, strue: seq<Seg>, sfalse: seq<Seg>, ghost i: Item)
    requires !i.Plain? && i.n == n && NumberedItem(i) && |b.stack| >= 3
    requires scond == Layout(i.cond) && sfalse == Layout(i.no) && strue == if i.Full? then Layout(i.yes) else []
    modifies b
    ensures b.stack == AddKids(old(b.stack), Around(old(b.stack)), [VarOf(i, VarTag(old(b.stack)))])
    decreases i, 2
  {
    ghost var was := b.stack;
    ghost var tag, up := VarTag(was), |was| - Around(was);
    if i.Full? { LayoutNotEmpty(i.yes); }
    var no_second_term := strue == [];
    b.PushVar(Main(n));
    BodyBlock(b, n, scond, strue, sfalse, no_second_term, i);
    Seqs.NoChange(BodyOf(i));
    assert b.stack == was + [Frame(VarOf(i, tag), up)];
    assert b.stack[..|was|] == was;
    b.Pop();
  }

  // What goes inside it.
  method BodyBlock(b: Builder, n: nat, scond: seq<Seg>, strue: seq<Seg>, sfalse: seq<Seg>, short: bool,
                   ghost i: Item)
    requires !i.Plain? && i.n == n && short == i.Short? && NumberedItem(i) && |b.stack| >= 2
    requires scond == Layout(i.cond) && sfalse == Layout(i.no) && (i.Full? ==> strue == Layout(i.yes))
    modifies b
    ensures b.stack == AddKids(old(b.stack), |old(b.stack)| - 1, BodyOf(i))
    decreases i, 2, 0
  {
    ghost var was, top := b.stack, |b.stack| - 1;
    if short {
      CondBlock(b, n, scond, i);
      AddKidsTwice(was, top, Vars(i.cond, Variable) + [CondOf(i)], [ChooseOf(i)]);
    } else {
      Seqs.NoChange([ChooseOf(i)]);
    }
    ChooseBlock(b, n, scond, strue, sfalse, short, i);
  }

  lemma {:induction false} KidsKeepTags(stack: seq<Frame>, at: nat, es: seq<Elem>)
    requires |stack| >= 3 && at < |stack|
    ensures var now := AddKids(stack, at, es);
      |now| == |stack| && Around(now) == Around(stack) && VarTag(now) == VarTag(stack)
  {
  }

  // Takes the terms of the conditional at i and makes them a variable.
  method ExpandHere(b: Builder, value: seq<Seg>, i: nat, ghost item: Item, ghost after: seq<Seg>) returns (next: nat)
    requires i < |value| && !item.Plain? && value[i] == Tern(item.n) && NumberedItem(item) && |b.stack| >= 3
    requires value[i..] == LayoutItem(item) + after
    modifies b
    ensures i < next <= |value| && value[next..] == after
    ensures b.stack == AddKids(old(b.stack), Around(old(b.stack)), [VarOf(item, VarTag(old(b.stack)))])
    decreases item, 3
  {
    var scond, strue, sfalse;
    scond, strue, sfalse, next := Terms(value, i, item, after);
    ExpandOne(b, value[i].n, scond, strue, sfalse, item);
  }

  // The first k items are done: the list from i on, the tokens out and the variables vars are what that leaves.
  ghost predicate Underway(e: seq<Item>, k: nat, value: seq<Seg>, i: nat, out: seq<Out>, vars: seq<Elem>, tag: Tag) {
    && i <= |value| && k <= |e| && value[i..] == Layout(e[k..]) && Numbered(e[k..])
    && Refs(e) == out + Refs(e[k..]) && Vars(e, tag) == vars + Vars(e[k..], tag)
  }

  lemma {:induction false} UnderwayAt(e: seq<Item>, k: nat, value: seq<Seg>, i: nat, out: seq<Out>,
                                      vars: seq<Elem>, tag: Tag)
    requires Underway(e, k, value, i, out, vars, tag) && i < |value|
    ensures k < |e| && NumberedItem(e[k]) && value[i..] == LayoutItem(e[k]) + Layout(e[k + 1..])
    ensures if e[k].Plain? then value[i] == Single(e[k].tok) else value[i] == Tern(e[k].n)
  {
    assert value[i] == value[i..][0];
    assert e[k..] != [] && e[k..][1..] == e[k + 1..] && e[k..][0] == e[k];
    TakeFront(value, i, LayoutItem(e[k]), Layout(e[k + 1..]));
  }

  lemma {:induction false} UnderwayNext(e: seq<Item>, k: nat, value: seq<Seg>, i: nat, out: seq<Out>, vars: seq<Elem>,
      tag: Tag, next: nat)
    requires Underway(e, k, value, i, out, vars, tag) && k < |e|
    requires next <= |value| && value[next..] == Layout(e[k + 1..])
    ensures if e[k].Plain? then Underway(e, k + 1, value, next, out + [Token(e[k].tok)], vars, tag)
      else Underway(e, k + 1, value, next, out + [Value(e[k].n)], vars + [VarOf(e[k], tag)], tag)
  {
    assert e[k..][1..] == e[k + 1..] && e[k..][0] == e[k];
  }

  lemma {:induction false} UnderwayStart(e: seq<Item>, value: seq<Seg>, tag: Tag)
    requires value == Layout(e) && Numbered(e)
    ensures Underway(e, 0, value, 0, [], [], tag)
  {
    assert e[0..] == e && value[0..] == value;
    Seqs.NoChange(Refs(e));
    Seqs.NoChange(Vars(e, tag));
  }

  lemma {:induction false} UnderwayDone(e: seq<Item>, k: nat, value: seq<Seg>, i: nat, out: seq<Out>,
                                        vars: seq<Elem>, tag: Tag)
    requires Underway(e, k, value, i, out, vars, tag) && i >= |value|
    ensures out == Refs(e) && vars == Vars(e, tag)
  {
    LayoutNotEmpty(e[k..]);
    assert e[k..] == [];
    Seqs.NoChange(out);
    Seqs.NoChange(vars);
  }

  // The variable of one more conditional, behind those that are there.
  method ExpandNext(b: Builder, value: seq<Seg>, i: nat, ghost item: Item, ghost after: seq<Seg>,
                    ghost was: seq<Frame>, ghost vars: seq<Elem>) returns (next: nat)
    requires i < |value| && !item.Plain? && value[i] == Tern(item.n) && NumberedItem(item) && |was| >= 3
    requires value[i..] == LayoutItem(item) + after && b.stack == AddKids(was, Around(was), vars)
    modifies b
    ensures i < next <= |value| && value[next..] == after
    ensures b.stack == AddKids(was, Around(was), vars + [VarOf(item, VarTag(was))])
    decreases item, 4
  {
    KidsKeepTags(was, Around(was), vars);
    next := ExpandHere(b, value, i, item, after);
    AddKidsTwice(was, Around(was), vars, [VarOf(item, VarTag(was))]);
  }

  // Every xsl:param before anything else.
  ghost predicate ParamsFirst(kids: seq<Elem>) {
    forall a, b :: 0 <= a < b < |kids| && kids[b].tag == Param ==> kids[a].tag == Param
  }

  // An xsl:template may have its parameters only at its start (section 5.3 of XSLT 1.0), the open element included.
  ghost predicate TemplatesStart(stack: seq<Frame>) {
    forall j :: 0 <= j < |stack| - 1 && stack[j].elem.tag == Template ==>
      ParamsFirst(stack[j].elem.kids + [stack[j + 1].elem])
  }

  // New children behind those that were there: variables, or parameters if they are children of a template.
  ghost predicate Grew(was: Frame, now: Frame) {
    && now == was.(elem := was.elem.(kids := now.elem.kids)) && was.elem.kids <= now.elem.kids
    && forall k :: |was.elem.kids| <= k < |now.elem.kids| ==>
         now.elem.kids[k].tag == Variable || (now.elem.kids[k].tag == Param && was.elem.tag == Template)
  }

  // Variables go into the element around the context node; around a parameter of a call, into the one around the call.
  ghost predicate Placed(was: seq<Frame>, now: seq<Frame>)
    requires |was| >= 3
  {
    var n := |was|;
    && |now| == n
    && (if was[n - 1].elem.tag == WithParam then
          now[..n - 3] == was[..n - 3] && Grew(was[n - 3], now[n - 3]) && now[n - 2..] == was[n - 2..]
        else
          now[..n - 2] == was[..n - 2] && Grew(was[n - 2], now[n - 2]) && now[n - 1] == was[n - 1])
    && (TemplatesStart(was) ==> TemplatesStart(now))
  }

  lemma {:induction false} VarsTagged(e: seq<Item>, tag: Tag)
    ensures forall k :: 0 <= k < |Vars(e, tag)| ==> Vars(e, tag)[k].tag == tag
    decreases |e|
  {
    if e != [] {
      VarsTagged(e[1..], tag);
    }
  }

  lemma {:induction false} VarsPlaced(stack: seq<Frame>, e: seq<Item>)
    requires |stack| >= 3
    ensures Placed(stack, AddKids(stack, Around(stack), Vars(e, VarTag(stack))))
  {
    var at, tag := Around(stack), VarTag(stack);
    var now := AddKids(stack, at, Vars(e, tag));
    VarsTagged(e, tag);
    if TemplatesStart(stack) {
      forall j | 0 <= j < |now| - 1 && now[j].elem.tag == Template
        ensures ParamsFirst(now[j].elem.kids + [now[j + 1].elem])
      {
        assert ParamsFirst(stack[j].elem.kids + [stack[j + 1].elem]);
        if j == at {
          ParamsStayFirst(stack[j].elem.kids, Vars(e, tag), tag, stack[j + 1].elem);
        } else if j + 1 == at {
          SameTagsFirst(stack[j].elem.kids, stack[at].elem, now[at].elem);
        }
      }
    }
  }

  lemma {:induction false} ParamsStayFirst(kids: seq<Elem>, more: seq<Elem>, tag: Tag, next: Elem)
    requires ParamsFirst(kids + [next]) && (tag == Param <==> next.tag == Param)
    requires forall k :: 0 <= k < |more| ==> more[k].tag == tag
    ensures ParamsFirst(kids + more + [next])
  {
    var was, now := kids + [next], kids + more + [next];
    forall a, b | 0 <= a < b < |now| && now[b].tag == Param ensures now[a].tag == Param {
      if a < |kids| {
        var b' := if b < |kids| then b else |kids|;
        assert was[a] == now[a] && was[b'].tag == Param;
      }
    }
  }

  lemma {:induction false} SameTagsFirst(kids: seq<Elem>, next: Elem, next': Elem)
    requires ParamsFirst(kids + [next]) && next'.tag == next.tag
    ensures ParamsFirst(kids + [next'])
  {
    var was, now := kids + [next], kids + [next'];
    forall a, b | 0 <= a < b < |now| && now[b].tag == Param ensures now[a].tag == Param {
      assert was[a].tag == now[a].tag && was[b].tag == now[b].tag;
    }
  }

  /**
    slaxTernaryExpand: the conditionals of a list become variables before the context node, in order, and
    the list is left with a reference to each.
   */
  method TernaryExpand(b: Builder, value: seq<Seg>, ghost e: seq<Item>) returns (out: seq<Out>)
    requires value == Layout(e) && Numbered(e) && |b.stack| >= 3
    modifies b
    ensures out == Refs(e)
    ensures b.stack == AddKids(old(b.stack), Around(old(b.stack)), Vars(e, VarTag(old(b.stack))))
    ensures Placed(old(b.stack), b.stack)
    decreases e, 5
  {
    ghost var was, at, tag := b.stack, Around(b.stack), VarTag(b.stack);
    ghost var k: nat, vars: seq<Elem> := 0, [];
    out := [];
    var i: nat := 0;
    AddNoKids(was, at);
    UnderwayStart(e, value, tag);
    while i < |value|
      invariant Underway(e, k, value, i, out, vars, tag)
      invariant b.stack == AddKids(was, at, vars)
      decreases |value| - i
    {
      UnderwayAt(e, k, value, i, out, vars, tag);
      ghost var item := e[k];
      if !value[i].Tern? {
        TakeFront(value, i, LayoutItem(item), Layout(e[k + 1..]));
        UnderwayNext(e, k, value, i, out, vars, tag, i + 1);
        out := out + [Token(value[i].tok)];
        i := i + 1;
      } else {
        var next := ExpandNext(b, value, i, item, Layout(e[k + 1..]), was, vars);
        UnderwayNext(e, k, value, i, out, vars, tag, next);
        vars := vars + [VarOf(item, tag)];
        out := out + [Value(value[i].n)];
        i := next;
      }
      k := k + 1;
    }
    UnderwayDone(e, k, value, i, out, vars, tag);
    assert b.stack == AddKids(was, at, Vars(e, tag));
    VarsPlaced(was, e);
  }
}
