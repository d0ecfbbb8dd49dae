/**
  What parsing a token sequence means, on recursive trees: a zipper of the elements still open,
  outermost first, each with the children already finished.
 */
module XiZipper {
  import opened XiTree

  datatype Action = Save | SaveAtstr

  // What a rule asks for: keep the attribute string or not, and the tag to store instead of the one read.
  datatype Rule = Rule(action: Action, useTag: Option<string>)

  datatype Token =
    | TOpen(name: string, attribs: Option<string>)
    | TEmpty(name: string, attribs: Option<string>)
    | TClose(name: string)
    | TText(data: string)
    | TOther  // processing instruction, DTD, comment or CDATA section: logged and dropped

  datatype Frame = Frame(name: Option<string>, orig: Option<string>, done: seq<Tree>)

  type Zipper = z: seq<Frame> | |z| > 0 witness [Frame(None, None, [])]

  function Stored(name: string, rule: Rule): string {
    if rule.useTag.Some? then rule.useTag.value else name
  }

  function Original(name: string, rule: Rule): Option<string> {
    if rule.useTag.Some? then Some(name) else None
  }

  function KeptAttribs(attribs: Option<string>, rule: Rule): seq<Tree> {
    if attribs.Some? && rule.action == SaveAtstr then [Attr(attribs.value)] else []
  }

  function Hang(z: Zipper, t: Tree): Zipper {
    z[|z| - 1 := z[|z| - 1].(done := z[|z| - 1].done + [t])]
  }

  function OpenStep(z: Zipper, name: string, attribs: Option<string>, rule: Rule): Zipper {
    z + [Frame(Some(Stored(name, rule)), Original(name, rule), KeptAttribs(attribs, rule))]
  }

  // The name a close tag must carry to close this element.
  function Expected(f: Frame): Option<string> {
    if f.orig.Some? then f.orig else f.name
  }

  predicate Closes(z: Zipper, name: string) {
    |z| > 1 && Expected(z[|z| - 1]) == Some(name)
  }

  function CloseTop(z: Zipper): Zipper
    requires |z| > 1
  {
    Hang(z[..|z| - 1], Elem(z[|z| - 1].name, z[|z| - 1].done))
  }

  function CloseStep(z: Zipper, name: string): Zipper {
    if Closes(z, name) then CloseTop(z) else z
  }

  function Step(z: Zipper, tok: Token, rule: Rule): Zipper {
    match tok
    case TOpen(n, a) => OpenStep(z, n, a, rule)
    case TEmpty(n, a) => CloseStep(OpenStep(z, n, a, rule), n)
    case TClose(n) => CloseStep(z, n)
    case TText(d) => Hang(z, Text(d))
    case TOther => z
  }

  function Run(z: Zipper, toks: seq<(Token, Rule)>): Zipper {
    if toks == [] then z
    else Step(Run(z, toks[..|toks| - 1]), toks[|toks| - 1].0, toks[|toks| - 1].1)
  }

  predicate Fails(z: Zipper, tok: Token) {
    tok.TClose? && !Closes(z, tok.name)
  }

  // How many close tags of a run match no open element.
  function Failures(z: Zipper, toks: seq<(Token, Rule)>): nat {
    if toks == [] then 0
    else
      var before := toks[..|toks| - 1];
      Failures(z, before) + (if Fails(Run(z, before), toks[|toks| - 1].0) then 1 else 0)
  }

  /** The whole tree a zipper stands for, elements still open included. */
  function Plug(z: Zipper): Tree
    decreases |z|
  {
    if |z| == 1 then Elem(z[0].name, z[0].done) else Plug(CloseTop(z))
  }

  const START: Zipper := [Frame(None, None, [])]

  predicate HasXmlns(s: string) {
    exists i | 0 <= i < |s| :: "xmlns" <= s[i..]
  }

  // Attribute strings that declare a namespace are parsed into nodes; that path is not modelled.
  predicate PlainAttribs(attribs: Option<string>) {
    attribs.Some? ==> !HasXmlns(attribs.value)
  }

  predicate PlainToken(tok: Token) {
    match tok
    case TOpen(_, a) => PlainAttribs(a)
    case TEmpty(_, a) => PlainAttribs(a)
    case _ => true
  }
}
