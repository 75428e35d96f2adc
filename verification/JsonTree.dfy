/**
 JSON texts as trees that keep their layout: RFC 8259, sections 2 to 7, with insignificant
 whitespace wherever section 2 allows it. `Print` writes a tree, and `Sits` says of
 a token array that it is the flattened tree: in preorder, with spans, child counts and parent indices.
 */
module JsonTree {
  import opened Bytes
  import opened Text
  import opened StringGrammar
  import opened JsmnMachine

  /** A box is an object, whose items are named members, or an array, whose items are bare. */
  datatype Value =
    | Prim(text: seq<byte>)
    | Str(body: seq<Chunk>)
    | Box(named: bool, pad: seq<byte>, items: Items)

  /** The elements of an array or the members of an object. */
  datatype Items =
    | Nil
    | Cons(before: seq<byte>, tag: Tag, value: Value, after: seq<byte>, rest: Items)

  /** An array element has no name; a member has one, with whitespace on both sides of the colon. */
  datatype Tag = Bare | Key(name: seq<Chunk>, pre: seq<byte>, post: seq<byte>)

  predicate Blanks(ws: seq<byte>) {
    forall b | b in ws :: Blank(b)
  }

  /** A primitive as strict jsmn sees it; every number and literal of the RFC is one. */
  predicate PrimitiveText(text: seq<byte>) {
    |text| > 0 && PrimitiveStart(text[0]) && Inner(text)
  }

  /** Bytes that may stand inside a primitive. */
  predicate Inner(text: seq<byte>) {
    forall b | b in text :: Printable(b) && !Terminator(b)
  }

  predicate WellFormed(v: Value) {
    match v
    case Prim(text) => PrimitiveText(text)
    case Str(body) => AllLegal(body)
    case Box(named, pad, items) => Blanks(pad) && ItemsWellFormed(items, named)
  }

  predicate ItemsWellFormed(items: Items, named: bool) {
    match items
    case Nil => true
    case Cons(before, tag, value, after, rest) =>
      && Blanks(before) && Blanks(after) && WellFormed(value) && ItemsWellFormed(rest, named)
      && TagWellFormed(tag, named)
  }

  predicate TagWellFormed(tag: Tag, named: bool) {
    match tag
    case Bare => !named
    case Key(name, pre, post) => named && AllLegal(name) && Blanks(pre) && Blanks(post)
  }

  function BoxType(named: bool): Type {
    if named then Object else Array
  }

  function Opener(named: bool): byte {
    if named then LBRACE else LBRACKET
  }

  function Closer(named: bool): byte {
    if named then RBRACE else RBRACKET
  }

  function Quoted(body: seq<Chunk>): seq<byte> {
    [QUOTE] + SpellAll(body) + [QUOTE]
  }

  function PrintTag(tag: Tag): (text: seq<byte>)
    ensures |text| == TagWidth(tag)
  {
    match tag
    case Bare => []
    case Key(name, pre, post) => Quoted(name) + pre + [COLON] + post
  }

  function TagWidth(tag: Tag): nat {
    match tag
    case Bare => 0
    case Key(name, pre, post) => 3 + |SpellAll(name)| + |pre| + |post|
  }

  function Print(v: Value): (text: seq<byte>)
    ensures |text| == Width(v)
  {
    match v
    case Prim(text) => text
    case Str(body) => Quoted(body)
    case Box(named, pad, items) => [Opener(named)] + pad + PrintItems(items) + [Closer(named)]
  }

  /** A comma stands between two items. */
  function PrintItems(items: Items): (text: seq<byte>)
    ensures |text| == ItemsWidth(items)
    decreases items, 0
  {
    match items
    case Nil => []
    case Cons(before, tag, value, after, rest) =>
      (before + PrintTag(tag) + Print(value)) + after + PrintRest(rest)
  }

  /** What follows an item: nothing, or a comma and the items behind it. */
  function PrintRest(rest: Items): seq<byte>
    decreases rest, 1
  {
    if rest.Nil? then [] else [COMMA] + PrintItems(rest)
  }

  function Width(v: Value): nat {
    match v
    case Prim(text) => |text|
    case Str(body) => 2 + |SpellAll(body)|
    case Box(named, pad, items) => 2 + |pad| + ItemsWidth(items)
  }

  function ItemsWidth(items: Items): nat {
    match items
    case Nil => 0
    case Cons(before, tag, value, after, rest) =>
      |before| + TagWidth(tag) + Width(value) + |after| + if rest.Nil? then 0 else 1 + ItemsWidth(rest)
  }

  /** Where the first value stands when the items are printed at `p`, and where the next item does. */
  function ValueAt(items: Items, p: nat): nat
    requires items.Cons?
  {
    p + |items.before| + TagWidth(items.tag)
  }

  function RestAt(items: Items, p: nat): nat
    requires items.Cons?
  {
    ValueAt(items, p) + Width(items.value) + |items.after| + 1
  }

  /** The number of tokens of a tree: one for every value and one for every member name. */
  function Nodes(v: Value): nat {
    match v
    case Prim(_) => 1
    case Str(_) => 1
    case Box(_, _, items) => 1 + ItemNodes(items)
  }

  function ItemNodes(items: Items): nat {
    match items
    case Nil => 0
    case Cons(_, tag, value, _, rest) => TagNodes(tag) + Nodes(value) + ItemNodes(rest)
  }

  function TagNodes(tag: Tag): nat {
    if tag == Bare then 0 else 1
  }

  function Length(items: Items): nat {
    match items
    case Nil => 0
    case Cons(_, _, _, _, rest) => 1 + Length(rest)
  }

  /** The parent of an item's value: the name at index `i` if there is one, else the container. */
  function Owner(tag: Tag, i: nat, box: nat): nat {
    if tag == Bare then box else i
  }

  /** The token of `v` itself, printed at position `p` under the parent `up`. */
  function Root(links: bool, v: Value, p: nat, up: int): Token {
    match v
    case Prim(text) => Token(Primitive, p, p + |text|, 0, ParentLink(links, up))
    case Str(body) => Token(String, p + 1, p + 1 + |SpellAll(body)|, 0, ParentLink(links, up))
    case Box(named, pad, items) => Token(BoxType(named), p, p + Width(v), Length(items), ParentLink(links, up))
  }

  /**
   The flattening of a tree: from index `i` on, `toks` holds the tokens of `v`, printed at position
   `p`, in preorder, with their spans and child counts; the first has parent `up`.
   */
  ghost predicate Sits(links: bool, toks: seq<Token>, v: Value, p: nat, i: nat, up: int)
    decreases v
  {
    && i + Nodes(v) <= |toks|
    && toks[i] == Root(links, v, p, up)
    && (v.Box? ==> ItemsSit(links, toks, v.items, p + 1 + |v.pad|, i + 1, i))
  }

  ghost predicate ItemsSit(links: bool, toks: seq<Token>, items: Items, p: nat, i: nat, box: nat)
    decreases items
  {
    i + ItemNodes(items) <= |toks| &&
    match items
    case Nil => true
    case Cons(before, tag, value, after, rest) =>
      var j := i + TagNodes(tag);
      && TagSits(links, toks, tag, p + |before|, i, box)
      && Sits(links, toks, value, ValueAt(items, p), j, Owner(tag, i, box))
      && ItemsSit(links, toks, rest, RestAt(items, p), j + Nodes(value), box)
  }

  ghost predicate TagSits(links: bool, toks: seq<Token>, tag: Tag, q: nat, i: nat, box: nat) {
    match tag
    case Bare => true
    case Key(name, _, _) =>
      i < |toks| && toks[i] == Token(String, q + 1, q + 1 + |SpellAll(name)|, 1, ParentLink(links, box))
  }

  /** The tokens from `i` up to `j` are the same in both arrays. */
  ghost predicate Alike(s: seq<Token>, t: seq<Token>, i: nat, j: nat) {
    j <= |s| && j <= |t| && forall k | i <= k < j :: s[k] == t[k]
  }

  lemma {:induction false} SitsAlike(links: bool, s: seq<Token>, t: seq<Token>, v: Value, p: nat, i: nat, up: int)
    requires Sits(links, s, v, p, i, up) && Alike(s, t, i, i + Nodes(v))
    ensures Sits(links, t, v, p, i, up)
    decreases v
  {
    if v.Box? {
      ItemsAlike(links, s, t, v.items, p + 1 + |v.pad|, i + 1, i);
    }
  }

  lemma {:induction false} ItemsAlike(links: bool, s: seq<Token>, t: seq<Token>, items: Items, p: nat, i: nat, box: nat)
    requires ItemsSit(links, s, items, p, i, box) && Alike(s, t, i, i + ItemNodes(items))
    ensures ItemsSit(links, t, items, p, i, box)
    decreases items
  {
    if items.Cons? {
      var j := i + TagNodes(items.tag);
      SitsAlike(links, s, t, items.value, ValueAt(items, p), j, Owner(items.tag, i, box));
      ItemsAlike(links, s, t, items.rest, RestAt(items, p), j + Nodes(items.value), box);
    }
  }

  /** Equal but for the parent, which only one of the builds records. */
  predicate Twins(s: Token, t: Token) {
    s.(parent := t.parent) == t
  }

  /**
   The flattening is unique: two arrays that hold the same tree hold the same token at every `k`,
   and across the two builds the tokens differ in the parent at most.
   */
  lemma {:induction false} SitsUnique(l: bool, m: bool, s: seq<Token>, t: seq<Token>, v: Value, p: nat, i: nat,
                                      up: int, k: nat)
    requires Sits(l, s, v, p, i, up) && Sits(m, t, v, p, i, up) && i <= k < i + Nodes(v)
    ensures Twins(s[k], t[k]) && (l == m ==> s[k] == t[k])
    decreases v
  {
    if k > i {
      ItemsUnique(l, m, s, t, v.items, p + 1 + |v.pad|, i + 1, i, k);
    }
  }

  lemma {:induction false} ItemsUnique(l: bool, m: bool, s: seq<Token>, t: seq<Token>, items: Items, p: nat, i: nat,
                                       box: nat, k: nat)
    requires ItemsSit(l, s, items, p, i, box) && ItemsSit(m, t, items, p, i, box) && i <= k < i + ItemNodes(items)
    ensures Twins(s[k], t[k]) && (l == m ==> s[k] == t[k])
    decreases items
  {
    var j := i + TagNodes(items.tag);
    if k >= j + Nodes(items.value) {
      ItemsUnique(l, m, s, t, items.rest, RestAt(items, p), j + Nodes(items.value), box, k);
    } else if k >= j {
      SitsUnique(l, m, s, t, items.value, ValueAt(items, p), j, Owner(items.tag, i, box), k);
    }
  }
}
