/**
 Printing a JSON tree and running jsmn over the text gives back the tree, flattened: every token,
 with type, span, child count and parent. Shown for both builds at once, by following the main loop
 through the text of one value.
 */
module JsmnRoundTrip {
  import opened Bytes
  import opened Text
  import opened StringGrammar
  import opened JsmnMachine
  import opened JsonTree

  ghost predicate Here(js: seq<byte>, p: nat, b: byte) {
    p < |js| && js[p] == b
  }

  /** The text of a tree, found in place: `js` holds `v` from `p` on. */
  ghost predicate Laid(js: seq<byte>, p: nat, v: Value)
    decreases v
  {
    match v
    case Prim(text) => At(js, p, text)
    case Str(body) => StringLaid(js, p, body)
    case Box(named, pad, items) =>
      && Here(js, p, Opener(named))
      && At(js, p + 1, pad)
      && ItemsLaid(js, p + 1 + |pad|, items)
      && Here(js, p + 1 + |pad| + ItemsWidth(items), Closer(named))
  }

  ghost predicate StringLaid(js: seq<byte>, p: nat, body: seq<Chunk>) {
    && Here(js, p, QUOTE)
    && At(js, p + 1, SpellAll(body))
    && Here(js, p + 1 + |SpellAll(body)|, QUOTE)
  }

  ghost predicate TagLaid(js: seq<byte>, p: nat, tag: Tag) {
    match tag
    case Bare => true
    case Key(name, pre, post) =>
      var q := p + 2 + |SpellAll(name)|;
      && StringLaid(js, p, name)
      && At(js, q, pre)
      && Here(js, q + |pre|, COLON)
      && At(js, q + |pre| + 1, post)
  }

  ghost predicate ItemsLaid(js: seq<byte>, p: nat, items: Items)
    decreases items
  {
    match items
    case Nil => true
    case Cons(before, tag, value, after, rest) =>
      && At(js, p, before)
      && TagLaid(js, p + |before|, tag)
      && Laid(js, ValueAt(items, p), value)
      && At(js, RestAt(items, p) - 1 - |after|, after)
      && (rest.Cons? ==> Here(js, RestAt(items, p) - 1, COMMA) && ItemsLaid(js, RestAt(items, p), rest))
  }

  lemma AtThree<T>(js: seq<T>, p: nat, a: seq<T>, b: seq<T>, c: seq<T>)
    requires At(js, p, a + b + c)
    ensures At(js, p, a) && At(js, p + |a|, b) && At(js, p + |a| + |b|, c)
  {
    AtPlus(js, p, a + b, c);
    AtPlus(js, p, a, b);
  }

  lemma AtWhole<T>(js: seq<T>)
    ensures At(js, 0, js)
  {
    assert js[0..|js|] == js;
  }

  lemma AtByte(js: seq<byte>, p: nat, b: byte)
    requires At(js, p, [b])
    ensures Here(js, p, b)
  {
    assert js[p] == js[p..p + 1][0];
  }

  lemma QuotedIsLaid(js: seq<byte>, p: nat, body: seq<Chunk>)
    requires At(js, p, Quoted(body))
    ensures StringLaid(js, p, body)
  {
    AtThree(js, p, [QUOTE], SpellAll(body), [QUOTE]);
    AtByte(js, p, QUOTE);
    AtByte(js, p + 1 + |SpellAll(body)|, QUOTE);
  }

  lemma TagIsLaid(js: seq<byte>, p: nat, tag: Tag)
    requires At(js, p, PrintTag(tag))
    ensures TagLaid(js, p, tag)
  {
    if tag.Key? {
      AtPlus(js, p, Quoted(tag.name) + tag.pre + [COLON], tag.post);
      AtThree(js, p, Quoted(tag.name), tag.pre, [COLON]);
      QuotedIsLaid(js, p, tag.name);
      AtByte(js, p + |Quoted(tag.name)| + |tag.pre|, COLON);
    }
  }

  lemma {:induction false} PrintedIsLaid(js: seq<byte>, p: nat, v: Value)
    requires At(js, p, Print(v))
    ensures Laid(js, p, v)
    decreases v
  {
    hide At, ItemsLaid, StringLaid, PrintItems, ItemsWidth, Quoted;
    match v
    case Prim(_) =>
    case Str(body) => QuotedIsLaid(js, p, body);
    case Box(named, pad, items) =>
      AtPlus(js, p, [Opener(named)] + pad + PrintItems(items), [Closer(named)]);
      AtThree(js, p, [Opener(named)], pad, PrintItems(items));
      AtByte(js, p, Opener(named));
      AtByte(js, p + 1 + |pad| + ItemsWidth(items), Closer(named));
      ItemsAreLaid(js, p + 1 + |pad|, items);
  }

  lemma {:induction false} ItemsAreLaid(js: seq<byte>, p: nat, items: Items)
    requires At(js, p, PrintItems(items))
    ensures ItemsLaid(js, p, items)
    decreases items
  {
    hide At, Print, PrintTag, PrintItems, Laid, TagLaid, Width, TagWidth;
    if items.Cons? {
      ItemParts(js, p, items);
      TagIsLaid(js, p + |items.before|, items.tag);
      PrintedIsLaid(js, ValueAt(items, p), items.value);
      if items.rest.Cons? {
        ItemsAreLaid(js, RestAt(items, p), items.rest);
      }
    }
  }

  lemma RestParts(js: seq<byte>, p: nat, rest: Items)
    requires At(js, p, PrintRest(rest))
    ensures rest.Cons? ==> Here(js, p, COMMA) && At(js, p + 1, PrintItems(rest))
  {
    hide At, PrintItems;
    if rest.Cons? {
      AtPlus(js, p, [COMMA], PrintItems(rest));
      AtByte(js, p, COMMA);
    }
  }

  /** Where the parts of a non-empty list of items stand. */
  lemma ItemParts(js: seq<byte>, p: nat, items: Items)
    requires items.Cons? && At(js, p, PrintItems(items))
    ensures At(js, p, items.before) && At(js, p + |items.before|, PrintTag(items.tag))
    ensures At(js, ValueAt(items, p), Print(items.value))
    ensures At(js, RestAt(items, p) - 1 - |items.after|, items.after)
    ensures items.rest.Cons? ==>
              Here(js, RestAt(items, p) - 1, COMMA) && At(js, RestAt(items, p), PrintItems(items.rest))
  {
    hide At, Print, PrintTag, PrintRest, Width, TagWidth;
    AtThree(js, p, items.before + PrintTag(items.tag) + Print(items.value), items.after, PrintRest(items.rest));
    AtThree(js, p, items.before, PrintTag(items.tag), Print(items.value));
    RestParts(js, RestAt(items, p) - 1, items.rest);
  }

  /** `t` is closed, and if the build has links its parent is not below `low`. */
  ghost predicate Closed(links: bool, t: Token, low: int) {
    !t.Open() && (links ==> t.parent >= low)
  }

  /** `box` is the innermost open container, of type `typ`; what follows it is closed and inside it. */
  ghost predicate Inside(c: Context, st: State, box: nat, typ: Type) {
    && box < |st.toks| && st.toks[box].Open() && st.toks[box].Container() && st.toks[box].typ == typ
    && forall k | box < k < |st.toks| :: Closed(c.links, st.toks[k], box)
  }

  /** The superior token is the container, or still the name of the member just read. */
  ghost predicate Settled(c: Context, st: State, box: nat) {
    || st.super == box
    || (box < st.super < |st.toks| && st.toks[st.super].typ == String
        && (c.links ==> st.toks[st.super].parent == box))
  }

  /** A value may be stored under the superior token. */
  ghost predicate Accepts(st: State) {
    st.super == -1 ||
    (0 <= st.super < |st.toks| &&
     var t := st.toks[st.super]; t.typ == Array || (t.typ == String && t.size == 0))
  }

  /** `t` extends `s`; of the old tokens only `i` has changed, and only by `n` children more. */
  ghost predicate Grown(s: seq<Token>, t: seq<Token>, i: int, n: int) {
    |s| <= |t| && forall k | 0 <= k < |s| :: t[k] == if k == i then s[k].(size := s[k].size + n) else s[k]
  }

  lemma {:induction false} RunBlanks(c: Context, st: State, ws: seq<byte>) returns (end: State)
    requires Linked(st) && Blanks(ws) && At(c.js, st.pos, ws)
    ensures end == st.(pos := st.pos + |ws|) && Linked(end)
    ensures Run(c, st) == Run(c, end)
    decreases |ws|
  {
    end := st;
    if ws != [] {
      AtCons(c.js, st.pos, ws);
      assert Blank(ws[0]);
      var next := st.(pos := st.pos + 1);
      assert Step(c, st) == More(next);
      end := RunBlanks(c, next, ws[1..]);
    }
  }

  /** A string in quotes becomes one token under the superior one. */
  lemma RunString(c: Context, st: State, body: seq<Chunk>) returns (end: State)
    requires Linked(st) && AllLegal(body) && StringLaid(c.js, st.pos, body) && |st.toks| < |c.slots|
    ensures Linked(end) && Run(c, st) == Run(c, end)
    ensures end.pos == st.pos + 2 + |SpellAll(body)| && end.super == st.super
    ensures |end.toks| == |st.toks| + 1 && Grown(st.toks, end.toks, st.super, 1)
    ensures end.toks[|st.toks|] == Root(c.links, Str(body), st.pos, st.super)
  {
    var q := st.pos + 1 + |SpellAll(body)|;
    ScanBody(c.js, st.pos + 1, q, body);
    assert Step(c, st) == Place(c, st, String, st.pos + 1, q, q + 1);
    end := Step(c, st).st;
  }

  lemma {:induction false} ScanText(js: seq<byte>, p: nat, text: seq<byte>)
    requires At(js, p, text) && forall b | b in text :: Printable(b) && !Terminator(b)
    ensures ScanPrimitive(js, p) == ScanPrimitive(js, p + |text|)
    decreases |text|
  {
    if text != [] {
      AtCons(js, p, text);
      assert text[0] in text;
      ScanText(js, p + 1, text[1..]);
    }
  }

  lemma RunPrimitive(c: Context, st: State, text: seq<byte>) returns (end: State)
    requires Linked(st) && Accepts(st) && PrimitiveText(text) && At(c.js, st.pos, text) && |st.toks| < |c.slots|
    requires st.pos + |text| < |c.js| && Terminator(c.js[st.pos + |text|])
    ensures Linked(end) && Run(c, st) == Run(c, end)
    ensures end.pos == st.pos + |text| && end.super == st.super
    ensures |end.toks| == |st.toks| + 1 && Grown(st.toks, end.toks, st.super, 1)
    ensures end.toks[|st.toks|] == Root(c.links, Prim(text), st.pos, st.super)
  {
    AtCons(c.js, st.pos, text);
    ScanText(c.js, st.pos, text);
    var q := st.pos + |text|;
    assert ScanPrimitive(c.js, q) == Found(q);
    assert Step(c, st) == Place(c, st, Primitive, st.pos, q, q);
    end := Step(c, st).st;
  }

  lemma RunComma(c: Context, st: State, box: nat, typ: Type) returns (end: State)
    requires Linked(st) && Inside(c, st, box, typ) && Settled(c, st, box) && Here(c.js, st.pos, COMMA)
    ensures end == st.(pos := st.pos + 1, super := box) && Linked(end) && Run(c, st) == Run(c, end)
    ensures Inside(c, end, box, typ)
  {
    assert LastOpenContainer(st.toks, |st.toks|) == box;
    end := Step(c, st).st;
  }

  lemma RunColon(c: Context, st: State) returns (end: State)
    requires Linked(st) && Here(c.js, st.pos, COLON)
    ensures end == st.(pos := st.pos + 1, super := |st.toks| - 1) && Linked(end) && Run(c, st) == Run(c, end)
  {
    end := Step(c, st).st;
  }

  lemma RunOpener(c: Context, st: State, named: bool) returns (end: State)
    requires Linked(st) && Accepts(st) && Here(c.js, st.pos, Opener(named)) && |st.toks| < |c.slots|
    ensures Linked(end) && Run(c, st) == Run(c, end)
    ensures end.pos == st.pos + 1 && end.super == |st.toks|
    ensures |end.toks| == |st.toks| + 1 && Grown(st.toks, end.toks, st.super, 1)
    ensures end.toks[|st.toks|] == Token(BoxType(named), st.pos, -1, 0, ParentLink(c.links, st.super))
  {
    end := Step(c, st).st;
  }

  lemma {:induction false} ClimbTo(toks: seq<Token>, i: nat, box: nat)
    requires box <= i < |toks| && forall k | 0 <= k < |toks| :: -1 <= toks[k].parent < k
    requires toks[box].Open() && forall k | box < k < |toks| :: Closed(true, toks[k], box)
    ensures Climb(toks, i) == box
    decreases i
  {
    if box < i {
      ClimbTo(toks, toks[i].parent, box);
    }
  }

  lemma RunStep(c: Context, st: State)
    requires Linked(st) && !AtEnd(c.js, st.pos) && Step(c, st).More?
    ensures Linked(Step(c, st).st) && Run(c, st) == Run(c, Step(c, st).st)
  {
    hide Step, Linked;
  }

  lemma CloserStep(c: Context, st: State, box: nat, named: bool)
    requires Linked(st) && Inside(c, st, box, BoxType(named)) && Here(c.js, st.pos, Closer(named))
    ensures !AtEnd(c.js, st.pos)
    ensures Step(c, st) == More(State(st.pos + 1, st.toks[box := st.toks[box].(end := st.pos + 1)],
                                      if c.links then st.toks[box].parent else LastOpen(st.toks, box)))
  {
    LastOpenIs(c, st, box, BoxType(named));
    if c.links {
      ClimbTo(st.toks, |st.toks| - 1, box);
    }
    hide LastOpen, Climb, Closed, LastOpenContainer, Linked;
  }

  lemma RunCloser(c: Context, st: State, box: nat, named: bool) returns (end: State)
    requires Linked(st) && Inside(c, st, box, BoxType(named)) && Here(c.js, st.pos, Closer(named))
    ensures Linked(end) && Run(c, st) == Run(c, end)
    ensures end == State(st.pos + 1, st.toks[box := st.toks[box].(end := st.pos + 1)],
                         if c.links then st.toks[box].parent else LastOpen(st.toks, box))
  {
    hide Step, Run, Linked, Inside, LastOpen;
    CloserStep(c, st, box, named);
    RunStep(c, st);
    end := Step(c, st).st;
  }

  /** The name of a member, up to the value: one token, which becomes the superior one. */
  lemma RunTag(c: Context, st: State, tag: Tag, box: nat, named: bool) returns (end: State)
    requires Linked(st) && Inside(c, st, box, BoxType(named)) && st.super == box
    requires TagLaid(c.js, st.pos, tag) && |st.toks| + TagNodes(tag) <= |c.slots| && TagWellFormed(tag, named)
    ensures Linked(end) && Run(c, st) == Run(c, end)
    ensures end.pos == st.pos + TagWidth(tag) && end.super == Owner(tag, |st.toks|, box)
    ensures |end.toks| == |st.toks| + TagNodes(tag)
    ensures Accepts(end) && Inside(c, end, box, BoxType(named))
    ensures Grown(st.toks, end.toks, box, TagNodes(tag))
    ensures tag.Key? ==> end.toks[|st.toks|] == Root(c.links, Str(tag.name), st.pos, box)
  {
    hide Run, Linked, At, Blanks, AllLegal, StringLaid;
    end := st;
    if tag.Key? {
      end := RunString(c, end, tag.name);
      end := RunBlanks(c, end, tag.pre);
      end := RunColon(c, end);
      end := RunBlanks(c, end, tag.post);
    }
  }

  lemma LeafSits(links: bool, toks: seq<Token>, v: Value, p: nat, i: nat, up: int)
    requires !v.Box? && i < |toks| && toks[i] == Root(links, v, p, up)
    ensures Sits(links, toks, v, p, i, up)
  {
  }

  /** A container whose items have been read and whose bracket is closed sits where it should. */
  lemma BoxSits(links: bool, was: seq<Token>, begun: seq<Token>, full: seq<Token>, v: Value, p: nat, up: int)
    requires v.Box? && up < |was| && Grown(was, begun, up, 1) && |begun| == |was| + 1
    requires begun[|was|] == Token(BoxType(v.named), p, -1, 0, ParentLink(links, up))
    requires Grown(begun, full, |was|, Length(v.items)) && |full| == |was| + Nodes(v)
    requires ItemsSit(links, full, v.items, p + 1 + |v.pad|, |was| + 1, |was|)
    ensures var end := full[|was| := full[|was|].(end := p + Width(v))];
            Sits(links, end, v, p, |was|, up) && Grown(was, end, up, 1)
  {
    hide ItemsSit, ItemNodes, ItemsWidth, Length;
    var end := full[|was| := full[|was|].(end := p + Width(v))];
    ItemsAlike(links, full, end, v.items, p + 1 + |v.pad|, |was| + 1, |was|);
  }

  lemma RunLeaf(c: Context, st: State, v: Value) returns (end: State)
    requires Linked(st) && Accepts(st) && WellFormed(v) && !v.Box?
    requires Laid(c.js, st.pos, v) && |st.toks| < |c.slots|
    requires v.Prim? ==> st.pos + Width(v) < |c.js| && Terminator(c.js[st.pos + Width(v)])
    ensures Linked(end) && Run(c, st) == Run(c, end)
    ensures end.pos == st.pos + Width(v)
    ensures |end.toks| == |st.toks| + 1 && Grown(st.toks, end.toks, st.super, 1)
    ensures Sits(c.links, end.toks, v, st.pos, |st.toks|, st.super)
    ensures Closed(c.links, end.toks[|st.toks|], st.super) && end.super == st.super
  {
    hide Run, Linked, At, AllLegal, Sits, PrimitiveText, StringLaid;
    match v
    case Prim(text) =>
      end := RunPrimitive(c, st, text);
      LeafSits(c.links, end.toks, v, st.pos, |st.toks|, st.super);
    case Str(body) =>
      end := RunString(c, st, body);
      LeafSits(c.links, end.toks, v, st.pos, |st.toks|, st.super);
  }

  /** One value: its tokens are appended and the superior token has one child more. */
  lemma {:induction false} RunValue(c: Context, st: State, v: Value) returns (end: State)
    requires Linked(st) && Accepts(st) && WellFormed(v)
    requires Laid(c.js, st.pos, v) && |st.toks| + Nodes(v) <= |c.slots|
    requires v.Prim? ==> st.pos + Width(v) < |c.js| && Terminator(c.js[st.pos + Width(v)])
    ensures Linked(end) && Run(c, st) == Run(c, end)
    ensures end.pos == st.pos + Width(v)
    ensures |end.toks| == |st.toks| + Nodes(v) && Grown(st.toks, end.toks, st.super, 1)
    ensures Sits(c.links, end.toks, v, st.pos, |st.toks|, st.super)
    ensures forall k | |st.toks| <= k < |end.toks| :: Closed(c.links, end.toks[k], st.super)
    ensures end.super == st.super || (!c.links && end.super == LastOpen(st.toks, |st.toks|))
    decreases v
  {
    hide Run, Linked, At, Blanks, ItemsLaid, Sits, ItemsSit, ItemsWidth, ItemNodes, Length, ItemsWellFormed, LastOpen;
    if !v.Box? {
      end := RunLeaf(c, st, v);
    } else {
      var box := |st.toks|;
      var begun := RunOpener(c, st, v.named);
      var inner := RunBlanks(c, begun, v.pad);
      var full := RunItems(c, inner, v.items, box, v.named);
      end := RunCloser(c, full, box, v.named);
      LastOpenSame(st.toks, full.toks, box);
      BoxSits(c.links, st.toks, begun.toks, full.toks, v, st.pos, st.super);
    }
  }

  /** One item, up to the comma or the closing bracket behind it. */
  lemma {:induction false} RunItem(c: Context, st: State, items: Items, box: nat, named: bool) returns (end: State)
    requires items.Cons? && ItemsWellFormed(items, named) && ItemsLaid(c.js, st.pos, items)
    requires Linked(st) && Inside(c, st, box, BoxType(named)) && st.super == box
    requires |st.toks| + TagNodes(items.tag) + Nodes(items.value) <= |c.slots|
    requires var p := RestAt(items, st.pos) - 1; p < |c.js| && Terminator(c.js[p])
    ensures Linked(end) && Run(c, st) == Run(c, end)
    ensures end.pos == RestAt(items, st.pos) - 1
    ensures |end.toks| == |st.toks| + TagNodes(items.tag) + Nodes(items.value) && Grown(st.toks, end.toks, box, 1)
    ensures TagSits(c.links, end.toks, items.tag, st.pos + |items.before|, |st.toks|, box)
    ensures Sits(c.links, end.toks, items.value, ValueAt(items, st.pos), |st.toks| + TagNodes(items.tag),
                 Owner(items.tag, |st.toks|, box))
    ensures Inside(c, end, box, BoxType(named)) && Settled(c, end, box)
    decreases items, 0
  {
    hide Run, Linked, At, Blanks, Laid, Sits, Width, Nodes, WellFormed, LastOpen, TagLaid, TagWellFormed;
    var at := RunBlanks(c, st, items.before);
    var tagged := RunTag(c, at, items.tag, box, named);
    AfterValue(c.js, st.pos, items);
    var valued := RunValue(c, tagged, items.value);
    LastOpenIs(c, tagged, box, BoxType(named));
    end := RunBlanks(c, valued, items.after);
  }

  lemma BlankAt(js: seq<byte>, p: nat, ws: seq<byte>)
    requires At(js, p, ws) && Blanks(ws) && ws != []
    ensures p < |js| && Terminator(js[p])
  {
    AtCons(js, p, ws);
    assert ws[0] in ws;
  }

  lemma AfterValue(js: seq<byte>, p: nat, items: Items)
    requires items.Cons? && Blanks(items.after) && ItemsLaid(js, p, items)
    requires RestAt(items, p) - 1 < |js| && Terminator(js[RestAt(items, p) - 1])
    ensures var q := ValueAt(items, p) + Width(items.value); q < |js| && Terminator(js[q])
  {
    if items.after != [] {
      BlankAt(js, RestAt(items, p) - 1 - |items.after|, items.after);
    }
  }

  lemma LastOpenIs(c: Context, st: State, box: nat, typ: Type)
    requires Inside(c, st, box, typ)
    ensures LastOpen(st.toks, |st.toks|) == box
  {
  }

  lemma NextItem(js: seq<byte>, p: nat, items: Items, named: bool)
    requires items.Cons? && ItemsLaid(js, p, items) && ItemsWellFormed(items, named)
    requires var q := p + ItemsWidth(items); q < |js| && Terminator(js[q])
    ensures var q := RestAt(items, p) - 1; q < |js| && Terminator(js[q])
    ensures ItemsWellFormed(items.rest, named)
    ensures Length(items) == 1 + Length(items.rest)
    ensures ItemNodes(items) == TagNodes(items.tag) + Nodes(items.value) + ItemNodes(items.rest)
    ensures p + ItemsWidth(items) == RestAt(items, p) - 1 + if items.rest.Nil? then 0 else 1 + ItemsWidth(items.rest)
    ensures p < RestAt(items, p) && (items.rest.Nil? ==> ItemNodes(items.rest) == Length(items.rest) == 0)
    ensures items.rest.Cons? ==> Here(js, RestAt(items, p) - 1, COMMA) && ItemsLaid(js, RestAt(items, p), items.rest)
  {
    hide Here, Laid, TagLaid, WellFormed, TagWellFormed, Blanks, At, Terminator, Width, TagWidth, Nodes;
    if items.rest.Cons? { CommaTerminates(js, RestAt(items, p) - 1); }
  }

  lemma CommaTerminates(js: seq<byte>, p: int)
    ensures p >= 0 && Here(js, p, COMMA) ==> p < |js| && Terminator(js[p])
  {
  }

  lemma InsideBounds(c: Context, st: State, box: nat, typ: Type)
    requires Inside(c, st, box, typ)
    ensures box < |st.toks|
  {
  }

  lemma GrownTwice(s: seq<Token>, t: seq<Token>, u: seq<Token>, i: int, n: int, m: int)
    requires Grown(s, t, i, n) && Grown(t, u, i, m)
    ensures Grown(s, u, i, n + m)
  {
    assert forall k | 0 <= k < |s| :: t[k] == t[k];
  }

  lemma NothingSits(links: bool, toks: seq<Token>, p: nat, box: nat)
    ensures ItemsSit(links, toks, Nil, p, |toks|, box) && Grown(toks, toks, box, 0)
    ensures ItemNodes(Nil) == ItemsWidth(Nil) == Length(Nil) == 0
  {
  }

  /** The first item of a list stays where it is while the rest is read. */
  lemma ItemsJoin(links: bool, one: seq<Token>, all: seq<Token>, items: Items, p: nat, i: nat, box: nat)
    requires items.Cons? && box < i
    requires i + TagNodes(items.tag) + Nodes(items.value) == |one| && i + ItemNodes(items) == |all|
    requires all == one || exists n :: Grown(one, all, box, n)
    requires TagSits(links, one, items.tag, p + |items.before|, i, box)
    requires Sits(links, one, items.value, ValueAt(items, p), i + TagNodes(items.tag), Owner(items.tag, i, box))
    requires items.rest.Nil? || ItemsSit(links, all, items.rest, RestAt(items, p), |one|, box)
    ensures ItemsSit(links, all, items, p, i, box)
  {
    hide Sits, Nodes;
    assert Alike(one, all, i, |one|);
    SitsAlike(links, one, all, items.value, ValueAt(items, p), i + TagNodes(items.tag), Owner(items.tag, i, box));
  }

  /** The items of a container: their tokens are appended and the container has that many children more. */
  lemma {:induction false} RunItems(c: Context, st: State, items: Items, box: nat, named: bool) returns (end: State)
    requires ItemsWellFormed(items, named) && ItemsLaid(c.js, st.pos, items)
    requires Linked(st) && Inside(c, st, box, BoxType(named)) && st.super == box
    requires |st.toks| + ItemNodes(items) <= |c.slots|
    requires var p := st.pos + ItemsWidth(items); p < |c.js| && Terminator(c.js[p])
    ensures Linked(end) && Run(c, st) == Run(c, end)
    ensures end.pos == st.pos + ItemsWidth(items)
    ensures |end.toks| == |st.toks| + ItemNodes(items) && Grown(st.toks, end.toks, box, Length(items))
    ensures ItemsSit(c.links, end.toks, items, st.pos, |st.toks|, box)
    ensures Inside(c, end, box, BoxType(named))
    decreases items, 1
  {
    hide *;
    end := st;
    if items.Cons? {
      NextItem(c.js, st.pos, items, named);
      var one := RunItem(c, st, items, box, named);
      end := one;
      if items.rest.Cons? {
        var next := RunComma(c, one, box, BoxType(named));
        end := RunItems(c, next, items.rest, box, named);
        GrownTwice(st.toks, one.toks, end.toks, box, 1, Length(items.rest));
      }
      InsideBounds(c, st, box, BoxType(named));
      ItemsJoin(c.links, one.toks, end.toks, items, st.pos, |st.toks|, box);
    } else {
      NothingSits(c.links, st.toks, st.pos, box);
    }
  }

  lemma RunEnds(c: Context, st: State)
    requires Linked(st) && AtEnd(c.js, st.pos)
    ensures Run(c, st) == (Verdict(st), st)
  {
  }

  /** A primitive that ends with the text has no terminator: strict mode waits for more. */
  lemma PrimitiveWaits(c: Context, text: seq<byte>, lead: seq<byte>)
    requires PrimitiveText(text) && Blanks(lead) && c.js == lead + text
    ensures Run(c, INIT) == (ERROR_PART, State(|lead|, [], -1))
  {
    hide Run, At, Blanks, Linked;
    AtWhole(c.js);
    AtPlus(c.js, 0, lead, text);
    var before := RunBlanks(c, INIT, lead);
    AtCons(c.js, |lead|, text);
    ScanText(c.js, |lead|, text);
    StopsShort(c, before);
  }

  lemma StopsShort(c: Context, st: State)
    requires Linked(st) && st.super == -1 && !AtEnd(c.js, st.pos) && PrimitiveStart(c.js[st.pos])
    requires ScanPrimitive(c.js, st.pos).Unfinished?
    ensures Run(c, st) == (ERROR_PART, st)
  {
  }

  /**
   The round trip: a tree printed between whitespace parses into its flattening, with enough tokens,
   in both builds, if and only if it is no bare primitive at the very end of the text; of that one
   strict mode cannot know that it is complete.
   */
  lemma RoundTrip(c: Context, v: Value, lead: seq<byte>, trail: seq<byte>)
    requires WellFormed(v) && Blanks(lead) && Blanks(trail)
    requires c.js == lead + Print(v) + trail && |c.slots| >= Nodes(v)
    ensures Run(c, INIT).0 >= 0 <==> (v.Prim? ==> trail != [])
    ensures var (r, last) := Run(c, INIT);
            if v.Prim? && trail == [] then r == ERROR_PART && last == State(|lead|, [], -1)
            else
              && r == Nodes(v) == |last.toks|
              && last.pos == |c.js| && last.super == -1
              && Sits(c.links, last.toks, v, |lead|, 0, -1)
  {
    hide Run, Linked, At, Laid, Sits, Width, Nodes, WellFormed, LastOpen, Blanks, PrimitiveText;
    if v.Prim? && trail == [] {
      PrimParts(v);
      assert c.js == lead + v.text;
      PrimitiveWaits(c, v.text, lead);
    } else {
      hide Print;
      AtWhole(c.js);
      AtThree(c.js, 0, lead, Print(v), trail);
      PrintedIsLaid(c.js, |lead|, v);
      if trail != [] {
        BlankAt(c.js, |lead + Print(v)|, trail);
      }
      var before := RunBlanks(c, INIT, lead);
      var done := RunValue(c, before, v);
      var end := RunBlanks(c, done, trail);
      RunEnds(c, end);
    }
  }

  lemma PrimParts(v: Value)
    requires v.Prim? && WellFormed(v)
    ensures Print(v) == v.text && PrimitiveText(v.text)
  {
  }
}
