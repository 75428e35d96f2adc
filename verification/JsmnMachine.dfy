/**
 jsmn as a state machine: one step is one turn of the main loop of jsmn_parse. A state holds only
 the allocated tokens; the slots behind them are never written before they are allocated, so they
 belong to the context. `links` tells the two builds apart: with JSMN_PARENT_LINKS a token knows
 its parent, without it the parser scans backwards for an open container. In the scanning build
 the parent field does not exist; here it stays -1.
 */
module JsmnMachine {
  import opened Bytes
  import opened Text

  datatype Type = Undefined | Object | Array | String | Primitive

  datatype Token = Token(typ: Type, start: int, end: int, size: int, parent: int) {
    /** Opened but not yet closed. */
    predicate Open() {
      start != -1 && end == -1
    }

    predicate Container() {
      typ == Object || typ == Array
    }
  }

  const ERROR_NOMEM := -1
  const ERROR_INVAL := -2
  const ERROR_PART := -3

  datatype Context = Context(js: seq<byte>, slots: seq<Token>, links: bool)

  datatype State = State(pos: nat, toks: seq<Token>, super: int)

  const INIT := State(0, [], -1)

  datatype Turn = More(st: State) | Stop(r: int, st: State)

  /** `toksuper` and the parent links point backwards into the allocated tokens. */
  ghost predicate Linked(st: State) {
    && -1 <= st.super < |st.toks|
    && forall i | 0 <= i < |st.toks| :: -1 <= st.toks[i].parent < i
  }

  function Cleared(slot: Token): Token {
    slot.(start := -1, end := -1, size := 0, parent := -1)
  }

  function Bump(toks: seq<Token>, i: int, n: int): seq<Token>
    requires i < |toks|
  {
    if i < 0 then toks else toks[i := toks[i].(size := toks[i].size + n)]
  }

  function ParentLink(links: bool, super: int): int {
    if links then super else -1
  }

  /** The largest index below `n` of an open token, or -1. */
  function LastOpen(toks: seq<Token>, n: nat): (r: int)
    requires n <= |toks|
    ensures -1 <= r < n
    ensures r >= 0 ==> toks[r].Open()
    ensures forall k | r < k < n :: !toks[k].Open()
  {
    if n == 0 then -1
    else if toks[n - 1].Open() then n - 1
    else LastOpen(toks, n - 1)
  }

  lemma {:induction false} LastOpenSame(a: seq<Token>, b: seq<Token>, n: nat)
    requires n <= |a| && n <= |b| && forall k | 0 <= k < n :: a[k].Open() == b[k].Open()
    ensures LastOpen(a, n) == LastOpen(b, n)
  {
    if n != 0 {
      LastOpenSame(a, b, n - 1);
    }
  }

  /** The largest index below `n` of an open object or array, or -1. */
  function LastOpenContainer(toks: seq<Token>, n: nat): (r: int)
    requires n <= |toks|
    ensures -1 <= r < n
    ensures r >= 0 ==> toks[r].Open() && toks[r].Container()
    ensures forall k | r < k < n :: !(toks[k].Open() && toks[k].Container())
  {
    if n == 0 then -1
    else if toks[n - 1].Open() && toks[n - 1].Container() then n - 1
    else LastOpenContainer(toks, n - 1)
  }

  /** From `i` along the parent links to the first open token, or to a root. */
  function Climb(toks: seq<Token>, i: nat): (r: nat)
    requires i < |toks| && forall k | 0 <= k < |toks| :: -1 <= toks[k].parent < k
    ensures r <= i && (toks[r].Open() || toks[r].parent == -1)
  {
    if toks[i].Open() || toks[i].parent == -1 then i else Climb(toks, toks[i].parent)
  }

  function TypeOf(c: byte): Type {
    if c == LBRACE || c == RBRACE then Object else Array
  }

  function OnOpen(c: Context, st: State): Turn
    requires Linked(st) && st.pos < |c.js|
  {
    if |st.toks| >= |c.slots| then Stop(ERROR_NOMEM, st)
    else
      var slot := Cleared(c.slots[|st.toks|]);
      if st.super != -1 && st.toks[st.super].typ == Object then
        Stop(ERROR_INVAL, st.(toks := st.toks + [slot]))
      else
        var t := slot.(typ := TypeOf(c.js[st.pos]), start := st.pos, parent := ParentLink(c.links, st.super));
        More(State(st.pos + 1, Bump(st.toks, st.super, 1) + [t], |st.toks|))
  }

  function OnClose(c: Context, st: State): Turn
    requires Linked(st) && st.pos < |c.js|
  {
    var typ := TypeOf(c.js[st.pos]);
    if |st.toks| == 0 then Stop(ERROR_INVAL, st)
    else
      var i := if c.links then Climb(st.toks, |st.toks| - 1) else LastOpen(st.toks, |st.toks|);
      if i == -1 || st.toks[i].typ != typ then Stop(ERROR_INVAL, st)
      else if st.toks[i].Open() then
        More(State(st.pos + 1, st.toks[i := st.toks[i].(end := st.pos + 1)],
                   if c.links then st.toks[i].parent else LastOpen(st.toks, i)))
      else if st.super == -1 then Stop(ERROR_INVAL, st)
      else More(st.(pos := st.pos + 1))
  }

  /** A finished string or primitive: store the token, count it at `toksuper`, go on at `next`. */
  function Place(c: Context, st: State, typ: Type, start: nat, end: nat, next: nat): Turn
    requires Linked(st)
  {
    if |st.toks| >= |c.slots| then Stop(ERROR_NOMEM, st)
    else
      var t := Token(typ, start, end, 0, ParentLink(c.links, st.super));
      More(State(next, Bump(st.toks, st.super, 1) + [t], st.super))
  }

  function OnString(c: Context, st: State): Turn
    requires Linked(st) && st.pos < |c.js|
  {
    match ScanString(c.js, st.pos + 1)
    case Found(q) => Place(c, st, String, st.pos + 1, q, q + 1)
    case Illegal => Stop(ERROR_INVAL, st)
    case Unfinished => Stop(ERROR_PART, st)
  }

  function OnPrimitive(c: Context, st: State): Turn
    requires Linked(st) && st.pos < |c.js|
  {
    if st.super != -1 && (st.toks[st.super].typ == Object ||
                          (st.toks[st.super].typ == String && st.toks[st.super].size != 0)) then
      Stop(ERROR_INVAL, st)
    else
      match ScanPrimitive(c.js, st.pos)
      case Found(q) => Place(c, st, Primitive, st.pos, q, q)
      case Illegal => Stop(ERROR_INVAL, st)
      case Unfinished => Stop(ERROR_PART, st)
  }

  function OnComma(c: Context, st: State): Turn
    requires Linked(st) && st.pos < |c.js|
  {
    if st.super == -1 || st.toks[st.super].Container() then More(st.(pos := st.pos + 1))
    else
      var o := LastOpenContainer(st.toks, |st.toks|);
      var super := if c.links then st.toks[st.super].parent else if o == -1 then st.super else o;
      More(st.(pos := st.pos + 1, super := super))
  }

  /** One turn of the main loop. */
  function Step(c: Context, st: State): (t: Turn)
    requires Linked(st) && !AtEnd(c.js, st.pos)
    ensures Linked(t.st) || (t.Stop? && t.r == ERROR_INVAL)
    ensures t.More? ==> st.pos < t.st.pos <= |c.js|
    ensures t.More? ==> |st.toks| <= |t.st.toks|
    ensures t.Stop? ==> t.r == ERROR_NOMEM || t.r == ERROR_INVAL || t.r == ERROR_PART
    ensures t.Stop? && t.r != ERROR_INVAL ==> t.st == st
  {
    var b := c.js[st.pos];
    if b == LBRACE || b == LBRACKET then OnOpen(c, st)
    else if b == RBRACE || b == RBRACKET then OnClose(c, st)
    else if b == QUOTE then OnString(c, st)
    else if Blank(b) then More(st.(pos := st.pos + 1))
    else if b == COLON then More(st.(pos := st.pos + 1, super := |st.toks| - 1))
    else if b == COMMA then OnComma(c, st)
    else if PrimitiveStart(b) then
      assert !Terminator(b);
      OnPrimitive(c, st)
    else Stop(ERROR_INVAL, st)
  }

  /** A turn never uses more slots than there are. */
  lemma StepFits(c: Context, st: State)
    requires Linked(st) && !AtEnd(c.js, st.pos) && |st.toks| <= |c.slots|
    ensures |Step(c, st).st.toks| <= |c.slots|
  {
  }

  /** The value returned at the end of the text: the tokens used, unless a container is still open. */
  function Verdict(st: State): int {
    if LastOpen(st.toks, |st.toks|) == -1 then |st.toks| else ERROR_PART
  }

  /** The main loop of jsmn_parse over a token array: the value returned and the state left behind. */
  function Run(c: Context, st: State): (out: (int, State))
    requires Linked(st)
    ensures out.0 >= ERROR_PART
    ensures out.0 >= 0 ==> out.0 == |out.1.toks| && LastOpen(out.1.toks, |out.1.toks|) == -1
    ensures out.0 != ERROR_INVAL ==> Linked(out.1)
    decreases |c.js| - st.pos
  {
    if AtEnd(c.js, st.pos) then (Verdict(st), st)
    else
      match Step(c, st)
      case More(next) => Run(c, next)
      case Stop(r, last) => (r, last)
  }

  /** The counting pass, run without a token array: it sees no tokens and allocates none. */
  datatype Tally = Tally(pos: nat, count: nat, super: int)

  datatype TallyTurn = Onward(t: Tally) | Halt(r: int, t: Tally)

  function CountStep(js: seq<byte>, t: Tally, toknext: nat): (r: TallyTurn)
    requires !AtEnd(js, t.pos)
    ensures r.Onward? ==> t.pos < r.t.pos <= |js| && t.count <= r.t.count
    ensures r.Halt? ==> r.t == t && r.r < 0
  {
    var b := js[t.pos];
    if b == LBRACE || b == LBRACKET then Onward(t.(pos := t.pos + 1, count := t.count + 1))
    else if b == RBRACE || b == RBRACKET || Blank(b) || b == COMMA then Onward(t.(pos := t.pos + 1))
    else if b == QUOTE then
      match ScanString(js, t.pos + 1)
      case Found(q) => Onward(t.(pos := q + 1, count := t.count + 1))
      case Illegal => Halt(ERROR_INVAL, t)
      case Unfinished => Halt(ERROR_PART, t)
    else if b == COLON then Onward(t.(pos := t.pos + 1, super := toknext - 1))
    else if PrimitiveStart(b) then
      assert !Terminator(b);
      match ScanPrimitive(js, t.pos)
      case Found(q) => Onward(t.(pos := q, count := t.count + 1))
      case Illegal => Halt(ERROR_INVAL, t)
      case Unfinished => Halt(ERROR_PART, t)
    else Halt(ERROR_INVAL, t)
  }

  function CountRun(js: seq<byte>, t: Tally, toknext: nat): (out: (int, Tally))
    ensures out.0 >= 0 ==> out.0 >= t.count
    decreases |js| - t.pos
  {
    if AtEnd(js, t.pos) then (t.count, t)
    else
      match CountStep(js, t, toknext)
      case Onward(next) => CountRun(js, next, toknext)
      case Halt(r, last) => (r, last)
  }
}
