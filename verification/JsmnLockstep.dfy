/**
 The two builds of jsmn side by side, on any text. Turn by turn they do the same except under guards
 that can be read off the state: a closing bracket with no container open, and a string, a primitive
 or an opening bracket while the superior tokens differ. Superior tokens come to differ at a closing
 bracket whose container hangs under a name, and at a comma behind a name that no open container
 owns. On such texts the builds can part for good, as the witnesses show.
 */
module JsmnLockstep {
  import opened Bytes
  import opened Text
  import opened JsmnMachine
  import opened JsmnForest
  import opened JsonTree
  import opened JsmnRoundTrip
  import opened JsmnBuilds

  /** The same position, and the same tokens but for the parent, which only the linked build records. */
  ghost predicate Peers(a: State, b: State) {
    && a.pos == b.pos && |a.toks| == |b.toks|
    && forall k | 0 <= k < |a.toks| :: Twins(a.toks[k], b.toks[k])
  }

  /** A state of the linked build beside one of the scanning build. */
  ghost predicate Beside(a: State, b: State) {
    Forest(a) && Linked(b) && Peers(a, b)
  }

  /** Both turns go on, or both stop with the same value, and the states are still peers. */
  ghost predicate InStep(s: Turn, t: Turn) {
    s.More? == t.More? && (s.Stop? ==> s.r == t.r) && Peers(s.st, t.st)
  }

  /** A container or string may not be put under an object, and a primitive not under a used name. */
  predicate RefusesContainer(st: State)
    requires Linked(st)
  {
    st.super != -1 && st.toks[st.super].typ == Object
  }

  predicate RefusesPrimitive(st: State)
    requires Linked(st)
  {
    st.super != -1 && (st.toks[st.super].typ == Object ||
                       (st.toks[st.super].typ == String && st.toks[st.super].size != 0))
  }

  /** The root above the last token may be closed again: the linked build lets such a bracket pass. */
  predicate PassesCloser(c: Context, a: State)
    requires Linked(a) && a.pos < |c.js|
  {
    && LastOpen(a.toks, |a.toks|) == -1 && a.super != -1
    && a.toks[Climb(a.toks, |a.toks| - 1)].typ == TypeOf(c.js[a.pos])
  }

  /** The guard: whether the next turn is the same in both builds. */
  predicate Together(c: Context, a: State, b: State)
    requires Linked(a) && Linked(b) && !AtEnd(c.js, a.pos)
  {
    var x := c.js[a.pos];
    var full := |a.toks| >= |c.slots|;
    if x == LBRACE || x == LBRACKET then
      full || a.super == b.super || (RefusesContainer(a) && RefusesContainer(b))
    else if x == RBRACE || x == RBRACKET then !PassesCloser(c, a)
    else if x == QUOTE then full || a.super == b.super || !ScanString(c.js, a.pos + 1).Found?
    else if Blank(x) || x == COLON || x == COMMA || !PrimitiveStart(x) then true
    else if a.super == b.super then true
    else if RefusesPrimitive(a) || RefusesPrimitive(b) then
      (RefusesPrimitive(a) && RefusesPrimitive(b)) || ScanPrimitive(c.js, a.pos).Illegal?
    else full || !ScanPrimitive(c.js, a.pos).Found?
  }

  lemma {:induction false} PeersOpen(s: seq<Token>, t: seq<Token>, n: nat)
    requires n <= |s| == |t| && forall k | 0 <= k < |s| :: Twins(s[k], t[k])
    ensures LastOpen(s, n) == LastOpen(t, n) && LastOpenContainer(s, n) == LastOpenContainer(t, n)
  {
    if n != 0 {
      PeersOpen(s, t, n - 1);
    }
  }

  lemma OpenerTogether(c: Context, a: State, b: State)
    requires c.links && Linked(a) && Linked(b) && Peers(a, b) && !AtEnd(c.js, a.pos)
    requires c.js[a.pos] == LBRACE || c.js[a.pos] == LBRACKET
    ensures InStep(OnOpen(c, a), OnOpen(Scanning(c), b)) <==> Together(c, a, b)
  {
    var s, t := OnOpen(c, a), OnOpen(Scanning(c), b);
    if a.super == b.super {
      assert a.super >= 0 ==> Twins(a.toks[a.super], b.toks[a.super]);
    } else if s.More? && t.More? {
      var i := if a.super == -1 then b.super else a.super;
      assert Twins(a.toks[i], b.toks[i]);
      assert !Twins(s.st.toks[i], t.st.toks[i]);
    }
  }

  /** A closing bracket in the linked build. */
  lemma LinkedCloser(c: Context, a: State)
    requires c.links && Forest(a) && a.pos < |c.js|
    ensures var o := LastOpen(a.toks, |a.toks|);
            OnClose(c, a) ==
            if o >= 0 && a.toks[o].typ == TypeOf(c.js[a.pos]) then
              More(State(a.pos + 1, a.toks[o := a.toks[o].(end := a.pos + 1)], a.toks[o].parent))
            else if PassesCloser(c, a) then More(a.(pos := a.pos + 1))
            else Stop(ERROR_INVAL, a)
  {
    if |a.toks| > 0 {
      CloserAgrees(a);
    }
    hide Forest, LastOpen, Climb;
  }

  /** A closing bracket in the scanning build. */
  lemma ScanningCloser(c: Context, b: State)
    requires !c.links && Linked(b) && b.pos < |c.js|
    ensures var o := LastOpen(b.toks, |b.toks|);
            OnClose(c, b) ==
            if o >= 0 && b.toks[o].typ == TypeOf(c.js[b.pos]) then
              More(State(b.pos + 1, b.toks[o := b.toks[o].(end := b.pos + 1)], LastOpen(b.toks, o)))
            else Stop(ERROR_INVAL, b)
  {
    hide LastOpen;
  }

  /** Closing the same token on both sides, and moving on, makes peers of peers. */
  lemma ShutPeers(a: State, b: State, o: nat, s: int, t: int)
    requires Peers(a, b) && o < |a.toks|
    ensures o < |b.toks| && a.toks[o].typ == b.toks[o].typ
    ensures Peers(State(a.pos + 1, a.toks[o := a.toks[o].(end := a.pos + 1)], s),
                  State(b.pos + 1, b.toks[o := b.toks[o].(end := b.pos + 1)], t))
  {
    assert Twins(a.toks[o], b.toks[o]);
  }

  lemma PeersMove(a: State, b: State)
    requires Peers(a, b)
    ensures a.pos == b.pos && |a.toks| == |b.toks| && !Peers(a.(pos := a.pos + 1), b)
  {
  }

  lemma PassesMeans(c: Context, a: State)
    requires Linked(a) && a.pos < |c.js|
    ensures PassesCloser(c, a) ==> LastOpen(a.toks, |a.toks|) == -1
  {
  }

  lemma CloserTogether(c: Context, a: State, b: State)
    requires c.links && Beside(a, b) && !AtEnd(c.js, a.pos)
    requires c.js[a.pos] == RBRACE || c.js[a.pos] == RBRACKET
    ensures InStep(OnClose(c, a), OnClose(Scanning(c), b)) <==> Together(c, a, b)
    ensures OnClose(c, a).More? && OnClose(Scanning(c), b).More? ==>
              var o := LastOpen(a.toks, |a.toks|);
              && o >= 0 && OnClose(c, a).st.super == a.toks[o].parent
              && OnClose(Scanning(c), b).st.super == LastOpen(a.toks, o)
    ensures OnClose(c, a).More? && !PassesCloser(c, a) ==>
              var o := LastOpen(a.toks, |a.toks|);
              o >= 0 && a.toks[o].typ == TypeOf(c.js[a.pos]) && OnClose(Scanning(c), b).More?
    ensures !OnClose(c, a).More? ==>
              var o := LastOpen(a.toks, |a.toks|); o == -1 || a.toks[o].typ != TypeOf(c.js[a.pos])
  {
    assert Linked(a) && Peers(a, b);
    PeersOpen(a.toks, b.toks, |a.toks|);
    var o := LastOpen(a.toks, |a.toks|);
    if o >= 0 {
      PeersOpen(a.toks, b.toks, o);
      ShutPeers(a, b, o, a.toks[o].parent, LastOpen(b.toks, o));
    }
    PeersMove(a, b);
    hide Forest, Linked, LastOpen, LastOpenContainer, Climb, OnClose, PassesCloser, Peers;
    LinkedCloser(c, a);
    ScanningCloser(Scanning(c), b);
    PassesMeans(c, a);
  }

  lemma CommaTogether(c: Context, a: State, b: State)
    requires c.links && Linked(a) && Linked(b) && Peers(a, b) && !AtEnd(c.js, a.pos)
    ensures InStep(OnComma(c, a), OnComma(Scanning(c), b))
  {
    hide LastOpenContainer;
  }

  /** Placing the same token in both builds is the same turn if and only if the superior tokens are the same. */
  lemma PlaceTogether(c: Context, a: State, b: State, typ: Type, start: nat, end: nat, next: nat)
    requires c.links && Linked(a) && Linked(b) && Peers(a, b)
    ensures var s, t := Place(c, a, typ, start, end, next), Place(Scanning(c), b, typ, start, end, next);
            InStep(s, t) <==> |a.toks| >= |c.slots| || a.super == b.super
  {
    if |a.toks| < |c.slots| && a.super != b.super {
      var s, t := Place(c, a, typ, start, end, next).st, Place(Scanning(c), b, typ, start, end, next).st;
      var i := if a.super == -1 then b.super else a.super;
      assert Twins(a.toks[i], b.toks[i]);
      assert !Twins(s.toks[i], t.toks[i]);
    }
  }

  lemma StringTogether(c: Context, a: State, b: State)
    requires c.links && Linked(a) && Linked(b) && Peers(a, b) && !AtEnd(c.js, a.pos) && c.js[a.pos] == QUOTE
    ensures InStep(OnString(c, a), OnString(Scanning(c), b)) <==> Together(c, a, b)
  {
    hide Place, ScanString, Peers;
    if ScanString(c.js, a.pos + 1).Found? {
      var q := ScanString(c.js, a.pos + 1).at;
      PlaceTogether(c, a, b, String, a.pos + 1, q, q + 1);
    }
    PeersThere(a, b);
  }

  lemma PeersThere(a: State, b: State)
    requires Peers(a, b)
    ensures a.pos == b.pos && |a.toks| == |b.toks|
    ensures Linked(a) && Linked(b) && a.super == b.super ==> RefusesPrimitive(a) == RefusesPrimitive(b)
  {
    assert Linked(a) && a.super >= 0 ==> Twins(a.toks[a.super], b.toks[a.super]);
  }

  lemma PrimitiveTogether(c: Context, a: State, b: State)
    requires c.links && Linked(a) && Linked(b) && Peers(a, b) && !AtEnd(c.js, a.pos) && PrimitiveStart(c.js[a.pos])
    ensures InStep(OnPrimitive(c, a), OnPrimitive(Scanning(c), b)) <==> Together(c, a, b)
  {
    hide Place, ScanPrimitive, Peers, Linked;
    PeersThere(a, b);
    if ScanPrimitive(c.js, a.pos).Found? {
      var q := ScanPrimitive(c.js, a.pos).at;
      PlaceTogether(c, a, b, Primitive, a.pos, q, q);
      PlaceOutcome(c, a, Primitive, a.pos, q, q);
      PlaceOutcome(Scanning(c), b, Primitive, a.pos, q, q);
    }
  }

  lemma PlaceOutcome(c: Context, st: State, typ: Type, start: nat, end: nat, next: nat)
    requires Linked(st)
    ensures var t := Place(c, st, typ, start, end, next); t.More? || t.r == ERROR_NOMEM
  {
  }

  /** Every turn, on every byte: the builds stay in step if and only if the guard holds. */
  lemma TurnsTogether(c: Context, a: State, b: State)
    requires c.links && Beside(a, b) && !AtEnd(c.js, a.pos)
    ensures InStep(Step(c, a), Step(Scanning(c), b)) <==> Together(c, a, b)
  {
    assert Linked(a);
    hide OnOpen, OnClose, OnString, OnPrimitive, OnComma, Forest, Linked;
    var x := c.js[a.pos];
    if x == LBRACE || x == LBRACKET {
      OpenerTogether(c, a, b);
    } else if x == RBRACE || x == RBRACKET {
      CloserTogether(c, a, b);
    } else if x == QUOTE {
      StringTogether(c, a, b);
    } else if x == COMMA {
      CommaTogether(c, a, b);
    } else if PrimitiveStart(x) {
      PrimitiveTogether(c, a, b);
    }
  }

  // ----- the superior tokens -----

  /** Peers with the same superior token. */
  ghost predicate Same(a: State, b: State) {
    Beside(a, b) && a.super == b.super
  }

  /** The guard under which both builds are left with the same superior token. */
  predicate KeepsSuper(c: Context, a: State)
    requires Linked(a) && !AtEnd(c.js, a.pos)
  {
    var x := c.js[a.pos];
    if x == RBRACE || x == RBRACKET then
      var o := LastOpen(a.toks, |a.toks|);
      if o == -1 then !PassesCloser(c, a)
      else a.toks[o].typ != TypeOf(x) || a.toks[o].parent == LastOpen(a.toks, o)
    else if x == COMMA && a.super != -1 && !a.toks[a.super].Container() then
      var o := LastOpenContainer(a.toks, |a.toks|);
      o != -1 && a.toks[a.super].parent == o
    else true
  }

  lemma CommaSuper(c: Context, a: State, b: State)
    requires c.links && Linked(a) && Linked(b) && Peers(a, b) && a.super == b.super
    requires !AtEnd(c.js, a.pos) && c.js[a.pos] == COMMA
    ensures OnComma(c, a).More? && OnComma(Scanning(c), b).More?
    ensures OnComma(c, a).st.super == OnComma(Scanning(c), b).st.super <==> KeepsSuper(c, a)
  {
    PeersOpen(a.toks, b.toks, |a.toks|);
    assert a.super >= 0 ==> Twins(a.toks[a.super], b.toks[a.super]);
    hide LastOpenContainer, LastOpen, Peers;
  }

  lemma CloserSuper(c: Context, a: State, b: State)
    requires c.links && Beside(a, b) && a.super == b.super && !AtEnd(c.js, a.pos)
    requires c.js[a.pos] == RBRACE || c.js[a.pos] == RBRACKET
    ensures var s, t := OnClose(c, a), OnClose(Scanning(c), b);
            InStep(s, t) && s.st.super == t.st.super <==> KeepsSuper(c, a)
  {
    assert Linked(a);
    CloserTogether(c, a, b);
    CloserStops(c, a);
    CloserStops(Scanning(c), b);
    hide OnClose, Beside, Linked, LastOpen, Climb, Peers;
  }

  lemma CloserStops(c: Context, st: State)
    requires Linked(st) && st.pos < |c.js|
    ensures OnClose(c, st).Stop? ==> OnClose(c, st).st == st
  {
  }

  /** What the other bytes leave as superior token does not depend on the build. */
  lemma OtherSuper(c: Context, a: State, b: State)
    requires c.links && Linked(a) && Linked(b) && Peers(a, b) && a.super == b.super && !AtEnd(c.js, a.pos)
    requires c.js[a.pos] !in [RBRACE, RBRACKET, COMMA]
    ensures Step(c, a).st.super == Step(Scanning(c), b).st.super
  {
    assert a.super >= 0 ==> Twins(a.toks[a.super], b.toks[a.super]);
  }

  /** Every turn, on every byte: equal superior tokens stay equal if and only if the guard holds. */
  lemma SuperStays(c: Context, a: State, b: State)
    requires c.links && Same(a, b) && !AtEnd(c.js, a.pos)
    ensures var s, t := Step(c, a), Step(Scanning(c), b);
            InStep(s, t) && s.st.super == t.st.super <==> KeepsSuper(c, a)
  {
    assert Linked(a);
    hide OnOpen, OnClose, OnString, OnPrimitive, OnComma, Forest, Linked, Peers, InStep, PassesCloser;
    TurnsTogether(c, a, b);
    var x := c.js[a.pos];
    if x == RBRACE || x == RBRACKET {
      CloserSuper(c, a, b);
    } else if x == COMMA {
      CommaSuper(c, a, b);
    } else {
      OtherSuper(c, a, b);
    }
  }

  // ----- whole runs -----

  /** The builds do the same in every turn of a run. */
  ghost predicate AlwaysInStep(c: Context, a: State, b: State)
    requires Linked(a) && Linked(b) && a.pos == b.pos
    decreases |c.js| - a.pos
  {
    AtEnd(c.js, a.pos) ||
    var s, t := Step(c, a), Step(Scanning(c), b);
    InStep(s, t) && (s.More? ==> AlwaysInStep(c, s.st, t.st))
  }

  ghost predicate AllTogether(c: Context, a: State, b: State)
    requires Linked(a) && Linked(b) && a.pos == b.pos
    decreases |c.js| - a.pos
  {
    AtEnd(c.js, a.pos) ||
    var s, t := Step(c, a), Step(Scanning(c), b);
    Together(c, a, b) && (s.More? && t.More? && s.st.pos == t.st.pos ==> AllTogether(c, s.st, t.st))
  }

  lemma NextBeside(c: Context, a: State, b: State)
    requires c.links && Beside(a, b) && !AtEnd(c.js, a.pos)
    requires InStep(Step(c, a), Step(Scanning(c), b)) && Step(c, a).More?
    ensures Beside(Step(c, a).st, Step(Scanning(c), b).st)
  {
    StepKeepsForest(c, a);
    hide Forest, Peers;
  }

  lemma BesideLinked(a: State, b: State)
    requires Beside(a, b)
    ensures Linked(a) && Linked(b) && a.pos == b.pos
  {
  }

  /** Over a whole run the builds stay in step if and only if every turn's guard holds. */
  lemma {:induction false} InStepIffTogether(c: Context, a: State, b: State)
    requires c.links && Beside(a, b)
    ensures Linked(a) && Linked(b) && a.pos == b.pos
    ensures AlwaysInStep(c, a, b) <==> AllTogether(c, a, b)
    decreases |c.js| - a.pos
  {
    BesideLinked(a, b);
    if !AtEnd(c.js, a.pos) {
      TurnsTogether(c, a, b);
      hide Step, Together, Beside;
      if InStep(Step(c, a), Step(Scanning(c), b)) && Step(c, a).More? {
        NextBeside(c, a, b);
        InStepIffTogether(c, Step(c, a).st, Step(Scanning(c), b).st);
      }
    }
  }

  /** And then they return the same value and leave the same tokens behind, but for the parents. */
  lemma {:induction false} TogetherSameResult(c: Context, a: State, b: State)
    requires c.links && Beside(a, b)
    ensures Linked(a) && Linked(b) && a.pos == b.pos
    ensures AllTogether(c, a, b) ==> Run(c, a).0 == Run(Scanning(c), b).0 && Peers(Run(c, a).1, Run(Scanning(c), b).1)
    decreases |c.js| - a.pos
  {
    BesideLinked(a, b);
    if AtEnd(c.js, a.pos) {
      PeersOpen(a.toks, b.toks, |a.toks|);
    } else {
      TurnsTogether(c, a, b);
      hide Step, Together, Beside;
      if InStep(Step(c, a), Step(Scanning(c), b)) && Step(c, a).More? {
        NextBeside(c, a, b);
        TogetherSameResult(c, Step(c, a).st, Step(Scanning(c), b).st);
      }
    }
  }

  /** In step and with equal superior tokens all along. */
  ghost predicate AlwaysSame(c: Context, a: State, b: State)
    requires Linked(a) && Linked(b) && a.pos == b.pos
    decreases |c.js| - a.pos
  {
    AtEnd(c.js, a.pos) ||
    var s, t := Step(c, a), Step(Scanning(c), b);
    InStep(s, t) && s.st.super == t.st.super && (s.More? ==> AlwaysSame(c, s.st, t.st))
  }

  predicate AllKeep(c: Context, a: State)
    requires Linked(a)
    decreases |c.js| - a.pos
  {
    AtEnd(c.js, a.pos) || (KeepsSuper(c, a) && (Step(c, a).More? ==> AllKeep(c, Step(c, a).st)))
  }

  /** Over a whole run: position, tokens and superior token stay equal if and only if every guard holds. */
  lemma {:induction false} SameIffKept(c: Context, a: State, b: State)
    requires c.links && Same(a, b)
    ensures Linked(a) && Linked(b) && a.pos == b.pos
    ensures AlwaysSame(c, a, b) <==> AllKeep(c, a)
    decreases |c.js| - a.pos
  {
    BesideLinked(a, b);
    if !AtEnd(c.js, a.pos) {
      SuperStays(c, a, b);
      hide Step, KeepsSuper, Beside;
      if KeepsSuper(c, a) && Step(c, a).More? {
        NextBeside(c, a, b);
        SameIffKept(c, Step(c, a).st, Step(Scanning(c), b).st);
      }
    }
  }

  // ----- texts on which the builds part -----

  /** `"a":1,2 `: the comma frees the linked build of the name, but no container is open to be found. */
  const NAME_AT_TOP: seq<byte> := [QUOTE, 0x61, QUOTE, COLON, 0x31, COMMA, 0x32, SPACE]

  /** Behind the comma the linked build has no superior token, the scanning build still the name. */
  function AfterComma(links: bool): State {
    State(6, [Token(String, 1, 2, 1, -1), Token(Primitive, 4, 5, 0, ParentLink(links, 0))], if links then -1 else 0)
  }

  /** Behind the value, which has been counted at the name. */
  function BeforeComma(links: bool): State {
    AfterComma(links).(pos := 5, super := 0)
  }

  lemma NameOpens(c: Context)
    requires c.js == NAME_AT_TOP && |c.slots| >= 3
    ensures Linked(State(4, [Token(String, 1, 2, 0, -1)], 0))
    ensures Run(c, INIT) == Run(c, State(4, [Token(String, 1, 2, 0, -1)], 0))
  {
    hide Run, OnOpen, OnClose, OnPrimitive, OnComma, LastOpen, Climb, HexDigits, EscapeLetter;
    var s1, s2 := State(3, [Token(String, 1, 2, 0, -1)], -1), State(4, [Token(String, 1, 2, 0, -1)], 0);
    assert Step(c, INIT) == More(s1) by {
      assert ScanString(c.js, 2) == Found(2) && ScanString(c.js, 1) == Found(2);
    }
    assert Step(c, s1) == More(s2);
    hide Step, ScanString;
    RunStep(c, INIT);
    RunStep(c, s1);
  }

  lemma NameGetsValue(c: Context)
    requires c.js == NAME_AT_TOP && |c.slots| >= 3
    ensures Linked(BeforeComma(c.links)) && Run(c, INIT) == Run(c, BeforeComma(c.links))
  {
    hide Run, OnOpen, OnClose, OnString, OnComma, LastOpen, Climb;
    NameOpens(c);
    var s2 := State(4, [Token(String, 1, 2, 0, -1)], 0);
    assert Step(c, s2) == More(BeforeComma(c.links)) by {
      assert ScanPrimitive(c.js, 5) == Found(5) && ScanPrimitive(c.js, 4) == Found(5);
    }
    hide Step, ScanPrimitive;
    RunStep(c, s2);
  }

  lemma NameRun(c: Context)
    requires c.js == NAME_AT_TOP && |c.slots| >= 3
    ensures Run(c, INIT) == Run(c, AfterComma(c.links))
  {
    hide Run, OnOpen, OnClose, OnString, OnPrimitive, LastOpen, Climb;
    NameGetsValue(c);
    var s3 := BeforeComma(c.links);
    assert LastOpenContainer(s3.toks, 1) == -1 && LastOpenContainer(s3.toks, 2) == -1;
    assert Step(c, s3) == More(AfterComma(c.links));
    RunStep(c, s3);
  }

  lemma CommaSplitsBuilds(c: Context)
    requires c.js == NAME_AT_TOP && |c.slots| >= 3
    ensures Run(c, INIT).0 == if c.links then 3 else ERROR_INVAL
  {
    NameRun(c);
    var s4 := AfterComma(c.links);
    if c.links {
      hide Run;
      assert ScanPrimitive(c.js, 7) == Found(7) && ScanPrimitive(c.js, 6) == Found(7);
      var s5 := State(7, s4.toks + [Token(Primitive, 6, 7, 0, -1)], -1);
      var s6 := s5.(pos := 8);
      assert Step(c, s4) == More(s5) && Step(c, s5) == More(s6);
      assert LastOpen(s6.toks, 1) == -1 && LastOpen(s6.toks, 2) == -1 && LastOpen(s6.toks, 3) == -1;
      RunStep(c, s4);
      RunStep(c, s5);
      RunEnds(c, s6);
    } else {
      assert Step(c, s4) == Stop(ERROR_INVAL, s4);
    }
  }

  /** The first seven bytes of an object whose first member is an empty object. */
  const MEMBER: seq<byte> := [LBRACE, QUOTE, 0x61, QUOTE, COLON, LBRACE, RBRACE]

  /** Behind `{"a":{}` the linked build goes back to the name, the scanning build to the outer object. */
  function AfterMember(links: bool): State {
    State(7, [Token(Object, 0, -1, 1, -1), Token(String, 2, 3, 1, ParentLink(links, 0)),
              Token(Object, 5, 7, 0, ParentLink(links, 1))], if links then 1 else 0)
  }

  /** Before the inner bracket is closed, the builds still agree. */
  function InMember(links: bool): State {
    var after := AfterMember(links);
    State(6, after.toks[2 := after.toks[2].(end := -1)], 2)
  }

  lemma MemberOpens(c: Context)
    requires MEMBER <= c.js && |c.slots| >= 3
    ensures Run(c, INIT) == Run(c, InMember(c.links)) && Linked(InMember(c.links))
  {
    hide Run, OnPrimitive, OnClose, LastOpen, LastOpenContainer, Climb, HexDigits, EscapeLetter;
    var js := c.js;
    assert forall k | 0 <= k < 7 :: js[k] == MEMBER[k];
    assert ScanString(js, 3) == Found(3) && ScanString(js, 2) == Found(3);
    var box, name := Token(Object, 0, -1, 1, -1), Token(String, 2, 3, 0, ParentLink(c.links, 0));
    var s1 := State(1, [box.(size := 0)], 0);
    var s2 := State(4, [box, name], 0);
    var s3 := State(5, [box, name], 1);
    assert Step(c, INIT) == More(s1) && Step(c, s1) == More(s2) && Step(c, s2) == More(s3);
    assert Step(c, s3) == More(InMember(c.links));
    RunStep(c, INIT);
    RunStep(c, s1);
    RunStep(c, s2);
    RunStep(c, s3);
  }

  lemma MemberRun(c: Context)
    requires MEMBER <= c.js && |c.slots| >= 3
    ensures Run(c, INIT) == Run(c, AfterMember(c.links))
  {
    hide Run;
    MemberOpens(c);
    var s4 := InMember(c.links);
    assert c.js[6] == MEMBER[6];
    assert LastOpen(s4.toks, 3) == 2 && LastOpen(s4.toks, 1) == 0 && LastOpen(s4.toks, 2) == 0;
    assert Step(c, s4) == More(AfterMember(c.links));
    RunStep(c, s4);
  }

  /** `{"a":{}{}}`: a container is open at every closing bracket, and yet the builds part. */
  const TWO_VALUES: seq<byte> := MEMBER + [LBRACE, RBRACE, RBRACE]

  lemma CloserUnderNameSplitsBuilds(c: Context)
    requires c.js == TWO_VALUES && |c.slots| >= 4
    ensures Run(c, INIT).0 == if c.links then 4 else ERROR_INVAL
  {
    MemberRun(c);
    if c.links {
      SecondValue(c);
    } else {
      assert Step(c, AfterMember(false)) == Stop(ERROR_INVAL, Step(c, AfterMember(false)).st);
    }
  }

  lemma SecondValue(c: Context)
    requires c.js == TWO_VALUES && |c.slots| >= 4 && c.links
    ensures Run(c, AfterMember(true)).0 == 4
  {
    hide Run;
    var s0 := AfterMember(true);
    var box, name, first := s0.toks[0], s0.toks[1].(size := 2), s0.toks[2];
    var s1 := State(8, [box, name, first, Token(Object, 7, -1, 0, 1)], 3);
    var s2 := State(9, [box, name, first, Token(Object, 7, 9, 0, 1)], 1);
    var s3 := State(10, [box.(end := 10), name, first, Token(Object, 7, 9, 0, 1)], -1);
    assert Step(c, s0) == More(s1);
    assert Step(c, s1) == More(s2);
    assert Climb(s2.toks, 1) == 0 && Climb(s2.toks, 3) == 0;
    assert Step(c, s2) == More(s3);
    assert LastOpen(s3.toks, 2) == -1 && LastOpen(s3.toks, 4) == -1;
    RunStep(c, s0);
    RunStep(c, s1);
    RunStep(c, s2);
    RunEnds(c, s3);
  }

  /**
   JSON texts too take the superior tokens apart for a while: the guard of SuperStays fails, that of
   TurnsTogether holds.
   */
  lemma MemberPartsSupers(c: Context)
    requires MEMBER <= c.js && c.links
    ensures Linked(InMember(true)) && !KeepsSuper(c, InMember(true))
    ensures Linked(InMember(false)) && Together(c, InMember(true), InMember(false))
  {
    var s4 := InMember(true);
    assert c.js[6] == MEMBER[6];
    assert LastOpen(s4.toks, 3) == 2 && LastOpen(s4.toks, 1) == 0 && LastOpen(s4.toks, 2) == 0;
  }
}
