/**
 Bracket balance of the texts jsmn accepts. Brackets inside strings do not count, and neither do those
 inside primitives, which strict jsmn lets through: `[1[]` holds one list. The scanning build accepts
 balanced texts only; the build with parent links accepts a text that is not balanced exactly when a
 closing bracket is let pass with no container open.
 */
module JsmnBalance {
  import opened Bytes
  import opened Text
  import opened JsmnMachine
  import opened JsmnForest
  import opened JsonTree
  import opened JsmnRoundTrip
  import opened JsmnBuilds
  import opened JsmnLockstep

  /**
   From `p` on every closing bracket meets its opening one; `open` lists the types of
   those still to be closed. A string or primitive that is cut off ends the text.
   */
  predicate Balanced(js: seq<byte>, p: nat, open: seq<Type>)
    decreases |js| - p
  {
    if AtEnd(js, p) then open == []
    else if js[p] == LBRACE || js[p] == LBRACKET then Balanced(js, p + 1, open + [TypeOf(js[p])])
    else if js[p] == RBRACE || js[p] == RBRACKET then
      open != [] && open[|open| - 1] == TypeOf(js[p]) && Balanced(js, p + 1, open[..|open| - 1])
    else if js[p] == QUOTE then
      match ScanString(js, p + 1)
      case Found(q) => Balanced(js, q + 1, open)
      case _ => open == []
    else if PrimitiveStart(js[p]) then
      assert !Terminator(js[p]);
      match ScanPrimitive(js, p)
      case Found(q) => Balanced(js, q, open)
      case _ => open == []
    else Balanced(js, p + 1, open)
  }

  /** The types of the open tokens, the innermost last. */
  function Stack(toks: seq<Token>): seq<Type> {
    if toks == [] then []
    else
      var n := |toks| - 1;
      Stack(toks[..n]) + if toks[n].Open() then [toks[n].typ] else []
  }

  lemma StackAppend(toks: seq<Token>, t: Token)
    ensures Stack(toks + [t]) == Stack(toks) + if t.Open() then [t.typ] else []
  {
    assert (toks + [t])[..|toks|] == toks;
  }

  lemma {:induction false} StackSame(s: seq<Token>, t: seq<Token>)
    requires |s| == |t| && forall k | 0 <= k < |s| :: s[k].Open() == t[k].Open() && s[k].typ == t[k].typ
    ensures Stack(s) == Stack(t)
    decreases |s|
  {
    if s != [] {
      StackSame(s[..|s| - 1], t[..|t| - 1]);
    }
  }

  lemma {:induction false} StackEmpty(toks: seq<Token>)
    ensures Stack(toks) == [] <==> LastOpen(toks, |toks|) == -1
    decreases |toks|
  {
    if toks != [] {
      var n := |toks| - 1;
      StackEmpty(toks[..n]);
      LastOpenSame(toks, toks[..n], n);
    }
  }

  /** The last open token is the top of the stack, and closing it takes it off. */
  lemma {:induction false} StackTop(toks: seq<Token>, end: nat)
    requires LastOpen(toks, |toks|) != -1
    ensures var o, stack := LastOpen(toks, |toks|), Stack(toks);
            && stack != [] && stack[|stack| - 1] == toks[o].typ
            && Stack(toks[o := toks[o].(end := end)]) == stack[..|stack| - 1]
    decreases |toks|
  {
    var n, o := |toks| - 1, LastOpen(toks, |toks|);
    var now := toks[o := toks[o].(end := end)];
    LastOpenSame(toks, toks[..n], n);
    if o == n {
      assert now[..n] == toks[..n];
    } else {
      StackTop(toks[..n], end);
      assert now[..n] == toks[..n][o := toks[o].(end := end)];
    }
  }

  // ----- one turn -----

  /** A closing bracket that is let pass although no container is open. */
  predicate Passes(c: Context, st: State)
    requires Linked(st) && !AtEnd(c.js, st.pos)
  {
    c.links && (c.js[st.pos] == RBRACE || c.js[st.pos] == RBRACKET) && PassesCloser(c, st)
  }

  /** What a turn does to position and stack, seen from the text alone. */
  ghost predicate Follows(js: seq<byte>, st: State, next: State) {
    Balanced(js, st.pos, Stack(st.toks)) <==> Balanced(js, next.pos, Stack(next.toks))
  }

  lemma OpenerFollows(c: Context, st: State)
    requires Linked(st) && !AtEnd(c.js, st.pos) && (c.js[st.pos] == LBRACE || c.js[st.pos] == LBRACKET)
    requires OnOpen(c, st).More?
    ensures Follows(c.js, st, OnOpen(c, st).st)
  {
    var next := OnOpen(c, st).st;
    var bumped := Bump(st.toks, st.super, 1);
    StackSame(st.toks, bumped);
    StackAppend(bumped, next.toks[|st.toks|]);
    assert next.toks == bumped + [next.toks[|st.toks|]];
    hide Stack;
  }

  lemma PlaceFollows(c: Context, st: State, typ: Type, start: nat, end: nat, next: nat)
    requires Linked(st) && Place(c, st, typ, start, end, next).More?
    ensures var after := Place(c, st, typ, start, end, next).st;
            Stack(after.toks) == Stack(st.toks) && after.pos == next
  {
    var after := Place(c, st, typ, start, end, next).st;
    var bumped := Bump(st.toks, st.super, 1);
    StackSame(st.toks, bumped);
    StackAppend(bumped, after.toks[|st.toks|]);
  }

  /** A closing bracket in either build: closes the top, or is let pass, or stops the run. */
  lemma CloserMeans(c: Context, st: State)
    requires Linked(st) && (c.links ==> Forest(st)) && !AtEnd(c.js, st.pos)
    requires c.js[st.pos] == RBRACE || c.js[st.pos] == RBRACKET
    ensures var o, typ := LastOpen(st.toks, |st.toks|), TypeOf(c.js[st.pos]);
            && (OnClose(c, st).More? <==> (o >= 0 && st.toks[o].typ == typ) || Passes(c, st))
            && (OnClose(c, st).More? && !Passes(c, st) ==>
                  o >= 0 && st.toks[o].typ == typ && OnClose(c, st).st.pos == st.pos + 1
                  && OnClose(c, st).st.toks == st.toks[o := st.toks[o].(end := st.pos + 1)])
            && (Passes(c, st) ==> o == -1)
  {
    if c.links { LinkedCloser(c, st); } else { ScanningCloser(c, st); }
    hide OnClose, LastOpen, Climb, Forest;
  }

  lemma CloserFollows(c: Context, st: State)
    requires Linked(st) && (c.links ==> Forest(st)) && !AtEnd(c.js, st.pos)
    requires c.js[st.pos] == RBRACE || c.js[st.pos] == RBRACKET
    ensures OnClose(c, st).More? && !Passes(c, st) ==> Follows(c.js, st, OnClose(c, st).st)
    ensures Passes(c, st) ==> !Balanced(c.js, st.pos, Stack(st.toks))
    ensures OnClose(c, st).Stop? ==> !Balanced(c.js, st.pos, Stack(st.toks))
  {
    hide OnClose, Passes, Forest, Linked, LastOpen, Stack, ScanString, ScanPrimitive;
    CloserMeans(c, st);
    StackEmpty(st.toks);
    if LastOpen(st.toks, |st.toks|) != -1 { StackTop(st.toks, st.pos + 1); }
  }

  lemma StringFollows(c: Context, st: State)
    requires Linked(st) && !AtEnd(c.js, st.pos) && c.js[st.pos] == QUOTE && OnString(c, st).More?
    ensures Follows(c.js, st, OnString(c, st).st)
  {
    hide Place, Stack, ScanString;
    var q := ScanString(c.js, st.pos + 1).at;
    PlaceFollows(c, st, String, st.pos + 1, q, q + 1);
  }

  lemma PrimitiveFollows(c: Context, st: State)
    requires Linked(st) && !AtEnd(c.js, st.pos) && PrimitiveStart(c.js[st.pos]) && OnPrimitive(c, st).More?
    ensures Follows(c.js, st, OnPrimitive(c, st).st)
  {
    hide Place, Stack, ScanPrimitive;
    var q := ScanPrimitive(c.js, st.pos).at;
    PlaceFollows(c, st, Primitive, st.pos, q, q);
  }

  /** Whitespace, colons and commas. */
  lemma OtherFollows(c: Context, st: State)
    requires Linked(st) && !AtEnd(c.js, st.pos) && (Blank(c.js[st.pos]) || c.js[st.pos] in [COLON, COMMA])
    ensures Step(c, st).More? && Follows(c.js, st, Step(c, st).st)
  {
    hide LastOpenContainer, Stack;
  }

  /**
   Every turn that goes on keeps the balance of what is left, unless it lets a bracket pass, and then
   there is none.
   */
  lemma StepFollows(c: Context, st: State)
    requires Linked(st) && (c.links ==> Forest(st)) && !AtEnd(c.js, st.pos) && Step(c, st).More?
    ensures if Passes(c, st) then !Balanced(c.js, st.pos, Stack(st.toks)) else Follows(c.js, st, Step(c, st).st)
  {
    var b := c.js[st.pos];
    hide OnOpen, OnClose, OnString, OnPrimitive, OnComma, Forest, Stack, PassesCloser, Balanced, Follows, Linked;
    if b == LBRACE || b == LBRACKET {
      OpenerFollows(c, st);
    } else if b == RBRACE || b == RBRACKET {
      CloserFollows(c, st);
    } else if b == QUOTE {
      StringFollows(c, st);
    } else if Blank(b) || b == COLON || b == COMMA {
      OtherFollows(c, st);
    } else {
      PrimitiveFollows(c, st);
    }
  }

  // ----- whole runs -----

  /** No turn of the run lets a bracket pass. */
  predicate NonePasses(c: Context, st: State)
    requires Linked(st)
    decreases |c.js| - st.pos
  {
    AtEnd(c.js, st.pos) || (!Passes(c, st) && (Step(c, st).More? ==> NonePasses(c, Step(c, st).st)))
  }

  /** In either build, from any state: what is left of an accepted text is balanced if and only if no bracket passes. */
  lemma {:induction false} BalancedIffNonePasses(c: Context, st: State)
    requires Linked(st) && (c.links ==> Forest(st))
    ensures Run(c, st).0 >= 0 ==> (Balanced(c.js, st.pos, Stack(st.toks)) <==> NonePasses(c, st))
    decreases |c.js| - st.pos
  {
    if AtEnd(c.js, st.pos) {
      StackEmpty(st.toks);
    } else if Step(c, st).More? {
      StepFollows(c, st);
      if c.links { StepKeepsForest(c, st); }
      hide Step, Passes, Forest, Stack;
      BalancedIffNonePasses(c, Step(c, st).st);
    }
  }

  lemma {:induction false} ScanningNonePasses(c: Context, st: State)
    requires Linked(st) && !c.links
    ensures NonePasses(c, st)
    decreases |c.js| - st.pos
  {
    hide Step;
    if !AtEnd(c.js, st.pos) && Step(c, st).More? {
      ScanningNonePasses(c, Step(c, st).st);
    }
  }

  /** The linked build accepts a text that is balanced if and only if no closing bracket passes with nothing open. */
  lemma AcceptedBalance(c: Context)
    requires c.links
    ensures Run(c, INIT).0 >= 0 ==> (Balanced(c.js, 0, []) <==> NonePasses(c, INIT))
  {
    BalancedIffNonePasses(c, INIT);
  }

  /** What the scanning build accepts is balanced. */
  lemma ScanningAcceptsBalanced(c: Context)
    requires !c.links
    ensures Run(c, INIT).0 >= 0 ==> Balanced(c.js, 0, [])
  {
    BalancedIffNonePasses(c, INIT);
    ScanningNonePasses(c, INIT);
  }

  lemma {:induction false} BlanksBalanced(js: seq<byte>, p: nat, ws: seq<byte>, open: seq<Type>)
    requires Blanks(ws) && At(js, p, ws)
    ensures Balanced(js, p, open) <==> Balanced(js, p + |ws|, open)
    decreases |ws|
  {
    if ws != [] {
      AtCons(js, p, ws);
      assert Blank(ws[0]);
      BlanksBalanced(js, p + 1, ws[1..], open);
    }
  }

  /** Every JSON text is balanced. */
  lemma JsonIsBalanced(v: Value, lead: seq<byte>, trail: seq<byte>)
    requires WellFormed(v) && Blanks(lead) && Blanks(trail)
    ensures Balanced(lead + Print(v) + trail, 0, [])
  {
    var js := lead + Print(v) + trail;
    hide Run, Print, WellFormed, Blanks, Nodes, Balanced, Sits, At, PrimitiveText;
    if v.Prim? && trail == [] {
      PrimParts(v);
      AtWhole(js);
      assert js == lead + v.text;
      AtPlus(js, 0, lead, v.text);
      BlanksBalanced(js, 0, lead, []);
      BareBalanced(js, |lead|, v.text);
    } else {
      var c := Context(js, seq(Nodes(v), _ => Token(Undefined, 0, 0, 0, 0)), false);
      RoundTrip(c, v, lead, trail);
      ScanningAcceptsBalanced(c);
    }
  }

  lemma BareBalanced(js: seq<byte>, p: nat, text: seq<byte>)
    requires PrimitiveText(text) && At(js, p, text) && p + |text| == |js|
    ensures Balanced(js, p, [])
  {
    AtCons(js, p, text);
    ScanText(js, p, text);
  }

  // ----- texts -----

  /** `{}:}` is accepted by the linked build and not balanced: its last bracket passes with nothing open. */
  lemma StrayCloserUnbalances(c: Context)
    requires c.links && c.js == STRAY_CLOSER && |c.slots| >= 1
    ensures Run(c, INIT).0 == 1 && !Balanced(c.js, 0, []) && !NonePasses(c, INIT)
  {
    hide NonePasses, Run, Balanced;
    StrayCloserSplitsBuilds(c);
    AcceptedBalance(c);
    StrayCloserText(c.js);
  }

  lemma StrayCloserText(js: seq<byte>)
    requires js == STRAY_CLOSER
    ensures !Balanced(js, 0, [])
  {
    hide ScanString, ScanPrimitive;
    assert js[0] == LBRACE && js[1] == RBRACE && js[2] == COLON && js[3] == RBRACE;
    assert !Balanced(js, 3, []);
    assert !Balanced(js, 2, []);
    assert [Object][..0] == [] && !Balanced(js, 1, [Object]);
    assert [] + [Object] == [Object];
  }

  /** `[1[]`: the primitive takes the second bracket. */
  const INNER_BRACKET: seq<byte> := [LBRACKET, 0x31, LBRACKET, RBRACKET]

  /** It is accepted with two tokens and balanced, though it has one more opening bracket than closing ones. */
  lemma BracketInPrimitive(c: Context)
    requires c.js == INNER_BRACKET && |c.slots| >= 2
    ensures var list := Token(Array, 0, 4, 1, -1);
            Run(c, INIT) == (2, State(4, [list, Token(Primitive, 1, 3, 0, ParentLink(c.links, 0))], -1))
    ensures Balanced(c.js, 0, []) && NonePasses(c, INIT)
    ensures multiset(c.js)[LBRACKET] == 2 && multiset(c.js)[RBRACKET] == 1
  {
    InnerBracketRun(c);
    hide NonePasses, Run, Balanced;
    BalancedIffNonePasses(c, INIT);
    InnerBracketText(c.js);
  }

  lemma InnerBracketText(js: seq<byte>)
    requires js == INNER_BRACKET
    ensures Balanced(js, 0, [])
  {
    hide ScanString, ScanPrimitive;
    InnerBracketScan(js);
    assert Balanced(js, 4, []);
    assert [Array][..0] == [] && Balanced(js, 3, [Array]);
    assert Balanced(js, 1, [Array]);
    assert [] + [Array] == [Array];
  }

  lemma InnerBracketScan(js: seq<byte>)
    requires js == INNER_BRACKET
    ensures ScanPrimitive(js, 1) == Found(3)
  {
    assert ScanPrimitive(js, 3) == Found(3) && ScanPrimitive(js, 2) == Found(3);
  }

  lemma InnerBracketRun(c: Context)
    requires c.js == INNER_BRACKET && |c.slots| >= 2
    ensures var list := Token(Array, 0, 4, 1, -1);
            Run(c, INIT) == (2, State(4, [list, Token(Primitive, 1, 3, 0, ParentLink(c.links, 0))], -1))
  {
    hide Run, ScanPrimitive;
    InnerBracketScan(c.js);
    var list, one := Token(Array, 0, -1, 1, -1), Token(Primitive, 1, 3, 0, ParentLink(c.links, 0));
    var s1, s2 := State(1, [list.(size := 0)], 0), State(3, [list, one], 0);
    var s3 := State(4, [list.(end := 4), one], -1);
    assert Step(c, INIT) == More(s1) && Step(c, s1) == More(s2);
    assert LastOpen(s2.toks, 1) == 0 && LastOpen(s2.toks, 2) == 0;
    assert c.links ==> Climb(s2.toks, 1) == 0;
    assert Step(c, s2) == More(s3);
    assert LastOpen(s3.toks, 1) == -1 && LastOpen(s3.toks, 2) == -1;
    RunStep(c, INIT);
    RunStep(c, s1);
    RunStep(c, s2);
    RunEnds(c, s3);
  }
}
