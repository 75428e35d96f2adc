/**
 The two builds of jsmn compared. They agree on every JSON text. On a closing bracket both close the
 same container while one is open; when none is open the scanning build always rejects, the build
 with parent links not always. JsmnLockstep compares all other bytes and whole runs. The looseness of
 the closing bracket and of the colon lets a token be stored under a container that is already closed.
 */
module JsmnBuilds {
  import opened Bytes
  import opened Text
  import opened JsmnMachine
  import opened JsmnForest
  import opened JsonTree
  import opened JsmnRoundTrip

  /** On a JSON text the builds return the same value and the same type, span and size for every token. */
  lemma BuildsAgree(c: Context, d: Context, v: Value, lead: seq<byte>, trail: seq<byte>)
    requires WellFormed(v) && Blanks(lead) && Blanks(trail)
    requires c.js == lead + Print(v) + trail == d.js && |c.slots| >= Nodes(v) && |d.slots| >= Nodes(v)
    ensures var (r, a), (s, b) := Run(c, INIT), Run(d, INIT);
            && r == s && |a.toks| == |b.toks| && a.pos == b.pos && a.super == b.super
            && forall k | 0 <= k < |a.toks| :: Twins(a.toks[k], b.toks[k])
  {
    hide Run, Print, Sits, WellFormed, Blanks, Nodes;
    RoundTrip(c, v, lead, trail);
    RoundTrip(d, v, lead, trail);
    var a, b := Run(c, INIT).1, Run(d, INIT).1;
    if v.Prim? && trail == [] { return; }
    forall k | 0 <= k < |a.toks| ensures Twins(a.toks[k], b.toks[k]) {
      SitsUnique(c.links, d.links, a.toks, b.toks, v, |lead|, 0, -1, k);
    }
  }

  /** The same state and text in the scanning build. */
  function Scanning(c: Context): Context {
    c.(links := false)
  }

  /**
   A closing bracket in the two builds, from any state the linked build can reach: while a container
   is open both close it or both reject it, and then go on under its parent and under the next open
   token, which need not be the same; when none is open the scanning build rejects, and the linked
   build does so unless a superior token is set and the root above the last token has the bracket's
   type.
   */
  lemma ClosersCompared(c: Context, st: State)
    requires c.links && Forest(st) && st.pos < |c.js| && |st.toks| > 0
    ensures var a, b := OnClose(c, st), OnClose(Scanning(c), st);
            var root := Climb(st.toks, |st.toks| - 1);
            if LastOpen(st.toks, |st.toks|) != -1 then
              var o := LastOpen(st.toks, |st.toks|);
              && a.More? == b.More? == (st.toks[o].typ == TypeOf(c.js[st.pos]))
              && a.st.toks == b.st.toks && a.st.pos == b.st.pos
              && (a.More? ==> a.st.super == st.toks[o].parent && b.st.super == LastOpen(st.toks, o))
            else
              && b == Stop(ERROR_INVAL, st)
              && (a.More? <==> st.super != -1 && st.toks[root].typ == TypeOf(c.js[st.pos]))
  {
    CloserAgrees(st);
    hide Forest;
  }

  /** After an empty object and a colon the closed object is the superior token. */
  lemma EmptyObjectColon(c: Context)
    requires |c.js| > 3 && c.js[..3] == [LBRACE, RBRACE, COLON] && |c.slots| >= 1
    ensures Run(c, INIT) == Run(c, State(3, [Token(Object, 0, 2, 0, -1)], 0))
  {
    assert c.js[0] == c.js[..3][0] && c.js[1] == c.js[..3][1] && c.js[2] == c.js[..3][2];
    var s1 := State(1, [Token(Object, 0, -1, 0, -1)], 0);
    var s2 := State(2, [Token(Object, 0, 2, 0, -1)], -1);
    var s3 := State(3, [Token(Object, 0, 2, 0, -1)], 0);
    assert Step(c, INIT) == More(s1) && Step(c, s1) == More(s2) && Step(c, s2) == More(s3);
    assert Run(c, INIT) == Run(c, s1) == Run(c, s2) == Run(c, s3);
  }

  /** `{}:}`: the linked build accepts, the scanning build does not. */
  const STRAY_CLOSER: seq<byte> := [LBRACE, RBRACE, COLON, RBRACE]

  lemma StrayCloserSplitsBuilds(c: Context)
    requires c.js == STRAY_CLOSER && |c.slots| >= 1
    ensures Run(c, INIT).0 == if c.links then 1 else ERROR_INVAL
  {
    EmptyObjectColon(c);
  }

  /** `{}:"a"` is accepted, and its string is stored outside its parent. */
  const STRAY_CHILD: seq<byte> := [LBRACE, RBRACE, COLON, QUOTE, 0x61, QUOTE]

  lemma StrayChildIsAccepted(c: Context)
    requires c.js == STRAY_CHILD && |c.slots| >= 2 && c.links
    ensures Run(c, INIT) == (2, State(6, [Token(Object, 0, 2, 1, -1), Token(String, 4, 5, 0, 0)], 0))
  {
    EmptyObjectColon(c);
    var s3 := State(3, [Token(Object, 0, 2, 0, -1)], 0);
    assert ScanString(c.js, 5) == Found(5) && ScanString(c.js, 4) == Found(5);
    var s4 := State(6, [Token(Object, 0, 2, 1, -1), Token(String, 4, 5, 0, 0)], 0);
    assert Step(c, s3) == More(s4);
    assert Run(c, s4) == (2, s4);
    assert Run(c, s3) == Run(c, s4);
  }
}
