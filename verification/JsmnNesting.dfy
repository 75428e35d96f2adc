/**
 Where jsmn's spans nest, on any text. A token lies inside an earlier container exactly when that
 container was still open as the token was stored, and wholly behind it otherwise. So all tokens lie in
 the containers they descend from exactly when none is stored while a closed container is the superior
 token or stands above it; and only a colon behind a closed container lets one get there. Shown for the
 build with parent links.
 */
module JsmnNesting {
  import opened Bytes
  import opened Text
  import opened JsmnMachine
  import opened JsmnForest
  import opened JsmnRoundTrip
  import opened JsmnBuilds

  /** The tokens opened and not yet closed. */
  function OpenSet(toks: seq<Token>): set<nat> {
    set a: nat | a < |toks| && toks[a].end == -1
  }

  /** For every token of a run, in order of storing, the tokens that were open then. */
  function Opens(c: Context, st: State, opens: seq<set<nat>>): seq<set<nat>>
    requires Linked(st)
    decreases |c.js| - st.pos
  {
    if AtEnd(c.js, st.pos) || Step(c, st).Stop? then opens
    else Opens(c, Step(c, st).st, NextOpens(c, st, opens))
  }

  predicate Stores(c: Context, st: State)
    requires Linked(st) && !AtEnd(c.js, st.pos)
  {
    |Step(c, st).st.toks| > |st.toks|
  }

  function NextOpens(c: Context, st: State, opens: seq<set<nat>>): seq<set<nat>>
    requires Linked(st) && !AtEnd(c.js, st.pos)
  {
    if Stores(c, st) then opens + [OpenSet(st.toks)] else opens
  }

  predicate Within(t: Token, box: Token) {
    box.start <= t.start && t.end <= box.end
  }

  predicate Behind(t: Token, box: Token) {
    box.end <= t.start && box.end < t.end
  }

  /** So far: under an open container, inside one closed since, or behind one closed before. */
  predicate Placed(t: Token, box: Token, open: bool) {
    && box.start <= t.start
    && if open then box.end == -1 || (t.end != -1 && t.end <= box.end)
       else box.end != -1 && box.end <= t.start && (t.end == -1 || box.end < t.end)
  }

  ghost predicate Nested(toks: seq<Token>, opens: seq<set<nat>>) {
    && |opens| == |toks|
    && forall a, k | 0 <= a < k < |toks| && toks[a].Container() :: Placed(toks[k], toks[a], a in opens[k])
  }

  /** What was open when a token was stored stands above it. */
  ghost predicate Recorded(toks: seq<Token>, opens: seq<set<nat>>) {
    |opens| == |toks| && forall k, a | 0 <= k < |toks| && a in opens[k] :: Under(toks, a, k)
  }

  /** Every token lies inside every container above it. */
  ghost predicate AllNest(toks: seq<Token>) {
    forall a, k | 0 <= a < k < |toks| && toks[a].Container() && Under(toks, a, k) :: Within(toks[k], toks[a])
  }

  /** The guard on the colon: the last token is a closed container or lies in one. */
  ghost predicate StrayColon(c: Context, st: State)
    requires !AtEnd(c.js, st.pos)
  {
    c.js[st.pos] == COLON && !Clear(st.toks, |st.toks| - 1)
  }

  /** No closed container at `j` or above it. */
  ghost predicate Clear(toks: seq<Token>, j: int) {
    forall a | Under(toks, a, j) :: !(toks[a].Container() && toks[a].end != -1)
  }

  /** The guard on storing: no closed container is the superior token or stands above it. */
  ghost predicate Clean(st: State) {
    Clear(st.toks, st.super)
  }

  // ----- nesting, turn by turn -----

  lemma AppendNested(toks: seq<Token>, super: int, t: Token, opens: seq<set<nat>>, pos: nat)
    requires Nested(toks, opens) && -1 <= super < |toks|
    requires forall k | 0 <= k < |toks| :: Spanned(toks[k], pos)
    requires pos <= t.start && (t.end == -1 || pos < t.end)
    ensures Nested(Bump(toks, super, 1) + [t], opens + [OpenSet(toks)])
  {
    var now, after := Bump(toks, super, 1) + [t], opens + [OpenSet(toks)];
    hide Spanned;
    forall a, k | 0 <= a < k < |now| && now[a].Container() ensures Placed(now[k], now[a], a in after[k]) {
      if k < |toks| {
        assert Placed(toks[k], toks[a], a in opens[k]);
      } else {
        SpanOf(toks[a], pos);
      }
    }
  }

  lemma SpanOf(t: Token, pos: nat)
    requires Spanned(t, pos)
    ensures 0 <= t.start <= pos && (t.end == -1 || t.start <= t.end <= pos)
  {
  }

  lemma ShutNested(st: State, i: nat, opens: seq<set<nat>>)
    requires Forest(st) && Nested(st.toks, opens)
    requires i < |st.toks| && i == LastOpen(st.toks, |st.toks|)
    ensures Nested(st.toks[i := st.toks[i].(end := st.pos + 1)], opens)
  {
    var now := st.toks[i := st.toks[i].(end := st.pos + 1)];
    forall a, k | 0 <= a < k < |now| && now[a].Container() ensures Placed(now[k], now[a], a in opens[k]) {
      assert Placed(st.toks[k], st.toks[a], a in opens[k]);
      SpanOf(st.toks[k], st.pos);
      assert k > i ==> !st.toks[k].Open();
    }
  }

  /** Every turn, on any text, keeps every token inside or behind every container before it, as recorded. */
  lemma StepNested(c: Context, st: State, opens: seq<set<nat>>)
    requires c.links && Forest(st) && !AtEnd(c.js, st.pos) && Step(c, st).More? && Nested(st.toks, opens)
    ensures Nested(Step(c, st).st.toks, NextOpens(c, st, opens))
  {
    hide Preorder, Sized, Under, Spanned, Nested, OpenSet;
    var b, next := c.js[st.pos], Step(c, st).st;
    if b == LBRACE || b == LBRACKET {
      AppendNested(st.toks, st.super, next.toks[|st.toks|], opens, st.pos);
    } else if b == RBRACE || b == RBRACKET {
      CloserAgrees(st);
      var i := Climb(st.toks, |st.toks| - 1);
      if st.toks[i].Open() { ShutNested(st, i, opens); }
    } else if b == QUOTE {
      AppendNested(st.toks, st.super, next.toks[|st.toks|], opens, st.pos);
    } else if PrimitiveStart(b) && !Blank(b) && b != COLON && b != COMMA {
      PrimitiveAdvances(c.js, st.pos);
      AppendNested(st.toks, st.super, next.toks[|st.toks|], opens, st.pos);
    }
  }

  lemma PrimitiveAdvances(js: seq<byte>, p: nat)
    requires !AtEnd(js, p) && PrimitiveStart(js[p])
    ensures ScanPrimitive(js, p).Found? ==> ScanPrimitive(js, p).at > p
  {
  }

  lemma StepKeepsKinds(c: Context, st: State)
    requires Linked(st) && !AtEnd(c.js, st.pos) && Step(c, st).More?
    ensures |st.toks| <= |Step(c, st).st.toks| <= |st.toks| + 1
    ensures forall k | 0 <= k < |st.toks| ::
              var t := Step(c, st).st.toks[k]; t.parent == st.toks[k].parent && t.typ == st.toks[k].typ
  {
  }

  lemma StoredUnderSuper(c: Context, st: State)
    requires c.links && Linked(st) && !AtEnd(c.js, st.pos) && Step(c, st).More? && Stores(c, st)
    ensures var next := Step(c, st).st.toks;
            |next| == |st.toks| + 1 && next == Bump(st.toks, st.super, 1) + [next[|st.toks|]]
            && next[|st.toks|].parent == st.super
  {
  }

  lemma UnderPrefix(s: seq<Token>, t: seq<Token>, a: int, k: nat)
    requires k < |s| <= |t| && forall i | 0 <= i < |s| :: s[i].parent == t[i].parent
    ensures Under(s, a, k) <==> Under(t, a, k)
  {
  }

  /** The last token of a turn that stores one: what stands above it, and what was open. */
  lemma StoredAbove(c: Context, st: State)
    requires c.links && Forest(st) && !AtEnd(c.js, st.pos) && Step(c, st).More? && Stores(c, st)
    ensures var next := Step(c, st).st.toks;
            && |next| == |st.toks| + 1
            && (forall a | 0 <= a < |st.toks| :: Under(next, a, |st.toks|) <==> Under(st.toks, a, st.super))
            && (forall a | a in OpenSet(st.toks) :: Under(st.toks, a, st.super))
  {
    StoredUnderSuper(c, st);
    var t := Step(c, st).st.toks[|st.toks|];
    ClearAppend(st.toks, st.super, t);
    forall a | a in OpenSet(st.toks) ensures Under(st.toks, a, st.super) {
      SpanOf(st.toks[a], st.pos);
      assert st.toks[a].Open();
    }
  }

  lemma StepRecorded(c: Context, st: State, opens: seq<set<nat>>)
    requires c.links && Forest(st) && !AtEnd(c.js, st.pos) && Step(c, st).More? && Recorded(st.toks, opens)
    ensures Recorded(Step(c, st).st.toks, NextOpens(c, st, opens))
  {
    ForestLinked(st);
    StepKeepsKinds(c, st);
    var next, after := Step(c, st).st.toks, NextOpens(c, st, opens);
    if Stores(c, st) { StoredAbove(c, st); }
    hide Step, Forest, Under, OpenSet;
    forall k, a | 0 <= k < |next| && a in after[k] ensures Under(next, a, k) {
      if k < |st.toks| {
        UnderPrefix(st.toks, next, a, k);
      } else {
        InBounds(st.toks, a);
      }
    }
  }

  lemma InBounds(toks: seq<Token>, a: nat)
    ensures a in OpenSet(toks) ==> a < |toks|
  {
  }

  lemma {:induction false} RunNested(c: Context, st: State, opens: seq<set<nat>>)
    requires c.links && Forest(st) && Nested(st.toks, opens) && Recorded(st.toks, opens)
    ensures var (r, last) := Run(c, st);
            r >= 0 ==>
              && Forest(last) && Nested(last.toks, Opens(c, st, opens))
              && Recorded(last.toks, Opens(c, st, opens))
    decreases |c.js| - st.pos
  {
    ForestLinked(st);
    hide Step, Forest, Nested, Recorded;
    if !AtEnd(c.js, st.pos) && Step(c, st).More? {
      StepKeepsForest(c, st);
      StepNested(c, st, opens);
      StepRecorded(c, st, opens);
      ForestLinked(Step(c, st).st);
      RunNested(c, Step(c, st).st, NextOpens(c, st, opens));
    }
  }

  lemma ForestLinked(st: State)
    requires Forest(st)
    ensures Linked(st)
  {
  }

  lemma AllClosed(st: State)
    requires Forest(st) && LastOpen(st.toks, |st.toks|) == -1
    ensures Preorder(st.toks) && forall k | 0 <= k < |st.toks| :: st.toks[k].end != -1
  {
    forall k | 0 <= k < |st.toks| ensures st.toks[k].end != -1 {
      SpanOf(st.toks[k], st.pos);
      assert !st.toks[k].Open();
    }
  }

  lemma FinallyPlaced(t: Token, box: Token, open: bool)
    requires Placed(t, box, open) && t.end != -1 && box.end != -1
    ensures (Within(t, box) <==> open) && (Behind(t, box) <==> !open)
  {
  }

  /** What every pair of an earlier container and a later token shows in the end. */
  ghost predicate Settled(toks: seq<Token>, opens: seq<set<nat>>) {
    && |opens| == |toks| && Preorder(toks)
    && forall a, k | 0 <= a < k < |toks| && toks[a].Container() ::
         && (Within(toks[k], toks[a]) <==> a in opens[k])
         && (Behind(toks[k], toks[a]) <==> a !in opens[k])
         && (Within(toks[k], toks[a]) ==> Descends(toks, a, k))
  }

  lemma NestedSettles(st: State, opens: seq<set<nat>>)
    requires Forest(st) && LastOpen(st.toks, |st.toks|) == -1 && Nested(st.toks, opens) && Recorded(st.toks, opens)
    ensures Settled(st.toks, opens)
  {
    AllClosed(st);
    hide Forest, Preorder, Under, Descends, LastOpen, Within, Behind, Placed;
    forall a, k | 0 <= a < k < |st.toks| && st.toks[a].Container()
      ensures var t, box := st.toks[k], st.toks[a];
              && (Within(t, box) <==> a in opens[k]) && (Behind(t, box) <==> a !in opens[k])
              && (Within(t, box) ==> Descends(st.toks, a, k))
    {
      FinallyPlaced(st.toks[k], st.toks[a], a in opens[k]);
      UnderIsDescends(st.toks, a, k);
    }
  }

  /**
   In the finished array of every accepted text a token lies inside an earlier container if and only if
   that container was open when the token was stored, and wholly behind it otherwise; and what it lies
   inside of it descends from.
   */
  lemma NestsIffStoredOpen(c: Context)
    requires c.links
    ensures var (r, last) := Run(c, INIT); r >= 0 ==> r == |last.toks| && Settled(last.toks, Opens(c, INIT, []))
  {
    RunNested(c, INIT, []);
    hide Run, Opens, Forest, Nested, Recorded, Settled;
    var (r, last) := Run(c, INIT);
    if r >= 0 { NestedSettles(last, Opens(c, INIT, [])); }
  }

  // ----- what lets a token fall behind a container above it -----

  lemma ClearAppend(toks: seq<Token>, super: int, t: Token)
    requires Preorder(toks) && (super == -1 || Under(toks, super, |toks| - 1)) && t.parent == super
    requires -1 <= super < |toks|
    ensures var now := Bump(toks, super, 1) + [t];
            && (Clear(now, super) <==> Clear(toks, super))
            && (t.end == -1 ==> (Clear(now, |toks|) <==> Clear(toks, super)))
            && forall a | 0 <= a < |toks| :: Under(now, a, |toks|) <==> Under(toks, a, super)
  {
    var now := Bump(toks, super, 1) + [t];
    assert forall k | 0 <= k < |toks| ::
        now[k].parent == toks[k].parent && now[k].end == toks[k].end && now[k].typ == toks[k].typ;
    forall a ensures Under(now, a, super) <==> Under(toks, a, super) {
    }
    AppendPreorder(toks, super, t);
    forall a | Under(now, a, |toks|) && a < |toks| ensures Under(toks, a, super) {
      assert now[|toks|].parent >= a;
    }
  }

  lemma UnderSame(s: seq<Token>, t: seq<Token>, a: int, j: int)
    requires |s| == |t| && forall k | 0 <= k < |s| :: s[k].parent == t[k].parent
    ensures Under(s, a, j) <==> Under(t, a, j)
  {
  }

  lemma UnderChild(toks: seq<Token>, a: int, i: nat)
    requires Preorder(toks) && i < |toks| && Under(toks, a, toks[i].parent)
    ensures Under(toks, a, i)
  {
    assert Under(toks, toks[i].parent, i - 1);
  }

  lemma UnderThrough(toks: seq<Token>, a: int, i: int, j: int)
    requires Under(toks, a, i) && Under(toks, i, j)
    ensures Under(toks, a, j)
  {
  }

  /** Closing a token leaves clear what lies above its parent. */
  lemma ClearShut(st: State, i: nat, end: nat)
    requires Forest(st) && i < |st.toks| && st.toks[i].Open()
    ensures var now := st.toks[i := st.toks[i].(end := end)];
            Clear(st.toks, st.super) ==> Clear(now, st.toks[i].parent)
  {
    var now, p := st.toks[i := st.toks[i].(end := end)], st.toks[i].parent;
    assert Under(st.toks, i, st.super) && p < i && Preorder(st.toks);
    if Clear(st.toks, st.super) {
      forall a | Under(now, a, p) ensures !(now[a].Container() && now[a].end != -1) {
        UnderSame(st.toks, now, a, p);
        assert a <= p;
        hide Under, Preorder, Forest;
        UnderChild(st.toks, a, i);
        UnderThrough(st.toks, a, i, st.super);
      }
    }
  }

  lemma ClearParent(st: State)
    requires Forest(st) && st.super != -1
    ensures Clear(st.toks, st.super) ==> Clear(st.toks, st.toks[st.super].parent)
  {
    var p := st.toks[st.super].parent;
    if Clear(st.toks, st.super) && p != -1 {
      assert Under(st.toks, p, st.super - 1);
      forall a | Under(st.toks, a, p) ensures !(st.toks[a].Container() && st.toks[a].end != -1) {
        assert Under(st.toks, a, st.super);
      }
    }
  }

  /** As long as no closed container stands above the superior token, only a stray colon can put one there. */
  lemma StepClean(c: Context, st: State)
    requires c.links && Forest(st) && Clean(st) && !AtEnd(c.js, st.pos) && Step(c, st).More?
    ensures Clean(Step(c, st).st) <==> !StrayColon(c, st)
  {
    hide Preorder, Sized, Under, Spanned, Clear;
    var b, next := c.js[st.pos], Step(c, st).st;
    if b == LBRACE || b == LBRACKET {
      ClearAppend(st.toks, st.super, next.toks[|st.toks|]);
    } else if b == RBRACE || b == RBRACKET {
      var i := Climb(st.toks, |st.toks| - 1);
      if st.toks[i].Open() { ClearShut(st, i, st.pos + 1); }
    } else if b == QUOTE {
      ClearAppend(st.toks, st.super, next.toks[|st.toks|]);
    } else if b == COMMA {
      if st.super != -1 { ClearParent(st); }
    } else if PrimitiveStart(b) {
      ClearAppend(st.toks, st.super, next.toks[|st.toks|]);
    }
  }

  /** No token of the run is stored while a closed container is the superior token or above it. */
  ghost predicate StoresClean(c: Context, st: State)
    requires Linked(st)
    decreases |c.js| - st.pos
  {
    AtEnd(c.js, st.pos) ||
    ((Stores(c, st) && Step(c, st).More? ==> Clean(st)) && (Step(c, st).More? ==> StoresClean(c, Step(c, st).st)))
  }

  /** No turn of the run is a stray colon. */
  ghost predicate NoStrayColon(c: Context, st: State)
    requires Linked(st)
    decreases |c.js| - st.pos
  {
    AtEnd(c.js, st.pos) || (!StrayColon(c, st) && (Step(c, st).More? ==> NoStrayColon(c, Step(c, st).st)))
  }

  /** Every container above a token was open when the token was stored. */
  ghost predicate AllOpen(toks: seq<Token>, opens: seq<set<nat>>) {
    && |opens| == |toks|
    && forall a, k | 0 <= a < k < |toks| && toks[a].Container() && Under(toks, a, k) :: a in opens[k]
  }

  lemma CleanMeansOpen(st: State)
    requires Forest(st)
    ensures Clean(st) <==>
            forall a | 0 <= a < |st.toks| && st.toks[a].Container() && Under(st.toks, a, st.super) ::
              a in OpenSet(st.toks)
  {
    hide Preorder, Sized, Spanned;
  }

  /** A turn keeps it so if and only if it stores nothing, or stores it while clean. */
  lemma StepOpen(c: Context, st: State, opens: seq<set<nat>>)
    requires c.links && Forest(st) && !AtEnd(c.js, st.pos) && Step(c, st).More? && |opens| == |st.toks|
    ensures AllOpen(Step(c, st).st.toks, NextOpens(c, st, opens)) <==>
            AllOpen(st.toks, opens) && (Stores(c, st) ==> Clean(st))
  {
    ForestLinked(st);
    StepKeepsKinds(c, st);
    if Stores(c, st) { StoredAbove(c, st); }
    CleanMeansOpen(st);
    hide Step, Forest, Clean, OpenSet, Linked;
    OpenGrows(st.toks, Step(c, st).st.toks, opens, NextOpens(c, st, opens));
  }

  lemma OpenGrows(toks: seq<Token>, next: seq<Token>, opens: seq<set<nat>>, after: seq<set<nat>>)
    requires |opens| == |toks| <= |next| == |after| && opens <= after
    requires forall k | 0 <= k < |toks| :: next[k].parent == toks[k].parent && next[k].typ == toks[k].typ
    requires |next| <= |toks| + 1
    ensures AllOpen(next, after) <==>
            AllOpen(toks, opens) &&
            (|next| > |toks| ==>
               forall a | 0 <= a < |toks| && toks[a].Container() && Under(next, a, |toks|) :: a in after[|toks|])
  {
    forall a, k | 0 <= k < |toks| ensures Under(toks, a, k) <==> Under(next, a, k) {
      UnderPrefix(toks, next, a, k);
    }
    hide Under;
    assert forall k | 0 <= k < |toks| :: opens[k] == after[k] && toks[k].Container() == next[k].Container();
  }

  lemma {:induction false} RunOpen(c: Context, st: State, opens: seq<set<nat>>)
    requires c.links && Forest(st) && |opens| == |st.toks|
    ensures Linked(st)
    ensures Run(c, st).0 >= 0 ==>
              (AllOpen(Run(c, st).1.toks, Opens(c, st, opens)) <==> AllOpen(st.toks, opens) && StoresClean(c, st))
    decreases |c.js| - st.pos
  {
    ForestLinked(st);
    hide Forest, AllOpen, Clean;
    if !AtEnd(c.js, st.pos) && Step(c, st).More? {
      StepKeepsForest(c, st);
      StepOpen(c, st, opens);
      StepKeepsKinds(c, st);
      hide Step;
      RunOpen(c, Step(c, st).st, NextOpens(c, st, opens));
    }
  }

  /**
   In the finished array of every accepted text all tokens lie inside all containers they descend from
   if and only if no token was stored while a closed container was the superior token or above it.
   */
  lemma NestsIffStoredClean(c: Context)
    requires c.links
    ensures var (r, last) := Run(c, INIT); r >= 0 ==> (AllNest(last.toks) <==> StoresClean(c, INIT))
  {
    NestsIffStoredOpen(c);
    RunOpen(c, INIT, []);
    hide Run, Opens, StoresClean, AllNest, AllOpen, Settled;
    var (r, last) := Run(c, INIT);
    if r >= 0 {
      NestIffOpen(last.toks, Opens(c, INIT, []));
      assert AllOpen([], []) by { EmptyOpen(); }
    }
  }

  lemma EmptyOpen()
    ensures AllOpen([], [])
  {
  }

  lemma NestIffOpen(toks: seq<Token>, opens: seq<set<nat>>)
    requires Settled(toks, opens)
    ensures AllNest(toks) <==> AllOpen(toks, opens)
  {
    hide Within, Behind, Under, Preorder, Descends;
    if AllOpen(toks, opens) {
      forall a, k | 0 <= a < k < |toks| && toks[a].Container() && Under(toks, a, k) ensures Within(toks[k], toks[a]) {
      }
    }
    if AllNest(toks) {
      forall a, k | 0 <= a < k < |toks| && toks[a].Container() && Under(toks, a, k) ensures a in opens[k] {
      }
    }
  }

  lemma {:induction false} NoColonStoresClean(c: Context, st: State)
    requires c.links && Forest(st) && Clean(st)
    ensures Linked(st) && (NoStrayColon(c, st) ==> StoresClean(c, st))
    decreases |c.js| - st.pos
  {
    ForestLinked(st);
    hide Step, Forest, Clean, StrayColon;
    if !AtEnd(c.js, st.pos) && Step(c, st).More? && !StrayColon(c, st) {
      StepKeepsForest(c, st);
      StepClean(c, st);
      NoColonStoresClean(c, Step(c, st).st);
    }
  }

  /**
   Only a colon behind a closed container breaks the nesting: in every accepted text without one, a
   token lies inside an earlier container if and only if it descends from it.
   */
  lemma NestsWithoutStrayColon(c: Context)
    requires c.links && NoStrayColon(c, INIT)
    ensures var (r, last) := Run(c, INIT);
            r >= 0 ==>
              && Preorder(last.toks) && AllNest(last.toks)
              && forall a, k | 0 <= a < k < r && last.toks[a].Container() ::
                   Within(last.toks[k], last.toks[a]) <==> Descends(last.toks, a, k)
  {
    NoColonStoresClean(c, INIT);
    NestsIffStoredClean(c);
    NestsIffStoredOpen(c);
    hide Run, Opens, StoresClean, NoStrayColon, AllNest, Settled;
    var (r, last) := Run(c, INIT);
    if r >= 0 { WithinIsDescent(last.toks, Opens(c, INIT, [])); }
  }

  lemma WithinIsDescent(toks: seq<Token>, opens: seq<set<nat>>)
    requires Settled(toks, opens) && AllNest(toks)
    ensures Preorder(toks)
    ensures forall a, k | 0 <= a < k < |toks| && toks[a].Container() ::
              Within(toks[k], toks[a]) <==> Descends(toks, a, k)
  {
    forall a, k | 0 <= a < k < |toks| && toks[a].Container()
      ensures Within(toks[k], toks[a]) <==> Descends(toks, a, k)
    {
      UnderIsDescends(toks, a, k);
      hide Descends, Under, Preorder, Within, Behind;
    }
  }

  /** `{}:"a"` is accepted with a stray colon, and its string lies behind its parent. */
  lemma StrayColonBreaksNesting(c: Context)
    requires c.links && c.js == STRAY_CHILD && |c.slots| >= 2
    ensures !NoStrayColon(c, INIT)
    ensures var (r, last) := Run(c, INIT); r == 2 && Behind(last.toks[1], last.toks[0]) && last.toks[1].parent == 0
  {
    StrayChildIsAccepted(c);
    var last := Run(c, INIT).1;
    assert Under(last.toks, 0, 1) && last.toks[0].Container() && !Within(last.toks[1], last.toks[0]);
    if NoStrayColon(c, INIT) {
      NestsWithoutStrayColon(c);
    }
  }

  /** `{"a"}:1 `: the colon reaches back to a name in a closed object. */
  const LATE_VALUE: seq<byte> := [LBRACE, QUOTE, 0x61, QUOTE, RBRACE, COLON, 0x31, SPACE]

  function LateTokens(): seq<Token> {
    [Token(Object, 0, 5, 1, -1), Token(String, 2, 3, 1, 0), Token(Primitive, 6, 7, 0, 1)]
  }

  lemma LateValueOpens(c: Context)
    requires c.links && c.js == LATE_VALUE && |c.slots| >= 3
    ensures var s3 := State(5, [LateTokens()[0], LateTokens()[1].(size := 0)], -1);
            Linked(s3) && Run(c, INIT) == Run(c, s3)
  {
    hide Run, OnPrimitive, OnComma, LastOpen, LastOpenContainer, HexDigits, EscapeLetter;
    var box, name := LateTokens()[0], LateTokens()[1].(size := 0);
    var s1 := State(1, [box.(end := -1, size := 0)], 0);
    var s2 := State(4, [box.(end := -1), name], 0);
    var s3 := State(5, [box, name], -1);
    assert Step(c, INIT) == More(s1);
    assert Step(c, s1) == More(s2) by {
      assert ScanString(c.js, 3) == Found(3) && ScanString(c.js, 2) == Found(3);
    }
    assert Climb(s2.toks, 1) == 0;
    assert Step(c, s2) == More(s3);
    hide Step, ScanString;
    RunStep(c, INIT);
    RunStep(c, s1);
    RunStep(c, s2);
  }

  /** It is accepted, every token lies in its container parent, and yet the value lies behind the object above it. */
  lemma LateValueFallsBehind(c: Context)
    requires c.links && c.js == LATE_VALUE && |c.slots| >= 3
    ensures Run(c, INIT) == (3, State(8, LateTokens(), 1))
    ensures var t := LateTokens(); Within(t[1], t[0]) && Behind(t[2], t[0]) && t[2].parent == 1 && t[1].parent == 0
  {
    hide Run, OnOpen, OnClose, OnString, OnComma;
    LateValueOpens(c);
    var box, name := LateTokens()[0], LateTokens()[1].(size := 0);
    var s3 := State(5, [box, name], -1);
    var s4, s5 := s3.(pos := 6, super := 1), State(7, LateTokens(), 1);
    var s6 := s5.(pos := 8);
    assert Step(c, s3) == More(s4);
    assert Step(c, s4) == More(s5) by {
      assert ScanPrimitive(c.js, 7) == Found(7) && ScanPrimitive(c.js, 6) == Found(7);
    }
    assert Step(c, s5) == More(s6);
    assert LastOpen(s6.toks, 1) == -1 && LastOpen(s6.toks, 2) == -1 && LastOpen(s6.toks, 3) == -1;
    hide Step, ScanPrimitive;
    RunStep(c, s3);
    RunStep(c, s4);
    RunStep(c, s5);
    RunEnds(c, s6);
  }
}
