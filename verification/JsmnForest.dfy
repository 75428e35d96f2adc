/**
 The layout of the token array, for every input, well formed or not. The parent links form a forest
 in preorder, sizes count children, and every open container lies on the path from the superior
 token up. Shown for the build with parent links at every head of the main loop.
 */
module JsmnForest {
  import opened Bytes
  import opened Text
  import opened JsmnMachine

  /** `j` is `a` or a descendant of `a`: following parent links from `j` meets `a`. */
  ghost predicate Descends(toks: seq<Token>, a: nat, j: nat)
    requires j < |toks| && forall k | 0 <= k < |toks| :: -1 <= toks[k].parent < k
  {
    a == j || (toks[j].parent >= 0 && Descends(toks, a, toks[j].parent))
  }

  /** No token after `a`, up to `j`, has a parent below `a`. In preorder this is Descends. */
  ghost predicate Under(toks: seq<Token>, a: int, j: int) {
    0 <= a <= j < |toks| && forall k | a < k <= j :: toks[k].parent >= a
  }

  ghost predicate Preorder(toks: seq<Token>) {
    && (forall k | 0 <= k < |toks| :: -1 <= toks[k].parent < k)
    && forall k | 0 <= k < |toks| :: toks[k].parent == -1 || Under(toks, toks[k].parent, k - 1)
  }

  /** How many of the first `n` tokens name `a` as their parent. */
  ghost function Kids(toks: seq<Token>, a: int, n: nat): nat
    requires n <= |toks|
  {
    if n == 0 then 0 else Kids(toks, a, n - 1) + if toks[n - 1].parent == a then 1 else 0
  }

  ghost predicate Sized(toks: seq<Token>) {
    forall k | 0 <= k < |toks| :: toks[k].size == Kids(toks, k, |toks|)
  }

  /** A token lies in the text read so far; an open one is a container. */
  ghost predicate Spanned(t: Token, pos: nat) {
    0 <= t.start <= pos && if t.end == -1 then t.Container() else t.start <= t.end <= pos
  }

  ghost predicate Forest(st: State) {
    && Linked(st)
    && Preorder(st.toks)
    && Sized(st.toks)
    && (st.super == -1 || Under(st.toks, st.super, |st.toks| - 1))
    && (forall o | 0 <= o < |st.toks| && st.toks[o].Open() :: Under(st.toks, o, st.super))
    && (forall k | 0 <= k < |st.toks| :: Spanned(st.toks[k], st.pos))
  }

  /** In a preorder array the interval form of descent is the real one. */
  lemma {:induction false} UnderIsDescends(toks: seq<Token>, a: nat, j: nat)
    requires Preorder(toks) && j < |toks|
    ensures Descends(toks, a, j) <==> Under(toks, a, j)
    decreases j
  {
    var p := toks[j].parent;
    if a != j && p >= 0 {
      UnderIsDescends(toks, a, p);
      assert Under(toks, p, j - 1);
    }
  }

  lemma {:induction false} KidsSame(s: seq<Token>, t: seq<Token>, a: int, n: nat)
    requires n <= |s| && n <= |t| && forall k | 0 <= k < n :: s[k].parent == t[k].parent
    ensures Kids(s, a, n) == Kids(t, a, n)
  {
    if n != 0 {
      KidsSame(s, t, a, n - 1);
    }
  }

  lemma {:induction false} NoKids(toks: seq<Token>, a: int, n: nat)
    requires n <= |toks| && forall k | 0 <= k < n :: toks[k].parent != a
    ensures Kids(toks, a, n) == 0
  {
    if n != 0 {
      NoKids(toks, a, n - 1);
    }
  }

  /** The walk along the parent links ends at the last open token, if any token is open. */
  lemma {:induction false} ClimbFindsLastOpen(st: State, i: nat)
    requires Forest(st) && i < |st.toks|
    requires forall o | 0 <= o < |st.toks| && st.toks[o].Open() :: Under(st.toks, o, i)
    ensures var r := Climb(st.toks, i);
            if st.toks[r].Open() then r == LastOpen(st.toks, |st.toks|)
            else LastOpen(st.toks, |st.toks|) == -1
    decreases i
  {
    var p := st.toks[i].parent;
    if !st.toks[i].Open() && p != -1 {
      forall o | 0 <= o < |st.toks| && st.toks[o].Open() ensures Under(st.toks, o, p) {
        assert Under(st.toks, o, i) && o < i;
      }
      ClimbFindsLastOpen(st, p);
    }
  }

  lemma OpenAboveLast(st: State)
    requires Forest(st) && |st.toks| > 0
    ensures forall o | 0 <= o < |st.toks| && st.toks[o].Open() :: Under(st.toks, o, |st.toks| - 1)
  {
    forall o | 0 <= o < |st.toks| && st.toks[o].Open() ensures Under(st.toks, o, |st.toks| - 1) {
      assert Under(st.toks, o, st.super) && Under(st.toks, st.super, |st.toks| - 1);
    }
  }

  /** For a closing bracket the two builds pick the same token, on every input. */
  lemma CloserAgrees(st: State)
    requires Forest(st) && |st.toks| > 0
    ensures var r := Climb(st.toks, |st.toks| - 1);
            if st.toks[r].Open() then r == LastOpen(st.toks, |st.toks|)
            else LastOpen(st.toks, |st.toks|) == -1
  {
    OpenAboveLast(st);
    ClimbFindsLastOpen(st, |st.toks| - 1);
  }

  /** A new token under the superior one goes on in preorder. */
  lemma AppendPreorder(toks: seq<Token>, super: int, t: Token)
    requires Preorder(toks) && (super == -1 || Under(toks, super, |toks| - 1)) && t.parent == super
    ensures var now := Bump(toks, super, 1) + [t];
            Preorder(now) && forall a | Under(toks, a, super) :: Under(now, a, |toks|)
  {
    var now := Bump(toks, super, 1) + [t];
    assert forall k | 0 <= k < |toks| :: now[k].parent == toks[k].parent;
    forall k | 0 <= k < |now| ensures now[k].parent == -1 || Under(now, now[k].parent, k - 1) {
      if k < |toks| {
        assert toks[k].parent == -1 || Under(toks, toks[k].parent, k - 1);
      }
    }
    forall a | Under(toks, a, super) ensures Under(now, a, |toks|) {
      assert Under(toks, super, |toks| - 1);
    }
  }

  /** If the superior token's size is raised with it, the sizes stay the numbers of children. */
  lemma AppendSized(toks: seq<Token>, super: int, t: Token)
    requires Sized(toks) && -1 <= super < |toks| && t.parent == super && t.size == 0
    requires forall k | 0 <= k < |toks| :: toks[k].parent < |toks|
    ensures Sized(Bump(toks, super, 1) + [t])
  {
    var now := Bump(toks, super, 1) + [t];
    forall k | 0 <= k < |now| ensures now[k].size == Kids(now, k, |now|) {
      KidsSame(toks, now, k, |toks|);
      if k == |toks| {
        NoKids(toks, k, |toks|);
      }
    }
  }

  lemma AppendKeeps(toks: seq<Token>, super: int, t: Token)
    requires Preorder(toks) && Sized(toks)
    requires super == -1 || Under(toks, super, |toks| - 1)
    requires t.parent == super && t.size == 0
    ensures var now := Bump(toks, super, 1) + [t];
            && Preorder(now) && Sized(now)
            && (forall a | Under(toks, a, super) :: Under(now, a, |toks|))
  {
    assert forall k | 0 <= k < |toks| :: toks[k].parent < |toks|;
    assert -1 <= super < |toks|;
    hide Preorder, Sized, Under;
    AppendPreorder(toks, super, t);
    AppendSized(toks, super, t);
  }

  lemma OpenKeepsForest(c: Context, st: State)
    requires c.links && Forest(st) && st.pos < |c.js| && OnOpen(c, st).More?
    ensures Forest(OnOpen(c, st).st)
  {
    var next := OnOpen(c, st).st;
    var t := next.toks[|st.toks|];
    AppendKeeps(st.toks, st.super, t);
    forall o | 0 <= o < |next.toks| && next.toks[o].Open() ensures Under(next.toks, o, next.super) {
      if o < |st.toks| {
        assert st.toks[o].Open() && Under(st.toks, o, st.super);
      }
    }
  }

  lemma PlaceKeepsForest(c: Context, st: State, typ: Type, start: nat, end: nat, pos: nat)
    requires c.links && Forest(st) && start <= end <= pos && st.pos <= pos
    requires Place(c, st, typ, start, end, pos).More?
    ensures Forest(Place(c, st, typ, start, end, pos).st)
  {
    var next := Place(c, st, typ, start, end, pos).st;
    AppendKeeps(st.toks, st.super, next.toks[|st.toks|]);
    assert st.super != -1 ==> Under(next.toks, st.super, |st.toks|) by {
      assert st.super != -1 ==> Under(st.toks, st.super, st.super);
    }
    forall o | 0 <= o < |next.toks| && next.toks[o].Open() ensures Under(next.toks, o, next.super) {
      assert st.toks[o].Open() && Under(st.toks, o, st.super);
    }
  }

  /** Changing types and spans only leaves the layout alone. */
  lemma RetouchKeeps(s: seq<Token>, t: seq<Token>)
    requires |s| == |t| && Preorder(s) && Sized(s)
    requires forall k | 0 <= k < |s| :: s[k].parent == t[k].parent && s[k].size == t[k].size
    ensures Preorder(t) && Sized(t)
    ensures forall a, j | Under(s, a, j) :: Under(t, a, j)
  {
    assert forall a, j | Under(s, a, j) :: Under(t, a, j);
    forall k | 0 <= k < |t| ensures t[k].size == Kids(t, k, |t|) {
      KidsSame(s, t, k, |s|);
    }
    forall k | 0 <= k < |t| ensures t[k].parent == -1 || Under(t, t[k].parent, k - 1) {
      assert s[k].parent == -1 || Under(s, s[k].parent, k - 1);
    }
  }

  /** Closing the last open token moves the superior token to its parent. */
  lemma ShutKeepsForest(st: State, i: nat, end: nat)
    requires Forest(st) && i < |st.toks| && i == LastOpen(st.toks, |st.toks|) && end > st.pos
    ensures Forest(State(end, st.toks[i := st.toks[i].(end := end)], st.toks[i].parent))
  {
    var toks := st.toks[i := st.toks[i].(end := end)];
    RetouchKeeps(st.toks, toks);
    OpenAboveLast(st);
    var p := st.toks[i].parent;
    assert Under(st.toks, i, |st.toks| - 1);
    assert p != -1 ==> Under(st.toks, p, i - 1);
    assert p != -1 ==> Under(st.toks, p, |st.toks| - 1);
    forall o | 0 <= o < |toks| && toks[o].Open() ensures Under(toks, o, p) {
      assert st.toks[o].Open() && Under(st.toks, o, |st.toks| - 1) && o < i;
      assert Under(st.toks, o, p);
    }
  }

  /** Moving `pos` on, and `super` possibly to the last token, keeps the layout. */
  lemma MoveKeepsForest(st: State, pos: nat, super: int)
    requires Forest(st) && st.pos <= pos && (super == st.super || super == |st.toks| - 1)
    ensures Forest(State(pos, st.toks, super))
  {
    if super == |st.toks| - 1 >= 0 {
      OpenAboveLast(st);
    }
  }

  lemma CloseKeepsForest(c: Context, st: State)
    requires c.links && Forest(st) && st.pos < |c.js| && OnClose(c, st).More?
    ensures Forest(OnClose(c, st).st)
  {
    var i := Climb(st.toks, |st.toks| - 1);
    if st.toks[i].Open() {
      CloserAgrees(st);
      ShutKeepsForest(st, i, st.pos + 1);
      assert OnClose(c, st).st == State(st.pos + 1, st.toks[i := st.toks[i].(end := st.pos + 1)], st.toks[i].parent);
    } else {
      MoveKeepsForest(st, st.pos + 1, st.super);
      assert OnClose(c, st).st == State(st.pos + 1, st.toks, st.super);
    }
  }

  lemma CommaKeepsForest(c: Context, st: State)
    requires c.links && Forest(st) && st.pos < |c.js|
    ensures OnComma(c, st).More? && Forest(OnComma(c, st).st)
  {
    var next := OnComma(c, st).st;
    MoveKeepsForest(st, st.pos + 1, st.super);
    if st.super != -1 && !st.toks[st.super].Container() {
      var p := st.toks[st.super].parent;
      assert p != -1 ==> Under(st.toks, p, st.super - 1);
      forall o | 0 <= o < |next.toks| && next.toks[o].Open() ensures Under(next.toks, o, p) {
        assert Under(st.toks, o, st.super) && o != st.super;
      }
    }
  }

  /** Every turn of the main loop keeps the layout. */
  lemma StepKeepsForest(c: Context, st: State)
    requires c.links && Forest(st) && !AtEnd(c.js, st.pos) && Step(c, st).More?
    ensures Forest(Step(c, st).st)
  {
    hide Preorder, Sized, Under, Spanned;
    var b := c.js[st.pos];
    if b == LBRACE || b == LBRACKET {
      OpenKeepsForest(c, st);
    } else if b == RBRACE || b == RBRACKET {
      CloseKeepsForest(c, st);
    } else if b == QUOTE {
      var q := ScanString(c.js, st.pos + 1).at;
      PlaceKeepsForest(c, st, String, st.pos + 1, q, q + 1);
    } else if Blank(b) {
      MoveKeepsForest(st, st.pos + 1, st.super);
    } else if b == COLON {
      MoveKeepsForest(st, st.pos + 1, |st.toks| - 1);
    } else if b == COMMA {
      CommaKeepsForest(c, st);
    } else if PrimitiveStart(b) {
      var q := ScanPrimitive(c.js, st.pos).at;
      PlaceKeepsForest(c, st, Primitive, st.pos, q, q);
    }
  }

  /** Whatever the text, a call that does not report INVAL leaves the layout in order. */
  lemma {:induction false} RunKeepsForest(c: Context, st: State)
    requires c.links && Forest(st)
    ensures var (r, last) := Run(c, st);
            r != ERROR_INVAL ==> Forest(last) && last.pos <= if st.pos > |c.js| then st.pos else |c.js|
    decreases |c.js| - st.pos
  {
    if !AtEnd(c.js, st.pos) && Step(c, st).More? {
      StepKeepsForest(c, st);
      RunKeepsForest(c, Step(c, st).st);
    }
  }

  /** The text that has been read holds no NUL byte. */
  lemma {:induction false} RunReadsNoNul(c: Context, st: State)
    requires Linked(st) && NulFree(c.js, 0, st.pos)
    ensures NulFree(c.js, 0, Run(c, st).1.pos)
    decreases |c.js| - st.pos
  {
    if !AtEnd(c.js, st.pos) && Step(c, st).More? {
      ScanStringNulFree(c.js, st.pos + 1);
      ScanPrimitiveNulFree(c.js, st.pos);
      RunReadsNoNul(c, Step(c, st).st);
    }
  }

  /** A token's span lies in the text and holds no NUL byte. */
  ghost predicate InText(js: seq<byte>, t: Token) {
    0 <= t.start <= t.end <= |js| && NulFree(js, t.start, t.end)
  }

  /** A successful parse: the array is a closed forest, and the value returned counts its tokens. */
  lemma ParsedForest(c: Context)
    requires c.links
    ensures var (r, last) := Run(c, INIT);
            r >= 0 ==>
              && r == |last.toks| <= |c.slots|
              && Preorder(last.toks) && Sized(last.toks)
              && forall k | 0 <= k < r :: InText(c.js, last.toks[k])
  {
    RunKeepsForest(c, INIT);
    RunFits(c, INIT);
    RunReadsNoNul(c, INIT);
    hide Run;
    var (r, last) := Run(c, INIT);
    if r >= 0 {
      forall k | 0 <= k < r ensures InText(c.js, last.toks[k]) {
        assert !last.toks[k].Open() && Spanned(last.toks[k], last.pos);
      }
    }
  }

  lemma {:induction false} RunFits(c: Context, st: State)
    requires Linked(st) && |st.toks| <= |c.slots|
    ensures |Run(c, st).1.toks| <= |c.slots|
    decreases |c.js| - st.pos
  {
    if !AtEnd(c.js, st.pos) && Step(c, st).More? {
      RunFits(c, Step(c, st).st);
    }
  }
}
