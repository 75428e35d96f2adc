/**
 Finding one's way in a token array laid out as a preorder forest: where a subtree ends, which token
 is the next child, which child is the k-th and which carries a given name. Everything here holds for
 any array that jsmn produces, well-formed text or not.
 */
module JsonSearch {
  import opened Bytes
  import opened JsmnMachine
  import opened JsmnForest

  /** The last token of the stretch from `j` on whose parents are not below `a`. */
  ghost function LastUnder(toks: seq<Token>, a: nat, j: nat): (r: nat)
    requires Under(toks, a, j)
    ensures Under(toks, a, r) && j <= r
    ensures r + 1 < |toks| ==> toks[r + 1].parent < a
    decreases |toks| - j
  {
    if j + 1 < |toks| && toks[j + 1].parent >= a then LastUnder(toks, a, j + 1) else j
  }

  /** The tokens of the subtree of `a` are exactly those from `a` to LastUnder. */
  lemma SubtreeIsInterval(toks: seq<Token>, a: nat, k: nat)
    requires Preorder(toks) && a < |toks| && k < |toks|
    ensures Descends(toks, a, k) <==> a <= k <= LastUnder(toks, a, a)
  {
    UnderIsDescends(toks, a, k);
  }

  /** `t` ends the subtree of the `n`-th child of `a`, or is `a` itself when `n` is 0. */
  ghost predicate Frontier(toks: seq<Token>, a: nat, t: nat, n: nat) {
    && Under(toks, a, t)
    && Kids(toks, a, t + 1) == n
    && (t + 1 < |toks| ==> toks[t + 1].parent <= a)
  }

  lemma FrontierStart(toks: seq<Token>, a: nat)
    requires Preorder(toks) && a < |toks|
    ensures Frontier(toks, a, a, 0)
  {
    NoKids(toks, a, a + 1);
  }

  lemma {:induction false} KidsBetween(toks: seq<Token>, a: int, m: nat, n: nat)
    requires m <= n <= |toks|
    ensures Kids(toks, a, m) <= Kids(toks, a, n)
    ensures (forall k | m <= k < n :: toks[k].parent != a) ==> Kids(toks, a, m) == Kids(toks, a, n)
    decreases n
  {
    if m < n {
      KidsBetween(toks, a, m, n - 1);
    }
  }

  /** While children are left, the next token is one. */
  lemma NextIsChild(toks: seq<Token>, a: nat, t: nat, n: nat)
    requires Preorder(toks) && Frontier(toks, a, t, n) && n < Kids(toks, a, |toks|)
    ensures t + 1 < |toks| && toks[t + 1].parent == a
  {
    if t + 1 == |toks| || toks[t + 1].parent < a {
      forall k | t < k < |toks| ensures toks[k].parent != a {
        assert toks[k].parent == a ==> Under(toks, a, k - 1);
      }
      KidsBetween(toks, a, t + 1, |toks|);
    }
  }

  /** The frontier moves on to the end of the subtree of the next child. */
  lemma Advance(toks: seq<Token>, a: nat, t: nat, n: nat)
    requires Preorder(toks) && Frontier(toks, a, t, n) && t + 1 < |toks| && toks[t + 1].parent == a
    ensures Frontier(toks, a, LastUnder(toks, t + 1, t + 1), n + 1)
  {
    hide Preorder;
    var c := t + 1;
    var e := LastUnder(toks, c, c);
    KidsBetween(toks, a, c + 1, e + 1);
    AfterSubtree(toks, a, c);
  }

  /** The token behind a child's subtree is another child, or lies outside the whole subtree. */
  lemma AfterSubtree(toks: seq<Token>, a: nat, c: nat)
    requires Preorder(toks) && a < c < |toks| && toks[c].parent == a
    ensures var e := LastUnder(toks, c, c); e + 1 < |toks| ==> toks[e + 1].parent <= a
  {
    var e := LastUnder(toks, c, c);
    if e + 1 < |toks| {
      var p := toks[e + 1].parent;
      assert p == -1 || Under(toks, p, e);
    }
  }

  /** When all children have been passed, the frontier is the end of the whole subtree. */
  lemma FrontierEnd(toks: seq<Token>, a: nat, t: nat)
    requires Preorder(toks) && Frontier(toks, a, t, Kids(toks, a, |toks|))
    ensures t == LastUnder(toks, a, a)
  {
    if t + 1 < |toks| {
      KidsBetween(toks, a, t + 2, |toks|);
    }
    LastUnderIs(toks, a, a, t);
  }

  lemma {:induction false} LastUnderIs(toks: seq<Token>, a: nat, j: nat, t: nat)
    requires Under(toks, a, t) && a <= j <= t && (t + 1 < |toks| ==> toks[t + 1].parent < a)
    ensures LastUnder(toks, a, j) == t
    decreases t - j
  {
    if j < t {
      LastUnderIs(toks, a, j + 1, t);
    }
  }

  /** The bytes of a token are those of the string `str`. */
  predicate Matches(js: seq<byte>, t: Token, str: seq<byte>) {
    0 <= t.start <= t.end <= |js| && js[t.start..t.end] == str
  }

  /** The first child of `a`, from `j` on, whose bytes are `key`; -1 if there is none. */
  ghost function NamedChild(js: seq<byte>, toks: seq<Token>, a: nat, key: seq<byte>, j: nat): (r: int)
    requires j <= |toks|
    ensures r == -1 || (j <= r < |toks| && toks[r].parent == a && Matches(js, toks[r], key))
    ensures forall k | j <= k < |toks| && (r == -1 || k < r) :: toks[k].parent == a ==> !Matches(js, toks[k], key)
    decreases |toks| - j
  {
    if j == |toks| then -1
    else if toks[j].parent == a && Matches(js, toks[j], key) then j
    else NamedChild(js, toks, a, key, j + 1)
  }

  /** The child of `a` that `n` children precede; -1 if there is none. */
  ghost function NthChild(toks: seq<Token>, a: nat, n: nat, j: nat): (r: int)
    requires j <= |toks|
    ensures r == -1 || (j <= r < |toks| && toks[r].parent == a && Kids(toks, a, r) == n)
    ensures r == -1 ==> forall k | j <= k < |toks| :: toks[k].parent == a ==> Kids(toks, a, k) != n
    decreases |toks| - j
  {
    if j == |toks| then -1
    else if toks[j].parent == a && Kids(toks, a, j) == n then j
    else NthChild(toks, a, n, j + 1)
  }

  /** A later child is preceded by more children, so the count tells children apart. */
  lemma LaterChild(toks: seq<Token>, a: nat, r: nat, s: nat)
    requires r < s <= |toks| && toks[r].parent == a
    ensures Kids(toks, a, r) < Kids(toks, a, s)
  {
    KidsBetween(toks, a, r + 1, s);
  }

  /** Every index below the number of children names a child. */
  lemma NthExists(toks: seq<Token>, a: nat, n: nat)
    requires n < Kids(toks, a, |toks|)
    ensures NthChild(toks, a, n, 0) != -1
  {
    var k := FindNth(toks, a, n, |toks|);
  }

  lemma {:induction false} FindNth(toks: seq<Token>, a: nat, n: nat, m: nat) returns (k: nat)
    requires m <= |toks| && n < Kids(toks, a, m)
    ensures k < m && toks[k].parent == a && Kids(toks, a, k) == n
    decreases m
  {
    if n < Kids(toks, a, m - 1) {
      k := FindNth(toks, a, n, m - 1);
    } else {
      k := m - 1;
    }
  }
}
