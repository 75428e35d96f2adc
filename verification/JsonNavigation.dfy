/**
 Navigation refines tree lookup. On the tokens of a JSON text, entering a member by name or an
 element by index moves the cursor to the token of exactly the node that the tree names, fails
 exactly when the tree has no such node or one of another type, and leaving goes back.
 */
module JsonNavigation {
  import opened Bytes
  import opened Text
  import opened StringGrammar
  import opened JsmnMachine
  import opened JsmnForest
  import opened JsmnResume
  import opened JsonTree
  import opened JsmnRoundTrip
  import opened JsonSearch
  import opened JsonContext

  /** A node of a tree: the value, where it is printed, its token and the parent of that token. */
  datatype Spot = Spot(v: Value, p: nat, i: nat, up: int)

  datatype Lookup = Nowhere | There(spot: Spot)

  /** The value of the first member called `key`. */
  function ByName(items: Items, p: nat, i: nat, box: nat, key: seq<byte>): Lookup {
    match items
    case Nil => Nowhere
    case Cons(_, tag, value, _, rest) =>
      if tag.Key? && SpellAll(tag.name) == key then There(Spot(value, ValueAt(items, p), i + 1, i))
      else ByName(rest, RestAt(items, p), NextIndex(items, i), box, key)
  }

  /** The value of the item with index `n`. */
  function ByIndex(items: Items, p: nat, i: nat, box: nat, n: nat): Lookup {
    match items
    case Nil => Nowhere
    case Cons(_, tag, value, _, rest) =>
      if n == 0 then There(Spot(value, ValueAt(items, p), i + TagNodes(tag), Owner(tag, i, box)))
      else ByIndex(rest, RestAt(items, p), NextIndex(items, i), box, n - 1)
  }

  /** One get call: by name or by index, for a value of one type. */
  datatype Move = Member(name: seq<byte>, typ: Type) | Element(index: nat, typ: Type)

  function ValueType(v: Value): Type {
    match v
    case Prim(_) => Primitive
    case Str(_) => String
    case Box(named, _, _) => BoxType(named)
  }

  function OfType(l: Lookup, typ: Type): Lookup {
    if l.There? && ValueType(l.spot.v) == typ then l else Nowhere
  }

  /** The index of the first token of the item behind the first. */
  function NextIndex(items: Items, i: nat): nat
    requires items.Cons?
  {
    i + TagNodes(items.tag) + Nodes(items.value)
  }

  /** What a get call means on the tree. */
  function Descend(s: Spot, m: Move): Lookup {
    if !s.v.Box? then Nowhere
    else
      var p, i := s.p + 1 + |s.v.pad|, s.i + 1;
      match m
      case Member(name, typ) => if s.v.named then OfType(ByName(s.v.items, p, i, s.i, name), typ) else Nowhere
      case Element(n, typ) => if s.v.named then Nowhere else OfType(ByIndex(s.v.items, p, i, s.i, n), typ)
  }

  function Follow(s: Spot, path: seq<Move>): Lookup
    decreases |path|
  {
    if path == [] then There(s)
    else
      match Descend(s, path[0])
      case Nowhere => Nowhere
      case There(t) => Follow(t, path[1..])
  }

  /** What the same calls do on the token array: the new cursor, or -1. */
  ghost function Enter(js: seq<byte>, toks: seq<Token>, a: nat, m: Move): (r: int)
    requires a < |toks|
    ensures -1 <= r < |toks|
  {
    match m
    case Member(name, typ) => ObjGet(js, toks, a, name, typ)
    case Element(n, typ) => ArrGet(toks, a, n, typ)
  }

  ghost function Walk(js: seq<byte>, toks: seq<Token>, a: nat, path: seq<Move>): (r: int)
    requires a < |toks|
    ensures -1 <= r < |toks|
    decreases |path|
  {
    if path == [] then a
    else
      var b := Enter(js, toks, a, path[0]);
      if b == -1 then -1 else Walk(js, toks, b, path[1..])
  }

  /** Leaving again, the last step first. */
  ghost function Back(toks: seq<Token>, a: nat, path: seq<Move>): (out: (int, nat))
    requires a < |toks| && Preorder(toks)
    ensures out.1 < |toks|
    decreases |path|
  {
    if path == [] then (OS_SUCCESS, a)
    else
      var (rc, b) := Back(toks, a, path[1..]);
      if rc != OS_SUCCESS then (rc, b) else Leave(toks, b, path[0])
  }

  /** The node is in the text and in the token array, where the spot says. */
  ghost predicate Shown(js: seq<byte>, toks: seq<Token>, s: Spot) {
    WellFormed(s.v) && Laid(js, s.p, s.v) && Sits(true, toks, s.v, s.p, s.i, s.up)
  }

  /** Inside a value no token has a parent below the value's own token. */
  lemma {:induction false} InnerParents(toks: seq<Token>, v: Value, p: nat, i: nat, up: int)
    requires Sits(true, toks, v, p, i, up)
    ensures forall k | i < k < i + Nodes(v) :: toks[k].parent >= i
    decreases v
  {
    if v.Box? {
      ItemParents(toks, v.items, p + 1 + |v.pad|, i + 1, i);
    }
  }

  lemma {:induction false} ItemParents(toks: seq<Token>, items: Items, p: nat, i: nat, box: nat)
    requires ItemsSit(true, toks, items, p, i, box) && box < i
    ensures forall k | i <= k < i + ItemNodes(items) :: toks[k].parent >= box
    decreases items
  {
    if items.Cons? {
      var j := i + TagNodes(items.tag);
      InnerParents(toks, items.value, ValueAt(items, p), j, Owner(items.tag, i, box));
      ItemParents(toks, items.rest, RestAt(items, p), j + Nodes(items.value), box);
    }
  }

  lemma ItemSits(toks: seq<Token>, items: Items, p: nat, i: nat, box: nat)
    requires items.Cons? && ItemsSit(true, toks, items, p, i, box)
    ensures var j := i + TagNodes(items.tag);
            && Sits(true, toks, items.value, ValueAt(items, p), j, Owner(items.tag, i, box))
            && j + Nodes(items.value) == NextIndex(items, i) <= |toks| && j < NextIndex(items, i)
            && toks[j].parent == Owner(items.tag, i, box) && toks[i].parent == box
  {
  }

  /** One item is one child of its container, and only its first token names the container as parent. */
  lemma OneChild(toks: seq<Token>, items: Items, p: nat, i: nat, box: nat)
    requires items.Cons? && ItemsSit(true, toks, items, p, i, box) && box < i
    ensures var next := NextIndex(items, i);
            && i < next && toks[i].parent == box
            && (forall k | i < k < next :: toks[k].parent != box)
            && Kids(toks, box, next) == Kids(toks, box, i) + 1
  {
    hide Sits, ItemsSit, Nodes, Width, TagWidth;
    var j := i + TagNodes(items.tag);
    ItemSits(toks, items, p, i, box);
    InnerParents(toks, items.value, ValueAt(items, p), j, Owner(items.tag, i, box));
    KidsBetween(toks, box, i + 1, NextIndex(items, i));
  }

  lemma {:induction false} ItemKids(toks: seq<Token>, items: Items, p: nat, i: nat, box: nat)
    requires ItemsSit(true, toks, items, p, i, box) && box < i
    ensures Kids(toks, box, i + ItemNodes(items)) == Kids(toks, box, i) + Length(items)
    decreases items
  {
    if items.Cons? {
      OneChild(toks, items, p, i, box);
      ItemKids(toks, items.rest, RestAt(items, p), NextIndex(items, i), box);
    }
  }

  lemma BoxParts(js: seq<byte>, toks: seq<Token>, s: Spot)
    requires Shown(js, toks, s) && s.v.Box?
    ensures ItemsShown(js, toks, s.v.items, s.p + 1 + |s.v.pad|, s.i + 1, s.i, s.v.named)
    ensures Nodes(s.v) == 1 + ItemNodes(s.v.items) && s.i + Nodes(s.v) <= |toks|
    ensures toks[s.i].size == Length(s.v.items)
  {
  }

  lemma ShownSits(js: seq<byte>, toks: seq<Token>, items: Items, p: nat, i: nat, box: nat, named: bool)
    requires ItemsShown(js, toks, items, p, i, box, named)
    ensures ItemsSit(true, toks, items, p, i, box) && box < i
  {
  }

  /** Outside the tokens of a container no token names it as its parent. */
  lemma ChildrenInside(js: seq<byte>, toks: seq<Token>, s: Spot)
    requires Preorder(toks) && Sized(toks) && s.v.Box? && Shown(js, toks, s)
    ensures Kids(toks, s.i, s.i + 1) == 0 && s.i + Nodes(s.v) <= |toks|
    ensures forall k | 0 <= k < |toks| && toks[k].parent == s.i :: s.i < k < s.i + Nodes(s.v)
  {
    hide *;
    var p := s.p + 1 + |s.v.pad|;
    BoxParts(js, toks, s);
    ShownSits(js, toks, s.v.items, p, s.i + 1, s.i, s.v.named);
    NoneBefore(toks, s.i);
    ItemKids(toks, s.v.items, p, s.i + 1, s.i);
    NoneBeyond(toks, s.i, s.i + Nodes(s.v));
  }

  lemma NoneBefore(toks: seq<Token>, a: nat)
    requires Preorder(toks) && Sized(toks) && a < |toks|
    ensures Kids(toks, a, a + 1) == 0 && Kids(toks, a, |toks|) == toks[a].size
    ensures forall k | 0 <= k <= a :: toks[k].parent != a
  {
    NoKids(toks, a, a + 1);
  }

  lemma NoneBeyond(toks: seq<Token>, a: nat, end: nat)
    requires end <= |toks| && Kids(toks, a, end) == Kids(toks, a, |toks|)
    ensures forall k | end <= k < |toks| :: toks[k].parent != a
  {
    forall k | end <= k < |toks| ensures toks[k].parent != a {
      KidsBetween(toks, a, end, k);
      KidsBetween(toks, a, k + 1, |toks|);
    }
  }

  lemma NameMatches(js: seq<byte>, toks: seq<Token>, items: Items, p: nat, i: nat, box: nat, key: seq<byte>)
    requires items.Cons? && ItemsShown(js, toks, items, p, i, box, true)
    ensures items.tag.Key? && i < |toks|
    ensures Matches(js, toks[i], key) <==> SpellAll(items.tag.name) == key
    ensures toks[i].size == 1 && toks[i].parent == box
  {
  }

  /** Items that stand in the text and in the token array. */
  ghost predicate ItemsShown(js: seq<byte>, toks: seq<Token>, items: Items, p: nat, i: nat, box: nat, named: bool) {
    && ItemsWellFormed(items, named) && ItemsLaid(js, p, items)
    && ItemsSit(true, toks, items, p, i, box) && box < i
  }

  /** The first item: its value, its name, the tokens it takes, and the items behind it. */
  lemma ItemFacts(js: seq<byte>, toks: seq<Token>, items: Items, p: nat, i: nat, box: nat, named: bool)
    requires items.Cons? && ItemsShown(js, toks, items, p, i, box, named)
    ensures Shown(js, toks, Spot(items.value, ValueAt(items, p), i + TagNodes(items.tag), Owner(items.tag, i, box)))
    ensures i + ItemNodes(items) == NextIndex(items, i) + ItemNodes(items.rest) <= |toks|
    ensures Length(items) == 1 + Length(items.rest)
    ensures i + TagNodes(items.tag) < NextIndex(items, i)
  {
  }

  lemma RestShown(js: seq<byte>, toks: seq<Token>, items: Items, p: nat, i: nat, box: nat, named: bool)
    requires items.Cons? && ItemsShown(js, toks, items, p, i, box, named)
    ensures ItemsShown(js, toks, items.rest, RestAt(items, p), NextIndex(items, i), box, named)
    ensures items.tag.Key? == named
  {
  }

  /** What it means that the first member called `key` has been found, or that there is none. */
  ghost predicate NameFound(js: seq<byte>, toks: seq<Token>, l: Lookup, i: nat, end: nat, box: nat, key: seq<byte>) {
    end <= |toks| &&
    match l
    case Nowhere => forall k | i <= k < end :: toks[k].parent == box ==> !Matches(js, toks[k], key)
    case There(s) =>
      && i < s.i < end && s.up == s.i - 1 && Shown(js, toks, s)
      && toks[s.i - 1].parent == box && Matches(js, toks[s.i - 1], key)
      && forall k | i <= k < s.i - 1 :: toks[k].parent == box ==> !Matches(js, toks[k], key)
  }

  lemma NamePassed(js: seq<byte>, toks: seq<Token>, l: Lookup, i: nat, next: nat, end: nat, box: nat, key: seq<byte>)
    requires i < next && NameFound(js, toks, l, next, end, box, key) && next <= |toks|
    requires !Matches(js, toks[i], key) && forall k | i < k < next :: toks[k].parent != box
    ensures NameFound(js, toks, l, i, end, box, key)
  {
    hide Matches, Shown;
  }

  /** The first member with a name, found among the tokens of the members. */
  lemma {:induction false} NameIsFound(js: seq<byte>, toks: seq<Token>, items: Items, p: nat, i: nat, box: nat,
                                       key: seq<byte>)
    requires ItemsShown(js, toks, items, p, i, box, true)
    ensures NameFound(js, toks, ByName(items, p, i, box, key), i, i + ItemNodes(items), box, key)
    decreases items
  {
    hide *;
    if items.Cons? {
      FirstName(js, toks, items, p, i, box, key);
      RestShown(js, toks, items, p, i, box, true);
      ItemFacts(js, toks, items, p, i, box, true);
      if SpellAll(items.tag.name) != key {
        NameIsFound(js, toks, items.rest, RestAt(items, p), NextIndex(items, i), box, key);
        NamePassed(js, toks, ByName(items, p, i, box, key), i, NextIndex(items, i), i + ItemNodes(items), box, key);
      }
    } else {
      NoName(js, toks, items, p, i, box, key);
    }
  }

  lemma NoName(js: seq<byte>, toks: seq<Token>, items: Items, p: nat, i: nat, box: nat, key: seq<byte>)
    requires items.Nil? && ItemsShown(js, toks, items, p, i, box, true)
    ensures NameFound(js, toks, ByName(items, p, i, box, key), i, i + ItemNodes(items), box, key)
  {
  }

  /** Either the first member has the name, or the search goes on behind it. */
  lemma FirstName(js: seq<byte>, toks: seq<Token>, items: Items, p: nat, i: nat, box: nat, key: seq<byte>)
    requires items.Cons? && ItemsShown(js, toks, items, p, i, box, true)
    ensures items.tag.Key? && i < NextIndex(items, i) <= |toks|
    ensures if SpellAll(items.tag.name) == key
            then NameFound(js, toks, ByName(items, p, i, box, key), i, i + ItemNodes(items), box, key)
            else && ByName(items, p, i, box, key) == ByName(items.rest, RestAt(items, p), NextIndex(items, i), box, key)
                 && !Matches(js, toks[i], key)
                 && forall k | i < k < NextIndex(items, i) :: toks[k].parent != box
  {
    hide Matches, Shown, ItemsShown, ItemsSit, ItemNodes, Nodes, Width, Kids;
    ShownSits(js, toks, items, p, i, box, true);
    OneChild(toks, items, p, i, box);
    NameMatches(js, toks, items, p, i, box, key);
    ItemFacts(js, toks, items, p, i, box, true);
  }

  /** What it means that the item with index `n` has been found, or that there are too few. */
  ghost predicate IndexFound(js: seq<byte>, toks: seq<Token>, l: Lookup, i: nat, end: nat, box: nat, n: nat,
                             length: nat)
  {
    i <= end <= |toks| &&
    match l
    case Nowhere => n >= length
    case There(s) =>
      && n < length && i <= s.i < end && s.up == box && Shown(js, toks, s)
      && toks[s.i].parent == box && Kids(toks, box, s.i) == Kids(toks, box, i) + n
  }

  lemma {:induction false} IndexIsFound(js: seq<byte>, toks: seq<Token>, items: Items, p: nat, i: nat, box: nat, n: nat)
    requires ItemsShown(js, toks, items, p, i, box, false)
    ensures IndexFound(js, toks, ByIndex(items, p, i, box, n), i, i + ItemNodes(items), box, n, Length(items))
    decreases items
  {
    hide *;
    IndexStep(js, toks, items, p, i, box, n);
    if items.Cons? && n > 0 {
      RestShown(js, toks, items, p, i, box, false);
      IndexIsFound(js, toks, items.rest, RestAt(items, p), NextIndex(items, i), box, n - 1);
      IndexPassed(js, toks, ByIndex(items, p, i, box, n), i, NextIndex(items, i), i + ItemNodes(items), box, n,
                  Length(items));
    }
  }

  /** Either the search is over with the first item, or it goes on behind it with one item less to pass. */
  lemma IndexStep(js: seq<byte>, toks: seq<Token>, items: Items, p: nat, i: nat, box: nat, n: nat)
    requires ItemsShown(js, toks, items, p, i, box, false)
    ensures items.Cons? && n > 0 ==>
              && ByIndex(items, p, i, box, n) == ByIndex(items.rest, RestAt(items, p), NextIndex(items, i), box, n - 1)
              && i < NextIndex(items, i)
              && i + ItemNodes(items) == NextIndex(items, i) + ItemNodes(items.rest) <= |toks|
              && Length(items) == 1 + Length(items.rest)
              && Kids(toks, box, NextIndex(items, i)) == Kids(toks, box, i) + 1
    ensures items.Nil? || n == 0 ==>
              IndexFound(js, toks, ByIndex(items, p, i, box, n), i, i + ItemNodes(items), box, n, Length(items))
  {
    ShownSits(js, toks, items, p, i, box, false);
    if items.Cons? {
      hide Shown, ItemsShown, ItemsSit, ItemNodes, Nodes, Length, Width, Kids;
      OneChild(toks, items, p, i, box);
      ItemFacts(js, toks, items, p, i, box, false);
      RestShown(js, toks, items, p, i, box, false);
    }
  }

  lemma IndexPassed(js: seq<byte>, toks: seq<Token>, l: Lookup, i: nat, next: nat, end: nat, box: nat, n: nat,
                    length: nat)
    requires n > 0 && length > 0 && i < next <= end <= |toks|
    requires IndexFound(js, toks, l, next, end, box, n - 1, length - 1)
    requires Kids(toks, box, next) == Kids(toks, box, i) + 1
    ensures IndexFound(js, toks, l, i, end, box, n, length)
  {
    hide Shown, Kids;
  }

  /** In the tokens of a tree every member name owns a value, as json_obj_get_val_tok takes for granted. */
  lemma {:induction false} NamesOwn(js: seq<byte>, toks: seq<Token>, items: Items, p: nat, i: nat, box: nat)
    requires ItemsShown(js, toks, items, p, i, box, true)
    ensures i + ItemNodes(items) <= |toks|
    ensures forall k | i <= k < i + ItemNodes(items) && toks[k].parent == box :: toks[k].size == 1
    decreases items
  {
    ShownSits(js, toks, items, p, i, box, true);
    if items.Cons? {
      hide Shown, ItemsShown, ItemsSit, ItemNodes, Nodes, Length, Width, Kids, Matches;
      OneChild(toks, items, p, i, box);
      NameMatches(js, toks, items, p, i, box, []);
      ItemFacts(js, toks, items, p, i, box, true);
      RestShown(js, toks, items, p, i, box, true);
      NamesOwn(js, toks, items.rest, RestAt(items, p), NextIndex(items, i), box);
    }
  }

  lemma ObjectsOwnValues(js: seq<byte>, toks: seq<Token>, s: Spot)
    requires Preorder(toks) && Sized(toks) && Shown(js, toks, s) && s.v.Box? && s.v.named
    ensures NamesOwnValues(toks, s.i)
  {
    hide Preorder, Sized, Shown, ItemsShown, Nodes, ItemNodes, Kids, Length;
    BoxParts(js, toks, s);
    ChildrenInside(js, toks, s);
    NamesOwn(js, toks, s.v.items, s.p + 1 + |s.v.pad|, s.i + 1, s.i);
  }

  lemma RootType(js: seq<byte>, toks: seq<Token>, s: Spot)
    requires Shown(js, toks, s)
    ensures s.i < |toks| && toks[s.i].typ == ValueType(s.v) && toks[s.i].parent == s.up
    ensures s.v.Box? ==> toks[s.i].size == Length(s.v.items)
  {
  }

  lemma MemberRefines(js: seq<byte>, toks: seq<Token>, s: Spot, name: seq<byte>, typ: Type)
    requires Preorder(toks) && Sized(toks) && Shown(js, toks, s)
    ensures s.i < |toks|
    ensures match Descend(s, Member(name, typ))
            case Nowhere => ObjGet(js, toks, s.i, name, typ) == -1
            case There(t) =>
              && ObjGet(js, toks, s.i, name, typ) == t.i && Shown(js, toks, t)
              && toks[t.i].parent == t.i - 1 && toks[t.i - 1].parent == s.i
  {
    hide Shown, ItemsShown, Nodes, ItemNodes, ByName, ByIndex, NamedChild, NthChild, NameFound, IndexFound;
    hide Preorder, Sized, Kids, Length;
    RootType(js, toks, s);
    if s.v.Box? && s.v.named {
      var items, p := s.v.items, s.p + 1 + |s.v.pad|;
      BoxParts(js, toks, s);
      ChildrenInside(js, toks, s);
      NameIsFound(js, toks, items, p, s.i + 1, s.i, name);
      var l := ByName(items, p, s.i + 1, s.i, name);
      NamedChildIs(js, toks, s.i, name, l, s.i + Nodes(s.v));
      if l.There? {
        RootType(js, toks, l.spot);
      }
    }
  }

  /** The search over the whole array stops where the search over the container's own tokens does. */
  lemma NamedChildIs(js: seq<byte>, toks: seq<Token>, a: nat, key: seq<byte>, l: Lookup, end: nat)
    requires NameFound(js, toks, l, a + 1, end, a, key)
    requires forall k | 0 <= k < |toks| && toks[k].parent == a :: a < k < end
    ensures NamedChild(js, toks, a, key, 0) == if l.There? then l.spot.i - 1 else -1
    ensures l.There? ==>
              && a + 1 < l.spot.i < |toks| && toks[l.spot.i - 1].parent == a
              && l.spot.up == l.spot.i - 1 && Shown(js, toks, l.spot)
  {
    hide Matches, Shown;
    var r := NamedChild(js, toks, a, key, 0);
    assert l.Nowhere? ==> r == -1;
  }

  lemma IndexedChildIs(js: seq<byte>, toks: seq<Token>, a: nat, l: Lookup, end: nat, n: nat, length: nat)
    requires IndexFound(js, toks, l, a + 1, end, a, n, length) && Kids(toks, a, a + 1) == 0
    ensures l.There? <==> n < length
    ensures l.There? ==>
              && a < l.spot.i < |toks| && toks[l.spot.i].parent == a && l.spot.up == a
              && Kids(toks, a, l.spot.i) == n && Shown(js, toks, l.spot)
  {
    hide Kids, Shown;
  }

  lemma ElementRefines(js: seq<byte>, toks: seq<Token>, s: Spot, n: nat, typ: Type)
    requires Preorder(toks) && Sized(toks) && Shown(js, toks, s)
    ensures s.i < |toks|
    ensures match Descend(s, Element(n, typ))
            case Nowhere => ArrGet(toks, s.i, n, typ) == -1
            case There(t) =>
              ArrGet(toks, s.i, n, typ) == t.i && Shown(js, toks, t) && toks[t.i].parent == s.i
  {
    hide Shown, ItemsShown, Nodes, ItemNodes, ByName, ByIndex, NamedChild, NthChild, NameFound, IndexFound;
    hide Preorder, Sized, Kids, Length;
    RootType(js, toks, s);
    if s.v.Box? && !s.v.named {
      var items, p := s.v.items, s.p + 1 + |s.v.pad|;
      BoxParts(js, toks, s);
      ChildrenInside(js, toks, s);
      IndexIsFound(js, toks, items, p, s.i + 1, s.i, n);
      var l := ByIndex(items, p, s.i + 1, s.i, n);
      IndexedChildIs(js, toks, s.i, l, s.i + Nodes(s.v), n, Length(items));
      if l.There? {
        RootType(js, toks, l.spot);
        NthIs(toks, s.i, n, l.spot.i);
      }
    }
  }

  /** The leave call that belongs to a get call. */
  ghost function Leave(toks: seq<Token>, a: nat, m: Move): (int, nat)
    requires a < |toks| && Preorder(toks)
  {
    if m.Member? then LeaveMember(toks, a) else LeaveElement(toks, a)
  }

  /** Leaving an element succeeds if and only if the cursor's token has a parent; it moves there, or not at all. */
  lemma LeaveElementExact(toks: seq<Token>, a: nat)
    requires Preorder(toks) && a < |toks|
    ensures var p, (rc, now) := toks[a].parent, LeaveElement(toks, a);
            && (rc == OS_SUCCESS <==> p >= 0) && (rc == OS_FAIL <==> p < 0)
            && (p >= 0 ==> now == p < a) && (p < 0 ==> now == a)
  {
  }

  /**
   Leaving a member succeeds if and only if the cursor's token has a parent and that one too, and moves
   there; with one parent only it fails one step up, with none where it stands.
   */
  lemma LeaveMemberExact(toks: seq<Token>, a: nat)
    requires Preorder(toks) && a < |toks|
    ensures var p, (rc, now) := toks[a].parent, LeaveMember(toks, a);
            && (rc == OS_SUCCESS <==> p >= 0 && toks[p].parent >= 0)
            && (rc == OS_FAIL <==> p < 0 || toks[p].parent < 0)
            && (p < 0 ==> now == a)
            && (p >= 0 && toks[p].parent < 0 ==> now == p)
            && (p >= 0 && toks[p].parent >= 0 ==> now == toks[p].parent < p)
  {
  }

  /**
   At the root of a JSON text every leave call fails and stays; a member's leave at the root's elements fails
   one step up.
   */
  lemma LeavesAtRoot(js: seq<byte>, toks: seq<Token>, s: Spot)
    requires Preorder(toks) && Shown(js, toks, s) && s.up == -1
    ensures s.i < |toks|
    ensures LeaveMember(toks, s.i) == (OS_FAIL, s.i) && LeaveElement(toks, s.i) == (OS_FAIL, s.i)
    ensures forall k | 0 <= k < |toks| && toks[k].parent == s.i :: LeaveMember(toks, k) == (OS_FAIL, s.i)
  {
    hide Shown;
    RootType(js, toks, s);
  }

  /** One get call refines the tree's own step, and its leave call undoes it. */
  lemma MoveRefines(js: seq<byte>, toks: seq<Token>, s: Spot, m: Move)
    requires Preorder(toks) && Sized(toks) && Shown(js, toks, s)
    ensures s.i < |toks|
    ensures match Descend(s, m)
            case Nowhere => Enter(js, toks, s.i, m) == -1
            case There(t) =>
              Enter(js, toks, s.i, m) == t.i < |toks| && Shown(js, toks, t) && Leave(toks, t.i, m) == (OS_SUCCESS, s.i)
  {
    match m
    case Member(name, typ) => MemberRefines(js, toks, s, name, typ);
    case Element(n, typ) => ElementRefines(js, toks, s, n, typ);
    hide Descend, Shown, ObjGet, ArrGet, Sized;
  }

  /** A path of get calls ends at the node the tree names, and as many leave calls undo it. */
  lemma {:induction false} PathRefines(js: seq<byte>, toks: seq<Token>, s: Spot, path: seq<Move>)
    requires Preorder(toks) && Sized(toks) && Shown(js, toks, s)
    ensures s.i < |toks|
    ensures match Follow(s, path)
            case Nowhere => Walk(js, toks, s.i, path) == -1
            case There(t) =>
              Walk(js, toks, s.i, path) == t.i && Shown(js, toks, t) && Back(toks, t.i, path) == (OS_SUCCESS, s.i)
    decreases |path|
  {
    hide Descend, Shown, Enter, Leave, Preorder, Sized;
    RootType(js, toks, s);
    if path != [] {
      MoveRefines(js, toks, s, path[0]);
      var next := Descend(s, path[0]);
      if next.There? {
        PathRefines(js, toks, next.spot, path[1..]);
      }
    }
  }

  /** json_parse_start accepts a JSON text unless it is a bare primitive that ends with the text. */
  lemma TreeAccepted(v: Value, lead: seq<byte>, trail: seq<byte>)
    requires WellFormed(v) && Blanks(lead) && Blanks(trail)
    ensures var js := lead + Print(v) + trail;
            && (Parses(js) <==> (v.Prim? ==> trail != []))
            && (Parses(js) ==> Counted(js) == Nodes(v) && Sits(true, Filled(js, Nodes(v)).1.toks, v, |lead|, 0, -1))
  {
    hide Run, CountRun, Print, Sits, WellFormed, Blanks, Nodes;
    var js := lead + Print(v) + trail;
    HasNodes(v);
    if v.Prim? && trail == [] {
      var n := Counted(js);
      if n > 0 {
        OneNode(v);
        RoundTrip(Context(js, ZeroTokens(n), true), v, lead, trail);
      }
    } else {
      var c := Context(js, ZeroTokens(Nodes(v)), true);
      RoundTrip(c, v, lead, trail);
      CountIsEnough(c);
    }
  }

  lemma OneNode(v: Value)
    requires v.Prim?
    ensures Nodes(v) == 1
  {
  }

  /**
   From text to lookup: json_parse_start accepts every JSON text but a bare primitive that ends with
   it, and then any path of get calls from the root finds what the tree has there.
   */
  lemma ReaderRefinesTree(v: Value, lead: seq<byte>, trail: seq<byte>, path: seq<Move>)
    requires WellFormed(v) && Blanks(lead) && Blanks(trail)
    ensures var js := lead + Print(v) + trail;
            && (Parses(js) <==> (v.Prim? ==> trail != []))
            && (Parses(js) ==>
                  && Counted(js) == Nodes(v)
                  && var toks := Filled(js, Counted(js)).1.toks;
                     var root := Spot(v, |lead|, 0, -1);
                     && Parsed(js, toks) && |toks| == Nodes(v) && Shown(js, toks, root)
                     && match Follow(root, path)
                        case Nowhere => Walk(js, toks, 0, path) == -1
                        case There(t) => Walk(js, toks, 0, path) == t.i && Back(toks, t.i, path) == (OS_SUCCESS, 0))
  {
    hide Run, CountRun, Print, Sits, Laid, WellFormed, Walk, Follow, Back, Counted, Filled;
    var js := lead + Print(v) + trail;
    TreeAccepted(v, lead, trail);
    if Parses(js) {
      FilledIsParsed(js);
      TreeIsLaid(js, v, lead, trail);
      PathRefines(js, Filled(js, Counted(js)).1.toks, Spot(v, |lead|, 0, -1), path);
    }
  }

  /** The span of a string's token is its raw text, and so is the span of any other value. */
  lemma SpanIsText(js: seq<byte>, toks: seq<Token>, s: Spot)
    requires Shown(js, toks, s) && !s.v.Box? && s.i < |toks|
    ensures var t := toks[s.i];
            && 0 <= t.start <= t.end <= |js|
            && js[t.start..t.end] == if s.v.Str? then SpellAll(s.v.body) else s.v.text
  {
  }

  lemma HasNodes(v: Value)
    ensures Nodes(v) > 0
  {
  }

  lemma TreeIsLaid(js: seq<byte>, v: Value, lead: seq<byte>, trail: seq<byte>)
    requires js == lead + Print(v) + trail
    ensures Laid(js, |lead|, v)
  {
    hide Print, Laid, At;
    AtWhole(js);
    AtThree(js, 0, lead, Print(v), trail);
    PrintedIsLaid(js, |lead|, v);
  }
}
