/**
 Whole paths of calls on a reader. Entering one container after another and leaving them again, as the
 callers of json_parser do, is the walk over the token array, and on a JSON text the walk through the tree.
 */
module JsonPaths {
  import opened Bytes
  import opened Text
  import opened JsmnMachine
  import opened JsmnForest
  import opened JsmnRoundTrip
  import opened JsonContext
  import opened JsonNavigation

  /** Only containers are entered; an index is an unsigned 32-bit number. */
  predicate Enters(m: Move) {
    (m.typ == Object || m.typ == Array) && (m.Element? ==> m.index < 0x1_0000_0000)
  }

  predicate AllEnter(path: seq<Move>) {
    forall m | m in path :: Enters(m)
  }

  /** Along the path every lookup by name finds a token behind the name. */
  ghost predicate StaysInside(js: seq<byte>, toks: seq<Token>, a: nat, path: seq<Move>, room: nat)
    requires a < |toks|
    decreases |path|
  {
    path == [] ||
    (&& (path[0].Member? ==> ReadsInside(js, toks, a, path[0].name, room))
     && var b := Enter(js, toks, a, path[0]);
        b != -1 ==> StaysInside(js, toks, b, path[1..], room))
  }

  /** One get call. */
  method Get(reader: Reader, m: Move) returns (rc: int)
    requires reader.Valid() && Enters(m)
    requires m.Member? ==> ReadsInside(reader.js, reader.Toks(), reader.cur, m.name, reader.tokens.Length)
    modifies reader`cur
    ensures reader.Valid()
    ensures var b := Enter(reader.js, reader.Toks(), old(reader.cur), m);
            if b == -1 then rc == OS_FAIL && reader.cur == old(reader.cur) else rc == OS_SUCCESS && reader.cur == b
  {
    match m
    case Member(name, typ) =>
      if typ == Object {
        rc := reader.ObjGetObject(name);
      } else {
        var n;
        rc, n := reader.ObjGetArray(name);
      }
    case Element(index, typ) =>
      if typ == Object {
        rc := reader.ArrGetObject(index);
      } else {
        rc := reader.ArrGetArray(index);
      }
  }

  /** The get calls of a path, until one fails; `steps` of them have moved the cursor. */
  method FollowPath(reader: Reader, path: seq<Move>) returns (rc: int, steps: nat)
    requires reader.Valid() && AllEnter(path)
    requires StaysInside(reader.js, reader.Toks(), reader.cur, path, reader.tokens.Length)
    modifies reader`cur
    ensures reader.Valid() && steps <= |path|
    ensures rc == OS_SUCCESS <==> Walk(reader.js, reader.Toks(), old(reader.cur), path) != -1
    ensures rc == OS_SUCCESS ==> steps == |path| && reader.cur == Walk(reader.js, reader.Toks(), old(reader.cur), path)
    ensures rc != OS_SUCCESS ==> steps < |path| && Enter(reader.js, reader.Toks(), reader.cur, path[steps]) == -1
    ensures reader.cur == Walk(reader.js, reader.Toks(), old(reader.cur), path[..steps])
  {
    hide Enter, ReadsInside;
    ghost var js, toks, from := reader.js, reader.Toks(), reader.cur;
    steps := 0;
    while steps < |path|
      invariant reader.Valid() && reader.js == js && reader.Toks() == toks && steps <= |path|
      invariant StaysInside(js, toks, reader.cur, path[steps..], reader.tokens.Length)
      invariant Walk(js, toks, from, path) == Walk(js, toks, reader.cur, path[steps..])
      invariant Walk(js, toks, from, path[..steps]) == reader.cur
    {
      assert path[steps..][0] == path[steps] && path[steps..][1..] == path[steps + 1..];
      rc := Get(reader, path[steps]);
      if rc != OS_SUCCESS {
        return;
      }
      WalkExtends(js, toks, from, path[..steps], path[steps]);
      assert path[..steps] + [path[steps]] == path[..steps + 1];
      steps := steps + 1;
    }
    assert path[..steps] == path;
    rc := OS_SUCCESS;
  }

  lemma {:induction false} WalkExtends(js: seq<byte>, toks: seq<Token>, a: nat, path: seq<Move>, m: Move)
    requires a < |toks|
    ensures var b := Walk(js, toks, a, path);
            Walk(js, toks, a, path + [m]) == if b == -1 then -1 else Enter(js, toks, b, m)
    decreases |path|
  {
    hide Enter;
    if path == [] {
      assert (path + [m])[1..] == [];
    } else {
      var b := Enter(js, toks, a, path[0]);
      assert (path + [m])[1..] == path[1..] + [m];
      if b != -1 { WalkExtends(js, toks, b, path[1..], m); }
    }
  }

  /** The leave calls of a path, the last one first, until one fails. */
  method LeavePath(reader: Reader, path: seq<Move>) returns (rc: int)
    requires reader.Valid()
    modifies reader`cur
    ensures reader.Valid() && (rc, reader.cur) == Back(reader.Toks(), old(reader.cur), path)
  {
    ghost var toks, from := reader.Toks(), reader.cur;
    var left := |path|;
    rc := OS_SUCCESS;
    assert path[left..] == [];
    while left > 0
      invariant reader.Valid() && reader.Toks() == toks && left <= |path|
      invariant rc == OS_SUCCESS && Back(toks, from, path[left..]) == (OS_SUCCESS, reader.cur)
    {
      var m := path[left - 1];
      assert path[left - 1..][0] == m && path[left - 1..][1..] == path[left..];
      if m.Member? {
        rc := reader.ObjLeave();
      } else {
        rc := reader.ArrLeave();
      }
      left := left - 1;
      assert Back(toks, from, path[left..]) == (rc, reader.cur);
      if rc != OS_SUCCESS {
        BackFails(toks, from, path, left);
        return;
      }
    }
    assert path[0..] == path;
  }

  lemma {:induction false} BackFails(toks: seq<Token>, a: nat, path: seq<Move>, n: nat)
    requires a < |toks| && Preorder(toks) && n <= |path| && Back(toks, a, path[n..]).0 != OS_SUCCESS
    ensures Back(toks, a, path) == Back(toks, a, path[n..])
    decreases n
  {
    if n == 0 {
      assert path[0..] == path;
    } else {
      assert path[n - 1..][1..] == path[n..];
      BackFails(toks, a, path, n - 1);
    }
  }

  /** In a JSON text every path stays inside. */
  lemma {:induction false} TreeStaysInside(js: seq<byte>, toks: seq<Token>, s: Spot, path: seq<Move>, room: nat)
    requires Preorder(toks) && Sized(toks) && Shown(js, toks, s) && |toks| <= room
    ensures s.i < |toks| && StaysInside(js, toks, s.i, path, room)
    decreases |path|
  {
    hide Descend, Shown, Enter, Leave, Preorder, Sized, ReadsInside;
    RootType(js, toks, s);
    if path != [] {
      if path[0].Member? { TreeReadsInside(js, toks, s, path[0].name, room); }
      MoveRefines(js, toks, s, path[0]);
      var next := Descend(s, path[0]);
      if next.There? { TreeStaysInside(js, toks, next.spot, path[1..], room); }
    }
  }

  lemma TreeReadsInside(js: seq<byte>, toks: seq<Token>, s: Spot, key: seq<byte>, room: nat)
    requires Preorder(toks) && Sized(toks) && Shown(js, toks, s) && |toks| <= room
    ensures s.i < |toks| && ReadsInside(js, toks, s.i, key, room)
  {
    hide Shown, Preorder, Sized, ReadsInside, NamesOwnValues;
    RootType(js, toks, s);
    if toks[s.i].typ == Object {
      ObjectsOwnValues(js, toks, s);
    }
    OwnersReadInside(js, toks, s.i, key, room);
  }

  /**
   There and back on a JSON text: the calls succeed if and only if the tree has a container of the right
   type at every step; then the cursor has stood on that node, and the leave calls bring it home.
   */
  method ThereAndBack(reader: Reader, path: seq<Move>, ghost s: Spot) returns (rc: int, ghost at: int)
    requires reader.Valid() && AllEnter(path)
    requires Shown(reader.js, reader.Toks(), s) && reader.cur == s.i
    modifies reader`cur
    ensures reader.Valid()
    ensures rc == OS_SUCCESS <==> Follow(s, path).There?
    ensures rc == OS_SUCCESS ==> at == Follow(s, path).spot.i && reader.cur == old(reader.cur)
  {
    hide Shown, Follow, Walk, Back, StaysInside;
    PathRefines(reader.js, reader.Toks(), s, path);
    TreeStaysInside(reader.js, reader.Toks(), s, path, reader.tokens.Length);
    var steps;
    rc, steps := FollowPath(reader, path);
    at := reader.cur;
    if rc == OS_SUCCESS {
      rc := LeavePath(reader, path);
    }
  }

  /** `{"a","b"}` is accepted: two names without values. */
  const VALUELESS: seq<byte> := [LBRACE, QUOTE, 0x61, QUOTE, COMMA, QUOTE, 0x62, QUOTE, RBRACE]

  function ValuelessTokens(): seq<Token> {
    [Token(Object, 0, 9, 2, -1), Token(String, 2, 3, 0, 0), Token(String, 6, 7, 0, 0)]
  }

  /** Behind the second name. */
  function AfterNames(): State {
    State(8, ValuelessTokens()[0 := ValuelessTokens()[0].(end := -1)], 0)
  }

  lemma NamesRun(c: Context)
    requires c.links && c.js == VALUELESS && |c.slots| >= 3
    ensures Run(c, INIT) == Run(c, AfterNames()) && Linked(AfterNames())
  {
    hide Run, OnPrimitive, OnClose, LastOpen, Climb, LastOpenContainer, HexDigits, EscapeLetter;
    var t := AfterNames().toks;
    var s1, s2 := State(1, [t[0].(size := 0)], 0), State(4, [t[0].(size := 1), t[1]], 0);
    var s3 := s2.(pos := 5);
    assert Step(c, INIT) == More(s1);
    assert Step(c, s1) == More(s2) by {
      assert ScanString(c.js, 3) == Found(3) && ScanString(c.js, 2) == Found(3);
    }
    assert Step(c, s2) == More(s3);
    assert Step(c, s3) == More(AfterNames()) by {
      assert ScanString(c.js, 7) == Found(7) && ScanString(c.js, 6) == Found(7);
    }
    hide ScanString, Step;
    RunStep(c, INIT);
    RunStep(c, s1);
    RunStep(c, s2);
    RunStep(c, s3);
  }

  lemma ValuelessIsAccepted(c: Context)
    requires c.links && c.js == VALUELESS && |c.slots| >= 3
    ensures Run(c, INIT) == (3, State(9, ValuelessTokens(), -1))
  {
    hide Run, ScanString, ScanPrimitive;
    NamesRun(c);
    var t, s4 := ValuelessTokens(), AfterNames();
    assert Climb(s4.toks, 2) == 0;
    assert Step(c, s4) == More(State(9, t, -1));
    assert LastOpen(t, 1) == -1 && LastOpen(t, 2) == -1 && LastOpen(t, 3) == -1;
    RunStep(c, s4);
    RunEnds(c, State(9, t, -1));
  }

  /** Asked for the string called "a", the search answers with the next name, which is no value of it. */
  lemma BlindStepReadsNextName(js: seq<byte>, toks: seq<Token>)
    requires js == VALUELESS && toks == ValuelessTokens()
    ensures ReadsInside(js, toks, 0, [0x61], 3) && ObjGet(js, toks, 0, [0x61], String) == 2
    ensures toks[2].parent != 1
  {
    assert js[2..3] == [0x61];
    NamedIs(js, toks, 0, [0x61], 1);
  }

  /** `{"a"}` is accepted: the name is the last token. */
  const LAST_NAME: seq<byte> := [LBRACE, QUOTE, 0x61, QUOTE, RBRACE]

  function LastNameTokens(): seq<Token> {
    [Token(Object, 0, 5, 1, -1), Token(String, 2, 3, 0, 0)]
  }

  lemma LastNameIsAccepted(c: Context)
    requires c.links && c.js == LAST_NAME && |c.slots| >= 2
    ensures Run(c, INIT) == (2, State(5, LastNameTokens(), -1))
  {
    hide Run, OnPrimitive, OnComma, LastOpenContainer, HexDigits, EscapeLetter;
    var t := LastNameTokens();
    var s1, s2 := State(1, [t[0].(end := -1, size := 0)], 0), State(4, [t[0].(end := -1), t[1]], 0);
    var s3 := State(5, t, -1);
    assert Step(c, INIT) == More(s1);
    assert Step(c, s1) == More(s2) by {
      assert ScanString(c.js, 3) == Found(3) && ScanString(c.js, 2) == Found(3);
    }
    assert Climb(s2.toks, 1) == 0;
    assert Step(c, s2) == More(s3);
    assert LastOpen(t, 1) == -1 && LastOpen(t, 2) == -1;
    hide Step, ScanString;
    RunStep(c, INIT);
    RunStep(c, s1);
    RunStep(c, s2);
    RunEnds(c, s3);
  }

  /**
   There the lookup of "a" needs a third token: json_parse_start has made room for two only, and a
   larger buffer answers that there is none.
   */
  lemma LastNameReadsOutside(js: seq<byte>, toks: seq<Token>, typ: Type)
    requires js == LAST_NAME && toks == LastNameTokens()
    ensures forall room | room >= 2 :: ReadsInside(js, toks, 0, [0x61], room) <==> room > 2
    ensures ObjGet(js, toks, 0, [0x61], typ) == -1
  {
    assert js[2..3] == [0x61];
    NamedIs(js, toks, 0, [0x61], 1);
  }
}
