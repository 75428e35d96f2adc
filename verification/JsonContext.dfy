/**
 The reader object of json_parser.c: a text, its tokens and a cursor. The methods keep the source's
 form; a token pointer is an index into the array, and -1 stands for NULL.
 */
module JsonContext {
  import opened Bytes
  import opened Text
  import opened JsmnMachine
  import opened JsmnForest
  import opened JsmnResume
  import opened JsmnParser
  import opened JsonSearch

  const OS_SUCCESS := 0
  const OS_FAIL := -1

  const ZERO_TOKEN := Token(Undefined, 0, 0, 0, 0)

  /** What both passes of json_parse_start come to, over a cleared array of the counted size. */
  function Counted(js: seq<byte>): int {
    CountRun(js, Tally(0, 0, -1), 0).0
  }

  function ZeroTokens(n: nat): seq<Token> {
    seq(n, _ => ZERO_TOKEN)
  }

  function Filled(js: seq<byte>, n: nat): (int, State) {
    Run(Context(js, ZeroTokens(n), true), INIT)
  }

  predicate Parses(js: seq<byte>) {
    Counted(js) > 0 && Filled(js, Counted(js)).0 > 0
  }

  /** A token array that a successful parse of `js` has left behind. */
  ghost predicate Parsed(js: seq<byte>, toks: seq<Token>) {
    && |toks| > 0 && Preorder(toks) && Sized(toks)
    && forall k | 0 <= k < |toks| :: InText(js, toks[k])
  }

  lemma FilledIsParsed(js: seq<byte>)
    requires Parses(js)
    ensures var (r, last) := Filled(js, Counted(js)); r == Counted(js) == |last.toks| && Parsed(js, last.toks)
  {
    var c := Context(js, ZeroTokens(Counted(js)), true);
    ParsedForest(c);
    CountIsEnough(c);
  }

  /** Every child of the object `a` has a value of its own, as a member name does. */
  ghost predicate NamesOwnValues(toks: seq<Token>, a: int) {
    forall k | 0 <= k < |toks| && toks[k].parent == a :: toks[k].size > 0
  }

  /** Where json_obj_search, json_arr_search and the get functions built on them end up. */
  ghost function ObjFind(js: seq<byte>, toks: seq<Token>, a: nat, key: seq<byte>): int
    requires a < |toks|
  {
    if toks[a].typ == Object then NamedChild(js, toks, a, key, 0) else -1
  }

  ghost function ArrFind(toks: seq<Token>, a: nat, index: nat): int
    requires a < |toks|
  {
    if toks[a].typ == Array && index < toks[a].size then NthChild(toks, a, index, 0) else -1
  }

  ghost function ObjGet(js: seq<byte>, toks: seq<Token>, a: nat, key: seq<byte>, typ: Type): int
    requires a < |toks|
  {
    var k := ObjFind(js, toks, a, key);
    if k != -1 && k + 1 < |toks| && toks[k + 1].typ == typ then k + 1 else -1
  }

  ghost function ArrGet(toks: seq<Token>, a: nat, index: nat, typ: Type): int
    requires a < |toks|
  {
    var k := ArrFind(toks, a, index);
    if k != -1 && toks[k].typ == typ then k else -1
  }

  /**
   What json_obj_get_val_tok asks of its caller: it reads the token behind the name it has found,
   whatever that is, and the array, which has room for `room` tokens, must not end there.
   */
  ghost predicate ReadsInside(js: seq<byte>, toks: seq<Token>, a: nat, key: seq<byte>, room: nat)
    requires a < |toks|
  {
    ObjFind(js, toks, a, key) + 1 < room
  }

  /**
   On the tokens of any accepted text: the read leaves the array if and only if the array is exactly as
   long as the tokens and the name found is the last of them; a name that has a value is never that one.
   */
  lemma InsideIff(js: seq<byte>, toks: seq<Token>, a: nat, key: seq<byte>, room: nat)
    requires Parsed(js, toks) && a < |toks| <= room
    ensures var k := ObjFind(js, toks, a, key);
            && (ReadsInside(js, toks, a, key, room) <==> room > |toks| || k != |toks| - 1)
            && (k != -1 && toks[k].size > 0 ==> k != |toks| - 1 && toks[k + 1].parent == k)
  {
    hide Preorder, Sized, Under, Kids, InText;
    var k := ObjFind(js, toks, a, key);
    if k != -1 && toks[k].size > 0 {
      SizeIsKids(toks, k);
      FrontierStart(toks, k);
      NextIsChild(toks, k, k, 0);
    }
  }

  /** Names that own their values keep the read inside the array. */
  lemma OwnersReadInside(js: seq<byte>, toks: seq<Token>, a: nat, key: seq<byte>, room: nat)
    requires Preorder(toks) && Sized(toks) && a < |toks| <= room && (toks[a].typ == Object ==> NamesOwnValues(toks, a))
    ensures ReadsInside(js, toks, a, key, room)
  {
    hide Preorder, Sized, Under, Kids;
    var k := ObjFind(js, toks, a, key);
    if k != -1 {
      SizeIsKids(toks, k);
      FrontierStart(toks, k);
      NextIsChild(toks, k, k, 0);
    }
  }

  lemma SizeIsKids(toks: seq<Token>, k: nat)
    requires Sized(toks) && k < |toks|
    ensures toks[k].size == Kids(toks, k, |toks|)
  {
  }

  /** The token behind a name is its own value if and only if the name has one. */
  lemma OwnValueIff(toks: seq<Token>, k: nat)
    requires Preorder(toks) && Sized(toks) && k + 1 < |toks|
    ensures toks[k + 1].parent == k <==> toks[k].size > 0
  {
    hide Preorder, Sized, Under, Kids;
    SizeIsKids(toks, k);
    if toks[k].size > 0 {
      FrontierStart(toks, k);
      NextIsChild(toks, k, k, 0);
    } else if toks[k + 1].parent == k {
      KidsNone(toks, k);
    }
  }

  /** Where the leave functions take the cursor, and whether they succeed. */
  ghost function LeaveMember(toks: seq<Token>, a: nat): (int, nat)
    requires a < |toks| && forall k | 0 <= k < |toks| :: -1 <= toks[k].parent < k
  {
    var p := toks[a].parent;
    if p < 0 then (OS_FAIL, a)
    else if toks[p].parent < 0 then (OS_FAIL, p)
    else (OS_SUCCESS, toks[p].parent)
  }

  ghost function LeaveElement(toks: seq<Token>, a: nat): (int, nat)
    requires a < |toks| && forall k | 0 <= k < |toks| :: -1 <= toks[k].parent < k
  {
    if toks[a].parent < 0 then (OS_FAIL, a) else (OS_SUCCESS, toks[a].parent)
  }

  predicate TokenMatchesStr(js: seq<byte>, tok: Token, str: seq<byte>)
    requires 0 <= tok.start <= tok.end <= |js|
    ensures TokenMatchesStr(js, tok, str) <==> Matches(js, tok, str)
  {
    tok.start + |str| <= |js| && js[tok.start..tok.start + |str|] == str && |str| == tok.end - tok.start
  }

  /** No child of `a` among the tokens up to `r` carries the name. */
  ghost predicate NoneUpTo(js: seq<byte>, toks: seq<Token>, a: int, key: seq<byte>, r: int) {
    r < |toks| && forall k | 0 <= k <= r :: toks[k].parent == a ==> !Matches(js, toks[k], key)
  }

  lemma NoneYet(js: seq<byte>, toks: seq<Token>, a: nat, key: seq<byte>)
    requires Preorder(toks) && a < |toks|
    ensures NoneUpTo(js, toks, a, key, a)
  {
  }

  lemma NoneInSubtree(js: seq<byte>, toks: seq<Token>, a: nat, key: seq<byte>, c: nat)
    requires Preorder(toks) && a < c < |toks| && NoneUpTo(js, toks, a, key, c - 1) && !Matches(js, toks[c], key)
    ensures NoneUpTo(js, toks, a, key, LastUnder(toks, c, c))
  {
  }

  lemma NamedIs(js: seq<byte>, toks: seq<Token>, a: nat, key: seq<byte>, r: nat)
    requires r < |toks| && NoneUpTo(js, toks, a, key, r - 1) && toks[r].parent == a && Matches(js, toks[r], key)
    ensures NamedChild(js, toks, a, key, 0) == r
  {
  }

  lemma NamedNone(js: seq<byte>, toks: seq<Token>, a: nat, key: seq<byte>)
    requires Kids(toks, a, |toks|) == 0
    ensures NamedChild(js, toks, a, key, 0) == -1
  {
    KidsNone(toks, a);
  }

  lemma NamedPassed(js: seq<byte>, toks: seq<Token>, a: nat, key: seq<byte>, r: nat)
    requires Preorder(toks) && a < |toks| && r == LastUnder(toks, a, a) && NoneUpTo(js, toks, a, key, r)
    ensures NamedChild(js, toks, a, key, 0) == -1
  {
    ChildrenEnd(toks, a, r);
  }

  class Reader {
    const parser: Parser
    var js: seq<byte>
    var tokens: array?<Token>
    var cur: int
    var numTokens: int

    constructor ()
      ensures Blank() && fresh(parser)
    {
      parser := new Parser(true);
      js, tokens, cur, numTokens := [], null, -1, 0;
    }

    /** Nothing is held, as after the context has been cleared. */
    ghost predicate Blank()
      reads this
    {
      js == [] && tokens == null && cur == -1 && numTokens == 0 && parser.links
    }

    ghost function Toks(): seq<Token>
      requires tokens != null && 0 <= numTokens <= tokens.Length
      reads this, tokens
    {
      tokens[..numTokens]
    }

    /**
     The reader holds a parsed text and its cursor stands on one of the tokens; what lies behind them
     in the array has not been used.
     */
    ghost predicate Valid()
      reads this, tokens
    {
      && tokens != null && 0 <= numTokens <= tokens.Length
      && Parsed(js, Toks()) && 0 <= cur < numTokens
      && forall k | numTokens <= k < tokens.Length :: tokens[k].typ == Undefined
    }

    method Clear()
      requires parser.links
      modifies this, parser
      ensures Blank() && parser.pos == 0 && parser.toknext == 0 && parser.toksuper == 0
    {
      js, tokens, cur, numTokens := [], null, -1, 0;
      parser.pos, parser.toknext, parser.toksuper := 0, 0, 0;
    }

    /** The two passes over `text`, the second into `buffer`, which must be cleared. */
    method Fill(text: seq<byte>, buffer: array<Token>, n: nat) returns (ret: int)
      requires parser.links && 0 < n == Counted(text) && n <= buffer.Length
      requires buffer[..n] == ZeroTokens(n)
      modifies this, parser, buffer
      ensures tokens == buffer && numTokens == n && js == text && cur == old(cur) && parser.links
      ensures ret == Filled(text, n).0
      ensures ret > 0 ==> ret == n && buffer[..n] == Filled(text, n).1.toks && Parsed(text, buffer[..n])
      ensures buffer[n..] == old(buffer[n..])
    {
      numTokens, tokens, js := n, buffer, text;
      parser.Init();
      assert parser.Abs(buffer) == INIT;
      ret := parser.Parse(text, buffer, n);
      assert buffer[n..] == buffer[parser.toknext..][n - parser.toknext..];
      if ret > 0 {
        FilledIsParsed(text);
      }
    }

    method ParseStart(text: seq<byte>) returns (rc: int)
      requires parser.links
      modifies this, parser
      ensures rc == if Parses(text) then OS_SUCCESS else OS_FAIL
      ensures rc == OS_SUCCESS ==>
                && Valid() && fresh(tokens) && js == text && cur == 0
                && Toks() == Filled(text, Counted(text)).1.toks && numTokens == tokens.Length == Counted(text)
      ensures rc == OS_FAIL ==> Blank()
    {
      Clear();
      parser.Init();
      var n := parser.Parse(text, null, 0);
      if n <= 0 {
        return OS_FAIL;
      }
      var buffer := new Token[n](_ => ZERO_TOKEN);
      assert buffer[..n] == ZeroTokens(n);
      var ret := Fill(text, buffer, n);
      if ret <= 0 {
        Clear();
        return OS_FAIL;
      }
      cur := 0;
      return OS_SUCCESS;
    }

    method ParseStartStatic(text: seq<byte>, buffer: array<Token>) returns (rc: int)
      requires parser.links
      modifies this, parser, buffer
      ensures rc == if Parses(text) && Counted(text) <= buffer.Length then OS_SUCCESS else OS_FAIL
      ensures rc == OS_SUCCESS ==>
                && Valid() && tokens == buffer && js == text && cur == 0 && numTokens == Counted(text)
                && Toks() == Filled(text, Counted(text)).1.toks
                && buffer[numTokens..] == ZeroTokens(buffer.Length - numTokens)
      ensures rc == OS_FAIL ==> Blank()
    {
      forall k | 0 <= k < buffer.Length {
        buffer[k] := ZERO_TOKEN;
      }
      Clear();
      parser.Init();
      var n := parser.Parse(text, null, 0);
      if n <= 0 || n > buffer.Length {
        return OS_FAIL;
      }
      assert buffer[..n] == ZeroTokens(n) && buffer[n..] == ZeroTokens(buffer.Length - n);
      var ret := Fill(text, buffer, n);
      if ret <= 0 {
        Clear();
        return OS_FAIL;
      }
      cur := 0;
      return OS_SUCCESS;
    }

    /** The last token of the subtree of `token`. */
    method SkipElem(token: nat) returns (r: nat)
      requires Valid() && token < numTokens
      ensures token <= r < numTokens && r == LastUnder(Toks(), token, token)
      decreases numTokens - token
    {
      hide Preorder, Under, Kids, InText;
      ghost var toks := Toks();
      r := token;
      var cnt := tokens[token].size;
      FrontierStart(toks, token);
      ghost var n := 0;
      while cnt != 0
        invariant token <= r < numTokens && 0 <= cnt
        invariant Frontier(toks, token, r, n) && n + cnt == toks[token].size
        decreases cnt
      {
        cnt := cnt - 1;
        NextIsChild(toks, token, r, n);
        Advance(toks, token, r, n);
        r := r + 1;
        r := SkipElem(r);
        n := n + 1;
      }
      FrontierEnd(toks, token, r);
    }

    /** The first child of the cursor's object whose bytes are `key`. */
    method ObjSearch(key: seq<byte>) returns (r: int)
      requires Valid()
      ensures r == ObjFind(js, Toks(), cur, key)
    {
      hide NamedChild, Matches, NoneUpTo, Preorder, Under, Kids;
      ghost var toks := Toks();
      r := cur;
      var size := tokens[cur].size;
      if size <= 0 {
        NamedNone(js, toks, cur, key);
        return -1;
      }
      if tokens[cur].typ != Object {
        return -1;
      }
      FrontierStart(toks, cur);
      NoneYet(js, toks, cur, key);
      ghost var n := 0;
      while size != 0
        invariant cur <= r < numTokens && 0 <= size
        invariant Frontier(toks, cur, r, n) && n + size == toks[cur].size
        invariant NoneUpTo(js, toks, cur, key, r)
        decreases size
      {
        size := size - 1;
        NextIsChild(toks, cur, r, n);
        Advance(toks, cur, r, n);
        r := r + 1;
        if TokenMatchesStr(js, tokens[r], key) {
          NamedIs(js, toks, cur, key, r);
          return;
        }
        NoneInSubtree(js, toks, cur, key, r);
        r := SkipElem(r);
        n := n + 1;
      }
      FrontierEnd(toks, cur, r);
      NamedPassed(js, toks, cur, key, r);
      return -1;
    }

    /** The child of the cursor's array with the given index. */
    method ArrSearch(index: nat) returns (r: int)
      requires Valid() && index < 0x1_0000_0000
      ensures r == ArrFind(Toks(), cur, index)
    {
      hide Preorder, Under, Kids, NthChild;
      ghost var toks := Toks();
      r := cur;
      if tokens[cur].typ != Array || tokens[cur].size <= 0 {
        return -1;
      }
      if index > tokens[cur].size - 1 {
        return -1;
      }
      FrontierStart(toks, cur);
      NextIsChild(toks, cur, cur, 0);
      r := r + 1;
      var i := index;
      while i != 0
        invariant 0 <= i <= index && cur < r < numTokens
        invariant Frontier(toks, cur, r - 1, index - i) && toks[r].parent == cur
        decreases i
      {
        i := i - 1;
        Advance(toks, cur, r - 1, index - i - 1);
        r := SkipElem(r);
        NextIsChild(toks, cur, r, index - i);
        r := r + 1;
      }
      NthIs(toks, cur, index, r);
    }

    method ObjGetValTok(name: seq<byte>, typ: Type) returns (r: int)
      requires typ != Undefined && Valid() && ReadsInside(js, Toks(), cur, name, tokens.Length)
      ensures r == ObjGet(js, Toks(), cur, name, typ)
    {
      r := ObjSearch(name);
      if r == -1 {
        return;
      }
      r := r + 1;
      if tokens[r].typ != typ {
        return -1;
      }
    }

    method ArrGetValTok(index: nat, typ: Type) returns (r: int)
      requires Valid() && index < 0x1_0000_0000
      ensures r == ArrGet(Toks(), cur, index, typ)
    {
      r := ArrSearch(index);
      if r == -1 {
        return;
      }
      if tokens[r].typ != typ {
        return -1;
      }
    }

    /** The cursor has moved to `r`, or has stayed and the call has failed when there is no `r`. */
    twostate predicate Moved(rc: int, r: int)
      reads this
    {
      if r == -1 then rc == OS_FAIL && cur == old(cur) else rc == OS_SUCCESS && cur == r
    }

    method ObjGetArray(name: seq<byte>) returns (rc: int, numElem: int)
      requires Valid() && ReadsInside(js, Toks(), cur, name, tokens.Length)
      modifies `cur
      ensures Valid() && Moved(rc, ObjGet(js, Toks(), old(cur), name, Array))
      ensures rc == OS_SUCCESS ==> numElem == Kids(Toks(), cur, numTokens)
    {
      var tok := ObjGetValTok(name, Array);
      if tok == -1 {
        return OS_FAIL, 0;
      }
      cur := tok;
      numElem := tokens[tok].size;
      return OS_SUCCESS, numElem;
    }

    method ObjGetObject(name: seq<byte>) returns (rc: int)
      requires Valid() && ReadsInside(js, Toks(), cur, name, tokens.Length)
      modifies `cur
      ensures Valid() && Moved(rc, ObjGet(js, Toks(), old(cur), name, Object))
    {
      var tok := ObjGetValTok(name, Object);
      if tok == -1 {
        return OS_FAIL;
      }
      cur := tok;
      return OS_SUCCESS;
    }

    method ArrGetArray(index: nat) returns (rc: int)
      requires Valid() && index < 0x1_0000_0000
      modifies `cur
      ensures Valid() && Moved(rc, ArrGet(Toks(), old(cur), index, Array))
    {
      var tok := ArrGetValTok(index, Array);
      if tok == -1 {
        return OS_FAIL;
      }
      cur := tok;
      return OS_SUCCESS;
    }

    method ArrGetObject(index: nat) returns (rc: int)
      requires Valid() && index < 0x1_0000_0000
      modifies `cur
      ensures Valid() && Moved(rc, ArrGet(Toks(), old(cur), index, Object))
    {
      var tok := ArrGetValTok(index, Object);
      if tok == -1 {
        return OS_FAIL;
      }
      cur := tok;
      return OS_SUCCESS;
    }

    /** Leaves a value entered by name: json_obj_leave_array and json_obj_leave_object. */
    method ObjLeave() returns (rc: int)
      requires Valid()
      modifies `cur
      ensures Valid() && (rc, cur) == LeaveMember(Toks(), old(cur))
      ensures var p := Toks()[old(cur)].parent;
              && (rc == OS_SUCCESS <==> p >= 0 && Toks()[p].parent >= 0)
              && (rc == OS_FAIL <==> p < 0 || Toks()[p].parent < 0)
              && cur == if p < 0 then old(cur) else if Toks()[p].parent < 0 then p else Toks()[p].parent
    {
      if tokens[cur].parent < 0 {
        return OS_FAIL;
      }
      cur := tokens[cur].parent;
      if tokens[cur].parent < 0 {
        return OS_FAIL;
      }
      cur := tokens[cur].parent;
      return OS_SUCCESS;
    }

    /** Leaves a value entered by index: json_arr_leave_array and json_arr_leave_object. */
    method ArrLeave() returns (rc: int)
      requires Valid()
      modifies `cur
      ensures Valid() && (rc, cur) == LeaveElement(Toks(), old(cur))
      ensures var p := Toks()[old(cur)].parent;
              && (rc == OS_SUCCESS <==> p >= 0) && (rc == OS_FAIL <==> p < 0)
              && cur == if p < 0 then old(cur) else p
    {
      if tokens[cur].parent < 0 {
        return OS_FAIL;
      }
      cur := tokens[cur].parent;
      return OS_SUCCESS;
    }

    /** Copies the bytes of a token into `val`, with a NUL behind them, if they fit. */
    method TokToString(tok: nat, val: array<byte>, size: nat) returns (rc: int)
      requires Valid() && tok < numTokens && size <= val.Length && val as object != tokens
      modifies val
      ensures var t := tokens[tok]; var len := t.end - t.start;
              if len > size - 1 then rc == OS_FAIL && val[..] == old(val[..])
              else rc == OS_SUCCESS && val[..] == js[t.start..t.end] + [NUL] + old(val[..])[len + 1..]
    {
      var t := tokens[tok];
      assert InText(js, Toks()[tok]);
      if t.end - t.start > size - 1 {
        return OS_FAIL;
      }
      var len := t.end - t.start;
      Strncpy(val, js, t.start, len);
      forall k | 0 <= k < len ensures val[k] == js[t.start + k] {
        assert NulFree(js, t.start, t.start + k + 1);
      }
      val[len] := NUL;
      assert val[..len] == js[t.start..t.end] && val[len + 1..] == old(val[..])[len + 1..];
      return OS_SUCCESS;
    }

    method ObjGetString(name: seq<byte>, val: array<byte>, size: nat) returns (rc: int)
      requires Valid() && ReadsInside(js, Toks(), cur, name, tokens.Length)
      requires size <= val.Length && val as object != tokens
      modifies val
      ensures var k := ObjGet(js, Toks(), cur, name, String);
              if k == -1 || tokens[k].end - tokens[k].start > size - 1 then rc == OS_FAIL && val[..] == old(val[..])
              else && rc == OS_SUCCESS && tokens[k].end - tokens[k].start < val.Length
                   && val[..] == js[tokens[k].start..tokens[k].end] + [NUL]
                                 + old(val[..])[tokens[k].end - tokens[k].start + 1..]
    {
      var tok := ObjGetValTok(name, String);
      if tok == -1 {
        return OS_FAIL;
      }
      rc := TokToString(tok, val, size);
    }
  }

  /** The C library's strncpy: copies up to the first NUL byte and fills the rest with NUL. */
  method Strncpy(dst: array<byte>, js: seq<byte>, at: nat, n: nat)
    requires n <= dst.Length && at + n <= |js|
    modifies dst
    ensures forall k | 0 <= k < n :: dst[k] == if NulFree(js, at, at + k + 1) then js[at + k] else NUL
    ensures forall k | n <= k < dst.Length :: dst[k] == old(dst[k])
  {
    var i := 0;
    while i < n && js[at + i] != NUL
      invariant 0 <= i <= n && NulFree(js, at, at + i)
      invariant forall k | 0 <= k < i :: dst[k] == js[at + k]
      invariant forall k | i <= k < dst.Length :: dst[k] == old(dst[k])
    {
      dst[i] := js[at + i];
      i := i + 1;
    }
    ghost var stop := i;
    while i < n
      invariant stop <= i <= n
      invariant forall k | 0 <= k < stop :: dst[k] == js[at + k]
      invariant forall k | stop <= k < i :: dst[k] == NUL
      invariant forall k | i <= k < dst.Length :: dst[k] == old(dst[k])
    {
      dst[i] := NUL;
      i := i + 1;
    }
  }

  lemma KidsNone(toks: seq<Token>, a: nat)
    requires Kids(toks, a, |toks|) == 0
    ensures forall k | 0 <= k < |toks| :: toks[k].parent != a
  {
    forall k | 0 <= k < |toks| ensures toks[k].parent != a {
      KidsBetween(toks, a, k + 1, |toks|);
    }
  }

  /** No child lies behind the end of the subtree. */
  lemma ChildrenEnd(toks: seq<Token>, a: nat, r: nat)
    requires Preorder(toks) && a < |toks| && r == LastUnder(toks, a, a)
    ensures forall k | r < k < |toks| :: toks[k].parent != a
  {
    forall k | r < k < |toks| ensures toks[k].parent != a {
      assert toks[k].parent == a ==> Under(toks, a, k - 1);
    }
  }

  lemma NthIs(toks: seq<Token>, a: nat, n: nat, r: nat)
    requires r < |toks| && toks[r].parent == a && Kids(toks, a, r) == n
    ensures NthChild(toks, a, n, 0) == r
  {
    var s := NthChild(toks, a, n, 0);
    if s != -1 && s < r {
      LaterChild(toks, a, s, r);
    } else if r < s {
      LaterChild(toks, a, r, s);
    }
  }
}
