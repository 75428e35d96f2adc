/**
 What jsmn refuses, on any text. `Lex` reads a text without any parser: strings, primitives, brackets,
 colons, commas and whitespace, and nothing else. The counting pass is that reading; the filling pass
 accepts no text the reading rejects, and refuses besides exactly the tokens that would stand where none
 of their kind may: anything but a string under an object, a primitive behind another value of a name.
 */
module JsmnRefusals {
  import opened Bytes
  import opened Text
  import opened JsmnMachine
  import opened JsmnForest
  import opened JsmnLockstep
  import opened JsmnNesting

  /** A whole text of `n` strings, primitives and opening brackets, or the first thing wrong with it. */
  datatype Lexed = Whole(n: nat) | Broken(code: int)

  function OneMore(l: Lexed): Lexed {
    if l.Whole? then Whole(l.n + 1) else l
  }

  predicate Punctuation(b: byte) {
    b as char in "}]:,"
  }

  /** Where a lexeme that starts at `p` ends, if it is a sound one. */
  function Lexeme(js: seq<byte>, p: nat): (r: Scan)
    requires !AtEnd(js, p)
    ensures r.Found? ==> p < r.at <= |js|
  {
    if js[p] == QUOTE then
      match ScanString(js, p + 1)
      case Found(q) => Found(q + 1)
      case other => other
    else if PrimitiveStart(js[p]) then
      assert !Terminator(js[p]);
      ScanPrimitive(js, p)
    else if js[p] as char in "{[}]:, \t\r\n" then Found(p + 1)
    else Illegal
  }

  /** Lexemes that become a token. */
  predicate Counts(b: byte) {
    b as char in "\"{[" || PrimitiveStart(b)
  }

  /** The same by byte values. */
  lemma LexemeByBytes(js: seq<byte>, p: nat)
    requires !AtEnd(js, p)
    ensures var b := js[p];
            && (Counts(b) <==> b == QUOTE || b == LBRACE || b == LBRACKET || PrimitiveStart(b))
            && Lexeme(js, p) ==
               if b == QUOTE then
                 var s := ScanString(js, p + 1); if s.Found? then Found(s.at + 1) else s
               else if PrimitiveStart(b) then ScanPrimitive(js, p)
               else if Blank(b) || b in [LBRACE, LBRACKET, RBRACE, RBRACKET, COLON, COMMA] then Found(p + 1)
               else Illegal
  {
    ByteClasses(js[p]);
    hide ScanString, ScanPrimitive, EscapeLetter, Hex;
  }

  function Lex(js: seq<byte>, p: nat): (l: Lexed)
    ensures l.Whole? ==> l.n <= if p < |js| then |js| - p else 0
    ensures l.Broken? ==> l.code == ERROR_INVAL || l.code == ERROR_PART
    decreases |js| - p
  {
    if AtEnd(js, p) then Whole(0)
    else
      match Lexeme(js, p)
      case Found(q) => if Counts(js[p]) then OneMore(Lex(js, q)) else Lex(js, q)
      case Illegal => Broken(ERROR_INVAL)
      case Unfinished => Broken(ERROR_PART)
  }

  /** Lexeme by lexeme the reading gets from `p` to `q`. */
  predicate Reaches(js: seq<byte>, p: nat, q: nat)
    decreases |js| - p
  {
    p == q || (!AtEnd(js, p) && Lexeme(js, p).Found? && Reaches(js, Lexeme(js, p).at, q))
  }

  /** A byte that starts no lexeme. */
  predicate Alien(b: byte) {
    b as char !in "\"{[}]:, \t\r\n-0123456789tfn"
  }

  lemma {:induction false} StrayBreaks(js: seq<byte>, p: nat, q: nat)
    requires Reaches(js, p, q) && !AtEnd(js, q) && Alien(js[q])
    ensures Lex(js, p) == Broken(ERROR_INVAL)
    decreases |js| - p
  {
    if p == q {
      ByteClasses(js[q]);
    } else {
      StrayBreaks(js, Lexeme(js, p).at, q);
    }
  }

  /** A text is whole if and only if the reading reaches its end. */
  lemma {:induction false} WholeReachesEnd(js: seq<byte>, p: nat)
    ensures Lex(js, p).Whole? <==> exists q: nat :: Reaches(js, p, q) && AtEnd(js, q)
    decreases |js| - p
  {
    if AtEnd(js, p) {
      assert Reaches(js, p, p);
    } else if Lexeme(js, p).Found? {
      var next := Lexeme(js, p).at;
      WholeReachesEnd(js, next);
      forall q: nat | AtEnd(js, q) ensures Reaches(js, p, q) <==> Reaches(js, next, q) {
      }
      hide Reaches, Lexeme;
    }
  }

  // ----- the counting pass -----

  lemma CountStepLexes(js: seq<byte>, t: Tally, toknext: nat)
    requires !AtEnd(js, t.pos)
    ensures match Lexeme(js, t.pos)
            case Found(q) =>
              CountStep(js, t, toknext).Onward? && CountStep(js, t, toknext).t.pos == q
              && CountStep(js, t, toknext).t.count == t.count + if Counts(js[t.pos]) then 1 else 0
            case Illegal => CountStep(js, t, toknext) == Halt(ERROR_INVAL, t)
            case Unfinished => CountStep(js, t, toknext) == Halt(ERROR_PART, t)
  {
    hide ScanString, ScanPrimitive, EscapeLetter, Hex, Lexeme, Counts, PrimitiveStart;
    LexemeByBytes(js, t.pos);
    NoBracketStarts(js[t.pos]);
  }

  lemma NoBracketStarts(b: byte)
    ensures PrimitiveStart(b) ==> !Blank(b) && b !in [QUOTE, LBRACE, LBRACKET, RBRACE, RBRACKET, COLON, COMMA]
    ensures PrimitiveStart(b) ==> b as char !in "{["
  {
  }

  /** The counting pass returns exactly what the reading says: the count, or the first error. */
  lemma {:induction false} CountIsLexed(js: seq<byte>, t: Tally, toknext: nat)
    ensures CountRun(js, t, toknext).0 ==
            match Lex(js, t.pos)
            case Whole(n) => t.count + n
            case Broken(code) => code
    decreases |js| - t.pos
  {
    if !AtEnd(js, t.pos) {
      CountStepLexes(js, t, toknext);
      hide CountStep, Lexeme, Counts;
      if CountStep(js, t, toknext).Onward? {
        CountIsLexed(js, CountStep(js, t, toknext).t, toknext);
      }
    }
  }

  // ----- the filling pass -----

  /** One turn against one lexeme: a turn that goes on has passed it, and a broken one stops the run. */
  lemma StepLexes(c: Context, st: State)
    requires Linked(st) && !AtEnd(c.js, st.pos)
    ensures Step(c, st).More? ==>
              && Lexeme(c.js, st.pos) == Found(Step(c, st).st.pos)
              && |Step(c, st).st.toks| == |st.toks| + if Counts(c.js[st.pos]) then 1 else 0
    ensures Lexeme(c.js, st.pos).Illegal? ==> Step(c, st).Stop? && Step(c, st).r == ERROR_INVAL
    ensures Step(c, st).Stop? && Step(c, st).r == ERROR_PART ==> Lexeme(c.js, st.pos).Unfinished?
    ensures Step(c, st).Stop? && Step(c, st).r == ERROR_NOMEM ==> |st.toks| >= |c.slots|
  {
    LexemeByBytes(c.js, st.pos);
    hide ScanString, ScanPrimitive, EscapeLetter, Hex, LastOpen, LastOpenContainer, Climb;
    hide Lexeme, Counts, PrimitiveStart, Blank;
  }

  /**
   In either build: an accepted text is whole and every lexeme that counts has its token; with ample
   slots a text whose first fault is an illegal lexeme gives INVAL, and one whose first fault is a lexeme
   that is cut off gives PART unless a token before it is refused.
   */
  lemma {:induction false} RunIsLexed(c: Context, st: State)
    requires Linked(st)
    ensures var r := Run(c, st).0;
            && (r >= 0 ==> Lex(c.js, st.pos).Whole? && |st.toks| + Lex(c.js, st.pos).n == r)
            && (|c.slots| - |st.toks| >= |c.js| - st.pos ==>
                  match Lex(c.js, st.pos)
                  case Whole(n) => r in [|st.toks| + n, ERROR_PART, ERROR_INVAL]
                  case Broken(code) => r == code || r == ERROR_INVAL)
    decreases |c.js| - st.pos
  {
    if !AtEnd(c.js, st.pos) {
      StepLexes(c, st);
      hide Step, Lexeme, Counts, Linked, LastOpen;
      if Step(c, st).More? {
        StillLinked(c, st);
        hide AtEnd;
        RunIsLexed(c, Step(c, st).st);
      }
    }
  }

  lemma StillLinked(c: Context, st: State)
    requires Linked(st) && !AtEnd(c.js, st.pos) && Step(c, st).More?
    ensures Linked(Step(c, st).st) && st.pos < Step(c, st).st.pos <= |c.js|
  {
  }

  /** The first byte reached that starts no lexeme makes both passes report INVAL. */
  lemma StrayByteRefused(c: Context, q: nat)
    requires Reaches(c.js, 0, q) && !AtEnd(c.js, q) && Alien(c.js[q])
    ensures CountRun(c.js, Tally(0, 0, -1), 0).0 == ERROR_INVAL
    ensures |c.slots| >= |c.js| ==> Run(c, INIT).0 == ERROR_INVAL
    ensures Run(c, INIT).0 < 0
  {
    StrayBreaks(c.js, 0, q);
    CountIsLexed(c.js, Tally(0, 0, -1), 0);
    RunIsLexed(c, INIT);
  }

  /** `[x]` */
  const STRAY_LETTER: seq<byte> := [LBRACKET, 0x78, RBRACKET]

  lemma StrayLetterIsRefused(c: Context)
    requires c.js == STRAY_LETTER && |c.slots| >= 3
    ensures Run(c, INIT).0 == ERROR_INVAL && CountRun(c.js, Tally(0, 0, -1), 0).0 == ERROR_INVAL
  {
    hide Run, CountRun;
    assert Lexeme(c.js, 0) == Found(1) && Reaches(c.js, 1, 1);
    assert Reaches(c.js, 0, 1);
    StrayByteRefused(c, 1);
  }

  // ----- what may stand where -----

  /** Under an object stand strings only, and a primitive under a string is its first child. */
  ghost predicate Kinds(toks: seq<Token>) {
    forall k | 0 <= k < |toks| && 0 <= toks[k].parent < |toks| :: KindFits(toks, k)
  }

  ghost predicate KindFits(toks: seq<Token>, k: nat)
    requires k < |toks| && 0 <= toks[k].parent < |toks|
  {
    var p := toks[k].parent;
    && (toks[p].typ == Object ==> toks[k].typ == String)
    && (toks[p].typ == String && toks[k].typ == Primitive ==> Kids(toks, p, k) == 0)
  }

  /** Whether a token of type `typ` may be stored under the token `p`. */
  predicate Admits(p: Token, typ: Type) {
    && (p.typ == Object ==> typ == String)
    && (p.typ == String && typ == Primitive ==> p.size == 0)
  }

  lemma OldFits(s: seq<Token>, t: seq<Token>, k: nat)
    requires k < |s| <= |t| && -1 <= s[k].parent < k
    requires forall i | 0 <= i < |s| :: s[i].typ == t[i].typ && s[i].parent == t[i].parent
    ensures 0 <= s[k].parent ==> (KindFits(s, k) <==> KindFits(t, k))
  {
    if 0 <= s[k].parent { KidsSame(s, t, s[k].parent, k); }
  }

  lemma NewFits(toks: seq<Token>, super: nat, t: Token)
    requires Sized(toks) && super < |toks| && t.parent == super
    ensures KindFits(Bump(toks, super, 1) + [t], |toks|) <==> Admits(toks[super], t.typ)
  {
    var now := Bump(toks, super, 1) + [t];
    KidsSame(toks, now, super, |toks|);
    hide Kids;
  }

  lemma OldAllFit(s: seq<Token>, t: seq<Token>)
    requires |s| <= |t| && Kinds(s)
    requires forall i | 0 <= i < |s| ::
               s[i].typ == t[i].typ && s[i].parent == t[i].parent && -1 <= s[i].parent < i
    ensures forall k | 0 <= k < |s| && 0 <= s[k].parent :: KindFits(t, k)
  {
    hide KindFits;
    forall k | 0 <= k < |s| && 0 <= s[k].parent ensures KindFits(t, k) {
      assert KindFits(s, k);
      OldFits(s, t, k);
    }
  }

  /** Appending a token keeps the kinds if and only if its parent admits it. */
  lemma KindsGrow(toks: seq<Token>, super: int, t: Token)
    requires Preorder(toks) && Sized(toks) && Kinds(toks) && -1 <= super < |toks| && t.parent == super
    ensures Kinds(Bump(toks, super, 1) + [t]) <==> super == -1 || Admits(toks[super], t.typ)
  {
    var now := Bump(toks, super, 1) + [t];
    assert forall k | 0 <= k < |toks| ::
        toks[k].typ == now[k].typ && toks[k].parent == now[k].parent && -1 <= toks[k].parent < k;
    hide Preorder, Sized, KindFits, Admits, Kids, Under;
    OldAllFit(toks, now);
    if super >= 0 { NewFits(toks, super, t); }
    hide Bump;
    assert now[|toks|] == t;
  }

  /** The token an opening bracket or a finished primitive would store. */
  function Offered(c: Context, st: State): Token
    requires !AtEnd(c.js, st.pos)
  {
    var b := c.js[st.pos];
    if b as char in "{[" then Token(if b as char == '{' then Object else Array, st.pos, -1, 0, st.super)
    else if ScanPrimitive(c.js, st.pos).Found? then
      Token(Primitive, st.pos, ScanPrimitive(c.js, st.pos).at, 0, st.super)
    else Token(Primitive, st.pos, -1, 0, st.super)
  }

  ghost predicate Welcome(c: Context, st: State)
    requires Linked(st) && !AtEnd(c.js, st.pos)
  {
    Kinds(Bump(st.toks, st.super, 1) + [Offered(c, st)])
  }

  /** An opening bracket, with a slot free, is refused if and only if its token would not fit the kinds. */
  lemma OpenerRefusedIff(c: Context, st: State)
    requires c.links && Forest(st) && Kinds(st.toks) && !AtEnd(c.js, st.pos) && c.js[st.pos] as char in "{["
    requires |st.toks| < |c.slots|
    ensures if Welcome(c, st) then
              Step(c, st) == More(State(st.pos + 1, Bump(st.toks, st.super, 1) + [Offered(c, st)], |st.toks|))
            else Step(c, st).Stop? && Step(c, st).r == ERROR_INVAL
  {
    KindsGrow(st.toks, st.super, Offered(c, st));
    hide Kinds, Preorder, Sized, Under, Spanned, Bump;
  }

  lemma PrimitiveTurn(c: Context, st: State)
    requires Linked(st) && !AtEnd(c.js, st.pos) && PrimitiveStart(c.js[st.pos])
    ensures Step(c, st) == OnPrimitive(c, st)
    ensures Offered(c, st) == Token(Primitive, st.pos,
                                    if ScanPrimitive(c.js, st.pos).Found? then ScanPrimitive(c.js, st.pos).at else -1,
                                    0, st.super)
  {
    NoBracketStarts(c.js[st.pos]);
    hide OnPrimitive, ScanPrimitive, Blank, PrimitiveStart;
  }

  /** A sound primitive, with a slot free, is refused if and only if its token would not fit the kinds. */
  lemma PrimitiveRefusedIff(c: Context, st: State)
    requires c.links && Forest(st) && Kinds(st.toks) && !AtEnd(c.js, st.pos) && PrimitiveStart(c.js[st.pos])
    requires ScanPrimitive(c.js, st.pos).Found? && |st.toks| < |c.slots|
    ensures if Welcome(c, st) then
              Step(c, st) == More(State(ScanPrimitive(c.js, st.pos).at,
                                        Bump(st.toks, st.super, 1) + [Offered(c, st)], st.super))
            else Step(c, st).Stop? && Step(c, st).r == ERROR_INVAL
  {
    PrimitiveTurn(c, st);
    assert Linked(st);
    KindsGrow(st.toks, st.super, Offered(c, st));
    hide Kinds, Forest, ScanPrimitive, PrimitiveStart, Step, Offered, Bump;
  }

  /** A primitive that is not sound, or finds no slot, stops the run; refused ones report INVAL first. */
  lemma PrimitiveStopsIff(c: Context, st: State)
    requires c.links && Forest(st) && Kinds(st.toks) && !AtEnd(c.js, st.pos) && PrimitiveStart(c.js[st.pos])
    requires !ScanPrimitive(c.js, st.pos).Found? || |st.toks| >= |c.slots|
    ensures Step(c, st) == Stop(if !Welcome(c, st) || ScanPrimitive(c.js, st.pos).Illegal? then ERROR_INVAL
                                else if ScanPrimitive(c.js, st.pos).Unfinished? then ERROR_PART
                                else ERROR_NOMEM, st)
  {
    PrimitiveTurn(c, st);
    assert Linked(st);
    KindsGrow(st.toks, st.super, Offered(c, st));
    hide Kinds, Forest, ScanPrimitive, PrimitiveStart, Step, Offered, Bump;
  }

  /** A string is never refused for its place. */
  lemma StringStopsIff(c: Context, st: State)
    requires Linked(st) && !AtEnd(c.js, st.pos) && c.js[st.pos] as char == '"'
    ensures match ScanString(c.js, st.pos + 1)
            case Illegal => Step(c, st) == Stop(ERROR_INVAL, st)
            case Unfinished => Step(c, st) == Stop(ERROR_PART, st)
            case Found(_) => if |st.toks| >= |c.slots| then Step(c, st) == Stop(ERROR_NOMEM, st) else Step(c, st).More?
  {
    hide ScanString;
  }

  /** What a turn stores its parent admits. */
  lemma StoredFits(c: Context, st: State)
    requires c.links && Linked(st) && !AtEnd(c.js, st.pos) && Step(c, st).More? && |Step(c, st).st.toks| > |st.toks|
    ensures var next := Step(c, st).st.toks;
            && |next| == |st.toks| + 1 && next == Bump(st.toks, st.super, 1) + [next[|st.toks|]]
            && next[|st.toks|].parent == st.super
            && (st.super >= 0 ==> Admits(st.toks[st.super], next[|st.toks|].typ))
  {
    hide ScanString, ScanPrimitive, EscapeLetter, Hex, LastOpen, LastOpenContainer, Climb;
  }

  lemma StepKinds(c: Context, st: State)
    requires c.links && Forest(st) && Kinds(st.toks) && !AtEnd(c.js, st.pos) && Step(c, st).More?
    ensures Kinds(Step(c, st).st.toks)
  {
    StepKeepsKinds(c, st);
    if |Step(c, st).st.toks| > |st.toks| {
      StoredFits(c, st);
      KindsGrow(st.toks, st.super, Step(c, st).st.toks[|st.toks|]);
    } else {
      assert Linked(st);
      hide Step, Kinds, Forest, Linked;
      SameKinds(st.toks, Step(c, st).st.toks);
    }
    hide Step, Kinds, Forest;
  }

  lemma SameKinds(toks: seq<Token>, next: seq<Token>)
    requires |toks| == |next| && Kinds(toks) && forall k | 0 <= k < |toks| :: -1 <= toks[k].parent < k
    requires forall k | 0 <= k < |toks| :: toks[k].typ == next[k].typ && toks[k].parent == next[k].parent
    ensures Kinds(next)
  {
    hide KindFits;
    OldAllFit(toks, next);
  }

  lemma {:induction false} RunKinds(c: Context, st: State)
    requires c.links && Forest(st) && Kinds(st.toks)
    ensures Linked(st) && (Run(c, st).0 != ERROR_INVAL ==> Kinds(Run(c, st).1.toks))
    decreases |c.js| - st.pos
  {
    assert Linked(st);
    hide Forest, Kinds, Linked;
    if !AtEnd(c.js, st.pos) && Step(c, st).More? {
      StepKeepsForest(c, st);
      StepKinds(c, st);
      hide Step;
      RunKinds(c, Step(c, st).st);
    }
  }

  /**
   Every accepted text is whole, has one token for every lexeme that counts, and its tokens fit: under an
   object stand strings only, and a primitive under a string is its first child.
   */
  lemma AcceptedFits(c: Context)
    requires c.links
    ensures var (r, last) := Run(c, INIT); r >= 0 ==> Lex(c.js, 0) == Whole(r) && Kinds(last.toks)
  {
    hide Lex;
    RunIsLexed(c, INIT);
    RunKinds(c, INIT);
  }

  // ----- where the next token goes -----

  /** The last open token, found from outside the parser. */
  ghost predicate IsLastOpen(toks: seq<Token>, o: int) {
    0 <= o < |toks| && toks[o].end == -1 && forall k | o < k < |toks| :: toks[k].end != -1
  }

  /**
   Under which token the next one goes, turn by turn: an opened container, the parent of the container
   closed, the last token after a colon whatever it is, the parent of a name or value after a comma.
   */
  lemma SuperMoves(c: Context, st: State)
    requires c.links && Forest(st) && !AtEnd(c.js, st.pos) && Step(c, st).More?
    ensures var b, super := c.js[st.pos] as char, Step(c, st).st.super;
            && (b in "{[" ==> super == |st.toks|)
            && (b == ':' ==> super == |st.toks| - 1)
            && (b == ',' ==> super == if st.super >= 0 && st.toks[st.super].typ !in {Object, Array}
                                      then st.toks[st.super].parent else st.super)
            && (b in "}]" ==> (forall o | IsLastOpen(st.toks, o) :: super == st.toks[o].parent)
                              && ((forall o | 0 <= o < |st.toks| :: st.toks[o].end != -1) ==> super == st.super))
            && (b !in "{[}]:," ==> super == st.super)
  {
    hide Preorder, Sized, Under;
    if c.js[st.pos] == RBRACE || c.js[st.pos] == RBRACKET { CloserSuperExact(c, st); }
    hide Forest, LastOpen, LastOpenContainer, Climb, OnClose;
  }

  lemma CloserSuperExact(c: Context, st: State)
    requires c.links && Forest(st) && st.pos < |c.js| && OnClose(c, st).More?
    ensures (forall o | IsLastOpen(st.toks, o) :: OnClose(c, st).st.super == st.toks[o].parent)
    ensures (forall o | 0 <= o < |st.toks| :: st.toks[o].end != -1) ==> OnClose(c, st).st.super == st.super
  {
    LinkedCloser(c, st);
    assert forall k | 0 <= k < |st.toks| :: st.toks[k].Open() <==> st.toks[k].end == -1 by {
      assert forall k | 0 <= k < |st.toks| :: Spanned(st.toks[k], st.pos);
    }
    hide Preorder, Sized, Under, OnClose, Climb;
  }
}
