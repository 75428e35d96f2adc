/**
 A NUL byte inside the length given to jsmn ends the text: a call does what it does on the bytes in front of
 it. The one exception is a string cut off right behind a backslash, which looks at the NUL byte and refuses
 it where the shorter text is only partial.
 */
module JsmnTextEnd {
  import opened Bytes
  import opened Text
  import opened StringGrammar
  import opened JsmnMachine
  import opened JsmnRefusals
  import opened JsonContext

  ghost predicate LegalTo(js: seq<byte>, p: nat, q: nat) {
    exists cs :: Body(js, p, q, cs)
  }

  /** The string scan from `p` gets to a backslash in front of the NUL byte at `z` that would start an escape. */
  ghost predicate Dangling(js: seq<byte>, p: nat, z: nat)
    requires z < |js|
  {
    p < z && js[z - 1] == BACKSLASH && LegalTo(js, p, z - 1)
  }

  lemma {:induction false} HexDigitsCut(js: seq<byte>, z: nat, p: nat, k: nat)
    requires p <= z < |js| && js[z] == NUL
    ensures HexDigits(js[..z], p, k) == HexDigits(js, p, k)
    ensures HexDigits(js, p, k).Found? ==> HexDigits(js, p, k).at <= z
    decreases k
  {
    if k != 0 && p < z && Hex(js[p]) {
      HexDigitsCut(js, z, p + 1, k - 1);
    }
  }

  lemma {:induction false} ScanPrimitiveCut(js: seq<byte>, z: nat, p: nat)
    requires p <= z < |js| && js[z] == NUL
    ensures ScanPrimitive(js[..z], p) == ScanPrimitive(js, p)
    decreases z - p
  {
    if p < z && !AtEnd(js, p) {
      ScanPrimitiveCut(js, z, p + 1);
    }
  }

  /** A legal body that leads from `p` to the dangling backslash: the scan stops there in both texts. */
  lemma DanglingScans(js: seq<byte>, z: nat, p: nat)
    requires p <= z < |js| && js[z] == NUL && Dangling(js, p, z)
    ensures ScanString(js[..z], p).Unfinished? && ScanString(js, p).Illegal?
  {
    hide Body, ScanString;
    var cs :| Body(js, p, z - 1, cs);
    ScanBody(js, p, z - 1, cs);
    BodyCut(js, z, p, z - 1, cs);
    ScanBody(js[..z], p, z - 1, cs);
    AtBackslash(js, z);
  }

  lemma AtBackslash(js: seq<byte>, z: nat)
    requires 0 < z < |js| && js[z] == NUL && js[z - 1] == BACKSLASH
    ensures ScanString(js[..z], z - 1).Unfinished? && ScanString(js, z - 1).Illegal?
  {
    assert ScanString(js[..z], z).Unfinished?;
  }

  lemma BodyCut(js: seq<byte>, z: nat, p: nat, q: nat, cs: seq<Chunk>)
    requires z <= |js| && Body(js, p, q, cs) && q <= z
    ensures Body(js[..z], p, q, cs)
  {
    hide AllLegal, SpellAll;
    assert js[..z][p..q] == js[p..q];
  }

  /** Otherwise the two scans are the same. */
  lemma {:induction false} ScanStringCut(js: seq<byte>, z: nat, p: nat)
    requires p <= z < |js| && js[z] == NUL
    ensures if Dangling(js, p, z) then ScanString(js[..z], p).Unfinished? && ScanString(js, p).Illegal?
            else ScanString(js[..z], p) == ScanString(js, p)
    decreases z - p
  {
    if Dangling(js, p, z) {
      DanglingScans(js, z, p);
    } else {
      hide Body, Legal, Spell, At;
      if AtEnd(js, p) || p == z || js[p] == QUOTE {
      } else if js[p] != BACKSLASH {
        PlainAt(js, p);
        CutBehind(js, z, p, Plain(js[p]));
      } else if p + 1 == z {
        LastDangles(js, z);
      } else if EscapeLetter(js[p + 1]) {
        EscapeAt(js, p);
        CutBehind(js, z, p, Escape(js[p + 1]));
      } else if js[p + 1] == LETTER_U {
        HexDigitsCut(js, z, p + 2, 4);
        HexDigitsExact(js, p + 2, 4);
        var r := HexDigits(js, p + 2, 4);
        if r == Found(p + 6) {
          UnicodeHolds(js, p);
          UnicodeAt(js, p);
          CutBehind(js, z, p, Unicode(js[p + 2..p + 6]));
        } else if r.Found? {
          assert AtEnd(js, r.at) && ScanString(js, r.at).Unfinished?;
          assert AtEnd(js[..z], r.at) && ScanString(js[..z], r.at).Unfinished?;
        }
      }
    }
  }

  lemma {:induction false} CutBehind(js: seq<byte>, z: nat, p: nat, c: Chunk)
    requires p <= z < |js| && js[z] == NUL && Legal(c) && At(js, p, Spell(c)) && p + |Spell(c)| <= z
    requires !Dangling(js, p, z)
    ensures ScanString(js[..z], p) == ScanString(js, p)
    decreases z - p, 0
  {
    hide Legal, ScanString, Dangling, At;
    ChunkCut(js, z, p, c);
    ScanChunk(js, p, c);
    ScanChunk(js[..z], p, c);
    DangleBack(js, z, p, c);
    hide Spell;
    ScanStringCut(js, z, p + |Spell(c)|);
  }

  lemma ChunkCut(js: seq<byte>, z: nat, p: nat, c: Chunk)
    requires p <= z <= |js| && At(js, p, Spell(c)) && p + |Spell(c)| <= z
    ensures At(js[..z], p, Spell(c)) && |Spell(c)| > 0
  {
    assert |Spell(c)| > 0;
    hide Spell;
    assert js[..z][p..p + |Spell(c)|] == js[p..p + |Spell(c)|];
  }

  lemma DangleBack(js: seq<byte>, z: nat, p: nat, c: Chunk)
    requires z < |js| && Legal(c) && At(js, p, Spell(c))
    ensures Dangling(js, p + |Spell(c)|, z) ==> Dangling(js, p, z)
  {
    hide Legal, Spell, At, Body;
    if Dangling(js, p + |Spell(c)|, z) {
      var cs :| Body(js, p + |Spell(c)|, z - 1, cs);
      BodyPrepend(js, p, c, z - 1, cs);
    }
  }

  lemma LastDangles(js: seq<byte>, z: nat)
    requires 0 < z < |js| && js[z - 1] == BACKSLASH
    ensures Dangling(js, z - 1, z)
  {
    EmptyBody(js, z - 1);
    assert Body(js, z - 1, z - 1, []);
  }

  lemma BodyPrepend(js: seq<byte>, p: nat, c: Chunk, q: nat, cs: seq<Chunk>)
    requires Legal(c) && At(js, p, Spell(c)) && Body(js, p + |Spell(c)|, q, cs)
    ensures Body(js, p, q, [c] + cs)
  {
    hide Legal, Spell, At;
    AtPlus(js, p, Spell(c), SpellAll(cs));
    assert ([c] + cs)[1..] == cs;
  }

  // ----- runs -----

  function Before(c: Context, z: nat): Context
    requires z <= |c.js|
  {
    c.(js := c.js[..z])
  }

  /** The turn stops at a string with a dangling backslash. */
  ghost predicate Dangles(js: seq<byte>, pos: nat, z: nat)
    requires z < |js|
  {
    pos < z && js[pos] == QUOTE && Dangling(js, pos + 1, z)
  }

  lemma StepCut(c: Context, st: State, z: nat)
    requires Linked(st) && st.pos < z < |c.js| && c.js[z] == NUL && !AtEnd(c.js, st.pos)
    ensures if Dangles(c.js, st.pos, z) then
              Step(Before(c, z), st) == Stop(ERROR_PART, st) && Step(c, st) == Stop(ERROR_INVAL, st)
            else Step(Before(c, z), st) == Step(c, st)
  {
    hide ScanString, ScanPrimitive, Dangling, LastOpen, LastOpenContainer, Climb;
    if c.js[st.pos] == QUOTE {
      ScanStringCut(c.js, z, st.pos + 1);
    } else {
      ScanPrimitiveCut(c.js, z, st.pos);
      SameTurn(c, Before(c, z), st);
    }
  }

  lemma SameTurn(c: Context, d: Context, st: State)
    requires Linked(st) && !AtEnd(c.js, st.pos) && !AtEnd(d.js, st.pos) && c.slots == d.slots && c.links == d.links
    requires c.js[st.pos] == d.js[st.pos] != QUOTE && ScanPrimitive(c.js, st.pos) == ScanPrimitive(d.js, st.pos)
    ensures Step(c, st) == Step(d, st)
  {
    hide ScanString, ScanPrimitive, LastOpen, LastOpenContainer, Climb, Linked;
  }

  /**
   A call on a text with a NUL byte at `z` is the call on the bytes before it, value and state, unless that
   one reports a partial string that ends in a dangling backslash: then the call reports INVAL.
   */
  lemma {:induction false} RunCut(c: Context, st: State, z: nat)
    requires Linked(st) && st.pos <= z < |c.js| && c.js[z] == NUL
    ensures var (r, last) := Run(Before(c, z), st);
            Run(c, st) == if r == ERROR_PART && Dangles(c.js, last.pos, z) then (ERROR_INVAL, last) else (r, last)
    decreases |c.js| - st.pos
  {
    if st.pos < z && !AtEnd(c.js, st.pos) {
      StepCut(c, st, z);
      StepRight(c, st);
      hide Step, Dangles, Linked;
      if Step(c, st).More? {
        StepRight(Before(c, z), st);
        RunCut(c, Step(c, st).st, z);
      }
    } else {
      hide Step;
      assert st.pos == z || c.js[st.pos] == NUL;
      AtNulNothingDangles(c.js, st.pos, z);
    }
  }

  lemma AtNulNothingDangles(js: seq<byte>, pos: nat, z: nat)
    requires z < |js| && AtEnd(js, pos)
    ensures !Dangles(js, pos, z)
  {
  }

  /** A quote, a backslash and NUL: refused, where the two bytes before the NUL are a partial string. */
  lemma DanglingIsRefused(c: Context)
    requires c.js == [QUOTE, BACKSLASH, NUL]
    ensures Run(c, INIT) == (ERROR_INVAL, INIT) && Run(Before(c, 2), INIT) == (ERROR_PART, INIT)
  {
    AtBackslash(c.js, 2);
    assert Step(Before(c, 2), INIT) == Stop(ERROR_PART, INIT);
  }

  lemma StepRight(c: Context, st: State)
    requires Linked(st) && !AtEnd(c.js, st.pos)
    ensures Step(c, st).More? ==> Linked(Step(c, st).st) && st.pos < Step(c, st).st.pos <= |c.js|
    ensures Step(c, st).Stop? && Step(c, st).r == ERROR_PART ==> Step(c, st).st == st
  {
  }

  // ----- both passes -----

  lemma LexemeCut(js: seq<byte>, z: nat, p: nat)
    requires p < z < |js| && js[z] == NUL && !AtEnd(js, p)
    ensures if Dangles(js, p, z) then Lexeme(js[..z], p).Unfinished? && Lexeme(js, p).Illegal?
            else Lexeme(js[..z], p) == Lexeme(js, p)
    ensures Lexeme(js, p).Found? ==> Lexeme(js, p).at <= z
  {
    ScanStringCut(js, z, p + 1);
    ScanPrimitiveCut(js, z, p);
    hide ScanString, ScanPrimitive, Dangling;
  }

  lemma {:induction false} LexCut(js: seq<byte>, z: nat, p: nat)
    requires p <= z < |js| && js[z] == NUL
    ensures Lex(js, p) == Lex(js[..z], p) || (Lex(js, p).Broken? && Lex(js[..z], p).Broken?)
    decreases z - p
  {
    if p < z && !AtEnd(js, p) {
      LexemeCut(js, z, p);
      hide Lexeme, Dangles, Counts;
      if Lexeme(js, p).Found? {
        LexCut(js, z, Lexeme(js, p).at);
      }
    }
  }

  /** json_parse_start accepts a text with a NUL byte exactly if it accepts what is before it, with the same tokens. */
  lemma ParsesCut(js: seq<byte>, z: nat)
    requires z < |js| && js[z] == NUL
    ensures Parses(js) <==> Parses(js[..z])
    ensures Parses(js) ==>
              Counted(js) == Counted(js[..z]) && Filled(js, Counted(js)) == Filled(js[..z], Counted(js))
  {
    CountedCut(js, z);
    hide Counted, Filled;
    if Counted(js) > 0 { FilledCut(js, z, Counted(js)); }
  }

  lemma CountedCut(js: seq<byte>, z: nat)
    requires z < |js| && js[z] == NUL
    ensures Counted(js) == Counted(js[..z]) || (Counted(js) < 0 && Counted(js[..z]) < 0)
  {
    LexCut(js, z, 0);
    CountIsLexed(js, Tally(0, 0, -1), 0);
    CountIsLexed(js[..z], Tally(0, 0, -1), 0);
    LexErrors(js, 0);
    LexErrors(js[..z], 0);
    hide Lex, CountRun;
  }

  lemma FilledCut(js: seq<byte>, z: nat, n: nat)
    requires z < |js| && js[z] == NUL
    ensures Filled(js, n) == Filled(js[..z], n) || (Filled(js, n).0 < 0 && Filled(js[..z], n).0 < 0)
  {
    hide Run, Dangles, ZeroTokens;
    RunCut(Context(js, ZeroTokens(n), true), INIT, z);
  }

  lemma LexErrors(js: seq<byte>, p: nat)
    ensures Lex(js, p).Broken? ==> Lex(js, p).code < 0
  {
  }
}
