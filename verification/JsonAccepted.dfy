/**
 Which texts json_parse_start accepts: those that one filling pass with ample room accepts and that hold a
 token at all. The number of slots it asks for itself, counted first, makes no difference.
 */
module JsonAccepted {
  import opened Bytes
  import opened Text
  import opened JsmnMachine
  import opened JsmnResume
  import opened JsmnRefusals
  import opened JsonTree
  import opened JsonContext

  lemma {:induction false} RunGrows(c: Context, st: State)
    requires Linked(st)
    ensures |Run(c, st).1.toks| >= |st.toks|
    decreases |c.js| - st.pos
  {
    if !AtEnd(c.js, st.pos) {
      StepGrows(c, st);
      hide Step, Linked;
      if Step(c, st).More? {
        StillLinked(c, st);
        RunGrows(c, Step(c, st).st);
      }
    }
  }

  lemma StepGrows(c: Context, st: State)
    requires Linked(st) && !AtEnd(c.js, st.pos)
    ensures |Step(c, st).st.toks| >= |st.toks|
  {
  }

  /** With fewer slots, but as many as a run ends up using, the run is the same. */
  lemma {:induction false} FewerSlots(c: Context, d: Context, st: State)
    requires Linked(st) && Grows(c, d, |st.toks|) && c.js == d.js
    ensures 0 <= Run(d, st).0 <= |c.slots| ==> Run(c, st) == Run(d, st)
    decreases |c.js| - st.pos
  {
    if !AtEnd(c.js, st.pos) {
      StepShrinks(c, d, st);
      if Step(d, st).More? { StillLinked(d, st); RunGrows(d, Step(d, st).st); }
      hide Step, Linked, Grows;
      if Step(d, st).More? && Step(c, st) == Step(d, st) {
        FewerSlots(c, d, Step(d, st).st);
      }
    }
  }

  lemma StepShrinks(c: Context, d: Context, st: State)
    requires Linked(st) && Grows(c, d, |st.toks|) && c.js == d.js && !AtEnd(c.js, st.pos)
    ensures Step(d, st).More? ==>
              if |Step(d, st).st.toks| <= |c.slots| || |Step(d, st).st.toks| == |st.toks| then
                Step(c, st) == Step(d, st) && Grows(c, d, |Step(d, st).st.toks|)
              else true
  {
    hide ScanString, ScanPrimitive, LastOpen, LastOpenContainer, Climb;
  }

  /**
   json_parse_start succeeds exactly on the texts that one pass with a slot for every byte accepts, if they
   hold a token.
   */
  lemma ParsesIffAccepted(js: seq<byte>)
    ensures Parses(js) <==> Filled(js, |js|).0 > 0
    ensures Parses(js) ==> Filled(js, Counted(js)) == Filled(js, |js|)
  {
    var d := Context(js, ZeroTokens(|js|), true);
    CountIsLexed(js, Tally(0, 0, -1), 0);
    hide Run, CountRun, Lex;
    CountIsEnough(d);
    var n := Counted(js);
    if n > 0 {
      var c := Context(js, ZeroTokens(n), true);
      CountIsEnough(c);
      ResumeExact(c, d, INIT);
      FewerSlots(c, d, INIT);
      Ended(c, d);
    }
  }

  /** A successful call has read the text to its end, and calling again changes nothing. */
  lemma {:induction false} RunsOut(c: Context, st: State)
    requires Linked(st)
    ensures Run(c, st).0 >= 0 ==> AtEnd(c.js, Run(c, st).1.pos)
    decreases |c.js| - st.pos
  {
    if !AtEnd(c.js, st.pos) {
      hide Step, Linked;
      StepCodes(c, st);
      if Step(c, st).More? {
        StillLinked(c, st);
        RunsOut(c, Step(c, st).st);
      }
    }
  }

  lemma StepCodes(c: Context, st: State)
    requires Linked(st) && !AtEnd(c.js, st.pos)
    ensures Step(c, st).Stop? ==> Step(c, st).r < 0
  {
  }

  lemma Ended(c: Context, d: Context)
    requires c.js == d.js
    ensures Run(c, INIT).0 >= 0 ==> Linked(Run(c, INIT).1) && Run(d, Run(c, INIT).1) == Run(c, INIT)
  {
    RunsOut(c, INIT);
    if Run(c, INIT).0 >= 0 {
      RunVerdict(c, INIT);
    }
  }

  lemma {:induction false} RunVerdict(c: Context, st: State)
    requires Linked(st)
    ensures Run(c, st).0 >= 0 ==> Run(c, st).0 == Verdict(Run(c, st).1)
    decreases |c.js| - st.pos
  {
    if !AtEnd(c.js, st.pos) {
      hide Step, Linked, Verdict;
      StepCodes(c, st);
      if Step(c, st).More? {
        StillLinked(c, st);
        RunVerdict(c, Step(c, st).st);
      }
    }
  }

  lemma {:induction false} BlankLexes(js: seq<byte>, p: nat)
    requires p <= |js| && Blanks(js)
    ensures Lex(js, p) == Whole(0)
    decreases |js| - p
  {
    if !AtEnd(js, p) {
      assert js[p] in js;
      LexemeByBytes(js, p);
      NoBracketStarts(js[p]);
      hide Lexeme, Counts;
      BlankLexes(js, p + 1);
    }
  }

  /** A text of whitespace only, or none at all, is not accepted: json_parse_start asks for one token at least. */
  lemma BlankIsRefused(js: seq<byte>)
    requires Blanks(js)
    ensures !Parses(js) && Counted(js) == 0 && Filled(js, |js|).0 == 0
  {
    BlankLexes(js, 0);
    CountIsLexed(js, Tally(0, 0, -1), 0);
    BlankRuns(Context(js, ZeroTokens(|js|), true), INIT);
    hide Run, CountRun, Lex;
  }

  lemma {:induction false} BlankRuns(c: Context, st: State)
    requires Blanks(c.js) && st.toks == [] && st.super == -1
    ensures Run(c, st).0 == 0
    decreases |c.js| - st.pos
  {
    if !AtEnd(c.js, st.pos) {
      assert c.js[st.pos] in c.js && Blank(c.js[st.pos]);
      assert Step(c, st) == More(st.(pos := st.pos + 1));
      BlankRuns(c, st.(pos := st.pos + 1));
    }
  }

  /** A text in which the reading meets a byte that starts nothing is refused. */
  lemma StrayIsRefused(js: seq<byte>, q: nat)
    requires Reaches(js, 0, q) && !AtEnd(js, q) && Alien(js[q])
    ensures !Parses(js)
  {
    StrayByteRefused(Context(js, ZeroTokens(|js|), true), q);
    hide Run, CountRun, Reaches;
  }
}
