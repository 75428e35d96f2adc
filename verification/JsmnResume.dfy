/**
 Calling jsmn_parse again on the same parser: after more bytes have arrived, after more tokens have
 been supplied, or both. Any schedule of such calls ends like one call on the whole text. Also the
 two passes of json_parse_start, which visit the same positions in lockstep.
 */
module JsmnResume {
  import opened Bytes
  import opened Text
  import opened JsmnMachine
  import opened JsmnParser

  /** `d` offers at least the bytes and the token slots of `c`; the free slots, from `n` on, agree. */
  ghost predicate Grows(c: Context, d: Context, n: nat) {
    && c.js <= d.js && c.links == d.links && |c.slots| <= |d.slots|
    && forall k | n <= k < |c.slots| :: c.slots[k] == d.slots[k]
  }

  /** A turn that did not run out of bytes or slots is the same turn with more of them. */
  lemma StepExtend(c: Context, d: Context, st: State)
    requires Grows(c, d, |st.toks|) && Linked(st) && !AtEnd(c.js, st.pos)
    ensures !AtEnd(d.js, st.pos)
    ensures var t := Step(c, st);
            t.More? || t.r == ERROR_INVAL ==> Step(d, st) == t
  {
    assert c.js[st.pos] == d.js[st.pos];
    ScanStringExtend(c.js, d.js, st.pos + 1);
    ScanPrimitiveExtend(c.js, d.js, st.pos);
  }

  /** Resuming where a call stopped gives exactly what one call from the start would have given. */
  lemma {:induction false} ResumeExact(c: Context, d: Context, st: State)
    requires Grows(c, d, |st.toks|) && Linked(st)
    ensures var (r, last) := Run(c, st);
            if r == ERROR_INVAL then Run(d, st) == (r, last) else Run(d, last) == Run(d, st)
    decreases |c.js| - st.pos
  {
    if !AtEnd(c.js, st.pos) {
      StepExtend(c, d, st);
      if Step(c, st).More? {
        ResumeExact(c, d, Step(c, st).st);
      }
    }
  }

  lemma StepSame(c: Context, d: Context, st: State)
    requires Grows(c, d, |st.toks|) && Linked(st) && !AtEnd(c.js, st.pos) && c.js == d.js && |c.slots| == |d.slots|
    ensures Step(c, st) == Step(d, st)
  {
  }

  /** What the array holds behind the allocated tokens matters, what it held under them does not. */
  lemma {:induction false} OnlyFreeSlotsMatter(c: Context, d: Context, st: State)
    requires Grows(c, d, |st.toks|) && Linked(st) && c.js == d.js && |c.slots| == |d.slots|
    ensures Run(c, st) == Run(d, st)
    decreases |c.js| - st.pos
  {
    if !AtEnd(c.js, st.pos) {
      StepSame(c, d, st);
      hide Step;
      if Step(c, st).More? {
        OnlyFreeSlotsMatter(c, d, Step(c, st).st);
      }
    }
  }

  /** A caller that keeps calling jsmn_parse with what it has, until it is told INVAL. */
  function Feed(cs: seq<Context>, st: State): (int, State)
    requires |cs| > 0 && Linked(st)
  {
    var (r, last) := Run(cs[0], st);
    if |cs| == 1 || r == ERROR_INVAL then (r, last) else Feed(cs[1..], last)
  }

  /**
   What such a caller may pass, call by call: some of the bytes and slots of `whole`. Only the slots
   that are free at the time of the call must be those of `whole`; the others have been written to by
   the calls before. The last call passes everything.
   */
  ghost predicate Feeds(cs: seq<Context>, whole: Context, st: State)
    requires |cs| > 0 && Linked(st)
    decreases |cs|
  {
    && Grows(cs[0], whole, |st.toks|)
    && if |cs| == 1 then cs[0].js == whole.js && |cs[0].slots| == |whole.slots|
       else
         var (r, last) := Run(cs[0], st);
         r != ERROR_INVAL ==> Feeds(cs[1..], whole, last)
  }

  /** However the bytes and the tokens arrive, the last call ends as one call over everything. */
  lemma {:induction false} FeedExact(cs: seq<Context>, whole: Context, st: State)
    requires |cs| > 0 && Linked(st) && Feeds(cs, whole, st)
    ensures Feed(cs, st) == Run(whole, st)
    decreases |cs|
  {
    if |cs| == 1 {
      OnlyFreeSlotsMatter(cs[0], whole, st);
    } else {
      hide Grows;
      var (r, last) := Run(cs[0], st);
      ResumeExact(cs[0], whole, st);
      if r != ERROR_INVAL {
        FeedExact(cs[1..], whole, last);
      }
    }
  }

  /** What one call offers: a length and a number of tokens. */
  datatype Offer = Offer(len: nat, num: nat)

  /** Later calls offer no less than earlier ones, and no call more than there is. */
  predicate Rising(offers: seq<Offer>, len: nat, num: nat) {
    && (forall i | 0 <= i < |offers| :: offers[i].len <= len && offers[i].num <= num)
    && forall i, j | 0 <= i <= j < |offers| :: offers[i].num <= offers[j].num
  }

  /**
   jsmn_parse called again and again on one parser and one array, then with everything: value, parser
   and tokens are those of a single call.
   */
  method ParseInParts(parser: Parser, js: seq<byte>, tokens: array<Token>, num: nat, offers: seq<Offer>)
    returns (r: int)
    requires num <= tokens.Length && Rising(offers, |js|, num)
    requires parser.Fit(tokens, if offers == [] then num else offers[0].num)
    modifies parser, tokens
    ensures parser.toknext <= num
    ensures (r, parser.Abs(tokens)) == Run(Context(js, old(tokens[..num]), parser.links), old(parser.Abs(tokens)))
    ensures tokens[parser.toknext..] == old(tokens[..])[parser.toknext..]
  {
    hide Run, Linked;
    ghost var was, st0 := tokens[..], parser.Abs(tokens);
    ghost var whole := Context(js, was[..num], parser.links);
    var i := 0;
    while i < |offers|
      invariant 0 <= i <= |offers|
      invariant parser.Fit(tokens, if i == |offers| then num else offers[i].num)
      invariant tokens[parser.toknext..] == was[parser.toknext..]
      invariant Run(whole, parser.Abs(tokens)) == Run(whole, st0)
    {
      ghost var st := parser.Abs(tokens);
      ghost var c := Context(js[..offers[i].len], tokens[..offers[i].num], parser.links);
      PartGrows(c, whole, tokens[..], was, parser.toknext);
      ResumeExact(c, whole, st);
      r := parser.Parse(js[..offers[i].len], tokens, offers[i].num);
      RunStaysLinked(c, st);
      if r == ERROR_INVAL {
        return;
      }
      i := i + 1;
    }
    ghost var last := Context(js, tokens[..num], parser.links);
    PartGrows(last, whole, tokens[..], was, parser.toknext);
    OnlyFreeSlotsMatter(last, whole, parser.Abs(tokens));
    r := parser.Parse(js, tokens, num);
  }

  lemma PartGrows(c: Context, whole: Context, now: seq<Token>, was: seq<Token>, n: nat)
    requires n <= |c.slots| <= |whole.slots| <= |now| == |was|
    requires c.slots == now[..|c.slots|] && whole.slots == was[..|whole.slots|] && now[n..] == was[n..]
    requires c.js <= whole.js && c.links == whole.links
    ensures Grows(c, whole, n)
  {
    forall k | n <= k < |c.slots| ensures c.slots[k] == whole.slots[k] {
      assert now[k] == now[n..][k - n];
    }
  }

  lemma RunStaysLinked(c: Context, st: State)
    requires Linked(st)
    ensures Run(c, st).0 != ERROR_INVAL ==> Linked(Run(c, st).1)
  {
  }

  /** The counting pass and the filling pass are at the same place. */
  ghost predicate Abreast(st: State, t: Tally) {
    Linked(st) && st.pos == t.pos && |st.toks| == t.count
  }

  lemma TurnsAbreast(c: Context, st: State, t: Tally)
    requires Abreast(st, t) && !AtEnd(c.js, t.pos)
    ensures Step(c, st).More? ==>
              CountStep(c.js, t, 0).Onward? && Abreast(Step(c, st).st, CountStep(c.js, t, 0).t)
    ensures Step(c, st).Stop? && Step(c, st).r == ERROR_NOMEM ==>
              |st.toks| >= |c.slots| && CountStep(c.js, t, 0).Onward? && CountStep(c.js, t, 0).t.count == t.count + 1
  {
  }

  lemma {:induction false} PassesAbreast(c: Context, st: State, t: Tally)
    requires Abreast(st, t)
    ensures var (r, last), n := Run(c, st), CountRun(c.js, t, 0).0;
            && (r >= 0 ==> n == r)
            && (n >= 0 && n <= |c.slots| ==> r != ERROR_NOMEM)
    decreases |c.js| - st.pos
  {
    if !AtEnd(c.js, st.pos) {
      TurnsAbreast(c, st, t);
      if Step(c, st).More? {
        PassesAbreast(c, Step(c, st).st, CountStep(c.js, t, 0).t);
      }
    }
  }

  /**
   The counting pass is exact: with the number of tokens it returns the filling pass does not run
   short, and if it succeeds it has filled every slot. A text the filling pass accepts is counted.
   */
  lemma CountIsEnough(c: Context)
    ensures var (r, last), n := Run(c, INIT), CountRun(c.js, Tally(0, 0, -1), 0).0;
            && (n >= 0 && |c.slots| == n ==> r != ERROR_NOMEM)
            && (r >= 0 ==> n == r == |last.toks|)
  {
    PassesAbreast(c, INIT, Tally(0, 0, -1));
  }
}
