/**
 The parser object of jsmn and its methods, in the source's own imperative form. Each method is
 proved to do exactly what the state machine of JsmnMachine says; `js` stands for the pointer and
 the length passed beside it, a null `tokens` for the counting pass.
 */
module JsmnParser {
  import opened Bytes
  import opened Text
  import opened JsmnMachine

  class Parser {
    const links: bool
    var pos: nat
    var toknext: nat
    var toksuper: int

    constructor (links: bool)
      ensures this.links == links
      ensures pos == 0 && toknext == 0 && toksuper == -1
    {
      this.links := links;
      pos, toknext, toksuper := 0, 0, -1;
    }

    method Init()
      modifies this
      ensures pos == 0 && toknext == 0 && toksuper == -1
    {
      pos, toknext, toksuper := 0, 0, -1;
    }

    /** The abstract state: position, allocated tokens, superior token. */
    ghost function Abs(tokens: array<Token>): State
      requires toknext <= tokens.Length
      reads this, tokens
    {
      State(pos, tokens[..toknext], toksuper)
    }

    /** The parser and its token array are fit for a call with `num` usable tokens. */
    ghost predicate Fit(tokens: array<Token>, num: nat)
      reads this, tokens
    {
      toknext <= num <= tokens.Length && Linked(Abs(tokens))
    }

    /** Clears the next free token; -1 when there is none. */
    method AllocToken(tokens: array<Token>, num: nat) returns (tok: int)
      requires toknext <= num <= tokens.Length
      modifies this`toknext, tokens
      ensures old(toknext) >= num ==> tok == -1 && toknext == old(toknext) && tokens[..] == old(tokens[..])
      ensures old(toknext) < num ==>
                && tok == old(toknext) && toknext == old(toknext) + 1
                && tokens[..] == old(tokens[..])[tok := Cleared(old(tokens[..])[tok])]
    {
      if toknext >= num {
        return -1;
      }
      tok := toknext;
      toknext := toknext + 1;
      tokens[tok] := tokens[tok].(start := -1, end := -1, size := 0, parent := -1);
    }

    method FillToken(tokens: array<Token>, tok: nat, typ: Type, start: int, end: int)
      requires tok < tokens.Length
      modifies tokens
      ensures tokens[..] == old(tokens[..])[tok := old(tokens[tok]).(typ := typ, start := start, end := end, size := 0)]
    {
      tokens[tok] := tokens[tok].(typ := typ, start := start, end := end, size := 0);
    }

    /** Allocates and fills the token of a finished string or primitive. */
    method StoreToken(tokens: array<Token>, num: nat, typ: Type, start: nat, end: nat) returns (stored: bool)
      requires Fit(tokens, num)
      modifies this`toknext, tokens
      ensures stored == (old(toknext) < num)
      ensures !stored ==> toknext == old(toknext) && tokens[..] == old(tokens[..])
      ensures stored ==>
                && toknext == old(toknext) + 1 && toknext <= num
                && tokens[..toknext]
                   == old(tokens[..toknext]) + [Token(typ, start, end, 0, ParentLink(links, toksuper))]
                && tokens[toknext..] == old(tokens[..])[toknext..]
    {
      var token := AllocToken(tokens, num);
      if token == -1 {
        return false;
      }
      FillToken(tokens, token, typ, start, end);
      if links {
        tokens[token] := tokens[token].(parent := toksuper);
      }
      return true;
    }

    method ParsePrimitive(js: seq<byte>, tokens: array?<Token>, num: nat) returns (r: int)
      requires pos < |js| && PrimitiveStart(js[pos])
      requires tokens != null ==> Fit(tokens, num)
      modifies this`pos, this`toknext, if tokens != null then {tokens} else {}
      ensures match ScanPrimitive(js, old(pos))
              case Illegal => r == ERROR_INVAL && Untouched(tokens)
              case Unfinished => r == ERROR_PART && Untouched(tokens)
              case Found(q) => Stored(tokens, num, Primitive, old(pos), q, q - 1, r)
    {
      var start := pos;
      var found := false;
      while pos < |js| && js[pos] != NUL
        invariant start <= pos <= |js|
        invariant ScanPrimitive(js, pos) == ScanPrimitive(js, start)
        modifies `pos
        decreases |js| - pos
      {
        if Terminator(js[pos]) {
          found := true;
          break;
        }
        if js[pos] < 32 || js[pos] >= 127 {
          pos := start;
          return ERROR_INVAL;
        }
        pos := pos + 1;
      }
      if !found {
        pos := start;
        return ERROR_PART;
      }
      assert pos > start;
      if tokens == null {
        pos := pos - 1;
        return 0;
      }
      var stored := StoreToken(tokens, num, Primitive, start, pos);
      if !stored {
        pos := start;
        return ERROR_NOMEM;
      }
      pos := pos - 1;
      return 0;
    }

    /** The escape at `pos`; leaves `pos` on its last byte. */
    method SkipEscape(js: seq<byte>) returns (legal: bool)
      requires pos + 1 < |js| && js[pos] == BACKSLASH
      modifies `pos
      ensures pos >= old(pos)
      ensures legal ==> ScanString(js, old(pos)) == ScanString(js, pos + 1)
      ensures !legal ==> ScanString(js, old(pos)).Illegal?
    {
      pos := pos + 1;
      if EscapeLetter(js[pos]) {
        return true;
      }
      if js[pos] != LETTER_U {
        return false;
      }
      pos := pos + 1;
      var i := 0;
      ghost var p := pos;
      while i < 4 && pos < |js| && js[pos] != NUL
        invariant 0 <= i <= 4 && p <= pos
        invariant HexDigits(js, pos, 4 - i) == HexDigits(js, p, 4)
      {
        if !((js[pos] >= 48 && js[pos] <= 57) || (js[pos] >= 65 && js[pos] <= 70) ||
             (js[pos] >= 97 && js[pos] <= 102)) {
          return false;
        }
        pos := pos + 1;
        i := i + 1;
      }
      pos := pos - 1;
      return true;
    }

    method ParseString(js: seq<byte>, tokens: array?<Token>, num: nat) returns (r: int)
      requires pos < |js| && js[pos] == QUOTE
      requires tokens != null ==> Fit(tokens, num)
      modifies this`pos, this`toknext, if tokens != null then {tokens} else {}
      ensures match ScanString(js, old(pos) + 1)
              case Illegal => r == ERROR_INVAL && Untouched(tokens)
              case Unfinished => r == ERROR_PART && Untouched(tokens)
              case Found(q) => Stored(tokens, num, String, old(pos) + 1, q, q, r)
    {
      var start := pos;
      var found := false;
      pos := pos + 1;
      while pos < |js| && js[pos] != NUL
        invariant start < pos
        invariant ScanString(js, pos) == ScanString(js, start + 1)
        modifies `pos
        decreases |js| - pos
      {
        var c := js[pos];
        if c == QUOTE {
          found := true;
          break;
        }
        if c == BACKSLASH && pos + 1 < |js| {
          var legal := SkipEscape(js);
          if !legal {
            pos := start;
            return ERROR_INVAL;
          }
        }
        pos := pos + 1;
      }
      if !found {
        pos := start;
        return ERROR_PART;
      }
      if tokens == null {
        return 0;
      }
      assert Abs(tokens).toks == old(Abs(tokens).toks);
      var stored := StoreToken(tokens, num, String, start + 1, pos);
      if !stored {
        pos := start;
        return ERROR_NOMEM;
      }
      return 0;
    }

    /** `c` describes the call: the free slots of the array are still those of the context. */
    ghost predicate Serves(c: Context, js: seq<byte>, tokens: array<Token>, num: nat)
      reads this, tokens
    {
      && Fit(tokens, num)
      && c.js == js && c.links == links && |c.slots| == num
      && c.slots[toknext..] == tokens[toknext..num]
    }

    /** The case of an opening bracket. */
    method OpenContainer(js: seq<byte>, tokens: array<Token>, num: nat, ghost c: Context) returns (r: int)
      requires Serves(c, js, tokens, num)
      requires pos < |js| && (js[pos] == LBRACE || js[pos] == LBRACKET)
      modifies this`toknext, this`toksuper, tokens
      ensures Follows(OnOpen(c, old(Abs(tokens))), tokens, r)
    {
      var tok := AllocToken(tokens, num);
      if tok == -1 {
        return ERROR_NOMEM;
      }
      ghost var blank := Cleared(c.slots[old(toknext)]);
      assert tokens[old(toknext)] == blank;
      assert tokens[..toknext] == old(tokens[..toknext]) + [blank];
      if toksuper != -1 {
        if tokens[toksuper].typ == Object {
          return ERROR_INVAL;
        }
        tokens[toksuper] := tokens[toksuper].(size := tokens[toksuper].size + 1);
        if links {
          tokens[tok] := tokens[tok].(parent := toksuper);
        }
      }
      tokens[tok] := tokens[tok].(typ := if js[pos] == LBRACE then Object else Array);
      tokens[tok] := tokens[tok].(start := pos);
      assert tokens[..toknext] == Bump(old(tokens[..toknext]), toksuper, 1) + [tokens[tok]];
      toksuper := toknext - 1;
      return 0;
    }

    /** The case of a closing bracket: the walk of one build, the two backward scans of the other. */
    method CloseContainer(js: seq<byte>, tokens: array<Token>, num: nat, ghost c: Context) returns (r: int)
      requires Serves(c, js, tokens, num)
      requires pos < |js| && (js[pos] == RBRACE || js[pos] == RBRACKET)
      modifies this`toksuper, tokens
      ensures Follows(OnClose(c, old(Abs(tokens))), tokens, r)
    {
      var typ := if js[pos] == RBRACE then Object else Array;
      if links {
        if toknext < 1 {
          return ERROR_INVAL;
        }
        var i := toknext - 1;
        while true
          invariant 0 <= i < toknext
          invariant toksuper == old(toksuper) && tokens[..] == old(tokens[..])
          invariant Climb(tokens[..toknext], i) == Climb(tokens[..toknext], toknext - 1)
          decreases i
        {
          if tokens[i].start != -1 && tokens[i].end == -1 {
            if tokens[i].typ != typ {
              return ERROR_INVAL;
            }
            tokens[i] := tokens[i].(end := pos + 1);
            toksuper := tokens[i].parent;
            return 0;
          }
          if tokens[i].parent == -1 {
            if tokens[i].typ != typ || toksuper == -1 {
              return ERROR_INVAL;
            }
            return 0;
          }
          i := tokens[i].parent;
        }
      } else {
        var i := LastOpenBefore(tokens, toknext);
        if i == -1 {
          return ERROR_INVAL;
        }
        if tokens[i].typ != typ {
          return ERROR_INVAL;
        }
        tokens[i] := tokens[i].(end := pos + 1);
        ghost var toks := old(tokens[..toknext]);
        assert tokens[..toknext] == toks[i := tokens[i]];
        toksuper := LastOpenBefore(tokens, i);
        LastOpenSame(toks, tokens[..toknext], i);
        return 0;
      }
    }

    /** The backward scan for an open token, shared by the scanning build's cases. */
    method LastOpenBefore(tokens: array<Token>, n: nat) returns (i: int)
      requires n <= toknext <= tokens.Length
      ensures i == LastOpen(tokens[..toknext], n)
    {
      i := n - 1;
      while i >= 0
        invariant -1 <= i < n
        invariant LastOpen(tokens[..toknext], i + 1) == LastOpen(tokens[..toknext], n)
      {
        if tokens[i].start != -1 && tokens[i].end == -1 {
          return;
        }
        i := i - 1;
      }
    }

    /** The case of a comma. */
    method Comma(js: seq<byte>, tokens: array<Token>, num: nat, ghost c: Context)
      requires Serves(c, js, tokens, num) && pos < |js|
      modifies this`toksuper
      ensures Follows(OnComma(c, old(Abs(tokens))), tokens, 0)
    {
      if toksuper != -1 && tokens[toksuper].typ != Array && tokens[toksuper].typ != Object {
        if links {
          toksuper := tokens[toksuper].parent;
        } else {
          var i: int := toknext - 1;
          while i >= 0
            invariant -1 <= i < toknext && toksuper == old(toksuper)
            invariant LastOpenContainer(tokens[..toknext], i + 1) == LastOpenContainer(tokens[..toknext], toknext)
          {
            if tokens[i].typ == Array || tokens[i].typ == Object {
              if tokens[i].start != -1 && tokens[i].end == -1 {
                toksuper := i;
                break;
              }
            }
            i := i - 1;
          }
        }
      }
    }

    /** The case of a quote. */
    method StringCase(js: seq<byte>, tokens: array?<Token>, num: nat, ghost c: Context) returns (r: int)
      requires pos < |js| && js[pos] == QUOTE
      requires tokens != null ==> Serves(c, js, tokens, num)
      modifies this`pos, this`toknext, if tokens != null then {tokens} else {}
      ensures tokens == null ==>
                Counts(CountStep(js, Tally(old(pos), 0, toksuper), toknext), r, 1)
      ensures tokens != null ==> Follows(OnString(c, old(Abs(tokens))), tokens, r)
    {
      r := ParseString(js, tokens, num);
      if r >= 0 && tokens != null && toksuper != -1 {
        CountChild(tokens);
      }
    }

    /** The case of a digit, a minus sign or the first letter of a literal. */
    method PrimitiveCase(js: seq<byte>, tokens: array?<Token>, num: nat, ghost c: Context) returns (r: int)
      requires pos < |js| && PrimitiveStart(js[pos])
      requires tokens != null ==> Serves(c, js, tokens, num)
      modifies this`pos, this`toknext, if tokens != null then {tokens} else {}
      ensures tokens == null ==>
                Counts(CountStep(js, Tally(old(pos), 0, toksuper), toknext), r, 1)
      ensures tokens != null ==> Follows(OnPrimitive(c, old(Abs(tokens))), tokens, r)
    {
      if tokens != null && toksuper != -1 {
        var t := tokens[toksuper];
        if t.typ == Object || (t.typ == String && t.size != 0) {
          return ERROR_INVAL;
        }
      }
      r := ParsePrimitive(js, tokens, num);
      if r >= 0 && tokens != null && toksuper != -1 {
        CountChild(tokens);
      }
    }

    /** One more child for the superior token, whose child is the token stored last. */
    method CountChild(tokens: array<Token>)
      requires toknext <= tokens.Length && 0 <= toksuper < toknext - 1
      modifies tokens
      ensures tokens[..toknext] ==
              Bump(old(tokens[..toknext - 1]), toksuper, 1) + [old(tokens[toknext - 1])]
      ensures tokens[toknext..] == old(tokens[toknext..])
    {
      tokens[toksuper] := tokens[toksuper].(size := tokens[toksuper].size + 1);
    }

    /** The switch of the main loop: `r` is negative on an error, `counted` tells a new token. */
    method Dispatch(js: seq<byte>, tokens: array?<Token>, num: nat, ghost c: Context) returns (r: int, counted: nat)
      requires !AtEnd(js, pos)
      requires tokens != null ==> Serves(c, js, tokens, num)
      modifies this, if tokens != null then {tokens} else {}
      ensures tokens == null ==>
                Counts(CountStep(js, Tally(old(pos), 0, old(toksuper)), old(toknext)), r, counted)
      ensures tokens != null ==> Follows(Step(c, old(Abs(tokens))), tokens, r)
      ensures tokens != null && r >= 0 ==> toknext == old(toknext) + counted
    {
      r, counted := 0, 0;
      var b := js[pos];
      if b == LBRACE || b == LBRACKET {
        counted := 1;
        if tokens != null {
          r := OpenContainer(js, tokens, num, c);
        }
      } else if b == RBRACE || b == RBRACKET {
        if tokens != null {
          r := CloseContainer(js, tokens, num, c);
        }
      } else if b == QUOTE {
        r := StringCase(js, tokens, num, c);
        counted := 1;
      } else if Blank(b) {
      } else if b == COLON {
        toksuper := toknext - 1;
      } else if b == COMMA {
        if tokens != null {
          Comma(js, tokens, num, c);
        }
      } else if PrimitiveStart(b) {
        r := PrimitiveCase(js, tokens, num, c);
        counted := 1;
      } else {
        return ERROR_INVAL, 0;
      }
    }

    /** One turn over a token array: what is left of the run gives the same result. */
    method FillTurn(js: seq<byte>, tokens: array<Token>, num: nat, ghost c: Context) returns (r: int, counted: nat)
      requires !AtEnd(js, pos) && Serves(c, js, tokens, num)
      modifies this, tokens
      ensures old(toknext) <= toknext <= num
      ensures tokens[toknext..] == old(tokens[..])[toknext..]
      ensures r < 0 ==> Run(c, old(Abs(tokens))) == (r, Abs(tokens))
      ensures r >= 0 ==>
                && old(pos) < pos <= |js| && toknext == old(toknext) + counted
                && Serves(c, js, tokens, num)
                && Run(c, old(Abs(tokens))) == Run(c, Abs(tokens))
    {
      hide Step;
      StepFits(c, Abs(tokens));
      r, counted := Dispatch(js, tokens, num, c);
      SlotsKept(c.slots, tokens[..], old(tokens[..]), old(toknext), toknext, num);
      if r >= 0 {
        pos := pos + 1;
      }
    }

    /** One turn without a token array; `count` is the tally so far. */
    method CountTurn(js: seq<byte>, num: nat, ghost c: Context, ghost count: nat) returns (r: int, counted: nat)
      requires !AtEnd(js, pos)
      modifies this
      ensures toknext == old(toknext)
      ensures var run := CountRun(js, Tally(old(pos), count, old(toksuper)), toknext);
              if r < 0 then r == run.0 && pos == run.1.pos && toksuper == run.1.super
              else old(pos) < pos <= |js| && run == CountRun(js, Tally(pos, count + counted, toksuper), toknext)
    {
      r, counted := Dispatch(js, null, num, c);
      if r >= 0 {
        pos := pos + 1;
      }
    }

    method Parse(js: seq<byte>, tokens: array?<Token>, num: nat) returns (r: int)
      requires tokens != null ==> Fit(tokens, num)
      modifies this, if tokens != null then {tokens} else {}
      ensures tokens == null ==>
                && toknext == old(toknext)
                && var out := CountRun(js, Tally(old(pos), old(toknext), old(toksuper)), old(toknext));
                   r == out.0 && pos == out.1.pos && toksuper == out.1.super
      ensures tokens != null ==>
                && old(toknext) <= toknext <= num
                && tokens[toknext..] == old(tokens[..])[toknext..]
                && (r, Abs(tokens)) == Run(Context(js, old(tokens[..num]), links), old(Abs(tokens)))
    {
      hide Step, CountStep, LastOpen;
      var count: nat := toknext;
      ghost var c := if tokens == null then Context(js, [], links) else Context(js, tokens[..num], links);
      while pos < |js| && js[pos] != NUL
        invariant tokens == null ==>
                    && toknext == old(toknext)
                    && CountRun(js, Tally(pos, count, toksuper), toknext) ==
                       CountRun(js, Tally(old(pos), old(toknext), old(toksuper)), toknext)
        invariant tokens != null ==>
                    && old(toknext) <= toknext == count <= num
                    && Serves(c, js, tokens, num)
                    && tokens[toknext..] == old(tokens[..])[toknext..]
                    && Run(c, Abs(tokens)) == Run(c, old(Abs(tokens)))
        decreases |js| - pos
      {
        var counted;
        if tokens == null {
          r, counted := CountTurn(js, num, c, count);
        } else {
          r, counted := FillTurn(js, tokens, num, c);
        }
        if r < 0 {
          return;
        }
        count := count + counted;
      }
      if tokens != null {
        var i := LastOpenBefore(tokens, toknext);
        if i != -1 {
          return ERROR_PART;
        }
      }
      return count;
    }

    /** What follows a free slot in the context still follows it in the array. */
    lemma SlotsKept(slots: seq<Token>, now: seq<Token>, was: seq<Token>, a: nat, b: nat, num: nat)
      requires a <= b <= num <= |now| == |was| && |slots| == num
      requires slots[a..] == was[a..num] && now[b..] == was[b..]
      ensures slots[b..] == now[b..num]
    {
      assert slots[b..] == slots[a..][b - a..];
      assert now[b..num] == now[b..][..num - b];
      assert was[b..num] == was[b..][..num - b] == was[a..num][b - a..];
    }

    /** The counting pass has taken `turn`, except that the loop has not yet advanced `pos`. */
    twostate predicate Counts(turn: TallyTurn, r: int, counted: nat)
      reads this
    {
      && toknext == old(toknext)
      && match turn
         case Onward(t) => r == 0 && Tally(pos + 1, counted, toksuper) == t
         case Halt(e, t) => r == e && Tally(pos, 0, toksuper) == t
    }

    /** The parser has taken `turn`, except that the loop has not yet advanced `pos`. */
    twostate predicate Follows(turn: Turn, tokens: array<Token>, r: int)
      reads this, tokens
    {
      && old(toknext) <= toknext <= tokens.Length
      && tokens[toknext..] == old(tokens[..])[toknext..]
      && match turn
         case More(st) => r == 0 && Abs(tokens).(pos := pos + 1) == st
         case Stop(e, st) => r == e && Abs(tokens) == st
    }

    /** Nothing the parser owns has changed. */
    twostate predicate Untouched(tokens: array?<Token>)
      reads this, if tokens != null then {tokens} else {}
    {
      && pos == old(pos) && toknext == old(toknext)
      && (tokens != null ==> tokens[..] == old(tokens[..]))
    }

    /** The scan has found its token: it is counted, stored, or refused for lack of room. */
    twostate predicate Stored(tokens: array?<Token>, num: nat, typ: Type, start: nat, end: nat, at: int, r: int)
      reads this, if tokens != null then {tokens} else {}
    {
      if tokens != null && old(toknext) >= num then r == ERROR_NOMEM && Untouched(tokens)
      else
        && r == 0 && pos == at
        && (tokens == null ==> toknext == old(toknext))
        && (tokens != null ==>
              && toknext == old(toknext) + 1 && toknext <= num <= tokens.Length
              && tokens[..toknext] == old(tokens[..toknext]) + [Token(typ, start, end, 0, ParentLink(links, toksuper))]
              && tokens[toknext..] == old(tokens[..])[toknext..])
    }
  }
}
