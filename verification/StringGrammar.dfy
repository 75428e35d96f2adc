/**
 The string scan against the grammar of RFC 8259, section 7. jsmn works on
 bytes and takes any of them for a plain one but NUL, quote and backslash: raw control characters too, and
 bytes that are no UTF-8.
 */
module StringGrammar {
  import opened Bytes
  import opened Text

  datatype Chunk = Plain(b: byte) | Escape(letter: byte) | Unicode(digits: seq<byte>)

  predicate Legal(c: Chunk) {
    match c
    case Plain(b) => b != NUL && b != QUOTE && b != BACKSLASH
    case Escape(letter) => EscapeLetter(letter)
    case Unicode(digits) => |digits| == 4 && forall i | 0 <= i < 4 :: Hex(digits[i])
  }

  predicate AllLegal(cs: seq<Chunk>) {
    forall c | c in cs :: Legal(c)
  }

  function Spell(c: Chunk): seq<byte> {
    match c
    case Plain(b) => [b]
    case Escape(letter) => [BACKSLASH, letter]
    case Unicode(digits) => [BACKSLASH, LETTER_U] + digits
  }

  function SpellAll(cs: seq<Chunk>): seq<byte> {
    if cs == [] then [] else Spell(cs[0]) + SpellAll(cs[1..])
  }

  /** `js` holds the legal body `cs` from `p` up to `q`. */
  predicate Body(js: seq<byte>, p: nat, q: nat, cs: seq<Chunk>) {
    AllLegal(cs) && At(js, p, SpellAll(cs)) && q == p + |SpellAll(cs)|
  }

  predicate HexRun(js: seq<byte>, p: nat, m: nat) {
    forall i | p <= i < m :: i < |js| && Hex(js[i])
  }

  /** One of the `k` bytes from `p` is neither a hexadecimal digit nor the end of the text. */
  predicate BadHex(js: seq<byte>, p: nat, k: nat) {
    exists m: nat | p <= m < p + k :: HexRun(js, p, m) && !AtEnd(js, m) && !Hex(js[m])
  }

  /** A backslash at `q` that starts no legal escape, however the text goes on. */
  predicate BadEscape(js: seq<byte>, q: nat) {
    && q + 1 < |js|
    && js[q] == BACKSLASH
    && !EscapeLetter(js[q + 1])
    && (js[q + 1] == LETTER_U ==> BadHex(js, q + 2, 4))
  }

  lemma {:induction false} HexDigitsExact(js: seq<byte>, p: nat, k: nat)
    ensures var r := HexDigits(js, p, k);
            && (r.Illegal? <==> BadHex(js, p, k))
            && (r.Found? ==> HexRun(js, p, r.at) && (r.at == p + k || AtEnd(js, r.at)))
    decreases k
  {
    if k != 0 && !AtEnd(js, p) {
      if !Hex(js[p]) {
        assert HexRun(js, p, p);
      } else {
        HexDigitsExact(js, p + 1, k - 1);
        if BadHex(js, p + 1, k - 1) {
          var m: nat :| p + 1 <= m < p + k && HexRun(js, p + 1, m) && !AtEnd(js, m) && !Hex(js[m]);
          assert HexRun(js, p, m);
        } else if BadHex(js, p, k) {
          var m: nat :| p <= m < p + k && HexRun(js, p, m) && !AtEnd(js, m) && !Hex(js[m]);
          assert m != p && HexRun(js, p + 1, m);
        }
      }
    }
  }

  /** One legal chunk takes the scan to the position behind it. */
  lemma ScanChunk(js: seq<byte>, p: nat, c: Chunk)
    requires Legal(c) && At(js, p, Spell(c))
    ensures ScanString(js, p) == ScanString(js, p + |Spell(c)|)
  {
    var s := Spell(c);
    assert forall i | 0 <= i < |s| :: js[p + i] == js[p..p + |s|][i] == s[i];
    match c {
      case Plain(b) => assert js[p + 0] == b;
      case Escape(letter) => assert js[p + 0] == BACKSLASH && js[p + 1] == letter;
      case Unicode(d) =>
        assert js[p + 0] == BACKSLASH && js[p + 1] == LETTER_U;
        assert js[p + 2] == d[0] && js[p + 3] == d[1] && js[p + 4] == d[2] && js[p + 5] == d[3];
        assert HexDigits(js, p + 6, 0) == Found(p + 6);
        assert HexDigits(js, p + 5, 1) == Found(p + 6);
        assert HexDigits(js, p + 4, 2) == Found(p + 6);
        assert HexDigits(js, p + 3, 3) == Found(p + 6);
    }
  }

  lemma {:induction false} ScanBody(js: seq<byte>, p: nat, q: nat, cs: seq<Chunk>)
    requires Body(js, p, q, cs)
    ensures ScanString(js, p) == ScanString(js, q)
    decreases |cs|
  {
    if cs != [] {
      AtPlus(js, p, Spell(cs[0]), SpellAll(cs[1..]));
      ScanChunk(js, p, cs[0]);
      ScanBody(js, p + |Spell(cs[0])|, q, cs[1..]);
    }
  }

  lemma EmptyBody(js: seq<byte>, p: nat)
    requires p <= |js|
    ensures Body(js, p, p, [])
  {
  }

  lemma PlainAt(js: seq<byte>, p: nat)
    requires !AtEnd(js, p) && js[p] != QUOTE && js[p] != BACKSLASH
    ensures Legal(Plain(js[p])) && At(js, p, Spell(Plain(js[p])))
  {
  }

  lemma EscapeAt(js: seq<byte>, p: nat)
    requires p + 1 < |js| && js[p] == BACKSLASH && EscapeLetter(js[p + 1])
    ensures Legal(Escape(js[p + 1])) && At(js, p, Spell(Escape(js[p + 1])))
  {
  }

  lemma UnicodeAt(js: seq<byte>, p: nat)
    requires p + 6 <= |js| && js[p] == BACKSLASH && js[p + 1] == LETTER_U && HexRun(js, p + 2, p + 6)
    ensures Legal(Unicode(js[p + 2..p + 6])) && At(js, p, Spell(Unicode(js[p + 2..p + 6])))
  {
    var digits := js[p + 2..p + 6];
    assert forall i | 0 <= i < 4 :: digits[i] == js[p + 2 + i];
    assert js[p..p + 6] == [BACKSLASH, LETTER_U] + digits;
  }

  /** A `\u` that is cut off or no escape. */
  lemma UnicodeFails(js: seq<byte>, p: nat)
    requires p + 1 < |js| && js[p] == BACKSLASH && js[p + 1] == LETTER_U
    requires HexDigits(js, p + 2, 4) != Found(p + 6)
    ensures if BadHex(js, p + 2, 4) then ScanString(js, p).Illegal? && BadEscape(js, p)
            else ScanString(js, p).Unfinished?
  {
    HexDigitsExact(js, p + 2, 4);
    var r := HexDigits(js, p + 2, 4);
    assert r.Found? ==> AtEnd(js, r.at) && ScanString(js, r.at).Unfinished?;
  }

  lemma UnicodeHolds(js: seq<byte>, p: nat)
    requires p + 1 < |js| && HexDigits(js, p + 2, 4) == Found(p + 6)
    ensures p + 6 <= |js| && HexRun(js, p + 2, p + 6)
  {
    HexDigitsExact(js, p + 2, 4);
  }

  /** Where the scan from `p` stops, and the legal body it has passed until there. */
  lemma {:induction false} Decompose(js: seq<byte>, p: nat) returns (q: nat, cs: seq<Chunk>)
    ensures Body(js, p, q, cs) || p > |js|
    ensures match ScanString(js, p)
            case Found(at) => at == q && q < |js| && js[q] == QUOTE
            case Illegal => BadEscape(js, q)
            case Unfinished => true
    decreases |js| - p
  {
    hide Body, Legal, Spell, At, HexDigits, HexRun, BadHex;
    q, cs := p, [];
    if p <= |js| { EmptyBody(js, p); }
    if AtEnd(js, p) || js[p] == QUOTE {
    } else if js[p] == BACKSLASH && p + 1 < |js| {
      if EscapeLetter(js[p + 1]) {
        EscapeAt(js, p);
        q, cs := Prepend(js, p, Escape(js[p + 1]));
      } else if js[p + 1] == LETTER_U {
        if HexDigits(js, p + 2, 4) == Found(p + 6) {
          UnicodeHolds(js, p);
          UnicodeAt(js, p);
          q, cs := Prepend(js, p, Unicode(js[p + 2..p + 6]));
        } else {
          UnicodeFails(js, p);
        }
      }
    } else if js[p] != BACKSLASH {
      PlainAt(js, p);
      q, cs := Prepend(js, p, Plain(js[p]));
    } else {
      assert AtEnd(js, p + 1) && ScanString(js, p + 1).Unfinished?;
    }
  }

  lemma {:induction false} Prepend(js: seq<byte>, p: nat, c: Chunk) returns (q: nat, cs: seq<Chunk>)
    requires p < |js| && Legal(c) && At(js, p, Spell(c))
    ensures Body(js, p, q, cs)
    ensures match ScanString(js, p)
            case Found(at) => at == q && q < |js| && js[q] == QUOTE
            case Illegal => BadEscape(js, q)
            case Unfinished => true
    decreases |js| - p, 0
  {
    ScanChunk(js, p, c);
    var rest;
    q, rest := Decompose(js, p + |Spell(c)|);
    cs := [c] + rest;
    assert cs[1..] == rest;
    AtPlus(js, p, Spell(c), SpellAll(rest));
    assert forall x | x in cs :: x == c || x in rest;
  }

  /** The scan finds `q` exactly when a legal body reaches from `p` to a quote at `q`. */
  lemma StringScanExact(js: seq<byte>, p: nat, q: nat)
    requires p <= |js|
    ensures ScanString(js, p) == Found(q) <==>
            q < |js| && js[q] == QUOTE && exists cs :: Body(js, p, q, cs)
  {
    if ScanString(js, p) == Found(q) {
      var at, cs := Decompose(js, p);
    } else if q < |js| && js[q] == QUOTE && exists cs :: Body(js, p, q, cs) {
      var cs :| Body(js, p, q, cs);
      ScanBody(js, p, q, cs);
    }
  }

  /** The scan rejects exactly when a legal body runs into a backslash that starts no escape. */
  lemma StringScanRejects(js: seq<byte>, p: nat)
    requires p <= |js|
    ensures ScanString(js, p).Illegal? <==> exists q: nat, cs :: Body(js, p, q, cs) && BadEscape(js, q)
  {
    hide ScanString, Body, BadEscape;
    if ScanString(js, p).Illegal? {
      var q, cs := Decompose(js, p);
    } else if exists q: nat, cs :: Body(js, p, q, cs) && BadEscape(js, q) {
      var q: nat, cs :| Body(js, p, q, cs) && BadEscape(js, q);
      ScanBody(js, p, q, cs);
      BadEscapeRejected(js, q);
    }
  }

  lemma BadEscapeRejected(js: seq<byte>, q: nat)
    requires BadEscape(js, q)
    ensures ScanString(js, q).Illegal?
  {
    hide BadHex, HexRun, HexDigits;
    HexDigitsExact(js, q + 2, 4);
  }
}
