/**
 Bytes of a JSON text and the two scans that jsmn runs inside one token: over a string body and
 over a primitive. Both are written as functions of the text and a position; the parser's methods
 are proved equal to them, and StringGrammar relates the string scan to RFC 8259, section 7.
 */
module Text {
  import opened Bytes

  const NUL: byte := 0x00
  const TAB: byte := 0x09
  const LF: byte := 0x0A
  const CR: byte := 0x0D
  const SPACE: byte := 0x20
  const QUOTE: byte := 0x22
  const COMMA: byte := 0x2C
  const MINUS: byte := 0x2D
  const SLASH: byte := 0x2F
  const COLON: byte := 0x3A
  const LBRACKET: byte := 0x5B
  const BACKSLASH: byte := 0x5C
  const RBRACKET: byte := 0x5D
  const LETTER_F: byte := 0x66
  const LETTER_N: byte := 0x6E
  const LETTER_T: byte := 0x74
  const LETTER_U: byte := 0x75
  const LBRACE: byte := 0x7B
  const RBRACE: byte := 0x7D

  predicate Blank(b: byte) {
    b == TAB || b == CR || b == LF || b == SPACE
  }

  /** The bytes that end a primitive when jsmn is built with JSMN_STRICT. */
  predicate Terminator(b: byte) {
    Blank(b) || b == COMMA || b == RBRACKET || b == RBRACE
  }

  predicate Digit(b: byte) {
    0x30 <= b <= 0x39
  }

  predicate Hex(b: byte) {
    Digit(b) || 0x41 <= b <= 0x46 || 0x61 <= b <= 0x66
  }

  /** The letters of the two-character escapes: quote, slash, backslash, b, f, r, n, t. */
  predicate EscapeLetter(b: byte) {
    b == QUOTE || b == SLASH || b == BACKSLASH || b == 0x62 || b == 0x66 || b == 0x72 || b == 0x6E || b == 0x74
  }

  predicate PrimitiveStart(b: byte) {
    b == MINUS || Digit(b) || b == LETTER_T || b == LETTER_F || b == LETTER_N
  }

  predicate Printable(b: byte) {
    32 <= b < 127
  }

  /** The classes of bytes, by the characters they stand for. */
  lemma ByteClasses(b: byte)
    ensures Blank(b) <==> b as char in "\t\r\n "
    ensures Terminator(b) <==> b as char in "\t\r\n ,]}"
    ensures PrimitiveStart(b) <==> b as char in "-0123456789tfn"
    ensures EscapeLetter(b) <==> b as char in "\"/\\bfrnt"
    ensures Hex(b) <==> b as char in "0123456789ABCDEFabcdef"
    ensures Printable(b) <==> ' ' <= b as char <= '~'
  {
  }

  /** The text ends at its length or at a NUL byte, whichever comes first. */
  predicate AtEnd(js: seq<byte>, p: nat) {
    p >= |js| || js[p] == NUL
  }

  /** `s` stands in `js` at position `p`. */
  predicate At<T(==)>(js: seq<T>, p: nat, s: seq<T>) {
    p + |s| <= |js| && js[p..p + |s|] == s
  }

  lemma AtPlus<T>(js: seq<T>, p: nat, s: seq<T>, t: seq<T>)
    ensures At(js, p, s + t) <==> At(js, p, s) && At(js, p + |s|, t)
  {
    if p + |s| + |t| <= |js| {
      assert js[p..p + |s + t|] == js[p..p + |s|] + js[p + |s|..p + |s| + |t|];
      assert js[p..p + |s|] == js[p..p + |s + t|][..|s|];
      assert js[p + |s|..p + |s| + |t|] == js[p..p + |s + t|][|s|..];
    }
  }

  lemma AtCons<T>(js: seq<T>, p: nat, s: seq<T>)
    requires |s| > 0
    ensures At(js, p, s) <==> p < |js| && js[p] == s[0] && At(js, p + 1, s[1..])
  {
    assert s == [s[0]] + s[1..];
    AtPlus(js, p, [s[0]], s[1..]);
    assert p < |js| ==> js[p..p + 1] == [js[p]];
  }

  /** How a scan inside one token ends. */
  datatype Scan = Found(at: nat) | Illegal | Unfinished

  /** Up to `k` hexadecimal digits from `p`: Found is the position after them. */
  function HexDigits(js: seq<byte>, p: nat, k: nat): (r: Scan)
    ensures !r.Unfinished?
    ensures r.Found? ==> p <= r.at <= p + k && (r.at == p || r.at <= |js|)
    decreases k
  {
    if k == 0 || AtEnd(js, p) then Found(p)
    else if !Hex(js[p]) then Illegal
    else HexDigits(js, p + 1, k - 1)
  }

  /** The string scan from `p`, inside the quotes: Found is the closing quote. */
  function ScanString(js: seq<byte>, p: nat): (r: Scan)
    ensures r.Found? ==> p <= r.at < |js| && js[r.at] == QUOTE
    decreases |js| - p
  {
    if AtEnd(js, p) then Unfinished
    else if js[p] == QUOTE then Found(p)
    else if js[p] == BACKSLASH && p + 1 < |js| then
      if EscapeLetter(js[p + 1]) then ScanString(js, p + 2)
      else if js[p + 1] == LETTER_U then
        match HexDigits(js, p + 2, 4)
        case Found(q) => ScanString(js, q)
        case _ => Illegal
      else Illegal
    else ScanString(js, p + 1)
  }

  /** The primitive scan from `p`: Found is the terminator, which strict mode demands. */
  function ScanPrimitive(js: seq<byte>, p: nat): (r: Scan)
    ensures r.Found? ==> p <= r.at < |js| && Terminator(js[r.at])
    decreases |js| - p
  {
    if AtEnd(js, p) then Unfinished
    else if Terminator(js[p]) then Found(p)
    else if !Printable(js[p]) then Illegal
    else ScanPrimitive(js, p + 1)
  }

  /** The bytes from `p` up to `q` may stand inside a primitive. */
  predicate Unbroken(js: seq<byte>, p: nat, q: nat) {
    q <= |js| && forall k | p <= k < q :: Printable(js[k]) && !Terminator(js[k])
  }

  /**
   A primitive is found to end at `q` if and only if the first terminator stands there and all bytes
   before it are printable.
   */
  lemma {:induction false} ScanPrimitiveExact(js: seq<byte>, p: nat, q: nat)
    ensures ScanPrimitive(js, p) == Found(q) <==> p <= q < |js| && Terminator(js[q]) && Unbroken(js, p, q)
    decreases |js| - p
  {
    if !AtEnd(js, p) && !Terminator(js[p]) && Printable(js[p]) {
      ScanPrimitiveExact(js, p + 1, q);
    }
  }

  /** A byte that neither may stand in a primitive nor ends it or the text. */
  predicate Stray(b: byte) {
    b != NUL && !Terminator(b) && !Printable(b)
  }

  /** It is rejected if and only if the first byte that may not stand inside it neither ends it nor the text. */
  lemma {:induction false} ScanPrimitiveRejects(js: seq<byte>, p: nat)
    ensures ScanPrimitive(js, p).Illegal? <==> exists q: nat | p <= q < |js| :: Unbroken(js, p, q) && Stray(js[q])
    decreases |js| - p
  {
    if !AtEnd(js, p) && !Terminator(js[p]) {
      if Printable(js[p]) {
        ScanPrimitiveRejects(js, p + 1);
        forall q: nat | p + 1 <= q < |js| ensures Unbroken(js, p, q) <==> Unbroken(js, p + 1, q) {
        }
        hide Unbroken, ScanPrimitive;
        assert !Stray(js[p]);
        if exists q: nat | p + 1 <= q < |js| :: Unbroken(js, p + 1, q) && Stray(js[q]) {
          var q: nat :| p + 1 <= q < |js| && Unbroken(js, p + 1, q) && Stray(js[q]);
          assert Unbroken(js, p, q);
        }
      } else {
        assert Unbroken(js, p, p);
      }
    }
  }

  /** No byte from `p` up to `q` is NUL. */
  ghost predicate NulFree(js: seq<byte>, p: int, q: int) {
    forall k | 0 <= p <= k < q && k < |js| :: js[k] != NUL
  }

  lemma {:induction false} HexDigitsNulFree(js: seq<byte>, p: nat, k: nat)
    ensures var r := HexDigits(js, p, k); r.Found? ==> NulFree(js, p, r.at)
    decreases k
  {
    if k != 0 && !AtEnd(js, p) && Hex(js[p]) {
      HexDigitsNulFree(js, p + 1, k - 1);
    }
  }

  lemma {:induction false} ScanStringNulFree(js: seq<byte>, p: nat)
    ensures var r := ScanString(js, p); r.Found? ==> NulFree(js, p, r.at + 1)
    decreases |js| - p
  {
    if !AtEnd(js, p) && js[p] != QUOTE {
      if js[p] == BACKSLASH && p + 1 < |js| {
        if EscapeLetter(js[p + 1]) {
          ScanStringNulFree(js, p + 2);
        } else if js[p + 1] == LETTER_U {
          HexDigitsNulFree(js, p + 2, 4);
          if HexDigits(js, p + 2, 4).Found? {
            ScanStringNulFree(js, HexDigits(js, p + 2, 4).at);
          }
        }
      } else {
        ScanStringNulFree(js, p + 1);
      }
    }
  }

  lemma {:induction false} ScanPrimitiveNulFree(js: seq<byte>, p: nat)
    ensures var r := ScanPrimitive(js, p); r.Found? ==> NulFree(js, p, r.at)
    decreases |js| - p
  {
    if !AtEnd(js, p) && !Terminator(js[p]) && Printable(js[p]) {
      ScanPrimitiveNulFree(js, p + 1);
    }
  }

  /** A longer text changes the outcome of a scan only where the shorter one ran out. */
  lemma {:induction false} HexDigitsExtend(js: seq<byte>, more: seq<byte>, p: nat, k: nat)
    requires js <= more
    ensures var r := HexDigits(js, p, k);
            r.Illegal? || (r.Found? && !AtEnd(js, r.at)) ==> HexDigits(more, p, k) == r
    decreases k
  {
    if k != 0 && !AtEnd(js, p) && Hex(js[p]) {
      HexDigitsExtend(js, more, p + 1, k - 1);
    }
  }

  lemma {:induction false} ScanStringExtend(js: seq<byte>, more: seq<byte>, p: nat)
    requires js <= more
    ensures var r := ScanString(js, p); !r.Unfinished? ==> ScanString(more, p) == r
    decreases |js| - p
  {
    if !AtEnd(js, p) && js[p] != QUOTE {
      if js[p] == BACKSLASH && p + 1 < |js| {
        if EscapeLetter(js[p + 1]) {
          ScanStringExtend(js, more, p + 2);
        } else if js[p + 1] == LETTER_U {
          HexDigitsExtend(js, more, p + 2, 4);
          if HexDigits(js, p + 2, 4).Found? {
            ScanStringExtend(js, more, HexDigits(js, p + 2, 4).at);
          }
        }
      } else {
        ScanStringExtend(js, more, p + 1);
      }
    }
  }

  lemma {:induction false} ScanPrimitiveExtend(js: seq<byte>, more: seq<byte>, p: nat)
    requires js <= more
    ensures var r := ScanPrimitive(js, p); !r.Unfinished? ==> ScanPrimitive(more, p) == r
    decreases |js| - p
  {
    if !AtEnd(js, p) && !Terminator(js[p]) && Printable(js[p]) {
      ScanPrimitiveExtend(js, more, p + 1);
    }
  }
}
