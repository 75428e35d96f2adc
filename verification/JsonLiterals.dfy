/**
 The primitives of RFC 8259: numbers as section 6 spells them, and the literals of section 3. jsmn
 takes each of them for a primitive, and takes more: it looks at the first byte
 and asks that all bytes up to the terminator be printable.
 */
module JsonLiterals {
  import opened Bytes
  import opened Text
  import opened JsonTree

  datatype Part = Absent | Digits(ds: seq<byte>)

  datatype Exponent = NoExponent | Exponent(letter: byte, sign: seq<byte>, ds: seq<byte>)

  datatype Number = Number(minus: bool, whole: seq<byte>, frac: Part, exp: Exponent)

  predicate AllDigits(s: seq<byte>) {
    |s| > 0 && forall b | b in s :: Digit(b)
  }

  /** No leading zero, digits behind a point, a sign and digits behind an E. */
  predicate LegalNumber(n: Number) {
    && AllDigits(n.whole) && (n.whole[0] == 0x30 ==> |n.whole| == 1)
    && (n.frac.Digits? ==> AllDigits(n.frac.ds))
    && (n.exp.Exponent? ==> n.exp.letter in [0x45, 0x65] && n.exp.sign in [[], [MINUS], [0x2B]] && AllDigits(n.exp.ds))
  }

  function SpellPart(p: Part): seq<byte> {
    if p.Absent? then [] else [0x2E] + p.ds
  }

  function SpellExponent(e: Exponent): seq<byte> {
    if e.NoExponent? then [] else [e.letter] + e.sign + e.ds
  }

  function SpellNumber(n: Number): seq<byte> {
    (if n.minus then [MINUS] else []) + n.whole + SpellPart(n.frac) + SpellExponent(n.exp)
  }

  const TRUE_TEXT: seq<byte> := [0x74, 0x72, 0x75, 0x65]
  const FALSE_TEXT: seq<byte> := [0x66, 0x61, 0x6C, 0x73, 0x65]
  const NULL_TEXT: seq<byte> := [0x6E, 0x75, 0x6C, 0x6C]

  lemma InnerJoin(s: seq<byte>, t: seq<byte>)
    requires Inner(s) && Inner(t)
    ensures Inner(s + t)
  {
  }

  lemma PiecesInner(n: Number)
    requires LegalNumber(n)
    ensures Inner([MINUS]) && Inner([]) && Inner(n.whole) && Inner(SpellPart(n.frac)) && Inner(SpellExponent(n.exp))
  {
    if n.exp.Exponent? {
      InnerJoin([n.exp.letter], n.exp.sign);
      InnerJoin([n.exp.letter] + n.exp.sign, n.exp.ds);
    }
  }

  lemma StartsWith(n: Number)
    requires LegalNumber(n)
    ensures var s := SpellNumber(n); |s| > 0 && s[0] == if n.minus then MINUS else n.whole[0]
    ensures PrimitiveStart(SpellNumber(n)[0])
  {
    assert n.whole[0] in n.whole;
    hide SpellPart, SpellExponent;
  }

  /** Every number of section 6 is a primitive to jsmn. */
  lemma NumberIsPrimitive(n: Number)
    requires LegalNumber(n)
    ensures PrimitiveText(SpellNumber(n))
  {
    hide Inner, SpellPart, SpellExponent, LegalNumber, PrimitiveStart;
    PiecesInner(n);
    StartsWith(n);
    var sign: seq<byte> := if n.minus then [MINUS] else [];
    InnerJoin(sign, n.whole);
    InnerJoin(sign + n.whole, SpellPart(n.frac));
    InnerJoin(sign + n.whole + SpellPart(n.frac), SpellExponent(n.exp));
    InnerIsPrimitive(SpellNumber(n));
  }

  lemma InnerIsPrimitive(s: seq<byte>)
    requires Inner(s) && |s| > 0 && PrimitiveStart(s[0])
    ensures PrimitiveText(s)
  {
  }

  /** So is every literal. */
  lemma LiteralsArePrimitive()
    ensures PrimitiveText(TRUE_TEXT) && PrimitiveText(FALSE_TEXT) && PrimitiveText(NULL_TEXT)
  {
  }

  /**
   Exactly what strict jsmn takes for a primitive: the bytes up to the first terminator, if all of them
   may stand in one.
   */
  lemma PrimitiveExact(js: seq<byte>, p: nat, q: nat)
    requires p < |js| && PrimitiveStart(js[p])
    ensures ScanPrimitive(js, p) == Found(q) <==> p <= q < |js| && Terminator(js[q]) && PrimitiveText(js[p..q])
  {
    ScanPrimitiveExact(js, p, q);
    if p <= q < |js| {
      assert forall k | p <= k < q :: js[p..q][k - p] == js[k];
      if Terminator(js[q]) && PrimitiveText(js[p..q]) {
        assert forall k | p <= k < q :: js[k] in js[p..q];
      }
    }
  }

  /** The other direction fails: "-" is a primitive to jsmn and no number. */
  lemma LoneMinusIsAccepted(n: Number)
    requires LegalNumber(n)
    ensures PrimitiveText([MINUS]) && SpellNumber(n) != [MINUS]
  {
    assert n.whole[0] in n.whole;
    if n.minus {
      assert |SpellNumber(n)| >= 2;
    } else {
      assert SpellNumber(n)[0] == n.whole[0];
    }
  }
}
