/** Exactly which strings `decodeURIComponent` decodes, and to what, without naming the decoder's own steps. */
module UriLanguage {
  import opened Base
  import opened Buffers
  import opened Texts
  import opened Uri

  function Capital(c: Char): Char {
    if 'a' as int <= c <= 'f' as int then c - 32 else c
  }

  /** Hexadecimal digits may be of either case. */
  function Capitals(t: Text): (r: Text)
    ensures |r| == |t|
  {
    seq(|t|, k requires 0 <= k < |t| => Capital(t[k]))
  }

  /** One character as it may be written: itself, unless it is `%`, or its UTF-8 octets, each as `%XX`. */
  predicate Writes(t: Text, c: Char) {
    (t == [c] && c != '%' as int) || (!Surrogate(c) && Capitals(t) == Percents(Utf8(c)))
  }

  /** `t` writes the characters of `u` one after the other. */
  ghost predicate Spells(t: Text, u: Text)
    decreases |u|
  {
    if u == [] then t == []
    else exists n: nat :: n <= |t| && Writes(t[..n], u[0]) && Spells(t[n..], u[1..])
  }

  // ---------------------------------------------------------- case of digits --

  lemma CapitalOctet(t: Text, at: nat)
    ensures Octet(Capitals(t), at) == Octet(t, at)
  {
  }

  lemma SameEscape(t: Text, w: Text)
    requires Octet(t, 0) == Octet(w, 0) && Octet(t, 3) == Octet(w, 3)
    requires Octet(t, 6) == Octet(w, 6) && Octet(t, 9) == Octet(w, 9)
    ensures EscapeAt(t) == EscapeAt(w)
  {
  }

  lemma CapitalEscape(t: Text)
    ensures EscapeAt(Capitals(t)) == EscapeAt(t)
  {
    var w := Capitals(t);
    CapitalOctet(t, 0);
    CapitalOctet(t, 3);
    CapitalOctet(t, 6);
    CapitalOctet(t, 9);
    SameEscape(t, w);
  }

  // ------------------------------------------------------- written is decoded --

  lemma CapitalsConcat(p: Text, x: Text)
    ensures Capitals(p + x) == Capitals(p) + Capitals(x)
    ensures p != [] ==> (Capitals(p)[0] == 37 <==> (p + x)[0] == 37)
  {
  }

  lemma OctetsDecode(p: Text, c: Char, x: Text)
    requires !Surrogate(c) && Capitals(p) == Percents(Utf8(c))
    ensures p != [] && Decode(p + x) == Prepend(c, Decode(x))
  {
    var t := p + x;
    CapitalsConcat(p, x);
    assert p != [] && t[0] == 37 && EscapeAt(t) == Escape(c, |p|) by {
      EscapeOfChar(c, Capitals(x));
      CapitalEscape(t);
    }
    assert t[|p|..] == x;
  }

  lemma WrittenDecodes(p: Text, c: Char, x: Text)
    requires Writes(p, c)
    ensures p != [] && Decode(p + x) == Prepend(c, Decode(x))
  {
    if p == [c] && c != 37 {
      assert (p + x)[0] == c && (p + x)[1..] == x;
    } else {
      OctetsDecode(p, c, x);
    }
  }

  // ------------------------------------------------------- decoded is written --

  lemma DigitIs(c: Char)
    requires HexValue(c).Some?
    ensures HexValue(c).value < 16 && HexDigit(HexValue(c).value) == Capital(c)
  {
  }

  lemma OctetWritten(t: Text, at: nat)
    requires Octet(t, at).Some?
    ensures Capitals(t[at..at + 3]) == PercentByte(Octet(t, at).value)
  {
    var h, l := HexValue(t[at + 1]), HexValue(t[at + 2]);
    DigitIs(t[at + 1]);
    DigitIs(t[at + 2]);
    assert Octet(t, at).value / 16 == h.value && Octet(t, at).value % 16 == l.value;
    assert t[at..at + 3] == [t[at], t[at + 1], t[at + 2]];
  }

  ghost predicate HasOctets(t: Text, bytes: Bytes) {
    3 * |bytes| <= |t| && forall k {:trigger bytes[k]} :: 0 <= k < |bytes| ==> Octet(t, 3 * k) == Some(bytes[k])
  }

  lemma FirstOctet(t: Text, bytes: Bytes, rest: Text)
    requires HasOctets(t, bytes) && bytes != [] && rest == t[3..]
    ensures Octet(t, 0) == Some(bytes[0]) && HasOctets(rest, bytes[1..])
  {
    assert Octet(t, 3 * 0) == Some(bytes[0]);
    assert t == t[..3] + rest;
    forall k {:trigger bytes[1..][k]} | 0 <= k < |bytes[1..]| ensures Octet(rest, 3 * k) == Some(bytes[1..][k]) {
      OctetBehind(t[..3], rest, 3 * k);
      assert bytes[1..][k] == bytes[k + 1];
    }
  }

  lemma {:induction false} OctetsWritten(t: Text, bytes: Bytes)
    requires HasOctets(t, bytes)
    ensures Capitals(t[..3 * |bytes|]) == Percents(bytes)
    decreases |bytes|
  {
    if bytes != [] {
      var rest, n := t[3..], 3 * |bytes[1..]|;
      FirstOctet(t, bytes, rest);
      OctetsWritten(rest, bytes[1..]);
      OctetWritten(t, 0);
      assert t[..3 * |bytes|] == t[0..3] + rest[..n];
      CapitalsConcat(t[0..3], rest[..n]);
    } else {
      assert t[..0] == [];
    }
  }

  lemma TwoOctets(lead: nat, c1: nat)
    requires 0xC0 <= lead < 0xE0 && c1 < 64
    ensures var v := (lead - 0xC0) * 64 + c1;
            0x80 <= v ==> v < 0x800 && Utf8(v) == [lead, 0x80 + c1]
  {
  }

  lemma ThreeOctets(lead: nat, c1: nat, c2: nat)
    requires 0xE0 <= lead < 0xF0 && c1 < 64 && c2 < 64
    ensures var v := (lead - 0xE0) * 4096 + c1 * 64 + c2;
            0x800 <= v && !(0xD800 <= v < 0xE000) ==> v < 0x1_0000 && Utf8(v) == [lead, 0x80 + c1, 0x80 + c2]
  {
    var v := (lead - 0xE0) * 4096 + c1 * 64 + c2;
    assert v / 64 == (lead - 0xE0) * 64 + c1 && v / 4096 == lead - 0xE0;
  }

  lemma FourOctets(lead: nat, c1: nat, c2: nat, c3: nat)
    requires 0xF0 <= lead < 0xF8 && c1 < 64 && c2 < 64 && c3 < 64
    ensures var v := (lead - 0xF0) * 262144 + c1 * 4096 + c2 * 64 + c3;
            0x1_0000 <= v < 0x11_0000 ==> Utf8(v) == [lead, 0x80 + c1, 0x80 + c2, 0x80 + c3]
  {
    var v := (lead - 0xF0) * 262144 + c1 * 4096 + c2 * 64 + c3;
    assert v / 64 == (lead - 0xF0) * 4096 + c1 * 64 + c2;
    assert v / 4096 == (lead - 0xF0) * 64 + c1 && v / 262144 == lead - 0xF0;
  }

  /** The octets an escape was read from. */
  function OctetsOf(t: Text, n: nat): Bytes
    requires EscapeAt(t).Escape? && n == EscapeAt(t).size
  {
    if n == 3 then [Octet(t, 0).value]
    else if n == 6 then [Octet(t, 0).value, Octet(t, 3).value]
    else if n == 9 then [Octet(t, 0).value, Octet(t, 3).value, Octet(t, 6).value]
    else [Octet(t, 0).value, Octet(t, 3).value, Octet(t, 6).value, Octet(t, 9).value]
  }

  lemma OctetsOfPoint(t: Text)
    requires EscapeAt(t).Escape?
    ensures var e := EscapeAt(t);
            !Surrogate(e.point) && OctetsOf(t, e.size) == Utf8(e.point) && 3 * |Utf8(e.point)| == e.size
  {
    var e, lead := EscapeAt(t), Octet(t, 0).value;
    if e.size == 6 {
      TwoOctets(lead, Continuation(t, 3).value);
    } else if e.size == 9 {
      ThreeOctets(lead, Continuation(t, 3).value, Continuation(t, 6).value);
    } else if e.size == 12 {
      FourOctets(lead, Continuation(t, 3).value, Continuation(t, 6).value, Continuation(t, 9).value);
    }
  }

  lemma EscapeWritten(t: Text)
    requires EscapeAt(t).Escape?
    ensures Writes(t[..EscapeAt(t).size], EscapeAt(t).point)
  {
    var e := EscapeAt(t);
    var bytes := OctetsOf(t, e.size);
    OctetsOfPoint(t);
    assert HasOctets(t, bytes) by {
      ThemselvesAt(t);
    }
    OctetsWritten(t, bytes);
  }

  lemma ThemselvesAt(t: Text)
    requires EscapeAt(t).Escape?
    ensures HasOctets(t, OctetsOf(t, EscapeAt(t).size))
  {
    var n, bytes := EscapeAt(t).size, OctetsOf(t, EscapeAt(t).size);
    assert 3 * |bytes| == n <= |t|;
    forall k {:trigger bytes[k]} | 0 <= k < |bytes| ensures Octet(t, 3 * k) == Some(bytes[k]) {
      assert k == 0 || k == 1 || k == 2 || k == 3;
    }
  }

  /**
   * A string decodes to another exactly if it writes the characters of the other one by one: each as itself, unless it
   * is `%`, or as the percent-encoded octets of its shortest UTF-8 form, in digits of either case. Cut-off or malformed
   * octets, longer forms, surrogates and values beyond U+10FFFF are never decoded.
   */
  lemma {:induction false} DecodesIff(t: Text, u: Text)
    ensures Decode(t) == Ok(u) <==> Spells(t, u)
    decreases |t|
  {
    if Decode(t) == Ok(u) {
      DecodedIsSpelled(t, u);
    }
    if Spells(t, u) && u != [] {
      var n: nat :| n <= |t| && Writes(t[..n], u[0]) && Spells(t[n..], u[1..]);
      assert t == t[..n] + t[n..];
      WrittenDecodes(t[..n], u[0], t[n..]);
      DecodesIff(t[n..], u[1..]);
      assert u == [u[0]] + u[1..];
    }
  }

  lemma {:induction false} DecodedIsSpelled(t: Text, u: Text)
    requires Decode(t) == Ok(u)
    ensures Spells(t, u)
    decreases |t|
  {
    if t != [] {
      if t[0] != 37 {
        assert t[..1] == [t[0]];
        SpelledFirst(t, 1, t[0], u);
      } else {
        EscapeWritten(t);
        SpelledFirst(t, EscapeAt(t).size, EscapeAt(t).point, u);
      }
    }
  }

  lemma {:induction false} SpelledFirst(t: Text, n: nat, c: Char, u: Text)
    requires 0 < n <= |t| && Writes(t[..n], c) && Decode(t[n..]).Ok? && u == [c] + Decode(t[n..]).value
    ensures Spells(t, u)
    decreases |t|, 0
  {
    assert u[1..] == Decode(t[n..]).value;
    DecodedIsSpelled(t[n..], u[1..]);
  }
}
