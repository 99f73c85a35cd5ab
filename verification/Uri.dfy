/** `encodeURIComponent` and `decodeURIComponent`: UTF-8 octets written as `%XX` (RFC 3986, section 2.1). */
module Uri {
  import opened Base
  import opened Buffers
  import opened Texts

  datatype Error = URIError

  predicate Surrogate(c: Char) {
    0xD800 <= c < 0xE000
  }

  /** A-Z a-z 0-9 - _ . ! ~ * ' ( ) */
  predicate Plain(c: Char) {
    || 65 <= c <= 90 || 97 <= c <= 122 || 48 <= c <= 57
    || c == 45 || c == 95 || c == 46 || c == 33 || c == 126 || 39 <= c <= 42
  }

  // ---------------------------------------------------------------- octets --

  function HexDigit(n: nat): Char
    requires n < 16
  {
    if n < 10 then 48 + n else 55 + n
  }

  function HexValue(c: Char): Option<nat> {
    if 48 <= c <= 57 then Some(c - 48)
    else if 65 <= c <= 70 then Some(c - 55)
    else if 97 <= c <= 102 then Some(c - 87)
    else None
  }

  function PercentByte(b: Byte): Text {
    [37, HexDigit(b / 16), HexDigit(b % 16)]
  }

  /** The octet written as `%XX` from `at` on. */
  function Octet(t: Text, at: nat): (r: Option<nat>)
    ensures r.Some? ==> at + 3 <= |t| && r.value < 256
  {
    if at + 3 > |t| || t[at] != 37 then None
    else if HexValue(t[at + 1]).None? || HexValue(t[at + 2]).None? then None
    else Some(16 * HexValue(t[at + 1]).value + HexValue(t[at + 2]).value)
  }

  lemma OctetOfByte(b: Byte, rest: Text)
    ensures Octet(PercentByte(b) + rest, 0) == Some(b)
  {
    var t := PercentByte(b) + rest;
    var p := PercentByte(b);
    assert t[0] == p[0] && t[1] == p[1] && t[2] == p[2];
  }

  function Utf8(c: Char): Bytes
    requires !Surrogate(c)
  {
    if c < 0x80 then [c]
    else if c < 0x800 then [0xC0 + c / 64, 0x80 + c % 64]
    else if c < 0x1_0000 then [0xE0 + c / 4096, 0x80 + c / 64 % 64, 0x80 + c % 64]
    else [0xF0 + c / 262144, 0x80 + c / 4096 % 64, 0x80 + c / 64 % 64, 0x80 + c % 64]
  }

  function Percents(bytes: Bytes): Text {
    if bytes == [] then [] else PercentByte(bytes[0]) + Percents(bytes[1..])
  }

  function EncodeChar(c: Char): Result<Text, Error> {
    if Plain(c) then Ok([c]) else if Surrogate(c) then Err(URIError) else Ok(Percents(Utf8(c)))
  }

  function Encode(t: Text): Result<Text, Error> {
    if t == [] then Ok([])
    else match (EncodeChar(t[0]), Encode(t[1..]))
         case (Ok(first), Ok(rest)) => Ok(first + rest)
         case (_, _) => Err(URIError)
  }

  // -------------------------------------------------------------- decoding --

  /** A continuation octet: its six bits. */
  function Continuation(t: Text, at: nat): (r: Option<nat>)
    ensures r.Some? ==> at + 3 <= |t| && r.value < 64
  {
    var b := Octet(t, at);
    if b.Some? && 0x80 <= b.value < 0xC0 then Some(b.value - 0x80) else None
  }

  datatype Escape = Escape(point: Char, size: nat) | Bad

  function Checked(value: nat, least: nat, size: nat): Escape {
    if least <= value < 0x11_0000 && !(0xD800 <= value < 0xE000) then Escape(value, size) else Bad
  }

  /** The escape sequence at the front: one octet, or two to four that are the UTF-8 form of one code point. */
  function EscapeAt(t: Text): (e: Escape)
    ensures e.Escape? ==> 3 <= e.size <= |t|
  {
    var lead := Octet(t, 0);
    if lead.None? then Bad
    else if lead.value < 0x80 then Escape(lead.value, 3)
    else if lead.value < 0xC0 || lead.value >= 0xF8 then Bad
    else
      var c1 := Continuation(t, 3);
      if c1.None? then Bad
      else if lead.value < 0xE0 then Checked((lead.value - 0xC0) * 64 + c1.value, 0x80, 6)
      else
        var c2 := Continuation(t, 6);
        if c2.None? then Bad
        else if lead.value < 0xF0 then Checked((lead.value - 0xE0) * 4096 + c1.value * 64 + c2.value, 0x800, 9)
        else
          var c3 := Continuation(t, 9);
          if c3.None? then Bad
          else Checked((lead.value - 0xF0) * 262144 + c1.value * 4096 + c2.value * 64 + c3.value, 0x1_0000, 12)
  }

  function Prepend(c: Char, r: Result<Text, Error>): Result<Text, Error> {
    if r.Ok? then Ok([c] + r.value) else r
  }

  function Decode(t: Text): Result<Text, Error>
    decreases |t|
  {
    if t == [] then Ok([])
    else if t[0] != 37 then Prepend(t[0], Decode(t[1..]))
    else
      var e := EscapeAt(t);
      if e.Bad? then Err(URIError) else Prepend(e.point, Decode(t[e.size..]))
  }

  // ------------------------------------------------------------- round trip --

  lemma Escape1(c: Char, x: Text)
    requires c < 0x80
    ensures EscapeAt(Percents(Utf8(c)) + x) == Escape(c, 3) && |Percents(Utf8(c))| == 3
  {
    var p := PercentByte(c);
    assert Percents([c]) == p + Percents([c][1..]);
    assert Percents(Utf8(c)) + x == p + x;
    OctetOfByte(c, x);
  }

  lemma {:induction false} PercentsOctet(bytes: Bytes, k: nat, x: Text)
    requires k < |bytes|
    ensures Octet(Percents(bytes) + x, 3 * k) == Some(bytes[k])
    decreases k
  {
    var first, rest := PercentByte(bytes[0]), Percents(bytes[1..]) + x;
    Associate(first, Percents(bytes[1..]), x);
    if k == 0 {
      OctetOfByte(bytes[0], rest);
    } else {
      PercentsOctet(bytes[1..], k - 1, x);
      OctetBehind(first, rest, 3 * (k - 1));
    }
  }

  lemma {:induction false} PercentsSize(bytes: Bytes)
    ensures |Percents(bytes)| == 3 * |bytes|
  {
    if bytes != [] {
      PercentsSize(bytes[1..]);
    }
  }

  lemma OctetBehind(first: Text, rest: Text, at: nat)
    requires |first| == 3
    ensures Octet(first + rest, 3 + at) == Octet(rest, at)
  {
    var t := first + rest;
    if at + 3 <= |rest| {
      assert t[3 + at] == rest[at] && t[4 + at] == rest[at + 1] && t[5 + at] == rest[at + 2];
    }
  }

  lemma Escape2(c: Char, x: Text)
    requires 0x80 <= c < 0x800
    ensures EscapeAt(Percents(Utf8(c)) + x) == Escape(c, 6)
  {
    PercentsOctet(Utf8(c), 0, x);
    PercentsOctet(Utf8(c), 1, x);
  }

  lemma Escape3(c: Char, x: Text)
    requires 0x800 <= c < 0x1_0000 && !Surrogate(c)
    ensures EscapeAt(Percents(Utf8(c)) + x) == Escape(c, 9)
  {
    PercentsOctet(Utf8(c), 0, x);
    PercentsOctet(Utf8(c), 1, x);
    PercentsOctet(Utf8(c), 2, x);
    Digits3(c);
  }

  lemma Digits3(c: nat)
    ensures c / 4096 * 4096 + c / 64 % 64 * 64 + c % 64 == c
  {
    assert c / 64 == c / 4096 * 64 + c / 64 % 64;
  }

  lemma Escape4(c: Char, x: Text)
    requires 0x1_0000 <= c
    ensures EscapeAt(Percents(Utf8(c)) + x) == Escape(c, 12)
  {
    PercentsOctet(Utf8(c), 0, x);
    PercentsOctet(Utf8(c), 1, x);
    PercentsOctet(Utf8(c), 2, x);
    PercentsOctet(Utf8(c), 3, x);
    Digits4(c);
  }

  lemma Digits4(c: nat)
    ensures c / 262144 * 262144 + c / 4096 % 64 * 4096 + c / 64 % 64 * 64 + c % 64 == c
  {
    Digits3(c);
    assert c / 4096 == c / 262144 * 64 + c / 4096 % 64;
  }

  lemma EscapeOfChar(c: Char, x: Text)
    requires !Surrogate(c)
    ensures EscapeAt(Percents(Utf8(c)) + x) == Escape(c, |Percents(Utf8(c))|)
    ensures |Percents(Utf8(c))| > 0 && Percents(Utf8(c))[0] == 37
  {
    PercentsSize(Utf8(c));
    PercentsOctet(Utf8(c), 0, []);
    assert Percents(Utf8(c)) + [] == Percents(Utf8(c));
    if c < 0x80 {
      Escape1(c, x);
    } else if c < 0x800 {
      Escape2(c, x);
    } else if c < 0x1_0000 {
      Escape3(c, x);
    } else {
      Escape4(c, x);
    }
  }

  lemma DecodeFirst(c: Char, x: Text)
    requires EncodeChar(c).Ok?
    ensures Decode(EncodeChar(c).value + x) == Prepend(c, Decode(x))
  {
    var p := EncodeChar(c).value;
    var t := p + x;
    assert t[|p|..] == x;
    if !Plain(c) {
      EscapeOfChar(c, x);
    }
  }

  predicate NoSurrogate(t: Text) {
    forall k :: 0 <= k < |t| ==> !Surrogate(t[k])
  }

  /** Every string without unpaired surrogates can be encoded, and decoding gives it back. Any other string throws. */
  lemma {:induction false} RoundTrip(t: Text)
    ensures Encode(t).Ok? <==> NoSurrogate(t)
    ensures NoSurrogate(t) ==> Decode(Encode(t).value) == Ok(t)
  {
    if t != [] {
      RoundTrip(t[1..]);
      assert NoSurrogate(t) <==> !Surrogate(t[0]) && NoSurrogate(t[1..]);
      if NoSurrogate(t) {
        DecodeFirst(t[0], Encode(t[1..]).value);
        assert t == [t[0]] + t[1..];
      }
    }
  }

  /** What an encoded string is made of: plain characters and `%`. */
  lemma {:induction false} EncodedChars(t: Text)
    requires Encode(t).Ok?
    ensures forall k :: 0 <= k < |Encode(t).value| ==> Plain(Encode(t).value[k]) || Encode(t).value[k] == 37
  {
    if t != [] {
      EncodedChars(t[1..]);
      if !Plain(t[0]) {
        PercentsChars(Utf8(t[0]));
      }
    }
  }

  lemma {:induction false} PercentsChars(bytes: Bytes)
    ensures forall k :: 0 <= k < |Percents(bytes)| ==> Plain(Percents(bytes)[k]) || Percents(bytes)[k] == 37
  {
    if bytes != [] {
      PercentsChars(bytes[1..]);
    }
  }

  /** Which characters stay as they are; a blank, a slash and everything beyond ASCII is written in octets. */
  lemma KeptIff(c: Char)
    ensures Encode([c]) == Ok([c])
            <==> || 'A' as int <= c <= 'Z' as int || 'a' as int <= c <= 'z' as int || '0' as int <= c <= '9' as int
                 || c == '-' as int || c == '_' as int || c == '.' as int || c == '!' as int || c == '~' as int
                 || c == '*' as int || c == '\'' as int || c == '(' as int || c == ')' as int
  {
    EncodeOne(c);
    if !Plain(c) && !Surrogate(c) {
      PercentsSize(Utf8(c));
    }
  }

  lemma EncodeOne(c: Char)
    ensures Encode([c]) == EncodeChar(c)
  {
    assert [c][1..] == [];
    if EncodeChar(c).Ok? {
      assert EncodeChar(c).value + [] == EncodeChar(c).value;
    }
  }

  /** RFC 3986 and RFC 3629 on the octets: one of ASCII, and the lead octets of two, three and four. */
  lemma OctetsAre(c: Char)
    requires !Surrogate(c) && !Plain(c)
    ensures c < 0x80 ==> Encode([c]) == Ok(PercentByte(c))
    ensures c >= 0x80 ==>
              var bytes := Utf8(c);
              && Encode([c]) == Ok(Percents(bytes))
              && |bytes| == (if c < 0x800 then 2 else if c < 0x1_0000 then 3 else 4)
              && 0xC0 <= bytes[0] < 0xF8 && (forall k :: 0 < k < |bytes| ==> 0x80 <= bytes[k] < 0xC0)
  {
    EncodeOne(c);
    if c < 0x80 {
      PercentsOne(c);
    }
  }

  lemma PercentsOne(b: Byte)
    ensures Percents([b]) == PercentByte(b)
  {
    var bytes: Bytes := [b];
    assert bytes[1..] == [];
  }

  /** U+20AC, the euro sign. */
  lemma EuroSign()
    ensures Encode([0x20AC]) == Ok(Word("%E2%82%AC"))
  {
    EncodeOne(0x20AC);
    var bytes: Bytes := [0xE2, 0x82, 0xAC];
    var two: Bytes := [0x82, 0xAC];
    assert Utf8(0x20AC) == bytes && bytes[1..] == two && two[1..] == [0xAC];
    PercentsOne(0xAC);
    assert PercentByte(0xE2) == [37, 69, 50] && PercentByte(0x82) == [37, 56, 50] && PercentByte(0xAC) == [37, 65, 67];
    assert Word("%E2%82%AC") == [37, 69, 50] + ([37, 56, 50] + [37, 65, 67]);
  }
}
