/** `base32Decode`: letters in either case, any separators, five bits a symbol and a byte for every whole eight. */
module Base32 {
  import opened Base
  import opened Buffers
  import opened Texts

  type Symbol = v: int | 0 <= v < 32
  type Bit = b: int | 0 <= b < 2

  /** `toUpperCase` maps each code point to a string; only what it does to ASCII is fixed here. */
  ghost predicate UpperCases(upper: Char -> Text) {
    forall c: Char :: c < 128 ==> upper(c) == [if 97 <= c <= 122 then c - 32 else c]
  }

  /** A-Z and 2-7. */
  predicate InAlphabet(c: Char) {
    65 <= c <= 90 || 50 <= c <= 55
  }

  function IndexOf(c: Char): Symbol
    requires InAlphabet(c)
  {
    if c >= 65 then c - 65 else c - 50 + 26
  }

  // ---------------------------------------------------------------- bits --

  /** `toString(2).padStart(width, '0')`. */
  function BitsOf(n: nat, width: nat): (r: seq<Bit>)
    ensures |r| == width
  {
    if width == 0 then [] else BitsOf(n / 2, width - 1) + [n % 2]
  }

  /** `parseInt(bits, 2)`. */
  function Number(bits: seq<Bit>): nat {
    if bits == [] then 0 else 2 * Number(bits[..|bits| - 1]) + bits[|bits| - 1]
  }

  function Pow2(n: nat): (p: nat)
    ensures p >= 1
  {
    if n == 0 then 1 else 2 * Pow2(n - 1)
  }

  lemma {:induction false} NumberOfBits(n: nat, width: nat)
    requires n < Pow2(width)
    ensures Number(BitsOf(n, width)) == n
  {
    if width > 0 {
      NumberOfBits(n / 2, width - 1);
      var r := BitsOf(n, width);
      assert r[..width - 1] == BitsOf(n / 2, width - 1);
    }
  }

  lemma {:induction false} BitsOfNumber(bits: seq<Bit>)
    ensures Number(bits) < Pow2(|bits|)
    ensures BitsOf(Number(bits), |bits|) == bits
  {
    if bits != [] {
      var front := bits[..|bits| - 1];
      BitsOfNumber(front);
      assert bits == front + [bits[|bits| - 1]];
    }
  }

  lemma Powers()
    ensures Pow2(5) == 32 && Pow2(8) == 256
  {
    assert Pow2(3) == 8;
    assert Pow2(5) == 4 * Pow2(3) && Pow2(8) == 8 * Pow2(5);
  }

  function Byte8(bits: seq<Bit>): Byte
    requires |bits| == 8
  {
    BitsOfNumber(bits);
    Powers();
    Number(bits)
  }

  function Symbol5(bits: seq<Bit>): Symbol
    requires |bits| == 5
  {
    BitsOfNumber(bits);
    Powers();
    Number(bits)
  }

  // ------------------------------------------------------------- decoding --

  function SymbolBits(symbols: seq<Symbol>): (r: seq<Bit>)
    ensures |r| == 5 * |symbols|
  {
    if symbols == [] then [] else BitsOf(symbols[0], 5) + SymbolBits(symbols[1..])
  }

  /** A byte for every whole eight bits; what is over is dropped. */
  function WholeBytes(bits: seq<Bit>): (r: Bytes)
    ensures |r| == |bits| / 8
  {
    if |bits| < 8 then [] else [Byte8(bits[..8])] + WholeBytes(bits[8..])
  }

  function Decoded(symbols: seq<Symbol>): Bytes {
    WholeBytes(SymbolBits(symbols))
  }

  function SymbolsIn(c: Char): seq<Symbol> {
    if InAlphabet(c) then [IndexOf(c)] else []
  }

  /** The symbols of an upper-cased text, everything else dropped. */
  function Filtered(t: Text): seq<Symbol> {
    if t == [] then [] else SymbolsIn(t[0]) + Filtered(t[1..])
  }

  function Upper(t: Text, upper: Char -> Text): Text {
    if t == [] then [] else upper(t[0]) + Upper(t[1..], upper)
  }

  function Symbols(t: Text, upper: Char -> Text): seq<Symbol> {
    Filtered(Upper(t, upper))
  }

  /** `replace(/[^A-Z2-7]/g, '')`. */
  function Clean(t: Text): (r: Text)
    ensures forall k :: 0 <= k < |r| ==> InAlphabet(r[k])
  {
    if t == [] then [] else (if InAlphabet(t[0]) then [t[0]] else []) + Clean(t[1..])
  }

  lemma {:induction false} FilteredClean(t: Text)
    ensures Filtered(Clean(t)) == Filtered(t)
  {
    if t != [] {
      FilteredClean(t[1..]);
      if InAlphabet(t[0]) {
        assert Clean(t)[1..] == Clean(t[1..]);
      } else {
        assert Clean(t) == Clean(t[1..]);
      }
    }
  }

  lemma {:induction false} FilteredLast(t: Text, c: Char)
    requires InAlphabet(c)
    ensures Filtered(t + [c]) == Filtered(t) + [IndexOf(c)]
  {
    if t == [] {
      assert t + [c] == [c] && [c][1..] == [];
    } else {
      FilteredLast(t[1..], c);
      assert (t + [c])[0] == t[0] && (t + [c])[1..] == t[1..] + [c];
      Associate(SymbolsIn(t[0]), Filtered(t[1..]), [IndexOf(c)]);
    }
  }

  lemma {:induction false} SymbolBitsLast(symbols: seq<Symbol>, v: Symbol)
    ensures SymbolBits(symbols + [v]) == SymbolBits(symbols) + BitsOf(v, 5)
  {
    if symbols == [] {
      assert symbols + [v] == [v] && [v][1..] == [];
    } else {
      SymbolBitsLast(symbols[1..], v);
      assert (symbols + [v])[1..] == symbols[1..] + [v];
    }
  }

  lemma WholeBytesCons(first: seq<Bit>, rest: seq<Bit>)
    requires |first| == 8
    ensures WholeBytes(first + rest) == [Byte8(first)] + WholeBytes(rest)
  {
    assert (first + rest)[..8] == first && (first + rest)[8..] == rest;
  }

  lemma {:induction false} WholeBytesLast(bits: seq<Bit>, more: seq<Bit>)
    requires |bits| % 8 == 0 && |more| == 8
    ensures WholeBytes(bits + more) == WholeBytes(bits) + [Byte8(more)]
  {
    if bits == [] {
      assert bits + more == more + [];
      WholeBytesCons(more, []);
    } else {
      WholeBytesLast(bits[8..], more);
      WholeBytesCons(bits[..8], bits[8..] + more);
      assert bits + more == bits[..8] + (bits[8..] + more);
    }
  }

  lemma {:induction false} WholeBytesCut(bits: seq<Bit>, n: nat)
    requires n % 8 == 0 && n <= |bits| < n + 8
    ensures WholeBytes(bits[..n]) == WholeBytes(bits)
    decreases n
  {
    if n > 0 {
      var rest := bits[8..];
      WholeBytesCut(rest, n - 8);
      WholeBytesCons(bits[..8], rest);
      WholeBytesCons(bits[..8], rest[..n - 8]);
      assert bits == bits[..8] + rest && bits[..n] == bits[..8] + rest[..n - 8];
    }
  }

  lemma BitsStep(done: Text, c: Char)
    requires InAlphabet(c)
    ensures SymbolBits(Filtered(done + [c])) == SymbolBits(Filtered(done)) + BitsOf(IndexOf(c), 5)
  {
    FilteredLast(done, c);
    SymbolBitsLast(Filtered(done), IndexOf(c));
  }

  lemma BytesStep(bits: seq<Bit>, i: nat)
    requires i % 8 == 0 && i + 8 <= |bits|
    ensures WholeBytes(bits[..i + 8]) == WholeBytes(bits[..i]) + [Byte8(bits[i..i + 8])]
  {
    WholeBytesLast(bits[..i], bits[i..i + 8]);
    assert bits[..i + 8] == bits[..i] + bits[i..i + 8];
  }

  lemma BitsMore(clean: Text, k: nat)
    requires k < |clean| && InAlphabet(clean[k])
    ensures SymbolBits(Filtered(clean[..k + 1])) == SymbolBits(Filtered(clean[..k])) + BitsOf(IndexOf(clean[k]), 5)
  {
    var done := clean[..k];
    assert clean[..k + 1] == done + [clean[k]];
    BitsStep(done, clean[k]);
  }

  method Decode(input: Text, upper: Char -> Text) returns (bytes: Bytes)
    ensures bytes == Decoded(Symbols(input, upper))
  {
    var clean := Clean(Upper(input, upper));
    FilteredClean(Upper(input, upper));
    var bits: seq<Bit> := [];
    var k := 0;
    while k < |clean|
      invariant 0 <= k <= |clean|
      invariant bits == SymbolBits(Filtered(clean[..k]))
    {
      BitsMore(clean, k);
      var index := IndexOf(clean[k]);
      bits := bits + BitsOf(index, 5);
      k := k + 1;
    }
    assert clean[..k] == clean;
    bytes := [];
    var i := 0;
    while i + 8 <= |bits|
      invariant 0 <= i <= |bits| && i % 8 == 0
      invariant bytes == WholeBytes(bits[..i])
    {
      BytesStep(bits, i);
      bytes := bytes + [Byte8(bits[i..i + 8])];
      i := i + 8;
    }
    WholeBytesCut(bits, i);
  }

  // ------------------------------------------ the encoding of RFC 4648, section 6 --

  function ByteBits(bytes: Bytes): (r: seq<Bit>)
    ensures |r| == 8 * |bytes|
  {
    if bytes == [] then [] else BitsOf(bytes[0], 8) + ByteBits(bytes[1..])
  }

  function ZeroBits(n: nat): seq<Bit> {
    seq(n, _ => 0)
  }

  /** Five bits a symbol, the last group filled up with zero bits. */
  function Groups(bits: seq<Bit>): seq<Symbol> {
    if bits == [] then []
    else if |bits| < 5 then [Symbol5(bits + ZeroBits(5 - |bits|))]
    else [Symbol5(bits[..5])] + Groups(bits[5..])
  }

  function Encoded(bytes: Bytes): seq<Symbol> {
    Groups(ByteBits(bytes))
  }

  lemma SymbolBitsCons(v: Symbol, rest: seq<Symbol>)
    ensures SymbolBits([v] + rest) == BitsOf(v, 5) + SymbolBits(rest)
  {
    assert ([v] + rest)[1..] == rest;
  }

  lemma BitsOfSymbol(bits: seq<Bit>)
    requires |bits| == 5
    ensures BitsOf(Symbol5(bits), 5) == bits
  {
    BitsOfNumber(bits);
  }

  lemma ByteOfBits(b: Byte)
    ensures Byte8(BitsOf(b, 8)) == b
  {
    Powers();
    NumberOfBits(b, 8);
  }

  /** The symbols hold the bits they were made of and fewer than five zero bits. */
  lemma {:induction false} GroupsHold(bits: seq<Bit>) returns (fill: nat)
    ensures fill < 5 && SymbolBits(Groups(bits)) == bits + ZeroBits(fill)
    decreases |bits|
  {
    if bits == [] {
      fill := 0;
    } else if |bits| < 5 {
      fill := 5 - |bits|;
      LastGroup(bits, bits + ZeroBits(fill));
    } else {
      fill := GroupsHold(bits[5..]);
      BitsOfSymbol(bits[..5]);
      SymbolBitsCons(Symbol5(bits[..5]), Groups(bits[5..]));
      Associate(bits[..5], bits[5..], ZeroBits(fill));
      assert bits == bits[..5] + bits[5..];
    }
  }

  lemma LastGroup(bits: seq<Bit>, g: seq<Bit>)
    requires 0 < |bits| < 5 && g == bits + ZeroBits(5 - |bits|)
    ensures SymbolBits(Groups(bits)) == g
  {
    BitsOfSymbol(g);
    SymbolBitsCons(Symbol5(g), []);
    assert Groups(bits) == [Symbol5(g)] + [];
  }

  lemma {:induction false} WholeBytesOf(bytes: Bytes, fill: seq<Bit>)
    requires |fill| < 8
    ensures WholeBytes(ByteBits(bytes) + fill) == bytes
  {
    if bytes == [] {
      assert ByteBits(bytes) + fill == fill;
    } else {
      WholeBytesOf(bytes[1..], fill);
      ByteOfBits(bytes[0]);
      WholeBytesCons(BitsOf(bytes[0], 8), ByteBits(bytes[1..]) + fill);
      Associate(BitsOf(bytes[0], 8), ByteBits(bytes[1..]), fill);
    }
  }

  /** Decoding the symbols of any byte sequence gives the bytes back. */
  lemma DecodedEncoded(bytes: Bytes)
    ensures Decoded(Encoded(bytes)) == bytes
  {
    var fill := GroupsHold(ByteBits(bytes));
    WholeBytesOf(bytes, ZeroBits(fill));
  }

  /** n symbols give floor(5n/8) bytes. */
  lemma DecodedLength(t: Text, upper: Char -> Text)
    ensures |Decoded(Symbols(t, upper))| == 5 * |Symbols(t, upper)| / 8
  {
  }

  // ------------------------------------------------ ways to write the symbols --

  /** The symbol `v` as a letter of either case or a digit. */
  predicate Writes(c: Char, v: Symbol) {
    c == (if v < 26 then v + 65 else v + 24) || (v < 26 && c == v + 97)
  }

  /** A character that leaves no symbol behind: padding, spaces, dashes, anything whose upper case has no A-Z or 2-7. */
  ghost predicate Separates(c: Char, upper: Char -> Text) {
    Filtered(upper(c)) == []
  }

  /** `t` writes the symbols in order, in any case, with separators anywhere. */
  ghost predicate Spells(t: Text, symbols: seq<Symbol>, upper: Char -> Text) {
    if t == [] then symbols == []
    else (Separates(t[0], upper) && Spells(t[1..], symbols, upper))
         || (symbols != [] && Writes(t[0], symbols[0]) && Spells(t[1..], symbols[1..], upper))
  }

  lemma {:induction false} FilteredConcat(a: Text, b: Text)
    ensures Filtered(a + b) == Filtered(a) + Filtered(b)
  {
    if a == [] {
      assert a + b == b;
    } else {
      FilteredConcat(a[1..], b);
      assert (a + b)[0] == a[0] && (a + b)[1..] == a[1..] + b;
      Associate(SymbolsIn(a[0]), Filtered(a[1..]), Filtered(b));
    }
  }

  lemma FilteredSingle(c: Char)
    requires InAlphabet(c)
    ensures Filtered([c]) == [IndexOf(c)]
  {
    assert [c][1..] == [];
  }

  lemma SymbolsCons(t: Text, upper: Char -> Text)
    requires t != []
    ensures Symbols(t, upper) == Filtered(upper(t[0])) + Symbols(t[1..], upper)
  {
    FilteredConcat(upper(t[0]), Upper(t[1..], upper));
  }

  lemma WrittenSymbol(c: Char, v: Symbol, upper: Char -> Text)
    requires UpperCases(upper) && Writes(c, v)
    ensures Filtered(upper(c)) == [v]
  {
    var u: Char := if 97 <= c <= 122 then c - 32 else c;
    assert upper(c) == [u];
    FilteredSingle(u);
  }

  lemma {:induction false} SpelledSymbols(t: Text, symbols: seq<Symbol>, upper: Char -> Text)
    requires UpperCases(upper) && Spells(t, symbols, upper)
    ensures Symbols(t, upper) == symbols
    decreases |t|
  {
    if t != [] {
      SymbolsCons(t, upper);
      if Separates(t[0], upper) && Spells(t[1..], symbols, upper) {
        SpelledSymbols(t[1..], symbols, upper);
      } else {
        SpelledSymbols(t[1..], symbols[1..], upper);
        WrittenSymbol(t[0], symbols[0], upper);
        assert symbols == [symbols[0]] + symbols[1..];
      }
    }
  }

  /** Whatever the case, padding and separators, every spelling of the encoding of some bytes decodes to those bytes. */
  lemma DecodeInvertsEncode(bytes: Bytes, t: Text, upper: Char -> Text)
    requires UpperCases(upper) && Spells(t, Encoded(bytes), upper)
    ensures Decoded(Symbols(t, upper)) == bytes
  {
    SpelledSymbols(t, Encoded(bytes), upper);
    DecodedEncoded(bytes);
  }

  function Letter(v: Symbol): Char {
    if v < 26 then v + 65 else v + 24
  }

  function Printed(symbols: seq<Symbol>): Text {
    if symbols == [] then [] else [Letter(symbols[0])] + Printed(symbols[1..])
  }

  /** The text of RFC 4648: capital letters and digits, filled up with `=` to a multiple of eight. */
  function EncodedText(bytes: Bytes): Text {
    var letters := Printed(Encoded(bytes));
    letters + Padding(|letters|)
  }

  function Padding(letters: nat): Text {
    seq((8 - letters % 8) % 8, _ => 61)
  }

  lemma {:induction false} PaddedSpells(symbols: seq<Symbol>, pad: nat, upper: Char -> Text)
    requires UpperCases(upper)
    ensures Spells(Printed(symbols) + seq(pad, _ => 61), symbols, upper)
    decreases |symbols|, pad
  {
    var t := Printed(symbols) + seq(pad, _ => 61);
    if symbols != [] {
      PaddedSpells(symbols[1..], pad, upper);
      assert t[1..] == Printed(symbols[1..]) + seq(pad, _ => 61);
    } else if pad > 0 {
      PaddedSpells(symbols, pad - 1, upper);
      assert t[1..] == Printed(symbols) + seq(pad - 1, _ => 61);
      assert upper(61) == [61];
      assert Filtered([61]) == [] + Filtered([61][1..]);
    }
  }

  lemma PaddedLength(letters: nat)
    ensures (letters + |Padding(letters)|) % 8 == 0
  {
  }

  /** The standard's own text decodes to the bytes. */
  lemma EncodedTextDecodes(bytes: Bytes, upper: Char -> Text)
    requires UpperCases(upper)
    ensures |EncodedText(bytes)| % 8 == 0
    ensures Decoded(Symbols(EncodedText(bytes), upper)) == bytes
  {
    var symbols := Encoded(bytes);
    var letters := |Printed(symbols)|;
    PaddedLength(letters);
    PaddedSpells(symbols, |Padding(letters)|, upper);
    assert Padding(letters) == seq(|Padding(letters)|, _ => 61);
    DecodeInvertsEncode(bytes, EncodedText(bytes), upper);
  }

  /** A character may be put in anywhere without effect exactly when its upper case holds no symbol. */
  lemma SeparatesIffHarmless(c: Char, upper: Char -> Text)
    ensures Separates(c, upper) <==> forall a: Text, b: Text :: Symbols(a + ([c] + b), upper) == Symbols(a + b, upper)
  {
    if Separates(c, upper) {
      forall a: Text, b: Text ensures Symbols(a + ([c] + b), upper) == Symbols(a + b, upper) {
        PutIn(a, c, b, upper);
      }
    } else {
      SymbolsCons([c] + [], upper);
      assert ([c] + [])[1..] == [];
      assert [] + ([c] + []) == [c] + [];
      var none: Text := [];
      assert none + none == none;
      assert Symbols([] + ([c] + []), upper) != Symbols([] + [], upper);
    }
  }

  lemma {:induction false} PutIn(a: Text, c: Char, b: Text, upper: Char -> Text)
    requires Separates(c, upper)
    ensures Symbols(a + ([c] + b), upper) == Symbols(a + b, upper)
  {
    var t := a + ([c] + b);
    SymbolsCons(t, upper);
    if a == [] {
      assert t == [c] + b && a + b == b;
      assert t[1..] == b;
    } else {
      PutIn(a[1..], c, b, upper);
      SymbolsCons(a + b, upper);
      assert t[1..] == a[1..] + ([c] + b) && (a + b)[1..] == a[1..] + b;
    }
  }

  // ---------------------------------------------------------- bits and letters --

  lemma HalfThenDivide(n: nat, p: nat)
    requires p >= 1
    ensures n / 2 / p == n / (2 * p)
  {
    var q, r := n / (2 * p), n % (2 * p);
    assert n == q * (2 * p) + r;
    assert q * (2 * p) == 2 * (q * p);
    assert n / 2 == q * p + r / 2 && r / 2 < p;
    QuotientIs(n / 2, p, q, r / 2);
  }

  lemma QuotientIs(n: nat, p: nat, q: nat, r: nat)
    requires n == q * p + r && r < p
    ensures n / p == q
  {
    var d := n / p - q;
    assert n == n / p * p + n % p;
    assert (n / p) * p == q * p + d * p;
    Multiple(d, p);
  }

  lemma Multiple(d: int, p: nat)
    ensures d >= 1 ==> d * p >= p
    ensures d <= -1 ==> d * p + p <= 0
  {
  }

  /** The most significant bit comes first. */
  lemma {:induction false} BitAt(n: nat, width: nat, i: nat)
    requires i < width
    ensures BitsOf(n, width)[i] == n / Pow2(width - 1 - i) % 2
    decreases width
  {
    if i < width - 1 {
      BitAt(n / 2, width - 1, i);
      HalfThenDivide(n, Pow2(width - 2 - i));
    }
  }

  lemma {:induction false} SymbolBitAt(symbols: seq<Symbol>, k: nat, i: nat)
    requires k < |symbols| && i < 5
    ensures SymbolBits(symbols)[5 * k + i] == symbols[k] / Pow2(4 - i) % 2
    decreases |symbols|
  {
    var first, rest := BitsOf(symbols[0], 5), SymbolBits(symbols[1..]);
    if k == 0 {
      BitAt(symbols[0], 5, i);
    } else {
      SymbolBitAt(symbols[1..], k - 1, i);
      assert (first + rest)[5 * k + i] == rest[5 * (k - 1) + i];
    }
  }

  lemma {:induction false} WholeByteAt(bits: seq<Bit>, k: nat)
    requires k < |bits| / 8
    ensures WholeBytes(bits)[k] == Byte8(bits[8 * k..8 * k + 8])
    decreases |bits|
  {
    if k > 0 {
      WholeByteAt(bits[8..], k - 1);
      assert bits[8..][8 * (k - 1)..8 * (k - 1) + 8] == bits[8 * k..8 * k + 8];
    }
  }

  lemma ByteBitAt(bits: seq<Bit>, i: nat)
    requires |bits| == 8 && i < 8
    ensures Byte8(bits) / Pow2(7 - i) % 2 == bits[i]
  {
    var n := Number(bits);
    assert n == Byte8(bits);
    assert BitsOf(n, 8) == bits by {
      BitsOfNumber(bits);
    }
    BitAt(n, 8, i);
  }

  /**
   * RFC 4648, section 6, bit by bit: the bits of the decoded bytes are those of the symbols in order, five from each,
   * the most significant first.
   */
  lemma BitByBit(symbols: seq<Symbol>, k: nat, i: nat)
    requires k < 5 * |symbols| / 8 && i < 8
    ensures |Decoded(symbols)| == 5 * |symbols| / 8
    ensures var j := 8 * k + i;
            Decoded(symbols)[k] / Pow2(7 - i) % 2 == symbols[j / 5] / Pow2(4 - j % 5) % 2
  {
    var bits, j := SymbolBits(symbols), 8 * k + i;
    WholeByteAt(bits, k);
    ByteBitAt(bits[8 * k..8 * k + 8], i);
    assert bits[8 * k..8 * k + 8][i] == bits[j];
    SymbolBitAt(symbols, j / 5, j % 5);
  }

  /** The alphabet of RFC 4648, table 3: the letters stand for 0 to 25, the digits 2 to 7 for 26 to 31. */
  lemma AlphabetIs(c: Char)
    ensures InAlphabet(c) <==> 'A' as int <= c <= 'Z' as int || '2' as int <= c <= '7' as int
    ensures 'A' as int <= c <= 'Z' as int ==> Filtered([c]) == [c - 'A' as int]
    ensures '2' as int <= c <= '7' as int ==> Filtered([c]) == [26 + (c - '2' as int)]
    ensures !InAlphabet(c) ==> Filtered([c]) == []
  {
    assert [c][1..] == [];
    assert Filtered([c]) == SymbolsIn(c) + [];
  }
}
