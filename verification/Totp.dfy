/** One-time codes: HOTP of RFC 4226 with six digits, and `verifyTotp`'s window around the current counter. */
module Totp {
  import opened Base
  import opened Buffers
  import opened Texts
  import Base32

  /** HMAC-SHA-1 is a parameter of which only the length of its digest is known. */
  type Digest = d: Bytes | |d| == 20 witness Zeros(20)
  type Mac = (Bytes, Bytes) -> Digest

  /** `writeUInt32BE` outside 0 to 2^32 - 1. */
  datatype Error = RangeError

  const TWO32 := 0x1_0000_0000

  // --------------------------------------------------------------- counter --

  function Bytes32(v: nat): Bytes
    requires v < TWO32
  {
    [v / 0x100_0000, v / 0x1_0000 % 256, v / 256 % 256, v % 256]
  }

  predicate CounterFits(counter: int) {
    0 <= counter < TWO32 * TWO32
  }

  function CounterBytes(counter: int): Bytes
    requires CounterFits(counter)
  {
    Bytes32(counter / TWO32) + Bytes32(counter % TWO32)
  }

  /** Reading the four bytes back. */
  lemma Word32OfBytes(v: nat)
    requires v < TWO32
    ensures |Bytes32(v)| == 4 && Word32(Bytes32(v), 0) == v
  {
    var high, low := v / 0x1_0000, v % 0x1_0000;
    assert v / 0x100_0000 == high / 256;
    assert v / 256 % 256 == low / 256;
    assert v % 256 == low % 256;
  }

  /** The two halves of the buffer, high first, recombine to the counter. */
  lemma HalvesRecombine(counter: int)
    requires CounterFits(counter)
    ensures var b := CounterBytes(counter);
            |b| == 8 && Word32(b, 0) * TWO32 + Word32(b, 4) == counter
  {
    var high, low := Bytes32(counter / TWO32), Bytes32(counter % TWO32);
    Word32OfBytes(counter / TWO32);
    Word32OfBytes(counter % TWO32);
    var b := CounterBytes(counter);
    assert Word32(b, 0) == Word32(high, 0) && Word32(b, 4) == Word32(low, 0);
  }

  method WriteUInt32BE(buffer: array<Byte>, value: int, at: nat) returns (r: Option<Error>)
    requires at + 4 <= buffer.Length
    modifies buffer
    ensures r == if 0 <= value < TWO32 then None else Some(RangeError)
    ensures buffer[..] == if r.None? then old(buffer[..at]) + Bytes32(value) + old(buffer[at + 4..])
            else old(buffer[..])
  {
    if !(0 <= value < TWO32) {
      return Some(RangeError);
    }
    buffer[at] := value / 0x100_0000;
    buffer[at + 1] := value / 0x1_0000 % 256;
    buffer[at + 2] := value / 256 % 256;
    buffer[at + 3] := value % 256;
    r := None;
  }

  // ------------------------------------------------------------ truncation --

  /** `hmac[i] ?? 0`. */
  function At(d: Bytes, i: nat): Byte {
    if i < |d| then d[i] else 0
  }

  function Truncated(d: Bytes): nat {
    var offset := At(d, if |d| == 0 then 0 else |d| - 1) % 16;
    At(d, offset) % 128 * 0x100_0000 + At(d, offset + 1) as int * 0x1_0000 + At(d, offset + 2) as int * 256
        + At(d, offset + 3)
  }

  /** Dynamic truncation (RFC 4226, section 5.3): the four bytes lie inside the digest, read without their top bit. */
  lemma TruncationIsDynamic(d: Digest)
    ensures var offset := d[19] % 16;
            offset + 4 <= |d| && Truncated(d) == Word32(d, offset) % 0x8000_0000
  {
    var offset := d[19] % 16;
    TopBit(d[offset], d[offset + 1], d[offset + 2], d[offset + 3]);
  }

  lemma TopBit(a: Byte, b: Byte, c: Byte, e: Byte)
    ensures ((a as int * 256 + b) * 65536 + (c as int * 256 + e)) % 0x8000_0000
         == a % 128 * 0x100_0000 + b as int * 0x1_0000 + c as int * 256 + e
  {
    var low := b as int * 65536 + c as int * 256 + e;
    assert (a as int * 256 + b) * 65536 + (c as int * 256 + e) == a as int * 0x100_0000 + low;
    assert a as int == a / 128 * 128 + a % 128;
    var r := a % 128 * 0x100_0000 + low;
    assert a as int * 0x100_0000 + low == a / 128 * 0x8000_0000 + r;
    assert 0 <= r < 0x8000_0000;
  }

  // ------------------------------------------------------------ six digits --

  /** `padStart(width, '0')`. */
  function PadStart(t: Text, width: nat): Text {
    if |t| >= width then t else seq(width - |t|, _ => 48) + t
  }

  function CodeOf(d: Digest): Text {
    PadStart(Decimal(Truncated(d) % 1_000_000), 6)
  }

  predicate AllDigits(t: Text) {
    forall k :: 0 <= k < |t| ==> 48 <= t[k] <= 57
  }

  /** `/^\d{6}$/`. */
  predicate SixDigits(t: Text) {
    |t| == 6 && AllDigits(t)
  }

  /** A run of digits read as a number. */
  function ValueOf(t: Text): int {
    if t == [] then 0 else 10 * ValueOf(t[..|t| - 1]) + (t[|t| - 1] as int - 48)
  }

  function Pow10(n: nat): nat {
    if n == 0 then 1 else 10 * Pow10(n - 1)
  }

  lemma {:induction false} DecimalIs(n: nat, width: nat)
    requires width >= 1 && n < Pow10(width)
    ensures 1 <= |Decimal(n)| <= width && AllDigits(Decimal(n)) && ValueOf(Decimal(n)) == n
  {
    if n >= 10 {
      DecimalIs(n / 10, width - 1);
      var t := Decimal(n);
      assert t[..|t| - 1] == Decimal(n / 10);
    } else {
      assert ValueOf([]) == 0;
      assert Decimal(n)[..0] == [];
    }
  }

  lemma {:induction false} LeadingZeros(k: nat, t: Text)
    ensures ValueOf(seq(k, _ => 48) + t) == ValueOf(t)
    decreases k, |t|
  {
    var zeros: Text := seq(k, _ => 48);
    var s := zeros + t;
    if t != [] {
      LeadingZeros(k, t[..|t| - 1]);
      assert s[..|s| - 1] == zeros + t[..|t| - 1];
    } else if k > 0 {
      LeadingZeros(k - 1, []);
      assert s[..|s| - 1] == seq(k - 1, _ => 48) + t;
      assert s[|s| - 1] == 48;
    }
  }

  /** A code is six digits and reads as the truncated value modulo a million. */
  lemma CodeIsSixDigits(d: Digest)
    ensures SixDigits(CodeOf(d)) && ValueOf(CodeOf(d)) == Truncated(d) % 1_000_000
  {
    var n := Truncated(d) % 1_000_000;
    assert Pow10(3) == 1000;
    assert Pow10(6) == 1000 * Pow10(3);
    DecimalIs(n, 6);
    LeadingZeros(6 - |Decimal(n)|, Decimal(n));
  }

  function Hotp(key: Bytes, counter: int, mac: Mac): Result<Text, Error> {
    if CounterFits(counter) then Ok(CodeOf(mac(key, CounterBytes(counter)))) else Err(RangeError)
  }

  lemma HalvesFit(counter: int)
    ensures CounterFits(counter) <==> 0 <= counter / TWO32 < TWO32
  {
  }

  /** JavaScript's `%` takes the sign of its left operand. */
  function Remainder(n: int, m: int): int
    requires m > 0
  {
    if n >= 0 then n % m else -((-n) % m)
  }

  method HotpCode(key: Bytes, counter: int, mac: Mac) returns (r: Result<Text, Error>)
    ensures r == Hotp(key, counter, mac)
  {
    var counterBuffer := new Byte[8](_ => 0);
    HalvesFit(counter);
    var high := WriteUInt32BE(counterBuffer, counter / TWO32, 0);
    if high.Some? {
      return Err(high.value);
    }
    // the counter is not negative here, so the low half always fits
    var low := WriteUInt32BE(counterBuffer, Remainder(counter, TWO32), 4);
    assert counterBuffer[..] == CounterBytes(counter);
    r := Ok(CodeOf(mac(key, counterBuffer[..])));
  }

  // ---------------------------------------------------------------- window --

  /** `Math.floor(now / 1000 / 30)`, the exact quotient. */
  function CounterAt(now: int): int {
    now / 30_000
  }

  /** Some counter of the window has this code. */
  ghost predicate InWindow(key: Bytes, code: Text, first: int, last: int, mac: Mac) {
    exists c :: first <= c <= last && Hotp(key, c, mac) == Ok(code)
  }

  /**
   * The outcome for one well-formed code: a counter of the window that does not fit throws unless an earlier one
   * matched.
   */
  ghost predicate Verdict(key: Bytes, code: Text, first: int, last: int, mac: Mac, r: Result<bool, Error>) {
    match r
    case Ok(true) => first >= 0 && InWindow(key, code, first, last, mac)
    case Ok(false) => (first > last || (first >= 0 && CounterFits(last))) && !InWindow(key, code, first, last, mac)
    case Err(_) => first <= last && (first < 0 || (!CounterFits(last) && !InWindow(key, code, first, last, mac)))
  }

  method VerifyTotp(secretBase32: Text, code: Text, now: int, window: int, upper: Char -> Text, mac: Mac)
    returns (r: Result<bool, Error>)
    ensures !SixDigits(code) ==> r == Ok(false)
    ensures SixDigits(code) ==>
      Verdict(Base32.Decoded(Base32.Symbols(secretBase32, upper)), code, CounterAt(now) - window,
              CounterAt(now) + window, mac, r)
  {
    if !SixDigits(code) {
      return Ok(false);
    }
    var key := Base32.Decode(secretBase32, upper);
    var counter := CounterAt(now);
    ghost var first := counter - window;
    var drift := -window;
    while drift <= window
      invariant -window <= drift && (drift <= window + 1 || drift == -window)
      invariant forall c :: first <= c < counter + drift ==> CounterFits(c) && Hotp(key, c, mac) != Ok(code)
      decreases window - drift
    {
      var expected := HotpCode(key, counter + drift, mac);
      if expected.Err? {
        assert !CounterFits(counter + drift);
        return Err(expected.error);
      }
      assert first >= 0 by {
        if drift > -window {
          assert CounterFits(first);
        }
      }
      if expected.value == code {
        return Ok(true);
      }
      drift := drift + 1;
    }
    if window >= 0 {
      assert CounterFits(first) && CounterFits(counter + window);
    }
    r := Ok(false);
  }

  /** With every counter of the window in range, a code is accepted exactly when it is the code of one of them. */
  lemma AcceptsExactlyTheWindow(key: Bytes, code: Text, first: int, last: int, mac: Mac, r: Result<bool, Error>)
    requires Verdict(key, code, first, last, mac, r) && 0 <= first && CounterFits(last)
    ensures r == Ok(InWindow(key, code, first, last, mac))
  {
    match r
    case Ok(true) =>
    case Ok(false) =>
    case Err(_) =>
  }

  /** Verification throws exactly when the window reaches below counter 0, or past 2^64 - 1 with no match before. */
  lemma ThrowsIff(key: Bytes, code: Text, first: int, last: int, mac: Mac, r: Result<bool, Error>)
    requires Verdict(key, code, first, last, mac, r) && first <= last
    ensures r.Err? <==> first < 0 || (last >= TWO32 * TWO32 && !InWindow(key, code, first, last, mac))
  {
  }

  /**
   * A counter is in the window exactly from `window` steps before its half minute to `window` steps after it, and its
   * own code, six digits, is then among those accepted.
   */
  lemma OwnCodeInWindow(key: Bytes, c: int, now: int, window: nat, mac: Mac)
    requires CounterFits(c)
    ensures CounterAt(now) - window <= c <= CounterAt(now) + window
            <==> (c - window) * 30_000 <= now < (c + window + 1) * 30_000
    ensures var code := CodeOf(mac(key, CounterBytes(c)));
            && SixDigits(code)
            && ((c - window) * 30_000 <= now < (c + window + 1) * 30_000 ==>
                  InWindow(key, code, CounterAt(now) - window, CounterAt(now) + window, mac))
  {
    CodeIsSixDigits(mac(key, CounterBytes(c)));
    assert Hotp(key, c, mac) == Ok(CodeOf(mac(key, CounterBytes(c))));
  }
}
