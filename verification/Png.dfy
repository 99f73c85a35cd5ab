/** Cutting metadata chunks out of a PNG, and reading its dimensions before and after. */
module Png {
  import opened Base
  import opened Buffers

  const SIGNATURE: Bytes := [0x89, 0x50, 0x4e, 0x47, 0x0d, 0x0a, 0x1a, 0x0a]

  predicate HasSignature(b: Bytes) {
    |b| >= 8 && b[..8] == SIGNATURE
  }

  /** The four characters of a chunk type. */
  datatype Name = Name(a: int, b: int, c: int, d: int)

  function Low7(b: Byte): int {
    if b < 128 then b else b - 128
  }

  /** A chunk type as `toString('ascii')` shows it: the top bit of every byte is dropped. */
  function TypeAt(b: Bytes, at: nat): Name
    requires at + 4 <= |b|
  {
    Name(Low7(b[at]), Low7(b[at + 1]), Low7(b[at + 2]), Low7(b[at + 3]))
  }

  predicate IsMetadata(t: Name) {
    || t == Name(101, 88, 73, 102)  // eXIf
    || t == Name(116, 69, 88, 116)  // tEXt
    || t == Name(122, 84, 88, 116)  // zTXt
    || t == Name(105, 84, 88, 116)  // iTXt
    || t == Name(116, 73, 77, 69)   // tIME
  }

  predicate IsHeader(t: Name) {
    t == Name(73, 72, 68, 82)  // IHDR
  }

  // -------------------------------------------------- what a PNG consists of --

  /** The bytes after the signature start with a whole chunk. */
  predicate Complete(s: Bytes) {
    |s| >= 8 && 12 + Word32(s, 0) <= |s|
  }

  function ChunkSize(s: Bytes): nat
    requires |s| >= 8
  {
    12 + Word32(s, 0)
  }

  // ------------------------------------------------------------- the loop --

  /** What `stripPngMetadata` copies out of the bytes from some offset on. */
  function Strip(s: Bytes): (r: Bytes)
    decreases |s|
  {
    if |s| < 8 then []
    else if !Complete(s) then s
    else (if IsMetadata(TypeAt(s, 4)) then [] else s[..ChunkSize(s)]) + Strip(s[ChunkSize(s)..])
  }

  function Stripped(b: Bytes): Bytes {
    if HasSignature(b) then b[..8] + Strip(b[8..]) else b
  }

  lemma HeaderAt(b: Bytes, at: nat)
    requires at + 8 <= |b|
    ensures Word32(b, at) == Word32(b[at..], 0) && TypeAt(b, at + 4) == TypeAt(b[at..], 4)
  {
  }

  /** What the loop does at an offset: hand the rest over, or keep or cut a whole chunk. */
  datatype Move = CopyRest | Keep(n: nat) | Cut(n: nat)

  function MoveAt(b: Bytes, offset: nat): (m: Move)
    requires offset + 8 <= |b|
    ensures !m.CopyRest? ==> 12 <= m.n <= |b| - offset
  {
    var length := Word32(b, offset);
    var chunkEnd := offset + 12 + length;
    if chunkEnd > |b| then CopyRest
    else if IsMetadata(TypeAt(b, offset + 4)) then Cut(12 + length)
    else Keep(12 + length)
  }

  /** The parts handed over so far and what is still to come make up the result. */
  ghost predicate Underway(out: seq<Bytes>, b: Bytes, offset: nat, all: Bytes) {
    offset <= |b| && Flatten(out) + Strip(b[offset..]) == all
  }

  lemma StartKeeps(b: Bytes)
    requires |b| >= 8
    ensures Underway([b[..8]], b, 8, b[..8] + Strip(b[8..]))
  {
    assert Flatten([b[..8]]) == b[..8] + Flatten([]);
  }

  lemma RestKeeps(out: seq<Bytes>, b: Bytes, offset: nat, all: Bytes)
    requires Underway(out, b, offset, all) && offset + 8 <= |b| && MoveAt(b, offset).CopyRest?
    ensures Flatten(out + [b[offset..]]) == all
  {
    HeaderAt(b, offset);
    FlattenAppend(out, b[offset..]);
  }

  lemma KeepStrips(b: Bytes, offset: nat, n: nat)
    requires offset + 8 <= |b| && MoveAt(b, offset) == Keep(n)
    ensures Strip(b[offset..]) == b[offset..offset + n] + Strip(b[offset + n..])
  {
    HeaderAt(b, offset);
    var s := b[offset..];
    assert Complete(s) && ChunkSize(s) == n && !IsMetadata(TypeAt(s, 4));
    assert s[..n] == b[offset..offset + n];
    assert s[n..] == b[offset + n..];
  }

  lemma KeepKeeps(out: seq<Bytes>, b: Bytes, offset: nat, n: nat, all: Bytes)
    requires Underway(out, b, offset, all) && offset + 8 <= |b| && MoveAt(b, offset) == Keep(n)
    ensures Underway(out + [b[offset..offset + n]], b, offset + n, all)
  {
    KeepStrips(b, offset, n);
    FlattenAppend(out, b[offset..offset + n]);
    Associate(Flatten(out), b[offset..offset + n], Strip(b[offset + n..]));
  }

  lemma CutKeeps(out: seq<Bytes>, b: Bytes, offset: nat, n: nat, all: Bytes)
    requires Underway(out, b, offset, all) && offset + 8 <= |b| && MoveAt(b, offset) == Cut(n)
    ensures Underway(out, b, offset + n, all)
  {
    HeaderAt(b, offset);
    assert b[offset..][n..] == b[offset + n..];
    assert [] + Strip(b[offset + n..]) == Strip(b[offset + n..]);
  }

  lemma EndKeeps(out: seq<Bytes>, b: Bytes, offset: nat, all: Bytes)
    requires Underway(out, b, offset, all) && offset + 8 > |b|
    ensures Flatten(out) == all
  {
    assert Strip(b[offset..]) == [];
  }

  /** The loop behind the signature. */
  method StripChunks(buffer: Bytes) returns (r: Bytes)
    requires |buffer| >= 8
    ensures r == buffer[..8] + Strip(buffer[8..])
  {
    var out: seq<Bytes> := [buffer[..8]];
    var offset := 8;
    ghost var all := buffer[..8] + Strip(buffer[8..]);
    StartKeeps(buffer);
    while offset + 8 <= |buffer|
      invariant Underway(out, buffer, offset, all)
    {
      match MoveAt(buffer, offset)
      case CopyRest =>
        RestKeeps(out, buffer, offset, all);
        out := out + [buffer[offset..]];
        return Flatten(out);
      case Keep(n) =>
        KeepKeeps(out, buffer, offset, n, all);
        out := out + [buffer[offset..offset + n]];
        offset := offset + n;
      case Cut(n) =>
        CutKeeps(out, buffer, offset, n, all);
        offset := offset + n;
    }
    EndKeeps(out, buffer, offset, all);
    r := Flatten(out);
  }

  method StripPngMetadata(buffer: Bytes) returns (r: Bytes)
    ensures r == Stripped(buffer)
  {
    if !HasSignature(buffer) {
      return buffer;
    }
    r := StripChunks(buffer);
  }

  // ------------------------------------------------ exactly what is removed --

  /** A whole chunk: length, type, as many data bytes as the length says, and a checksum. */
  predicate IsChunk(c: Bytes) {
    |c| >= 12 && |c| == 12 + Word32(c, 0)
  }

  function Chunks(s: Bytes): seq<Bytes>
    decreases |s|
  {
    if Complete(s) then [s[..ChunkSize(s)]] + Chunks(s[ChunkSize(s)..]) else []
  }

  function Leftover(s: Bytes): Bytes
    decreases |s|
  {
    if Complete(s) then Leftover(s[ChunkSize(s)..]) else s
  }

  predicate MetadataChunk(c: Bytes) {
    |c| >= 8 && IsMetadata(TypeAt(c, 4))
  }

  function WithoutMetadata(cs: seq<Bytes>): seq<Bytes> {
    if cs == [] then []
    else (if MetadataChunk(cs[0]) then [] else [cs[0]]) + WithoutMetadata(cs[1..])
  }

  function KeptTail(s: Bytes): Bytes {
    if |Leftover(s)| >= 8 then Leftover(s) else []
  }

  function StrippedBody(s: Bytes): Bytes {
    Flatten(WithoutMetadata(Chunks(s))) + KeptTail(s)
  }

  lemma BodyStep(s: Bytes)
    requires Complete(s)
    ensures StrippedBody(s)
         == (if MetadataChunk(s[..ChunkSize(s)]) then [] else s[..ChunkSize(s)]) + StrippedBody(s[ChunkSize(s)..])
  {
    var n := ChunkSize(s);
    var cs := Chunks(s);
    assert cs[0] == s[..n] && cs[1..] == Chunks(s[n..]);
    var rest := WithoutMetadata(cs[1..]);
    if !MetadataChunk(s[..n]) {
      assert WithoutMetadata(cs) == [s[..n]] + rest;
      assert ([s[..n]] + rest)[1..] == rest;
    } else {
      assert WithoutMetadata(cs) == rest;
    }
  }

  lemma TypeOfFirst(s: Bytes)
    requires Complete(s)
    ensures MetadataChunk(s[..ChunkSize(s)]) <==> IsMetadata(TypeAt(s, 4))
  {
    assert TypeAt(s[..ChunkSize(s)], 4) == TypeAt(s, 4);
  }

  /** The loop's result, seen as chunks. */
  lemma {:induction false} StripIsBody(s: Bytes)
    ensures Strip(s) == StrippedBody(s)
    decreases |s|
  {
    if Complete(s) {
      StripIsBody(s[ChunkSize(s)..]);
      TypeOfFirst(s);
      BodyStep(s);
    } else {
      assert StrippedBody(s) == [] + KeptTail(s) == KeptTail(s);
    }
  }

  lemma FirstChunk(s: Bytes)
    requires Complete(s)
    ensures IsChunk(s[..ChunkSize(s)]) && s == s[..ChunkSize(s)] + s[ChunkSize(s)..]
  {
    assert Word32(s, 0) == Word32(s[..ChunkSize(s)], 0);
  }

  lemma FlattenCons(c: Bytes, rest: seq<Bytes>)
    ensures Flatten([c] + rest) == c + Flatten(rest)
  {
    assert ([c] + rest)[1..] == rest;
  }

  lemma {:induction false} ChunksAreWhole(s: Bytes)
    ensures forall k :: 0 <= k < |Chunks(s)| ==> IsChunk(Chunks(s)[k])
    ensures !Complete(Leftover(s))
    decreases |s|
  {
    if Complete(s) {
      ChunksAreWhole(s[ChunkSize(s)..]);
      FirstChunk(s);
    }
  }

  /** Splitting loses nothing. */
  lemma {:induction false} ChunksCover(s: Bytes)
    ensures Flatten(Chunks(s)) + Leftover(s) == s
    decreases |s|
  {
    if Complete(s) {
      var n := ChunkSize(s);
      ChunksCover(s[n..]);
      FirstChunk(s);
      FlattenCons(s[..n], Chunks(s[n..]));
      Associate(s[..n], Flatten(Chunks(s[n..])), Leftover(s[n..]));
    }
  }

  lemma SplitFirst(c: Bytes, rest: Bytes)
    requires IsChunk(c)
    ensures Complete(c + rest) && ChunkSize(c + rest) == |c|
    ensures (c + rest)[..|c|] == c && (c + rest)[|c|..] == rest
  {
    assert Word32(c + rest, 0) == Word32(c, 0);
  }

  lemma ChunksCons(c: Bytes, rest: Bytes)
    requires IsChunk(c)
    ensures Chunks(c + rest) == [c] + Chunks(rest) && Leftover(c + rest) == Leftover(rest)
  {
    SplitFirst(c, rest);
  }

  /** Whole chunks followed by no whole chunk split back into exactly those chunks. */
  lemma {:induction false} ChunksOfFlatten(cs: seq<Bytes>, tail: Bytes)
    requires (forall k :: 0 <= k < |cs| ==> IsChunk(cs[k])) && !Complete(tail)
    ensures Chunks(Flatten(cs) + tail) == cs && Leftover(Flatten(cs) + tail) == tail
  {
    if cs == [] {
      assert Flatten(cs) + tail == tail;
    } else {
      ChunksOfFlatten(cs[1..], tail);
      ChunksCons(cs[0], Flatten(cs[1..]) + tail);
      assert Flatten(cs) + tail == cs[0] + (Flatten(cs[1..]) + tail);
    }
  }

  lemma {:induction false} WithoutMetadataFacts(cs: seq<Bytes>)
    requires forall k :: 0 <= k < |cs| ==> IsChunk(cs[k])
    ensures forall k :: 0 <= k < |WithoutMetadata(cs)| ==>
            IsChunk(WithoutMetadata(cs)[k]) && !MetadataChunk(WithoutMetadata(cs)[k])
    ensures WithoutMetadata(WithoutMetadata(cs)) == WithoutMetadata(cs)
  {
    if cs != [] {
      WithoutMetadataFacts(cs[1..]);
      var kept := WithoutMetadata(cs[1..]);
      if !MetadataChunk(cs[0]) {
        assert ([cs[0]] + kept)[1..] == kept;
      } else {
        assert WithoutMetadata(cs) == kept;
      }
    }
  }

  /** A stripped PNG splits into exactly the chunks that were not metadata, and keeps a tail of eight bytes or more. */
  lemma StrippedChunks(b: Bytes)
    requires HasSignature(b)
    ensures var r := Stripped(b);
            && HasSignature(r)
            && Chunks(r[8..]) == WithoutMetadata(Chunks(b[8..]))
            && Leftover(r[8..]) == KeptTail(b[8..])
            && (forall k :: 0 <= k < |Chunks(r[8..])| ==> !MetadataChunk(Chunks(r[8..])[k]))
  {
    var s := b[8..];
    ChunksAreWhole(s);
    WithoutMetadataFacts(Chunks(s));
    ChunksOfFlatten(WithoutMetadata(Chunks(s)), KeptTail(s));
    assert Stripped(b)[..8] == SIGNATURE;
    StripIsBody(s);
    assert Stripped(b)[8..] == StrippedBody(s);
  }

  /** Stripping twice is stripping once. */
  lemma StrippingTwice(b: Bytes)
    ensures Stripped(Stripped(b)) == Stripped(b)
  {
    if HasSignature(b) {
      var r := Stripped(b);
      StrippedChunks(b);
      ChunksAreWhole(b[8..]);
      WithoutMetadataFacts(Chunks(b[8..]));
      StripIsBody(b[8..]);
      StripIsBody(r[8..]);
      assert KeptTail(r[8..]) == KeptTail(b[8..]);
      assert r[8..] == Strip(b[8..]);
      assert r == r[..8] + r[8..];
    }
  }

  // ------------------------------------------------------------ dimensions --

  datatype Dimensions = Dimensions(width: nat, height: nat)

  function ReadDimensions(b: Bytes): Option<Dimensions> {
    if |b| < 24 || b[..8] != SIGNATURE then None
    else if !IsHeader(TypeAt(b, 12)) then None
    else Some(Dimensions(Word32(b, 16), Word32(b, 20)))
  }

  /** `toString('ascii')`. */
  function Ascii(b: Bytes): string {
    seq(|b|, i requires 0 <= i < |b| => Low7(b[i]) as char)
  }

  lemma NameIs(b: Bytes, at: nat, text: string)
    requires at + 4 <= |b| && |text| == 4
    ensures Ascii(b[at..at + 4]) == text
            <==> TypeAt(b, at) == Name(text[0] as int, text[1] as int, text[2] as int, text[3] as int)
  {
    var a := Ascii(b[at..at + 4]);
    assert |a| == 4 && forall k :: 0 <= k < 4 ==> a[k] == Low7(b[at + k]) as char;
  }

  /** There is an answer exactly if the first chunk is named IHDR: its first two big-endian numbers, byte by byte. */
  lemma DimensionsAre(b: Bytes)
    ensures ReadDimensions(b).Some?
            <==> |b| >= 24 && b[..8] == [137, 80, 78, 71, 13, 10, 26, 10] && Ascii(b[12..16]) == "IHDR"
    ensures ReadDimensions(b).Some? ==>
              var d := ReadDimensions(b).value;
              && d.width == ((b[16] as int * 256 + b[17]) * 256 + b[18]) * 256 + b[19]
              && d.height == ((b[20] as int * 256 + b[21]) * 256 + b[22]) * 256 + b[23]
  {
    if |b| >= 24 {
      NameIs(b, 12, "IHDR");
    }
  }

  /** One whole chunk in front of the rest: cut out exactly if it has one of five names, else copied byte by byte. */
  lemma ChunkIsCutIffNamed(c: Bytes, x: Bytes)
    requires |c| >= 12 && |c| == 12 + ((c[0] as int * 256 + c[1]) * 256 + c[2]) * 256 + c[3]
    ensures Strip(c + x)
         == if Ascii(c[4..8]) in ["eXIf", "tEXt", "zTXt", "iTXt", "tIME"] then Strip(x) else c + Strip(x)
  {
    var b := c + x;
    assert b[..|c|] == c && b[|c|..] == x;
    assert Word32(b, 0) == ((c[0] as int * 256 + c[1]) * 256 + c[2]) * 256 + c[3];
    assert TypeAt(b, 4) == TypeAt(c, 4);
    NameIs(c, 4, "eXIf");
    NameIs(c, 4, "tEXt");
    NameIs(c, 4, "zTXt");
    NameIs(c, 4, "iTXt");
    NameIs(c, 4, "tIME");
    assert [] + Strip(x) == Strip(x);
  }

  /** A chunk that is cut off is copied as it is; fewer than eight bytes are dropped. */
  lemma CutOffIsCopied(t: Bytes)
    ensures |t| >= 8 && 12 + ((t[0] as int * 256 + t[1]) * 256 + t[2]) * 256 + t[3] > |t| ==> Strip(t) == t
    ensures |t| < 8 ==> Strip(t) == []
  {
  }

  /** Stripping does not change what the reader returns. */
  ghost predicate KeepsDimensions(b: Bytes) {
    ReadDimensions(Stripped(b)) == ReadDimensions(b)
  }

  /** The first chunk header, eight bytes, lets the reader see only bytes of the first chunk, and that chunk stays. */
  predicate SafeFirst(h: Bytes)
    requires |h| == 8
  {
    !IsMetadata(TypeAt(h, 4)) && (IsHeader(TypeAt(h, 4)) ==> Word32(h, 0) >= 4)
  }

  lemma FirstKept(h: Bytes, rest: Bytes)
    requires |h| == 8 && !IsMetadata(TypeAt(h, 4))
    ensures var s := h + rest;
            if Complete(s) then Strip(s) == s[..ChunkSize(s)] + Strip(s[ChunkSize(s)..]) else Strip(s) == s
  {
    assert TypeAt(h + rest, 4) == TypeAt(h, 4);
  }

  lemma SameStart(b: Bytes, r: Bytes, n: nat)
    requires 16 <= n <= |b| && n <= |r| && b[..n] == r[..n]
    requires IsHeader(TypeAt(b, 12)) ==> n >= 24
    ensures ReadDimensions(b) == ReadDimensions(r)
  {
    assert TypeAt(b, 12) == TypeAt(b[..n], 12) == TypeAt(r[..n], 12) == TypeAt(r, 12);
    assert b[..8] == b[..n][..8] && r[..8] == r[..n][..8];
    if n >= 24 {
      assert Word32(b, 16) == Word32(b[..n], 16) == Word32(r, 16);
      assert Word32(b, 20) == Word32(b[..n], 20) == Word32(r, 20);
    }
  }

  lemma SafeKeeps(h: Bytes, rest: Bytes)
    requires |h| == 8 && SafeFirst(h)
    ensures KeepsDimensions(SIGNATURE + (h + rest))
  {
    var s := h + rest;
    var b := SIGNATURE + s;
    assert b[..8] == SIGNATURE && b[8..] == s;
    FirstKept(h, rest);
    assert Word32(s, 0) == Word32(h, 0);
    if Complete(s) {
      var n := 8 + ChunkSize(s);
      var r := Stripped(b);
      assert b[..n] == SIGNATURE + s[..ChunkSize(s)];
      assert r[..n] == SIGNATURE + s[..ChunkSize(s)];
      assert TypeAt(b, 12) == TypeAt(h, 4);
      SameStart(b, r, n);
    }
  }

  /** A chunk that reads as `h` first and is stripped or kept as its type says. */
  function Padded(h: Bytes): (c: Bytes)
    requires |h| == 8
    ensures IsChunk(c) && TypeAt(c, 4) == TypeAt(h, 4) && c[..8] == h
  {
    var c := h + Zeros(Word32(h, 0) + 4);
    assert Word32(c, 0) == Word32(h, 0);
    c
  }

  lemma DropFirst(c: Bytes, rest: Bytes)
    requires IsChunk(c) && MetadataChunk(c)
    ensures Strip(c + rest) == Strip(rest)
  {
    SplitFirst(c, rest);
    assert TypeAt(c + rest, 4) == TypeAt(c, 4);
    assert [] + Strip(rest) == Strip(rest);
  }

  lemma KeepFirst(c: Bytes, rest: Bytes)
    requires IsChunk(c) && !MetadataChunk(c)
    ensures Strip(c + rest) == c + Strip(rest)
  {
    SplitFirst(c, rest);
    assert TypeAt(c + rest, 4) == TypeAt(c, 4);
  }

  lemma StrippedOf(s: Bytes)
    ensures HasSignature(SIGNATURE + s) && Stripped(SIGNATURE + s) == SIGNATURE + Strip(s)
  {
    var b := SIGNATURE + s;
    assert b[..8] == SIGNATURE && b[8..] == s;
  }

  lemma ReadOf(s: Bytes)
    requires |s| >= 8
    ensures ReadDimensions(SIGNATURE + s).Some? <==> |s| >= 16 && IsHeader(TypeAt(s, 4))
    ensures ReadDimensions(SIGNATURE + s).Some? ==> ReadDimensions(SIGNATURE + s).value.height == Word32(s, 12)
  {
    var b := SIGNATURE + s;
    assert b[..8] == SIGNATURE;
    assert TypeAt(b, 12) == TypeAt(s, 4);
    if |s| >= 16 {
      assert Word32(b, 20) == Word32(s, 12);
    }
  }

  /** A metadata chunk `c` in front of an IHDR `u` hides the dimensions until it is cut out. */
  lemma MetadataFirstFails(c: Bytes, u: Bytes)
    requires IsChunk(c) && MetadataChunk(c)
    requires |u| >= 16 && !Complete(u) && IsHeader(TypeAt(u, 4))
    ensures !KeepsDimensions(SIGNATURE + (c + u))
  {
    DropFirst(c, u);
    StrippedOf(c + u);
    ReadOf(u);
    ReadOf(c + u);
    assert TypeAt(c + u, 4) == TypeAt(c, 4);
  }

  /**
   * An IHDR `c` of fewer than four bytes makes the reader look into what follows, here a metadata chunk `t` and `u`.
   */
  lemma ShortHeaderFails(c: Bytes, t: Bytes, u: Bytes)
    requires IsChunk(c) && |c| < 16 && IsHeader(TypeAt(c, 4))
    requires IsChunk(t) && MetadataChunk(t) && forall k :: 0 <= k < 4 ==> t[k] == 0
    requires |u| >= 8 && !Complete(u) && forall k :: 0 <= k < 4 ==> u[k] == 255
    ensures !KeepsDimensions(SIGNATURE + (c + (t + u)))
  {
    KeepFirst(c, t + u);
    DropFirst(t, u);
    StrippedOf(c + (t + u));
    ReadOf(c + (t + u));
    ReadOf(c + u);
    assert TypeAt(c + u, 4) == TypeAt(c, 4) == TypeAt(c + (t + u), 4);
    ByteBehind(c, u, 255);
    ByteBehind(c, t + u, 0);
  }

  lemma LastByte(b: Bytes, at: nat)
    requires at + 4 <= |b|
    ensures Word32(b, at) % 256 == b[at + 3]
  {
  }

  lemma ByteBehind(c: Bytes, u: Bytes, value: Byte)
    requires 12 <= |c| < 16 && |u| >= 4 && forall k :: 0 <= k < 4 ==> u[k] == value
    ensures Word32(c + u, 12) % 256 == value
  {
    LastByte(c + u, 12);
    assert (c + u)[15] == u[15 - |c|];
  }

  function HiddenHeader(): (u: Bytes)
    ensures |u| >= 16 && !Complete(u) && IsHeader(TypeAt(u, 4))
  {
    var u := [255, 255, 255, 255, 73, 72, 68, 82] + Zeros(8);
    assert Word32(u, 0) > 100;
    u
  }

  function EmptyText(): (t: Bytes)
    ensures IsChunk(t) && MetadataChunk(t) && forall k :: 0 <= k < 4 ==> t[k] == 0
  {
    var t := [0, 0, 0, 0, 116, 69, 88, 116] + Zeros(4);
    assert TypeAt(t, 4) == Name(116, 69, 88, 116);
    t
  }

  function TruncatedChunk(): (u: Bytes)
    ensures |u| >= 8 && !Complete(u) && forall k :: 0 <= k < 4 ==> u[k] == 255
  {
    var u := [255, 255, 255, 255, 0, 0, 0, 0];
    assert Word32(u, 0) > 100;
    u
  }

  lemma Regrouped(c: Bytes, h: Bytes, rest: Bytes)
    requires |c| >= |h| && c[..|h|] == h
    ensures h + (c[|h|..] + rest) == c + rest
  {
  }

  lemma UnsafeFails(h: Bytes) returns (rest: Bytes)
    requires |h| == 8 && !SafeFirst(h)
    ensures !KeepsDimensions(SIGNATURE + (h + rest))
  {
    var c := Padded(h);
    if IsMetadata(TypeAt(h, 4)) {
      MetadataFirstFails(c, HiddenHeader());
      rest := c[8..] + HiddenHeader();
      Regrouped(c, h, HiddenHeader());
    } else {
      var more := EmptyText() + TruncatedChunk();
      PaddedSize(h);
      ShortHeaderFails(c, EmptyText(), TruncatedChunk());
      rest := c[8..] + more;
      Regrouped(c, h, more);
    }
  }

  lemma PaddedSize(h: Bytes)
    requires |h| == 8
    ensures |Padded(h)| == 12 + Word32(h, 0)
  {
  }

  /**
   * Exactly when stripping is sure to keep the dimensions: whatever follows the first chunk header, the reader's
   * answer is the same before and after, if and only if that chunk is not metadata and, being IHDR, has four data
   * bytes.
   */
  lemma DimensionsKeptIffSafe(h: Bytes)
    requires |h| == 8
    ensures (forall rest: Bytes :: KeepsDimensions(SIGNATURE + (h + rest))) <==> SafeFirst(h)
  {
    if SafeFirst(h) {
      forall rest: Bytes ensures KeepsDimensions(SIGNATURE + (h + rest)) {
        SafeKeeps(h, rest);
      }
    } else {
      var rest := UnsafeFails(h);
    }
  }

  /** Every other buffer, with no signature or no room for a chunk header, keeps its answer. */
  lemma ShortOrUnsignedKeeps(b: Bytes)
    requires !HasSignature(b) || |b| < 16
    ensures KeepsDimensions(b)
  {
    if HasSignature(b) {
      assert Chunks(b[8..]) == [];
      assert Stripped(b) == SIGNATURE + ([] + []);
    }
  }
}
