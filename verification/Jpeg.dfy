/** Cutting APP1 segments out of a JPEG, and reading its dimensions before and after. */
module Jpeg {
  import opened Base
  import opened Buffers

  predicate HasStart(b: Bytes) {
    |b| >= 4 && b[0] == 0xff && b[1] == 0xd8
  }

  /** Markers without a length field that both walkers step over: SOI and RST0 to RST7. */
  predicate Standalone(m: Byte) {
    m == 0xd8 || 0xd0 <= m <= 0xd7
  }

  predicate IsFrame(m: Byte) {
    0xc0 <= m <= 0xcf && m != 0xc4 && m != 0xc8 && m != 0xcc
  }

  /** Where the segment at the front of `s` ends, cut at the end of the buffer. */
  function SegmentEnd(s: Bytes): (n: nat)
    requires |s| >= 4
    ensures 2 <= n <= |s|
  {
    var n := 2 + Word16(s, 2);
    if n <= |s| then n else |s|
  }

  // ------------------------------------------------------------- stripping --

  /** What `stripJpegExif` copies out of the bytes from some offset on. */
  function Strip(s: Bytes): (r: Bytes)
    ensures |r| <= |s|
    decreases |s|
  {
    if |s| < 4 then []
    else if s[0] != 0xff || s[1] == 0xd9 then s
    else if Standalone(s[1]) then s[..2] + Strip(s[2..])
    else if s[1] == 0xda then s
    else (if s[1] == 0xe1 then [] else s[..SegmentEnd(s)]) + Strip(s[SegmentEnd(s)..])
  }

  function Stripped(b: Bytes): Bytes {
    if HasStart(b) then b[..2] + Strip(b[2..]) else b
  }

  /** What the loop does at an offset: hand the rest over, step over a marker, or copy or drop a segment. */
  datatype Move = CopyRest | CopyPart(n: nat) | DropPart(n: nat)

  function MoveAt(b: Bytes, offset: nat): (m: Move)
    requires offset + 4 <= |b|
    ensures !m.CopyRest? ==> 2 <= m.n <= |b| - offset
  {
    var marker := b[offset + 1];
    if b[offset] != 0xff || marker == 0xd9 then CopyRest
    else if Standalone(marker) then CopyPart(2)
    else
      // subarray() stops at the end of the buffer, and so does the loop
      var segmentEnd := offset + 2 + Word16(b, offset + 2);
      var size := (if segmentEnd <= |b| then segmentEnd else |b|) - offset;
      if marker == 0xda then CopyRest
      else if marker == 0xe1 then DropPart(size)
      else CopyPart(size)
  }

  lemma RestStrips(b: Bytes, offset: nat)
    requires offset + 4 <= |b| && MoveAt(b, offset).CopyRest?
    ensures Strip(b[offset..]) == b[offset..]
  {
  }

  lemma EndAt(b: Bytes, offset: nat)
    requires offset + 4 <= |b|
    ensures SegmentEnd(b[offset..])
         == (if offset + 2 + Word16(b, offset + 2) <= |b| then 2 + Word16(b, offset + 2) else |b| - offset)
  {
    assert Word16(b, offset + 2) == Word16(b[offset..], 2);
  }

  lemma PartStrips(b: Bytes, offset: nat, n: nat)
    requires offset + 4 <= |b| && MoveAt(b, offset) == CopyPart(n)
    ensures Strip(b[offset..]) == b[offset..offset + n] + Strip(b[offset + n..])
  {
    var s := b[offset..];
    EndAt(b, offset);
    assert s[0] == b[offset] && s[1] == b[offset + 1];
    assert s[..n] == b[offset..offset + n] && s[n..] == b[offset + n..];
  }

  lemma DropStrips(b: Bytes, offset: nat, n: nat)
    requires offset + 4 <= |b| && MoveAt(b, offset) == DropPart(n)
    ensures Strip(b[offset..]) == Strip(b[offset + n..])
  {
    var s := b[offset..];
    EndAt(b, offset);
    assert s[0] == b[offset] && s[1] == b[offset + 1];
    assert s[n..] == b[offset + n..];
    assert [] + Strip(s[n..]) == Strip(s[n..]);
  }

  /** The parts handed over so far and what is still to come make up the result. */
  ghost predicate Underway(out: seq<Bytes>, b: Bytes, offset: nat, all: Bytes) {
    offset <= |b| && Flatten(out) + Strip(b[offset..]) == all
  }

  lemma RestKeeps(out: seq<Bytes>, b: Bytes, offset: nat, all: Bytes)
    requires Underway(out, b, offset, all) && offset + 4 <= |b| && MoveAt(b, offset).CopyRest?
    ensures Flatten(out + [b[offset..]]) == all
  {
    RestStrips(b, offset);
    FlattenAppend(out, b[offset..]);
  }

  lemma PartKeeps(out: seq<Bytes>, b: Bytes, offset: nat, n: nat, all: Bytes)
    requires Underway(out, b, offset, all) && offset + 4 <= |b| && MoveAt(b, offset) == CopyPart(n)
    ensures Underway(out + [b[offset..offset + n]], b, offset + n, all)
  {
    PartStrips(b, offset, n);
    FlattenAppend(out, b[offset..offset + n]);
    Associate(Flatten(out), b[offset..offset + n], Strip(b[offset + n..]));
  }

  lemma DropKeeps(out: seq<Bytes>, b: Bytes, offset: nat, n: nat, all: Bytes)
    requires Underway(out, b, offset, all) && offset + 4 <= |b| && MoveAt(b, offset) == DropPart(n)
    ensures Underway(out, b, offset + n, all)
  {
    DropStrips(b, offset, n);
  }

  lemma StartOf(b: Bytes)
    requires |b| >= 2
    ensures Flatten([b[..2]]) == b[..2]
  {
    assert Flatten([b[..2]]) == b[..2] + Flatten([]);
  }

  lemma SegmentAt(b: Bytes, offset: nat)
    requires offset + 4 <= |b|
    ensures b[offset] == b[offset..][0] && b[offset + 1] == b[offset..][1]
    ensures Word16(b, offset + 2) == Word16(b[offset..], 2)
  {
  }

  lemma StartOfImage(b: Bytes)
    requires |b| >= 4
    ensures HasStart(b) <==> Word16(b, 0) == 0xffd8
    ensures HasStart(b) ==> Stripped(b) == Flatten([b[..2]]) + Strip(b[2..])
  {
    StartOf(b);
  }

  lemma EndKeeps(out: seq<Bytes>, b: Bytes, offset: nat, all: Bytes)
    requires Underway(out, b, offset, all) && offset + 4 > |b|
    ensures Flatten(out) == all
  {
    assert Strip(b[offset..]) == [];
  }

  method StripJpegExif(buffer: Bytes) returns (r: Bytes)
    ensures r == Stripped(buffer)
  {
    if |buffer| < 4 {
      return buffer;
    }
    StartOfImage(buffer);
    if Word16(buffer, 0) != 0xffd8 {
      return buffer;
    }
    var out: seq<Bytes> := [buffer[..2]];
    var offset := 2;
    ghost var all := Stripped(buffer);
    while offset + 4 <= |buffer|
      invariant Underway(out, buffer, offset, all)
    {
      match MoveAt(buffer, offset)
      case CopyRest =>
        RestKeeps(out, buffer, offset, all);
        out := out + [buffer[offset..]];
        return Flatten(out);
      case CopyPart(n) =>
        PartKeeps(out, buffer, offset, n, all);
        out := out + [buffer[offset..offset + n]];
        offset := offset + n;
      case DropPart(n) =>
        DropKeeps(out, buffer, offset, n, all);
        offset := offset + n;
    }
    EndKeeps(out, buffer, offset, all);
    r := Flatten(out);
  }

  /** One whole segment in front of the rest: cut out exactly if it is an APP1, and otherwise copied byte by byte. */
  lemma SegmentIsCutIffApp1(s: Bytes, x: Bytes)
    requires |s| >= 4 && s[0] == 0xff && s[1] !in {0xd8, 0xd9, 0xda} && !(0xd0 <= s[1] <= 0xd7)
    requires |s| == 2 + s[2] as int * 256 + s[3]
    ensures Strip(s + x) == if s[1] == 0xe1 then Strip(x) else s + Strip(x)
  {
    var b := s + x;
    assert Word16(b, 2) == s[2] as int * 256 + s[3];
    assert b[..|s|] == s && b[|s|..] == x;
  }

  /** From the scan, the end marker or a byte that is no marker on, everything is copied; other markers alone are. */
  lemma RestIsCopied(t: Bytes)
    requires |t| >= 4
    ensures t[0] != 0xff || t[1] in {0xd9, 0xda} ==> Strip(t) == t
    ensures t[0] == 0xff && (t[1] == 0xd8 || 0xd0 <= t[1] <= 0xd7) ==> Strip(t) == t[..2] + Strip(t[2..])
  {
  }

  // ------------------------------------------------ exactly what is removed --

  /** A run of whole segments before the scan, with or without a start of frame among them. */
  predicate Walks(p: Bytes, frames: bool)
    decreases |p|
  {
    p == [] || (FirstWhole(p) && (frames || !IsFrame(p[1])) && Walks(p[FirstSize(p)..], frames))
  }

  predicate FirstWhole(p: Bytes) {
    |p| >= 2 && p[0] == 0xff &&
    (Standalone(p[1]) || (|p| >= 4 && p[1] != 0xd9 && p[1] != 0xda && 2 <= Word16(p, 2) <= |p| - 2))
  }

  function FirstSize(p: Bytes): (n: nat)
    requires FirstWhole(p)
    ensures 2 <= n <= |p|
  {
    if Standalone(p[1]) then 2 else 2 + Word16(p, 2)
  }

  /** The front of `p + t` when `p` starts with a whole segment of `n` bytes. */
  lemma FrontOf(p: Bytes, t: Bytes, n: nat)
    requires n <= |p|
    ensures (p + t)[..n] == p[..n] && (p + t)[n..] == p[n..] + t
  {
  }

  lemma FirstOf(p: Bytes, t: Bytes)
    requires FirstWhole(p) && |p + t| >= 4
    ensures FirstWhole(p + t) && FirstSize(p + t) == FirstSize(p) && (p + t)[1] == p[1]
    ensures !Standalone(p[1]) ==> SegmentEnd(p + t) == FirstSize(p) && Word16(p + t, 2) == Word16(p, 2) >= 2
    ensures var n := FirstSize(p); (p + t)[..n] == p[..n] && (p + t)[n..] == p[n..] + t
  {
    FrontOf(p, t, FirstSize(p));
    if !Standalone(p[1]) {
      assert Word16(p + t, 2) == Word16(p, 2);
    }
  }

  function WithoutApp1(p: Bytes): Bytes
    requires Walks(p, true)
    decreases |p|
  {
    if p == [] then []
    else (if p[1] == 0xe1 then [] else p[..FirstSize(p)]) + WithoutApp1(p[FirstSize(p)..])
  }

  ghost predicate NoApp1(p: Bytes)
    requires Walks(p, true)
    decreases |p|
  {
    p == [] || (p[1] != 0xe1 && NoApp1(p[FirstSize(p)..]))
  }

  lemma StripFirst(p: Bytes, t: Bytes)
    requires FirstWhole(p) && |p + t| >= 4
    ensures Strip(p + t) == (if p[1] == 0xe1 then [] else p[..FirstSize(p)]) + Strip(p[FirstSize(p)..] + t)
  {
    FirstOf(p, t);
  }

  lemma ConsWalks(c: Bytes, q: Bytes)
    requires FirstWhole(c) && FirstSize(c) == |c| && c[1] != 0xe1 && Walks(q, true)
    ensures Walks(c + q, true) && WithoutApp1(c + q) == c + WithoutApp1(q)
    ensures NoApp1(c + q) <==> NoApp1(q)
  {
    var p := c + q;
    assert FirstWhole(p) && FirstSize(p) == |c|;
    assert p[|c|..] == q && p[..|c|] == c && p[1] == c[1];
  }

  /** Whole segments and then a scan, an end of image or bytes that are no marker: exactly the APP1 segments go. */
  lemma {:induction false} HeaderStripped(p: Bytes, t: Bytes)
    requires Walks(p, true) && |t| >= 4 && (t[0] != 0xff || t[1] == 0xd9 || t[1] == 0xda)
    ensures Strip(p + t) == WithoutApp1(p) + t
    decreases |p|
  {
    if p == [] {
      assert p + t == t && [] + t == t;
    } else {
      var n := FirstSize(p);
      HeaderStripped(p[n..], t);
      StripFirst(p, t);
      Associate(if p[1] == 0xe1 then [] else p[..n], WithoutApp1(p[n..]), t);
    }
  }

  lemma {:induction false} CleanHeader(p: Bytes)
    requires Walks(p, true)
    ensures var q := WithoutApp1(p); Walks(q, true) && NoApp1(q) && WithoutApp1(q) == q
    decreases |p|
  {
    if p != [] {
      var n := FirstSize(p);
      CleanHeader(p[n..]);
      var q := WithoutApp1(p[n..]);
      if p[1] == 0xe1 {
        assert WithoutApp1(p) == [] + q == q;
      } else {
        assert FirstWhole(p[..n]) && FirstSize(p[..n]) == n;
        ConsWalks(p[..n], q);
      }
    }
  }

  /** On such a JPEG no APP1 segment is left before the scan, and stripping again changes nothing. */
  lemma WellFormedClean(p: Bytes, t: Bytes)
    requires Walks(p, true) && |t| >= 4 && (t[0] != 0xff || t[1] == 0xd9 || t[1] == 0xda)
    ensures var b := [0xff, 0xd8] + (p + t);
            var q := WithoutApp1(p);
            && Walks(q, true) && NoApp1(q)
            && Stripped(b) == [0xff, 0xd8] + (q + t)
            && Stripped(Stripped(b)) == Stripped(b)
  {
    CleanHeader(p);
    HeaderStripped(p, t);
    HeaderStripped(WithoutApp1(p), t);
    StrippedOf(p + t);
    StrippedOf(WithoutApp1(p) + t);
  }

  lemma StrippedOf(s: Bytes)
    requires |s| >= 2
    ensures HasStart([0xff, 0xd8] + s) && Stripped([0xff, 0xd8] + s) == [0xff, 0xd8] + Strip(s)
  {
    var b := [0xff, 0xd8] + s;
    assert b[..2] == [0xff, 0xd8] && b[2..] == s;
  }

  // --------------------------------------------------------------- reading --

  datatype Dimensions = Dimensions(width: nat, height: nat)

  /** What `readJpegDimensions` finds in the bytes from some offset on. */
  function Read(s: Bytes): Option<Dimensions>
    decreases |s|
  {
    if |s| < 4 then None
    else if s[0] != 0xff then Read(s[1..])
    else if Standalone(s[1]) || s[1] == 0xd9 then Read(s[2..])
    else if IsFrame(s[1]) then (if |s| < 9 then None else Some(Dimensions(Word16(s, 7), Word16(s, 5))))
    else if s[1] == 0xda then None
    else Read(s[SegmentEnd(s)..])
  }

  function ReadDimensions(b: Bytes): Option<Dimensions> {
    if HasStart(b) then Read(b[2..]) else None
  }

  /** What the reader's loop does at an offset: go on some bytes later, or answer. */
  datatype Look = Skip(n: nat) | Answer(r: Option<Dimensions>)

  function LookAt(b: Bytes, offset: nat): (l: Look)
    requires offset + 4 <= |b|
    ensures l.Skip? ==> 1 <= l.n <= |b| - offset
  {
    var marker := b[offset + 1];
    if b[offset] != 0xff then Skip(1)
    else if Standalone(marker) || marker == 0xd9 then Skip(2)
    else if IsFrame(marker) then
      Answer(if offset + 9 > |b| then None else Some(Dimensions(Word16(b, offset + 7), Word16(b, offset + 5))))
    else if marker == 0xda then Answer(None)
    else
      var end := offset + 2 + Word16(b, offset + 2);
      Skip((if end <= |b| then end else |b|) - offset)
  }

  lemma SkipReads(b: Bytes, offset: nat, n: nat)
    requires offset + 4 <= |b| && LookAt(b, offset) == Skip(n)
    ensures Read(b[offset..]) == Read(b[offset + n..])
  {
    SegmentAt(b, offset);
    EndAt(b, offset);
    assert b[offset..][n..] == b[offset + n..];
  }

  lemma AnswerReads(b: Bytes, offset: nat)
    requires offset + 4 <= |b| && LookAt(b, offset).Answer?
    ensures Read(b[offset..]) == LookAt(b, offset).r
  {
    SegmentAt(b, offset);
    if offset + 9 <= |b| {
      assert Word16(b, offset + 7) == Word16(b[offset..], 7);
      assert Word16(b, offset + 5) == Word16(b[offset..], 5);
    }
  }

  method ReadJpegDimensions(buffer: Bytes) returns (r: Option<Dimensions>)
    ensures r == ReadDimensions(buffer)
  {
    if |buffer| < 4 || Word16(buffer, 0) != 0xffd8 {
      return None;
    }
    var offset := 2;
    while offset + 4 <= |buffer|
      invariant 2 <= offset <= |buffer|
      invariant Read(buffer[offset..]) == ReadDimensions(buffer)
    {
      match LookAt(buffer, offset)
      case Skip(n) =>
        SkipReads(buffer, offset, n);
        offset := offset + n;
      case Answer(found) =>
        AnswerReads(buffer, offset);
        return found;
    }
    r := None;
  }

  /** Bytes the reader passes over: fill bytes, markers without a length, whole segments that are no frame or scan. */
  predicate Passes(p: Bytes)
    decreases |p|
  {
    p == []
    || (p[0] != 0xff && Passes(p[1..]))
    || (|p| >= 2 && p[0] == 0xff && (Standalone(p[1]) || p[1] == 0xd9) && Passes(p[2..]))
    || (PassedSegment(p) && Passes(p[2 + p[2] as int * 256 + p[3]..]))
  }

  predicate PassedSegment(p: Bytes) {
    && |p| >= 4 && p[0] == 0xff && !Standalone(p[1]) && p[1] != 0xd9 && p[1] != 0xda && !IsFrame(p[1])
    && 2 <= p[2] as int * 256 + p[3] <= |p| - 2
  }

  /** How many bytes the reader passes over first. */
  function PassedSize(p: Bytes): (n: nat)
    requires Passes(p) && p != []
    ensures 0 < n <= |p| && Passes(p[n..])
  {
    if p[0] != 0xff then 1
    else if Standalone(p[1]) || p[1] == 0xd9 then 2
    else 2 + p[2] as int * 256 + p[3]
  }

  lemma PassedUnit(p: Bytes, t: Bytes)
    requires Passes(p) && p != [] && |t| >= 4
    ensures Read(p + t) == Read(p[PassedSize(p)..] + t)
  {
    var n := PassedSize(p);
    FrontOf(p, t, n);
    var s := p + t;
    assert s[0] == p[0] && (n >= 2 ==> s[1] == p[1]);
    if p[0] == 0xff && !Standalone(p[1]) && p[1] != 0xd9 {
      assert Word16(s, 2) == p[2] as int * 256 + p[3];
      assert SegmentEnd(s) == n;
    }
  }

  lemma {:induction false} ReadPasses(p: Bytes, t: Bytes)
    requires Passes(p) && |t| >= 4
    ensures Read(p + t) == Read(t)
    decreases |p|
  {
    if p == [] {
      assert p + t == t;
    } else {
      PassedUnit(p, t);
      ReadPasses(p[PassedSize(p)..], t);
    }
  }

  /**
   * The answer, byte by byte: behind anything the reader passes over, the first start of frame (SOF0 to SOF15, without
   * DHT, JPG and DAC) gives height and width as the two big-endian numbers after its precision; a scan that comes
   * first, or a frame cut off before them, gives none.
   */
  lemma ReadsTheFirstFrame(p: Bytes, t: Bytes)
    requires Passes(p) && |t| >= 4 && t[0] == 0xff
    ensures var r := ReadDimensions([0xff, 0xd8] + (p + t));
            && (0xc0 <= t[1] <= 0xcf && t[1] !in {0xc4, 0xc8, 0xcc} && |t| >= 9 ==>
                  && r.Some?
                  && r.value.height == t[5] as int * 256 + t[6]
                  && r.value.width == t[7] as int * 256 + t[8])
            && (0xc0 <= t[1] <= 0xcf && t[1] !in {0xc4, 0xc8, 0xcc} && |t| < 9 ==> r == None)
            && (t[1] == 0xda ==> r == None)
  {
    ReadPasses(p, t);
    assert ([0xff, 0xd8] + (p + t))[2..] == p + t;
  }

  lemma {:induction false} ReadsNothing(p: Bytes)
    requires Passes(p)
    ensures Read(p) == None
    decreases |p|
  {
    if |p| >= 4 {
      ReadsNothing(p[PassedSize(p)..]);
      assert p[0] == 0xff && !Standalone(p[1]) && p[1] != 0xd9 ==> Word16(p, 2) == p[2] as int * 256 + p[3];
    }
  }

  /** Without a start of frame, or without the start marker FF D8, there is no answer. */
  lemma NoFrameNoAnswer(b: Bytes)
    requires |b| < 4 || b[0] != 0xff || b[1] != 0xd8 || Passes(b[2..])
    ensures ReadDimensions(b) == None
  {
    if |b| >= 2 && Passes(b[2..]) {
      ReadsNothing(b[2..]);
    }
  }

  // ------------------------------------------------------- one against the other --

  /** The length that the first start of frame the reader meets declares. */
  function FrameLength(s: Bytes): Option<nat>
    decreases |s|
  {
    if |s| < 4 then None
    else if s[0] != 0xff then FrameLength(s[1..])
    else if Standalone(s[1]) || s[1] == 0xd9 then FrameLength(s[2..])
    else if IsFrame(s[1]) then Some(Word16(s, 2))
    else if s[1] == 0xda then None
    else FrameLength(s[SegmentEnd(s)..])
  }

  /** Lengths 2 to 6 end inside the four bytes the reader takes: what stands there may be cut away. */
  predicate SafeLength(n: nat) {
    n < 2 || n >= 7
  }

  ghost predicate KeepsDimensions(b: Bytes) {
    ReadDimensions(Stripped(b)) == ReadDimensions(b)
  }

  lemma ReadShort(s: Bytes)
    requires |s| < 4
    ensures Read(s) == None
  {
  }

  /** A segment of two length bytes or more, copied in front of whatever comes after it. */
  lemma CopiedSegment(s: Bytes, x: Bytes)
    requires |s| >= 4 && s[0] == 0xff && !Standalone(s[1]) && s[1] != 0xd9 && s[1] != 0xda && !IsFrame(s[1])
    requires Word16(s, 2) >= 2 && (2 + Word16(s, 2) > |s| ==> x == [])
    ensures Read(s[..SegmentEnd(s)] + x) == Read(x)
  {
    var n := SegmentEnd(s);
    var r := s[..n] + x;
    assert Word16(r, 2) == Word16(s, 2);
    if 2 + Word16(s, 2) > |s| {
      assert r == s;
      assert SegmentEnd(r) == |s|;
      assert r[|s|..] == [];
    } else {
      assert r[n..] == x;
    }
  }

  /** A declared length of 0 or 1: both walkers go on inside the length field, where no marker can start. */
  lemma TinySegment(s: Bytes)
    requires |s| >= 4 && s[0] == 0xff && !Standalone(s[1]) && s[1] != 0xd9 && s[1] != 0xda && s[1] != 0xe1
    requires Word16(s, 2) < 2
    ensures Read(Strip(s)) == Read(s)
  {
    var n := 2 + Word16(s, 2);
    var rest := s[n..];
    assert s[2] == 0 && s[3] < 2;
    if |rest| >= 4 {
      assert rest[0] == s[n];
      assert Strip(rest) == rest;
      assert Strip(s) == s[..n] + s[n..] == s;
    } else {
      assert Strip(s) == s[..n] + [] == s[..n];
      assert |s| < 8;
      TooShort(s, n);
    }
  }

  lemma TooShort(s: Bytes, n: nat)
    requires |s| >= 4 && s[0] == 0xff && !Standalone(s[1]) && s[1] != 0xd9
    requires n == 2 + Word16(s, 2) <= |s| && |s| - n < 4
    requires |s| < 9
    ensures Read(s) == None
  {
    ReadShort(s[n..]);
  }

  lemma FrameKept(s: Bytes)
    requires |s| >= 4 && s[0] == 0xff && IsFrame(s[1]) && Word16(s, 2) >= 7
    ensures Read(Strip(s)) == Read(s)
  {
    var n := SegmentEnd(s);
    var x := Strip(s[n..]);
    if |s| < 9 {
      assert n == |s|;
      assert s[n..] == [] && s[..n] == s;
      assert Strip(s) == s + [] == s;
    } else {
      var r := s[..n] + x;
      assert n >= 9;
      assert Word16(r, 5) == Word16(s, 5) && Word16(r, 7) == Word16(s, 7);
    }
  }

  lemma StandaloneKept(s: Bytes, x: Bytes)
    requires |s| >= 2 && s[0] == 0xff && Standalone(s[1])
    ensures Read(s[..2] + x) == Read(x)
  {
    var r := s[..2] + x;
    assert r[2..] == x;
  }

  lemma FrameLengthStep(s: Bytes)
    requires |s| >= 4 && s[0] == 0xff
    ensures Standalone(s[1]) ==> FrameLength(s) == FrameLength(s[2..])
    ensures IsFrame(s[1]) ==> FrameLength(s) == Some(Word16(s, 2))
    ensures !Standalone(s[1]) && s[1] != 0xd9 && s[1] != 0xda && !IsFrame(s[1]) ==>
            FrameLength(s) == FrameLength(s[SegmentEnd(s)..])
  {
  }

  lemma {:induction false} SafeKeeps(s: Bytes)
    requires FrameLength(s).Some? ==> SafeLength(FrameLength(s).value)
    ensures Read(Strip(s)) == Read(s)
    decreases |s|
  {
    if |s| >= 4 && s[0] == 0xff && s[1] != 0xd9 && s[1] != 0xda {
      FrameLengthStep(s);
      if Standalone(s[1]) {
        SafeKeeps(s[2..]);
        StandaloneKept(s, Strip(s[2..]));
      } else {
        var n := SegmentEnd(s);
        if s[1] == 0xe1 {
          SafeKeeps(s[n..]);
          assert Strip(s) == [] + Strip(s[n..]) == Strip(s[n..]);
        } else if Word16(s, 2) < 2 {
          TinySegment(s);
        } else if IsFrame(s[1]) {
          FrameKept(s);
        } else {
          SafeKeeps(s[n..]);
          CopiedSegment(s, Strip(s[n..]));
        }
      }
    }
  }

  lemma StartKeeps(b: Bytes)
    requires HasStart(b) && Read(Strip(b[2..])) == Read(b[2..])
    ensures KeepsDimensions(b)
  {
    var r := Stripped(b);
    if |r| >= 4 {
      assert r[2..] == Strip(b[2..]);
    }
  }

  /** Every buffer whose first start of frame declares a safe length reads the same after stripping. */
  lemma SafeBuffersKeep(b: Bytes)
    requires HasStart(b) && FrameLength(b[2..]).Some? ==> SafeLength(FrameLength(b[2..]).value)
    ensures KeepsDimensions(b)
  {
    if HasStart(b) {
      SafeKeeps(b[2..]);
      StartKeeps(b);
    }
  }

  // --------------------------------------------------------- when it can fail --

  lemma {:induction false} WalkThrough(p: Bytes, t: Bytes)
    requires Walks(p, false) && |t| >= 4 && |Strip(t)| >= 4
    ensures Read(p + t) == Read(t)
    ensures Read(Strip(p + t)) == Read(Strip(t))
    ensures |Strip(p + t)| >= 4
    decreases |p|
  {
    var s := p + t;
    if p == [] {
      assert s == t;
    } else {
      WalkThrough(p[FirstSize(p)..], t);
      FirstOf(p, t);
      if Standalone(p[1]) {
        StandaloneKept(s, Strip(s[2..]));
      } else if p[1] == 0xe1 {
        assert Strip(s) == [] + Strip(s[FirstSize(p)..]) == Strip(s[FirstSize(p)..]);
      } else {
        CopiedSegment(s, Strip(s[FirstSize(p)..]));
      }
    }
  }

  /** The header of a start of frame, then its data, an empty APP1 segment and bytes that are no marker. */
  function Cut(h: Bytes, n: nat): Bytes {
    h + Zeros(n) + [0xff, 0xe1, 0, 2] + seq(8, _ => 1)
  }

  lemma CutFails(h: Bytes)
    requires |h| == 4 && h[0] == 0xff && IsFrame(h[1]) && 2 <= Word16(h, 2) <= 6
    ensures var t := Cut(h, Word16(h, 2) - 2);
            |Strip(t)| >= 4 && Read(Strip(t)) != Read(t)
  {
    var n := Word16(h, 2) + 2;
    var c := h + Zeros(n - 4);
    var u: Bytes := [0xff, 0xe1, 0, 2] + seq(8, _ => 1);
    var t := Cut(h, n - 4);
    assert t == c + u;
    assert Word16(t, 2) == Word16(h, 2);
    assert t[..n] == c && t[n..] == u;
    StripOfCut(u);
    assert Strip(t) == c + seq(8, _ => 1);
    var r := c + seq(8, _ => 1);
    assert Word16(r, 2) == Word16(h, 2);
    CutReads(c, u, r);
  }

  lemma StripOfCut(u: Bytes)
    requires u == [0xff, 0xe1, 0, 2] + seq(8, _ => 1)
    ensures Strip(u) == seq(8, _ => 1)
  {
    assert Word16(u, 2) == 2;
    assert u[4..] == seq(8, _ => 1);
    var v: Bytes := seq(8, _ => 1);
    assert v[0] == 1;
    assert Strip(v) == v;
    assert Strip(u) == [] + Strip(u[4..]);
  }

  lemma CutReads(c: Bytes, u: Bytes, r: Bytes)
    requires 4 <= |c| <= 8 && c[0] == 0xff && IsFrame(c[1])
    requires u == [0xff, 0xe1, 0, 2] + seq(8, _ => 1) && r == c + seq(8, _ => 1)
    ensures Read(c + u) != Read(r)
  {
    var t := c + u;
    assert Read(t) == Some(Dimensions(Word16(t, 7), Word16(t, 5)));
    assert Read(r) == Some(Dimensions(Word16(r, 7), Word16(r, 5)));
    var k := if |c| < 5 then 5 else |c|;
    assert 5 <= k <= 8;
    assert t[k] == u[k - |c|] && u[k - |c|] > 1 && r[k] == 1;
  }

  /**
   * Exactly when stripping is sure to keep the dimensions: behind any header the walkers step through, and whatever
   * follows, the answer is the same before and after if and only if the start of frame declares no length from 2 to 6.
   */
  lemma DimensionsKeptIffSafe(p: Bytes, h: Bytes)
    requires Walks(p, false) && |h| == 4 && h[0] == 0xff && IsFrame(h[1])
    ensures (forall rest: Bytes :: KeepsDimensions([0xff, 0xd8] + (p + (h + rest)))) <==> SafeLength(Word16(h, 2))
  {
    if SafeLength(Word16(h, 2)) {
      forall rest: Bytes ensures KeepsDimensions([0xff, 0xd8] + (p + (h + rest))) {
        FrameAfter(p, h + rest);
        assert Word16(h + rest, 2) == Word16(h, 2);
        var b := [0xff, 0xd8] + (p + (h + rest));
        assert b[2..] == p + (h + rest);
        SafeBuffersKeep(b);
      }
    } else {
      var rest := Unsafe(p, h);
    }
  }

  lemma {:induction false} FrameAfter(p: Bytes, t: Bytes)
    requires Walks(p, false) && |t| >= 4 && t[0] == 0xff && IsFrame(t[1])
    ensures FrameLength(p + t) == Some(Word16(t, 2))
    decreases |p|
  {
    if p == [] {
      assert p + t == t;
    } else {
      FirstOf(p, t);
      FrameAfter(p[FirstSize(p)..], t);
    }
  }

  lemma Unsafe(p: Bytes, h: Bytes) returns (rest: Bytes)
    requires Walks(p, false) && |h| == 4 && h[0] == 0xff && IsFrame(h[1]) && !SafeLength(Word16(h, 2))
    ensures !KeepsDimensions([0xff, 0xd8] + (p + (h + rest)))
  {
    var t := Cut(h, Word16(h, 2) - 2);
    rest := t[4..];
    assert h + rest == t;
    CutFails(h);
    WalkThrough(p, t);
    var b := [0xff, 0xd8] + (p + t);
    assert b[..2] == [0xff, 0xd8] && b[2..] == p + t;
    var r := Stripped(b);
    assert r[2..] == Strip(p + t);
  }
}
