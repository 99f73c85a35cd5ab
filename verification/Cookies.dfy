/** Printing `Set-Cookie` headers and parsing `Cookie` headers. */
module Cookies {
  import opened Base
  import opened Texts
  import Uri

  const SEMICOLON: Char := 59
  const EQUALS: Char := 61
  const SPACE: Char := 32

  /** "__proto__": assigning a string to it on a plain object does nothing. */
  const PROTO: Text := [95, 95, 112, 114, 111, 116, 111, 95, 95]

  type Jar = map<Text, Text>

  // ------------------------------------------------------------ string methods --

  /** The white space and line terminators that `trim` removes. */
  predicate Space(c: Char) {
    || 9 <= c <= 13 || c == 32 || c == 160 || c == 0x1680 || 0x2000 <= c <= 0x200A
    || c == 0x2028 || c == 0x2029 || c == 0x202F || c == 0x205F || c == 0x3000 || c == 0xFEFF
  }

  function TrimStart(t: Text): (r: Text)
    ensures r != [] ==> !Space(r[0])
  {
    if t != [] && Space(t[0]) then TrimStart(t[1..]) else t
  }

  function TrimEnd(t: Text): (r: Text)
    ensures r <= t
    ensures r != [] ==> !Space(r[|r| - 1])
  {
    if t != [] && Space(t[|t| - 1]) then TrimEnd(t[..|t| - 1]) else t
  }

  function Trim(t: Text): (r: Text)
    ensures r != [] ==> !Space(r[0]) && !Space(r[|r| - 1])
  {
    TrimEnd(TrimStart(t))
  }

  /** `indexOf`. */
  function IndexOf(t: Text, c: Char): (r: Option<nat>)
    ensures r.Some? ==> r.value < |t| && t[r.value] == c && c !in t[..r.value]
    ensures r.None? ==> c !in t
  {
    if t == [] then None
    else if t[0] == c then Some(0)
    else
      var r := IndexOf(t[1..], c);
      if r.None? then None
      else
        assert t[..r.value + 1] == [t[0]] + t[1..][..r.value];
        Some(r.value + 1)
  }

  /** `split(';')`. */
  function Split(t: Text): seq<Text>
    decreases |t|
  {
    var i := IndexOf(t, SEMICOLON);
    if i.None? then [t] else [t[..i.value]] + Split(t[i.value + 1..])
  }

  /** `join('; ')`. */
  function Joined(parts: seq<Text>): Text {
    if parts == [] then []
    else if |parts| == 1 then parts[0]
    else parts[0] + [SEMICOLON, SPACE] + Joined(parts[1..])
  }

  // -------------------------------------------------------------- printing --

  datatype SameSite = Strict | Lax | NoSite

  datatype Options = Options(path: Option<Text>, maxAge: Option<int>, httpOnly: bool, secure: bool,
                             sameSite: Option<SameSite>)

  function Site(s: SameSite): string {
    match s
    case Strict => "Strict"
    case Lax => "Lax"
    case NoSite => "None"
  }

  function Pair(name: Text, encoded: Text): Text {
    name + [EQUALS] + encoded
  }

  function PathWord(o: Options): Text {
    Word("Path=") + if o.path.Some? then o.path.value else Word("/")
  }

  function AgeWord(age: int): Text {
    Word("Max-Age=") + Decimal(if age > 0 then age else 0)
  }

  function SiteWord(o: Options): Text {
    Word("SameSite=") + Word(Site(if o.sameSite.Some? then o.sameSite.value else Lax))
  }

  function Attributes(o: Options): seq<Text> {
    [PathWord(o)]
    + (if o.maxAge.Some? then [AgeWord(o.maxAge.value)] else [])
    + (if o.httpOnly then [Word("HttpOnly")] else [])
    + (if o.secure then [Word("Secure")] else [])
    + [SiteWord(o)]
  }

  function SetCookie(name: Text, value: Text, o: Options): Result<Text, Uri.Error> {
    var e := Uri.Encode(value);
    if e.Err? then Err(e.error) else Ok(Joined([Pair(name, e.value)] + Attributes(o)))
  }

  lemma InFront(pair: Text, path: Text, age: seq<Text>, http: seq<Text>, secure: seq<Text>, site: Text)
    ensures [pair] + [path] + age + http + secure + [site] == [pair] + ([path] + age + http + secure + [site])
  {
  }

  method SerializeCookie(name: Text, value: Text, options: Options) returns (r: Result<Text, Uri.Error>)
    ensures r == SetCookie(name, value, options)
  {
    var encoded := Uri.Encode(value);
    if encoded.Err? {
      return Err(encoded.error);
    }
    ghost var age := if options.maxAge.Some? then [AgeWord(options.maxAge.value)] else [];
    ghost var http := if options.httpOnly then [Word("HttpOnly")] else [];
    ghost var secure := if options.secure then [Word("Secure")] else [];
    var parts := [Pair(name, encoded.value)];
    parts := parts + [PathWord(options)];
    ghost var first := parts;
    if options.maxAge.Some? {
      parts := parts + [AgeWord(options.maxAge.value)];
    }
    assert parts == first + age;
    if options.httpOnly {
      parts := parts + [Word("HttpOnly")];
    }
    assert parts == first + age + http;
    if options.secure {
      parts := parts + [Word("Secure")];
    }
    assert parts == first + age + http + secure;
    parts := parts + [SiteWord(options)];
    InFront(Pair(name, encoded.value), PathWord(options), age, http, secure, SiteWord(options));
    r := Ok(Joined(parts));
  }

  // --------------------------------------------------------------- parsing --

  function Assign(out: Jar, part: Text): Result<Jar, Uri.Error> {
    var eq := IndexOf(part, EQUALS);
    if eq.None? then Ok(out)
    else
      var key := Trim(part[..eq.value]);
      var value := Trim(part[eq.value + 1..]);
      if key == [] then Ok(out)
      else
        var v := Uri.Decode(value);
        if v.Err? then Err(v.error) else Ok(if key == PROTO then out else out[key := v.value])
  }

  function ParsedParts(parts: seq<Text>, out: Jar): Result<Jar, Uri.Error> {
    if parts == [] then Ok(out)
    else
      var next := Assign(out, parts[0]);
      if next.Err? then next else ParsedParts(parts[1..], next.value)
  }

  function Parsed(header: Option<Text>): Result<Jar, Uri.Error> {
    if header.None? || header.value == [] then Ok(map[]) else ParsedParts(Split(header.value), map[])
  }

  method ParseCookies(header: Option<Text>) returns (r: Result<Jar, Uri.Error>)
    ensures r == Parsed(header)
  {
    var out: Jar := map[];
    if header.None? || header.value == [] {
      return Ok(out);
    }
    var parts := Split(header.value);
    var i := 0;
    while i < |parts|
      invariant 0 <= i <= |parts|
      invariant ParsedParts(parts[i..], out) == Parsed(header)
    {
      var part := parts[i];
      assert parts[i..][0] == part && parts[i..][1..] == parts[i + 1..];
      i := i + 1;
      var eq := IndexOf(part, EQUALS);
      if eq.None? {
        continue;
      }
      var key := Trim(part[..eq.value]);
      var value := Trim(part[eq.value + 1..]);
      if key != [] {
        var decoded := Uri.Decode(value);
        if decoded.Err? {
          return Err(decoded.error);
        }
        if key != PROTO {
          out := out[key := decoded.value];
        }
      }
    }
    r := Ok(out);
  }

  // ------------------------------------------------------------- round trip --

  /** A name that survives: not empty, no `;` or `=`, no space at either end. Every RFC 6265 token is one. */
  predicate GoodName(name: Text) {
    name != [] && SEMICOLON !in name && EQUALS !in name && !Space(name[0]) && !Space(name[|name| - 1])
  }

  datatype Cookie = Cookie(name: Text, value: Text)

  predicate Good(c: Cookie) {
    GoodName(c.name) && c.name != PROTO && Uri.NoSurrogate(c.value)
  }

  /** Characters of an encoded value: no space, no `;`, no `=`. */
  predicate Calm(t: Text) {
    forall k :: 0 <= k < |t| ==> !Space(t[k]) && t[k] != SEMICOLON && t[k] != EQUALS
  }

  function EncodedValue(value: Text): (r: Text)
    requires Uri.NoSurrogate(value)
    ensures Calm(r) && Uri.Decode(r) == Ok(value)
  {
    Uri.RoundTrip(value);
    Uri.EncodedChars(value);
    Uri.Encode(value).value
  }

  predicate AllGood(cookies: seq<Cookie>) {
    forall k :: 0 <= k < |cookies| ==> Good(cookies[k])
  }

  function Pairs(cookies: seq<Cookie>): seq<Text>
    requires AllGood(cookies)
  {
    if cookies == [] then []
    else assert Good(cookies[0]); [Pair(cookies[0].name, EncodedValue(cookies[0].value))] + Pairs(cookies[1..])
  }

  /** The `Cookie` header that sends these cookies back. */
  function Header(cookies: seq<Cookie>): Text
    requires AllGood(cookies)
  {
    Joined(Pairs(cookies))
  }

  function Stored(cookies: seq<Cookie>, out: Jar): Jar {
    if cookies == [] then out else Stored(cookies[1..], out[cookies[0].name := cookies[0].value])
  }

  lemma {:induction false} IndexIs(t: Text, c: Char, i: nat)
    requires i < |t| && t[i] == c && c !in t[..i]
    ensures IndexOf(t, c) == Some(i)
  {
    if i > 0 {
      assert t[0] in t[..i];
      assert t[..i] == [t[0]] + t[1..][..i - 1];
      IndexIs(t[1..], c, i - 1);
    }
  }

  lemma TrimmedAlready(t: Text)
    requires t != [] ==> !Space(t[0]) && !Space(t[|t| - 1])
    ensures Trim(t) == t
  {
  }

  lemma TrimPad(t: Text)
    requires t != [] && !Space(t[0]) && !Space(t[|t| - 1])
    ensures Trim([SPACE] + t) == t
  {
    assert ([SPACE] + t)[1..] == t;
    assert TrimStart([SPACE] + t) == TrimStart(t) == t;
  }

  lemma PairParts(pad: Text, name: Text, encoded: Text)
    requires EQUALS !in pad && EQUALS !in name
    ensures var part := pad + Pair(name, encoded);
            var i := |pad| + |name|;
            && IndexOf(part, EQUALS) == Some(i)
            && part[..i] == pad + name && part[i + 1..] == encoded
  {
    var part := pad + Pair(name, encoded);
    var i := |pad| + |name|;
    assert part[..i] == pad + name && part[i + 1..] == encoded && part[i] == EQUALS;
    IndexIs(part, EQUALS, i);
  }

  /** `; ` leaves a blank in front of every pair but the first. */
  predicate IsPad(pad: Text) {
    pad == [] || pad == [SPACE]
  }

  lemma TrimPadded(pad: Text, name: Text)
    requires GoodName(name) && IsPad(pad)
    ensures Trim(pad + name) == name
  {
    if pad == [] {
      assert pad + name == name;
      TrimmedAlready(name);
    } else {
      TrimPad(name);
    }
  }

  lemma AssignIs(out: Jar, part: Text, eq: nat, key: Text, raw: Text, value: Text)
    requires IndexOf(part, EQUALS) == Some(eq)
    requires Trim(part[..eq]) == key && Trim(part[eq + 1..]) == raw && key != [] && Uri.Decode(raw) == Ok(value)
    ensures Assign(out, part) == Ok(if key == PROTO then out else out[key := value])
  {
  }

  lemma AssignParts(out: Jar, part: Text, eq: nat, left: Text, name: Text, encoded: Text, value: Text)
    requires IndexOf(part, EQUALS) == Some(eq) && part[..eq] == left && part[eq + 1..] == encoded
    requires Trim(left) == name && Trim(encoded) == encoded && name != [] && Uri.Decode(encoded) == Ok(value)
    ensures Assign(out, part) == Ok(if name == PROTO then out else out[name := value])
  {
    AssignIs(out, part, eq, name, encoded, value);
  }

  lemma TrimCalm(t: Text)
    requires Calm(t)
    ensures Trim(t) == t
  {
    TrimmedAlready(t);
  }

  lemma AssignAt(out: Jar, part: Text, eq: nat, pad: Text, name: Text, encoded: Text, value: Text)
    requires IndexOf(part, EQUALS) == Some(eq) && part[..eq] == pad + name && part[eq + 1..] == encoded
    requires GoodName(name) && Calm(encoded) && Uri.Decode(encoded) == Ok(value) && IsPad(pad)
    ensures Assign(out, part) == Ok(if name == PROTO then out else out[name := value])
  {
    TrimPadded(pad, name);
    TrimCalm(encoded);
    AssignParts(out, part, eq, pad + name, name, encoded, value);
  }

  /** One pair sets one cookie. */
  lemma AssignPair(out: Jar, name: Text, value: Text, encoded: Text, pad: Text)
    requires GoodName(name) && Calm(encoded) && Uri.Decode(encoded) == Ok(value) && IsPad(pad)
    ensures Assign(out, pad + Pair(name, encoded)) == Ok(if name == PROTO then out else out[name := value])
  {
    PairParts(pad, name, encoded);
    AssignAt(out, pad + Pair(name, encoded), |pad| + |name|, pad, name, encoded, value);
  }

  predicate NoSemicolon(t: Text) {
    SEMICOLON !in t
  }

  lemma PairNoSemicolon(name: Text, encoded: Text)
    requires SEMICOLON !in name && Calm(encoded)
    ensures NoSemicolon(Pair(name, encoded))
  {
  }

  lemma SplitPlain(t: Text)
    requires NoSemicolon(t)
    ensures Split(t) == [t]
  {
  }

  lemma SplitFirst(first: Text, rest: Text)
    requires NoSemicolon(first)
    ensures Split(first + [SEMICOLON] + rest) == [first] + Split(rest)
  {
    var t := first + [SEMICOLON] + rest;
    assert t[..|first|] == first && t[|first|] == SEMICOLON && t[|first| + 1..] == rest;
    IndexIs(t, SEMICOLON, |first|);
  }

  lemma JoinedMore(parts: seq<Text>, pad: Text)
    requires |parts| > 1
    ensures pad + Joined(parts) == (pad + parts[0]) + [SEMICOLON] + ([SPACE] + Joined(parts[1..]))
  {
    Regroup(pad, parts[0], Joined(parts[1..]));
  }

  lemma Regroup(a: Text, b: Text, c: Text)
    ensures a + (b + [SEMICOLON, SPACE] + c) == (a + b) + [SEMICOLON] + ([SPACE] + c)
  {
  }

  lemma PairsFacts(cookies: seq<Cookie>)
    requires cookies != [] && AllGood(cookies)
    ensures Pairs(cookies)[1..] == Pairs(cookies[1..]) && |Pairs(cookies)| == 1 + |Pairs(cookies[1..])|
    ensures |cookies| == 1 <==> |Pairs(cookies)| == 1
    ensures Pairs(cookies)[0] == Pair(cookies[0].name, EncodedValue(cookies[0].value)) && NoSemicolon(Pairs(cookies)[0])
  {
    PairNoSemicolon(cookies[0].name, EncodedValue(cookies[0].value));
    if |cookies| > 1 {
      assert Pairs(cookies[1..]) != [];
    }
  }

  lemma {:induction false} ParsesBackFrom(cookies: seq<Cookie>, out: Jar, pad: Text)
    requires cookies != [] && AllGood(cookies) && IsPad(pad)
    ensures ParsedParts(Split(pad + Header(cookies)), out) == Ok(Stored(cookies, out))
    decreases |cookies|
  {
    var c := cookies[0];
    var first := pad + Pair(c.name, EncodedValue(c.value));
    PairsFacts(cookies);
    assert NoSemicolon(first);
    AssignPair(out, c.name, c.value, EncodedValue(c.value), pad);
    var next := out[c.name := c.value];
    if |cookies| == 1 {
      SplitPlain(first);
      OnePart(first, out, next);
    } else {
      JoinedMore(Pairs(cookies), pad);
      SplitFirst(first, [SPACE] + Header(cookies[1..]));
      FirstPart(first, Split([SPACE] + Header(cookies[1..])), out, next);
      ParsesBackFrom(cookies[1..], next, [SPACE]);
    }
  }

  lemma FirstPart(first: Text, rest: seq<Text>, out: Jar, next: Jar)
    requires Assign(out, first) == Ok(next)
    ensures ParsedParts([first] + rest, out) == ParsedParts(rest, next)
  {
    assert ([first] + rest)[1..] == rest;
  }

  lemma OnePart(first: Text, out: Jar, next: Jar)
    requires Assign(out, first) == Ok(next)
    ensures ParsedParts([first], out) == Ok(next)
  {
    FirstPart(first, [], out, next);
    assert [first] + [] == [first];
  }

  ghost predicate LastOf(cookies: seq<Cookie>, i: nat) {
    i < |cookies| && forall k :: i < k < |cookies| ==> cookies[k].name != cookies[i].name
  }

  /** What is stored: the names of the list, each with the value of its last cookie. */
  lemma {:induction false} StoredIsLast(cookies: seq<Cookie>, out: Jar)
    ensures forall name ::
              name in Stored(cookies, out) <==> name in out || exists i: nat :: i < |cookies| && cookies[i].name == name
    ensures forall i: nat :: LastOf(cookies, i) ==> Stored(cookies, out)[cookies[i].name] == cookies[i].value
    ensures forall name :: name in out && (forall i: nat :: i < |cookies| ==> cookies[i].name != name) ==>
            Stored(cookies, out)[name] == out[name]
    decreases |cookies|
  {
    if cookies != [] {
      var rest := cookies[1..];
      var next := out[cookies[0].name := cookies[0].value];
      StoredIsLast(rest, next);
      forall name
        ensures name in Stored(cookies, out)
                <==> name in out || exists i: nat :: i < |cookies| && cookies[i].name == name
      {
        InTail(cookies, name);
      }
      forall i: nat | LastOf(cookies, i) ensures Stored(cookies, out)[cookies[i].name] == cookies[i].value {
        LastInTail(cookies, i);
      }
    }
  }

  lemma InTail(cookies: seq<Cookie>, name: Text)
    requires cookies != []
    ensures (exists i: nat :: i < |cookies| && cookies[i].name == name)
       <==> cookies[0].name == name || exists i: nat :: i < |cookies[1..]| && cookies[1..][i].name == name
  {
    if i: nat :| i < |cookies[1..]| && cookies[1..][i].name == name {
      assert cookies[i + 1].name == name;
    }
    if i: nat :| i < |cookies| && cookies[i].name == name && i > 0 {
      assert cookies[1..][i - 1].name == name;
    }
  }

  lemma LastInTail(cookies: seq<Cookie>, i: nat)
    requires LastOf(cookies, i)
    ensures i > 0 ==> LastOf(cookies[1..], i - 1) && cookies[1..][i - 1] == cookies[i]
    ensures i == 0 ==> forall k: nat :: k < |cookies[1..]| ==> cookies[1..][k].name != cookies[0].name
  {
    forall k | i <= k < |cookies[1..]| ensures cookies[1..][k].name != cookies[i].name {
      assert cookies[1..][k] == cookies[k + 1];
    }
  }

  /** Parsing the header that sends any list of well-formed cookies gives back every name with its last value. */
  lemma HeaderParsesBack(cookies: seq<Cookie>)
    requires AllGood(cookies)
    ensures var r := Parsed(Some(Header(cookies)));
            && r.Ok?
            && (forall name :: name in r.value <==> exists i: nat :: i < |cookies| && cookies[i].name == name)
            && (forall i: nat :: LastOf(cookies, i) ==> r.value[cookies[i].name] == cookies[i].value)
  {
    StoredIsLast(cookies, map[]);
    if cookies != [] {
      ParsesBackFrom(cookies, map[], []);
      PairsFacts(cookies);
      assert [] + Header(cookies) == Header(cookies);
    }
  }

  // -------------------------------------------------------- which names survive --

  lemma KeyIsGood(part: Text, out: Jar, name: Text)
    requires NoSemicolon(part) && Assign(out, part).Ok? && name in Assign(out, part).value
    ensures name in out || (GoodName(name) && name != PROTO)
  {
    var eq := IndexOf(part, EQUALS);
    if eq.Some? && name !in out {
      TrimWithin(part[..eq.value], SEMICOLON);
      TrimWithin(part[..eq.value], EQUALS);
    }
  }

  lemma TrimWithin(t: Text, c: Char)
    requires c !in t
    ensures c !in Trim(t)
  {
    TrimStartWithin(t, c);
  }

  lemma {:induction false} TrimStartWithin(t: Text, c: Char)
    requires c !in t
    ensures c !in TrimStart(t)
  {
    if t != [] && Space(t[0]) {
      TrimStartWithin(t[1..], c);
    }
  }

  lemma {:induction false} SplitNoSemicolon(t: Text)
    ensures forall k :: 0 <= k < |Split(t)| ==> NoSemicolon(Split(t)[k])
    decreases |t|
  {
    var i := IndexOf(t, SEMICOLON);
    if i.Some? {
      SplitNoSemicolon(t[i.value + 1..]);
    }
  }

  lemma {:induction false} PartsKeysGood(parts: seq<Text>, out: Jar, name: Text)
    requires forall k :: 0 <= k < |parts| ==> NoSemicolon(parts[k])
    requires ParsedParts(parts, out).Ok? && name in ParsedParts(parts, out).value
    ensures name in out || (GoodName(name) && name != PROTO)
  {
    if parts != [] {
      PartsKeysGood(parts[1..], Assign(out, parts[0]).value, name);
      if name in Assign(out, parts[0]).value {
        KeyIsGood(parts[0], out, name);
      }
    }
  }

  /** Whatever the header, every name parsed out of it is well formed. */
  lemma ParsedNamesAreGood(header: Option<Text>, name: Text)
    requires Parsed(header).Ok? && name in Parsed(header).value
    ensures GoodName(name) && name != PROTO
  {
    SplitNoSemicolon(header.value);
    PartsKeysGood(Split(header.value), map[], name);
  }

  /** A name gives back every value exactly when it is well formed and is not `__proto__`. */
  lemma SurvivesIffGood(name: Text)
    ensures (forall value: Text :: Uri.NoSurrogate(value) ==>
               Parsed(Some(Pair(name, EncodedValue(value)))) == Ok(map[name := value]))
            <==> GoodName(name) && name != PROTO
  {
    if GoodName(name) && name != PROTO {
      forall value: Text | Uri.NoSurrogate(value)
        ensures Parsed(Some(Pair(name, EncodedValue(value)))) == Ok(map[name := value])
      {
        var e := EncodedValue(value);
        AssignPair(map[], name, value, e, []);
        assert [] + Pair(name, e) == Pair(name, e);
        PairNoSemicolon(name, e);
        SplitPlain(Pair(name, e));
        OnePart(Pair(name, e), map[], map[][name := value]);
      }
    } else {
      var value: Text := [];
      var h := Some(Pair(name, EncodedValue(value)));
      if Parsed(h) == Ok(map[name := value]) {
        assert name in Parsed(h).value;
        ParsedNamesAreGood(h, name);
      }
    }
  }

  // ----------------------------------------------------- when parsing throws --

  /** A part with a name whose value is no percent-encoded text, such as `a=%`. */
  predicate Malformed(part: Text) {
    var eq := IndexOf(part, EQUALS);
    eq.Some? && Trim(part[..eq.value]) != [] && Uri.Decode(Trim(part[eq.value + 1..])).Err?
  }

  lemma {:induction false} PartsThrowIff(parts: seq<Text>, out: Jar)
    ensures ParsedParts(parts, out).Err? <==> exists k :: 0 <= k < |parts| && Malformed(parts[k])
    decreases |parts|
  {
    if parts != [] {
      if !Malformed(parts[0]) {
        PartsThrowIff(parts[1..], Assign(out, parts[0]).value);
        if k :| 0 <= k < |parts| && Malformed(parts[k]) {
          assert parts[1..][k - 1] == parts[k];
        }
      }
    }
  }

  lemma EmptyIsWellFormed()
    ensures Split([]) == [[]] && !Malformed([])
  {
    assert IndexOf([], SEMICOLON).None? && IndexOf([], EQUALS).None?;
  }

  ghost predicate SomePartMalformed(header: Text) {
    exists k :: 0 <= k < |Split(header)| && Malformed(Split(header)[k])
  }

  /** One malformed part anywhere in the header loses all the others: parsing throws, and otherwise it does not. */
  lemma ParsingThrowsIff(header: Text)
    ensures Parsed(Some(header)).Err? <==> SomePartMalformed(header)
  {
    if header == [] {
      EmptyIsWellFormed();
      assert Parsed(Some(header)) == Ok(map[]);
      forall k | 0 <= k < |Split(header)| ensures !Malformed(Split(header)[k]) {
        assert Split(header)[k] == [];
      }
    } else {
      var parts := Split(header);
      assert Parsed(Some(header)) == ParsedParts(parts, map[]);
      PartsThrowIff(parts, map[]);
    }
  }

  // ------------------------------------------ what a browser keeps of Set-Cookie --

  /**
   * A browser takes what stands before the first `;` (RFC 6265, section 5.2): the very pair, whatever the
   * attributes.
   */
  lemma PairOfSetCookie(c: Cookie, o: Options)
    requires Good(c)
    ensures SetCookie(c.name, c.value, o).Ok?
    ensures Split(SetCookie(c.name, c.value, o).value)[0] == Pair(c.name, EncodedValue(c.value)) == Pairs([c])[0]
  {
    Uri.RoundTrip(c.value);
    var p := Pair(c.name, EncodedValue(c.value));
    var parts := [p] + Attributes(o);
    PairNoSemicolon(c.name, EncodedValue(c.value));
    JoinedMore(parts, []);
    assert [] + Joined(parts) == Joined(parts) && [] + p == p;
    SplitFirst(p, [SPACE] + Joined(parts[1..]));
  }

  // ------------------------------------------------------ the browser's reading --

  /** A part of a header as a browser reads it: what stands before and after its first `=`, both trimmed. */
  datatype Attribute = Attribute(name: Text, value: Text)

  function ReadPart(part: Text): Attribute {
    var eq := IndexOf(part, EQUALS);
    if eq.None? then Attribute(Trim(part), []) else Attribute(Trim(part[..eq.value]), Trim(part[eq.value + 1..]))
  }

  function ReadParts(parts: seq<Text>): seq<Attribute> {
    seq(|parts|, k requires 0 <= k < |parts| => ReadPart(parts[k]))
  }

  /** RFC 6265, section 5.2: the parts between the semicolons, in order. */
  function ReadHeader(header: Text): seq<Attribute> {
    ReadParts(Split(header))
  }

  lemma IndexPadded(part: Text)
    ensures IndexOf([SPACE] + part, EQUALS) ==
            if IndexOf(part, EQUALS).None? then None else Some(IndexOf(part, EQUALS).value + 1)
  {
    assert ([SPACE] + part)[1..] == part;
  }

  lemma TrimSpace(t: Text)
    ensures Trim([SPACE] + t) == Trim(t)
  {
    assert ([SPACE] + t)[1..] == t;
  }

  lemma CutPadded(part: Text, i: nat)
    requires i < |part|
    ensures ([SPACE] + part)[..i + 1] == [SPACE] + part[..i] && ([SPACE] + part)[i + 2..] == part[i + 1..]
  {
  }

  lemma ReadPadded(part: Text, pad: Text)
    requires IsPad(pad)
    ensures ReadPart(pad + part) == ReadPart(part)
  {
    if pad == [SPACE] {
      IndexPadded(part);
      var eq := IndexOf(part, EQUALS);
      if eq.Some? {
        CutPadded(part, eq.value);
        TrimSpace(part[..eq.value]);
      } else {
        TrimSpace(part);
      }
    } else {
      assert pad + part == part;
    }
  }

  lemma ReadMore(part: Text, rest: seq<Text>)
    ensures ReadParts([part] + rest) == [ReadPart(part)] + ReadParts(rest)
  {
  }

  ghost predicate NoSemicolons(parts: seq<Text>) {
    forall k :: 0 <= k < |parts| ==> NoSemicolon(parts[k])
  }

  lemma {:induction false} ReadJoined(parts: seq<Text>, pad: Text)
    requires parts != [] && NoSemicolons(parts) && IsPad(pad)
    ensures ReadHeader(pad + Joined(parts)) == ReadParts(parts)
    decreases |parts|
  {
    var first := pad + parts[0];
    ReadPadded(parts[0], pad);
    assert NoSemicolon(first) && parts == [parts[0]] + parts[1..];
    ReadMore(parts[0], parts[1..]);
    if |parts| == 1 {
      SplitPlain(first);
      ReadMore(first, []);
    } else {
      JoinedMore(parts, pad);
      SplitFirst(first, [SPACE] + Joined(parts[1..]));
      ReadMore(first, Split([SPACE] + Joined(parts[1..])));
      ReadJoined(parts[1..], [SPACE]);
    }
  }

  lemma ReadPair(name: Text, value: Text)
    requires EQUALS !in name && Trim(name) == name && Trim(value) == value
    ensures ReadPart(Pair(name, value)) == Attribute(name, value)
  {
    PairParts([], name, value);
    assert [] + Pair(name, value) == Pair(name, value) && [] + name == name;
  }

  /** A string of letters and hyphens. */
  predicate Plain(t: Text) {
    forall k :: 0 <= k < |t| ==> 45 <= t[k] < 128 && t[k] != EQUALS && t[k] != SEMICOLON
  }

  lemma ReadNamed(word: Text, name: Text, value: Text)
    requires word == name + [EQUALS] + value && Plain(name) && Trim(value) == value && NoSemicolon(value)
    ensures ReadPart(word) == Attribute(name, value) && NoSemicolon(word)
  {
    TrimmedAlready(name);
    ReadPair(name, value);
    assert word == Pair(name, value);
  }

  lemma ReadFlag(name: Text)
    requires Plain(name)
    ensures ReadPart(name) == Attribute(name, []) && NoSemicolon(name)
  {
    TrimmedAlready(name);
  }

  /** The path an option names: no semicolon in it, no white space around it. */
  predicate PlainPath(o: Options) {
    o.path.Some? ==> NoSemicolon(o.path.value) && Trim(o.path.value) == o.path.value
  }

  function PathOf(o: Options): Text {
    if o.path.Some? then o.path.value else [47]
  }

  /** Never negative. */
  function AgeOf(o: Options): nat {
    match o.maxAge
    case Some(age) => if age < 0 then 0 else age
    case None => 0
  }

  function SiteName(o: Options): Text {
    match o.sameSite
    case Some(Strict) => Word("Strict")
    case Some(NoSite) => Word("None")
    case _ => Word("Lax")
  }

  function PathIs(o: Options): Attribute {
    Attribute(Word("Path"), PathOf(o))
  }

  function AgeIs(o: Options): Attribute {
    Attribute(Word("Max-Age"), Decimal(AgeOf(o)))
  }

  function Flag(name: string): Attribute {
    Attribute(Word(name), [])
  }

  function SiteIs(o: Options): Attribute {
    Attribute(Word("SameSite"), SiteName(o))
  }

  /** What the options ask for. */
  predicate Asked(o: Options, a: Attribute) {
    || a == PathIs(o)
    || (o.maxAge.Some? && a == AgeIs(o))
    || (o.httpOnly && a == Flag("HttpOnly"))
    || (o.secure && a == Flag("Secure"))
    || a == SiteIs(o)
  }

  lemma ReadPath(o: Options)
    requires PlainPath(o)
    ensures ReadPart(PathWord(o)) == PathIs(o) && NoSemicolon(PathWord(o))
  {
    assert Word("Path=") == Word("Path") + [EQUALS];
    assert Word("/") == [47];
    ReadNamed(PathWord(o), Word("Path"), PathOf(o));
  }

  lemma ReadAge(age: int)
    ensures var n := if age < 0 then 0 else age;
            ReadPart(AgeWord(age)) == Attribute(Word("Max-Age"), Decimal(n)) && NoSemicolon(AgeWord(age))
  {
    var n := if age < 0 then 0 else age;
    assert Word("Max-Age=") == Word("Max-Age") + [EQUALS];
    DecimalReads(n);
    TrimmedAlready(Decimal(n));
    ReadNamed(AgeWord(age), Word("Max-Age"), Decimal(n));
  }

  lemma ReadSite(o: Options)
    ensures ReadPart(SiteWord(o)) == SiteIs(o) && NoSemicolon(SiteWord(o))
  {
    assert Word("SameSite=") == Word("SameSite") + [EQUALS];
    TrimmedAlready(SiteName(o));
    ReadNamed(SiteWord(o), Word("SameSite"), SiteName(o));
  }

  lemma ReadConcat(a: seq<Text>, b: seq<Text>)
    ensures ReadParts(a + b) == ReadParts(a) + ReadParts(b)
    ensures NoSemicolons(a) && NoSemicolons(b) ==> NoSemicolons(a + b)
  {
  }

  /** A word that is there only if a condition holds, and what is read from it. */
  ghost predicate ReadsAs(words: seq<Text>, there: bool, a: Attribute) {
    NoSemicolons(words) && ReadParts(words) == if there then [a] else []
  }

  lemma ReadFlagIf(there: bool, name: Text)
    requires Plain(name)
    ensures ReadsAs(if there then [name] else [], there, Attribute(name, []))
  {
    ReadFlag(name);
  }

  lemma ReadHttpOnly(there: bool)
    ensures ReadsAs(if there then [Word("HttpOnly")] else [], there, Flag("HttpOnly"))
  {
    ReadFlagIf(there, Word("HttpOnly"));
  }

  lemma ReadSecure(there: bool)
    ensures ReadsAs(if there then [Word("Secure")] else [], there, Flag("Secure"))
  {
    ReadFlagIf(there, Word("Secure"));
  }

  lemma ReadAgeIf(o: Options)
    ensures ReadsAs(if o.maxAge.Some? then [AgeWord(o.maxAge.value)] else [], o.maxAge.Some?,
                    AgeIs(o))
  {
    if o.maxAge.Some? {
      ReadAge(o.maxAge.value);
    }
  }

  function Only(there: bool, a: Attribute): seq<Attribute> {
    if there then [a] else []
  }

  ghost predicate ReadsAll(words: seq<Text>, list: seq<Attribute>) {
    NoSemicolons(words) && ReadParts(words) == list
  }

  lemma ReadNext(words: seq<Text>, list: seq<Attribute>, more: seq<Text>, there: bool, a: Attribute)
    requires ReadsAll(words, list) && ReadsAs(more, there, a)
    ensures ReadsAll(words + more, list + Only(there, a))
  {
    ReadConcat(words, more);
  }

  lemma ReadOne(word: Text, a: Attribute)
    requires ReadPart(word) == a && NoSemicolon(word)
    ensures ReadsAs([word], true, a) && ReadsAll([word], [a])
  {
  }

  /** Five groups of words, read one after the other. */
  lemma ReadGroups(path: Text, p: Attribute, age: seq<Text>, m: bool, a: Attribute, http: seq<Text>, h: bool,
                   b: Attribute, secure: seq<Text>, s: bool, c: Attribute, site: Text, d: Attribute)
    requires ReadPart(path) == p && NoSemicolon(path) && ReadPart(site) == d && NoSemicolon(site)
    requires ReadsAs(age, m, a) && ReadsAs(http, h, b) && ReadsAs(secure, s, c)
    ensures ReadsAll([path] + age + http + secure + [site], [p] + Only(m, a) + Only(h, b) + Only(s, c) + [d])
  {
    ReadOne(path, p);
    ReadOne(site, d);
    ReadNext([path], [p], age, m, a);
    ReadNext([path] + age, [p] + Only(m, a), http, h, b);
    ReadNext([path] + age + http, [p] + Only(m, a) + Only(h, b), secure, s, c);
    ReadNext([path] + age + http + secure, [p] + Only(m, a) + Only(h, b) + Only(s, c), [site], true, d);
  }

  lemma ListIs(o: Options)
    requires PlainPath(o)
    ensures ReadsAll(Attributes(o), [PathIs(o)] + Only(o.maxAge.Some?, AgeIs(o)) + Only(o.httpOnly, Flag("HttpOnly"))
                                    + Only(o.secure, Flag("Secure")) + [SiteIs(o)])
  {
    ReadPath(o);
    ReadSite(o);
    ReadAgeIf(o);
    ReadHttpOnly(o.httpOnly);
    ReadSecure(o.secure);
    ListFrom(o, PathWord(o), if o.maxAge.Some? then [AgeWord(o.maxAge.value)] else [],
             if o.httpOnly then [Word("HttpOnly")] else [], Flag("HttpOnly"),
             if o.secure then [Word("Secure")] else [], Flag("Secure"), SiteWord(o));
  }

  lemma ListFrom(o: Options, path: Text, age: seq<Text>, http: seq<Text>, b: Attribute, secure: seq<Text>, c: Attribute,
                 site: Text)
    requires ReadPart(path) == PathIs(o) && NoSemicolon(path) && ReadPart(site) == SiteIs(o) && NoSemicolon(site)
    requires ReadsAs(age, o.maxAge.Some?, AgeIs(o)) && ReadsAs(http, o.httpOnly, b) && ReadsAs(secure, o.secure, c)
    ensures ReadsAll([path] + age + http + secure + [site], [PathIs(o)] + Only(o.maxAge.Some?, AgeIs(o))
                                                            + Only(o.httpOnly, b) + Only(o.secure, c) + [SiteIs(o)])
  {
    ReadGroups(path, PathIs(o), age, o.maxAge.Some?, AgeIs(o), http, o.httpOnly, b, secure, o.secure, c, site,
               SiteIs(o));
  }

  lemma Members(p: Attribute, m: bool, age: Attribute, h: bool, http: Attribute, s: bool, secure: Attribute,
                site: Attribute, a: Attribute)
    ensures a in [p] + Only(m, age) + Only(h, http) + Only(s, secure) + [site]
            <==> a == p || (m && a == age) || (h && a == http) || (s && a == secure) || a == site
  {
  }

  lemma ReadAttributes(o: Options)
    requires PlainPath(o)
    ensures NoSemicolons(Attributes(o)) && |Attributes(o)| == Count(o)
    ensures forall a :: a in ReadParts(Attributes(o)) <==> Asked(o, a)
  {
    ListIs(o);
    forall a ensures a in ReadParts(Attributes(o)) <==> Asked(o, a) {
      Members(PathIs(o), o.maxAge.Some?, AgeIs(o), o.httpOnly, Flag("HttpOnly"), o.secure, Flag("Secure"), SiteIs(o),
              a);
    }
  }

  function Count(o: Options): nat {
    2 + (if o.maxAge.Some? then 1 else 0) + (if o.httpOnly then 1 else 0) + (if o.secure then 1 else 0)
  }

  /**
   * A browser reads from the header the pair first, and then exactly the attributes the options ask for, each once:
   * HttpOnly and Secure only if asked for, Max-Age never below zero, Path "/" and SameSite "Lax" if not given.
   */
  lemma BrowserReads(c: Cookie, o: Options)
    requires Good(c) && PlainPath(o)
    ensures SetCookie(c.name, c.value, o).Ok?
    ensures var seen := ReadHeader(SetCookie(c.name, c.value, o).value);
            && |seen| == 1 + Count(o)
            && seen[0] == Attribute(c.name, EncodedValue(c.value))
            && forall a :: a in seen[1..] <==> Asked(o, a)
  {
    var p, words := Pair(c.name, EncodedValue(c.value)), Attributes(o);
    SetCookieIs(c, o);
    ReadsPair(c);
    ReadAttributes(o);
    ReadBack(p, words);
    assert ([ReadPart(p)] + ReadParts(words))[1..] == ReadParts(words);
  }

  lemma SetCookieIs(c: Cookie, o: Options)
    requires Good(c)
    ensures SetCookie(c.name, c.value, o) == Ok(Joined([Pair(c.name, EncodedValue(c.value))] + Attributes(o)))
  {
    Uri.RoundTrip(c.value);
  }

  lemma ReadBack(p: Text, words: seq<Text>)
    requires NoSemicolon(p) && NoSemicolons(words)
    ensures ReadHeader(Joined([p] + words)) == [ReadPart(p)] + ReadParts(words)
  {
    assert [] + Joined([p] + words) == Joined([p] + words);
    ReadJoined([p] + words, []);
    ReadMore(p, words);
  }

  lemma ReadsPair(c: Cookie)
    requires Good(c)
    ensures var p := Pair(c.name, EncodedValue(c.value));
            ReadPart(p) == Attribute(c.name, EncodedValue(c.value)) && NoSemicolon(p)
  {
    PairNoSemicolon(c.name, EncodedValue(c.value));
    TrimmedAlready(c.name);
    TrimCalm(EncodedValue(c.value));
    ReadPair(c.name, EncodedValue(c.value));
  }
}
