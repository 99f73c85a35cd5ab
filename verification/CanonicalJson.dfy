/**
 * `stableStringify`: JSON text with the members of every object in key order. Its three copies in the repository
 * have the same branches. Text is a sequence of UTF-16 code units, as in JavaScript.
 */
module CanonicalJson {
  import opened Texts

  const QUOTE: Unit := 34
  const COMMA: Unit := 44
  const COLON: Unit := 58
  const BACKSLASH: Unit := 92
  const LBRACKET: Unit := 91
  const RBRACKET: Unit := 93
  const LBRACE: Unit := 123
  const RBRACE: Unit := 125

  const NULL_TEXT: Units := [110, 117, 108, 108]
  const TRUE_TEXT: Units := [116, 114, 117, 101]
  const FALSE_TEXT: Units := [102, 97, 108, 115, 101]

  /** Number::toString of a finite double: a non-empty run of 0-9 + - . e, one text per double, -0 and 0 sharing "0". */
  predicate NumberUnit(u: Unit) {
    48 <= u <= 57 || u == 43 || u == 45 || u == 46 || u == 101
  }

  predicate IsNumeral(t: Units) {
    |t| > 0 && (48 <= t[0] <= 57 || t[0] == 45) && forall k :: 0 <= k < |t| ==> NumberUnit(t[k])
  }

  type Numeral = t: Units | IsNumeral(t) witness [48]

  datatype Member = Member(key: Units, value: Json)

  datatype Json =
    | Null
    | Bool(b: bool)
    | Num(text: Numeral)
    | Str(s: Units)
    | Arr(items: seq<Json>)
    | Obj(members: seq<Member>)

  /** An object has each key once. */
  ghost predicate DistinctKeys(ms: seq<Member>) {
    forall j, k :: 0 <= j < k < |ms| ==> ms[j].key != ms[k].key
  }

  ghost predicate WellFormed(v: Json) {
    match v
    case Arr(items) => forall k :: 0 <= k < |items| ==> WellFormed(items[k])
    case Obj(ms) => DistinctKeys(ms) && forall k :: 0 <= k < |ms| ==> WellFormed(ms[k].value)
    case _ => true
  }

  /** Equality up to the order of object members, at every depth. */
  ghost predicate Same(v: Json, w: Json) {
    match (v, w)
    case (Arr(a), Arr(b)) => |a| == |b| && forall k :: 0 <= k < |a| ==> Same(a[k], b[k])
    case (Obj(a), Obj(b)) =>
      |a| == |b| && forall j :: 0 <= j < |a| ==>
          exists k :: 0 <= k < |b| && a[j].key == b[k].key && Same(a[j].value, b[k].value)
    case (_, _) => v == w
  }

  // -------------------------------------------------------------- strings --

  predicate High(u: Unit) {
    0xD800 <= u < 0xDC00
  }

  predicate Low(u: Unit) {
    0xDC00 <= u < 0xE000
  }

  function HexDigit(n: nat): Unit
    requires n < 16
  {
    if n < 10 then 48 + n else 87 + n
  }

  function UnicodeEscape(u: Unit): Units {
    [BACKSLASH, 117, HexDigit(u / 4096), HexDigit(u / 256 % 16), HexDigit(u / 16 % 16), HexDigit(u % 16)]
  }

  /** One code unit of QuoteJSONString, outside a surrogate pair. */
  function Escape(u: Unit): Units {
    if u == 8 then [BACKSLASH, 98]
    else if u == 9 then [BACKSLASH, 116]
    else if u == 10 then [BACKSLASH, 110]
    else if u == 12 then [BACKSLASH, 102]
    else if u == 13 then [BACKSLASH, 114]
    else if u == QUOTE then [BACKSLASH, QUOTE]
    else if u == BACKSLASH then [BACKSLASH, BACKSLASH]
    else if u < 32 || High(u) || Low(u) then UnicodeEscape(u)
    else [u]
  }

  /** Surrogate pairs stay as they are, lone surrogates are escaped. */
  function Quoted(s: Units): Units {
    if s == [] then []
    else if |s| >= 2 && High(s[0]) && Low(s[1]) then s[..2] + Quoted(s[2..])
    else Escape(s[0]) + Quoted(s[1..])
  }

  function Quote(s: Units): Units {
    [QUOTE] + Quoted(s) + [QUOTE]
  }

  // ------------------------------------------------------------- printing --

  /** The order of `sort()` on strings: by code unit. */
  predicate Less(a: Units, b: Units) {
    if b == [] then false
    else if a == [] then true
    else a[0] < b[0] || (a[0] == b[0] && Less(a[1..], b[1..]))
  }

  function Insert(m: Member, ms: seq<Member>): seq<Member> {
    if ms == [] then [m]
    else if Less(ms[0].key, m.key) then [ms[0]] + Insert(m, ms[1..])
    else [m] + ms
  }

  function Sorted(ms: seq<Member>): seq<Member> {
    if ms == [] then [] else Insert(ms[0], Sorted(ms[1..]))
  }

  function Size(v: Json): nat {
    match v
    case Arr(items) => 1 + SizeAll(items)
    case Obj(ms) => 1 + SizeMembers(ms)
    case _ => 1
  }

  function SizeAll(items: seq<Json>): nat {
    if items == [] then 0 else Size(items[0]) + 1 + SizeAll(items[1..])
  }

  function SizeMembers(ms: seq<Member>): nat {
    if ms == [] then 0 else Size(ms[0].value) + 1 + SizeMembers(ms[1..])
  }

  lemma {:induction false} InsertSize(m: Member, ms: seq<Member>)
    ensures SizeMembers(Insert(m, ms)) == Size(m.value) + 1 + SizeMembers(ms)
  {
    if ms != [] && Less(ms[0].key, m.key) {
      InsertSize(m, ms[1..]);
    }
  }

  lemma {:induction false} SortedSize(ms: seq<Member>)
    ensures SizeMembers(Sorted(ms)) == SizeMembers(ms)
  {
    if ms != [] {
      SortedSize(ms[1..]);
      InsertSize(ms[0], Sorted(ms[1..]));
    }
  }

  function Stringify(v: Json): Units
    decreases Size(v), 0
  {
    match v
    case Null => NULL_TEXT
    case Bool(b) => if b then TRUE_TEXT else FALSE_TEXT
    case Num(t) => t
    case Str(s) => Quote(s)
    case Arr(items) => [LBRACKET] + JoinItems(items) + [RBRACKET]
    case Obj(ms) => SortedSize(ms); [LBRACE] + JoinMembers(Sorted(ms)) + [RBRACE]
  }

  function JoinItems(items: seq<Json>): Units
    decreases SizeAll(items), 1
  {
    if items == [] then []
    else Stringify(items[0]) + if |items| == 1 then [] else [COMMA] + JoinItems(items[1..])
  }

  function JoinMembers(ms: seq<Member>): Units
    decreases SizeMembers(ms), 1
  {
    if ms == [] then []
    else Quote(ms[0].key) + [COLON] + Stringify(ms[0].value) + if |ms| == 1 then [] else [COMMA] + JoinMembers(ms[1..])
  }

  // --------------------------------------------------------------- sorting --

  lemma {:induction false} LessIrreflexive(a: Units)
    ensures !Less(a, a)
  {
    if a != [] {
      LessIrreflexive(a[1..]);
    }
  }

  lemma {:induction false} LessTransitive(a: Units, b: Units, c: Units)
    requires Less(a, b) && Less(b, c)
    ensures Less(a, c)
  {
    if a != [] && a[0] == b[0] == c[0] {
      LessTransitive(a[1..], b[1..], c[1..]);
    }
  }

  lemma {:induction false} LessTotal(a: Units, b: Units)
    ensures Less(a, b) || Less(b, a) || a == b
  {
    if a != [] && b != [] && a[0] == b[0] {
      LessTotal(a[1..], b[1..]);
      assert a == [a[0]] + a[1..] && b == [b[0]] + b[1..];
    }
  }

  ghost predicate Increasing(ms: seq<Member>) {
    forall j, k :: 0 <= j < k < |ms| ==> Less(ms[j].key, ms[k].key)
  }

  ghost predicate Has(ms: seq<Member>, m: Member) {
    exists k :: 0 <= k < |ms| && ms[k] == m
  }

  lemma HasTail(ms: seq<Member>, m: Member)
    requires ms != []
    ensures Has(ms, m) <==> m == ms[0] || Has(ms[1..], m)
  {
    if Has(ms, m) && m != ms[0] {
      var k :| 0 <= k < |ms| && ms[k] == m;
      assert ms[1..][k - 1] == m;
    }
    if Has(ms[1..], m) {
      var k :| 0 <= k < |ms[1..]| && ms[1..][k] == m;
      assert ms[k + 1] == m;
    }
  }

  lemma {:induction false} InsertHas(m: Member, ms: seq<Member>, x: Member)
    ensures |Insert(m, ms)| == |ms| + 1
    ensures Has(Insert(m, ms), x) <==> x == m || Has(ms, x)
  {
    var r := Insert(m, ms);
    HasTail(r, x);
    if ms != [] {
      HasTail(ms, x);
      if Less(ms[0].key, m.key) {
        InsertHas(m, ms[1..], x);
        assert r[1..] == Insert(m, ms[1..]);
      } else {
        assert r[1..] == ms;
      }
    } else {
      assert r[1..] == ms;
    }
  }

  lemma {:induction false} SortedHas(ms: seq<Member>, x: Member)
    ensures |Sorted(ms)| == |ms|
    ensures Has(Sorted(ms), x) <==> Has(ms, x)
  {
    if ms != [] {
      SortedHas(ms[1..], x);
      InsertHas(ms[0], Sorted(ms[1..]), x);
      HasTail(ms, x);
    }
  }

  lemma {:induction false} InsertIncreasing(m: Member, ms: seq<Member>)
    requires Increasing(ms) && forall k :: 0 <= k < |ms| ==> ms[k].key != m.key
    ensures Increasing(Insert(m, ms))
  {
    if ms != [] {
      if Less(ms[0].key, m.key) {
        InsertIncreasing(m, ms[1..]);
        var r := Insert(m, ms[1..]);
        forall k | 0 <= k < |r| ensures Less(ms[0].key, r[k].key) {
          InsertHas(m, ms[1..], r[k]);
          assert Has(r, r[k]);
        }
      } else {
        LessTotal(ms[0].key, m.key);
        forall k | 0 <= k < |ms| ensures Less(m.key, ms[k].key) {
          if k > 0 {
            LessTransitive(m.key, ms[0].key, ms[k].key);
          }
        }
      }
    }
  }

  lemma {:induction false} SortedIncreasing(ms: seq<Member>)
    requires DistinctKeys(ms)
    ensures Increasing(Sorted(ms))
  {
    if ms != [] {
      SortedIncreasing(ms[1..]);
      var rest := Sorted(ms[1..]);
      forall k | 0 <= k < |rest| ensures rest[k].key != ms[0].key {
        SortedHas(ms[1..], rest[k]);
        assert Has(rest, rest[k]);
        var j :| 0 <= j < |ms[1..]| && ms[1..][j] == rest[k];
        assert ms[j + 1] == rest[k];
      }
      InsertIncreasing(ms[0], rest);
    }
  }

  // ------------------------------------------------------ strings, read back --

  /** What the first code unit or pair of a string is printed as, and what is left of the string. */
  function Piece(s: Units): Units
    requires s != []
  {
    if |s| >= 2 && High(s[0]) && Low(s[1]) then s[..2] else Escape(s[0])
  }

  function Rest(s: Units): Units
    requires s != []
  {
    if |s| >= 2 && High(s[0]) && Low(s[1]) then s[2..] else s[1..]
  }

  lemma UnicodeEscapeInjective(u: Unit, w: Unit)
    requires UnicodeEscape(u) == UnicodeEscape(w)
    ensures u == w
  {
    var a, b := UnicodeEscape(u), UnicodeEscape(w);
    assert a[2] == b[2] && a[3] == b[3] && a[4] == b[4] && a[5] == b[5];
    assert u / 4096 == w / 4096 && u / 256 % 16 == w / 256 % 16 && u / 16 % 16 == w / 16 % 16 && u % 16 == w % 16;
    Digits(u);
    Digits(w);
  }

  lemma Digits(u: Unit)
    ensures u == u / 4096 * 4096 + u / 256 % 16 * 256 + u / 16 % 16 * 16 + u % 16
  {
    assert u / 256 == u / 4096 * 16 + u / 256 % 16;
    assert u / 16 == u / 256 * 16 + u / 16 % 16;
  }

  /** How long a piece is shows in its first two units. */
  lemma PieceLength(s: Units)
    requires s != []
    ensures var p := Piece(s);
            && |p| > 0 && p[0] != QUOTE
            && |p| == (if p[0] == BACKSLASH then (if p[1] == 117 then 6 else 2) else if High(p[0]) then 2 else 1)
  {
  }

  lemma PiecesPrefixFree(s: Units, t: Units, x: Units, y: Units)
    requires s != [] && t != [] && Piece(s) + x == Piece(t) + y
    ensures Piece(s) == Piece(t) && x == y
  {
    PieceLength(s);
    PieceLength(t);
    var p, q := Piece(s), Piece(t);
    assert p[0] == (p + x)[0] == (q + y)[0] == q[0];
    if p[0] == BACKSLASH {
      assert p[1] == (p + x)[1] == (q + y)[1] == q[1];
    }
    assert p == (p + x)[..|p|] && q == (q + y)[..|q|];
    assert x == (p + x)[|p|..] && y == (q + y)[|q|..];
  }

  lemma PieceInjective(s: Units, t: Units)
    requires s != [] && t != [] && Piece(s) == Piece(t) && Rest(s) == Rest(t)
    ensures s == t
  {
    var p, q := Piece(s), Piece(t);
    if |p| == 6 {
      UnicodeEscapeInjective(s[0], t[0]);
    } else if p[0] == BACKSLASH {
      assert p[1] == q[1];
    } else {
      assert p[0] == q[0] && (|p| > 1 ==> p[1] == q[1]);
    }
    if |s| >= 2 && High(s[0]) && Low(s[1]) {
      assert s == s[..2] + s[2..] && t == t[..2] + t[2..];
    } else {
      assert s == [s[0]] + s[1..] && t == [t[0]] + t[1..];
    }
  }

  /** Only the end of the string shows a bare quote. */
  lemma QuotedFirst(s: Units, x: Units)
    ensures (Quoted(s) + [QUOTE] + x)[0] == QUOTE <==> s == []
    ensures s == [] ==> (Quoted(s) + [QUOTE] + x)[1..] == x
    ensures s != [] ==> Quoted(s) + [QUOTE] + x == Piece(s) + (Quoted(Rest(s)) + [QUOTE] + x)
  {
    if s != [] {
      PieceLength(s);
      assert Quoted(s) == Piece(s) + Quoted(Rest(s));
    }
  }

  lemma {:induction false} QuotedPrefixFree(s: Units, t: Units, x: Units, y: Units)
    requires Quoted(s) + [QUOTE] + x == Quoted(t) + [QUOTE] + y
    ensures s == t && x == y
    decreases |s| + |t|
  {
    QuotedFirst(s, x);
    QuotedFirst(t, y);
    if s != [] {
      PiecesPrefixFree(s, t, Quoted(Rest(s)) + [QUOTE] + x, Quoted(Rest(t)) + [QUOTE] + y);
      QuotedPrefixFree(Rest(s), Rest(t), x, y);
      PieceInjective(s, t);
    }
  }

  lemma QuotePrefixFree(s: Units, t: Units, x: Units, y: Units)
    requires Quote(s) + x == Quote(t) + y
    ensures s == t && x == y
  {
    assert (Quote(s) + x)[1..] == Quoted(s) + [QUOTE] + x;
    assert (Quote(t) + y)[1..] == Quoted(t) + [QUOTE] + y;
    QuotedPrefixFree(s, t, x, y);
  }

  // ------------------------------------------------------- values, read back --

  /** What may follow a value inside a text. */
  predicate Delimited(r: Units) {
    r == [] || r[0] == COMMA || r[0] == RBRACKET || r[0] == RBRACE
  }

  datatype Kind = NullKind | TrueKind | FalseKind | NumKind | StrKind | ArrKind | ObjKind | NoValue

  function KindOf(u: Unit): Kind {
    if u == 110 then NullKind else if u == 116 then TrueKind else if u == 102 then FalseKind
    else if 48 <= u <= 57 || u == 45 then NumKind
    else if u == QUOTE then StrKind else if u == LBRACKET then ArrKind else if u == LBRACE then ObjKind else NoValue
  }

  function KindOfValue(v: Json): Kind {
    match v
    case Null => NullKind
    case Bool(b) => if b then TrueKind else FalseKind
    case Num(_) => NumKind
    case Str(_) => StrKind
    case Arr(_) => ArrKind
    case Obj(_) => ObjKind
  }

  lemma FirstUnit(v: Json)
    ensures |Stringify(v)| > 0 && KindOf(Stringify(v)[0]) == KindOfValue(v)
  {
  }

  function Span(t: Units): nat {
    if t == [] || !NumberUnit(t[0]) then 0 else 1 + Span(t[1..])
  }

  lemma {:induction false} SpanOfNumeral(s: Units, x: Units)
    requires (forall k :: 0 <= k < |s| ==> NumberUnit(s[k])) && Delimited(x)
    ensures Span(s + x) == |s|
  {
    if s == [] {
      assert s + x == x;
    } else {
      assert (s + x)[1..] == s[1..] + x;
      SpanOfNumeral(s[1..], x);
    }
  }

  lemma NumeralPrefixFree(s: Numeral, t: Numeral, x: Units, y: Units)
    requires s + x == t + y && Delimited(x) && Delimited(y)
    ensures s == t && x == y
  {
    SpanOfNumeral(s, x);
    SpanOfNumeral(t, y);
    SplitAt(s, t, x, y);
  }

  lemma SplitAt(s: Units, t: Units, x: Units, y: Units)
    requires s + x == t + y && |s| == |t|
    ensures s == t && x == y
  {
    assert s == (s + x)[..|s|] && t == (t + y)[..|t|];
    assert x == (s + x)[|s|..] && y == (t + y)[|t|..];
  }

  lemma Unwrap(open: Unit, s: Units, t: Units, close: Unit, x: Units, y: Units)
    requires [open] + s + [close] + x == [open] + t + [close] + y
    ensures s + [close] + x == t + [close] + y
  {
    assert ([open] + s + [close] + x)[1..] == s + [close] + x;
    assert ([open] + t + [close] + y)[1..] == t + [close] + y;
  }

  ghost predicate SameItems(a: seq<Json>, b: seq<Json>) {
    |a| == |b| && forall k :: 0 <= k < |a| ==> Same(a[k], b[k])
  }

  ghost predicate SameMembers(a: seq<Member>, b: seq<Member>) {
    |a| == |b| && forall k :: 0 <= k < |a| ==> a[k].key == b[k].key && Same(a[k].value, b[k].value)
  }

  /** Members alike in sorted order are alike up to order. */
  lemma SameFromSorted(a: seq<Member>, b: seq<Member>)
    requires SameMembers(Sorted(a), Sorted(b))
    ensures Same(Obj(a), Obj(b))
  {
    if a != [] {
      SortedHas(a, a[0]);
      SortedHas(b, a[0]);
    } else {
      SortedHas(b, Member([], Null));
    }
    forall j | 0 <= j < |a|
      ensures exists k :: 0 <= k < |b| && a[j].key == b[k].key && Same(a[j].value, b[k].value)
    {
      SortedHas(a, a[j]);
      assert Has(a, a[j]);
      var p :| 0 <= p < |Sorted(a)| && Sorted(a)[p] == a[j];
      var m := Sorted(b)[p];
      SortedHas(b, m);
      assert Has(Sorted(b), m);
      var k :| 0 <= k < |b| && b[k] == m;
    }
  }

  lemma SameKind(v: Json, w: Json, x: Units, y: Units)
    requires Stringify(v) + x == Stringify(w) + y
    ensures KindOfValue(v) == KindOfValue(w)
  {
    FirstUnit(v);
    FirstUnit(w);
    assert Stringify(v)[0] == (Stringify(v) + x)[0] == (Stringify(w) + y)[0] == Stringify(w)[0];
  }

  /** The text of a value, with what follows it, determines the value up to member order and what follows. */
  lemma {:induction false} PrefixFree(v: Json, w: Json, x: Units, y: Units)
    requires Stringify(v) + x == Stringify(w) + y && Delimited(x) && Delimited(y)
    ensures Same(v, w) && x == y
    decreases Size(v), 0
  {
    SameKind(v, w, x, y);
    match v
    case Null => SplitAt(NULL_TEXT, NULL_TEXT, x, y);
    case Bool(b) => SplitAt(Stringify(v), Stringify(v), x, y);
    case Num(s) => NumeralPrefixFree(s, w.text, x, y);
    case Str(s) => QuotePrefixFree(s, w.s, x, y);
    case Arr(a) =>
      Unwrap(LBRACKET, JoinItems(a), JoinItems(w.items), RBRACKET, x, y);
      ItemsPrefixFree(a, w.items, x, y);
    case Obj(a) =>
      SortedSize(a);
      Unwrap(LBRACE, JoinMembers(Sorted(a)), JoinMembers(Sorted(w.members)), RBRACE, x, y);
      MembersPrefixFree(Sorted(a), Sorted(w.members), x, y);
      SameFromSorted(a, w.members);
  }

  /** What follows the first of several joined texts, the closing bracket included. */
  function Tail(more: bool, rest: Units, close: Unit, x: Units): Units {
    (if more then [COMMA] + rest else []) + [close] + x
  }

  lemma TailsAgree(m: bool, n: bool, r: Units, q: Units, close: Unit, x: Units, y: Units)
    requires Tail(m, r, close, x) == Tail(n, q, close, y) && close != COMMA
    ensures m == n
    ensures if m then r + [close] + x == q + [close] + y else x == y
  {
    var s, t := Tail(m, r, close, x), Tail(n, q, close, y);
    assert s[0] == t[0];
    assert s[1..] == (if m then r + [close] + x else x);
    assert t[1..] == (if n then q + [close] + y else y);
  }

  /** Regrouping the parts of a joined text. */
  lemma Regroup(first: Units, more: bool, rest: Units, close: Unit, x: Units)
    ensures first + (if more then [COMMA] + rest else []) + [close] + x == first + Tail(more, rest, close, x)
  {
  }

  lemma JoinStep(items: seq<Json>)
    requires items != []
    ensures JoinItems(items) == Stringify(items[0]) + (if |items| > 1 then [COMMA] + JoinItems(items[1..]) else [])
  {
  }

  lemma ItemsFirst(a: seq<Json>, x: Units)
    requires a != []
    ensures JoinItems(a) + [RBRACKET] + x == Stringify(a[0]) + Tail(|a| > 1, JoinItems(a[1..]), RBRACKET, x)
  {
    JoinStep(a);
    Regroup(Stringify(a[0]), |a| > 1, JoinItems(a[1..]), RBRACKET, x);
  }

  predicate IsClose(t: Units, close: Unit) {
    |t| > 0 && t[0] == close
  }

  lemma AfterClose(close: Unit, x: Units)
    ensures IsClose([] + [close] + x, close) && ([] + [close] + x)[1..] == x
  {
    assert [] + [close] + x == [close] + x;
  }

  lemma NotClose(first: Units, t: Units, close: Unit)
    requires |first| > 0 && first[0] != close
    ensures !IsClose(first + t, close)
  {
    assert (first + t)[0] == first[0];
  }

  /** Only an empty list shows its closing bracket at once. */
  lemma ItemsEmpty(a: seq<Json>, x: Units)
    ensures IsClose(JoinItems(a) + [RBRACKET] + x, RBRACKET) <==> a == []
    ensures a == [] ==> (JoinItems(a) + [RBRACKET] + x)[1..] == x
  {
    if a == [] {
      AfterClose(RBRACKET, x);
    } else {
      FirstUnit(a[0]);
      ItemsFirst(a, x);
      NotClose(Stringify(a[0]), Tail(|a| > 1, JoinItems(a[1..]), RBRACKET, x), RBRACKET);
    }
  }

  lemma {:induction false} ItemsPrefixFree(a: seq<Json>, b: seq<Json>, x: Units, y: Units)
    requires JoinItems(a) + [RBRACKET] + x == JoinItems(b) + [RBRACKET] + y
    ensures SameItems(a, b) && x == y
    decreases SizeAll(a), 1
  {
    ItemsEmpty(a, x);
    ItemsEmpty(b, y);
    if a != [] {
      ItemsFirst(a, x);
      ItemsFirst(b, y);
      PrefixFree(a[0], b[0], Tail(|a| > 1, JoinItems(a[1..]), RBRACKET, x),
                 Tail(|b| > 1, JoinItems(b[1..]), RBRACKET, y));
      TailsAgree(|a| > 1, |b| > 1, JoinItems(a[1..]), JoinItems(b[1..]), RBRACKET, x, y);
      if |a| > 1 {
        ItemsPrefixFree(a[1..], b[1..], x, y);
      }
      SameItemsCons(a, b);
    }
  }

  lemma SameItemsCons(a: seq<Json>, b: seq<Json>)
    requires a != [] && b != [] && Same(a[0], b[0])
    requires SameItems(a[1..], b[1..])
    ensures SameItems(a, b)
  {
    forall k | 0 <= k < |a| ensures Same(a[k], b[k]) {
      if k > 0 {
        assert a[k] == a[1..][k - 1] && b[k] == b[1..][k - 1];
      }
    }
  }

  lemma RegroupMember(key: Units, value: Units, more: bool, rest: Units, close: Unit, x: Units)
    ensures key + [COLON] + value + (if more then [COMMA] + rest else []) + [close] + x
         == key + ([COLON] + (value + Tail(more, rest, close, x)))
  {
    Regroup(key + [COLON] + value, more, rest, close, x);
    var t := Tail(more, rest, close, x);
    assert key + [COLON] + value + t == key + ([COLON] + (value + t));
  }

  lemma JoinMemberStep(ms: seq<Member>)
    requires ms != []
    ensures JoinMembers(ms) == Quote(ms[0].key) + [COLON] + Stringify(ms[0].value)
                               + (if |ms| > 1 then [COMMA] + JoinMembers(ms[1..]) else [])
  {
  }

  lemma MembersFirst(a: seq<Member>, x: Units)
    requires a != []
    ensures JoinMembers(a) + [RBRACE] + x
         == Quote(a[0].key) + ([COLON] + (Stringify(a[0].value) + Tail(|a| > 1, JoinMembers(a[1..]), RBRACE, x)))
  {
    JoinMemberStep(a);
    RegroupMember(Quote(a[0].key), Stringify(a[0].value), |a| > 1, JoinMembers(a[1..]), RBRACE, x);
  }

  lemma MembersEmpty(a: seq<Member>, x: Units)
    ensures IsClose(JoinMembers(a) + [RBRACE] + x, RBRACE) <==> a == []
    ensures a == [] ==> (JoinMembers(a) + [RBRACE] + x)[1..] == x
  {
    if a == [] {
      AfterClose(RBRACE, x);
    } else {
      MembersFirst(a, x);
      NotClose(Quote(a[0].key), [COLON] + (Stringify(a[0].value) + Tail(|a| > 1, JoinMembers(a[1..]), RBRACE, x)),
               RBRACE);
    }
  }

  lemma {:induction false} MembersPrefixFree(a: seq<Member>, b: seq<Member>, x: Units, y: Units)
    requires JoinMembers(a) + [RBRACE] + x == JoinMembers(b) + [RBRACE] + y
    ensures SameMembers(a, b) && x == y
    decreases SizeMembers(a), 1
  {
    MembersEmpty(a, x);
    MembersEmpty(b, y);
    if a != [] {
      MembersFirst(a, x);
      MembersFirst(b, y);
      var s := Stringify(a[0].value) + Tail(|a| > 1, JoinMembers(a[1..]), RBRACE, x);
      var t := Stringify(b[0].value) + Tail(|b| > 1, JoinMembers(b[1..]), RBRACE, y);
      QuotePrefixFree(a[0].key, b[0].key, [COLON] + s, [COLON] + t);
      SplitAt([COLON], [COLON], s, t);
      PrefixFree(a[0].value, b[0].value, Tail(|a| > 1, JoinMembers(a[1..]), RBRACE, x),
                 Tail(|b| > 1, JoinMembers(b[1..]), RBRACE, y));
      TailsAgree(|a| > 1, |b| > 1, JoinMembers(a[1..]), JoinMembers(b[1..]), RBRACE, x, y);
      if |a| > 1 {
        MembersPrefixFree(a[1..], b[1..], x, y);
      }
      SameMembersCons(a, b);
    }
  }

  lemma SameMembersCons(a: seq<Member>, b: seq<Member>)
    requires a != [] && b != [] && a[0].key == b[0].key && Same(a[0].value, b[0].value)
    requires SameMembers(a[1..], b[1..])
    ensures SameMembers(a, b)
  {
    forall k | 0 <= k < |a| ensures a[k].key == b[k].key && Same(a[k].value, b[k].value) {
      if k > 0 {
        assert a[k] == a[1..][k - 1] && b[k] == b[1..][k - 1];
      }
    }
  }

  // ----------------------------------------------------------- order-blind --

  ghost predicate KeyIn(key: Units, ms: seq<Member>) {
    exists n :: 0 <= n < |ms| && key == ms[n].key
  }

  ghost predicate KeysWithin(a: seq<Member>, b: seq<Member>) {
    forall i :: 0 <= i < |a| ==> KeyIn(a[i].key, b)
  }

  /**
   * In two increasing lists of one length, where each key of the first is in the second, keys stand at the same
   * place.
   */
  lemma {:induction false} NotBefore(a: seq<Member>, b: seq<Member>, j: nat, k: nat)
    requires Increasing(a) && Increasing(b) && j < |a| && k < |b| && a[j].key == b[k].key
    requires KeysWithin(a, b)
    ensures j <= k
    decreases j
  {
    if j > 0 {
      assert KeyIn(a[j - 1].key, b);
      var n :| 0 <= n < |b| && a[j - 1].key == b[n].key;
      NotBefore(a, b, j - 1, n);
      assert Less(b[n].key, b[k].key);
      LessIrreflexive(b[n].key);
      if k < n {
        LessTransitive(b[n].key, b[k].key, b[n].key);
      }
    }
  }

  lemma {:induction false} NotAfter(a: seq<Member>, b: seq<Member>, j: nat, k: nat)
    requires Increasing(a) && Increasing(b) && |a| == |b| && j < |a| && k < |b| && a[j].key == b[k].key
    requires KeysWithin(a, b)
    ensures k <= j
    decreases |a| - j
  {
    if j + 1 < |a| {
      assert KeyIn(a[j + 1].key, b);
      var n :| 0 <= n < |b| && a[j + 1].key == b[n].key;
      NotAfter(a, b, j + 1, n);
      assert Less(b[k].key, b[n].key);
      LessIrreflexive(b[n].key);
      if n < k {
        LessTransitive(b[k].key, b[n].key, b[k].key);
        LessIrreflexive(b[k].key);
      }
    }
  }

  ghost predicate Partner(m: Member, n: Member) {
    m.key == n.key && Same(m.value, n.value)
  }

  lemma PartnerInSorted(a: seq<Member>, b: seq<Member>, j: nat) returns (n: nat)
    requires Same(Obj(a), Obj(b)) && j < |Sorted(a)|
    ensures n < |Sorted(b)| && Partner(Sorted(a)[j], Sorted(b)[n])
  {
    var s, t := Sorted(a), Sorted(b);
    SortedHas(a, s[j]);
    assert Has(s, s[j]);
    var i :| 0 <= i < |a| && a[i] == s[j];
    var k :| 0 <= k < |b| && a[i].key == b[k].key && Same(a[i].value, b[k].value);
    SortedHas(b, b[k]);
    assert Has(b, b[k]);
    n :| 0 <= n < |t| && t[n] == b[k];
  }

  lemma SortedLength(ms: seq<Member>)
    ensures |Sorted(ms)| == |ms|
  {
    SortedHas(ms, Member([], Null));
  }

  lemma KeyInSorted(a: seq<Member>, b: seq<Member>, j: nat)
    requires Same(Obj(a), Obj(b)) && j < |Sorted(a)|
    ensures KeyIn(Sorted(a)[j].key, Sorted(b))
  {
    var n := PartnerInSorted(a, b, j);
  }

  lemma SortedKeysWithin(a: seq<Member>, b: seq<Member>)
    requires Same(Obj(a), Obj(b))
    ensures KeysWithin(Sorted(a), Sorted(b))
  {
    forall j: nat | j < |Sorted(a)| ensures KeyIn(Sorted(a)[j].key, Sorted(b)) {
      KeyInSorted(a, b, j);
    }
  }

  lemma SamePlace(s: seq<Member>, t: seq<Member>, j: nat, n: nat)
    requires Increasing(s) && Increasing(t) && |s| == |t| && KeysWithin(s, t)
    requires j < |s| && n < |t| && s[j].key == t[n].key
    ensures j == n
  {
    NotBefore(s, t, j, n);
    NotAfter(s, t, j, n);
  }

  lemma SortedFromSame(a: seq<Member>, b: seq<Member>)
    requires Same(Obj(a), Obj(b)) && DistinctKeys(a) && DistinctKeys(b)
    ensures SameMembers(Sorted(a), Sorted(b))
  {
    var s, t := Sorted(a), Sorted(b);
    SortedIncreasing(a);
    SortedIncreasing(b);
    SortedKeysWithin(a, b);
    SortedLength(a);
    SortedLength(b);
    forall j | 0 <= j < |s| ensures Partner(s[j], t[j]) {
      var n := PartnerInSorted(a, b, j);
      SamePlace(s, t, j, n);
    }
  }

  lemma {:induction false} SameText(v: Json, w: Json)
    requires Same(v, w) && WellFormed(v) && WellFormed(w)
    ensures Stringify(v) == Stringify(w)
    decreases Size(v), 0
  {
    match v
    case Arr(a) => SameItemsText(a, w.items);
    case Obj(a) =>
      var b := w.members;
      SortedFromSame(a, b);
      SortedSize(a);
      SortedWellFormed(a);
      SortedWellFormed(b);
      SameMembersText(Sorted(a), Sorted(b));
    case _ =>
  }

  lemma SortedWellFormed(ms: seq<Member>)
    requires forall k :: 0 <= k < |ms| ==> WellFormed(ms[k].value)
    ensures forall k :: 0 <= k < |Sorted(ms)| ==> WellFormed(Sorted(ms)[k].value)
  {
    forall k | 0 <= k < |Sorted(ms)| ensures WellFormed(Sorted(ms)[k].value) {
      SortedHas(ms, Sorted(ms)[k]);
      assert Has(Sorted(ms), Sorted(ms)[k]);
    }
  }

  lemma {:induction false} SameItemsText(a: seq<Json>, b: seq<Json>)
    requires SameItems(a, b)
    requires forall k :: 0 <= k < |a| ==> WellFormed(a[k]) && WellFormed(b[k])
    ensures JoinItems(a) == JoinItems(b)
    decreases SizeAll(a), 1
  {
    if a != [] {
      SameText(a[0], b[0]);
      SameItemsText(a[1..], b[1..]);
    }
  }

  lemma {:induction false} SameMembersText(a: seq<Member>, b: seq<Member>)
    requires SameMembers(a, b)
    requires forall k :: 0 <= k < |a| ==> WellFormed(a[k].value) && WellFormed(b[k].value)
    ensures JoinMembers(a) == JoinMembers(b)
    decreases SizeMembers(a), 1
  {
    if a != [] {
      SameText(a[0].value, b[0].value);
      SameMembersText(a[1..], b[1..]);
    }
  }

  /** Two JSON values have the same text exactly when they are equal up to the order of object members. */
  lemma TextIsCanonical(v: Json, w: Json)
    requires WellFormed(v) && WellFormed(w)
    ensures Stringify(v) == Stringify(w) <==> Same(v, w)
  {
    if Stringify(v) == Stringify(w) {
      PrefixFree(v, w, [], []);
    }
    if Same(v, w) {
      SameText(v, w);
    }
  }
}
