/** A reader of JSON text (RFC 8259), written apart from the printer, and what it reads from the printer's text. */
module JsonText {
  import opened Texts
  import opened CanonicalJson

  datatype Parsed<T> = Got(value: T, rest: Units) | Fail

  // -------------------------------------------------------------- strings --

  /** The value of a hexadecimal digit, or -1. */
  function HexValue(u: Unit): int {
    if 48 <= u <= 57 then u - 48 else if 97 <= u <= 102 then u - 87 else if 65 <= u <= 70 then u - 55 else -1
  }

  /** The unit a backslash and one letter stand for, or -1. */
  function Unescaped(u: Unit): int {
    if u == 34 || u == 92 || u == 47 then u
    else if u == 98 then 8
    else if u == 102 then 12
    else if u == 110 then 10
    else if u == 114 then 13
    else if u == 116 then 9
    else -1
  }

  /** `\uXXXX`. */
  function ReadHex(t: Units): (r: Parsed<Unit>)
    requires |t| >= 2
    ensures r.Got? ==> |r.rest| < |t|
  {
    if |t| < 6 || HexValue(t[2]) < 0 || HexValue(t[3]) < 0 || HexValue(t[4]) < 0 || HexValue(t[5]) < 0 then Fail
    else Got(4096 * HexValue(t[2]) + 256 * HexValue(t[3]) + 16 * HexValue(t[4]) + HexValue(t[5]), t[6..])
  }

  function ReadUnit(t: Units): (r: Parsed<Unit>)
    ensures r.Got? ==> |r.rest| < |t|
  {
    if t == [] || t[0] < 32 || t[0] == QUOTE then Fail
    else if t[0] != BACKSLASH then Got(t[0], t[1..])
    else if |t| < 2 then Fail
    else if t[1] == 117 then ReadHex(t)
    else if Unescaped(t[1]) >= 0 then Got(Unescaped(t[1]), t[2..])
    else Fail
  }

  /** What follows the opening quote, up to the closing one. */
  function ReadString(t: Units): (r: Parsed<Units>)
    ensures r.Got? ==> |r.rest| < |t|
    decreases |t|
  {
    if t == [] then Fail
    else if t[0] == QUOTE then Got([], t[1..])
    else
      var u := ReadUnit(t);
      if u.Fail? then Fail
      else
        var r := ReadString(u.rest);
        if r.Fail? then Fail else Got([u.value] + r.value, r.rest)
  }

  // --------------------------------------------------------------- values --

  function ReadWord(t: Units, word: Units, v: Json): (r: Parsed<Json>)
    requires word != []
    ensures r.Got? ==> |r.rest| < |t|
  {
    if |word| <= |t| && t[..|word|] == word then Got(v, t[|word|..]) else Fail
  }

  /** The longest run of the units numbers are made of. */
  function ReadNumeral(t: Units): (r: Parsed<Json>)
    ensures r.Got? ==> |r.rest| < |t|
  {
    var n := Span(t);
    if n <= |t| && IsNumeral(t[..n]) then Got(Num(t[..n]), t[n..]) else Fail
  }

  function ReadValue(t: Units): (r: Parsed<Json>)
    ensures r.Got? ==> |r.rest| < |t|
    decreases |t|, 1
  {
    if t == [] then Fail
    else match KindOf(t[0])
      case NullKind => ReadWord(t, [110, 117, 108, 108], Null)
      case TrueKind => ReadWord(t, [116, 114, 117, 101], Bool(true))
      case FalseKind => ReadWord(t, [102, 97, 108, 115, 101], Bool(false))
      case NumKind => ReadNumeral(t)
      case StrKind =>
        var r := ReadString(t[1..]);
        if r.Fail? then Fail else Got(Str(r.value), r.rest)
      case ArrKind => ReadArr(t[1..])
      case ObjKind => ReadObj(t[1..])
      case NoValue => Fail
  }

  /** What follows an opening bracket. */
  function ReadArr(t: Units): (r: Parsed<Json>)
    ensures r.Got? ==> |r.rest| < |t|
    decreases |t|, 3
  {
    if t != [] && t[0] == RBRACKET then Got(Arr([]), t[1..])
    else
      var r := ReadItems(t);
      if r.Fail? then Fail else Got(Arr(r.value), r.rest)
  }

  function ReadObj(t: Units): (r: Parsed<Json>)
    ensures r.Got? ==> |r.rest| < |t|
    decreases |t|, 3
  {
    if t != [] && t[0] == RBRACE then Got(Obj([]), t[1..])
    else
      var r := ReadMembers(t);
      if r.Fail? then Fail else Got(Obj(r.value), r.rest)
  }

  /** One value or more, with commas between, and the closing bracket. */
  function ReadItems(t: Units): (r: Parsed<seq<Json>>)
    ensures r.Got? ==> |r.rest| < |t|
    decreases |t|, 2
  {
    var v := ReadValue(t);
    if v.Fail? || v.rest == [] then Fail
    else if v.rest[0] == RBRACKET then Got([v.value], v.rest[1..])
    else if v.rest[0] != COMMA then Fail
    else
      var r := ReadItems(v.rest[1..]);
      if r.Fail? then Fail else Got([v.value] + r.value, r.rest)
  }

  /** A quoted key and a colon. */
  function ReadKey(t: Units): (r: Parsed<Units>)
    ensures r.Got? ==> |r.rest| < |t|
  {
    if t == [] || t[0] != QUOTE then Fail
    else
      var k := ReadString(t[1..]);
      if k.Fail? || k.rest == [] || k.rest[0] != COLON then Fail else Got(k.value, k.rest[1..])
  }

  function ReadMembers(t: Units): (r: Parsed<seq<Member>>)
    ensures r.Got? ==> |r.rest| < |t|
    decreases |t|, 2
  {
    var k := ReadKey(t);
    if k.Fail? then Fail
    else
      var v := ReadValue(k.rest);
      if v.Fail? || v.rest == [] then Fail
      else if v.rest[0] == RBRACE then Got([Member(k.value, v.value)], v.rest[1..])
      else if v.rest[0] != COMMA then Fail
      else
        var r := ReadMembers(v.rest[1..]);
        if r.Fail? then Fail else Got([Member(k.value, v.value)] + r.value, r.rest)
  }

  // ------------------------------------------------- reading printed strings --

  lemma ReadPlain(u: Unit, x: Units)
    requires u >= 32 && u != QUOTE && u != BACKSLASH
    ensures ReadUnit([u] + x) == Got(u, x)
  {
    assert ([u] + x)[1..] == x;
  }

  lemma ReadShort(letter: Unit, x: Units)
    requires Unescaped(letter) >= 0
    ensures ReadUnit([BACKSLASH, letter] + x) == Got(Unescaped(letter), x)
  {
    var t := [BACKSLASH, letter] + x;
    assert t[0] == BACKSLASH && t[1] == letter && t[2..] == x;
  }

  lemma HexRead(n: nat)
    requires n < 16
    ensures HexValue(HexDigit(n)) == n
  {
  }

  lemma ReadUnicode(u: Unit, x: Units)
    ensures ReadUnit(UnicodeEscape(u) + x) == Got(u, x)
  {
    var t := UnicodeEscape(u) + x;
    HexRead(u / 4096);
    HexRead(u / 256 % 16);
    HexRead(u / 16 % 16);
    HexRead(u % 16);
    Digits(u);
    assert t[0] == BACKSLASH && t[1] == 117 && t[6..] == x;
    assert t[2] == HexDigit(u / 4096) && t[3] == HexDigit(u / 256 % 16);
    assert t[4] == HexDigit(u / 16 % 16) && t[5] == HexDigit(u % 16);
  }

  lemma ReadEscape(u: Unit, x: Units)
    ensures ReadUnit(Escape(u) + x) == Got(u, x)
  {
    if |Escape(u)| == 6 {
      ReadUnicode(u, x);
    } else if |Escape(u)| == 2 {
      ReadShort(Escape(u)[1], x);
    } else {
      ReadPlain(u, x);
    }
  }

  /** One unit more in front. */
  lemma ReadsOn(u: Unit, t: Units, rest: Units, s: Units, x: Units)
    requires t != [] && t[0] != QUOTE && ReadUnit(t) == Got(u, rest) && ReadString(rest) == Got(s, x)
    ensures ReadString(t) == Got([u] + s, x)
  {
  }

  lemma ReadsPair(high: Unit, low: Unit, t: Units, s: Units, x: Units)
    requires High(high) && Low(low) && ReadString(t) == Got(s, x)
    ensures ReadString([high, low] + t) == Got([high, low] + s, x)
  {
    var second := [low] + t;
    ReadPlain(low, t);
    ReadsOn(low, second, t, s, x);
    ReadPlain(high, second);
    ReadsOn(high, [high] + second, second, [low] + s, x);
    assert [high, low] + t == [high] + second && [high, low] + s == [high] + ([low] + s);
  }

  lemma ReadsPiece(s: Units, t: Units, x: Units)
    requires s != [] && ReadString(t) == Got(Rest(s), x)
    ensures ReadString(Piece(s) + t) == Got(s, x)
  {
    if |s| >= 2 && High(s[0]) && Low(s[1]) {
      ReadsPair(s[0], s[1], t, Rest(s), x);
      assert s[..2] == [s[0], s[1]] && s == [s[0], s[1]] + Rest(s);
    } else {
      PieceLength(s);
      ReadEscape(s[0], t);
      ReadsOn(s[0], Piece(s) + t, t, Rest(s), x);
      assert s == [s[0]] + Rest(s);
    }
  }

  lemma {:induction false} ReadQuoted(s: Units, x: Units)
    ensures ReadString(Quoted(s) + [QUOTE] + x) == Got(s, x)
    decreases |s|
  {
    QuotedFirst(s, x);
    if s != [] {
      ReadQuoted(Rest(s), x);
      ReadsPiece(s, Quoted(Rest(s)) + [QUOTE] + x, x);
    }
  }

  // -------------------------------------------------- reading printed values --

  /** The value with the members of its objects in key order, at every depth. */
  function Arranged(v: Json): Json
    decreases Size(v), 0
  {
    match v
    case Arr(items) => Arr(ArrangedItems(items))
    case Obj(ms) => SortedSize(ms); Obj(ArrangedMembers(Sorted(ms)))
    case _ => v
  }

  function ArrangedItems(items: seq<Json>): seq<Json>
    decreases SizeAll(items), 1
  {
    if items == [] then [] else [Arranged(items[0])] + ArrangedItems(items[1..])
  }

  function ArrangedMembers(ms: seq<Member>): seq<Member>
    decreases SizeMembers(ms), 1
  {
    if ms == [] then [] else [Member(ms[0].key, Arranged(ms[0].value))] + ArrangedMembers(ms[1..])
  }

  lemma ReadsWord(word: Units, v: Json, x: Units)
    requires word != []
    ensures ReadWord(word + x, word, v) == Got(v, x)
  {
    assert (word + x)[..|word|] == word && (word + x)[|word|..] == x;
  }

  lemma ReadsNumeral(t: Numeral, x: Units)
    requires Delimited(x)
    ensures ReadNumeral(t + x) == Got(Num(t), x)
  {
    SpanOfNumeral(t, x);
    assert (t + x)[..|t|] == t && (t + x)[|t|..] == x;
  }

  lemma ReadsQuote(s: Units, x: Units)
    ensures Quote(s) + x == [QUOTE] + (Quoted(s) + [QUOTE] + x)
    ensures (Quote(s) + x)[1..] == Quoted(s) + [QUOTE] + x
    ensures ReadString((Quote(s) + x)[1..]) == Got(s, x)
  {
    ReadQuoted(s, x);
  }

  /** Reading the text of a value, with what follows it, gives the value in key order and what follows. */
  lemma {:induction false} ReadsBack(v: Json, x: Units)
    requires Delimited(x)
    ensures ReadValue(Stringify(v) + x) == Got(Arranged(v), x)
    decreases Size(v), 0
  {
    FirstUnit(v);
    assert (Stringify(v) + x)[0] == Stringify(v)[0];
    match v
    case Null => ReadsWord(NULL_TEXT, Null, x);
    case Bool(b) => ReadsWord(Stringify(v), v, x);
    case Num(t) => ReadsNumeral(t, x);
    case Str(s) => ReadsQuote(s, x);
    case Arr(items) =>
      ArrReadsBack(items, x);
      BracketsFirst(LBRACKET, JoinItems(items), RBRACKET, x);
      ReadsBrackets(JoinItems(items) + [RBRACKET] + x);
    case Obj(ms) =>
      SortedSize(ms);
      ObjReadsBack(Sorted(ms), x);
      BracketsFirst(LBRACE, JoinMembers(Sorted(ms)), RBRACE, x);
      ReadsBrackets(JoinMembers(Sorted(ms)) + [RBRACE] + x);
  }

  lemma ReadsBrackets(inner: Units)
    ensures ReadValue([LBRACKET] + inner) == ReadArr(inner) && ReadValue([LBRACE] + inner) == ReadObj(inner)
  {
    assert ([LBRACKET] + inner)[1..] == inner && ([LBRACE] + inner)[1..] == inner;
  }

  lemma BracketsFirst(open: Unit, inner: Units, close: Unit, x: Units)
    ensures [open] + inner + [close] + x == [open] + (inner + [close] + x)
  {
  }

  lemma {:induction false} ArrReadsBack(items: seq<Json>, x: Units)
    ensures ReadArr(JoinItems(items) + [RBRACKET] + x) == Got(Arr(ArrangedItems(items)), x)
    decreases SizeAll(items), 2
  {
    ItemsEmpty(items, x);
    if items != [] {
      ItemsReadBack(items, x);
    }
  }

  lemma {:induction false} ObjReadsBack(sorted: seq<Member>, x: Units)
    ensures ReadObj(JoinMembers(sorted) + [RBRACE] + x) == Got(Obj(ArrangedMembers(sorted)), x)
    decreases SizeMembers(sorted), 2
  {
    MembersEmpty(sorted, x);
    if sorted != [] {
      MembersReadBack(sorted, x);
    }
  }

  /** The reader's view of the tail after a value. */
  lemma TailIs(more: bool, rest: Units, close: Unit, x: Units)
    ensures var t := Tail(more, rest, close, x);
            t != [] && t[0] == (if more then COMMA else close) && t[1..] == if more then rest + [close] + x else x
  {
    var t := Tail(more, rest, close, x);
    assert more ==> t == [COMMA] + (rest + [close] + x);
    assert !more ==> t == [close] + x;
  }

  lemma {:induction false} ItemsReadBack(a: seq<Json>, x: Units)
    requires a != []
    ensures ReadItems(JoinItems(a) + [RBRACKET] + x) == Got(ArrangedItems(a), x)
    decreases SizeAll(a), 1
  {
    var tail := Tail(|a| > 1, JoinItems(a[1..]), RBRACKET, x);
    ItemsFirst(a, x);
    TailIs(|a| > 1, JoinItems(a[1..]), RBRACKET, x);
    ReadsBack(a[0], tail);
    if |a| > 1 {
      ItemsReadBack(a[1..], x);
    } else {
      assert ArrangedItems(a) == [Arranged(a[0])];
    }
  }

  lemma ReadsKey(key: Units, x: Units)
    ensures ReadKey(Quote(key) + ([COLON] + x)) == Got(key, x)
  {
    ReadsQuote(key, [COLON] + x);
    assert ([COLON] + x)[1..] == x;
  }

  lemma {:induction false} MembersReadBack(a: seq<Member>, x: Units)
    requires a != []
    ensures ReadMembers(JoinMembers(a) + [RBRACE] + x) == Got(ArrangedMembers(a), x)
    decreases SizeMembers(a), 1
  {
    var tail := Tail(|a| > 1, JoinMembers(a[1..]), RBRACE, x);
    MembersFirst(a, x);
    TailIs(|a| > 1, JoinMembers(a[1..]), RBRACE, x);
    ReadsKey(a[0].key, Stringify(a[0].value) + tail);
    ReadsBack(a[0].value, tail);
    if |a| > 1 {
      MembersReadBack(a[1..], x);
    } else {
      assert ArrangedMembers(a) == [Member(a[0].key, Arranged(a[0].value))];
    }
  }

  // -------------------------------------------------------- what arranging is --

  /** The members of every object stand in the order of their keys. */
  ghost predicate InKeyOrder(v: Json) {
    match v
    case Arr(items) => forall k :: 0 <= k < |items| ==> InKeyOrder(items[k])
    case Obj(ms) => Increasing(ms) && forall k :: 0 <= k < |ms| ==> InKeyOrder(ms[k].value)
    case _ => true
  }

  lemma {:induction false} ItemsArranged(items: seq<Json>)
    ensures |ArrangedItems(items)| == |items|
    ensures forall k :: 0 <= k < |items| ==> ArrangedItems(items)[k] == Arranged(items[k])
  {
    if items != [] {
      ItemsArranged(items[1..]);
      forall k | 0 < k < |items| ensures ArrangedItems(items)[k] == Arranged(items[k]) {
        assert items[k] == items[1..][k - 1];
      }
    }
  }

  lemma {:induction false} MembersArranged(ms: seq<Member>)
    ensures |ArrangedMembers(ms)| == |ms|
    ensures forall k :: 0 <= k < |ms| ==> ArrangedMembers(ms)[k] == Member(ms[k].key, Arranged(ms[k].value))
  {
    if ms != [] {
      MembersArranged(ms[1..]);
      forall k | 0 < k < |ms| ensures ArrangedMembers(ms)[k] == Member(ms[k].key, Arranged(ms[k].value)) {
        assert ms[k] == ms[1..][k - 1];
      }
    }
  }

  lemma {:induction false} ArrangedIsSame(v: Json)
    requires WellFormed(v)
    ensures Same(v, Arranged(v)) && InKeyOrder(Arranged(v))
    decreases v
  {
    match v
    case Arr(items) =>
      ItemsArranged(items);
      forall k | 0 <= k < |items| ensures Same(items[k], Arranged(items[k])) && InKeyOrder(Arranged(items[k])) {
        ArrangedIsSame(items[k]);
      }
    case Obj(ms) =>
      forall k | 0 <= k < |ms| ensures Same(ms[k].value, Arranged(ms[k].value)) && InKeyOrder(Arranged(ms[k].value)) {
        ArrangedIsSame(ms[k].value);
      }
      MembersSame(ms);
    case _ =>
  }

  ghost predicate AllSame(ms: seq<Member>) {
    forall k :: 0 <= k < |ms| ==> Same(ms[k].value, Arranged(ms[k].value)) && InKeyOrder(Arranged(ms[k].value))
  }

  lemma SortedAllSame(ms: seq<Member>)
    requires AllSame(ms)
    ensures AllSame(Sorted(ms))
  {
    var s := Sorted(ms);
    forall k | 0 <= k < |s| ensures Same(s[k].value, Arranged(s[k].value)) && InKeyOrder(Arranged(s[k].value)) {
      SortedHas(ms, s[k]);
      assert Has(s, s[k]);
      var j :| 0 <= j < |ms| && ms[j] == s[k];
    }
  }

  /** The place of a member after sorting. */
  lemma PlaceOf(ms: seq<Member>, j: nat) returns (k: nat)
    requires j < |ms|
    ensures k < |Sorted(ms)| && Sorted(ms)[k] == ms[j]
  {
    SortedHas(ms, ms[j]);
    assert Has(ms, ms[j]);
    k :| 0 <= k < |Sorted(ms)| && Sorted(ms)[k] == ms[j];
  }

  lemma MembersInOrder(s: seq<Member>)
    requires Increasing(s) && AllSame(s)
    ensures InKeyOrder(Obj(ArrangedMembers(s)))
  {
    var t := ArrangedMembers(s);
    MembersArranged(s);
    forall j, k | 0 <= j < k < |t| ensures Less(t[j].key, t[k].key) {
      assert Less(s[j].key, s[k].key);
    }
    forall k | 0 <= k < |t| ensures InKeyOrder(t[k].value) {
      assert t[k].value == Arranged(s[k].value);
    }
  }

  lemma MembersSame(ms: seq<Member>)
    requires DistinctKeys(ms) && AllSame(ms)
    ensures Same(Obj(ms), Obj(ArrangedMembers(Sorted(ms)))) && InKeyOrder(Obj(ArrangedMembers(Sorted(ms))))
  {
    var t := ArrangedMembers(Sorted(ms));
    SortedIncreasing(ms);
    SortedAllSame(ms);
    MembersInOrder(Sorted(ms));
    SortedLength(ms);
    MembersArranged(Sorted(ms));
    forall j | 0 <= j < |ms| ensures exists k :: 0 <= k < |t| && Partner(ms[j], t[k]) {
      var k := PlaceOf(ms, j);
      assert Partner(ms[j], t[k]);
    }
    PartnersAreSame(ms, t);
  }

  lemma PartnersAreSame(a: seq<Member>, b: seq<Member>)
    requires |a| == |b| && forall j :: 0 <= j < |a| ==> exists k :: 0 <= k < |b| && Partner(a[j], b[k])
    ensures Same(Obj(a), Obj(b))
  {
    forall j | 0 <= j < |a| ensures exists k :: 0 <= k < |b| && a[j].key == b[k].key && Same(a[j].value, b[k].value) {
      var k :| 0 <= k < |b| && Partner(a[j], b[k]);
      assert a[j].key == b[k].key && Same(a[j].value, b[k].value);
    }
    assert forall j :: 0 <= j < |a| ==>
                         exists k :: 0 <= k < |b| && a[j].key == b[k].key && Same(a[j].value, b[k].value);
  }

  /**
   * The text of a value is JSON: reading it gives the value back, with nothing left over, equal to it up to the order
   * of members, which stand in key order at every depth.
   */
  lemma TextReadsBack(v: Json)
    requires WellFormed(v)
    ensures ReadValue(Stringify(v)) == Got(Arranged(v), [])
    ensures Same(v, Arranged(v)) && InKeyOrder(Arranged(v))
  {
    ReadsBack(v, []);
    assert Stringify(v) + [] == Stringify(v);
    ArrangedIsSame(v);
  }

  /** Of all the ways to write a unit the printer takes a shortest, with small hexadecimal digits, surrogates aside. */
  lemma EscapeIsShortest(u: Unit, t: Units)
    requires ReadUnit(t) == Got(u, [])
    ensures High(u) || Low(u) || |Escape(u)| <= |t|
    ensures |Escape(u)| == 6 ==>
              forall k :: 2 <= k < 6 ==> 48 <= Escape(u)[k] <= 57 || 97 <= Escape(u)[k] <= 102
  {
    assert |t| == 1 || |t| == 2 || |t| == 6;
    assert |t| == 1 ==> t[0] == u;
  }

  ghost predicate DiffersAt(a: Units, b: Units, k: nat) {
    && k <= |a| && k < |b| && a[..k] == b[..k] && (k < |a| ==> a[k] < b[k])
  }

  lemma NotLessAt(a: Units, b: Units, k: nat)
    requires b == [] || (a != [] && b[0] < a[0])
    ensures !DiffersAt(a, b, k)
  {
    if 0 < k <= |a| && k < |b| {
      assert a[..k][0] == a[0] && b[..k][0] == b[0];
    }
  }

  /** The order of keys: by the first unit in which they differ, a prefix before what it begins. */
  lemma {:induction false} LessIff(a: Units, b: Units)
    ensures Less(a, b) <==> exists k: nat :: DiffersAt(a, b, k)
  {
    if b != [] && (a == [] || a[0] < b[0]) {
      assert DiffersAt(a, b, 0);
    } else if b != [] && a[0] == b[0] {
      LessIff(a[1..], b[1..]);
      if k: nat :| DiffersAt(a[1..], b[1..], k) {
        assert a[..k + 1] == [a[0]] + a[1..][..k] && b[..k + 1] == [b[0]] + b[1..][..k];
        assert DiffersAt(a, b, k + 1);
      }
      if k: nat :| DiffersAt(a, b, k) {
        assert k > 0;
        assert a[1..][..k - 1] == a[..k][1..] && b[1..][..k - 1] == b[..k][1..];
        assert DiffersAt(a[1..], b[1..], k - 1);
      }
    } else {
      forall k: nat ensures !DiffersAt(a, b, k) {
        NotLessAt(a, b, k);
      }
    }
  }
}
