/** The ingestion quality report: four checks over a book's chapters and pages, and the worst of their outcomes. */
module QualityReport {
  import opened Base
  import opened Texts

  datatype Chapter = Chapter(orderIndex: int, paragraphs: seq<Units>)

  datatype Page = Page(number: int, ok: bool)

  datatype Outcome = Pass | Warn | NeedsReview

  datatype Check = Check(outcome: Outcome, chapters: seq<int>, missing: seq<int>)

  function Rank(o: Outcome): nat {
    match o case Pass => 0 case Warn => 1 case NeedsReview => 2
  }

  // ---------------------------------------------------------------- sorting --

  function Insert(n: int, sorted: seq<int>): seq<int> {
    if sorted == [] || n <= sorted[0] then [n] + sorted else [sorted[0]] + Insert(n, sorted[1..])
  }

  /** `sort((a, b) => a - b)`. */
  function Sorted(s: seq<int>): seq<int> {
    if s == [] then [] else Insert(s[0], Sorted(s[1..]))
  }

  ghost predicate Ascending(s: seq<int>) {
    forall j, k :: 0 <= j < k < |s| ==> s[j] <= s[k]
  }

  ghost predicate Once(s: seq<int>) {
    forall j, k :: 0 <= j < k < |s| ==> s[j] != s[k]
  }

  lemma {:induction false} InsertOnce(n: int, sorted: seq<int>)
    requires Once(sorted) && n !in sorted
    ensures Once(Insert(n, sorted))
  {
    if sorted != [] && n > sorted[0] {
      var r := Insert(n, sorted[1..]);
      InsertOnce(n, sorted[1..]);
      InsertBag(n, sorted[1..]);
      forall k | 0 <= k < |r| ensures sorted[0] != r[k] {
        assert r[k] in multiset(r);
      }
    }
  }

  lemma {:induction false} SortedOnce(s: seq<int>)
    requires Once(s)
    ensures Once(Sorted(s))
  {
    if s != [] {
      SortedOnce(s[1..]);
      SortedMembers(s[1..]);
      InsertOnce(s[0], Sorted(s[1..]));
    }
  }

  lemma {:induction false} InsertBag(n: int, sorted: seq<int>)
    ensures multiset(Insert(n, sorted)) == multiset{n} + multiset(sorted)
  {
    if sorted != [] && n > sorted[0] {
      InsertBag(n, sorted[1..]);
      assert sorted == [sorted[0]] + sorted[1..];
    }
  }

  lemma InsertHolds(n: int, sorted: seq<int>, x: int)
    ensures x in Insert(n, sorted) ==> x == n || x in sorted
  {
    InsertBag(n, sorted);
    assert x in Insert(n, sorted) ==> x in multiset(Insert(n, sorted));
  }

  lemma {:induction false} InsertAscending(n: int, sorted: seq<int>)
    requires Ascending(sorted)
    ensures Ascending(Insert(n, sorted))
  {
    if sorted != [] && n > sorted[0] {
      var r := Insert(n, sorted[1..]);
      InsertAscending(n, sorted[1..]);
      forall k | 0 <= k < |r| ensures sorted[0] <= r[k] {
        InsertHolds(n, sorted[1..], r[k]);
      }
      assert Insert(n, sorted) == [sorted[0]] + r;
    }
  }

  lemma {:induction false} SortedFacts(s: seq<int>)
    ensures Ascending(Sorted(s)) && multiset(Sorted(s)) == multiset(s)
  {
    if s != [] {
      SortedFacts(s[1..]);
      InsertBag(s[0], Sorted(s[1..]));
      InsertAscending(s[0], Sorted(s[1..]));
      assert s == [s[0]] + s[1..];
    }
  }

  lemma SortedMembers(s: seq<int>)
    ensures |Sorted(s)| == |s| && forall n :: n in Sorted(s) <==> n in s
  {
    SortedFacts(s);
    assert |multiset(Sorted(s))| == |Sorted(s)| && |multiset(s)| == |s|;
    forall n ensures n in Sorted(s) <==> n in s {
      assert n in multiset(Sorted(s)) <==> n in multiset(s);
    }
  }

  // ------------------------------------------------- duplicate paragraphs --

  /** One paragraph of the book with the chapter it stands in. */
  datatype Place = Place(chapter: int, text: Units)

  function PlacesIn(c: Chapter, n: nat): seq<Place>
    requires n <= |c.paragraphs|
  {
    seq(n, k requires 0 <= k < n => Place(c.orderIndex, c.paragraphs[k]))
  }

  /** All paragraphs of the book in reading order. */
  function Places(chapters: seq<Chapter>): seq<Place> {
    if chapters == [] then []
    else
      var last := chapters[|chapters| - 1];
      Places(chapters[..|chapters| - 1]) + PlacesIn(last, |last.paragraphs|)
  }

  predicate Long(t: Units) {
    |t| >= 40
  }

  /** The place holds a long paragraph that some other place holds too. */
  ghost predicate Repeated(places: seq<Place>, k: int) {
    && 0 <= k < |places| && Long(places[k].text)
    && exists j :: 0 <= j < |places| && j != k && places[j].text == places[k].text
  }

  /** The chapter at this order index contains a repeated paragraph. */
  ghost predicate Affected(places: seq<Place>, chapter: int) {
    exists k :: Repeated(places, k) && places[k].chapter == chapter
  }

  /** The first place of a text. */
  ghost predicate FirstPlace(places: seq<Place>, t: Units, k: int) {
    0 <= k < |places| && places[k].text == t && forall j :: 0 <= j < k ==> places[j].text != t
  }

  /** The map knows the long texts of these places, each with the chapter of its first place. */
  ghost predicate Knows(seen: map<Units, int>, places: seq<Place>) {
    && (forall t :: t in seen ==> Long(t) && exists k :: FirstPlace(places, t, k) && places[k].chapter == seen[t])
    && (forall k :: 0 <= k < |places| && Long(places[k].text) ==> places[k].text in seen)
  }

  /** `add` on a JavaScript set, which keeps its members in the order they came. */
  function Added(s: seq<int>, n: int): (r: seq<int>)
    ensures Once(s) ==> Once(r)
    ensures forall m :: m in r <==> m in s || m == n
  {
    if n in s then s else s + [n]
  }

  ghost predicate Lists(affected: seq<int>, places: seq<Place>) {
    forall c :: c in affected <==> Affected(places, c)
  }

  lemma RepeatedMore(places: seq<Place>, p: Place, k: int)
    requires 0 <= k < |places|
    ensures Repeated(places + [p], k) <==> Repeated(places, k) || (Long(p.text) && places[k].text == p.text)
  {
    var more := places + [p];
    if Repeated(places, k) {
      var j :| 0 <= j < |places| && j != k && places[j].text == places[k].text;
      assert more[j].text == more[k].text;
    }
    if Long(p.text) && places[k].text == p.text {
      assert more[|places|].text == more[k].text;
    }
  }

  lemma RepeatedLast(places: seq<Place>, p: Place)
    ensures Repeated(places + [p], |places|)
            <==> Long(p.text) && exists j :: 0 <= j < |places| && places[j].text == p.text
  {
    var more := places + [p];
    if j :| 0 <= j < |places| && places[j].text == p.text {
      assert more[j].text == more[|places|].text;
    }
  }

  lemma ShortStep(seen: map<Units, int>, affected: seq<int>, places: seq<Place>, p: Place)
    requires Knows(seen, places) && Lists(affected, places) && !Long(p.text)
    ensures Knows(seen, places + [p]) && Lists(affected, places + [p])
  {
    KnowsMore(seen, places, p);
    forall c ensures Affected(places + [p], c) <==> Affected(places, c) {
      AffectedMore(places, p, c);
      RepeatedLast(places, p);
    }
  }

  /** A further place changes nothing about the first place of a text that has one. */
  lemma KnowsMore(seen: map<Units, int>, places: seq<Place>, p: Place)
    requires Knows(seen, places) && (Long(p.text) ==> p.text in seen)
    ensures Knows(seen, places + [p])
  {
    var more := places + [p];
    forall t | t in seen ensures exists k :: FirstPlace(more, t, k) && more[k].chapter == seen[t] {
      var k :| FirstPlace(places, t, k) && places[k].chapter == seen[t];
      assert FirstPlace(more, t, k) && more[k].chapter == seen[t];
    }
  }

  lemma AffectedMore(places: seq<Place>, p: Place, c: int)
    ensures Affected(places + [p], c)
            <==> Affected(places, c) || (Repeated(places + [p], |places|) && p.chapter == c)
                 || (Long(p.text)
                     && exists k :: 0 <= k < |places| && places[k].text == p.text && places[k].chapter == c)
  {
    var more := places + [p];
    if Affected(more, c) {
      var k :| Repeated(more, k) && more[k].chapter == c;
      if k < |places| {
        RepeatedMore(places, p, k);
      }
    }
    if k :| Repeated(places, k) && places[k].chapter == c {
      RepeatedMore(places, p, k);
      assert Repeated(more, k) && more[k].chapter == c;
    }
    if Repeated(more, |places|) && p.chapter == c {
      assert more[|places|].chapter == c;
    }
    if k :| 0 <= k < |places| && places[k].text == p.text && places[k].chapter == c && Long(p.text) {
      RepeatedMore(places, p, k);
      assert Repeated(more, k) && more[k].chapter == c;
    }
  }

  /** The text is known: its first place and this one are affected, and every place between already was. */
  lemma KnownStep(seen: map<Units, int>, affected: seq<int>, places: seq<Place>, p: Place)
    requires Knows(seen, places) && Lists(affected, places) && p.text in seen
    ensures Knows(seen, places + [p]) && Lists(Added(Added(affected, seen[p.text]), p.chapter), places + [p])
  {
    KnowsMore(seen, places, p);
    var f :| FirstPlace(places, p.text, f) && places[f].chapter == seen[p.text];
    RepeatedLast(places, p);
    forall c ensures c in Added(Added(affected, seen[p.text]), p.chapter) <==> Affected(places + [p], c) {
      AffectedMore(places, p, c);
      OtherPlaces(places, p.text, f, c);
    }
  }

  lemma OtherPlaces(places: seq<Place>, t: Units, f: int, c: int)
    requires FirstPlace(places, t, f) && Long(t)
    ensures (exists k :: 0 <= k < |places| && places[k].text == t && places[k].chapter == c)
            ==> c == places[f].chapter || Affected(places, c)
  {
    if k :| 0 <= k < |places| && places[k].text == t && places[k].chapter == c {
      if k != f {
        assert places[f].text == places[k].text;
        assert Repeated(places, k);
      }
    }
  }

  lemma NewStep(seen: map<Units, int>, affected: seq<int>, places: seq<Place>, p: Place)
    requires Knows(seen, places) && Lists(affected, places) && Long(p.text) && p.text !in seen
    ensures Knows(seen[p.text := p.chapter], places + [p]) && Lists(affected, places + [p])
  {
    var more, next := places + [p], seen[p.text := p.chapter];
    forall t | t in next ensures Long(t) && exists k :: FirstPlace(more, t, k) && more[k].chapter == next[t] {
      if t == p.text {
        assert FirstPlace(more, t, |places|) && more[|places|].chapter == next[t];
      } else {
        var k :| FirstPlace(places, t, k) && places[k].chapter == seen[t];
        assert FirstPlace(more, t, k) && more[k].chapter == next[t];
      }
    }
    RepeatedLast(places, p);
    forall c ensures c in affected <==> Affected(more, c) {
      AffectedMore(places, p, c);
    }
  }

  /** What the loops keep about the places read so far. */
  ghost predicate Scanned(seen: map<Units, int>, affected: seq<int>, places: seq<Place>) {
    Knows(seen, places) && Lists(affected, places) && Once(affected)
  }

  /** One paragraph of the nested loops. */
  method Scan(seen: map<Units, int>, affected: seq<int>, p: Place, ghost places: seq<Place>)
    returns (nextSeen: map<Units, int>, nextAffected: seq<int>)
    requires Scanned(seen, affected, places)
    ensures Scanned(nextSeen, nextAffected, places + [p])
  {
    if |p.text| < 40 {
      ShortStep(seen, affected, places, p);
      return seen, affected;
    }
    if p.text in seen {
      KnownStep(seen, affected, places, p);
      return seen, Added(Added(affected, seen[p.text]), p.chapter);
    }
    NewStep(seen, affected, places, p);
    return seen[p.text := p.chapter], affected;
  }

  /** The inner loop. */
  method ScanChapter(seen: map<Units, int>, affected: seq<int>, chapter: Chapter, ghost places: seq<Place>)
    returns (nextSeen: map<Units, int>, nextAffected: seq<int>)
    requires Scanned(seen, affected, places)
    ensures Scanned(nextSeen, nextAffected, places + PlacesIn(chapter, |chapter.paragraphs|))
  {
    nextSeen, nextAffected := seen, affected;
    assert places + PlacesIn(chapter, 0) == places;
    for j := 0 to |chapter.paragraphs|
      invariant Scanned(nextSeen, nextAffected, places + PlacesIn(chapter, j))
    {
      var p := Place(chapter.orderIndex, chapter.paragraphs[j]);
      assert places + PlacesIn(chapter, j) + [p] == places + PlacesIn(chapter, j + 1);
      nextSeen, nextAffected := Scan(nextSeen, nextAffected, p, places + PlacesIn(chapter, j));
    }
  }

  lemma SortedList(affected: seq<int>, places: seq<Place>)
    requires Lists(affected, places) && Once(affected)
    ensures Ascending(Sorted(affected)) && Once(Sorted(affected))
    ensures |Sorted(affected)| == |affected| && forall c :: c in Sorted(affected) <==> Affected(places, c)
  {
    SortedFacts(affected);
    SortedMembers(affected);
    SortedOnce(affected);
  }

  /**
   * Flags exactly the chapters that contain a paragraph of 40 or more units found at two or more places of the book.
   */
  method CheckDuplicateParagraphs(chapters: seq<Chapter>) returns (r: Check)
    ensures Ascending(r.chapters) && Once(r.chapters)
    ensures forall c :: c in r.chapters <==> Affected(Places(chapters), c)
    ensures r.outcome == if r.chapters != [] then Warn else Pass
  {
    var seen: map<Units, int> := map[];
    var affected: seq<int> := [];
    for i := 0 to |chapters|
      invariant Scanned(seen, affected, Places(chapters[..i]))
    {
      assert chapters[..i + 1][..i] == chapters[..i];
      seen, affected := ScanChapter(seen, affected, chapters[i], Places(chapters[..i]));
    }
    assert chapters[..|chapters|] == chapters;
    SortedList(affected, Places(chapters));
    r := Check(if |affected| > 0 then Warn else Pass, Sorted(affected), []);
  }

  // ---------------------------------------------------------- page coverage --

  function Numbers(pages: seq<Page>): (r: seq<int>)
    ensures |r| == |pages| && forall k :: 0 <= k < |r| ==> r[k] == pages[k].number
  {
    if pages == [] then [] else [pages[0].number] + Numbers(pages[1..])
  }

  /** The page is one that must be there: a number from 1 to the largest present. */
  ghost predicate Expected(numbers: seq<int>, n: int) {
    1 <= n && exists k :: 0 <= k < |numbers| && n <= numbers[k]
  }

  lemma LastIsLargest(numbers: seq<int>)
    requires numbers != []
    ensures var s := Sorted(numbers);
            |s| > 0 && s[|s| - 1] in numbers && forall k :: 0 <= k < |numbers| ==> numbers[k] <= s[|s| - 1]
  {
    var s := Sorted(numbers);
    SortedFacts(numbers);
    SortedMembers(numbers);
    assert s[|s| - 1] in s;
    forall k | 0 <= k < |numbers| ensures numbers[k] <= s[|s| - 1] {
      assert numbers[k] in numbers && numbers[k] in s;
      var j :| 0 <= j < |s| && s[j] == numbers[k];
    }
  }

  predicate AllOk(pages: seq<Page>) {
    forall k :: 0 <= k < |pages| ==> pages[k].ok
  }

  lemma ExpectedUpTo(numbers: seq<int>, last: int)
    requires numbers == [] ==> last == 0
    requires numbers != [] ==> last in numbers && forall k :: 0 <= k < |numbers| ==> numbers[k] <= last
    ensures forall m :: Expected(numbers, m) <==> 1 <= m <= last
  {
    forall m ensures Expected(numbers, m) <==> 1 <= m <= last {
      if 1 <= m <= last {
        var k :| 0 <= k < |numbers| && numbers[k] == last;
      }
    }
  }

  /** The numbers from 1 up to n that are not covered, in order. */
  ghost predicate MissingBelow(missing: seq<int>, covered: set<int>, n: int) {
    && (forall m :: m in missing <==> 1 <= m < n && m !in covered)
    && (forall j, k :: 0 <= j < k < |missing| ==> missing[j] < missing[k])
  }

  lemma MissingMore(missing: seq<int>, covered: set<int>, n: int)
    requires MissingBelow(missing, covered, n) && n >= 1
    ensures MissingBelow(if n in covered then missing else missing + [n], covered, n + 1)
  {
    forall k | 0 <= k < |missing| ensures missing[k] < n {
      assert missing[k] in missing;
    }
  }

  /** Reports exactly the numbers from 1 to the largest that no page has, in order. */
  method CheckPageCoverage(pages: seq<Page>) returns (r: Check)
    ensures forall n :: n in r.missing <==> Expected(Numbers(pages), n) && n !in Numbers(pages)
    ensures forall j, k :: 0 <= j < k < |r.missing| ==> r.missing[j] < r.missing[k]
    ensures r.outcome == if r.missing != [] then NeedsReview else if !AllOk(pages) then Warn else Pass
    ensures r.chapters == []
  {
    var pageNumbers := Sorted(Numbers(pages));
    SortedMembers(Numbers(pages));
    var maxPage := if |pageNumbers| > 0 then pageNumbers[|pageNumbers| - 1] else 0;
    if |pages| > 0 {
      LastIsLargest(Numbers(pages));
    }
    var covered := set n | n in pageNumbers;
    var missing: seq<int> := [];
    var n := 1;
    while n <= maxPage
      invariant n >= 1 && (maxPage >= 1 ==> n <= maxPage + 1) && (maxPage < 1 ==> n == 1)
      invariant MissingBelow(missing, covered, n)
    {
      MissingMore(missing, covered, n);
      if n !in covered {
        missing := missing + [n];
      }
      n := n + 1;
    }
    ExpectedUpTo(Numbers(pages), maxPage);
    r := Check(if missing != [] then NeedsReview else if !AllOk(pages) then Warn else Pass, [], missing);
  }

  /** Order and repeats of pages do not matter: two scans over the same page numbers miss the same pages. */
  lemma CoverageIgnoresOrder(a: seq<int>, b: seq<int>, n: int)
    requires forall m :: m in a <==> m in b
    ensures Expected(a, n) && n !in a <==> Expected(b, n) && n !in b
  {
    if Expected(a, n) {
      var k :| 0 <= k < |a| && n <= a[k];
      assert a[k] in b;
    }
    if Expected(b, n) {
      var k :| 0 <= k < |b| && n <= b[k];
      assert b[k] in a;
    }
  }

  // -------------------------------------------------------------- the report --

  /** The share of characters kept, an exact quotient. */
  function CheckContentLossRatio(raw: nat, normalized: nat): Check {
    if raw == 0 then Check(Pass, [], [])
    else
      var retained := normalized as real / raw as real;
      Check(if retained < 0.4 then NeedsReview else if retained < 0.7 then Warn else Pass, [], [])
  }

  function EmptyChapters(chapters: seq<Chapter>): (r: seq<int>)
    ensures forall n ::
              n in r <==> exists k :: 0 <= k < |chapters| && chapters[k].paragraphs == [] && chapters[k].orderIndex == n
  {
    if chapters == [] then []
    else
      var rest := EmptyChapters(chapters[1..]);
      assert forall k :: 0 <= k < |chapters[1..]| ==> chapters[1..][k] == chapters[k + 1];
      if chapters[0].paragraphs == [] then [chapters[0].orderIndex] + rest else rest
  }

  function CheckEmptyChapters(chapters: seq<Chapter>): Check {
    var empty := EmptyChapters(chapters);
    Check(if |empty| > 0 then NeedsReview else Pass, empty, [])
  }

  /** The outcome is the worst of all: some check has it, unless it is PASS, and none is above it. */
  ghost predicate IsWorst(o: Outcome, checks: seq<Check>) {
    && (o == Pass || exists k :: 0 <= k < |checks| && checks[k].outcome == o)
    && forall k :: 0 <= k < |checks| ==> Rank(checks[k].outcome) <= Rank(o)
  }

  /** Something in the book calls for a review. */
  ghost predicate Alarming(chapters: seq<Chapter>, raw: nat, normalized: nat, pages: Option<seq<Page>>) {
    || 5 * normalized < 2 * raw
    || (exists k :: 0 <= k < |chapters| && chapters[k].paragraphs == [])
    || (pages.Some? && exists n :: Expected(Numbers(pages.value), n) && n !in Numbers(pages.value))
  }

  /** Something is worth a warning. */
  ghost predicate Doubtful(chapters: seq<Chapter>, raw: nat, normalized: nat, pages: Option<seq<Page>>) {
    || 10 * normalized < 7 * raw
    || (exists c :: Affected(Places(chapters), c))
    || (pages.Some? && exists k :: 0 <= k < |pages.value| && !pages.value[k].ok)
  }

  lemma LossIs(raw: nat, normalized: nat)
    ensures CheckContentLossRatio(raw, normalized).outcome
         == if 5 * normalized < 2 * raw then NeedsReview else if 10 * normalized < 7 * raw then Warn else Pass
  {
    if raw > 0 {
      Below(normalized as real, raw as real, 0.4);
      Below(normalized as real, raw as real, 0.7);
    }
  }

  lemma Below(x: real, y: real, t: real)
    requires y > 0.0
    ensures x / y < t <==> x < t * y
  {
    var q := x / y;
    assert q * y == x;
    if q < t {
      assert (t - q) * y > 0.0;
    } else {
      assert (q - t) * y >= 0.0;
    }
  }

  lemma EmptyIs(chapters: seq<Chapter>)
    ensures CheckEmptyChapters(chapters).outcome
         == if exists k :: 0 <= k < |chapters| && chapters[k].paragraphs == [] then NeedsReview else Pass
  {
    var empty := EmptyChapters(chapters);
    if k :| 0 <= k < |chapters| && chapters[k].paragraphs == [] {
      assert chapters[k].orderIndex in empty;
    }
    if empty != [] {
      assert empty[0] in empty;
    }
  }

  method BuildQualityReport(chapters: seq<Chapter>, raw: nat, normalized: nat, pages: Option<seq<Page>>)
    returns (outcome: Outcome, checks: seq<Check>)
    ensures IsWorst(outcome, checks)
    ensures |checks| == if pages.Some? then 4 else 3
    ensures outcome == if Alarming(chapters, raw, normalized, pages) then NeedsReview
                       else if Doubtful(chapters, raw, normalized, pages) then Warn
                       else Pass
  {
    var duplicates := CheckDuplicateParagraphs(chapters);
    checks := [CheckContentLossRatio(raw, normalized), CheckEmptyChapters(chapters), duplicates];
    LossIs(raw, normalized);
    EmptyIs(chapters);
    FlaggedIff(Places(chapters), duplicates.chapters);
    if pages.Some? {
      var coverage := CheckPageCoverage(pages.value);
      MissingIff(Numbers(pages.value), coverage.missing);
      checks := checks + [coverage];
    }
    outcome := Worst(checks);
    WorstIs(outcome, checks);
    forall o: Outcome ensures SomeIs(checks, o) <==> OneIs(checks, o) {
      SomeIsOne(checks, o);
    }
  }

  /** `SomeIs` for three or four checks. */
  ghost predicate OneIs(checks: seq<Check>, o: Outcome) {
    || (|checks| > 0 && checks[0].outcome == o) || (|checks| > 1 && checks[1].outcome == o)
    || (|checks| > 2 && checks[2].outcome == o) || (|checks| > 3 && checks[3].outcome == o)
  }

  lemma SomeIsOne(checks: seq<Check>, o: Outcome)
    requires |checks| <= 4
    ensures SomeIs(checks, o) <==> OneIs(checks, o)
  {
  }

  ghost predicate SomeIs(checks: seq<Check>, o: Outcome) {
    exists k :: 0 <= k < |checks| && checks[k].outcome == o
  }

  lemma WorstIs(o: Outcome, checks: seq<Check>)
    requires IsWorst(o, checks)
    ensures o == if SomeIs(checks, NeedsReview) then NeedsReview else if SomeIs(checks, Warn) then Warn else Pass
  {
  }

  lemma FlaggedIff(places: seq<Place>, flagged: seq<int>)
    requires forall c :: c in flagged <==> Affected(places, c)
    ensures flagged != [] <==> exists c :: Affected(places, c)
  {
    if flagged != [] {
      assert flagged[0] in flagged;
      assert Affected(places, flagged[0]);
    }
  }

  lemma MissingIff(numbers: seq<int>, missing: seq<int>)
    requires forall n :: n in missing <==> Expected(numbers, n) && n !in numbers
    ensures missing != [] <==> exists n :: Expected(numbers, n) && n !in numbers
  {
    if missing != [] {
      assert missing[0] in missing;
      assert Expected(numbers, missing[0]);
    }
  }

  /** The reduce over the checks. */
  method Worst(checks: seq<Check>) returns (worst: Outcome)
    ensures IsWorst(worst, checks)
  {
    worst := Pass;
    for k := 0 to |checks|
      invariant IsWorst(worst, checks[..k])
    {
      ghost var before := worst;
      if Rank(checks[k].outcome) > Rank(worst) {
        worst := checks[k].outcome;
      }
      WorstStep(before, worst, checks[..k], checks[k]);
      assert checks[..k + 1] == checks[..k] + [checks[k]];
    }
    assert checks[..|checks|] == checks;
  }

  lemma WorstStep(before: Outcome, after: Outcome, checks: seq<Check>, c: Check)
    requires IsWorst(before, checks)
    requires after == if Rank(c.outcome) > Rank(before) then c.outcome else before
    ensures IsWorst(after, checks + [c])
  {
    var more := checks + [c];
    if after != Pass {
      if after == before {
        var k :| 0 <= k < |checks| && checks[k].outcome == before;
        assert more[k].outcome == after;
      } else {
        assert more[|checks|].outcome == after;
      }
    }
  }
}
