/** The server's casting state of a book, and the status per character that the client derives from it. */
module Casting {
  import opened Base
  import opened Voice

  datatype Reason = NoAssignment | AssignmentNotApproved

  datatype Blocked = Blocked(character: Id, reason: Reason)

  datatype CastingState = CastingState(ready: bool, speakingCount: nat, assignedCount: nat, approvedCount: nat,
                                       blocking: seq<Blocked>)

  predicate NeedsVoice(characters: map<Id, Character>, book: Id, c: Id) {
    c in characters && characters[c].book == book && characters[c].speaking && !characters[c].merged
  }

  /** The rows of `findMany`: every speaking, unmerged character of the book once, in any order. */
  ghost predicate SpeakingRows(characters: map<Id, Character>, book: Id, rows: seq<Id>) {
    && (forall j, k :: 0 <= j < k < |rows| ==> rows[j] != rows[k])
    && (forall c :: NeedsVoice(characters, book, c) <==> c in rows)
  }

  /** Every active assignment of these characters once, in any order. */
  ghost predicate AssignmentRows(t: Assignments, rows: seq<Id>, found: seq<Id>) {
    && (forall j, k :: 0 <= j < k < |found| ==> found[j] != found[k])
    && (forall k :: 0 <= k < |found| ==> found[k] in t)
    && (forall i :: i in t && t[i].active && t[i].character in rows <==> i in found)
  }

  /** An assignment row refers to an existing version. */
  ghost predicate Linked(profiles: Profiles, t: Assignments) {
    forall i :: i in t && t[i].active ==> t[i].profile in profiles && t[i].version in profiles[t[i].profile].versions
  }

  ghost predicate HasVoice(t: Assignments, c: Id) {
    exists i :: i in t && t[i].active && t[i].character == c
  }

  ghost predicate HasApprovedVoice(profiles: Profiles, t: Assignments, c: Id) {
    exists i :: i in t && t[i].active && t[i].character == c && Bound(profiles, t[i])
  }

  ghost function ReasonFor(profiles: Profiles, t: Assignments, c: Id): Option<Reason> {
    if HasApprovedVoice(profiles, t, c) then None
    else if HasVoice(t, c) then Some(AssignmentNotApproved)
    else Some(NoAssignment)
  }

  ghost function BlockingOf(profiles: Profiles, t: Assignments, rows: seq<Id>): seq<Blocked> {
    if rows == [] then []
    else
      var c := rows[|rows| - 1];
      var r := ReasonFor(profiles, t, c);
      BlockingOf(profiles, t, rows[..|rows| - 1]) + if r.Some? then [Blocked(c, r.value)] else []
  }

  /** `new Map(assignments.map((a) => [a.characterId, a]))`. */
  method ByCharacter(t: Assignments, found: seq<Id>) returns (m: map<Id, Id>)
    requires OneActive(t) && forall k :: 0 <= k < |found| ==> found[k] in t && t[found[k]].active
    ensures forall c :: c in m ==> m[c] in found && t[m[c]].character == c
    ensures forall k :: 0 <= k < |found| ==> t[found[k]].character in m
  {
    m := map[];
    for k := 0 to |found|
      invariant forall c :: c in m ==> m[c] in found && m[c] in t && t[m[c]].character == c
      invariant forall j :: 0 <= j < k ==> t[found[j]].character in m
    {
      m := m[t[found[k]].character := found[k]];
    }
  }

  lemma FoundReason(profiles: Profiles, t: Assignments, rows: seq<Id>, found: seq<Id>, m: map<Id, Id>, c: Id)
    requires OneActive(t) && Linked(profiles, t) && AssignmentRows(t, rows, found) && c in rows
    requires forall d :: d in m ==> m[d] in found && t[m[d]].character == d
    requires forall k :: 0 <= k < |found| ==> t[found[k]].character in m
    ensures c !in m ==> ReasonFor(profiles, t, c) == Some(NoAssignment)
    ensures c in m ==> m[c] in t && t[m[c]].active && t[m[c]].profile in profiles
                       && t[m[c]].version in profiles[t[m[c]].profile].versions
    ensures c in m ==> ReasonFor(profiles, t, c)
                       == if InProduction(profiles[t[m[c]].profile].versions[t[m[c]].version].approval) then None
                          else Some(AssignmentNotApproved)
  {
    if c in m {
      assert t[m[c]].active && t[m[c]].character == c;
    }
  }

  method GetCastingState(profiles: Profiles, t: Assignments, rows: seq<Id>, found: seq<Id>) returns (r: CastingState)
    requires OneActive(t) && Linked(profiles, t) && AssignmentRows(t, rows, found)
    ensures r.blocking == BlockingOf(profiles, t, rows)
    ensures r.ready <==> r.blocking == []
    ensures r.speakingCount == |rows| == r.approvedCount + |r.blocking| && r.assignedCount == |found|
  {
    var assignmentByCharacter := ByCharacter(t, found);
    var blocking: seq<Blocked> := [];
    var approvedCount := 0;
    for k := 0 to |rows|
      invariant blocking == BlockingOf(profiles, t, rows[..k])
      invariant approvedCount + |blocking| == k
    {
      var c := rows[k];
      FoundReason(profiles, t, rows, found, assignmentByCharacter, c);
      assert rows[..k + 1][..k] == rows[..k];
      if c !in assignmentByCharacter {
        blocking := blocking + [Blocked(c, NoAssignment)];
      } else {
        var a := t[assignmentByCharacter[c]];
        if !InProduction(profiles[a.profile].versions[a.version].approval) {
          blocking := blocking + [Blocked(c, AssignmentNotApproved)];
        } else {
          approvedCount := approvedCount + 1;
        }
      }
    }
    assert rows[..|rows|] == rows;
    r := CastingState(blocking == [], |rows|, |found|, approvedCount, blocking);
  }

  // ---------------------------------------------------------------- client --

  datatype Status = NotRequired | NoVoice | VoiceNotApproved | Ready | Unknown

  ghost predicate LastEntry(blocking: seq<Blocked>, c: Id, r: Reason, k: nat) {
    k < |blocking| && blocking[k] == Blocked(c, r) && forall j :: k < j < |blocking| ==> blocking[j].character != c
  }

  /** The index holds, per character, the reason of its last entry. */
  ghost predicate Indexes(index: map<Id, Reason>, blocking: seq<Blocked>) {
    && (forall c :: c in index ==> exists k :: LastEntry(blocking, c, index[c], k))
    && (forall k :: 0 <= k < |blocking| ==> blocking[k].character in index)
  }

  lemma IndexesMore(index: map<Id, Reason>, blocking: seq<Blocked>, b: Blocked)
    requires Indexes(index, blocking)
    ensures Indexes(index[b.character := b.reason], blocking + [b])
  {
    var next, all := index[b.character := b.reason], blocking + [b];
    forall c | c in next ensures exists k :: LastEntry(all, c, next[c], k) {
      if c == b.character {
        assert LastEntry(all, c, next[c], |blocking|);
      } else {
        var k :| LastEntry(blocking, c, index[c], k);
        assert LastEntry(all, c, next[c], k);
      }
    }
  }

  method BuildCastingIndex(casting: Option<CastingState>) returns (index: map<Id, Reason>)
    ensures Indexes(index, if casting.Some? then casting.value.blocking else [])
  {
    index := map[];
    if casting.Some? {
      var blocking := casting.value.blocking;
      for k := 0 to |blocking|
        invariant Indexes(index, blocking[..k])
      {
        assert blocking[..k + 1] == blocking[..k] + [blocking[k]];
        IndexesMore(index, blocking[..k], blocking[k]);
        index := index[blocking[k].character := blocking[k].reason];
      }
      assert blocking[..|blocking|] == blocking;
    }
  }

  function StatusFor(index: map<Id, Reason>, loaded: bool, c: Id, speaking: bool): Status {
    if !speaking then NotRequired
    else if !loaded then Unknown
    else if c !in index then Ready
    else if index[c] == NoAssignment then NoVoice
    else VoiceNotApproved
  }

  // ------------------------------------------------------------- agreement --

  ghost predicate Entry(b: seq<Blocked>, c: Id, r: Reason) {
    exists k :: 0 <= k < |b| && b[k] == Blocked(c, r)
  }

  lemma EntryMore(b: seq<Blocked>, x: Blocked, c: Id, r: Reason)
    ensures Entry(b + [x], c, r) <==> Entry(b, c, r) || x == Blocked(c, r)
  {
    if k :| 0 <= k < |b| && b[k] == Blocked(c, r) {
      assert (b + [x])[k] == Blocked(c, r);
    }
    if x == Blocked(c, r) {
      assert (b + [x])[|b|] == Blocked(c, r);
    }
  }

  lemma {:induction false} BlockingEntries(profiles: Profiles, t: Assignments, rows: seq<Id>, c: Id, r: Reason)
    ensures Entry(BlockingOf(profiles, t, rows), c, r) <==> c in rows && ReasonFor(profiles, t, c) == Some(r)
  {
    if rows != [] {
      var front, last := rows[..|rows| - 1], rows[|rows| - 1];
      BlockingEntries(profiles, t, front, c, r);
      assert c in rows <==> c in front || c == last;
      var reason := ReasonFor(profiles, t, last);
      if reason.Some? {
        EntryMore(BlockingOf(profiles, t, front), Blocked(last, reason.value), c, r);
      } else {
        assert BlockingOf(profiles, t, rows) == BlockingOf(profiles, t, front);
      }
    }
  }

  lemma ReachableReason(s: State, c: Id)
    requires Inv(s)
    ensures ReasonFor(s.profiles, s.assignments, c) == if HasVoice(s.assignments, c) then None else Some(NoAssignment)
  {
    if i :| i in s.assignments && s.assignments[i].active && s.assignments[i].character == c {
      assert Bound(s.profiles, s.assignments[i]);
    }
  }

  /** What a speaking character shows, from its last blocking entry: ready without one, else by the entry's reason. */
  lemma StatusIs(blocking: seq<Blocked>, index: map<Id, Reason>, c: Id)
    requires Indexes(index, blocking)
    ensures StatusFor(index, true, c, true) == Ready <==> forall k :: 0 <= k < |blocking| ==> blocking[k].character != c
    ensures forall r, k: nat :: LastEntry(blocking, c, r, k) ==>
              StatusFor(index, true, c, true) == if r == NoAssignment then NoVoice else VoiceNotApproved
  {
    if c in index {
      var k :| LastEntry(blocking, c, index[c], k);
    }
  }

  /**
   * In every reachable state the client shows a speaking character as ready exactly when it is merged away or has an
   * active assignment, as without a voice otherwise, and never an unapproved voice. A silent one needs none, and before
   * the answer is there nothing is known.
   */
  lemma ClientAgrees(s: State, book: Id, rows: seq<Id>, index: map<Id, Reason>, loaded: bool, c: Id)
    requires Inv(s) && SpeakingRows(s.characters, book, rows)
    requires loaded ==> Indexes(index, BlockingOf(s.profiles, s.assignments, rows))
    requires c in s.characters && s.characters[c].book == book
    ensures StatusFor(index, loaded, c, s.characters[c].speaking)
         == if !s.characters[c].speaking then NotRequired
            else if !loaded then Unknown
            else if s.characters[c].merged || HasVoice(s.assignments, c) then Ready else NoVoice
  {
    var b := BlockingOf(s.profiles, s.assignments, rows);
    ReachableReason(s, c);
    BlockingEntries(s.profiles, s.assignments, rows, c, NoAssignment);
    BlockingEntries(s.profiles, s.assignments, rows, c, AssignmentNotApproved);
    if loaded && c in index {
      var k :| LastEntry(b, c, index[c], k);
      assert Entry(b, c, index[c]);
    }
  }

  /** Generation may start exactly when every speaking, unmerged character has an active assignment. */
  lemma ReadyIffAllVoiced(s: State, book: Id, rows: seq<Id>)
    requires Inv(s) && SpeakingRows(s.characters, book, rows)
    ensures BlockingOf(s.profiles, s.assignments, rows) == []
            <==> forall c | c in s.characters ::
                   s.characters[c].book == book && s.characters[c].speaking && !s.characters[c].merged ==>
                     HasVoice(s.assignments, c)
  {
    var b := BlockingOf(s.profiles, s.assignments, rows);
    assert forall c :: c in rows <==> NeedsVoice(s.characters, book, c);
    forall c | c in rows ensures HasVoice(s.assignments, c) || b != [] {
      ReachableReason(s, c);
      BlockingEntries(s.profiles, s.assignments, rows, c, NoAssignment);
    }
    if b != [] {
      BlockingEntries(s.profiles, s.assignments, rows, b[0].character, b[0].reason);
      ReachableReason(s, b[0].character);
    }
  }

  // ---------------------------------------------------------------- counts --

  ghost function Voiced(t: Assignments, rows: seq<Id>): set<Id> {
    set c | c in rows && HasVoice(t, c)
  }

  lemma VoicedStep(t: Assignments, rows: seq<Id>, front: seq<Id>, last: Id)
    requires rows == front + [last] && last !in front
    ensures |Voiced(t, rows)| == |Voiced(t, front)| + if HasVoice(t, last) then 1 else 0
  {
    var v, w := Voiced(t, rows), Voiced(t, front);
    assert last in rows;
    assert forall c :: c in rows <==> c in front || c == last;
    assert v == if HasVoice(t, last) then w + {last} else w;
  }

  lemma {:induction false} UnblockedAreVoiced(s: State, rows: seq<Id>)
    requires Inv(s) && forall j, k :: 0 <= j < k < |rows| ==> rows[j] != rows[k]
    ensures |rows| == |Voiced(s.assignments, rows)| + |BlockingOf(s.profiles, s.assignments, rows)|
  {
    if rows != [] {
      var front, last := rows[..|rows| - 1], rows[|rows| - 1];
      UnblockedAreVoiced(s, front);
      ReachableReason(s, last);
      VoicedStep(s.assignments, rows, front, last);
    }
  }

  ghost function CharactersOf(t: Assignments, found: seq<Id>): set<Id>
    requires forall k :: 0 <= k < |found| ==> found[k] in t
  {
    set k | 0 <= k < |found| :: t[found[k]].character
  }

  lemma CharactersMore(t: Assignments, front: seq<Id>, last: Id)
    requires OneActive(t) && last in t && t[last].active && last !in front
    requires forall k :: 0 <= k < |front| ==> front[k] in t && t[front[k]].active
    ensures |CharactersOf(t, front + [last])| == |CharactersOf(t, front)| + 1
  {
    var found := front + [last];
    forall c | c in CharactersOf(t, front) ensures c in CharactersOf(t, found) {
      var k :| 0 <= k < |front| && t[front[k]].character == c;
      assert found[k] == front[k];
    }
    assert found[|front|] == last;
    assert CharactersOf(t, found) == CharactersOf(t, front) + {t[last].character};
  }

  lemma {:induction false} OneEach(t: Assignments, found: seq<Id>)
    requires OneActive(t) && (forall j, k :: 0 <= j < k < |found| ==> found[j] != found[k])
    requires forall k :: 0 <= k < |found| ==> found[k] in t && t[found[k]].active
    ensures |CharactersOf(t, found)| == |found|
  {
    if found != [] {
      var front, last := found[..|found| - 1], found[|found| - 1];
      OneEach(t, front);
      assert found == front + [last];
      CharactersMore(t, front, last);
    }
  }

  /** In every reachable state the assigned and the approved characters are counted alike. */
  lemma AssignedAreApproved(s: State, book: Id, rows: seq<Id>, found: seq<Id>)
    requires Inv(s) && SpeakingRows(s.characters, book, rows) && AssignmentRows(s.assignments, rows, found)
    ensures |found| == |rows| - |BlockingOf(s.profiles, s.assignments, rows)|
  {
    var t := s.assignments;
    UnblockedAreVoiced(s, rows);
    forall k | 0 <= k < |found| ensures t[found[k]].active && t[found[k]].character in rows {
      assert found[k] in found;
    }
    OneEach(t, found);
    forall c | c in Voiced(t, rows) ensures c in CharactersOf(t, found) {
      var i :| i in t && t[i].active && t[i].character == c;
      assert i in found;
    }
    assert CharactersOf(t, found) == Voiced(t, rows);
  }
}
