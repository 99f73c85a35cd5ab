/** Character aliases of one book, valid in a scope and a range of spine positions, and merges of characters. */
module Aliases {
  import opened Base

  datatype ScopeKind = Global | Chapter | Speaker
  datatype Scope = Scope(kind: ScopeKind, chapter: Option<Id>, speaker: Option<Id>)

  /** `form` is the normalized surface form; an open end of the range is `None`. */
  datatype Alias = Alias(character: Id, form: string, scope: Scope, first: Option<int>, last: Option<int>)

  datatype Character = Character(sentinel: bool, merged: bool, mergedInto: Option<Id>)

  type AliasMap = map<Id, Alias>
  datatype State = State(characters: map<Id, Character>, aliases: AliasMap)

  datatype AliasError = NotFound | AliasConflict | SentinelImmutable | InvalidTransition

  /** -Infinity and Infinity stand for missing ends. */
  predicate AtMost(start: Option<int>, end: Option<int>) {
    start.None? || end.None? || start.value <= end.value
  }

  predicate RangesOverlap(aFrom: Option<int>, aTo: Option<int>, bFrom: Option<int>, bTo: Option<int>) {
    AtMost(aFrom, bTo) && AtMost(bFrom, aTo)
  }

  predicate Covers(a: Alias, position: int) {
    AtMost(a.first, Some(position)) && AtMost(Some(position), a.last)
  }

  ghost predicate SharePosition(a: Alias, b: Alias) {
    exists p: int :: Covers(a, p) && Covers(b, p)
  }

  predicate Reversed(a: Alias) {
    a.first.Some? && a.last.Some? && a.last.value < a.first.value
  }

  /** The test is sound for every range and exact for those that are not reversed; a reversed range covers nothing. */
  lemma OverlapIffShared(a: Alias, b: Alias)
    ensures SharePosition(a, b) <==> RangesOverlap(a.first, a.last, b.first, b.last) && !Reversed(a) && !Reversed(b)
  {
    if RangesOverlap(a.first, a.last, b.first, b.last) && !Reversed(a) && !Reversed(b) {
      var p := if a.first.Some? && (b.first.None? || b.first.value <= a.first.value) then a.first.value
               else if b.first.Some? then b.first.value
               else if a.last.Some? && (b.last.None? || a.last.value <= b.last.value) then a.last.value
               else if b.last.Some? then b.last.value
               else 0;
      assert Covers(a, p) && Covers(b, p);
    }
  }

  // ----------------------------------------------------------------- calls --

  predicate SameKey(a: Alias, b: Alias) {
    a.form == b.form && a.scope == b.scope
  }

  /** A row `findAliasConflict` finds: same form and scope, another character, overlapping ranges. */
  predicate Conflicts(a: Alias, b: Alias) {
    SameKey(a, b) && a.character != b.character && RangesOverlap(a.first, a.last, b.first, b.last)
  }

  ghost predicate HasConflict(aliases: AliasMap, a: Alias) {
    exists i :: i in aliases && Conflicts(a, aliases[i])
  }

  /** Only the id that belongs to the kind of scope is kept. */
  function ScopeOf(kind: ScopeKind, chapter: Option<Id>, speaker: Option<Id>): Scope {
    Scope(kind, if kind == Chapter then chapter else None, if kind == Speaker then speaker else None)
  }

  datatype Call =
    | CreateAlias(character: Id, newId: Id, form: string, kind: ScopeKind, chapter: Option<Id>, speaker: Option<Id>,
                  first: Option<int>, last: Option<int>)
    | DeleteAlias(character: Id, id: Id)
    | MergeCharacters(losing: Id, winning: Id)
    | SplitCharacters(losing: Id, winning: Id)
    | AddCharacter(id: Id, row: Character)

  function NewAlias(c: Call): Alias
    requires c.CreateAlias?
  {
    Alias(c.character, c.form, ScopeOf(c.kind, c.chapter, c.speaker), c.first, c.last)
  }

  ghost predicate Enabled(s: State, c: Call) {
    match c
    case CreateAlias(_, newId, _, _, _, _, _, _) => newId !in s.aliases
    case AddCharacter(id, _) => id !in s.characters
    case _ => true
  }

  function Reassigned(aliases: AliasMap, losing: Id, winning: Id): AliasMap {
    map i | i in aliases ::
      if aliases[i].character == losing then aliases[i].(character := winning) else aliases[i]
  }

  /** What the two checks of a merge or split say. */
  function MergeRefused(characters: map<Id, Character>, losing: Id, winning: Id, merge: bool): Option<AliasError> {
    if losing !in characters || winning !in characters then Some(NotFound)
    else if characters[losing].sentinel || characters[winning].sentinel then Some(SentinelImmutable)
    else if merge && characters[losing].merged then Some(InvalidTransition)
    else None
  }

  ghost function Outcome(s: State, c: Call): Result<State, AliasError>
    requires Enabled(s, c)
  {
    match c
    case CreateAlias(ch, newId, _, _, _, _, _, _) =>
      if ch !in s.characters then Err(NotFound)
      else if HasConflict(s.aliases, NewAlias(c)) then Err(AliasConflict)
      else Ok(s.(aliases := s.aliases[newId := NewAlias(c)]))
    case DeleteAlias(ch, id) =>
      if id in s.aliases && s.aliases[id].character == ch then Ok(s.(aliases := s.aliases - {id})) else Err(NotFound)
    case MergeCharacters(losing, winning) =>
      (match MergeRefused(s.characters, losing, winning, true)
       case Some(e) => Err(e)
       case None => Ok(State(s.characters[losing := s.characters[losing].(merged := true, mergedInto := Some(winning))],
                             Reassigned(s.aliases, losing, winning))))
    case SplitCharacters(losing, winning) =>
      (match MergeRefused(s.characters, losing, winning, false)
       case Some(e) => Err(e)
       case None =>
         Ok(s.(characters := s.characters[losing := s.characters[losing].(merged := false, mergedInto := None)])))
    case AddCharacter(id, row) => Ok(s.(characters := s.characters[id := row]))
  }

  ghost function Apply(s: State, c: Call): State
    requires Enabled(s, c)
  {
    var r := Outcome(s, c);
    if r.Ok? then r.value else s
  }

  ghost function Run(s: State, calls: seq<Call>): State
    decreases |calls|
  {
    if calls == [] then s
    else Run(if Enabled(s, calls[0]) then Apply(s, calls[0]) else s, calls[1..])
  }

  // ------------------------------------------------------------- invariant --

  ghost predicate NoConflicts(aliases: AliasMap) {
    forall i, j :: i in aliases && j in aliases ==> !Conflicts(aliases[i], aliases[j])
  }

  lemma CreateKeeps(aliases: AliasMap, newId: Id, a: Alias)
    requires NoConflicts(aliases) && !HasConflict(aliases, a) && newId !in aliases
    ensures NoConflicts(aliases[newId := a])
  {
    var t := aliases[newId := a];
    forall i, j | i in t && j in t ensures !Conflicts(t[i], t[j]) {
      if i == newId && j != newId {
        assert !Conflicts(a, aliases[j]);
      } else if j == newId && i != newId {
        assert !Conflicts(a, aliases[i]);
      }
    }
  }

  /** After a merge two aliases differ in character only if they did before. */
  lemma MergeKeeps(aliases: AliasMap, losing: Id, winning: Id)
    requires NoConflicts(aliases)
    ensures NoConflicts(Reassigned(aliases, losing, winning))
  {
    var t := Reassigned(aliases, losing, winning);
    forall i, j | i in t && j in t ensures !Conflicts(t[i], t[j]) {
      assert !Conflicts(aliases[i], aliases[j]);
    }
  }

  lemma StepKeeps(s: State, c: Call)
    requires NoConflicts(s.aliases) && Enabled(s, c)
    ensures NoConflicts(Apply(s, c).aliases)
  {
    if Outcome(s, c).Ok? {
      match c
      case CreateAlias(_, newId, _, _, _, _, _, _) => CreateKeeps(s.aliases, newId, NewAlias(c));
      case MergeCharacters(losing, winning) => MergeKeeps(s.aliases, losing, winning);
      case _ =>
    }
  }

  lemma {:induction false} RunKeeps(s: State, calls: seq<Call>)
    requires NoConflicts(s.aliases)
    ensures NoConflicts(Run(s, calls).aliases)
    decreases |calls|
  {
    if calls != [] {
      if Enabled(s, calls[0]) {
        StepKeeps(s, calls[0]);
        RunKeeps(Apply(s, calls[0]), calls[1..]);
      } else {
        RunKeeps(s, calls[1..]);
      }
    }
  }

  /** The characters a form may stand for at a position in a scope. */
  ghost function Resolves(aliases: AliasMap, form: string, scope: Scope, position: int): set<Id> {
    set i | i in aliases && aliases[i].form == form && aliases[i].scope == scope && Covers(aliases[i], position)
      :: aliases[i].character
  }

  ghost predicate AtMostOne(ids: set<Id>) {
    forall c, d :: c in ids && d in ids ==> c == d
  }

  /** In every state reached from an empty table, a form resolves to at most one character at every position. */
  lemma ResolvesToOne(calls: seq<Call>, form: string, scope: Scope, position: int)
    ensures AtMostOne(Resolves(Run(State(map[], map[]), calls).aliases, form, scope, position))
  {
    var aliases := Run(State(map[], map[]), calls).aliases;
    RunKeeps(State(map[], map[]), calls);
    forall c, d | c in Resolves(aliases, form, scope, position) && d in Resolves(aliases, form, scope, position)
      ensures c == d
    {
      OneOwner(aliases, form, scope, position, c, d);
    }
  }

  lemma OneOwner(aliases: AliasMap, form: string, scope: Scope, position: int, c: Id, d: Id)
    requires NoConflicts(aliases)
    requires c in Resolves(aliases, form, scope, position) && d in Resolves(aliases, form, scope, position)
    ensures c == d
  {
    var i :| i in aliases && aliases[i].form == form && aliases[i].scope == scope && Covers(aliases[i], position)
             && aliases[i].character == c;
    var j :| j in aliases && aliases[j].form == form && aliases[j].scope == scope && Covers(aliases[j], position)
             && aliases[j].character == d;
    assert SharePosition(aliases[i], aliases[j]);
    OverlapIffShared(aliases[i], aliases[j]);
    assert !Conflicts(aliases[i], aliases[j]);
  }

  /** A reversed range, whose end lies before its start, clashes with the ranges that cover both its ends. */
  ghost predicate CoversEnds(b: Alias, a: Alias) {
    Reversed(a) && Covers(b, a.first.value) && Covers(b, a.last.value)
  }

  lemma OverlapIffClash(a: Alias, b: Alias)
    ensures RangesOverlap(a.first, a.last, b.first, b.last)
            <==> SharePosition(a, b) || CoversEnds(a, b) || CoversEnds(b, a)
  {
    OverlapIffShared(a, b);
  }

  /**
   * A creation is refused exactly when it would give some position two characters, or a range of another character
   * covers both ends of a reversed one. The service accepts reversed ranges; two of them never clash.
   */
  lemma RefusedIffCollides(s: State, c: Call)
    requires c.CreateAlias? && Enabled(s, c) && c.character in s.characters
    ensures var a := NewAlias(c);
            Outcome(s, c) == Err(AliasConflict)
            <==> exists i :: i in s.aliases && SameKey(a, s.aliases[i]) && s.aliases[i].character != c.character
                             && (SharePosition(a, s.aliases[i]) || CoversEnds(a, s.aliases[i])
                                 || CoversEnds(s.aliases[i], a))
  {
    var a := NewAlias(c);
    forall i | i in s.aliases {
      OverlapIffClash(a, s.aliases[i]);
    }
  }

  /** The scope a creation asks for: a chapter's or a speaker's id only with the kind it belongs to. */
  predicate AsksFor(c: Call, scope: Scope)
    requires c.CreateAlias?
  {
    match c.kind
    case Global => scope == Scope(Global, None, None)
    case Chapter => scope == Scope(Chapter, c.chapter, None)
    case Speaker => scope == Scope(Speaker, None, c.speaker)
  }

  /** Between the ends of the range, a missing one being open. */
  predicate Within(first: Option<int>, last: Option<int>, position: int) {
    (first.Some? ==> first.value <= position) && (last.Some? ==> position <= last.value)
  }

  /** A creation adds its character to what its form stands for, in its scope and range, and changes nothing else. */
  lemma CreateResolves(s: State, c: Call, form: string, scope: Scope, position: int, d: Id)
    requires c.CreateAlias? && Enabled(s, c) && Outcome(s, c).Ok?
    ensures var t := Apply(s, c);
            && c.character in s.characters && t.characters == s.characters
            && t.aliases.Keys == s.aliases.Keys + {c.newId} && t.aliases[c.newId].character == c.character
            && (forall i :: i in s.aliases ==> t.aliases[i] == s.aliases[i])
            && (d in Resolves(t.aliases, form, scope, position)
                <==> d in Resolves(s.aliases, form, scope, position)
                     || (d == c.character && form == c.form && AsksFor(c, scope) && Within(c.first, c.last, position)))
  {
    var t, a := Apply(s, c).aliases, NewAlias(c);
    assert a.scope == scope <==> AsksFor(c, scope);
    assert Covers(a, position) <==> Within(c.first, c.last, position);
    if d == c.character && a.form == form && a.scope == scope && Covers(a, position) {
      assert t[c.newId].form == form;
    }
    if i :| i in s.aliases && s.aliases[i].form == form && s.aliases[i].scope == scope
            && Covers(s.aliases[i], position) && s.aliases[i].character == d {
      assert t[i].form == form;
    }
  }

  /** A deletion takes the character's own alias and no other, and is refused for any other id. */
  lemma DeleteIff(s: State, ch: Id, id: Id)
    ensures var own := id in s.aliases && s.aliases[id].character == ch;
            var r := Outcome(s, DeleteAlias(ch, id));
            && (r.Ok? <==> own) && (r.Err? ==> r.error == NotFound)
            && (own ==> r.value.characters == s.characters && r.value.aliases.Keys == s.aliases.Keys - {id}
                        && forall i :: i in s.aliases && i != id ==> r.value.aliases[i] == s.aliases[i])
  {
  }

  // ------------------------------------------------------- merge and split --

  ghost function OwnedBy(aliases: AliasMap, c: Id): set<Id> {
    set i | i in aliases && aliases[i].character == c
  }

  /** A merge moves every alias of the losing character to the winner, touches no other, and loses none. */
  lemma MergeMovesAll(s: State, losing: Id, winning: Id)
    requires Outcome(s, MergeCharacters(losing, winning)).Ok?
    ensures var t := Apply(s, MergeCharacters(losing, winning)).aliases;
            && t.Keys == s.aliases.Keys
            && OwnedBy(t, winning) == OwnedBy(s.aliases, losing) + OwnedBy(s.aliases, winning)
            && (losing != winning ==> OwnedBy(t, losing) == {})
            && (forall i :: i in t ==> t[i] == s.aliases[i].(character := t[i].character))
            && (forall i :: i in t && s.aliases[i].character != losing ==> t[i] == s.aliases[i])
  {
  }

  /** Which merges and splits are refused, and why; the loser's status is the only one that changes. */
  lemma MergeIff(s: State, losing: Id, winning: Id, merge: bool)
    ensures var r := Outcome(s, if merge then MergeCharacters(losing, winning) else SplitCharacters(losing, winning));
            var known := losing in s.characters && winning in s.characters;
            var sentinels := known && (s.characters[losing].sentinel || s.characters[winning].sentinel);
            && (r == Err(NotFound) <==> !known)
            && (r == Err(SentinelImmutable) <==> sentinels)
            && (r == Err(InvalidTransition) <==> known && !sentinels && merge && s.characters[losing].merged)
            && r != Err(AliasConflict)
            && (r.Ok? ==>
                  && r.value.characters.Keys == s.characters.Keys
                  && r.value.characters[losing]
                     == Character(false, merge, if merge then Some(winning) else None)
                  && forall c :: c in s.characters && c != losing ==> r.value.characters[c] == s.characters[c])
  {
  }

  function Renamed(c: Id, losing: Id, winning: Id): Id {
    if c == losing then winning else c
  }

  /** Reading after a merge is reading before it with the loser's name replaced by the winner's. */
  lemma MergeRenames(aliases: AliasMap, losing: Id, winning: Id, form: string, scope: Scope, position: int)
    ensures Resolves(Reassigned(aliases, losing, winning), form, scope, position)
         == set c | c in Resolves(aliases, form, scope, position) :: Renamed(c, losing, winning)
  {
    var t := Reassigned(aliases, losing, winning);
    var before := Resolves(aliases, form, scope, position);
    var after := set c | c in before :: Renamed(c, losing, winning);
    forall d | d in Resolves(t, form, scope, position) ensures d in after {
      var i :| i in t && t[i].form == form && t[i].scope == scope && Covers(t[i], position) && t[i].character == d;
      assert Covers(aliases[i], position);
      assert aliases[i].character in before && Renamed(aliases[i].character, losing, winning) == d;
    }
    forall d | d in after ensures d in Resolves(t, form, scope, position) {
      var c :| c in before && Renamed(c, losing, winning) == d;
      var i :| i in aliases && aliases[i].form == form && aliases[i].scope == scope && Covers(aliases[i], position)
               && aliases[i].character == c;
      assert Covers(t[i], position) && t[i].character == d;
    }
  }

  /** A split does not undo the merge: the aliases come back exactly when the loser had none, or merged into itself. */
  lemma SplitRestoresIff(s: State, losing: Id, winning: Id)
    requires Outcome(s, MergeCharacters(losing, winning)).Ok?
    ensures var u := Apply(Apply(s, MergeCharacters(losing, winning)), SplitCharacters(losing, winning));
            && (u.aliases == s.aliases <==> OwnedBy(s.aliases, losing) == {} || losing == winning)
            && !u.characters[losing].merged && u.characters[losing].mergedInto == None
  {
    var t := Apply(s, MergeCharacters(losing, winning));
    if losing == winning {
      forall i | i in t.aliases ensures t.aliases[i] == s.aliases[i] {
        assert s.aliases[i].(character := s.aliases[i].character) == s.aliases[i];
      }
      assert t.aliases == s.aliases;
    } else if i :| i in OwnedBy(s.aliases, losing) {
      assert t.aliases[i].character == winning && s.aliases[i].character == losing;
    } else {
      forall i | i in t.aliases ensures t.aliases[i] == s.aliases[i] {
        assert i !in OwnedBy(s.aliases, losing);
      }
      assert t.aliases == s.aliases;
    }
  }
}
