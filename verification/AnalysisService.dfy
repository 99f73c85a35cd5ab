/** The alias and merge methods of the analysis service, each proved to be one call of the alias machine. */
module AnalysisService {
  import opened Base
  import opened Aliases

  class AliasTables {
    var characters: map<Id, Character>
    var aliases: AliasMap

    ghost function Abs(): State
      reads this
    {
      State(characters, aliases)
    }

    constructor ()
      ensures Abs() == State(map[], map[]) && NoConflicts(aliases)
    {
      characters, aliases := map[], map[];
    }

    ghost predicate Was(before: State, c: Call, error: Option<AliasError>)
      requires Enabled(before, c)
      reads this
    {
      var o := Outcome(before, c);
      Abs() == Apply(before, c) && error == if o.Err? then Some(o.error) else None
    }

    /** The first candidate whose range overlaps, if any. */
    method FindAliasConflict(a: Alias) returns (found: Option<Id>)
      ensures found.Some? ==> found.value in aliases && Conflicts(a, aliases[found.value])
      ensures found.None? ==> !HasConflict(aliases, a)
    {
      var candidates := set i | i in aliases && SameKey(a, aliases[i]) && aliases[i].character != a.character;
      ghost var all := candidates;
      while candidates != {}
        invariant candidates <= all
        invariant forall i :: i in all && i !in candidates ==> !Conflicts(a, aliases[i])
        decreases |candidates|
      {
        var i :| i in candidates;
        if RangesOverlap(a.first, a.last, aliases[i].first, aliases[i].last) {
          return Some(i);
        }
        candidates := candidates - {i};
      }
      assert forall i :: i in aliases && Conflicts(a, aliases[i]) ==> i in all;
      return None;
    }

    method CreateCharacterAlias(ch: Id, newId: Id, surfaceForm: string, normalize: string -> string,
                                kind: Option<ScopeKind>, chapter: Option<Id>, speaker: Option<Id>,
                                first: Option<int>, last: Option<int>)
      returns (e: Option<AliasError>)
      requires newId !in aliases
      modifies this`aliases
      ensures Was(old(Abs()), CreateAlias(ch, newId, normalize(surfaceForm), if kind.Some? then kind.value else Global,
                                          chapter, speaker, first, last), e)
    {
      if ch !in characters {
        return Some(NotFound);
      }
      var scopeKind := if kind.Some? then kind.value else Global;
      var alias := Alias(ch, normalize(surfaceForm), ScopeOf(scopeKind, chapter, speaker), first, last);
      var conflict := FindAliasConflict(alias);
      if conflict.Some? {
        return Some(AliasConflict);
      }
      aliases := aliases[newId := alias];
      return None;
    }

    method DeleteCharacterAlias(ch: Id, id: Id) returns (e: Option<AliasError>)
      modifies this`aliases
      ensures Was(old(Abs()), DeleteAlias(ch, id), e)
    {
      if id !in aliases || aliases[id].character != ch {
        return Some(NotFound);
      }
      aliases := aliases - {id};
      return None;
    }

    method CreateCharacterMerge(losing: Id, winning: Id, merge: bool) returns (r: Result<nat, AliasError>)
      modifies this
      ensures Was(old(Abs()), if merge then MergeCharacters(losing, winning) else SplitCharacters(losing, winning),
                  if r.Err? then Some(r.error) else None)
      ensures r.Ok? ==> r.value == if merge then |OwnedBy(old(aliases), losing)| else 0
    {
      if losing !in characters || winning !in characters {
        return Err(NotFound);
      }
      if characters[losing].sentinel || characters[winning].sentinel {
        return Err(SentinelImmutable);
      }
      if merge && characters[losing].merged {
        return Err(InvalidTransition);
      }
      var aliasesMovedCount := 0;
      if merge {
        var moved := set i | i in aliases && aliases[i].character == losing;
        aliases := map i | i in aliases :: if i in moved then aliases[i].(character := winning) else aliases[i];
        assert aliases == Reassigned(old(aliases), losing, winning);
        assert moved == OwnedBy(old(aliases), losing);
        aliasesMovedCount := |moved|;
        characters := characters[losing := characters[losing].(merged := true, mergedInto := Some(winning))];
      } else {
        characters := characters[losing := characters[losing].(merged := false, mergedInto := None)];
      }
      return Ok(aliasesMovedCount);
    }
  }
}
