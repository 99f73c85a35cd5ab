/** The voice service's methods over its tables, each proved to be one call of the voice machine. */
module VoiceService {
  import opened Base
  import opened Voice

  class VoiceTables {
    var profiles: Profiles
    var characters: map<Id, Character>
    var assignments: Assignments

    ghost function Abs(): State
      reads this
    {
      State(profiles, characters, assignments)
    }

    /** The call was made: refused with an error and no change, or done. */
    ghost predicate Was(before: State, c: Call, error: Option<VoiceError>)
      requires Enabled(before, c)
      reads this
    {
      var o := Outcome(before, c);
      Abs() == Apply(before, c) && error == if o.Err? then Some(o.error) else None
    }

    constructor ()
      ensures Abs() == Empty && Inv(Abs())
    {
      profiles, characters, assignments := map[], map[], map[];
    }

    method CreateVersion(pid: Id, consent: Consent, deriveFrom: Option<nat>) returns (e: Option<VoiceError>)
      modifies this`profiles
      ensures Was(old(Abs()), Call.CreateVersion(pid, consent, deriveFrom), e)
    {
      if !Readable(profiles, pid) {
        return Some(NotFound);
      }
      var profile := profiles[pid];
      if !consent.attested {
        return Some(ConsentRequired);
      }
      if consent.thirdParty && !consent.hasText {
        return Some(ConsentRequired);
      }
      var supersedes: Option<nat> := None;
      if deriveFrom.Some? && deriveFrom.value != 0 {
        if deriveFrom.value !in profile.versions {
          return Some(UnknownSource);
        }
        supersedes := deriveFrom;
      }
      var nextVersion := profile.versionCount + 1;
      var created := Version(supersedes, Draft, false, false, false);
      profiles := profiles[pid := profile.(versions := profile.versions[nextVersion := created])];
      profiles := profiles[pid := profiles[pid].(versionCount := nextVersion)];
      return None;
    }

    method ApproveVersion(pid: Id, version: nat, approved: bool) returns (e: Option<VoiceError>)
      modifies this`profiles
      ensures Was(old(Abs()), Call.Approve(pid, version, approved), e)
    {
      if !Readable(profiles, pid) || version !in profiles[pid].versions {
        return Some(NotFound);
      }
      var row := profiles[pid].versions[version];
      if !approved {
        if row.approval != PreviewGenerated {
          return Some(InvalidTransition);
        }
        SetVersion(pid, version, row.(approval := Draft));
        return None;
      }
      if row.approval == Approved || row.approval == LockedState {
        return None;
      }
      if row.approval != PreviewGenerated {
        if !row.preview {
          return Some(PreviewRequired);
        }
      }
      SetVersion(pid, version, row.(approval := Approved, approvedAt := true));
      var profile := profiles[pid];
      if profile.active == 0 || profile.active < version {
        profiles := profiles[pid := profile.(active := version)];
      }
      return None;
    }

    method LockVersion(pid: Id, version: nat) returns (e: Option<VoiceError>)
      modifies this`profiles
      ensures Was(old(Abs()), Call.Lock(pid, version), e)
    {
      if !Readable(profiles, pid) || version !in profiles[pid].versions {
        return Some(NotFound);
      }
      var row := profiles[pid].versions[version];
      if row.locked {
        return None;
      }
      if !InProduction(row.approval) {
        return Some(InvalidTransition);
      }
      SetVersion(pid, version, row.(locked := true));
      return None;
    }

    method RetireVersion(pid: Id, version: nat) returns (e: Option<VoiceError>)
      modifies this`profiles
      ensures Was(old(Abs()), Call.Retire(pid, version), e)
    {
      if !Readable(profiles, pid) || version !in profiles[pid].versions {
        return Some(NotFound);
      }
      var users := set i | i in assignments && Uses(assignments[i], pid, version);
      if users != {} {
        var i :| i in users;
        return Some(InUse);
      }
      assert forall i :: i in assignments && Uses(assignments[i], pid, version) ==> i in users;
      SetVersion(pid, version, profiles[pid].versions[version].(approval := Retired));
      return None;
    }

    method SetVersion(pid: Id, version: nat, row: Version)
      requires pid in profiles && version in profiles[pid].versions
      modifies this`profiles
      ensures var was := old(profiles);
              profiles == was[pid := was[pid].(versions := was[pid].versions[version := row])]
    {
      profiles := profiles[pid := profiles[pid].(versions := profiles[pid].versions[version := row])];
    }

    /** `findFirst`: any active row of the character, of the role if one is asked for. */
    method Find(character: Id, role: Option<Role>) returns (found: Option<Id>)
      ensures FindFirst(assignments, character, role, found)
    {
      var rows := set i | i in assignments && Matches(assignments[i], character, role);
      if rows == {} {
        assert forall i :: i in assignments && Matches(assignments[i], character, role) ==> i in rows;
        return None;
      }
      var i :| i in rows;
      return Some(i);
    }

    method AssignVoice(ch: Id, pid: Id, wanted: Option<nat>, languageOk: bool, newId: Id)
      returns (e: Option<VoiceError>, ghost previous: Option<Id>)
      requires newId !in assignments
      modifies this`assignments
      ensures old(Enabled(Abs(), Call.Assign(ch, pid, wanted, languageOk, newId, previous)))
      ensures Was(old(Abs()), Call.Assign(ch, pid, wanted, languageOk, newId, previous), e)
    {
      previous := None;
      if ch !in characters {
        return Some(NotFound), previous;
      }
      var role := RoleOf(characters[ch].kind);
      var found := Find(ch, Some(role));
      previous := found;
      if characters[ch].kind == OtherSentinel {
        return Some(SentinelImmutable), previous;
      }
      if !Readable(profiles, pid) {
        return Some(NotFound), previous;
      }
      var version := Target(profiles[pid], wanted);
      if version.Err? {
        return Some(version.error), previous;
      }
      if !InProduction(profiles[pid].versions[version.value].approval) {
        return Some(NotApproved), previous;
      }
      if !languageOk {
        return Some(LanguageMismatch), previous;
      }
      if found.Some? {
        assignments := assignments[found.value := assignments[found.value].(active := false)];
      }
      assignments := assignments[newId := Assignment(ch, pid, version.value, role, true)];
      return None, previous;
    }

    method ClearVoice(ch: Id, lockedChunks: nat) returns (e: Option<VoiceError>, ghost found: Option<Id>)
      modifies this`assignments
      ensures old(Enabled(Abs(), Call.Clear(ch, lockedChunks, found)))
      ensures Was(old(Abs()), Call.Clear(ch, lockedChunks, found), e)
    {
      var assignment := Find(ch, None);
      found := assignment;
      if assignment.None? {
        return None, found;
      }
      if lockedChunks > 0 {
        return Some(AssignmentInUse), found;
      }
      assignments := assignments[assignment.value := assignments[assignment.value].(active := false)];
      return None, found;
    }
  }
}
