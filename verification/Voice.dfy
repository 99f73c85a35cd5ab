/**
 * Voice profiles with numbered versions, and the assignments that bind characters to versions. Every service call is
 * one atomic step. Calls of other components appear as steps of their own: previews becoming ready, the synthesis
 * worker locking a version, characters being edited or merged.
 */
module Voice {
  import opened Base

  datatype Approval = Draft | PreviewGenerated | Approved | LockedState | Retired

  predicate InProduction(a: Approval) {
    a == Approved || a == LockedState
  }

  /** `supersedes` is a version number of the same profile; `approvedAt` says that the time stamp is set. */
  datatype Version = Version(supersedes: Option<nat>, approval: Approval, locked: bool, approvedAt: bool, preview: bool)

  /** `active` is `activeVersionNumber`, which is set together with `activeVersionId`; 0 stands for null. */
  datatype Profile = Profile(versions: map<nat, Version>, versionCount: nat, active: nat, deleted: bool)

  datatype Kind = Person | NarratorSentinel | OtherSentinel
  datatype Role = NarratorRole | CharacterRole
  datatype Character = Character(book: Id, kind: Kind, speaking: bool, merged: bool)

  datatype Assignment = Assignment(character: Id, profile: Id, version: nat, role: Role, active: bool)

  type Profiles = map<Id, Profile>
  type Assignments = map<Id, Assignment>

  datatype State = State(profiles: Profiles, characters: map<Id, Character>, assignments: Assignments)

  datatype VoiceError =
    | NotFound | ConsentRequired | UnknownSource | InvalidTransition | PreviewRequired
    | InUse | SentinelImmutable | NotApproved | LanguageMismatch | AssignmentInUse

  function RoleOf(k: Kind): Role {
    if k == NarratorSentinel then NarratorRole else CharacterRole
  }

  // ------------------------------------------------------ one profile's versions --

  datatype Consent = Consent(attested: bool, thirdParty: bool, hasText: bool)

  function CreateIn(p: Profile, consent: Consent, derive: Option<nat>): Result<Profile, VoiceError> {
    if !consent.attested || (consent.thirdParty && !consent.hasText) then Err(ConsentRequired)
    else
      var source := if derive == Some(0) then None else derive;  // 0 is falsy
      if source.Some? && source.value !in p.versions then Err(UnknownSource)
      else
        var n := p.versionCount + 1;
        Ok(p.(versions := p.versions[n := Version(source, Draft, false, false, false)], versionCount := n))
  }

  function ApproveIn(p: Profile, v: nat, approved: bool): Result<Profile, VoiceError> {
    if v !in p.versions then Err(NotFound)
    else
      var row := p.versions[v];
      if !approved then
        if row.approval != PreviewGenerated then Err(InvalidTransition)
        else Ok(p.(versions := p.versions[v := row.(approval := Draft)]))
      else if InProduction(row.approval) then Ok(p)
      else if row.approval != PreviewGenerated && !row.preview then Err(PreviewRequired)
      else Ok(p.(versions := p.versions[v := row.(approval := Approved, approvedAt := true)],
                 active := if p.active == 0 || p.active < v then v else p.active))
  }

  function LockIn(p: Profile, v: nat): Result<Profile, VoiceError> {
    if v !in p.versions then Err(NotFound)
    else if p.versions[v].locked then Ok(p)
    else if !InProduction(p.versions[v].approval) then Err(InvalidTransition)
    else Ok(p.(versions := p.versions[v := p.versions[v].(locked := true)]))
  }

  function RetireIn(p: Profile, v: nat, inUse: bool): Result<Profile, VoiceError> {
    if v !in p.versions then Err(NotFound)
    else if inUse then Err(InUse)
    else Ok(p.(versions := p.versions[v := p.versions[v].(approval := Retired)]))
  }

  ghost predicate HasLocked(p: Profile) {
    exists v :: v in p.versions && p.versions[v].locked
  }

  // ----------------------------------------------------------------- calls --

  datatype Call =
    | CreateProfile(profile: Id)
    | DeleteProfile(profile: Id)
    | CreateVersion(profile: Id, consent: Consent, derive: Option<nat>)
    | Approve(profile: Id, version: nat, approved: bool)
    | Lock(profile: Id, version: nat)
    | Retire(profile: Id, version: nat)
    | Assign(character: Id, profile: Id, wanted: Option<nat>, languageOk: bool, newId: Id, previous: Option<Id>)
    | Clear(character: Id, lockedChunks: nat, found: Option<Id>)
    // other components
    | PreviewReady(profile: Id, version: nat)
    | MarkGenerated(profile: Id, version: nat)
    | CreateCharacter(character: Id, row: Character)
    | EditCharacter(character: Id, speaking: bool, merged: bool)

  predicate Matches(a: Assignment, character: Id, role: Option<Role>) {
    a.active && a.character == character && (role.Some? ==> a.role == role.value)
  }

  /** `findFirst`: some matching row, or none if there is none. */
  ghost predicate FindFirst(t: Assignments, character: Id, role: Option<Role>, found: Option<Id>) {
    match found
    case Some(i) => i in t && Matches(t[i], character, role)
    case None => forall i :: i in t ==> !Matches(t[i], character, role)
  }

  ghost predicate Enabled(s: State, c: Call) {
    match c
    case CreateProfile(pid) => pid !in s.profiles
    case Assign(ch, _, _, _, newId, previous) =>
      newId !in s.assignments &&
      (ch in s.characters ==> FindFirst(s.assignments, ch, Some(RoleOf(s.characters[ch].kind)), previous))
    case Clear(ch, _, found) => FindFirst(s.assignments, ch, None, found)
    case CreateCharacter(ch, _) => ch !in s.characters
    case _ => true
  }

  predicate Readable(profiles: Profiles, pid: Id) {
    pid in profiles && !profiles[pid].deleted
  }

  predicate Uses(a: Assignment, pid: Id, v: nat) {
    a.active && a.profile == pid && a.version == v
  }

  ghost predicate VersionInUse(t: Assignments, pid: Id, v: nat) {
    exists i :: i in t && Uses(t[i], pid, v)
  }

  function Deactivate(t: Assignments, found: Option<Id>): Assignments {
    if found.Some? && found.value in t then t[found.value := t[found.value].(active := false)] else t
  }

  /** The version an assignment is to bind: the one named, else the profile's active one. 0 counts as not named. */
  function Target(p: Profile, version: Option<nat>): Result<nat, VoiceError> {
    if version.Some? && version.value != 0 then
      if version.value in p.versions then Ok(version.value) else Err(NotFound)
    else if p.active != 0 && p.active in p.versions then Ok(p.active)
    else Err(NotApproved)
  }

  function Bind(s: State, ch: Id, pid: Id, version: Option<nat>, languageOk: bool, newId: Id, previous: Option<Id>)
    : Result<Assignments, VoiceError>
  {
    if ch !in s.characters then Err(NotFound)
    else if s.characters[ch].kind == OtherSentinel then Err(SentinelImmutable)
    else if !Readable(s.profiles, pid) then Err(NotFound)
    else
      var target := Target(s.profiles[pid], version);
      if target.Err? then Err(target.error)
      else if !InProduction(s.profiles[pid].versions[target.value].approval) then Err(NotApproved)
      else if !languageOk then Err(LanguageMismatch)
      else
        var row := Assignment(ch, pid, target.value, RoleOf(s.characters[ch].kind), true);
        Ok(Deactivate(s.assignments, previous)[newId := row])
  }

  ghost function Outcome(s: State, c: Call): Result<State, VoiceError>
    requires Enabled(s, c)
  {
    match c
    case CreateProfile(pid) => Ok(s.(profiles := s.profiles[pid := Profile(map[], 0, 0, false)]))
    case DeleteProfile(pid) =>
      if !Readable(s.profiles, pid) then Err(NotFound)
      else if HasLocked(s.profiles[pid]) then Err(InUse)
      else Ok(s.(profiles := s.profiles[pid := s.profiles[pid].(deleted := true)]))
    case CreateVersion(pid, consent, derive) =>
      OnProfile(s, pid, if pid in s.profiles then CreateIn(s.profiles[pid], consent, derive) else Err(NotFound))
    case Approve(pid, v, approved) =>
      OnProfile(s, pid, if pid in s.profiles then ApproveIn(s.profiles[pid], v, approved) else Err(NotFound))
    case Lock(pid, v) =>
      OnProfile(s, pid, if pid in s.profiles then LockIn(s.profiles[pid], v) else Err(NotFound))
    case Retire(pid, v) =>
      OnProfile(s, pid, if pid in s.profiles then RetireIn(s.profiles[pid], v, VersionInUse(s.assignments, pid, v))
                else Err(NotFound))
    case Assign(ch, pid, version, languageOk, newId, previous) =>
      var t := Bind(s, ch, pid, version, languageOk, newId, previous);
      if t.Err? then Err(t.error) else Ok(s.(assignments := t.value))
    case Clear(ch, lockedChunks, found) =>
      if found.None? then Ok(s)
      else if lockedChunks > 0 then Err(AssignmentInUse)
      else Ok(s.(assignments := Deactivate(s.assignments, found)))
    case PreviewReady(pid, v) => Ok(s.(profiles := OnVersion(s.profiles, pid, v, true)))
    case MarkGenerated(pid, v) => Ok(s.(profiles := OnVersion(s.profiles, pid, v, false)))
    case CreateCharacter(ch, row) => Ok(s.(characters := s.characters[ch := row]))
    case EditCharacter(ch, speaking, merged) =>
      if ch !in s.characters then Err(NotFound)
      else Ok(s.(characters := s.characters[ch := s.characters[ch].(speaking := speaking, merged := merged)]))
  }

  function OnProfile(s: State, pid: Id, r: Result<Profile, VoiceError>): Result<State, VoiceError> {
    if !Readable(s.profiles, pid) then Err(NotFound)
    else if r.Err? then Err(r.error)
    else Ok(s.(profiles := s.profiles[pid := r.value]))
  }

  /** A preview of the version becomes ready, or a draft is marked as having a generated preview. */
  function OnVersion(profiles: Profiles, pid: Id, v: nat, ready: bool): Profiles {
    if pid !in profiles || v !in profiles[pid].versions then profiles
    else
      var p := profiles[pid];
      var row := p.versions[v];
      var next := if ready then row.(preview := true)
                  else if row.approval == Draft then row.(approval := PreviewGenerated) else row;
      profiles[pid := p.(versions := p.versions[v := next])]
  }

  /** A refused call changes nothing. */
  ghost function Apply(s: State, c: Call): State
    requires Enabled(s, c)
  {
    var r := Outcome(s, c);
    if r.Ok? then r.value else s
  }

  ghost function Run(s: State, calls: seq<Call>): State
    decreases |calls|
  {
    if calls == [] then s
    else Run(if Enabled(s, calls[0]) then Apply(s, calls[0]) else s, calls[1..])
  }

  ghost const Empty := State(map[], map[], map[])

  // ------------------------------------------------------------- invariant --

  /** Versions are numbered 1 to versionCount. */
  ghost predicate Numbered(p: Profile) {
    forall v :: v in p.versions <==> 1 <= v <= p.versionCount
  }

  /** A derived version points to a smaller number. */
  ghost predicate Derived(p: Profile) {
    forall v :: v in p.versions && p.versions[v].supersedes.Some? ==> 1 <= p.versions[v].supersedes.value < v
  }

  /** The active version number is the largest ever approved. */
  ghost predicate ActiveIsLargest(p: Profile) {
    && (forall v :: v in p.versions && p.versions[v].approvedAt ==> v <= p.active)
    && (p.active != 0 ==> p.active in p.versions && p.versions[p.active].approvedAt)
  }

  ghost predicate ProductionWasApproved(p: Profile) {
    forall v :: v in p.versions && InProduction(p.versions[v].approval) ==> p.versions[v].approvedAt
  }

  ghost predicate ProfileOk(p: Profile) {
    Numbered(p) && Derived(p) && ActiveIsLargest(p) && ProductionWasApproved(p)
  }

  ghost predicate ProfilesOk(profiles: Profiles) {
    forall pid :: pid in profiles ==> ProfileOk(profiles[pid])
  }

  ghost predicate OneActive(t: Assignments) {
    forall i, j :: i in t && j in t && t[i].active && t[j].active && t[i].character == t[j].character ==> i == j
  }

  ghost predicate Bound(profiles: Profiles, a: Assignment) {
    && a.profile in profiles && a.version in profiles[a.profile].versions
    && InProduction(profiles[a.profile].versions[a.version].approval)
  }

  /** Every active assignment targets an APPROVED or LOCKED version. */
  ghost predicate ActiveAreBound(profiles: Profiles, t: Assignments) {
    forall i :: i in t && t[i].active ==> Bound(profiles, t[i])
  }

  ghost predicate RolesOk(characters: map<Id, Character>, t: Assignments) {
    forall i :: i in t && t[i].active ==>
      t[i].character in characters && t[i].role == RoleOf(characters[t[i].character].kind)
  }

  ghost predicate Inv(s: State) {
    && ProfilesOk(s.profiles)
    && OneActive(s.assignments)
    && ActiveAreBound(s.profiles, s.assignments)
    && RolesOk(s.characters, s.assignments)
  }

  // ---------------------------------------------------------- steps keep it --

  lemma CreateKeeps(p: Profile, consent: Consent, derive: Option<nat>)
    requires ProfileOk(p) && CreateIn(p, consent, derive).Ok?
    ensures ProfileOk(CreateIn(p, consent, derive).value)
    ensures Keeps(p, CreateIn(p, consent, derive).value, 0)
  {
  }

  lemma ApproveKeeps(p: Profile, v: nat, approved: bool)
    requires ProfileOk(p) && ApproveIn(p, v, approved).Ok?
    ensures ProfileOk(ApproveIn(p, v, approved).value)
    ensures Keeps(p, ApproveIn(p, v, approved).value, 0)
  {
  }

  lemma LockKeeps(p: Profile, v: nat)
    requires ProfileOk(p) && LockIn(p, v).Ok?
    ensures ProfileOk(LockIn(p, v).value)
    ensures Keeps(p, LockIn(p, v).value, 0)
  {
  }

  lemma RetireKeeps(p: Profile, v: nat, inUse: bool)
    requires ProfileOk(p) && RetireIn(p, v, inUse).Ok?
    ensures ProfileOk(RetireIn(p, v, inUse).value)
    ensures Keeps(p, RetireIn(p, v, inUse).value, v)
  {
  }

  /** Versions in production stay so, but for `except`; numbers start at 1, so 0 excepts none. */
  ghost predicate Keeps(p: Profile, q: Profile, except: nat) {
    forall v :: v in p.versions && v != except && InProduction(p.versions[v].approval) ==>
      v in q.versions && InProduction(q.versions[v].approval)
  }

  lemma ProfileStep(profiles: Profiles, t: Assignments, pid: Id, q: Profile, except: nat)
    requires ProfilesOk(profiles) && ActiveAreBound(profiles, t) && pid in profiles
    requires ProfileOk(q) && Keeps(profiles[pid], q, except)
    requires except == 0 || !VersionInUse(t, pid, except)
    ensures ProfilesOk(profiles[pid := q]) && ActiveAreBound(profiles[pid := q], t)
  {
    forall i | i in t && t[i].active ensures Bound(profiles[pid := q], t[i]) {
      assert Bound(profiles, t[i]);
      assert ProfileOk(profiles[t[i].profile]);
    }
  }

  lemma OnVersionKeeps(profiles: Profiles, t: Assignments, pid: Id, v: nat, ready: bool)
    requires ProfilesOk(profiles) && ActiveAreBound(profiles, t)
    ensures ProfilesOk(OnVersion(profiles, pid, v, ready)) && ActiveAreBound(OnVersion(profiles, pid, v, ready), t)
  {
    if pid in profiles && v in profiles[pid].versions {
      ProfileStep(profiles, t, pid, OnVersion(profiles, pid, v, ready)[pid], 0);
    }
  }

  lemma DeactivateKeeps(profiles: Profiles, characters: map<Id, Character>, t: Assignments, found: Option<Id>)
    requires OneActive(t) && ActiveAreBound(profiles, t) && RolesOk(characters, t)
    ensures OneActive(Deactivate(t, found)) && ActiveAreBound(profiles, Deactivate(t, found))
    ensures RolesOk(characters, Deactivate(t, found))
  {
  }

  /** With at most one active assignment, of the right role, the one found is all there is to deactivate. */
  lemma NoneLeft(characters: map<Id, Character>, t: Assignments, ch: Id, role: Option<Role>, found: Option<Id>)
    requires OneActive(t) && RolesOk(characters, t) && FindFirst(t, ch, role, found)
    requires role.Some? ==> ch in characters && role.value == RoleOf(characters[ch].kind)
    ensures forall i :: i in Deactivate(t, found) && Deactivate(t, found)[i].active ==>
            Deactivate(t, found)[i].character != ch
  {
    var u := Deactivate(t, found);
    forall i | i in u && u[i].active ensures u[i].character != ch {
      if t[i].character == ch {
        assert Matches(t[i], ch, role);
      }
    }
  }

  lemma AddKeeps(profiles: Profiles, characters: map<Id, Character>, t: Assignments, newId: Id, row: Assignment)
    requires OneActive(t) && ActiveAreBound(profiles, t) && RolesOk(characters, t) && newId !in t
    requires forall i :: i in t && t[i].active ==> t[i].character != row.character
    requires Bound(profiles, row) && row.character in characters && row.role == RoleOf(characters[row.character].kind)
    ensures OneActive(t[newId := row]) && ActiveAreBound(profiles, t[newId := row]) &&
            RolesOk(characters, t[newId := row])
  {
  }

  lemma AssignKeeps(s: State, c: Call)
    requires Inv(s) && c.Assign? && Enabled(s, c)
    ensures Inv(Apply(s, c))
  {
    var t := Bind(s, c.character, c.profile, c.wanted, c.languageOk, c.newId, c.previous);
    if t.Ok? {
      var kind := s.characters[c.character].kind;
      DeactivateKeeps(s.profiles, s.characters, s.assignments, c.previous);
      NoneLeft(s.characters, s.assignments, c.character, Some(RoleOf(kind)), c.previous);
      var row := Assignment(c.character, c.profile, Target(s.profiles[c.profile], c.wanted).value, RoleOf(kind), true);
      AddKeeps(s.profiles, s.characters, Deactivate(s.assignments, c.previous), c.newId, row);
    }
  }

  lemma ProfileCallKeeps(s: State, c: Call)
    requires Inv(s) && Enabled(s, c) && (c.CreateVersion? || c.Approve? || c.Lock? || c.Retire?)
    ensures Inv(Apply(s, c))
  {
    if Readable(s.profiles, c.profile) && Outcome(s, c).Ok? {
      var p := s.profiles[c.profile];
      assert ProfileOk(p);
      match c
      case CreateVersion(pid, consent, derive) =>
        CreateKeeps(p, consent, derive);
        ProfileStep(s.profiles, s.assignments, pid, CreateIn(p, consent, derive).value, 0);
      case Approve(pid, v, approved) =>
        ApproveKeeps(p, v, approved);
        ProfileStep(s.profiles, s.assignments, pid, ApproveIn(p, v, approved).value, 0);
      case Lock(pid, v) =>
        LockKeeps(p, v);
        ProfileStep(s.profiles, s.assignments, pid, LockIn(p, v).value, 0);
      case Retire(pid, v) =>
        RetireKeeps(p, v, VersionInUse(s.assignments, pid, v));
        ProfileStep(s.profiles, s.assignments, pid, RetireIn(p, v, VersionInUse(s.assignments, pid, v)).value, v);
    }
  }

  lemma OtherCallKeeps(s: State, c: Call)
    requires Inv(s) && Enabled(s, c) && (c.CreateProfile? || c.DeleteProfile?)
    ensures Inv(Apply(s, c))
  {
    if c.CreateProfile? {
      assert ProfileOk(Profile(map[], 0, 0, false));
    } else if Readable(s.profiles, c.profile) && !HasLocked(s.profiles[c.profile]) {
      ProfileStep(s.profiles, s.assignments, c.profile, s.profiles[c.profile].(deleted := true), 0);
    }
  }

  lemma StepKeepsInv(s: State, c: Call)
    requires Inv(s) && Enabled(s, c)
    ensures Inv(Apply(s, c))
  {
    match c
    case Assign(_, _, _, _, _, _) => AssignKeeps(s, c);
    case Clear(_, _, found) => DeactivateKeeps(s.profiles, s.characters, s.assignments, found);
    case PreviewReady(pid, v) => OnVersionKeeps(s.profiles, s.assignments, pid, v, true);
    case MarkGenerated(pid, v) => OnVersionKeeps(s.profiles, s.assignments, pid, v, false);
    case CreateProfile(_) => OtherCallKeeps(s, c);
    case DeleteProfile(_) => OtherCallKeeps(s, c);
    case CreateCharacter(_, _) =>
    case EditCharacter(_, _, _) =>
    case CreateVersion(_, _, _) => ProfileCallKeeps(s, c);
    case Approve(_, _, _) => ProfileCallKeeps(s, c);
    case Lock(_, _) => ProfileCallKeeps(s, c);
    case Retire(_, _) => ProfileCallKeeps(s, c);
  }

  /**
   * In every run from any good state: versions are numbered 1 to versionCount, derived ones point to smaller numbers,
   * the active one is the largest ever approved, and a character has at most one active assignment, to a version in
   * production.
   */
  lemma {:induction false} RunKeepsInv(s: State, calls: seq<Call>)
    requires Inv(s)
    ensures Inv(Run(s, calls))
    decreases |calls|
  {
    if calls != [] {
      if Enabled(s, calls[0]) {
        StepKeepsInv(s, calls[0]);
        RunKeepsInv(Apply(s, calls[0]), calls[1..]);
      } else {
        RunKeepsInv(s, calls[1..]);
      }
    }
  }

  /** Assigning swaps the active assignment of that character for the new one and touches no other. */
  lemma AssignSwaps(s: State, c: Call, i: Id)
    requires Inv(s) && c.Assign? && Enabled(s, c) && i in s.assignments && s.assignments[i].active && Outcome(s, c).Ok?
    ensures var t := Apply(s, c).assignments;
            && i in t && c.newId in t && t[c.newId].active && t[c.newId].character == c.character
            && if s.assignments[i].character == c.character then t[i] == s.assignments[i].(active := false)
               else t[i] == s.assignments[i]
  {
    if s.assignments[i].character == c.character {
      NoneLeft(s.characters, s.assignments, c.character, Some(RoleOf(s.characters[c.character].kind)), c.previous);
      assert i in Deactivate(s.assignments, c.previous);
    }
  }

  /** A character loses its active assignment only by a clear or by another assignment of its own. */
  lemma VoiceIsKept(s: State, c: Call, i: Id)
    requires Inv(s) && Enabled(s, c) && i in s.assignments && s.assignments[i].active
    ensures var t := Apply(s, c).assignments;
            i in t && (t[i] == s.assignments[i]
                       || (!t[i].active && (c.Clear? || c.Assign?) && c.character == s.assignments[i].character))
  {
    if c.Assign? {
      if Outcome(s, c).Ok? {
        AssignSwaps(s, c, i);
      }
    }
  }

  ghost predicate VersionInProduction(profiles: Profiles, pid: Id, v: nat) {
    pid in profiles && v in profiles[pid].versions && InProduction(profiles[pid].versions[v].approval)
  }

  lemma StaysInProduction(s: State, c: Call, pid: Id, v: nat)
    requires Inv(s) && Enabled(s, c) && VersionInProduction(s.profiles, pid, v)
    requires c.CreateVersion? || c.Approve? || c.Lock?
    ensures VersionInProduction(Apply(s, c).profiles, pid, v)
  {
    assert ProfileOk(s.profiles[pid]);
    if c.profile == pid && Outcome(s, c).Ok? {
      var p := s.profiles[pid];
      match c
      case CreateVersion(_, consent, derive) => CreateKeeps(p, consent, derive);
      case Approve(_, w, approved) => ApproveKeeps(p, w, approved);
      case Lock(_, w) => LockKeeps(p, w);
    }
  }

  lemma RetiringLeaves(s: State, q: Id, w: nat, pid: Id, v: nat)
    requires Inv(s) && VersionInProduction(s.profiles, pid, v)
    ensures VersionInProduction(Apply(s, Retire(q, w)).profiles, pid, v)
            <==> !(q == pid && w == v && !s.profiles[pid].deleted && !VersionInUse(s.assignments, pid, v))
  {
  }

  lemma OnVersionStays(profiles: Profiles, q: Id, w: nat, ready: bool, pid: Id, v: nat)
    requires VersionInProduction(profiles, pid, v)
    ensures VersionInProduction(OnVersion(profiles, q, w, ready), pid, v)
  {
  }

  lemma OtherCallStays(s: State, c: Call, pid: Id, v: nat)
    requires Inv(s) && Enabled(s, c) && VersionInProduction(s.profiles, pid, v) &&
             (c.CreateProfile? || c.DeleteProfile?)
    ensures VersionInProduction(Apply(s, c).profiles, pid, v)
  {
  }

  /** A version leaves production only by being retired, and not while a character is bound to it. */
  lemma ProductionIsLeftOnlyByRetiring(s: State, c: Call, pid: Id, v: nat)
    requires Inv(s) && Enabled(s, c) && VersionInProduction(s.profiles, pid, v)
    ensures VersionInProduction(Apply(s, c).profiles, pid, v)
            <==> !(c == Retire(pid, v) && !s.profiles[pid].deleted && !VersionInUse(s.assignments, pid, v))
  {
    match c
    case Retire(q, w) => RetiringLeaves(s, q, w, pid, v);
    case CreateVersion(_, _, _) => StaysInProduction(s, c, pid, v);
    case Approve(_, _, _) => StaysInProduction(s, c, pid, v);
    case Lock(_, _) => StaysInProduction(s, c, pid, v);
    case PreviewReady(q, w) => OnVersionStays(s.profiles, q, w, true, pid, v);
    case MarkGenerated(q, w) => OnVersionStays(s.profiles, q, w, false, pid, v);
    case CreateProfile(_) => OtherCallStays(s, c, pid, v);
    case DeleteProfile(_) => OtherCallStays(s, c, pid, v);
    case Assign(_, _, _, _, _, _) =>
    case Clear(_, _, _) =>
    case CreateCharacter(_, _) =>
    case EditCharacter(_, _, _) =>
  }

  // ------------------------------------------------------- what each call does --

  /** The version an assignment asks for: the one named, 0 counting as not named, else the profile's active one. */
  function Asked(p: Profile, wanted: Option<nat>): nat {
    if wanted.Some? && wanted.value != 0 then wanted.value else p.active
  }

  /**
   * An assignment succeeds exactly for a castable character and a version in production of a readable profile in the
   * book's language, and binds that version. Without a name it is the largest version ever approved.
   */
  lemma AssignIff(s: State, c: Call)
    requires Inv(s) && c.Assign? && Enabled(s, c)
    ensures var ch, pid := c.character, c.profile;
            var castable := ch in s.characters && s.characters[ch].kind != OtherSentinel;
            Outcome(s, c).Ok?
            <==> castable && Readable(s.profiles, pid) && c.languageOk
                 && VersionInProduction(s.profiles, pid, Asked(s.profiles[pid], c.wanted))
    ensures Outcome(s, c).Ok? ==>
              var t, p := Apply(s, c), s.profiles[c.profile];
              && t.assignments.Keys == s.assignments.Keys + {c.newId}
              && t.assignments[c.newId] == Assignment(c.character, c.profile, Asked(p, c.wanted),
                   if s.characters[c.character].kind.NarratorSentinel? then NarratorRole else CharacterRole, true)
              && (c.wanted.None? ==> p.versions[p.active].approvedAt
                                     && forall v :: v in p.versions && p.versions[v].approvedAt ==> v <= p.active)
              && t.profiles == s.profiles && t.characters == s.characters
  {
    if Readable(s.profiles, c.profile) {
      assert ProfileOk(s.profiles[c.profile]);
    }
  }

  /** Why an assignment is refused. */
  lemma AssignIsRefusedIff(s: State, c: Call)
    requires Inv(s) && c.Assign? && Enabled(s, c)
    ensures var ch, pid := c.character, c.profile;
            var castable := ch in s.characters && s.characters[ch].kind != OtherSentinel;
            var named := c.wanted.Some? && c.wanted.value != 0;
            var found := Readable(s.profiles, pid) && (named ==> c.wanted.value in s.profiles[pid].versions);
            var ready := found && VersionInProduction(s.profiles, pid, Asked(s.profiles[pid], c.wanted));
            var r := Outcome(s, c);
            && (r == Err(NotFound) <==> ch !in s.characters || (castable && !found))
            && (r == Err(SentinelImmutable) <==> ch in s.characters && !castable)
            && (r == Err(NotApproved) <==> castable && found && !ready)
            && (r == Err(LanguageMismatch) <==> castable && ready && !c.languageOk)
  {
    if Readable(s.profiles, c.profile) {
      assert ProfileOk(s.profiles[c.profile]);
    }
  }

  /** The state with one profile replaced. */
  ghost predicate OnlyProfile(s: State, t: State, pid: Id, p: Profile) {
    t.profiles == s.profiles[pid := p] && t.characters == s.characters && t.assignments == s.assignments
  }

  /** No version without attested consent or third-party text; else one draft, the next in number. */
  lemma CreateVersionIff(s: State, pid: Id, consent: Consent, derive: Option<nat>)
    requires Inv(s)
    ensures var r := Outcome(s, CreateVersion(pid, consent, derive));
            var allowed := consent.attested && (consent.thirdParty ==> consent.hasText);
            var known := pid in s.profiles && (derive.Some? ==> derive.value <= s.profiles[pid].versionCount);
            && (r.Ok? <==> Readable(s.profiles, pid) && allowed && known)
            && (r == Err(NotFound) <==> !Readable(s.profiles, pid))
            && (r == Err(ConsentRequired) <==> Readable(s.profiles, pid) && !allowed)
            && (r == Err(UnknownSource) <==> Readable(s.profiles, pid) && allowed && !known)
    ensures var r := Outcome(s, CreateVersion(pid, consent, derive));
            r.Ok? ==>
              var p, n := s.profiles[pid], s.profiles[pid].versionCount + 1;
              var source := if derive == Some(0) then None else derive;
              n !in p.versions
              && OnlyProfile(s, r.value, pid, Profile(p.versions[n := Version(source, Draft, false, false, false)], n,
                                                      p.active, p.deleted))
  {
    if pid in s.profiles {
      assert ProfileOk(s.profiles[pid]);
    }
  }

  /** What a call that sets one version of a profile leaves: the version, the active number, and all else as it was. */
  ghost predicate OnlyVersion(s: State, t: State, pid: Id, v: nat, row: Version, active: nat) {
    && pid in s.profiles
    && OnlyProfile(s, t, pid, s.profiles[pid].(versions := s.profiles[pid].versions[v := row], active := active))
  }

  function Max(a: nat, b: nat): nat {
    if a < b then b else a
  }

  predicate HasVersion(s: State, pid: Id, v: nat) {
    Readable(s.profiles, pid) && v in s.profiles[pid].versions
  }

  /** An approval needs a generated preview, and leaves the version in production and no smaller one active. */
  lemma ApproveIff(s: State, pid: Id, v: nat)
    requires Inv(s)
    ensures var r := Outcome(s, Approve(pid, v, true));
            && (r == Err(NotFound) <==> !HasVersion(s, pid, v))
            && (r == Err(PreviewRequired)
                <==> HasVersion(s, pid, v) && s.profiles[pid].versions[v].approval in {Draft, Retired}
                     && !s.profiles[pid].versions[v].preview)
            && (r.Err? ==> r.error in {NotFound, PreviewRequired})
    ensures var r := Outcome(s, Approve(pid, v, true));
            r.Ok? ==>
              && HasVersion(s, pid, v)
              && var p, row := s.profiles[pid], s.profiles[pid].versions[v];
                 && VersionInProduction(r.value.profiles, pid, v)
                 && OnlyVersion(s, r.value, pid, v,
                                if InProduction(row.approval) then row
                                else row.(approval := Approved, approvedAt := true), Max(p.active, v))
  {
    if HasVersion(s, pid, v) {
      var p := s.profiles[pid];
      assert ProfileOk(p);
      Unchanged(s, pid, v);
    }
  }

  lemma Unchanged(s: State, pid: Id, v: nat)
    requires pid in s.profiles && v in s.profiles[pid].versions
    ensures OnlyVersion(s, s, pid, v, s.profiles[pid].versions[v], s.profiles[pid].active)
  {
    var p := s.profiles[pid];
    assert p.versions[v := p.versions[v]] == p.versions;
    assert p.(versions := p.versions, active := p.active) == p;
    assert s.profiles[pid := p] == s.profiles;
  }

  /** Taking an approval back is for a generated preview only, and makes it a draft again. */
  lemma DisapproveIff(s: State, pid: Id, v: nat)
    requires Inv(s)
    ensures var r := Outcome(s, Approve(pid, v, false));
            && (r == Err(NotFound) <==> !HasVersion(s, pid, v))
            && (r.Ok? <==> HasVersion(s, pid, v) && s.profiles[pid].versions[v].approval == PreviewGenerated)
            && (r.Err? ==> r.error in {NotFound, InvalidTransition})
            && (r.Ok? ==> OnlyVersion(s, r.value, pid, v, s.profiles[pid].versions[v].(approval := Draft),
                                      s.profiles[pid].active))
  {
    if HasVersion(s, pid, v) {
      var p := s.profiles[pid];
      assert p.(active := p.active) == p;
    }
  }

  /** A lock is for versions in production, or locked already, and changes nothing but the lock. */
  lemma LockIff(s: State, pid: Id, v: nat)
    requires Inv(s)
    ensures var r := Outcome(s, Lock(pid, v));
            && (r == Err(NotFound) <==> !HasVersion(s, pid, v))
            && (r.Ok? <==> HasVersion(s, pid, v)
                           && (s.profiles[pid].versions[v].locked || VersionInProduction(s.profiles, pid, v)))
            && (r.Err? ==> r.error in {NotFound, InvalidTransition})
            && (r.Ok? ==> OnlyVersion(s, r.value, pid, v, s.profiles[pid].versions[v].(locked := true),
                                      s.profiles[pid].active))
  {
    if HasVersion(s, pid, v) {
      Unchanged(s, pid, v);
    }
  }

  /** A version is retired exactly if no character is bound to it. */
  lemma RetireIff(s: State, pid: Id, v: nat)
    requires Inv(s)
    ensures var r := Outcome(s, Retire(pid, v));
            && (r == Err(NotFound) <==> !HasVersion(s, pid, v))
            && (r == Err(InUse) <==> HasVersion(s, pid, v) && VersionInUse(s.assignments, pid, v))
            && (r.Err? ==> r.error in {NotFound, InUse})
            && (r.Ok? ==> OnlyVersion(s, r.value, pid, v, s.profiles[pid].versions[v].(approval := Retired),
                                      s.profiles[pid].active))
  {
    if HasVersion(s, pid, v) {
      Unchanged(s, pid, v);
    }
  }

  /** A clear leaves the character without a voice, unless locked chunks forbid it, and no other assignment changed. */
  lemma ClearIff(s: State, c: Call)
    requires Inv(s) && c.Clear? && Enabled(s, c)
    ensures var voiced := exists i :: i in s.assignments && Matches(s.assignments[i], c.character, None);
            && (Outcome(s, c) == Err(AssignmentInUse) <==> voiced && c.lockedChunks > 0)
            && (Outcome(s, c).Ok? <==> !voiced || c.lockedChunks == 0)
    ensures Outcome(s, c).Ok? ==>
              var t := Apply(s, c);
              && t.profiles == s.profiles && t.characters == s.characters && t.assignments.Keys == s.assignments.Keys
              && forall i :: i in s.assignments ==>
                   t.assignments[i] == if s.assignments[i].character == c.character
                                       then s.assignments[i].(active := false) else s.assignments[i]
  {
    var t := Apply(s, c);
    if Outcome(s, c).Ok? {
      forall i | i in s.assignments
        ensures t.assignments[i] == if s.assignments[i].character == c.character
                                    then s.assignments[i].(active := false) else s.assignments[i]
      {
        ClearedAt(s, c, i);
      }
    }
  }

  lemma ClearedAt(s: State, c: Call, i: Id)
    requires Inv(s) && c.Clear? && Enabled(s, c) && Outcome(s, c).Ok? && i in s.assignments
    ensures var a, b := s.assignments[i], Deactivate(s.assignments, c.found)[i];
            b == if a.character == c.character then a.(active := false) else a
  {
    var a := s.assignments[i];
    if a.active && a.character == c.character {
      assert Matches(a, c.character, None);
    } else if !a.active {
      assert a.(active := false) == a;
    }
  }

  /** A profile is deleted exactly if none of its versions is locked; its rows stay. */
  lemma DeleteIff(s: State, pid: Id)
    ensures var r := Outcome(s, DeleteProfile(pid));
            && (r == Err(NotFound) <==> !Readable(s.profiles, pid))
            && (r.Ok? <==> Readable(s.profiles, pid)
                           && forall v :: v in s.profiles[pid].versions ==> !s.profiles[pid].versions[v].locked)
            && (r.Err? ==> r.error in {NotFound, InUse})
            && (r.Ok? ==> OnlyProfile(s, r.value, pid, s.profiles[pid].(deleted := true)))
  {
  }

  /** What other components do to a version: a ready preview is recorded, and a draft becomes a generated preview. */
  lemma PreviewIs(s: State, pid: Id, v: nat)
    requires pid in s.profiles && v in s.profiles[pid].versions
    ensures var row, active := s.profiles[pid].versions[v], s.profiles[pid].active;
            && OnlyVersion(s, Apply(s, PreviewReady(pid, v)), pid, v, row.(preview := true), active)
            && OnlyVersion(s, Apply(s, MarkGenerated(pid, v)), pid, v,
                           if row.approval == Draft then row.(approval := PreviewGenerated) else row, active)
  {
  }

  /**
   * The whole way of a voice, from nothing: a profile, a consented version, its preview, the approval and a character
   * give an assignment that binds the approved version.
   */
  lemma VoiceFromNothing(pid: Id, ch: Id, row: Character, ready: bool, newId: Id)
    requires row.kind != OtherSentinel
    ensures var preview := if ready then PreviewReady(pid, 1) else MarkGenerated(pid, 1);
            var s := Run(Empty, [CreateProfile(pid), CreateVersion(pid, Consent(true, false, false), None), preview,
                                 Approve(pid, 1, true)]
                                + [CreateCharacter(ch, row), Assign(ch, pid, None, true, newId, None)]);
            var seen := Version(None, Approved, false, true, ready);
            s == State(map[pid := Profile(map[1 := seen], 1, 1, false)], map[ch := row],
                       map[newId := Assignment(ch, pid, 1, RoleOf(row.kind), true)])
  {
    var seen := Version(None, if ready then Draft else PreviewGenerated, false, false, ready);
    var s4 := OneVersion(pid, seen.(approval := Approved, approvedAt := true), 1);
    var c5, c6 := CreateCharacter(ch, row), Assign(ch, pid, None, true, newId, None);
    ApprovedFromNothing(pid, ready, seen, [c5, c6]);
    RunMore(s4, c5, [c6]);
    RunMore(s4.(characters := map[ch := row]), c6, []);
  }

  lemma ApprovedFromNothing(pid: Id, ready: bool, seen: Version, rest: seq<Call>)
    requires seen == Version(None, if ready then Draft else PreviewGenerated, false, false, ready)
    ensures Run(Empty, [CreateProfile(pid), CreateVersion(pid, Consent(true, false, false), None),
                        if ready then PreviewReady(pid, 1) else MarkGenerated(pid, 1), Approve(pid, 1, true)] + rest)
         == Run(OneVersion(pid, seen.(approval := Approved, approvedAt := true), 1), rest)
  {
    var c1, c2 := CreateProfile(pid), CreateVersion(pid, Consent(true, false, false), None);
    var c3 := if ready then PreviewReady(pid, 1) else MarkGenerated(pid, 1);
    var c4 := Approve(pid, 1, true);
    assert [c1, c2, c3, c4] + rest == [c1] + ([c2] + ([c3] + ([c4] + rest)));
    RunMore(Empty, c1, [c2] + ([c3] + ([c4] + rest)));
    RunMore(Apply(Empty, c1), c2, [c3] + ([c4] + rest));
    ProfileFromNothing(pid);
    var draft := Version(None, Draft, false, false, false);
    RunMore(OneVersion(pid, draft, 0), c3, [c4] + rest);
    SetOnly(pid, draft, 0, seen, 0);
    RunMore(OneVersion(pid, seen, 0), c4, rest);
    SetOnly(pid, seen, 0, seen.(approval := Approved, approvedAt := true), 1);
  }

  lemma SetOnly(pid: Id, was: Version, active: nat, row: Version, next: nat)
    ensures var s := OneVersion(pid, was, active);
            s.(profiles := s.profiles[pid := s.profiles[pid].(versions := s.profiles[pid].versions[1 := row],
                                                              active := next)]) == OneVersion(pid, row, next)
  {
    var s := OneVersion(pid, was, active);
    assert s.profiles[pid].versions[1 := row] == map[1 := row];
    assert s.profiles[pid := Profile(map[1 := row], 1, next, false)] == OneVersion(pid, row, next).profiles;
  }

  /** One profile with one version, and nothing else. */
  ghost function OneVersion(pid: Id, row: Version, active: nat): State {
    State(map[pid := Profile(map[1 := row], 1, active, false)], map[], map[])
  }

  lemma ProfileFromNothing(pid: Id)
    ensures var s1 := Apply(Empty, CreateProfile(pid));
            Apply(s1, CreateVersion(pid, Consent(true, false, false), None))
            == OneVersion(pid, Version(None, Draft, false, false, false), 0)
  {
  }

  lemma RunMore(s: State, c: Call, rest: seq<Call>)
    requires Enabled(s, c)
    ensures Run(s, [c] + rest) == Run(Apply(s, c), rest)
  {
    assert ([c] + rest)[1..] == rest;
  }
}
