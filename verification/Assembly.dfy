/** Planning an assembly request: which chapters to assemble, which to skip, which block. */
module Assembly {
  import opened Base

  datatype AudioChunk = AudioChunk(id: string, contentHash: string, validated: bool)

  /** A current script chunk; `audio` is its current audio chunk. */
  datatype ScriptChunk = ScriptChunk(chapter: Id, index: int, audio: Option<AudioChunk>, directorVersion: string)

  /** The current audio of a chapter. */
  datatype ChapterAudio = ChapterAudio(manifestHash: Hash, assembled: bool)

  type Hash = Id

  /** SHA-256 of a text, left uninterpreted. */
  type Sha = string -> Hash

  datatype Scope = ChapterScope | AudiobookScope

  datatype Request = Request(scope: Scope, allowPartialPreview: bool, force: bool)

  type Audios = map<Id, ChapterAudio>

  datatype PlanError = NoChapters | ManifestIncomplete(chapters: seq<Id>) | DirectorVersionMixing | MetadataMissing
                     | DuplicateJob

  datatype Item = Item(chapter: Id, manifestHash: Hash)

  datatype Plan = Plan(accepted: seq<Item>, skipped: seq<Id>, blocking: seq<Id>)

  // -------------------------------------------------------------- manifest --

  function Line(a: AudioChunk): string {
    a.id + ":" + a.contentHash
  }

  /** `${id}:${contentHash}` lines, joined by newlines. */
  function ManifestText(audio: seq<AudioChunk>): string {
    if audio == [] then ""
    else if |audio| == 1 then Line(audio[0])
    else Line(audio[0]) + "\n" + ManifestText(audio[1..])
  }

  function InsertByIndex(c: ScriptChunk, sorted: seq<ScriptChunk>): seq<ScriptChunk> {
    if sorted == [] || c.index <= sorted[0].index then [c] + sorted
    else [sorted[0]] + InsertByIndex(c, sorted[1..])
  }

  /** `slice().sort((a, b) => a.chapterSequenceIndex - b.chapterSequenceIndex)`, which is stable. */
  function SortedByIndex(chunks: seq<ScriptChunk>): seq<ScriptChunk> {
    if chunks == [] then [] else InsertByIndex(chunks[0], SortedByIndex(chunks[1..]))
  }

  function AudioOf(chunks: seq<ScriptChunk>): seq<AudioChunk> {
    if chunks == [] then []
    else (if chunks[0].audio.Some? then [chunks[0].audio.value] else []) + AudioOf(chunks[1..])
  }

  function ManifestHash(chunks: seq<ScriptChunk>, sha: Sha): Hash {
    sha(ManifestText(AudioOf(SortedByIndex(chunks))))
  }

  // ---------------------------------------------------------- specification --

  function ChunksOf(chunks: seq<ScriptChunk>, chapter: Id): seq<ScriptChunk> {
    if chunks == [] then []
    else ChunksOf(chunks[..|chunks| - 1], chapter)
         + if chunks[|chunks| - 1].chapter == chapter then [chunks[|chunks| - 1]] else []
  }

  predicate Validated(c: ScriptChunk) {
    c.audio.Some? && c.audio.value.validated
  }

  predicate Complete(chunks: seq<ScriptChunk>, chapter: Id) {
    && ChunksOf(chunks, chapter) != []
    && forall k :: 0 <= k < |ChunksOf(chunks, chapter)| ==> Validated(ChunksOf(chunks, chapter)[k])
  }

  function HashOf(chunks: seq<ScriptChunk>, chapter: Id, sha: Sha): Hash {
    ManifestHash(ChunksOf(chunks, chapter), sha)
  }

  /** The chapter has a current audio made from the present manifest. */
  predicate UpToDate(chunks: seq<ScriptChunk>, audios: Audios, chapter: Id, sha: Sha) {
    chapter in audios && audios[chapter].manifestHash == HashOf(chunks, chapter, sha)
  }

  function Extend(p: Plan, chunks: seq<ScriptChunk>, audios: Audios, chapter: Id, force: bool, sha: Sha): Plan {
    if !Complete(chunks, chapter) then p.(blocking := p.blocking + [chapter])
    else if UpToDate(chunks, audios, chapter, sha) && !force then p.(skipped := p.skipped + [chapter])
    else p.(accepted := p.accepted + [Item(chapter, HashOf(chunks, chapter, sha))])
  }

  /** Each target chapter in turn goes to one of the three lists. */
  function PlanOf(targets: seq<Id>, chunks: seq<ScriptChunk>, audios: Audios, force: bool, sha: Sha): Plan {
    if targets == [] then Plan([], [], [])
    else
      Extend(PlanOf(targets[..|targets| - 1], chunks, audios, force, sha),
             chunks, audios, targets[|targets| - 1], force, sha)
  }

  /** The Director versions of the complete target chapters. */
  function DirectorVersions(targets: seq<Id>, chunks: seq<ScriptChunk>): set<string> {
    set k | 0 <= k < |chunks| && chunks[k].chapter in targets && Complete(chunks, chunks[k].chapter) ::
        chunks[k].directorVersion
  }

  /** A job with this idempotency key that has not FAILED, been CANCELLED or DEAD_LETTERED blocks another one. */
  predicate Duplicated(accepted: seq<Item>, live: set<Item>) {
    exists k :: 0 <= k < |accepted| && accepted[k] in live
  }

  function Started(r: Request, metadata: bool, targets: seq<Id>, chunks: seq<ScriptChunk>, audios: Audios,
                   live: set<Item>, sha: Sha): Result<Plan, PlanError>
  {
    if targets == [] then Err(NoChapters)
    else Checked(r, metadata, |DirectorVersions(targets, chunks)|, PlanOf(targets, chunks, audios, r.force, sha), live)
  }

  function Checked(r: Request, metadata: bool, versions: nat, p: Plan, live: set<Item>): Result<Plan, PlanError> {
    if p.blocking != [] && !r.allowPartialPreview then Err(ManifestIncomplete(p.blocking))
    else if versions > 1 then Err(DirectorVersionMixing)
    else if r.scope == AudiobookScope && !metadata then Err(MetadataMissing)
    else if Duplicated(p.accepted, live) then Err(DuplicateJob)
    else Ok(p)
  }

  // ------------------------------------------------------- the method's loops --

  /** The lists of the map, chapter by chapter, in the order of the rows. */
  method GroupByChapter(chunks: seq<ScriptChunk>) returns (m: map<Id, seq<ScriptChunk>>)
    ensures forall c :: ChunksOf(chunks, c) == if c in m then m[c] else []
  {
    m := map[];
    for k := 0 to |chunks|
      invariant forall c :: ChunksOf(chunks[..k], c) == if c in m then m[c] else []
    {
      var chunk := chunks[k];
      var list := if chunk.chapter in m then m[chunk.chapter] else [];
      m := m[chunk.chapter := list + [chunk]];
      assert chunks[..k + 1][..k] == chunks[..k];
    }
    assert chunks[..|chunks|] == chunks;
  }

  function CompleteIn(targets: seq<Id>, chunks: seq<ScriptChunk>, yes: bool): seq<Id> {
    if targets == [] then []
    else CompleteIn(targets[..|targets| - 1], chunks, yes)
         + if Complete(chunks, targets[|targets| - 1]) == yes then [targets[|targets| - 1]] else []
  }

  method SplitTargets(targets: seq<Id>, chunks: seq<ScriptChunk>, byChapter: map<Id, seq<ScriptChunk>>)
    returns (complete: seq<Id>, incomplete: seq<Id>)
    requires forall c :: ChunksOf(chunks, c) == if c in byChapter then byChapter[c] else []
    ensures complete == CompleteIn(targets, chunks, true) && incomplete == CompleteIn(targets, chunks, false)
  {
    complete, incomplete := [], [];
    for k := 0 to |targets|
      invariant complete == CompleteIn(targets[..k], chunks, true)
      invariant incomplete == CompleteIn(targets[..k], chunks, false)
    {
      var chapter := targets[k];
      var list := if chapter in byChapter then byChapter[chapter] else [];
      assert list == ChunksOf(chunks, chapter);
      assert targets[..k + 1][..k] == targets[..k];
      if |list| > 0 && forall j :: 0 <= j < |list| ==> Validated(list[j]) {
        complete := complete + [chapter];
      } else {
        incomplete := incomplete + [chapter];
      }
    }
    assert targets[..|targets|] == targets;
  }

  lemma {:induction false} CompleteAreComplete(targets: seq<Id>, chunks: seq<ScriptChunk>, yes: bool)
    ensures forall c :: c in CompleteIn(targets, chunks, yes) <==> c in targets && Complete(chunks, c) == yes
  {
    if targets != [] {
      var front, last := targets[..|targets| - 1], targets[|targets| - 1];
      CompleteAreComplete(front, chunks, yes);
      assert forall c :: c in targets <==> c in front || c == last;
    }
  }

  /** Planning the complete chapters and blocking the others is planning all in turn. */
  lemma {:induction false} PlanOfComplete(targets: seq<Id>, chunks: seq<ScriptChunk>, audios: Audios, force: bool,
                                          sha: Sha)
    ensures PlanOf(targets, chunks, audios, force, sha)
         == PlanOf(CompleteIn(targets, chunks, true), chunks, audios, force, sha)
            .(blocking := CompleteIn(targets, chunks, false))
  {
    if targets != [] {
      var front, last := targets[..|targets| - 1], targets[|targets| - 1];
      assert targets == front + [last];
      PlanOfComplete(front, chunks, audios, force, sha);
      PlanOneMore(front, last, chunks, audios, force, sha);
    }
  }

  /** The two plans take one more target alike. */
  lemma PlanOneMore(front: seq<Id>, last: Id, chunks: seq<ScriptChunk>, audios: Audios, force: bool, sha: Sha)
    requires PlanOf(front, chunks, audios, force, sha)
          == PlanOf(CompleteIn(front, chunks, true), chunks, audios, force, sha)
             .(blocking := CompleteIn(front, chunks, false))
    ensures PlanOf(front + [last], chunks, audios, force, sha)
         == PlanOf(CompleteIn(front + [last], chunks, true), chunks, audios, force, sha)
            .(blocking := CompleteIn(front + [last], chunks, false))
  {
    var yes, no := CompleteIn(front, chunks, true), CompleteIn(front, chunks, false);
    PlanLast(front, last, chunks, audios, force, sha);
    CompleteLast(front, last, chunks, true);
    CompleteLast(front, last, chunks, false);
    ExtendBlocking(PlanOf(yes, chunks, audios, force, sha), no, chunks, audios, last, force, sha);
    if Complete(chunks, last) {
      PlanLast(yes, last, chunks, audios, force, sha);
    }
  }

  /** A plan and its list of blocked chapters are extended apart. */
  lemma ExtendBlocking(p: Plan, blocking: seq<Id>, chunks: seq<ScriptChunk>, audios: Audios, last: Id, force: bool,
                       sha: Sha)
    ensures Extend(p.(blocking := blocking), chunks, audios, last, force, sha)
         == if Complete(chunks, last) then Extend(p, chunks, audios, last, force, sha).(blocking := blocking)
            else p.(blocking := blocking + [last])
  {
  }

  lemma CompleteLast(front: seq<Id>, last: Id, chunks: seq<ScriptChunk>, yes: bool)
    ensures CompleteIn(front + [last], chunks, yes)
         == if Complete(chunks, last) == yes then CompleteIn(front, chunks, yes) + [last]
             else CompleteIn(front, chunks, yes)
  {
    assert (front + [last])[..|front|] == front;
  }

  lemma PlanLast(targets: seq<Id>, last: Id, chunks: seq<ScriptChunk>, audios: Audios, force: bool, sha: Sha)
    ensures PlanOf(targets + [last], chunks, audios, force, sha)
         == Extend(PlanOf(targets, chunks, audios, force, sha), chunks, audios, last, force, sha)
  {
    assert (targets + [last])[..|targets|] == targets;
  }

  /** What the loop has planned for the first k candidates. */
  ghost predicate Planned(candidates: seq<Id>, k: nat, chunks: seq<ScriptChunk>, audios: Audios, force: bool, sha: Sha,
                          toAssemble: seq<Item>, skipped: seq<Id>) {
    k <= |candidates| &&
    var p := PlanOf(candidates[..k], chunks, audios, force, sha);
    toAssemble == p.accepted && skipped == p.skipped
  }

  lemma PlannedMore(candidates: seq<Id>, k: nat, chunks: seq<ScriptChunk>, audios: Audios, force: bool, sha: Sha,
                    toAssemble: seq<Item>, skipped: seq<Id>)
    requires Planned(candidates, k, chunks, audios, force, sha, toAssemble, skipped) && k < |candidates|
    requires Complete(chunks, candidates[k])
    ensures if UpToDate(chunks, audios, candidates[k], sha) && !force
            then Planned(candidates, k + 1, chunks, audios, force, sha, toAssemble, skipped + [candidates[k]])
            else Planned(candidates, k + 1, chunks, audios, force, sha,
                         toAssemble + [Item(candidates[k], HashOf(chunks, candidates[k], sha))], skipped)
  {
    PlanLast(candidates[..k], candidates[k], chunks, audios, force, sha);
    assert candidates[..k + 1] == candidates[..k] + [candidates[k]];
  }

  method SkipUnchanged(candidates: seq<Id>, chunks: seq<ScriptChunk>, byChapter: map<Id, seq<ScriptChunk>>,
                       audios: Audios, force: bool, sha: Sha)
    returns (toAssemble: seq<Item>, skipped: seq<Id>)
    requires forall c :: ChunksOf(chunks, c) == if c in byChapter then byChapter[c] else []
    requires forall k :: 0 <= k < |candidates| ==> Complete(chunks, candidates[k])
    ensures var p := PlanOf(candidates, chunks, audios, force, sha);
            toAssemble == p.accepted && skipped == p.skipped
  {
    toAssemble, skipped := [], [];
    for k := 0 to |candidates|
      invariant Planned(candidates, k, chunks, audios, force, sha, toAssemble, skipped)
    {
      var chapter := candidates[k];
      PlannedMore(candidates, k, chunks, audios, force, sha, toAssemble, skipped);
      var list := if chapter in byChapter then byChapter[chapter] else [];
      assert list == ChunksOf(chunks, chapter);
      var manifestHash := ManifestHash(list, sha);
      if chapter in audios && audios[chapter].manifestHash == manifestHash && !force {
        skipped := skipped + [chapter];
      } else {
        toAssemble := toAssemble + [Item(chapter, manifestHash)];
      }
    }
    assert candidates[..|candidates|] == candidates;
  }

  function Items(items: seq<Item>): set<Item> {
    set k | 0 <= k < |items| :: items[k]
  }

  function VersionsOf(chapters: seq<Id>, chunks: seq<ScriptChunk>): set<string> {
    set k | 0 <= k < |chunks| && chunks[k].chapter in chapters :: chunks[k].directorVersion
  }

  lemma PlanPieces(targets: seq<Id>, chunks: seq<ScriptChunk>, audios: Audios, force: bool, sha: Sha)
    ensures var p := PlanOf(targets, chunks, audios, force, sha);
            var complete := CompleteIn(targets, chunks, true);
            var q := PlanOf(complete, chunks, audios, force, sha);
            && p == Plan(q.accepted, q.skipped, CompleteIn(targets, chunks, false))
            && VersionsOf(complete, chunks) == DirectorVersions(targets, chunks)
            && forall k :: 0 <= k < |complete| ==> Complete(chunks, complete[k])
  {
    PlanOfComplete(targets, chunks, audios, force, sha);
    CompleteAreComplete(targets, chunks, true);
    var complete := CompleteIn(targets, chunks, true);
    assert forall k :: 0 <= k < |complete| ==> complete[k] in complete;
  }

  /** The jobs are created in one transaction, which a key of a live job aborts. */
  method StartAssembly(r: Request, metadata: bool, targets: seq<Id>, chunks: seq<ScriptChunk>, audios: Audios,
                       live: set<Item>, sha: Sha)
    returns (plan: Result<Plan, PlanError>, created: set<Item>)
    ensures plan == Started(r, metadata, targets, chunks, audios, live, sha)
    ensures created == if plan.Ok? then live + Items(plan.value.accepted) else live
    ensures forall x :: x in created <==> x in live || (plan.Ok? && x in plan.value.accepted)
  {
    created := live;
    if |targets| == 0 {
      return Err(NoChapters), created;
    }
    var byChapter := GroupByChapter(chunks);
    var complete, incomplete := SplitTargets(targets, chunks, byChapter);
    PlanPieces(targets, chunks, audios, r.force, sha);
    if |incomplete| > 0 && !r.allowPartialPreview {
      return Err(ManifestIncomplete(incomplete)), created;
    }
    if |VersionsOf(complete, chunks)| > 1 {
      return Err(DirectorVersionMixing), created;
    }
    if r.scope == AudiobookScope && !metadata {
      return Err(MetadataMissing), created;
    }
    var toAssemble, skipped := SkipUnchanged(complete, chunks, byChapter, audios, r.force, sha);
    if Duplicated(toAssemble, live) {
      return Err(DuplicateJob), created;
    }
    created := created + Items(toAssemble);
    plan := Ok(Plan(toAssemble, skipped, incomplete));
  }

  // --------------------------------------------------------------- theorems --

  ghost predicate Accepts(p: Plan, chapter: Id) {
    exists k :: 0 <= k < |p.accepted| && p.accepted[k].chapter == chapter
  }

  lemma ExtendAccepts(p: Plan, chunks: seq<ScriptChunk>, audios: Audios, last: Id, force: bool, sha: Sha, c: Id)
    ensures var q := Extend(p, chunks, audios, last, force, sha);
            Accepts(q, c)
            <==> Accepts(p, c) || (c == last && Complete(chunks, c) && !(UpToDate(chunks, audios, c, sha) && !force))
  {
    var q := Extend(p, chunks, audios, last, force, sha);
    if k :| 0 <= k < |p.accepted| && p.accepted[k].chapter == c {
      assert q.accepted[k].chapter == c;
    }
    if c == last && Complete(chunks, c) && !(UpToDate(chunks, audios, c, sha) && !force) {
      assert q.accepted[|p.accepted|].chapter == c;
    }
    if k :| 0 <= k < |q.accepted| && q.accepted[k].chapter == c && k < |p.accepted| {
      assert p.accepted[k].chapter == c;
    }
  }

  /** Where a chapter goes: the three lists are disjoint and cover exactly the targets. */
  lemma {:induction false} EachTargetOnce(targets: seq<Id>, chunks: seq<ScriptChunk>, audios: Audios, force: bool,
                                          sha: Sha, c: Id)
    ensures var p := PlanOf(targets, chunks, audios, force, sha);
            && (c in p.blocking <==> c in targets && !Complete(chunks, c))
            && (c in p.skipped <==> c in targets && Complete(chunks, c) && UpToDate(chunks, audios, c, sha) && !force)
            && (Accepts(p, c) <==> c in targets && Complete(chunks, c) && !(UpToDate(chunks, audios, c, sha) && !force))
  {
    if targets != [] {
      var front, last := targets[..|targets| - 1], targets[|targets| - 1];
      EachTargetOnce(front, chunks, audios, force, sha, c);
      ExtendAccepts(PlanOf(front, chunks, audios, force, sha), chunks, audios, last, force, sha, c);
      assert c in targets <==> c in front || c == last;
    }
  }

  /** As many entries as targets: with distinct targets, nothing is listed twice. */
  lemma {:induction false} NothingTwice(targets: seq<Id>, chunks: seq<ScriptChunk>, audios: Audios, force: bool,
                                        sha: Sha)
    ensures var p := PlanOf(targets, chunks, audios, force, sha);
            && |p.accepted| + |p.skipped| + |p.blocking| == |targets|
            && forall k :: 0 <= k < |p.accepted| ==>
                p.accepted[k].manifestHash == HashOf(chunks, p.accepted[k].chapter, sha)
  {
    if targets != [] {
      NothingTwice(targets[..|targets| - 1], chunks, audios, force, sha);
    }
  }

  /** A chunk of a started chapter: validated, and of the one Director version of the whole request. */
  lemma StartedIsUniform(r: Request, metadata: bool, targets: seq<Id>, chunks: seq<ScriptChunk>, audios: Audios,
                         live: set<Item>, sha: Sha, j: nat, k: nat)
    requires Started(r, metadata, targets, chunks, audios, live, sha).Ok? && j < |chunks| && k < |chunks|
    requires var p := Started(r, metadata, targets, chunks, audios, live, sha).value;
             && (Accepts(p, chunks[j].chapter) || chunks[j].chapter in p.skipped)
             && (Accepts(p, chunks[k].chapter) || chunks[k].chapter in p.skipped)
    ensures Validated(chunks[j]) && chunks[j].directorVersion == chunks[k].directorVersion
  {
    StartedPlan(r, metadata, targets, chunks, audios, live, sha);
    PlannedChunk(targets, chunks, audios, r.force, sha, j);
    PlannedChunk(targets, chunks, audios, r.force, sha, k);
    AtMostOneMember(DirectorVersions(targets, chunks), chunks[j].directorVersion, chunks[k].directorVersion);
  }

  lemma StartedPlan(r: Request, metadata: bool, targets: seq<Id>, chunks: seq<ScriptChunk>, audios: Audios,
                    live: set<Item>, sha: Sha)
    requires Started(r, metadata, targets, chunks, audios, live, sha).Ok?
    ensures var p := Started(r, metadata, targets, chunks, audios, live, sha).value;
            var q := PlanOf(targets, chunks, audios, r.force, sha);
            p.accepted == q.accepted && p.skipped == q.skipped && |DirectorVersions(targets, chunks)| <= 1
  {
  }

  /** A chunk of a chapter the plan accepts or skips. */
  lemma PlannedChunk(targets: seq<Id>, chunks: seq<ScriptChunk>, audios: Audios, force: bool, sha: Sha, j: nat)
    requires j < |chunks|
    requires var p := PlanOf(targets, chunks, audios, force, sha);
             Accepts(p, chunks[j].chapter) || chunks[j].chapter in p.skipped
    ensures Validated(chunks[j]) && chunks[j].directorVersion in DirectorVersions(targets, chunks)
  {
    EachTargetOnce(targets, chunks, audios, force, sha, chunks[j].chapter);
    VersionCounts(targets, chunks, j);
  }

  lemma VersionCounts(targets: seq<Id>, chunks: seq<ScriptChunk>, j: nat)
    requires j < |chunks| && chunks[j].chapter in targets && Complete(chunks, chunks[j].chapter)
    ensures Validated(chunks[j]) && chunks[j].directorVersion in DirectorVersions(targets, chunks)
  {
    InChunksOf(chunks, j);
  }

  lemma AtMostOneMember<T>(s: set<T>, a: T, b: T)
    requires |s| <= 1 && a in s && b in s
    ensures a == b
  {
    if a != b {
      assert |{a, b}| == 2;
      SubsetSize({a, b}, s);
    }
  }

  lemma {:induction false} SubsetSize<T>(a: set<T>, b: set<T>)
    requires a <= b
    ensures |a| <= |b|
    decreases |a|
  {
    if a != {} {
      var x :| x in a;
      SubsetSize(a - {x}, b - {x});
    }
  }

  lemma {:induction false} InChunksOf(chunks: seq<ScriptChunk>, j: nat)
    requires j < |chunks|
    ensures var list := ChunksOf(chunks, chunks[j].chapter);
            exists i :: 0 <= i < |list| && list[i] == chunks[j]
    decreases |chunks|
  {
    var front := chunks[..|chunks| - 1];
    var c := chunks[j].chapter;
    if j < |front| {
      InChunksOf(front, j);
      var i :| 0 <= i < |ChunksOf(front, c)| && ChunksOf(front, c)[i] == front[j];
      assert ChunksOf(chunks, c)[i] == chunks[j];
    } else {
      assert ChunksOf(chunks, c)[|ChunksOf(front, c)|] == chunks[j];
    }
  }

  /**
   * An unforced start accepts nothing exactly when every complete target has a current audio of its present
   * manifest.
   */
  lemma AcceptsNoneIff(targets: seq<Id>, chunks: seq<ScriptChunk>, audios: Audios, sha: Sha)
    ensures PlanOf(targets, chunks, audios, false, sha).accepted == []
            <==> forall c :: c in targets && Complete(chunks, c) ==> UpToDate(chunks, audios, c, sha)
  {
    var p := PlanOf(targets, chunks, audios, false, sha);
    forall c | c in targets && Complete(chunks, c) ensures UpToDate(chunks, audios, c, sha) <==> !Accepts(p, c) {
      EachTargetOnce(targets, chunks, audios, false, sha, c);
    }
    if p.accepted != [] {
      assert Accepts(p, p.accepted[0].chapter);
      EachTargetOnce(targets, chunks, audios, false, sha, p.accepted[0].chapter);
    }
  }

  predicate Carries(audios: Audios, item: Item) {
    item.chapter in audios && audios[item.chapter].manifestHash == item.manifestHash
  }

  /** Once the accepted chapters carry the planned hash and the skipped ones are as they were, a repeat accepts none. */
  lemma RepeatAcceptsNone(r: Request, targets: seq<Id>, chunks: seq<ScriptChunk>, before: Audios, after: Audios,
                          sha: Sha)
    requires var p := PlanOf(targets, chunks, before, r.force, sha);
             && (forall k :: 0 <= k < |p.accepted| ==> Carries(after, p.accepted[k]))
             && (forall c :: c in p.skipped && c in before ==> c in after && after[c] == before[c])
    ensures var q := PlanOf(targets, chunks, after, false, sha);
            q.accepted == [] && forall c :: c in q.skipped <==> c in targets && Complete(chunks, c)
  {
    var p := PlanOf(targets, chunks, before, r.force, sha);
    NothingTwice(targets, chunks, before, r.force, sha);
    forall c | c in targets && Complete(chunks, c) ensures UpToDate(chunks, after, c, sha) {
      EachTargetOnce(targets, chunks, before, r.force, sha, c);
      if !(c in p.skipped) {
        var k :| 0 <= k < |p.accepted| && p.accepted[k].chapter == c;
        assert Carries(after, p.accepted[k]);
      }
    }
    AcceptsNoneIff(targets, chunks, after, sha);
    forall c ensures c in PlanOf(targets, chunks, after, false, sha).skipped <==> c in targets && Complete(chunks, c) {
      EachTargetOnce(targets, chunks, after, false, sha, c);
    }
  }

  /** A job that succeeded keeps its key: forcing the same chapters again fails unless no target is complete. */
  lemma ForcedRepeatIff(r: Request, metadata: bool, targets: seq<Id>, chunks: seq<ScriptChunk>, audios: Audios,
                        after: Audios, live: set<Item>, more: set<Item>, sha: Sha)
    requires r.force && Started(r, metadata, targets, chunks, audios, live, sha).Ok?
    requires var p := Started(r, metadata, targets, chunks, audios, live, sha).value;
             forall k :: 0 <= k < |p.accepted| ==> p.accepted[k] in more
    ensures Started(r, metadata, targets, chunks, after, more, sha)
         == if exists c :: c in targets && Complete(chunks, c) then Err(DuplicateJob)
            else Ok(PlanOf(targets, chunks, after, true, sha))
  {
    SamePlanWhenForced(targets, chunks, audios, after, sha);
    var p := PlanOf(targets, chunks, after, true, sha);
    if c :| c in targets && Complete(chunks, c) {
      EachTargetOnce(targets, chunks, after, true, sha, c);
    } else if p.accepted != [] {
      EachTargetOnce(targets, chunks, after, true, sha, p.accepted[0].chapter);
      assert Accepts(p, p.accepted[0].chapter);
    }
  }

  lemma {:induction false} SamePlanWhenForced(targets: seq<Id>, chunks: seq<ScriptChunk>, a: Audios, b: Audios,
                                              sha: Sha)
    ensures PlanOf(targets, chunks, a, true, sha) == PlanOf(targets, chunks, b, true, sha)
  {
    if targets != [] {
      SamePlanWhenForced(targets[..|targets| - 1], chunks, a, b, sha);
    }
  }

  // -------------------------------------------------------------- readiness --

  /** `checkAudiobookReadiness` for the chapters of the current book version, if there is one. */
  function Ready(hasVersion: bool, chapters: set<Id>, audios: Audios): bool {
    if !hasVersion then false
    else
      var notReady := set c | c in chapters && !(c in audios && audios[c].assembled);
      if |chapters| == 0 then false else |notReady| == 0
  }

  lemma ReadyIff(hasVersion: bool, chapters: set<Id>, audios: Audios)
    ensures Ready(hasVersion, chapters, audios)
            <==> hasVersion && chapters != {} && forall c :: c in chapters ==> c in audios && audios[c].assembled
  {
    var notReady := set c | c in chapters && !(c in audios && audios[c].assembled);
    if notReady == {} {
      forall c | c in chapters ensures c in audios && audios[c].assembled {
        assert c !in notReady;
      }
    }
  }

  /** When the API itself starts the audiobook job: nothing to assemble and nothing blocking. */
  predicate StartsAudiobook(r: Request, p: Plan) {
    r.scope == AudiobookScope && p.accepted == [] && p.blocking == []
  }

  function Members(ids: seq<Id>): set<Id> {
    set c | c in ids
  }

  /**
   * The API compares hashes only, the worker also asks for status ASSEMBLED. The book it starts is ready exactly when
   * each of the current audios it skipped is ASSEMBLED.
   */
  lemma StartedAudiobookReadyIff(r: Request, metadata: bool, targets: seq<Id>, chunks: seq<ScriptChunk>,
                                 audios: Audios, live: set<Item>, sha: Sha)
    requires Started(r, metadata, targets, chunks, audios, live, sha).Ok?
    requires StartsAudiobook(r, Started(r, metadata, targets, chunks, audios, live, sha).value)
    ensures forall c :: c in targets ==> Complete(chunks, c) && UpToDate(chunks, audios, c, sha)
    ensures Ready(true, Members(targets), audios) <==> forall c :: c in targets ==> c in audios && audios[c].assembled
  {
    forall c | c in targets ensures Complete(chunks, c) && UpToDate(chunks, audios, c, sha) {
      EachTargetOnce(targets, chunks, audios, r.force, sha, c);
    }
    assert targets[0] in Members(targets);
    ReadyIff(true, Members(targets), audios);
  }

  // ------------------------------------------------------------ what hashes mean --

  /** Ids are UUIDs and content hashes hexadecimal: no newline in either, no colon in an id. */
  predicate PlainChunk(a: AudioChunk) {
    ':' !in a.id && '\n' !in a.id && '\n' !in a.contentHash
  }

  lemma FrontIs(s: string, c: char, x: string)
    requires c !in s
    ensures (s + [c] + x)[0] == c <==> s == ""
    ensures s == "" ==> (s + [c] + x)[1..] == x
    ensures s != "" ==> s + [c] + x == [s[0]] + (s[1..] + [c] + x)
  {
    if s != "" {
      assert (s + [c] + x)[0] == s[0] && s[0] in s;
      assert s == [s[0]] + s[1..];
    }
  }

  lemma {:induction false} FirstAt(s: string, t: string, x: string, y: string, c: char)
    requires s + [c] + x == t + [c] + y && c !in s && c !in t
    ensures s == t && x == y
    decreases |s|
  {
    FrontIs(s, c, x);
    FrontIs(t, c, y);
    if s != "" {
      var v, w := s[1..] + [c] + x, t[1..] + [c] + y;
      assert v == ([s[0]] + v)[1..] && w == ([t[0]] + w)[1..];
      FirstAt(s[1..], t[1..], x, y, c);
      assert s[0] == ([s[0]] + v)[0] == ([t[0]] + w)[0] == t[0];
      assert s == [s[0]] + s[1..] && t == [t[0]] + t[1..];
    }
  }

  predicate SameContent(a: AudioChunk, b: AudioChunk) {
    a.id == b.id && a.contentHash == b.contentHash
  }

  lemma LineInjective(a: AudioChunk, b: AudioChunk)
    requires PlainChunk(a) && PlainChunk(b) && Line(a) == Line(b)
    ensures SameContent(a, b)
  {
    FirstAt(a.id, b.id, a.contentHash, b.contentHash, ':');
  }

  lemma LineHasColon(a: AudioChunk)
    ensures ':' in Line(a)
    ensures PlainChunk(a) ==> '\n' !in Line(a)
  {
    assert Line(a)[|a.id|] == ':';
  }

  /** Two lists of audio chunks have one manifest text exactly when they hold the same ids and contents in order. */
  lemma {:induction false} ManifestTextInjective(a: seq<AudioChunk>, b: seq<AudioChunk>)
    requires forall k :: 0 <= k < |a| ==> PlainChunk(a[k])
    requires forall k :: 0 <= k < |b| ==> PlainChunk(b[k])
    ensures ManifestText(a) == ManifestText(b) <==> |a| == |b| && forall k :: 0 <= k < |a| ==> SameContent(a[k], b[k])
    decreases |a|
  {
    if a != [] && b != [] {
      LineHasColon(a[0]);
      LineHasColon(b[0]);
      if |a| > 1 && |b| > 1 {
        ManifestTextInjective(a[1..], b[1..]);
        if ManifestText(a) == ManifestText(b) {
          FirstAt(Line(a[0]), Line(b[0]), ManifestText(a[1..]), ManifestText(b[1..]), '\n');
          LineInjective(a[0], b[0]);
          SameFromTail(a, b);
        } else if |a| == |b| && forall k :: 0 <= k < |a| ==> SameContent(a[k], b[k]) {
          SameTail(a, b);
        }
      } else if |a| == 1 && |b| == 1 {
        if ManifestText(a) == ManifestText(b) {
          LineInjective(a[0], b[0]);
        }
      } else if |a| == 1 {
        NewlineIn(b);
      } else {
        NewlineIn(a);
      }
    } else if a != [] {
      ManifestNotEmpty(a);
    } else if b != [] {
      ManifestNotEmpty(b);
    }
  }

  lemma NewlineIn(b: seq<AudioChunk>)
    requires |b| > 1
    ensures '\n' in ManifestText(b)
  {
    assert ManifestText(b)[|Line(b[0])|] == '\n';
  }

  lemma ManifestNotEmpty(a: seq<AudioChunk>)
    requires a != []
    ensures ManifestText(a) != ""
  {
    LineHasColon(a[0]);
  }

  lemma SameFromTail(a: seq<AudioChunk>, b: seq<AudioChunk>)
    requires |a| == |b| > 0 && SameContent(a[0], b[0])
    requires forall k :: 0 <= k < |a[1..]| ==> SameContent(a[1..][k], b[1..][k])
    ensures forall k :: 0 <= k < |a| ==> SameContent(a[k], b[k])
  {
    forall k | 0 < k < |a| ensures SameContent(a[k], b[k]) {
      assert SameContent(a[1..][k - 1], b[1..][k - 1]);
    }
  }

  lemma SameTail(a: seq<AudioChunk>, b: seq<AudioChunk>)
    requires |a| == |b| > 0 && forall k :: 0 <= k < |a| ==> SameContent(a[k], b[k])
    ensures forall k :: 0 <= k < |a[1..]| ==> SameContent(a[1..][k], b[1..][k])
    ensures Line(a[0]) == Line(b[0])
  {
    assert SameContent(a[0], b[0]);
  }

  // ------------------------------------------------------ the chunks of a chapter --

  /** The chunk alone if it has the index. */
  function If(c: ScriptChunk, index: int): seq<ScriptChunk> {
    if c.index == index then [c] else []
  }

  /** The chunks of one index, in their order. */
  function WithIndex(chunks: seq<ScriptChunk>, index: int): seq<ScriptChunk> {
    if chunks == [] then []
    else If(chunks[0], index) + WithIndex(chunks[1..], index)
  }

  ghost predicate AscendingIndex(chunks: seq<ScriptChunk>) {
    forall j, k :: 0 <= j < k < |chunks| ==> chunks[j].index <= chunks[k].index
  }

  lemma {:induction false} InsertBag(c: ScriptChunk, sorted: seq<ScriptChunk>)
    ensures multiset(InsertByIndex(c, sorted)) == multiset{c} + multiset(sorted)
  {
    if sorted != [] && c.index > sorted[0].index {
      InsertBag(c, sorted[1..]);
      assert sorted == [sorted[0]] + sorted[1..];
    }
  }

  lemma InsertHolds(c: ScriptChunk, sorted: seq<ScriptChunk>, x: ScriptChunk)
    requires x in InsertByIndex(c, sorted)
    ensures x == c || x in sorted
  {
    InsertBag(c, sorted);
    assert x in multiset(InsertByIndex(c, sorted));
  }

  lemma {:induction false} InsertAscends(c: ScriptChunk, sorted: seq<ScriptChunk>)
    requires AscendingIndex(sorted)
    ensures AscendingIndex(InsertByIndex(c, sorted))
  {
    if sorted != [] && c.index > sorted[0].index {
      var rest := InsertByIndex(c, sorted[1..]);
      InsertAscends(c, sorted[1..]);
      forall k | 0 <= k < |rest| ensures sorted[0].index <= rest[k].index {
        InsertHolds(c, sorted[1..], rest[k]);
      }
      assert InsertByIndex(c, sorted) == [sorted[0]] + rest;
    }
  }

  lemma WithIndexCons(c: ScriptChunk, rest: seq<ScriptChunk>, index: int)
    ensures WithIndex([c] + rest, index) == If(c, index) + WithIndex(rest, index)
  {
    assert ([c] + rest)[1..] == rest;
  }

  lemma EitherFirst(c: ScriptChunk, d: ScriptChunk, index: int, rest: seq<ScriptChunk>)
    requires c.index != d.index
    ensures If(d, index) + (If(c, index) + rest) == If(c, index) + (If(d, index) + rest)
  {
  }

  /** A chunk is put in front of those of its index. */
  lemma {:induction false} InsertIsStable(c: ScriptChunk, sorted: seq<ScriptChunk>, index: int)
    requires AscendingIndex(sorted)
    ensures WithIndex(InsertByIndex(c, sorted), index) == If(c, index) + WithIndex(sorted, index)
  {
    if sorted == [] || c.index <= sorted[0].index {
      WithIndexCons(c, sorted, index);
    } else {
      var first, rest := sorted[0], sorted[1..];
      assert AscendingIndex(rest);
      InsertIsStable(c, rest, index);
      WithIndexCons(first, InsertByIndex(c, rest), index);
      WithIndexCons(first, rest, index);
      assert sorted == [first] + rest;
      EitherFirst(c, first, index, WithIndex(rest, index));
    }
  }

  /** The sort neither loses nor adds a chunk, orders them by index, and keeps the order of equal indices. */
  lemma {:induction false} SortIsStable(chunks: seq<ScriptChunk>, index: int)
    ensures var sorted := SortedByIndex(chunks);
            && multiset(sorted) == multiset(chunks) && |sorted| == |chunks| && AscendingIndex(sorted)
            && WithIndex(sorted, index) == WithIndex(chunks, index)
  {
    if chunks != [] {
      var rest := SortedByIndex(chunks[1..]);
      SortIsStable(chunks[1..], index);
      InsertBag(chunks[0], rest);
      InsertAscends(chunks[0], rest);
      InsertIsStable(chunks[0], rest, index);
      assert chunks == [chunks[0]] + chunks[1..];
    }
    assert |multiset(SortedByIndex(chunks))| == |SortedByIndex(chunks)| && |multiset(chunks)| == |chunks|;
  }

  /** Of validated chunks every one has its audio in the list, in its place. */
  lemma {:induction false} AudioOfValidated(chunks: seq<ScriptChunk>)
    requires forall k :: 0 <= k < |chunks| ==> Validated(chunks[k])
    ensures |AudioOf(chunks)| == |chunks|
    ensures forall k :: 0 <= k < |chunks| ==> chunks[k].audio == Some(AudioOf(chunks)[k])
  {
    if chunks != [] {
      AudioOfValidated(chunks[1..]);
      var first, rest := chunks[0].audio.value, AudioOf(chunks[1..]);
      assert Validated(chunks[0]) && AudioOf(chunks) == [first] + rest;
      forall k | 0 <= k < |chunks| ensures chunks[k].audio == Some(AudioOf(chunks)[k]) {
        assert k > 0 ==> chunks[k] == chunks[1..][k - 1];
      }
    }
  }

  /** The chapter's chunks, each as often as in the whole list, and no others. */
  lemma {:induction false} ChunksOfAre(chunks: seq<ScriptChunk>, chapter: Id)
    ensures forall c :: multiset(ChunksOf(chunks, chapter))[c] == if c.chapter == chapter then multiset(chunks)[c]
            else 0
    decreases |chunks|
  {
    if chunks != [] {
      var front, last := chunks[..|chunks| - 1], chunks[|chunks| - 1];
      ChunksOfAre(front, chapter);
      assert chunks == front + [last];
    }
  }

  ghost predicate AllValidated(chunks: seq<ScriptChunk>, chapter: Id) {
    forall k :: 0 <= k < |chunks| && chunks[k].chapter == chapter ==>
      chunks[k].audio.Some? && chunks[k].audio.value.validated
  }

  lemma MemberOfChapter(chunks: seq<ScriptChunk>, chapter: Id, c: ScriptChunk)
    ensures c in ChunksOf(chunks, chapter) <==> c in chunks && c.chapter == chapter
  {
    ChunksOfAre(chunks, chapter);
    assert c in multiset(ChunksOf(chunks, chapter)) <==> c in ChunksOf(chunks, chapter);
    assert c in multiset(chunks) <==> c in chunks;
  }

  lemma CompleteIsValidated(chunks: seq<ScriptChunk>, chapter: Id)
    requires ChunksOf(chunks, chapter) != []
    ensures Complete(chunks, chapter) <==> AllValidated(chunks, chapter)
  {
    var list := ChunksOf(chunks, chapter);
    if AllValidated(chunks, chapter) {
      forall k | 0 <= k < |list| ensures Validated(list[k]) {
        MemberOfChapter(chunks, chapter, list[k]);
      }
    }
    if Complete(chunks, chapter) {
      forall k | 0 <= k < |chunks| && chunks[k].chapter == chapter ensures Validated(chunks[k]) {
        MemberOfChapter(chunks, chapter, chunks[k]);
        var j :| 0 <= j < |list| && list[j] == chunks[k];
      }
    }
  }

  /** A chapter is complete exactly if it has a chunk and all its chunks have a VALIDATED audio. */
  lemma CompleteIff(chunks: seq<ScriptChunk>, chapter: Id)
    ensures Complete(chunks, chapter)
            <==> (exists c :: c in chunks && c.chapter == chapter) && AllValidated(chunks, chapter)
  {
    var list := ChunksOf(chunks, chapter);
    if list != [] {
      MemberOfChapter(chunks, chapter, list[0]);
      CompleteIsValidated(chunks, chapter);
    } else if c :| c in chunks && c.chapter == chapter {
      MemberOfChapter(chunks, chapter, c);
    }
  }

  ghost predicate CollisionFree(sha: Sha) {
    forall s: string, t: string :: sha(s) == sha(t) ==> s == t
  }

  /** The chapter's chunks in the order of the manifest. */
  function InOrder(chunks: seq<ScriptChunk>, chapter: Id): seq<ScriptChunk> {
    SortedByIndex(ChunksOf(chunks, chapter))
  }

  ghost predicate PlainChunks(chunks: seq<ScriptChunk>) {
    forall k :: 0 <= k < |chunks| && chunks[k].audio.Some? ==> PlainChunk(chunks[k].audio.value)
  }

  lemma InOrderAre(chunks: seq<ScriptChunk>, chapter: Id)
    requires Complete(chunks, chapter) && PlainChunks(chunks)
    ensures forall k :: 0 <= k < |InOrder(chunks, chapter)| ==>
              Validated(InOrder(chunks, chapter)[k]) && PlainChunk(InOrder(chunks, chapter)[k].audio.value)
  {
    var list := ChunksOf(chunks, chapter);
    var sorted := InOrder(chunks, chapter);
    SortIsStable(list, 0);
    ChunksOfAre(chunks, chapter);
    forall k | 0 <= k < |sorted| ensures Validated(sorted[k]) && PlainChunk(sorted[k].audio.value) {
      assert sorted[k] in multiset(sorted) && sorted[k] in multiset(list);
      var i :| 0 <= i < |list| && list[i] == sorted[k];
      assert sorted[k] in multiset(chunks);
      var j :| 0 <= j < |chunks| && chunks[j] == sorted[k];
    }
  }

  /**
   * What an equal manifest hash means: two complete chapters, or one chapter at two times, have it exactly if their
   * chunks, in index order, carry the same audio ids and content hashes. Any new audio of any chunk changes the hash.
   */
  lemma SameHashIffSameAudio(chunks: seq<ScriptChunk>, c: Id, others: seq<ScriptChunk>, d: Id, sha: Sha)
    requires CollisionFree(sha) && PlainChunks(chunks) && PlainChunks(others)
    requires Complete(chunks, c) && Complete(others, d)
    ensures var a, b := InOrder(chunks, c), InOrder(others, d);
            HashOf(chunks, c, sha) == HashOf(others, d, sha)
            <==> |a| == |b|
                 && forall k :: 0 <= k < |a| ==>
                      && a[k].audio.Some? && b[k].audio.Some?
                      && a[k].audio.value.id == b[k].audio.value.id
                      && a[k].audio.value.contentHash == b[k].audio.value.contentHash
  {
    var a, b := InOrder(chunks, c), InOrder(others, d);
    InOrderAre(chunks, c);
    InOrderAre(others, d);
    AudioOfValidated(a);
    AudioOfValidated(b);
    ManifestTextInjective(AudioOf(a), AudioOf(b));
    assert HashOf(chunks, c, sha) == sha(ManifestText(AudioOf(a)));
    assert HashOf(others, d, sha) == sha(ManifestText(AudioOf(b)));
    if |a| == |b| {
      forall k | 0 <= k < |a|
        ensures SameContent(AudioOf(a)[k], AudioOf(b)[k]) <==> SameContent(a[k].audio.value, b[k].audio.value)
      {
      }
    }
  }

  // ------------------------------------------------------------- the answer --

  /** A chunk of a complete target chapter. */
  predicate Candidate(targets: seq<Id>, chunks: seq<ScriptChunk>, c: ScriptChunk) {
    c in chunks && c.chapter in targets && Complete(chunks, c.chapter)
  }

  ghost predicate Mixed(targets: seq<Id>, chunks: seq<ScriptChunk>) {
    exists c, d :: Candidate(targets, chunks, c) && Candidate(targets, chunks, d)
                   && c.directorVersion != d.directorVersion
  }

  lemma VersionIn(targets: seq<Id>, chunks: seq<ScriptChunk>, v: string)
    ensures v in DirectorVersions(targets, chunks)
            <==> exists c :: Candidate(targets, chunks, c) && c.directorVersion == v
  {
    if v in DirectorVersions(targets, chunks) {
      var k :| 0 <= k < |chunks| && chunks[k].chapter in targets && Complete(chunks, chunks[k].chapter)
               && chunks[k].directorVersion == v;
      assert Candidate(targets, chunks, chunks[k]);
    }
    if c :| Candidate(targets, chunks, c) && c.directorVersion == v {
      var k :| 0 <= k < |chunks| && chunks[k] == c;
    }
  }

  /** More than one Director version means two chunks that differ in it. */
  lemma MixedIff(targets: seq<Id>, chunks: seq<ScriptChunk>)
    ensures |DirectorVersions(targets, chunks)| > 1 <==> Mixed(targets, chunks)
  {
    var versions := DirectorVersions(targets, chunks);
    if Mixed(targets, chunks) {
      var c, d :| Candidate(targets, chunks, c) && Candidate(targets, chunks, d)
                  && c.directorVersion != d.directorVersion;
      VersionIn(targets, chunks, c.directorVersion);
      VersionIn(targets, chunks, d.directorVersion);
      if |versions| <= 1 {
        AtMostOneMember(versions, c.directorVersion, d.directorVersion);
      }
    }
    if |versions| > 1 {
      var v, w := TwoMembers(versions);
      VersionIn(targets, chunks, v);
      VersionIn(targets, chunks, w);
      var c :| Candidate(targets, chunks, c) && c.directorVersion == v;
      var d :| Candidate(targets, chunks, d) && d.directorVersion == w;
    }
  }

  lemma TwoMembers<T>(s: set<T>) returns (a: T, b: T)
    requires |s| > 1
    ensures a in s && b in s && a != b
  {
    a :| a in s;
    var rest := s - {a};
    assert |rest| == |s| - 1;
    assert rest != {};
    b :| b in rest;
  }

  /** The checks in order, in terms of the targets and their chunks. */
  lemma StartIsRefusedIff(r: Request, metadata: bool, targets: seq<Id>, chunks: seq<ScriptChunk>, audios: Audios,
                          live: set<Item>, sha: Sha)
    ensures var e := Started(r, metadata, targets, chunks, audios, live, sha);
            var complete := forall c :: c in targets ==> Complete(chunks, c);
            && (e == Err(NoChapters) <==> targets == [])
            && (e.Err? && e.error.ManifestIncomplete? <==> !complete && !r.allowPartialPreview)
            && (e == Err(DirectorVersionMixing)
                <==> targets != [] && (complete || r.allowPartialPreview) && Mixed(targets, chunks))
            && (e == Err(MetadataMissing)
                <==> targets != [] && (complete || r.allowPartialPreview) && !Mixed(targets, chunks)
                     && r.scope == AudiobookScope && !metadata)
            && (e.Err? && e.error.ManifestIncomplete? ==>
                  forall c :: c in e.error.chapters <==> c in targets && !Complete(chunks, c))
  {
    MixedIff(targets, chunks);
    var p := PlanOf(targets, chunks, audios, r.force, sha);
    forall c ensures c in p.blocking <==> c in targets && !Complete(chunks, c) {
      EachTargetOnce(targets, chunks, audios, r.force, sha, c);
    }
    if p.blocking != [] {
      assert p.blocking[0] in p.blocking;
    }
  }

  /** A started request accepts, skips and blocks what the plan of its targets does; a live key is the last refusal. */
  lemma StartedIsThePlan(r: Request, metadata: bool, targets: seq<Id>, chunks: seq<ScriptChunk>, audios: Audios,
                         live: set<Item>, sha: Sha, c: Id)
    requires Started(r, metadata, targets, chunks, audios, live, sha).Ok?
    ensures var p := Started(r, metadata, targets, chunks, audios, live, sha).value;
            && (c in p.blocking <==> c in targets && !Complete(chunks, c))
            && (c in p.skipped <==> c in targets && Complete(chunks, c) && UpToDate(chunks, audios, c, sha) && !r.force)
            && (Accepts(p, c)
                <==> c in targets && Complete(chunks, c) && (r.force || !UpToDate(chunks, audios, c, sha)))
            && |p.accepted| + |p.skipped| + |p.blocking| == |targets|
            && forall k :: 0 <= k < |p.accepted| ==>
                 p.accepted[k].manifestHash == HashOf(chunks, p.accepted[k].chapter, sha) && p.accepted[k] !in live
  {
    EachTargetOnce(targets, chunks, audios, r.force, sha, c);
    NothingTwice(targets, chunks, audios, r.force, sha);
  }
}
