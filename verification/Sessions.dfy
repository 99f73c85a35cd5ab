/**
 * Refresh-token rotation with reuse detection (section 5.2.2.3 of RFC 6819, section 4.14.2 of RFC 9700),
 * every service call taken as one atomic step. Ids, family ids and secrets come from generators, so they are
 * new wherever one is made.
 */
module Sessions {
  import opened Base

  datatype Session = Session(user: Id, revoked: bool)

  /** `rotatedTo` is set together with `rotated_at`. A presented secret names its row by its hash, a unique key. */
  datatype Token = Token(session: Id, user: Id, family: Id, expiresAt: int,
                         rotatedTo: Option<Id>, revoked: bool, reuseDetected: bool)

  type SessionMap = map<Id, Session>
  type TokenMap = map<Id, Token>

  datatype State = State(sessions: SessionMap, tokens: TokenMap)

  datatype AuthError = TokenRevoked | TokenExpired | RefreshTokenReused

  ghost const Empty := State(map[], map[])

  ghost predicate FamilyUsed(tokens: TokenMap, family: Id) {
    exists i :: i in tokens && tokens[i].family == family
  }

  /** The answer of `refresh` for the token row `i`. */
  function Judge(t: Token, sessionRevoked: bool, now: int): Option<AuthError> {
    if t.revoked || sessionRevoked then Some(TokenRevoked)
    else if t.expiresAt < now then Some(TokenExpired)
    else if t.rotatedTo.Some? then Some(RefreshTokenReused)
    else None
  }

  ghost function RevokeTokens(tokens: TokenMap, hit: set<Id>, reuse: bool): TokenMap {
    map i | i in tokens ::
      if i in hit && !tokens[i].revoked
          then tokens[i].(revoked := true, reuseDetected := tokens[i].reuseDetected || reuse)
      else tokens[i]
  }

  ghost function RevokeSessions(sessions: SessionMap, hit: set<Id>): SessionMap {
    map i | i in sessions :: if i in hit then sessions[i].(revoked := true) else sessions[i]
  }

  ghost function FamilyTokens(tokens: TokenMap, family: Id): set<Id> {
    set i | i in tokens && tokens[i].family == family
  }

  ghost function FamilySessions(tokens: TokenMap, family: Id): set<Id> {
    set i | i in tokens && tokens[i].family == family :: tokens[i].session
  }

  ghost function SessionTokens(tokens: TokenMap, session: Id): set<Id> {
    set i | i in tokens && tokens[i].session == session
  }

  ghost function UserSessions(sessions: SessionMap, user: Id): set<Id> {
    set i | i in sessions && sessions[i].user == user
  }

  ghost function UserTokens(tokens: TokenMap, user: Id): set<Id> {
    set i | i in tokens && tokens[i].user == user
  }

  ghost function RevokeFamily(s: State, family: Id): State {
    State(RevokeSessions(s.sessions, FamilySessions(s.tokens, family)),
          RevokeTokens(s.tokens, FamilyTokens(s.tokens, family), true))
  }

  ghost function Rotate(tokens: TokenMap, i: Id, newId: Id, expiresAt: int): TokenMap
    requires i in tokens
  {
    var t := tokens[i];
    tokens[newId := Token(t.session, t.user, t.family, expiresAt, None, false, false)]
          [i := t.(rotatedTo := Some(newId))]
  }

  datatype Call =
    | Login(user: Id, session: Id, token: Id, family: Id, expiresAt: int)
    | Refresh(token: Id, newToken: Id, now: int, expiresAt: int)  // the row the presented secret hashes to
    | Logout(user: Id, session: Id)                                           // also the user's own revocation
    | ResetPassword(user: Id)

  ghost predicate Enabled(s: State, c: Call) {
    match c
    case Login(u, sid, tid, fam, exp) =>
      sid !in s.sessions && tid !in s.tokens && !FamilyUsed(s.tokens, fam)
    case Refresh(i, newId, now, exp) =>
      i in s.tokens && s.tokens[i].session in s.sessions && newId !in s.tokens
    case Logout(u, sid) => true
    case ResetPassword(u) => true
  }

  ghost function Answer(s: State, i: Id, now: int): Option<AuthError>
    requires i in s.tokens && s.tokens[i].session in s.sessions
  {
    Judge(s.tokens[i], s.sessions[s.tokens[i].session].revoked, now)
  }

  ghost function Apply(s: State, c: Call): State
    requires Enabled(s, c)
  {
    match c
    case Login(u, sid, tid, fam, exp) =>
      State(s.sessions[sid := Session(u, false)], s.tokens[tid := Token(sid, u, fam, exp, None, false, false)])
    case Refresh(i, newId, now, exp) =>
      (match Answer(s, i, now)
       case Some(RefreshTokenReused) => RevokeFamily(s, s.tokens[i].family)
       case Some(_) => s
       case None => s.(tokens := Rotate(s.tokens, i, newId, exp)))
    case Logout(u, sid) =>
      if sid in s.sessions && s.sessions[sid].user == u && !s.sessions[sid].revoked then
        State(RevokeSessions(s.sessions, {sid}), RevokeTokens(s.tokens, SessionTokens(s.tokens, sid), false))
      else s
    case ResetPassword(u) =>
      State(RevokeSessions(s.sessions, UserSessions(s.sessions, u)),
            RevokeTokens(s.tokens, UserTokens(s.tokens, u), false))
  }

  ghost function Run(s: State, calls: seq<Call>): State
    decreases |calls|
  {
    if calls == [] then s
    else Run(if Enabled(s, calls[0]) then Apply(s, calls[0]) else s, calls[1..])
  }

  // ------------------------------------------------------------ invariant --

  ghost predicate LinksOk(sessions: SessionMap, tokens: TokenMap) {
    forall i :: i in tokens ==>
      && tokens[i].session in sessions
      && sessions[tokens[i].session].user == tokens[i].user
      && tokens[i].revoked == sessions[tokens[i].session].revoked
  }

  ghost predicate NoEmptySession(sessions: SessionMap, tokens: TokenMap) {
    forall sid :: sid in sessions ==> HasToken(tokens, sid)
  }

  ghost predicate TablesOk(sessions: SessionMap, tokens: TokenMap) {
    LinksOk(sessions, tokens) && NoEmptySession(sessions, tokens)
  }

  ghost predicate HasToken(tokens: TokenMap, sid: Id) {
    exists i :: i in tokens && tokens[i].session == sid
  }

  /** A family's one session, and its tokens from the first issued to the only one not rotated. */
  datatype Chain = Chain(session: Id, ids: seq<Id>)

  type Chains = map<Id, Chain>

  function Next(ids: seq<Id>, k: nat): Option<Id> {
    if k + 1 < |ids| then Some(ids[k + 1]) else None
  }

  ghost predicate ChainOk(tokens: TokenMap, family: Id, c: Chain) {
    && c.ids != []
    && (forall j, k :: 0 <= j < k < |c.ids| ==> c.ids[j] != c.ids[k])
    && (forall k :: 0 <= k < |c.ids| ==>
          && c.ids[k] in tokens && tokens[c.ids[k]].family == family && tokens[c.ids[k]].session == c.session
          && tokens[c.ids[k]].rotatedTo == Next(c.ids, k))
  }

  ghost predicate OnChain(ids: seq<Id>, i: Id) {
    exists k :: 0 <= k < |ids| && ids[k] == i
  }

  ghost predicate HasChain(tokens: TokenMap, chains: Chains, j: Id)
    requires j in tokens
  {
    tokens[j].family in chains && OnChain(chains[tokens[j].family].ids, j)
  }

  ghost predicate EachChainOk(tokens: TokenMap, chains: Chains) {
    forall f :: f in chains ==> ChainOk(tokens, f, chains[f])
  }

  ghost predicate EachHasChain(tokens: TokenMap, chains: Chains) {
    forall i :: i in tokens ==> HasChain(tokens, chains, i)
  }

  ghost predicate Chained(tokens: TokenMap, chains: Chains) {
    && EachChainOk(tokens, chains)
    && EachHasChain(tokens, chains)
    && (forall f, g :: f in chains && g in chains && chains[f].session == chains[g].session ==> f == g)
  }

  ghost predicate Inv(s: State, chains: Chains) {
    TablesOk(s.sessions, s.tokens) && Chained(s.tokens, chains)
  }

  function Longer(c: Chain, i: Id): Chain {
    c.(ids := c.ids + [i])
  }

  ghost function Extend(s: State, chains: Chains, c: Call): Chains
    requires Enabled(s, c) && Inv(s, chains)
  {
    match c
    case Login(u, sid, tid, fam, exp) => chains[fam := Chain(sid, [tid])]
    case Refresh(i, newId, now, exp) =>
      var f := s.tokens[i].family;
      if Answer(s, i, now) == None then chains[f := Longer(chains[f], newId)] else chains
    case _ => chains
  }

  /** Tokens are only added, and stay in their session: no session loses its tokens. */
  lemma StillHaveTokens(sessions: SessionMap, tokens: TokenMap, tokens': TokenMap)
    requires NoEmptySession(sessions, tokens)
    requires forall i :: i in tokens ==> i in tokens' && tokens'[i].session == tokens[i].session
    ensures forall sid :: sid in sessions ==> HasToken(tokens', sid)
  {
    forall sid | sid in sessions ensures HasToken(tokens', sid) {
      assert HasToken(tokens, sid);
      var i :| i in tokens && tokens[i].session == sid;
      assert tokens'[i].session == sid;
    }
  }

  lemma LoginTables(s: State, sid: Id, tid: Id, t: Token)
    requires TablesOk(s.sessions, s.tokens) && sid !in s.sessions && tid !in s.tokens
    requires !FamilyUsed(s.tokens, t.family) && t.session == sid && !t.revoked
    ensures TablesOk(s.sessions[sid := Session(t.user, false)], s.tokens[tid := t])
  {
    var tokens' := s.tokens[tid := t];
    StillHaveTokens(s.sessions, s.tokens, tokens');
    assert tokens'[tid].session == sid;
    assert LinksOk(s.sessions[sid := Session(t.user, false)], tokens');
  }

  lemma LoginChains(tokens: TokenMap, chains: Chains, tid: Id, t: Token)
    requires Chained(tokens, chains) && tid !in tokens && !FamilyUsed(tokens, t.family) && t.rotatedTo == None
    requires forall i :: i in tokens ==> tokens[i].session != t.session
    ensures Chained(tokens[tid := t], chains[t.family := Chain(t.session, [tid])])
  {
    var tokens', chains' := tokens[tid := t], chains[t.family := Chain(t.session, [tid])];
    forall f | f in chains && f != t.family ensures ChainOk(tokens', f, chains[f]) && chains[f].session != t.session {
      OtherChain(tokens, tid, t, f, chains[f]);
    }
    assert EachChainOk(tokens', chains') by {
      NewChain(tokens, tid, t);
    }
    assert EachHasChain(tokens', chains') by {
      LoginHasChains(tokens, chains, tid, t);
    }
  }

  lemma OtherChain(tokens: TokenMap, tid: Id, t: Token, f: Id, c: Chain)
    requires ChainOk(tokens, f, c) && tid !in tokens && forall i :: i in tokens ==> tokens[i].session != t.session
    ensures ChainOk(tokens[tid := t], f, c) && c.session != t.session
  {
    assert c.ids[0] in tokens;
  }

  lemma NewChain(tokens: TokenMap, tid: Id, t: Token)
    requires t.rotatedTo == None
    ensures ChainOk(tokens[tid := t], t.family, Chain(t.session, [tid]))
  {
  }

  lemma LoginHasChains(tokens: TokenMap, chains: Chains, tid: Id, t: Token)
    requires EachHasChain(tokens, chains) && tid !in tokens && !FamilyUsed(tokens, t.family)
    ensures EachHasChain(tokens[tid := t], chains[t.family := Chain(t.session, [tid])])
  {
    var tokens', chains' := tokens[tid := t], chains[t.family := Chain(t.session, [tid])];
    assert [tid][0] == tid;
    forall i | i in tokens' ensures HasChain(tokens', chains', i) {
      if i != tid {
        assert HasChain(tokens, chains, i) && tokens[i].family != t.family;
      }
    }
  }

  lemma RotateTables(s: State, i: Id, newId: Id, exp: int)
    requires TablesOk(s.sessions, s.tokens) && i in s.tokens && newId !in s.tokens
    requires !s.tokens[i].revoked
    ensures TablesOk(s.sessions, Rotate(s.tokens, i, newId, exp))
  {
    var tokens' := Rotate(s.tokens, i, newId, exp);
    StillHaveTokens(s.sessions, s.tokens, tokens');
    assert LinksOk(s.sessions, tokens');
  }

  /** The only token of a family that is not rotated is the last of its chain. */
  lemma UnrotatedIsLast(tokens: TokenMap, chains: Chains, i: Id)
    requires Chained(tokens, chains) && i in tokens
    ensures var c := chains[tokens[i].family];
            && ChainOk(tokens, tokens[i].family, c) && tokens[i].session == c.session
            && (tokens[i].rotatedTo == None <==> c.ids[|c.ids| - 1] == i)
  {
    var c := chains[tokens[i].family];
    assert ChainOk(tokens, tokens[i].family, c);
    assert OnChain(c.ids, i);
    var k :| 0 <= k < |c.ids| && c.ids[k] == i;
    assert tokens[c.ids[k]].rotatedTo == Next(c.ids, k);
  }

  lemma ChainGrows(tokens: TokenMap, i: Id, newId: Id, exp: int, c: Chain)
    requires i in tokens && newId !in tokens && ChainOk(tokens, tokens[i].family, c) && c.ids[|c.ids| - 1] == i
    ensures ChainOk(Rotate(tokens, i, newId, exp), tokens[i].family, Longer(c, newId))
  {
  }

  lemma OtherChainsStay(tokens: TokenMap, i: Id, newId: Id, exp: int, f: Id, c: Chain)
    requires i in tokens && newId !in tokens && f != tokens[i].family && ChainOk(tokens, f, c)
    ensures ChainOk(Rotate(tokens, i, newId, exp), f, c)
  {
  }

  lemma OnLongerChain(ids: seq<Id>, newId: Id, i: Id)
    ensures OnChain(ids + [newId], newId)
    ensures OnChain(ids, i) ==> OnChain(ids + [newId], i)
  {
    assert (ids + [newId])[|ids|] == newId;
    if OnChain(ids, i) {
      var k :| 0 <= k < |ids| && ids[k] == i;
      assert (ids + [newId])[k] == i;
    }
  }

  lemma RotatedOnChain(tokens: TokenMap, chains: Chains, i: Id, newId: Id, exp: int, j: Id)
    requires Chained(tokens, chains) && i in tokens && newId !in tokens && (j in tokens || j == newId)
    ensures HasChain(Rotate(tokens, i, newId, exp),
                     chains[tokens[i].family := Longer(chains[tokens[i].family], newId)], j)
  {
    var f := tokens[i].family;
    if j == newId {
      OnLongerChain(chains[f].ids, newId, i);
    } else {
      assert HasChain(tokens, chains, j);
      OnLongerChain(chains[f].ids, newId, j);
    }
  }

  lemma RotateEachChain(tokens: TokenMap, chains: Chains, i: Id, newId: Id, exp: int)
    requires Chained(tokens, chains) && i in tokens && newId !in tokens && tokens[i].rotatedTo == None
    ensures var f := tokens[i].family;
            EachChainOk(Rotate(tokens, i, newId, exp), chains[f := Longer(chains[f], newId)])
  {
    var f := tokens[i].family;
    UnrotatedIsLast(tokens, chains, i);
    ChainGrows(tokens, i, newId, exp, chains[f]);
    forall g | g in chains && g != f ensures ChainOk(Rotate(tokens, i, newId, exp), g, chains[g]) {
      OtherChainsStay(tokens, i, newId, exp, g, chains[g]);
    }
  }

  lemma RotateEachToken(tokens: TokenMap, chains: Chains, i: Id, newId: Id, exp: int)
    requires Chained(tokens, chains) && i in tokens && newId !in tokens
    ensures var f := tokens[i].family;
            EachHasChain(Rotate(tokens, i, newId, exp), chains[f := Longer(chains[f], newId)])
  {
    var f := tokens[i].family;
    var t := Rotate(tokens, i, newId, exp);
    forall j | j in t ensures HasChain(t, chains[f := Longer(chains[f], newId)], j) {
      RotatedOnChain(tokens, chains, i, newId, exp, j);
    }
  }

  lemma RotateChains(tokens: TokenMap, chains: Chains, i: Id, newId: Id, exp: int)
    requires Chained(tokens, chains) && i in tokens && newId !in tokens && tokens[i].rotatedTo == None
    ensures var f := tokens[i].family;
            Chained(Rotate(tokens, i, newId, exp), chains[f := Longer(chains[f], newId)])
  {
    assert HasChain(tokens, chains, i);
    RotateEachChain(tokens, chains, i, newId, exp);
    RotateEachToken(tokens, chains, i, newId, exp);
  }

  /** Revoking tokens touches no link or family. */
  lemma RevokeChains(tokens: TokenMap, chains: Chains, hit: set<Id>, reuse: bool)
    requires Chained(tokens, chains)
    ensures Chained(RevokeTokens(tokens, hit, reuse), chains)
  {
    var tokens' := RevokeTokens(tokens, hit, reuse);
    forall f | f in chains ensures ChainOk(tokens', f, chains[f]) {
      assert ChainOk(tokens, f, chains[f]);
    }
    forall i | i in tokens' ensures OnChain(chains[tokens'[i].family].ids, i) {
      assert OnChain(chains[tokens[i].family].ids, i);
    }
  }

  /** Revoking some sessions together with exactly their tokens. */
  lemma RevokeTables(s: State, sids: set<Id>, hit: set<Id>, reuse: bool)
    requires TablesOk(s.sessions, s.tokens)
    requires forall i :: i in s.tokens ==> (i in hit <==> s.tokens[i].session in sids)
    ensures TablesOk(RevokeSessions(s.sessions, sids), RevokeTokens(s.tokens, hit, reuse))
  {
    var tokens' := RevokeTokens(s.tokens, hit, reuse);
    StillHaveTokens(s.sessions, s.tokens, tokens');
    assert LinksOk(RevokeSessions(s.sessions, sids), tokens');
  }

  lemma RefreshKeepsInv(s: State, chains: Chains, i: Id, newId: Id, now: int, exp: int)
    requires Inv(s, chains) && Enabled(s, Refresh(i, newId, now, exp))
    ensures Inv(Apply(s, Refresh(i, newId, now, exp)), Extend(s, chains, Refresh(i, newId, now, exp)))
  {
    var f := s.tokens[i].family;
    if Answer(s, i, now) == None {
      RotateTables(s, i, newId, exp);
      RotateChains(s.tokens, chains, i, newId, exp);
    } else if Answer(s, i, now) == Some(RefreshTokenReused) {
      ReuseKeepsInv(s, chains, i);
    }
  }

  lemma ReuseKeepsInv(s: State, chains: Chains, i: Id)
    requires Inv(s, chains) && i in s.tokens
    ensures Inv(RevokeFamily(s, s.tokens[i].family), chains)
  {
    var f := s.tokens[i].family;
    FamilyIsOneSession(s.tokens, chains, i);
    RevokeTables(s, FamilySessions(s.tokens, f), FamilyTokens(s.tokens, f), true);
    RevokeChains(s.tokens, chains, FamilyTokens(s.tokens, f), true);
  }

  /** The tokens of a family are the tokens of one session. */
  lemma FamilyIsOneSession(tokens: TokenMap, chains: Chains, i: Id)
    requires Chained(tokens, chains) && i in tokens
    ensures FamilySessions(tokens, tokens[i].family) == {tokens[i].session}
    ensures FamilyTokens(tokens, tokens[i].family) == SessionTokens(tokens, tokens[i].session)
  {
    forall j | j in tokens
      ensures tokens[j].family == tokens[i].family <==> tokens[j].session == tokens[i].session
    {
      UnrotatedIsLast(tokens, chains, i);
      UnrotatedIsLast(tokens, chains, j);
    }
    assert tokens[i].session in FamilySessions(tokens, tokens[i].family);
  }

  lemma ResetKeepsInv(s: State, chains: Chains, u: Id)
    requires Inv(s, chains)
    ensures Inv(Apply(s, ResetPassword(u)), chains)
  {
    RevokeTables(s, UserSessions(s.sessions, u), UserTokens(s.tokens, u), false);
    RevokeChains(s.tokens, chains, UserTokens(s.tokens, u), false);
  }

  lemma CallKeepsInv(s: State, chains: Chains, c: Call)
    requires Inv(s, chains) && Enabled(s, c)
    ensures Inv(Apply(s, c), Extend(s, chains, c))
  {
    match c
    case Login(u, sid, tid, fam, exp) =>
      LoginTables(s, sid, tid, Token(sid, u, fam, exp, None, false, false));
      LoginChains(s.tokens, chains, tid, Token(sid, u, fam, exp, None, false, false));
    case Refresh(i, newId, now, exp) => RefreshKeepsInv(s, chains, i, newId, now, exp);
    case Logout(u, sid) =>
      RevokeTables(s, {sid}, SessionTokens(s.tokens, sid), false);
      RevokeChains(s.tokens, chains, SessionTokens(s.tokens, sid), false);
    case ResetPassword(u) => ResetKeepsInv(s, chains, u);
  }

  lemma {:induction false} RunKeepsInv(s: State, chains: Chains, calls: seq<Call>) returns (chains': Chains)
    requires Inv(s, chains)
    ensures Inv(Run(s, calls), chains')
    decreases |calls|
  {
    chains' := chains;
    if calls != [] {
      if Enabled(s, calls[0]) {
        CallKeepsInv(s, chains, calls[0]);
        chains' := RunKeepsInv(Apply(s, calls[0]), Extend(s, chains, calls[0]), calls[1..]);
      } else {
        chains' := RunKeepsInv(s, chains, calls[1..]);
      }
    }
  }

  // ------------------------------------------------------------- theorems --

  ghost predicate Reachable(s: State) {
    exists calls :: s == Run(Empty, calls)
  }

  lemma ReachableInv(s: State) returns (chains: Chains)
    requires Reachable(s)
    ensures Inv(s, chains)
  {
    var calls :| s == Run(Empty, calls);
    chains := RunKeepsInv(Empty, map[], calls);
  }

  /** Token i is of the family exactly if it is on the chain, and unrotated exactly if it is its end. */
  ghost predicate Placed(t: Token, i: Id, family: Id, c: Chain) {
    && c.ids != []
    && (t.family == family <==> OnChain(c.ids, i))
    && (t.family == family <==> t.session == c.session)
    && (t.family == family ==> (t.rotatedTo == None <==> i == c.ids[|c.ids| - 1]))
  }

  lemma OnItsChain(tokens: TokenMap, chains: Chains, family: Id, i: Id)
    requires Chained(tokens, chains) && i in tokens && family in chains
    ensures Placed(tokens[i], i, family, chains[family])
  {
    UnrotatedIsLast(tokens, chains, i);
    assert ChainOk(tokens, family, chains[family]);
  }

  /**
   * Each family belongs to one session and is one chain under `rotatedTo`, through all its tokens, from the first
   * issued to exactly one that is not rotated.
   */
  lemma FamilyIsOneChain(s: State, family: Id) returns (c: Chain)
    requires Reachable(s) && FamilyUsed(s.tokens, family)
    ensures ChainOk(s.tokens, family, c)
    ensures forall i :: i in s.tokens ==>
              (s.tokens[i].family == family <==> OnChain(c.ids, i))
              && (s.tokens[i].family == family <==> s.tokens[i].session == c.session)
    ensures forall i :: i in s.tokens && s.tokens[i].family == family ==>
              (s.tokens[i].rotatedTo == None <==> i == c.ids[|c.ids| - 1])
  {
    var chains := ReachableInv(s);
    c := FamilyChain(s.tokens, chains, family);
    forall i | i in s.tokens
      ensures s.tokens[i].family == family <==> OnChain(c.ids, i)
      ensures s.tokens[i].family == family <==> s.tokens[i].session == c.session
      ensures s.tokens[i].family == family ==> (s.tokens[i].rotatedTo == None <==> i == c.ids[|c.ids| - 1])
    {
      assert Placed(s.tokens[i], i, family, c);
    }
  }

  lemma FamilyChain(tokens: TokenMap, chains: Chains, family: Id) returns (c: Chain)
    requires Chained(tokens, chains) && FamilyUsed(tokens, family)
    ensures ChainOk(tokens, family, c)
    ensures forall i :: i in tokens ==> Placed(tokens[i], i, family, c)
  {
    FamilyHasChain(tokens, chains, family);
    c := chains[family];
    forall i | i in tokens ensures Placed(tokens[i], i, family, c) {
      OnItsChain(tokens, chains, family, i);
    }
  }

  lemma FamilyHasChain(tokens: TokenMap, chains: Chains, family: Id)
    requires Chained(tokens, chains) && FamilyUsed(tokens, family)
    ensures family in chains && ChainOk(tokens, family, chains[family])
  {
    var i :| i in tokens && tokens[i].family == family;
    assert HasChain(tokens, chains, i);
  }

  /** A session is revoked exactly when all its tokens are, and exactly when any of them is. */
  lemma SessionRevokedWithItsTokens(s: State, sid: Id)
    requires Reachable(s) && sid in s.sessions
    ensures s.sessions[sid].revoked <==> forall i :: i in s.tokens && s.tokens[i].session == sid ==> s.tokens[i].revoked
    ensures s.sessions[sid].revoked <==> exists i :: i in s.tokens && s.tokens[i].session == sid && s.tokens[i].revoked
  {
    var chains := ReachableInv(s);
    assert HasToken(s.tokens, sid);
  }

  /** What `refresh` would exchange for a new token. */
  ghost predicate Usable(s: State, i: Id, now: int) {
    i in s.tokens && s.tokens[i].session in s.sessions && Answer(s, i, now) == None
  }

  lemma OneUsableTokenPerSession(s: State, i: Id, j: Id, now: int, later: int)
    requires Reachable(s) && Usable(s, i, now) && Usable(s, j, later) && s.tokens[i].session == s.tokens[j].session
    ensures i == j
  {
    var c := FamilyIsOneChain(s, s.tokens[i].family);
  }

  /** A rotation moves the one usable token of the session along: the old one stops, the new one works. */
  lemma RefreshHandsOver(s: State, i: Id, newId: Id, now: int, exp: int)
    requires Reachable(s) && Enabled(s, Refresh(i, newId, now, exp)) && Usable(s, i, now)
    ensures var s' := Apply(s, Refresh(i, newId, now, exp));
            && !Usable(s', i, now)
            && (exp >= now ==> Usable(s', newId, now))
            && s'.tokens[newId].session == s.tokens[i].session
            && (forall j :: j in s.tokens && j != i ==> s'.tokens[j] == s.tokens[j])
            && s'.sessions == s.sessions
  {
    var chains := ReachableInv(s);
  }

  ghost predicate FamilyDead(s: State, family: Id) {
    && (forall i :: i in s.tokens && s.tokens[i].family == family ==> s.tokens[i].revoked)
    && FamilyUsed(s.tokens, family)
  }

  lemma RevokedFamilyIsDead(s: State, i: Id)
    requires i in s.tokens
    ensures FamilyDead(RevokeFamily(s, s.tokens[i].family), s.tokens[i].family)
  {
    assert RevokeFamily(s, s.tokens[i].family).tokens[i].family == s.tokens[i].family;
  }

  /** Presenting a token kills its live family exactly when the token is rotated, unrevoked and unexpired. */
  lemma ReuseKillsFamily(s: State, i: Id, newId: Id, now: int, exp: int)
    requires Reachable(s) && Enabled(s, Refresh(i, newId, now, exp)) && !FamilyDead(s, s.tokens[i].family)
    ensures FamilyDead(Apply(s, Refresh(i, newId, now, exp)), s.tokens[i].family)
            <==> s.tokens[i].rotatedTo.Some? && !s.tokens[i].revoked && s.tokens[i].expiresAt >= now
  {
    var chains := ReachableInv(s);
    assert LinksOk(s.sessions, s.tokens);
    if Answer(s, i, now) == None {
      var tokens' := Rotate(s.tokens, i, newId, exp);
      assert tokens'[newId].family == s.tokens[i].family && !tokens'[newId].revoked;
    } else if Answer(s, i, now) == Some(RefreshTokenReused) {
      RevokedFamilyIsDead(s, i);
    }
  }

  lemma DeadFamilyStaysDead(s: State, c: Call, family: Id)
    requires LinksOk(s.sessions, s.tokens) && Enabled(s, c) && FamilyDead(s, family)
    ensures FamilyDead(Apply(s, c), family)
  {
    var k :| k in s.tokens && s.tokens[k].family == family;
    var s' := Apply(s, c);
    assert k in s'.tokens && s'.tokens[k].family == family;
  }

  /** Whatever happens afterwards, no token of a dead family is usable at any time. */
  lemma {:induction false} DeadFamilyForEver(s: State, chains: Chains, calls: seq<Call>, family: Id)
    requires Inv(s, chains) && FamilyDead(s, family)
    ensures FamilyDead(Run(s, calls), family)
    ensures forall i, now :: Usable(Run(s, calls), i, now) ==> Run(s, calls).tokens[i].family != family
    decreases |calls|
  {
    if calls != [] {
      if Enabled(s, calls[0]) {
        DeadFamilyStaysDead(s, calls[0], family);
        CallKeepsInv(s, chains, calls[0]);
        DeadFamilyForEver(Apply(s, calls[0]), Extend(s, chains, calls[0]), calls[1..], family);
      } else {
        DeadFamilyForEver(s, chains, calls[1..], family);
      }
    }
  }

  /** Presenting a rotated, unexpired, unrevoked token leaves its family with no usable token for ever. */
  lemma ReuseIsFinal(s: State, i: Id, newId: Id, now: int, exp: int, calls: seq<Call>)
    requires Reachable(s) && Enabled(s, Refresh(i, newId, now, exp))
    requires s.tokens[i].rotatedTo.Some? && !s.tokens[i].revoked && s.tokens[i].expiresAt >= now
    ensures var s' := Run(Apply(s, Refresh(i, newId, now, exp)), calls);
            forall j, later :: Usable(s', j, later) ==> s'.tokens[j].family != s.tokens[i].family
  {
    var chains := ReachableInv(s);
    ReuseKillsFamily(s, i, newId, now, exp);
    CallKeepsInv(s, chains, Refresh(i, newId, now, exp));
    DeadFamilyForEver(Apply(s, Refresh(i, newId, now, exp)), chains, calls, s.tokens[i].family);
  }

  /** A password reset leaves the user no usable token, and other users theirs. */
  lemma ResetRevokesTheUser(s: State, u: Id, i: Id, now: int)
    requires Reachable(s) && i in s.tokens
    ensures var s' := Apply(s, ResetPassword(u));
            Usable(s', i, now) <==> Usable(s, i, now) && s.tokens[i].user != u
  {
    var chains := ReachableInv(s);
  }

  /**
   * A logout ends exactly the tokens of that session, if it is the user's own; those of every other session stay as
   * usable as they were.
   */
  lemma LogoutEndsTheSession(s: State, u: Id, sid: Id, i: Id, now: int)
    requires Reachable(s) && i in s.tokens
    ensures var s' := Apply(s, Logout(u, sid));
            Usable(s', i, now) <==> Usable(s, i, now) && !(s.tokens[i].session == sid && s.tokens[i].user == u)
  {
    var chains := ReachableInv(s);
  }

  lemma ReachableLinks(s: State)
    requires Reachable(s)
    ensures LinksOk(s.sessions, s.tokens)
  {
    var chains := ReachableInv(s);
  }

  ghost predicate OneSessionEnded(was: SessionMap, sessions: SessionMap, u: Id, sid: Id) {
    && sessions.Keys == was.Keys
    && (sid in was && was[sid].user == u ==> sessions[sid] == Session(u, true))
    && (forall j :: j in was && (j != sid || was[j].user != u) ==> sessions[j] == was[j])
  }

  ghost predicate ItsTokensEnded(was: TokenMap, tokens: TokenMap, u: Id, sid: Id) {
    && tokens.Keys == was.Keys
    && forall i :: i in was ==>
         tokens[i] == if was[i].session == sid && was[i].user == u then was[i].(revoked := true) else was[i]
  }

  lemma LogoutOfLinked(s: State, u: Id, sid: Id)
    requires LinksOk(s.sessions, s.tokens)
    ensures var s' := Apply(s, Logout(u, sid));
            OneSessionEnded(s.sessions, s'.sessions, u, sid) && ItsTokensEnded(s.tokens, s'.tokens, u, sid)
  {
  }

  /** After it an own session is revoked with all its tokens, and no other row has changed. */
  lemma LogoutTouchesOneSession(s: State, u: Id, sid: Id)
    requires Reachable(s)
    ensures var s' := Apply(s, Logout(u, sid));
            OneSessionEnded(s.sessions, s'.sessions, u, sid) && ItsTokensEnded(s.tokens, s'.tokens, u, sid)
  {
    ReachableLinks(s);
    LogoutOfLinked(s, u, sid);
  }

  lemma LoginOfLinked(s: State, u: Id, sid: Id, tid: Id, family: Id, exp: int, now: int)
    requires LinksOk(s.sessions, s.tokens) && Enabled(s, Login(u, sid, tid, family, exp))
    ensures var s' := Apply(s, Login(u, sid, tid, family, exp));
            && (Usable(s', tid, now) <==> now <= exp)
            && (forall i :: i in s.tokens ==> (Usable(s', i, now) <==> Usable(s, i, now)))
  {
  }

  /** A login opens one live session with one token, usable until it expires, and changes no other row. */
  lemma LoginOpensASession(s: State, u: Id, sid: Id, tid: Id, family: Id, exp: int, now: int)
    requires Reachable(s) && Enabled(s, Login(u, sid, tid, family, exp))
    ensures var s' := Apply(s, Login(u, sid, tid, family, exp));
            && s'.sessions == s.sessions[sid := Session(u, false)]
            && s'.tokens.Keys == s.tokens.Keys + {tid} && (forall i :: i in s.tokens ==> s'.tokens[i] == s.tokens[i])
            && s'.tokens[tid].session == sid && s'.tokens[tid].user == u && s'.tokens[tid].family == family
            && (Usable(s', tid, now) <==> now <= exp)
            && (forall i :: i in s.tokens ==> (Usable(s', i, now) <==> Usable(s, i, now)))
  {
    ReachableLinks(s);
    LoginOfLinked(s, u, sid, tid, family, exp, now);
  }

  /** The token a refresh hands out lives exactly until the new expiry, for the same user and family. */
  lemma RefreshedTokenLives(s: State, i: Id, newId: Id, now: int, exp: int, later: int)
    requires Reachable(s) && Enabled(s, Refresh(i, newId, now, exp)) && Usable(s, i, now)
    ensures var s' := Apply(s, Refresh(i, newId, now, exp));
            && (Usable(s', newId, later) <==> later <= exp) && !Usable(s', i, later)
            && s'.tokens[i] == s.tokens[i].(rotatedTo := Some(newId))
            && s'.tokens[newId].user == s.tokens[i].user && s'.tokens[newId].family == s.tokens[i].family
            && s'.tokens.Keys == s.tokens.Keys + {newId}
  {
    var chains := ReachableInv(s);
  }

  /**
   * Which answer a presented token gets in a reachable state. A revoked one is told so whatever else is the matter with
   * it; one that expired unrevoked is told that, rotated or not; only a live, rotated one counts as reused.
   */
  lemma AnswersAre(s: State, i: Id, now: int)
    requires Reachable(s) && i in s.tokens
    ensures s.tokens[i].session in s.sessions
    ensures Answer(s, i, now) == Some(TokenRevoked) <==> s.tokens[i].revoked
    ensures Answer(s, i, now) == Some(TokenExpired) <==> !s.tokens[i].revoked && s.tokens[i].expiresAt < now
    ensures Answer(s, i, now) == Some(RefreshTokenReused)
            <==> !s.tokens[i].revoked && now <= s.tokens[i].expiresAt && s.tokens[i].rotatedTo.Some?
    ensures Answer(s, i, now) == None
            <==> !s.tokens[i].revoked && now <= s.tokens[i].expiresAt && s.tokens[i].rotatedTo == None
  {
    var chains := ReachableInv(s);
  }

  /** A refused refresh that is no reuse changes nothing; a reuse marks the family's live tokens and no others. */
  lemma RefusedRefresh(s: State, i: Id, newId: Id, now: int, exp: int)
    requires Reachable(s) && Enabled(s, Refresh(i, newId, now, exp)) && !Usable(s, i, now)
    ensures var s' := Apply(s, Refresh(i, newId, now, exp));
            && (Answer(s, i, now) != Some(RefreshTokenReused) ==> s' == s)
            && (Answer(s, i, now) == Some(RefreshTokenReused) ==>
                  forall j :: j in s.tokens ==>
                    s'.tokens[j] == if s.tokens[j].family == s.tokens[i].family && !s.tokens[j].revoked
                                    then s.tokens[j].(revoked := true, reuseDetected := true) else s.tokens[j])
            && s'.tokens.Keys == s.tokens.Keys
            && forall sid :: sid in s.sessions && sid != s.tokens[i].session ==> s'.sessions[sid] == s.sessions[sid]
  {
    var chains := ReachableInv(s);
    FamilyIsOneSession(s.tokens, chains, i);
  }
}
