/** The service methods over the session tables, each proved to be one call of the session machine. */
module AuthService {
  import opened Base
  import opened Sessions

  datatype ResetError = PasswordTooShort | ResetTokenExpired

  class AuthTables {
    var sessions: map<Id, Session>
    var tokens: map<Id, Token>
    var resets: map<Id, Id>       // Redis: reset token to user

    constructor ()
      ensures State(sessions, tokens) == Empty && resets == map[]
    {
      sessions, tokens, resets := map[], map[], map[];
    }

    ghost function Abs(): State
      reads this
    {
      State(sessions, tokens)
    }

    method IssueSession(user: Id, sid: Id, tid: Id, family: Id, expiresAt: int)
      requires Enabled(Abs(), Login(user, sid, tid, family, expiresAt))
      modifies this`sessions, this`tokens
      ensures old(Enabled(Abs(), Login(user, sid, tid, family, expiresAt)))
      ensures Abs() == Apply(old(Abs()), Login(user, sid, tid, family, expiresAt))
    {
      sessions := sessions[sid := Session(user, false)];
      tokens := tokens[tid := Token(sid, user, family, expiresAt, None, false, false)];
    }

    /** `presented` is the row the secret hashes to, if there is one; the result is the new token's id. */
    method Refresh(presented: Option<Id>, newId: Id, now: int, expiresAt: int) returns (r: Result<Id, AuthError>)
      requires presented.Some? ==> Enabled(Abs(), Call.Refresh(presented.value, newId, now, expiresAt))
      modifies this`sessions, this`tokens
      ensures presented == None ==> r == Err(TokenRevoked) && Abs() == old(Abs())
      ensures presented.Some? ==>
        && old(Enabled(Abs(), Call.Refresh(presented.value, newId, now, expiresAt)))
        && Abs() == Apply(old(Abs()), Call.Refresh(presented.value, newId, now, expiresAt))
        && (match Answer(old(Abs()), presented.value, now)
            case None => r == Ok(newId)
            case Some(e) => r == Err(e))
    {
      if presented == None {
        return Err(TokenRevoked);
      }
      var i := presented.value;
      var row := tokens[i];
      if row.revoked || sessions[row.session].revoked {
        return Err(TokenRevoked);
      }
      if row.expiresAt < now {
        return Err(TokenExpired);
      }
      if row.rotatedTo.Some? {
        RevokeTheFamily(row.family);
        return Err(RefreshTokenReused);
      }
      tokens := tokens[newId := Token(row.session, row.user, row.family, expiresAt, None, false, false)];
      tokens := tokens[i := row.(rotatedTo := Some(newId))];
      return Ok(newId);
    }

    /** The sessions are read before the transaction, the rows written in it. */
    method RevokeTheFamily(family: Id)
      modifies this`sessions, this`tokens
      ensures Abs() == RevokeFamily(old(Abs()), family)
    {
      var sids := set i | i in tokens && tokens[i].family == family :: tokens[i].session;
      tokens := map i | i in tokens ::
        if tokens[i].family == family && !tokens[i].revoked then tokens[i].(revoked := true, reuseDetected := true)
        else tokens[i];
      if sids != {} {
        sessions := map i | i in sessions :: if i in sids then sessions[i].(revoked := true) else sessions[i];
      }
      assert tokens == RevokeTokens(old(tokens), FamilyTokens(old(tokens), family), true);
      assert sessions == RevokeSessions(old(sessions), FamilySessions(old(tokens), family));
    }

    /** `logout`, and `revokeSession` of the users service: a missing or revoked session is a silent no-op. */
    method LogoutSession(user: Id, sid: Id)
      modifies this`sessions, this`tokens
      ensures Abs() == Apply(old(Abs()), Logout(user, sid))
      ensures var own := sid in old(sessions) && old(sessions)[sid].user == user && !old(sessions)[sid].revoked;
              && sessions == (if own then old(sessions)[sid := Session(user, true)] else old(sessions))
              && tokens.Keys == old(tokens).Keys
              && forall i :: i in tokens ==>
                   tokens[i] == if own && old(tokens)[i].session == sid then old(tokens)[i].(revoked := true)
                                else old(tokens)[i]
    {
      if sid !in sessions || sessions[sid].user != user || sessions[sid].revoked {
        return;
      }
      sessions := sessions[sid := sessions[sid].(revoked := true)];
      tokens := map i | i in tokens ::
        if tokens[i].session == sid && !tokens[i].revoked then tokens[i].(revoked := true) else tokens[i];
      assert sessions == RevokeSessions(old(sessions), {sid});
      assert tokens == RevokeTokens(old(tokens), SessionTokens(old(tokens), sid), false);
    }

    method ConfirmPasswordReset(token: Id, passwordLength: nat, minLength: nat) returns (r: Result<Id, ResetError>)
      modifies this
      ensures r.Ok? <==> passwordLength >= minLength && token in old(resets)
      ensures r.Err? ==> Abs() == old(Abs()) && resets == old(resets)
      ensures r.Err? ==> r.error == if passwordLength < minLength then PasswordTooShort else ResetTokenExpired
      ensures r.Ok? ==> r.value == old(resets)[token] && Abs() == Apply(old(Abs()), ResetPassword(r.value))
                        && resets == old(resets) - {token}
    {
      if passwordLength < minLength {
        return Err(PasswordTooShort);
      }
      if token !in resets {
        return Err(ResetTokenExpired);
      }
      var user := resets[token];
      sessions := map i | i in sessions ::
        if sessions[i].user == user && !sessions[i].revoked then sessions[i].(revoked := true) else sessions[i];
      tokens := map i | i in tokens ::
        if tokens[i].user == user && !tokens[i].revoked then tokens[i].(revoked := true) else tokens[i];
      resets := resets - {token};
      assert sessions == RevokeSessions(old(sessions), UserSessions(old(sessions), user));
      assert tokens == RevokeTokens(old(tokens), UserTokens(old(tokens), user), false);
      return Ok(user);
    }
  }
}
