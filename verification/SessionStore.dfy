/** The session table and the functions that issue, renew and end sessions, one call at a time. */
module SessionStore {
  import opened Wrappers
  import opened Sessions

  datatype Refusal = SessionOver | Blocked

  class PanelSessions {
    const policy: Policy
    var rows: Rows

    constructor (policy: Policy)
      ensures this.policy == policy && rows == map[]
    {
      this.policy, this.rows := policy, map[];
    }

    method OpenSession(sid: Sid, user: int, lifetime: int, now: int, remember: bool, digest: Option<string>)
      requires sid !in rows
      modifies this
      ensures rows == Opened(old(rows), sid, user, remember, digest, now + lifetime)
      ensures SessionOwner(rows, sid) == Some(user)
    {
      rows := rows[sid := Row(user, remember, now + lifetime, false, digest)];
    }

    /** Moves the end of a live session and of no other. */
    method Extend(sid: Sid, lifetime: int, now: int)
      modifies this
      ensures rows == Extended(old(rows), sid, now + lifetime)
      ensures forall k :: SessionOwner(rows, k) == SessionOwner(old(rows), k)
    {
      if sid in rows && !rows[sid].revoked {
        rows := rows[sid := rows[sid].(expiresAt := now + lifetime)];
      }
    }

    /** Whether a live session ended with it; an ended one stays as it was. */
    method Revoke(sid: Sid) returns (revoked: bool)
      modifies this
      ensures rows == Revoked(old(rows), sid)
      ensures revoked <==> SessionOwner(old(rows), sid).Some?
      ensures SessionOwner(rows, sid).None?
      ensures forall k :: k != sid ==> SessionOwner(rows, k) == SessionOwner(old(rows), k)
    {
      revoked := sid in rows && !rows[sid].revoked;
      if revoked {
        rows := rows[sid := rows[sid].(revoked := true)];
      }
    }

    method RevokeAll(user: int)
      modifies this
      ensures rows == AllRevoked(old(rows), user)
      ensures forall k ::
        SessionOwner(rows, k)
        == if SessionOwner(old(rows), k) == Some(user) then None else SessionOwner(old(rows), k)
    {
      rows := map k | k in rows :: if rows[k].user == user then rows[k].(revoked := true) else rows[k];
    }

    method PurgeExpired(now: int)
      modifies this
      ensures rows == Purged(old(rows), now - policy.keep)
      ensures forall k <- old(rows) :: k in rows <==> now - old(rows)[k].expiresAt <= policy.keep
    {
      rows := map k | k in rows && rows[k].expiresAt >= now - policy.keep :: rows[k];
    }

    /**
     A token bound to a session: a new one, or `sid` carried on when its window
     is still running. A refusal changes nothing. The clock is read for the check,
     for the row and for the token.
     */
    method IssueSessionToken(user: int, name: string, sid: Option<Sid>, newSid: Sid, start: Option<int>,
                             remember: bool, digest: Option<string>, checked: int, wrote: int, minted: int)
      returns (r: Result<Token, Refusal>)
      requires newSid !in rows
      modifies this
      ensures r.Err? <==>
              sid.Some?
              && (start.None? || checked - start.value > (if remember then policy.remember else policy.renewal))
      ensures r.Err? ==> rows == old(rows)
      ensures r.Ok? ==>
        var bound := if sid.Some? then sid.value else newSid;
        r.value == Minted(policy, minted, Grant(bound, name, if remember then None else start, remember, checked))
      ensures r.Ok? ==>
        var end := wrote + Window(policy, remember);
        rows == if sid.Some? then Extended(old(rows), sid.value, end)
                else Opened(old(rows), newSid, user, remember, digest, end)
    {
      var window := Window(policy, remember);
      var bound: Sid;
      if sid.None? {
        bound := newSid;
        OpenSession(newSid, user, window, wrote, remember, digest);
      } else {
        if !IsRenewable(policy, start, checked, remember) {
          return Err(SessionOver);
        }
        bound := sid.value;
        Extend(bound, window, wrote);
      }
      var began := if remember || start.None? then minted else start.value;
      r := Ok(Token(bound, name, Floor(minted + policy.lifetime), Some(Mark(policy, began)), remember));
    }

    /** The first door: a token its bearer could present now buys the next one. */
    method RefreshAccessToken(t: Token, user: int, spare: Sid, asked: int, checked: int, wrote: int, minted: int)
      returns (r: Result<Token, Refusal>)
      requires SessionOwner(rows, t.sid) == Some(user) && spare !in rows && asked <= checked
      modifies this
      ensures r.Ok? <==>
              t.start.Some? && checked - t.start.value <= (if t.remember then policy.remember else policy.renewal)
      ensures r.Ok? ==> r.value.sid == t.sid && r.value.remember == t.remember
      ensures r.Ok? ==> r.value.start == Some(Mark(policy, if t.remember then minted else t.start.value))
      ensures r.Ok? ==> r.value.exp == Floor(minted + policy.lifetime)
      ensures r.Ok? ==> t.sid in rows && rows[t.sid].expiresAt == wrote + Window(policy, t.remember)
      ensures r.Err? ==> rows == old(rows)
    {
      if !IsRenewable(policy, t.start, asked, t.remember) {
        return Err(SessionOver);
      }
      r := IssueSessionToken(user, t.name, Some(t.sid), spare, t.start, t.remember, None, checked, wrote, minted);
    }

    /** The second door: the credential of a live remembered session inside its window. */
    method RefreshFromCredential(sid: Sid, digest: string, name: string, active: bool, spare: Sid,
                                 now: int, wrote: int, minted: int)
      returns (r: Result<Token, Refusal>)
      requires Sensible(policy) && spare !in rows
      modifies this
      ensures r.Ok? || r == Err(Blocked) <==>
              && sid in old(rows) && old(rows)[sid].digest == Some(digest)
              && !old(rows)[sid].revoked && old(rows)[sid].remember && now < old(rows)[sid].expiresAt
      ensures r.Ok? ==> active
      ensures r == Err(Blocked) ==> !active
      ensures r.Ok? ==> r.value == Token(sid, name, Floor(minted + policy.lifetime), Some(Mark(policy, minted)), true)
      ensures r.Ok? ==> sid in rows && rows[sid].expiresAt == wrote + policy.remember
      ensures r.Err? ==> rows == old(rows)
    {
      if !CredentialHolds(rows, sid, digest, now) {
        return Err(SessionOver);
      }
      if !active {
        return Err(Blocked);
      }
      r := IssueSessionToken(rows[sid].user, name, Some(sid), spare, Some(now), true, None, now, wrote, minted);
    }
  }
}
