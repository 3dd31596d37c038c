/**
 The refresh token repository: four methods, each one command on the collection, and each doing to the documents
 what the specification of that command says. The server's part of a command is the loop or lookup inside it.
 */
module RefreshRepo {
  import opened Wrappers
  import opened Errors
  import opened TokenStore

  const TOKEN_NOT_FOUND := Sentinel(Kind.RefreshTokenNotFound)

  function Unreachable(text: string): Error {
    Breakdown(text, "connection lost")
  }

  class RefreshTokenRepo {
    var db: Db

    constructor ()
      ensures Valid(db) && db == Db(map[], 0)
    {
      db := Db(map[], 0);
    }

    /** The unique index answers a second document with the same hash. */
    method Store(token: Token, fault: Fault) returns (err: Option<Error>)
      requires Valid(db)
      modifies this
      ensures Valid(db)
      ensures var e := Insert(old(db), token, fault);
        db == e.db && (err == None <==> e.ok) && (err.Some? ==> Infrastructure(err.value))
    {
      if fault.RequestLost? {
        return Some(Unreachable("insert refresh token"));
      }
      if t :| t in db.tokens && db.tokens[t].hash == token.hash {
        return Some(Breakdown("insert refresh token: hash collision", "duplicate key"));
      }
      db := Db(db.tokens[db.nextId := token], db.nextId + 1);
      err := if fault.NoFault? then None else Some(Unreachable("insert refresh token"));
    }

    method FindByHash(hash: Hash, fault: Fault) returns (r: Result<(TokenId, Token), Error>)
      requires Valid(db)
      ensures if !fault.NoFault? then r.Err? && Infrastructure(r.error)
              else match Lookup(db.tokens, hash)
                   case None => r == Err(TOKEN_NOT_FOUND)
                   case Some(t) => r == Ok((t, db.tokens[t]))
    {
      if !fault.NoFault? {
        return Err(Unreachable("find refresh token"));
      }
      if t :| t in db.tokens && db.tokens[t].hash == hash {
        assert HashTaken(db.tokens, hash);
        return Ok((t, db.tokens[t]));
      }
      r := Err(TOKEN_NOT_FOUND);
    }

    /** One live token becomes revoked, or nothing changes and the caller is told there was none. */
    method Revoke(id: TokenId, now: Time, fault: Fault) returns (err: Option<Error>)
      requires Valid(db)
      modifies this
      ensures Valid(db)
      ensures var e := Claim(old(db), id, now, fault);
        && db == e.db && (err == None <==> e.ok)
        && (fault.NoFault? && !e.ok ==> err == Some(TOKEN_NOT_FOUND))
        && (!fault.NoFault? ==> err.Some? && Infrastructure(err.value))
    {
      if fault.RequestLost? {
        return Some(Unreachable("revoke refresh token"));
      }
      var matchedCount := 0;
      if id in db.tokens && db.tokens[id].revokedAt.None? {
        matchedCount := 1;
        db := db.(tokens := db.tokens[id := db.tokens[id].(revokedAt := Some(now))]);
      }
      if fault.ReplyLost? {
        return Some(Unreachable("revoke refresh token"));
      }
      err := if matchedCount == 0 then Some(TOKEN_NOT_FOUND) else None;
    }

    /** The server goes through the user's live tokens one by one; matching none is a success. */
    method RevokeAllForUser(user: UserId, now: Time, fault: Fault) returns (err: Option<Error>)
      requires Valid(db)
      modifies this
      ensures Valid(db)
      ensures var e := Wipe(old(db), user, now, fault);
        db == e.db && (err == None <==> e.ok) && (err.Some? ==> Infrastructure(err.value))
    {
      if fault.RequestLost? {
        return Some(Unreachable("revoke all refresh tokens"));
      }
      ghost var before := db.tokens;
      var rest := db.tokens.Keys;
      var tokens := db.tokens;
      while rest != {}
        invariant rest <= tokens.Keys == before.Keys
        invariant forall t <- before ::
          tokens[t] == if t in rest then before[t] else RevokeAll(before, user, now)[t]
        decreases rest
      {
        var t :| t in rest;
        rest := rest - {t};
        if tokens[t].userId == user && tokens[t].revokedAt.None? {
          tokens := tokens[t := tokens[t].(revokedAt := Some(now))];
        }
      }
      db := db.(tokens := tokens);
      assert tokens == RevokeAll(before, user, now);
      err := if fault.NoFault? then None else Some(Unreachable("revoke all refresh tokens"));
    }
  }
}
