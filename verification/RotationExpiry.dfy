/**
 The TTL index takes expired documents away on its own time. No refresh misses them, with one exception, which is
 stated exactly.
 */
module RotationExpiry {
  import opened Wrappers
  import opened TokenStore
  import opened Rotation
  import opened RotationSolo

  /** The document is gone. */
  function Without(db: Db, t: TokenId): Db {
    db.(tokens := db.tokens - {t})
  }

  lemma LookupWithout(db: Db, t: TokenId, hash: Hash)
    requires Valid(db) && t in db.tokens
    ensures Lookup(Without(db, t).tokens, hash) == if db.tokens[t].hash == hash then None else Lookup(db.tokens, hash)
  {
    if db.tokens[t].hash != hash && HashTaken(db.tokens, hash) {
      var k := Lookup(db.tokens, hash).value;
      assert k in Without(db, t).tokens && Without(db, t).tokens[k].hash == hash;
    }
  }

  /** The index only ever takes documents that have expired. */
  lemma ExpireExactly(db: Db, t: TokenId, serverNow: Time)
    ensures Expire(db, t, serverNow) ==
      if t in db.tokens && db.tokens[t].expiresAt <= serverNow then Without(db, t) else db
  {
  }

  lemma RevokeAllWithout(tokens: map<TokenId, Token>, t: TokenId, user: UserId, now: Time)
    ensures RevokeAll(tokens - {t}, user, now) == RevokeAll(tokens, user, now) - {t}
  {
  }

  lemma RotatedWithout(db: Db, t: TokenId, k: TokenId, user: UserId, now: Time, random: Hash, ttl: Time)
    requires Valid(db) && t in db.tokens && k in db.tokens && k != t
    ensures Rotated(Without(db, t), k, user, now, random, ttl) == Without(Rotated(db, k, user, now, random, ttl), t)
  {
  }

  lemma OtherRefreshed(rows: map<UserId, Email>, db: Db, t: TokenId, hash: Hash, now: Time, random: Hash, ttl: Time)
    requires Valid(db) && t in db.tokens && db.tokens[t].hash != hash
    ensures var o, o' := Refreshed(rows, db, hash, now, random, ttl), Refreshed(rows, Without(db, t), hash, now, random, ttl);
      o'.answer == o.answer && o'.db == Without(o.db, t)
  {
    LookupWithout(db, t, hash);
    match Lookup(db.tokens, hash)
    case None =>
    case Some(k) =>
      var user := db.tokens[k].userId;
      RevokeAllWithout(db.tokens, t, user, now);
      RotatedWithout(db, t, k, user, now, random, ttl);
  }

  /**
   A document the index has taken is not missed: a refresh at a time when it has expired answers as it would with it,
   and leaves the other documents as it would, unless the token was revoked, is the one presented, and its user has
   live tokens: that reuse then goes unnoticed, and the wipe does not happen.
   */
  lemma ExpiryUnnoticedIff(rows: map<UserId, Email>, db: Db, t: TokenId, serverNow: Time, hash: Hash, now: Time,
                           random: Hash, ttl: Time)
    requires Valid(db) && t in db.tokens && db.tokens[t].expiresAt <= serverNow <= now
    ensures Expire(db, t, serverNow) == Without(db, t)
    ensures var o, o' := Refreshed(rows, db, hash, now, random, ttl), Refreshed(rows, Without(db, t), hash, now, random, ttl);
      && o'.answer == o.answer
      && (o'.db == Without(o.db, t) <==>
            !(db.tokens[t].hash == hash && db.tokens[t].Revoked() && LiveOf(db.tokens, db.tokens[t].userId) != {}))
  {
    if db.tokens[t].hash != hash {
      OtherRefreshed(rows, db, t, hash, now, random, ttl);
    } else {
      LookupWithout(db, t, hash);
      assert HashTaken(db.tokens, hash) && Lookup(db.tokens, hash) == Some(t);
      if db.tokens[t].Revoked() {
        WipeWithout(db, t, db.tokens[t].userId, now);
      }
    }
  }

  /** Wiping changes nothing but a document that is gone exactly when no token of the user is live. */
  lemma WipeWithout(db: Db, t: TokenId, user: UserId, now: Time)
    requires t in db.tokens && db.tokens[t].Revoked()
    ensures Without(db, t) == Without(db.(tokens := RevokeAll(db.tokens, user, now)), t) <==> LiveOf(db.tokens, user) == {}
  {
    var wiped := RevokeAll(db.tokens, user, now);
    if k :| k in LiveOf(db.tokens, user) {
      assert wiped[k] != db.tokens[k];
      assert (wiped - {t})[k] != (db.tokens - {t})[k];
    } else {
      forall k <- db.tokens ensures wiped[k] == db.tokens[k] {
        assert k !in LiveOf(db.tokens, user);
      }
    }
  }
}
