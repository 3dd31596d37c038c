/**
 The refresh_tokens collection: the documents, and the atomic effect of each of the four commands the
 repository sends to it. A command can be hit by a fault, and a fault can strike on either side of the
 command's effect: the request may be lost before the server applies it, or the reply lost after.
 */
module TokenStore {
  import opened Wrappers

  type Time = int
  type UserId = string
  type TokenId = nat
  // Raw tokens are 256 random bits and SHA-256 is treated as injective, so a raw token is named by its hash.
  type Hash = string

  datatype Token = Token(userId: UserId, hash: Hash, createdAt: Time, expiresAt: Time, revokedAt: Option<Time>) {
    predicate Revoked() {
      revokedAt.Some?
    }
  }

  /** Document ids come from a counter: the driver never generates the same _id twice. */
  datatype Db = Db(tokens: map<TokenId, Token>, nextId: TokenId)

  predicate HashTaken(tokens: map<TokenId, Token>, hash: Hash) {
    exists t <- tokens :: tokens[t].hash == hash
  }

  /** FindOne on the hash. */
  ghost function Lookup(tokens: map<TokenId, Token>, hash: Hash): Option<TokenId> {
    if HashTaken(tokens, hash) then
      var t :| t in tokens && tokens[t].hash == hash;
      Some(t)
    else
      None
  }

  predicate IsLive(tokens: map<TokenId, Token>, t: TokenId) {
    t in tokens && !tokens[t].Revoked()
  }

  function LiveOf(tokens: map<TokenId, Token>, user: UserId): set<TokenId> {
    set t | t in tokens && tokens[t].userId == user && !tokens[t].Revoked()
  }

  predicate UniqueHashes(tokens: map<TokenId, Token>) {
    forall t, t' | t in tokens && t' in tokens && tokens[t].hash == tokens[t'].hash :: t == t'
  }

  predicate Valid(db: Db) {
    && UniqueHashes(db.tokens)
    && forall t <- db.tokens :: t < db.nextId
  }

  /** What one command did: the collection afterwards, whether it took effect, and whether the caller was told so. */
  datatype Effect = Effect(db: Db, applied: bool, ok: bool)

  /** InsertOne, arbitrated by the unique index on the hash. */
  function Insert(db: Db, token: Token, fault: Fault): Effect {
    if fault.RequestLost? || HashTaken(db.tokens, token.hash) then
      Effect(db, false, false)
    else
      Effect(Db(db.tokens[db.nextId := token], db.nextId + 1), true, fault.NoFault?)
  }

  /** UpdateOne on {_id, revoked_at absent}: a compare-and-swap on "not yet revoked". */
  function Claim(db: Db, t: TokenId, now: Time, fault: Fault): Effect {
    if fault.RequestLost? || !IsLive(db.tokens, t) then
      Effect(db, false, false)
    else
      Effect(db.(tokens := db.tokens[t := db.tokens[t].(revokedAt := Some(now))]), true, fault.NoFault?)
  }

  function RevokeAll(tokens: map<TokenId, Token>, user: UserId, now: Time): map<TokenId, Token> {
    map t | t in tokens ::
      if tokens[t].userId == user && !tokens[t].Revoked() then tokens[t].(revokedAt := Some(now)) else tokens[t]
  }

  /** UpdateMany on {user_id, revoked_at absent}. Matching nothing is a success. */
  function Wipe(db: Db, user: UserId, now: Time, fault: Fault): Effect {
    if fault.RequestLost? then
      Effect(db, false, false)
    else
      Effect(db.(tokens := RevokeAll(db.tokens, user, now)), true, fault.NoFault?)
  }

  /** The TTL index removing one document whose expiry has passed on the server's clock. */
  function Expire(db: Db, t: TokenId, serverNow: Time): Db {
    if t in db.tokens && db.tokens[t].expiresAt <= serverNow then db.(tokens := db.tokens - {t}) else db
  }
}
