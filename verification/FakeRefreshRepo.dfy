/**
 The in-memory double of the token repository: a map from hash to a token on the heap, revoked in place. Its
 commands do to the documents what the collection's do, with one exception, stated at Store.
 */
module FakeRefreshRepo {
  import opened Wrappers
  import opened Errors
  import opened TokenStore
  import opened RefreshRepo
  import opened Finite

  class Cell {
    const id: TokenId
    const userId: UserId
    const hash: Hash
    const createdAt: Time
    const expiresAt: Time
    var revokedAt: Option<Time>

    constructor (id: TokenId, t: Token)
      ensures this.id == id && hash == t.hash && AsToken() == t
    {
      this.id := id;
      userId, hash, createdAt, expiresAt, revokedAt := t.userId, t.hash, t.createdAt, t.expiresAt, t.revokedAt;
    }

    function AsToken(): Token
      reads this
    {
      Token(userId, hash, createdAt, expiresAt, revokedAt)
    }
  }

  function LiveIds(docs: map<TokenId, Token>): set<TokenId> {
    set t | t in docs && !docs[t].Revoked()
  }

  /** The sweep of a user's tokens, but for those whose hash is still to be visited. */
  predicate Swept(before: map<TokenId, Token>, docs: map<TokenId, Token>, rest: set<Hash>, user: UserId, now: Time) {
    && docs.Keys == before.Keys
    && forall t <- docs :: docs[t] == (if before[t].hash in rest then before else RevokeAll(before, user, now))[t]
  }

  lemma SweptAll(before: map<TokenId, Token>, docs: map<TokenId, Token>, user: UserId, now: Time)
    requires Swept(before, docs, {}, user, now)
    ensures docs == RevokeAll(before, user, now)
  {
  }

  /** One document of the sweep. */
  function Swipe(docs: map<TokenId, Token>, id: TokenId, user: UserId, now: Time): map<TokenId, Token>
    requires id in docs
  {
    var t := docs[id];
    if t.userId == user && !t.Revoked() then docs[id := t.(revokedAt := Some(now))] else docs
  }

  lemma SweptStep(before: map<TokenId, Token>, docs: map<TokenId, Token>, rest: set<Hash>, id: TokenId, user: UserId, now: Time)
    requires Swept(before, docs, rest, user, now) && UniqueHashes(before)
    requires id in docs && docs[id].hash in rest
    ensures Swept(before, Swipe(docs, id, user, now), rest - {docs[id].hash}, user, now)
  {
  }

  /** The live documents whose hash has been visited. */
  function Visited(docs: map<TokenId, Token>, rest: set<Hash>): set<TokenId> {
    set t | t in LiveIds(docs) && docs[t].hash !in rest
  }

  lemma VisitOne(docs: map<TokenId, Token>, rest: set<Hash>, id: TokenId)
    requires UniqueHashes(docs) && id in docs && docs[id].hash in rest
    ensures Visited(docs, rest - {docs[id].hash}) == Visited(docs, rest) + (if docs[id].Revoked() then {} else {id})
    ensures id !in Visited(docs, rest)
  {
  }

  class FakeTokens {
    /** Ids are numbered from 1. */
    var sequence: nat
    var byHash: map<Hash, Cell>
    var storeErr: Option<Error>
    /** The documents the cells hold. */
    ghost var docs: map<TokenId, Token>

    constructor ()
      ensures Valid() && docs == map[] && storeErr == None
    {
      sequence, byHash, storeErr := 0, map[], None;
      docs := map[];
    }

    /** The cell under h carries the hash h and is one of the documents. */
    ghost predicate Held(h: Hash)
      requires h in byHash
      reads this, byHash[h]
    {
      byHash[h].hash == h && byHash[h].id in docs && docs[byHash[h].id] == byHash[h].AsToken()
    }

    ghost predicate Valid()
      reads this, byHash.Values
    {
      && (forall h {:trigger Held(h)} | h in byHash :: Held(h))
      && (forall t {:trigger docs[t]} | t in docs :: docs[t].hash in byHash && byHash[docs[t].hash].id == t && t <= sequence)
    }

    ghost function AsDb(): Db
      reads this
    {
      Db(docs, sequence + 1)
    }

    lemma DbIsValid()
      requires Valid()
      ensures TokenStore.Valid(AsDb())
      ensures forall h :: HashTaken(docs, h) <==> h in byHash
    {
      forall h ensures HashTaken(docs, h) <==> h in byHash {
        if h in byHash {
          assert Held(h);
        }
      }
    }

    /** The map leads from a hash to the one document with that hash. */
    lemma Indexed(h: Hash)
      requires Valid() && h in byHash
      ensures Held(h) && Lookup(docs, h) == Some(byHash[h].id)
    {
      assert Held(h);
      assert docs[byHash[h].id].hash == h;
    }

    /** Cells under different hashes are different documents. */
    lemma Apart(h: Hash, k: Hash)
      requires Valid() && h in byHash && k in byHash && h != k
      ensures byHash[h] != byHash[k] && byHash[h].id != byHash[k].id
    {
      assert Held(h) && Held(k);
      assert docs[byHash[h].id].hash == h && docs[byHash[k].id].hash == k;
    }

    /** A new hash is an insert. A hash already there is overwritten, where the collection would refuse. */
    method Store(t: Token) returns (err: Option<Error>)
      requires Valid()
      modifies this
      ensures Valid() && storeErr == old(storeErr)
      ensures old(storeErr).Some? ==> err == old(storeErr) && AsDb() == old(AsDb())
      ensures old(storeErr).None? && !HashTaken(old(docs), t.hash) ==>
        err == None && AsDb() == Insert(old(AsDb()), t, NoFault).db
      ensures old(storeErr).None? && HashTaken(old(docs), t.hash) ==>
        err == None && AsDb() == Db((old(docs) - {Lookup(old(docs), t.hash).value})[old(sequence) + 1 := t], old(sequence) + 2)
    {
      if storeErr.Some? {
        return storeErr;
      }
      DbIsValid();
      if t.hash in byHash {
        Forget(t.hash);
      }
      Put(t);
      err := None;
    }

    method Put(t: Token)
      requires Valid() && t.hash !in byHash
      modifies this`sequence, this`byHash, this`docs
      ensures Valid() && sequence == old(sequence) + 1 && docs == old(docs)[sequence := t]
    {
      sequence := sequence + 1;
      var rt := new Cell(sequence, t);
      byHash := byHash[t.hash := rt];
      docs := docs[sequence := t];
      forall h | h in byHash ensures Held(h) {
        assert h != t.hash ==> h in old(byHash) && old(Held(h));
      }
    }

    /** What overwriting a key amounts to: the entry is dropped first. */
    method Forget(h: Hash)
      requires Valid() && h in byHash
      modifies this`byHash, this`docs
      ensures Valid() && byHash == old(byHash) - {h}
      ensures HashTaken(old(docs), h) && docs == old(docs) - {Lookup(old(docs), h).value}
    {
      DbIsValid();
      Indexed(h);
      ghost var id := byHash[h].id;
      forall k | k in byHash && k != h ensures Held(k) && byHash[k].id != id {
        Apart(h, k);
        Indexed(k);
      }
      byHash := byHash - {h};
      docs := docs - {id};
      forall k | k in byHash ensures Held(k) {
        assert old(Held(k));
      }
    }

    method FindByHash(hash: Hash) returns (r: Result<(TokenId, Token), Error>)
      requires Valid()
      ensures match Lookup(docs, hash)
              case None => r == Err(TOKEN_NOT_FOUND)
              case Some(t) => r == Ok((t, docs[t]))
    {
      DbIsValid();
      if hash !in byHash {
        return Err(TOKEN_NOT_FOUND);
      }
      Indexed(hash);
      r := Ok((byHash[hash].id, byHash[hash].AsToken()));
    }

    /** Mark the cell under h revoked. */
    method RevokeCell(h: Hash, now: Time)
      requires Valid() && h in byHash && Held(h) && byHash[h].revokedAt.None?
      modifies this`docs, byHash[h]
      ensures Valid()
      ensures docs == old(docs)[byHash[h].id := old(docs)[byHash[h].id].(revokedAt := Some(now))]
    {
      ghost var id := byHash[h].id;
      Indexed(h);
      forall k | k in byHash ensures Held(k) && (k != h ==> byHash[k] != byHash[h] && byHash[k].id != id) {
        if k != h { Apart(h, k); }
      }
      byHash[h].revokedAt := Some(now);
      docs := docs[id := byHash[h].AsToken()];
      forall k | k in byHash ensures Held(k) {
        assert old(Held(k));
      }
    }

    /** Look through the cells for a live one with this id. */
    method Revoke(id: TokenId, now: Time) returns (err: Option<Error>)
      requires Valid()
      modifies this`docs, byHash.Values
      ensures Valid()
      ensures AsDb() == Claim(old(AsDb()), id, now, NoFault).db
      ensures err == if IsLive(old(docs), id) then None else Some(TOKEN_NOT_FOUND)
    {
      var rest := byHash.Keys;
      while rest != {}
        invariant rest <= byHash.Keys && Valid() && docs == old(docs)
        invariant forall h | h in byHash && h !in rest :: byHash[h].id != id || (id in docs && docs[id].Revoked())
        decreases rest
      {
        var h :| h in rest;
        rest := rest - {h};
        Indexed(h);
        if byHash[h].id == id && byHash[h].revokedAt.None? {
          RevokeCell(h, now);
          return None;
        }
      }
      err := Some(TOKEN_NOT_FOUND);
    }

    /** Go through the cells, revoking the live ones of this user. */
    method RevokeAllForUser(user: UserId, now: Time)
      requires Valid()
      modifies this`docs, byHash.Values
      ensures Valid()
      ensures AsDb() == Wipe(old(AsDb()), user, now, NoFault).db
    {
      DbIsValid();
      Sweep(user, now);
    }

    method Sweep(user: UserId, now: Time)
      requires Valid() && UniqueHashes(docs)
      modifies this`docs, byHash.Values
      ensures Valid() && docs == RevokeAll(old(docs), user, now)
    {
      ghost var before := docs;
      var rest := byHash.Keys;
      while rest != {}
        invariant rest <= byHash.Keys && Valid() && Swept(before, docs, rest, user, now)
        decreases rest
      {
        var h :| h in rest;
        Indexed(h);
        SweptStep(before, docs, rest, byHash[h].id, user, now);
        rest := rest - {h};
        RevokeIfLive(h, user, now);
      }
      SweptAll(before, docs, user, now);
    }

    method RevokeIfLive(h: Hash, user: UserId, now: Time)
      requires Valid() && h in byHash && Held(h)
      modifies this`docs, byHash[h]
      ensures Valid()
      ensures docs == Swipe(old(docs), byHash[h].id, user, now)
    {
      if byHash[h].userId == user && byHash[h].revokedAt.None? {
        RevokeCell(h, now);
      }
    }

    /** Every token in the map, revoked or not. */
    method Count() returns (n: nat)
      requires Valid()
      ensures n == |docs|
    {
      n := |byHash|;
      OneCellPerDocument();
    }

    lemma OneCellPerDocument()
      requires Valid()
      ensures |byHash| == |docs|
    {
      var ids := map h | h in byHash :: byHash[h].id;
      forall h, k | h in ids && k in ids && ids[h] == ids[k] ensures h == k {
        if h != k { Apart(h, k); }
      }
      InjectiveValues(ids);
      assert ids.Keys == byHash.Keys;
      assert ids.Values == docs.Keys by {
        forall t | t in docs ensures t in ids.Values {
          assert ids[docs[t].hash] == t;
        }
        forall t | t in ids.Values ensures t in docs {
          var h :| h in ids && ids[h] == t;
          assert Held(h);
        }
      }
    }

    method ActiveCount() returns (n: nat)
      requires Valid()
      ensures n == |LiveIds(docs)|
      ensures n == |set t | t in docs && docs[t].revokedAt.None?|
    {
      n := 0;
      var rest := byHash.Keys;
      DbIsValid();
      while rest != {}
        invariant rest <= byHash.Keys && n == |Visited(docs, rest)|
        decreases rest
      {
        var h :| h in rest;
        Indexed(h);
        VisitOne(docs, rest, byHash[h].id);
        rest := rest - {h};
        if byHash[h].revokedAt.None? {
          n := n + 1;
        }
      }
      assert Visited(docs, {}) == LiveIds(docs);
      assert LiveIds(docs) == set t | t in docs && docs[t].revokedAt.None?;
    }
  }
}
