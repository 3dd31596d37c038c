/**
 Families. The tokens that descend from one login form a chain, and only its last token can still be live.
 Everything here is read off the invariant, so it holds in every reachable state.
 */
module RotationFamilies {
  import opened Wrappers
  import opened TokenStore
  import opened Rotation
  import opened Finite

  type Births = map<TokenId, Birth>

  /** Every parent is an earlier token of the same user. */
  predicate WellFounded(born: Births) {
    forall t <- born | born[t].origin.FromRotation? ::
      var p := born[t].origin.parent;
      p in born && p < t && born[p].user == born[t].user
  }

  /** The login call at the root of t's family. */
  ghost function LoginOf(born: Births, t: TokenId): CallId
    requires WellFounded(born) && t in born
    decreases t
  {
    match born[t].origin
    case FromLogin(c) => c
    case FromRotation(p, _) => LoginOf(born, p)
  }

  /** t descends from a, or is a. */
  ghost predicate Descends(born: Births, a: TokenId, t: TokenId)
    requires WellFounded(born) && t in born
    decreases t
  {
    a == t || (born[t].origin.FromRotation? && Descends(born, a, born[t].origin.parent))
  }

  /** The child of a on the way down to t. */
  ghost function ChildToward(born: Births, a: TokenId, t: TokenId): (child: TokenId)
    requires WellFounded(born) && t in born && a != t && Descends(born, a, t)
    ensures child in born && child <= t && born[child].origin.FromRotation? && born[child].origin.parent == a
    decreases t
  {
    var p := born[t].origin.parent;
    if p == a then t else ChildToward(born, a, p)
  }

  lemma Lineage(s: State)
    requires Inv(s)
    ensures WellFounded(s.born)
    ensures forall t <- s.born :: t < s.db.nextId && BirthOk(s, t)
    ensures forall p <- s.claims :: ClaimOk(s, p)
  {
    forall t <- s.born ensures t < s.db.nextId && BirthOk(s, t) {
    }
    forall p <- s.claims ensures ClaimOk(s, p) {
    }
  }

  /** A token has at most one child: the child was stored by the one call that claimed the token. */
  lemma OneChild(s: State, t: TokenId, t': TokenId)
    requires Inv(s) && t in s.born && t' in s.born
    requires s.born[t].origin.FromRotation? && s.born[t'].origin.FromRotation?
    requires s.born[t].origin.parent == s.born[t'].origin.parent
    ensures t == t'
  {
    assert BirthOk(s, t) && BirthOk(s, t');
  }

  /** One user per family, and the login that started it passed the password check for that user. */
  lemma {:induction false} LoginOfUser(s: State, t: TokenId)
    requires Inv(s) && t in s.born && WellFounded(s.born)
    ensures var c := LoginOf(s.born, t); c in s.authed && s.authed[c] == s.born[t].user
    decreases t
  {
    assert BirthOk(s, t);
    if s.born[t].origin.FromRotation? {
      LoginOfUser(s, s.born[t].origin.parent);
    }
  }

  /** Two tokens of one family are one below the other. */
  lemma {:induction false} Chain(s: State, t: TokenId, t': TokenId)
    requires Inv(s) && t in s.born && t' in s.born && WellFounded(s.born)
    requires LoginOf(s.born, t) == LoginOf(s.born, t') && t <= t'
    ensures Descends(s.born, t, t')
    decreases t'
  {
    assert BirthOk(s, t) && BirthOk(s, t');
    if t != t' {
      match s.born[t'].origin
      case FromLogin(c) =>
        RootFirst(s, t);
      case FromRotation(p, _) =>
        if t <= p {
          Chain(s, t, p);
        } else {
          Chain(s, p, t);
          OneChild(s, ChildToward(s.born, p, t), t');
        }
    }
  }

  /** The root of a family is its smallest id. */
  lemma {:induction false} RootFirst(s: State, t: TokenId)
    requires Inv(s) && t in s.born && WellFounded(s.born)
    ensures var c := LoginOf(s.born, t); c in s.stored && s.stored[c] <= t
    decreases t
  {
    assert BirthOk(s, t);
    if s.born[t].origin.FromRotation? {
      RootFirst(s, s.born[t].origin.parent);
    }
  }

  /** A token that is still open at the end of its chain: live, or claimed by a call that has yet to store. */
  predicate Open(s: State, t: TokenId) {
    IsLive(s.db.tokens, t) || (t in s.claims && Pending(s, s.claims[t], t))
  }

  predicate Pending(s: State, c: CallId, t: TokenId) {
    c in s.calls && Holds(s.calls[c], t)
  }

  /** A token with a child is closed for good: spent, and its claim has been used up. */
  lemma ParentIsClosed(s: State, child: TokenId)
    requires Inv(s) && child in s.born && s.born[child].origin.FromRotation?
    ensures !Open(s, s.born[child].origin.parent)
  {
    assert BirthOk(s, child);
    var p := s.born[child].origin.parent;
    assert ClaimOk(s, p);
    assert CallOk(s, s.claims[p]);
  }

  /** At most one open token per login. */
  lemma OneOpenPerLogin(s: State, t: TokenId, t': TokenId)
    requires Inv(s) && t in s.born && t' in s.born && WellFounded(s.born)
    requires Open(s, t) && Open(s, t') && LoginOf(s.born, t) == LoginOf(s.born, t')
    ensures t == t'
  {
    var lo, hi := if t <= t' then t else t', if t <= t' then t' else t;
    Chain(s, lo, hi);
    if lo != hi {
      ParentIsClosed(s, ChildToward(s.born, lo, hi));
    }
  }

  /** In the family of the newest token no other token is live. */
  lemma OnlyTheNewestLives(s: State, n: TokenId, live: TokenId)
    requires Inv(s) && n in s.born && live in s.born && WellFounded(s.born) && live <= n
    requires IsLive(s.db.tokens, live) && LoginOf(s.born, live) == LoginOf(s.born, n)
    ensures live == n
  {
    Chain(s, live, n);
    if live != n {
      ParentIsClosed(s, ChildToward(s.born, live, n));
    }
  }

  /**
   Families are chains, in every reachable state of any run: a stored token is a login's or has one parent,
   of the same user, spent; no two tokens share a parent; and each login's family has at most one live token.
   */
  lemma FamiliesAreChains(acts: seq<Action>, ttl: Time)
    ensures var s := Exec(INIT, acts, ttl);
      && WellFounded(s.born)
      && (forall t <- s.db.tokens :: t in s.born)
      && (forall t <- s.born | s.born[t].origin.FromRotation? :: Spent(s, s.born[t].origin.parent))
      && (forall t, t' | t in s.born && t' in s.born && s.born[t].origin.FromRotation? && s.born[t'].origin.FromRotation?
                         && s.born[t].origin.parent == s.born[t'].origin.parent :: t == t')
      && (forall t, t' | IsLive(s.db.tokens, t) && IsLive(s.db.tokens, t')
                         && LoginOf(s.born, t) == LoginOf(s.born, t') :: t == t')
  {
    InvInit();
    InvExec(INIT, acts, ttl);
    var s := Exec(INIT, acts, ttl);
    Lineage(s);
    forall t, t' | t in s.born && t' in s.born && s.born[t].origin.FromRotation? && s.born[t'].origin.FromRotation?
                   && s.born[t].origin.parent == s.born[t'].origin.parent
      ensures t == t'
    {
      OneChild(s, t, t');
    }
    forall t, t' | IsLive(s.db.tokens, t) && IsLive(s.db.tokens, t') && LoginOf(s.born, t) == LoginOf(s.born, t')
      ensures t == t'
    {
      OneOpenPerLogin(s, t, t');
    }
  }

  /** The step that stores a child finds the parent already claimed by the storing call, and no longer live. */
  lemma ParentSpentFirst(s: State, a: Action, ttl: Time, t: TokenId)
    requires Inv(s) && t !in s.born && t in Step(s, a, ttl).born
    ensures match Step(s, a, ttl).born[t].origin
            case FromLogin(c) => c in s.authed && s.authed[c] == Step(s, a, ttl).born[t].user
            case FromRotation(p, c) => p in s.claims && s.claims[p] == c && Spent(s, p)
  {
    NewBirth(s, a, ttl, t);
    assert CallOk(s, a.call);
    var parent := s.calls[a.call].parent;
    assert parent.Some? ==> ClaimOk(s, parent.value);
  }

  // ---- conservation ----

  function LoginsOf(s: State, user: UserId): set<CallId> {
    set c | c in s.authed && s.authed[c] == user
  }

  /** Rotations of this user that hold a claim and have yet to store the replacement. */
  function RotationsInFlight(s: State, user: UserId): set<CallId> {
    set c | c in s.calls && (s.calls[c].Issuing? || s.calls[c].Storing?)
            && s.calls[c].user == user && s.calls[c].parent.Some?
  }

  ghost function RotationLogin(s: State, c: CallId): CallId
    requires Inv(s) && WellFounded(s.born) && c in s.calls
    requires (s.calls[c].Issuing? || s.calls[c].Storing?) && s.calls[c].parent.Some?
  {
    assert CallOk(s, c);
    LoginOf(s.born, s.calls[c].parent.value)
  }

  lemma RotationOpen(s: State, c: CallId, user: UserId)
    requires Inv(s) && c in RotationsInFlight(s, user)
    ensures var p := s.calls[c].parent.value;
      p in s.born && s.born[p].user == user && p in s.claims && s.claims[p] == c && Open(s, p) && Spent(s, p)
  {
    assert CallOk(s, c);
    assert ClaimOk(s, s.calls[c].parent.value);
  }

  lemma LiveLogins(s: State, user: UserId) returns (logins: set<CallId>)
    requires Inv(s) && WellFounded(s.born)
    ensures logins == set t | t in LiveOf(s.db.tokens, user) && t in s.born :: LoginOf(s.born, t)
    ensures logins <= LoginsOf(s, user) && |logins| == |LiveOf(s.db.tokens, user)|
  {
    var m := map t | t in LiveOf(s.db.tokens, user) :: LoginOf(s.born, t);
    assert m.Keys == LiveOf(s.db.tokens, user);
    forall t, t' | t in m && t' in m && m[t] == m[t'] ensures t == t' {
      OneOpenPerLogin(s, t, t');
    }
    InjectiveValues(m);
    forall t | t in m ensures m[t] in LoginsOf(s, user) {
      LoginOfUser(s, t);
    }
    logins := m.Values;
  }

  lemma MovingLogins(s: State, user: UserId) returns (logins: set<CallId>)
    requires Inv(s) && WellFounded(s.born)
    ensures logins == set c | c in RotationsInFlight(s, user) :: RotationLogin(s, c)
    ensures logins <= LoginsOf(s, user) && |logins| == |RotationsInFlight(s, user)|
  {
    var m := map c | c in RotationsInFlight(s, user) :: RotationLogin(s, c);
    assert m.Keys == RotationsInFlight(s, user);
    forall c, c' | c in m && c' in m && m[c] == m[c'] ensures c == c' {
      RotationOpen(s, c, user);
      RotationOpen(s, c', user);
      OneOpenPerLogin(s, s.calls[c].parent.value, s.calls[c'].parent.value);
    }
    InjectiveValues(m);
    forall c | c in m ensures m[c] in LoginsOf(s, user) {
      RotationOpen(s, c, user);
      LoginOfUser(s, s.calls[c].parent.value);
    }
    logins := m.Values;
  }

  lemma Conserved(s: State, user: UserId)
    requires Inv(s) && WellFounded(s.born)
    ensures |LiveOf(s.db.tokens, user)| + |RotationsInFlight(s, user)| <= |LoginsOf(s, user)|
  {
    var live := LiveLogins(s, user);
    var moving := MovingLogins(s, user);
    forall x | x in live ensures x !in moving {
      if x in moving {
        var t :| t in LiveOf(s.db.tokens, user) && t in s.born && LoginOf(s.born, t) == x;
        var c :| c in RotationsInFlight(s, user) && RotationLogin(s, c) == x;
        RotationOpen(s, c, user);
        OneOpenPerLogin(s, t, s.calls[c].parent.value);
      }
    }
    SubsetCardinality(live + moving, LoginsOf(s, user));
  }

  /**
   Rotation never multiplies sessions: in every reachable state, the live tokens of a user and the rotations in
   flight for that user together never outnumber that user's password checks, faults included.
   */
  lemma SessionsAreConserved(acts: seq<Action>, ttl: Time, user: UserId)
    ensures var s := Exec(INIT, acts, ttl);
            |LiveOf(s.db.tokens, user)| + |RotationsInFlight(s, user)| <= |LoginsOf(s, user)|
  {
    InvInit();
    InvExec(INIT, acts, ttl);
    Lineage(Exec(INIT, acts, ttl));
    Conserved(Exec(INIT, acts, ttl), user);
  }

  function LoginStores(s: State): set<CallId> {
    set c | c in s.stored && c in s.authed
  }

  function RotationStores(s: State): set<CallId> {
    set c | c in s.stored && c !in s.authed
  }

  lemma BornMatchesStored(s: State)
    requires LineageOk(s)
    ensures |s.born| == |s.stored|
  {
    var callerOf := map t | t in s.born :: s.born[t].origin.caller;
    assert callerOf.Keys == s.born.Keys;
    forall t, t' | t in callerOf && t' in callerOf && callerOf[t] == callerOf[t'] ensures t == t' {
      assert BirthOk(s, t) && BirthOk(s, t');
    }
    InjectiveValues(callerOf);
    forall c | c in s.stored ensures c in callerOf.Values {
      assert callerOf[s.stored[c]] == c;
    }
    forall t | t in s.born ensures callerOf[t] in s.stored {
      assert BirthOk(s, t);
    }
    assert callerOf.Values == s.stored.Keys;
  }

  lemma RotationsUseClaims(s: State)
    requires LineageOk(s)
    ensures |RotationStores(s)| <= |s.claims|
  {
    forall c | c in RotationStores(s) ensures s.born[s.stored[c]].origin.FromRotation? {
      assert BirthOk(s, s.stored[c]);
    }
    var claimOf := map c | c in RotationStores(s) :: s.born[s.stored[c]].origin.parent;
    assert claimOf.Keys == RotationStores(s);
    forall c, c' | c in claimOf && c' in claimOf && claimOf[c] == claimOf[c'] ensures c == c' {
      assert BirthOk(s, s.stored[c]) && BirthOk(s, s.stored[c']);
    }
    InjectiveValues(claimOf);
    forall c | c in claimOf ensures claimOf[c] in s.claims {
      assert BirthOk(s, s.stored[c]);
    }
    SubsetCardinality(claimOf.Values, s.claims.Keys);
  }

  /**
   Every token ever stored was stored by one login or by one rotation, each of which stores at most one:
   the total is the number of storing calls, and the rotations among them are backed by distinct claims.
   */
  lemma StoresAreCounted(acts: seq<Action>, ttl: Time)
    ensures var s := Exec(INIT, acts, ttl);
            && |s.born| == |LoginStores(s)| + |RotationStores(s)|
            && |LoginStores(s)| <= |s.authed| && |RotationStores(s)| <= |s.claims|
            && |s.db.tokens| <= |s.born|
  {
    InvInit();
    InvExec(INIT, acts, ttl);
    var s := Exec(INIT, acts, ttl);
    BornMatchesStored(s);
    assert s.stored.Keys == LoginStores(s) + RotationStores(s);
    SubsetCardinality(LoginStores(s), s.authed.Keys);
    RotationsUseClaims(s);
    SubsetCardinality(s.db.tokens.Keys, s.born.Keys);
  }
}
