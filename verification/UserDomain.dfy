/** The user entity and its invariants: the email and name normal forms, the password rule, and what New checks. */
module UserDomain {
  import opened Wrappers
  import opened Errors
  import opened Text
  import ApiErr

  type Time = int

  /**
   mail.ParseAddress accepting its argument and returning it as the bare address. The parser is not modelled;
   all that is used of it is that an accepted address has an at sign.
   */
  type AddressRule = rule: string -> bool | forall e :: rule(e) ==> '@' in e witness e => '@' in e

  const EMAIL_MAX_LEN := 254
  const NAME_MIN_RUNES := 1
  const NAME_MAX_RUNES := 100
  const PASSWORD_MIN_RUNES := 8

  const COMMON_PASSWORDS: set<string> := {
    "password", "password1", "password123", "12345678", "123456789", "qwerty123",
    "iloveyou", "admin123", "letmein1", "welcome1", "changeme", "p@ssw0rd"
  }

  /** What follows the first at sign. */
  function AfterAt(e: string): string
    requires '@' in e
  {
    if e[0] == '@' then e[1..] else AfterAt(e[1..])
  }

  function NewEmail(rule: AddressRule, raw: string): Result<string, Invalid> {
    var e := ToLower(TrimSpace(raw));
    if e == "" then Err(Invalid("email", "must not be empty"))
    else if Utf8Len(e) > EMAIL_MAX_LEN then Err(Invalid("email", "longer than 254 characters"))
    else if !rule(e) then Err(Invalid("email", "invalid email format"))
    else if '.' !in AfterAt(e) then Err(Invalid("email", "invalid email format"))
    else Ok(e)
  }

  /** What an accepted email looks like. */
  predicate EmailFit(rule: AddressRule, e: string) {
    && Trimmed(e)
    && (forall c <- e :: !('A' <= c <= 'Z'))
    && Bytes(e) <= 254
    && rule(e)
    && exists i, j | 0 <= i < j < |e| :: e[i] == '@' && e[j] == '.'
  }

  /** The trimmed lowercase form of raw is e, and e is fit to be stored. */
  ghost predicate EmailForm(rule: AddressRule, raw: string, e: string) {
    (exists n :: TrimOf(raw, n) && LowerOf(n, e)) && EmailFit(rule, e)
  }

  lemma {:induction false} DotAfterAt(e: string)
    requires '@' in e
    ensures '.' in AfterAt(e) <==> exists i, j | 0 <= i < j < |e| :: e[i] == '@' && e[j] == '.'
    decreases |e|
  {
    if e[0] == '@' {
      if '.' in e[1..] {
        var j :| 0 <= j < |e| - 1 && e[1..][j] == '.';
        assert e[0] == '@' && e[j + 1] == '.';
      }
      if i, j :| 0 <= i < j < |e| && e[i] == '@' && e[j] == '.' {
        assert e[1..][j - 1] == '.';
      }
    } else {
      DotAfterAt(e[1..]);
      if i, j :| 0 <= i < j < |e| && e[i] == '@' && e[j] == '.' {
        assert e[1..][i - 1] == '@' && e[1..][j - 1] == '.';
      }
      if i, j :| 0 <= i < j < |e| - 1 && e[1..][i] == '@' && e[1..][j] == '.' {
        assert e[i + 1] == '@' && e[j + 1] == '.';
      }
    }
  }

  lemma FitIsAccepted(rule: AddressRule, raw: string, e: string)
    requires e == ToLower(TrimSpace(raw))
    ensures NewEmail(rule, raw) == Ok(e) <==> EmailFit(rule, e)
  {
    TrimSpaceTrims(raw);
    ToLowerStable(TrimSpace(raw));
    Utf8LenIsBytes(e);
    if '@' in e {
      DotAfterAt(e);
    }
  }

  lemma FormIs(raw: string, e: string)
    ensures (exists n :: TrimOf(raw, n) && LowerOf(n, e)) <==> e == ToLower(TrimSpace(raw))
  {
    TrimSpaceIs(raw, TrimSpace(raw));
    ToLowerIs(TrimSpace(raw), e);
    if n :| TrimOf(raw, n) && LowerOf(n, e) {
      TrimSpaceIs(raw, n);
    }
  }

  /** Accepted are exactly the strings whose trimmed lowercase form is fit, and each as that form. */
  lemma NewEmailExactly(rule: AddressRule, raw: string, e: string)
    ensures NewEmail(rule, raw) == Ok(e) <==> EmailForm(rule, raw, e)
  {
    FormIs(raw, e);
    if e == ToLower(TrimSpace(raw)) {
      FitIsAccepted(rule, raw, e);
    }
  }

  /** Why an email is refused. */
  lemma EmailReasons(rule: AddressRule, raw: string, n: string, e: string)
    requires TrimOf(raw, n) && LowerOf(n, e) && !EmailFit(rule, e)
    ensures NewEmail(rule, raw) ==
      Err(Invalid("email", if e == "" then "must not be empty" else if Bytes(e) > 254 then "longer than 254 characters"
                           else "invalid email format"))
  {
    TrimSpaceIs(raw, n);
    ToLowerIs(n, e);
    Utf8LenIsBytes(e);
    NewEmailExactly(rule, raw, e);
  }

  /** Normalizing is a projection: an accepted email is its own normal form. */
  lemma NewEmailStable(rule: AddressRule, raw: string)
    ensures match NewEmail(rule, raw)
            case Ok(e) => NewEmail(rule, e) == Ok(e)
            case Err(v) => v.field == "email"
  {
    TrimSpaceTrims(raw);
    ToLowerStable(TrimSpace(raw));
    TrimSpaceTrims(ToLower(TrimSpace(raw)));
  }

  /** Spellings that differ in case and in the spaces around them are one email. */
  lemma NewEmailIgnoresSpelling(rule: AddressRule, before: string, raw: string, after: string, raw': string)
    requires Blank(before) && Blank(after) && ToLower(raw) == ToLower(raw')
    ensures NewEmail(rule, before + raw + after) == NewEmail(rule, raw')
  {
    TrimSpacePads(before, raw, after);
    TrimSpaceLower(raw);
    TrimSpaceLower(raw');
  }

  function NormalizeName(name: string): Result<string, Invalid> {
    var n := TrimSpace(name);
    if |n| < NAME_MIN_RUNES || |n| > NAME_MAX_RUNES then
      Err(Invalid("name", "must be 1\U{2013}100 characters"))
    else
      Ok(n)
  }

  ghost predicate NameForm(name: string, n: string) {
    TrimOf(name, n) && 1 <= |n| <= 100
  }

  /** Accepted are exactly the names of 1 to 100 characters once trimmed, and each as trimmed. */
  lemma NormalizeNameExactly(name: string, n: string)
    ensures NormalizeName(name) == Ok(n) <==> NameForm(name, n)
    ensures NormalizeName(name).Err? ==> NormalizeName(name).error == Invalid("name", "must be 1\U{2013}100 characters")
  {
    TrimSpaceIs(name, n);
  }

  lemma NormalizeNameStable(name: string)
    ensures match NormalizeName(name)
            case Ok(n) => NormalizeName(n) == Ok(n)
            case Err(v) => v.field == "name"
  {
    TrimSpaceTrims(name);
  }

  function ValidatePassword(plain: string): Option<Invalid> {
    if |plain| < PASSWORD_MIN_RUNES then Some(Invalid("password", "must be at least 8 characters"))
    else if ToLower(plain) in COMMON_PASSWORDS then Some(Invalid("password", "too easy to guess"))
    else None
  }

  predicate PasswordFit(plain: string) {
    |plain| >= 8 && forall w <- COMMON_PASSWORDS :: !LowerOf(plain, w)
  }

  /** Refused are exactly the passwords below 8 characters and those that are common in some spelling. */
  lemma ValidatePasswordExactly(plain: string)
    ensures ValidatePassword(plain).None? <==> PasswordFit(plain)
    ensures PasswordFit(plain) ||
      ValidatePassword(plain) ==
        Some(Invalid("password", if |plain| < 8 then "must be at least 8 characters" else "too easy to guess"))
  {
    ToLowerIs(plain, ToLower(plain));
    forall w <- COMMON_PASSWORDS ensures LowerOf(plain, w) <==> w == ToLower(plain) {
      ToLowerIs(plain, w);
    }
  }

  /** Long enough is not enough for a common password, in any case. */
  lemma CommonInAnyCase(plain: string)
    ensures LowerOf(plain, "password123") ==> ValidatePassword(plain) == Some(Invalid("password", "too easy to guess"))
    ensures ValidatePassword("Str0ng-Pass!").None?
  {
    ValidatePasswordExactly(plain);
    ValidatePasswordExactly("Str0ng-Pass!");
    assert "password123" in COMMON_PASSWORDS;
    forall w <- COMMON_PASSWORDS ensures !LowerOf("Str0ng-Pass!", w) {
      assert "Str0ng-Pass!"[6] == '-';
    }
  }

  function Failure<T>(r: Result<T, Invalid>): Option<Invalid> {
    match r
    case Ok(_) => None
    case Err(v) => Some(v)
  }

  function Collect(list: seq<Invalid>, failure: Option<Invalid>): seq<Invalid> {
    match failure
    case None => list
    case Some(v) => list + [v]
  }

  /** Every field New would reject, in the order it checks them. */
  function Failing(rule: AddressRule, name: string, email: string, password: string): (all: seq<Invalid>)
    ensures all == [] <==> NormalizeName(name).Ok? && NewEmail(rule, email).Ok? && ValidatePassword(password).None?
  {
    Collect(Collect(Collect([], Failure(NormalizeName(name))), Failure(NewEmail(rule, email))), ValidatePassword(password))
  }

  /** A new user's name, email and password are fit, and these are the forms of the first two. */
  ghost predicate Fit(rule: AddressRule, name: string, email: string, password: string, n: string, e: string) {
    NameForm(name, n) && EmailForm(rule, email, e) && PasswordFit(password)
  }

  /** Of the fields that were sent, the reported ones are those that are not fit: once each, in checking order. */
  ghost predicate ReportsUnfit(rule: AddressRule, name: Option<string>, email: Option<string>, password: Option<string>,
                               all: seq<Invalid>)
  {
    && (forall v <- all :: v.field in {"name", "email", "password"})
    && (Reports(all, "name") <==> name.Some? && forall n :: !NameForm(name.value, n))
    && (Reports(all, "email") <==> email.Some? && forall e :: !EmailForm(rule, email.value, e))
    && (Reports(all, "password") <==> password.Some? && !PasswordFit(password.value))
    && (forall i, j | 0 <= i < j < |all| :: Rank(all[i].field) < Rank(all[j].field))
  }

  lemma NameUnfit(name: string)
    ensures NormalizeName(name).Err? <==> forall n :: !NameForm(name, n)
  {
    match NormalizeName(name)
    case Ok(n) => NormalizeNameExactly(name, n);
    case Err(_) =>
      forall n ensures !NameForm(name, n) {
        NormalizeNameExactly(name, n);
      }
  }

  lemma EmailUnfit(rule: AddressRule, raw: string)
    ensures NewEmail(rule, raw).Err? <==> forall e :: !EmailForm(rule, raw, e)
  {
    match NewEmail(rule, raw)
    case Ok(e) => NewEmailExactly(rule, raw, e);
    case Err(_) =>
      forall e ensures !EmailForm(rule, raw, e) {
        NewEmailExactly(rule, raw, e);
      }
  }

  /** New's checks pass exactly for fit fields, which then are stored in these forms. */
  lemma FitExactly(rule: AddressRule, name: string, email: string, password: string, n: string, e: string)
    ensures Fit(rule, name, email, password, n, e) <==>
            Failing(rule, name, email, password) == [] && NormalizeName(name) == Ok(n) && NewEmail(rule, email) == Ok(e)
  {
    NormalizeNameExactly(name, n);
    NewEmailExactly(rule, email, e);
    ValidatePasswordExactly(password);
  }

  datatype Row = Row(name: string, email: string, passwordHash: string, createdAt: Time, updatedAt: Time)

  /** The password hasher, with a record of what it was asked to hash. */
  class Hasher {
    var calls: seq<string>
    const outcome: string -> Result<string, Error>

    constructor (outcome: string -> Result<string, Error>)
      ensures calls == [] && this.outcome == outcome
    {
      this.outcome := outcome;
      calls := [];
    }

    method Hash(plain: string) returns (r: Result<string, Error>)
      modifies this
      ensures calls == old(calls) + [plain] && r == outcome(plain)
    {
      calls := calls + [plain];
      r := outcome(plain);
    }
  }

  class User {
    var id: string
    var name: string
    var email: string
    var passwordHash: string
    var createdAt: Time
    var updatedAt: Time

    constructor Hydrate(id: string, row: Row)
      ensures this.id == id && AsRow() == row
    {
      this.id := id;
      name, email, passwordHash := row.name, row.email, row.passwordHash;
      createdAt, updatedAt := row.createdAt, row.updatedAt;
    }

    function AsRow(): Row
      reads this
    {
      Row(name, email, passwordHash, createdAt, updatedAt)
    }

    /** A valid name is normalized and stored; an invalid one leaves the user as it was. */
    method Rename(newName: string, now: Time) returns (r: Result<(), Invalid>)
      modifies this
      ensures id == old(id)
      ensures match NormalizeName(newName)
              case Ok(n) => r == Ok(()) && AsRow() == old(AsRow()).(name := n, updatedAt := now)
              case Err(v) => r == Err(v) && AsRow() == old(AsRow())
      ensures if r.Ok? then NameForm(newName, name) else forall n :: !NameForm(newName, n)
    {
      NameUnfit(newName);
      var n := NormalizeName(newName);
      if n.Err? {
        return Err(n.error);
      }
      NormalizeNameExactly(newName, n.value);
      name := n.value;
      updatedAt := now;
      r := Ok(());
    }

    method ChangeEmail(rule: AddressRule, newEmail: string, now: Time) returns (r: Result<(), Invalid>)
      modifies this
      ensures id == old(id)
      ensures match NewEmail(rule, newEmail)
              case Ok(e) => r == Ok(()) && AsRow() == old(AsRow()).(email := e, updatedAt := now)
              case Err(v) => r == Err(v) && AsRow() == old(AsRow())
      ensures if r.Ok? then EmailForm(rule, newEmail, email) else forall e :: !EmailForm(rule, newEmail, e)
    {
      EmailUnfit(rule, newEmail);
      var e := NewEmail(rule, newEmail);
      if e.Err? {
        return Err(e.error);
      }
      NewEmailExactly(rule, newEmail, e.value);
      email := e.value;
      updatedAt := now;
      r := Ok(());
    }
  }

  /**
   Every failing field is reported together, in checking order, and nothing is hashed unless all fields pass;
   then the password is hashed once and the user carries the normal forms.
   */
  method New(rule: AddressRule, name: string, email: string, password: string, hasher: Hasher, now: Time)
    returns (r: Result<User, Error>)
    modifies hasher
    ensures var bad := Failing(rule, name, email, password);
      if bad != [] then
        r == Err(Many(bad)) && hasher.calls == old(hasher.calls)
      else
        && hasher.calls == old(hasher.calls) + [password]
        && match hasher.outcome(password)
           case Err(e) => r == Err(Wrap("hash password", e))
           case Ok(h) =>
             && r.Ok? && fresh(r.value) && r.value.id == ""
             && NormalizeName(name).Ok? && NewEmail(rule, email).Ok?
             && r.value.AsRow() == Row(NormalizeName(name).value, NewEmail(rule, email).value, h, now, now)
    ensures match r
            case Ok(u) => Fit(rule, name, email, password, u.name, u.email)
            case Err(Many(all)) => all != [] && ReportsUnfit(rule, Some(name), Some(email), Some(password), all)
            case Err(_) => hasher.outcome(password).Err?
  {
    FailingFields(rule, name, email, password);
    var invalid: seq<Invalid> := [];
    var n := NormalizeName(name);
    invalid := Collect(invalid, Failure(n));
    var e := NewEmail(rule, email);
    invalid := Collect(invalid, Failure(e));
    invalid := Collect(invalid, ValidatePassword(password));
    if |invalid| > 0 {
      return Err(Many(invalid));
    }
    var h := hasher.Hash(password);
    if h.Err? {
      return Err(Wrap("hash password", h.error));
    }
    FitExactly(rule, name, email, password, n.value, e.value);
    var u := new User.Hydrate("", Row(n.value, e.value, h.value, now, now));
    r := Ok(u);
  }

  /** The reported fields are exactly the failing ones, each once, in the order name, email, password. */
  lemma FailingFields(rule: AddressRule, name: string, email: string, password: string)
    ensures var all := Failing(rule, name, email, password);
      && (forall v <- all :: v.field in {"name", "email", "password"})
      && (Reports(all, "name") <==> NormalizeName(name).Err?)
      && (Reports(all, "email") <==> NewEmail(rule, email).Err?)
      && (Reports(all, "password") <==> ValidatePassword(password).Some?)
      && (forall i, j | 0 <= i < j < |all| :: Rank(all[i].field) < Rank(all[j].field))
    ensures ReportsUnfit(rule, Some(name), Some(email), Some(password), Failing(rule, name, email, password))
  {
    NameUnfit(name);
    EmailUnfit(rule, email);
    ValidatePasswordExactly(password);
    NormalizeNameStable(name);
    NewEmailStable(rule, email);
    PasswordFailure(password);
    CollectThree(Failure(NormalizeName(name)), Failure(NewEmail(rule, email)), ValidatePassword(password));
  }

  lemma PasswordFailure(plain: string)
    ensures ValidatePassword(plain).Some? ==> ValidatePassword(plain).value.field == "password"
  {
  }

  lemma CollectThree(n: Option<Invalid>, e: Option<Invalid>, p: Option<Invalid>)
    requires (n.Some? ==> n.value.field == "name") && (e.Some? ==> e.value.field == "email")
    requires p.Some? ==> p.value.field == "password"
    ensures var all := Collect(Collect(Collect([], n), e), p);
      && (forall v <- all :: v.field in {"name", "email", "password"})
      && (Reports(all, "name") <==> n.Some?)
      && (Reports(all, "email") <==> e.Some?)
      && (Reports(all, "password") <==> p.Some?)
      && (forall i, j | 0 <= i < j < |all| :: Rank(all[i].field) < Rank(all[j].field))
  {
    var all := Collect(Collect(Collect([], n), e), p);
    assert n.Some? ==> all[0] == n.value;
    assert e.Some? ==> all[if n.Some? then 1 else 0] == e.value;
    assert p.Some? ==> all[|all| - 1] == p.value;
  }

  predicate Reports(all: seq<Invalid>, field: string) {
    exists i | 0 <= i < |all| :: all[i].field == field
  }

  function Rank(field: string): nat {
    if field == "name" then 0 else if field == "email" then 1 else if field == "password" then 2 else 3
  }

  /** What New reports reaches the caller of Classify whole and in order, however deep it has been wrapped. */
  lemma ValidationSurvivesWrapping(texts: seq<string>, all: seq<Invalid>)
    ensures ApiErr.Classified(Some(WrapAll(texts, Many(all)))) ==
            ApiErr.Problem(ApiErr.Validation, "the data sent is invalid", all)
    ensures FindOne(WrapAll(texts, Many(all))) == if all == [] then None else Some(all[0])
  {
    ApiErr.WrappingIsTransparent(texts, Many(all));
    FindOneWrapped(texts, Many(all));
  }

  lemma {:induction false} FindOneWrapped(texts: seq<string>, e: Error)
    ensures FindOne(WrapAll(texts, e)) == FindOne(e)
    decreases |texts|
  {
    if texts != [] {
      FindOneWrapped(texts[1..], e);
    }
  }
}
