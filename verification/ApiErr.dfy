/** The one classification of errors both transports use. */
module ApiErr {
  import opened Wrappers
  import opened Errors

  datatype Code = Validation | UserNotFound | EmailTaken | InvalidCredentials | Unauthorized | Forbidden | Internal

  datatype Problem = Problem(code: Code, message: string, fields: seq<Invalid>)

  /**
   What Classify answers, read off the flattened tree: the first many-field failure anywhere, else the first
   one-field failure anywhere, else the sentinels in a fixed order of precedence.
   */
  function Classified(err: Option<Error>): Problem {
    match err
    case None => Problem(Internal, "an internal error occurred", [])
    case Some(e) =>
      var nodes := Preorder(e);
      if FirstMany(nodes).Some? then Problem(Validation, "the data sent is invalid", FirstMany(nodes).value)
      else if FirstOne(nodes).Some? then Problem(Validation, "the data sent is invalid", [FirstOne(nodes).value])
      else BySentinel(nodes)
  }

  function BySentinel(nodes: seq<Error>): (p: Problem)
    ensures p.code != Validation
  {
    if Sentinel(Kind.NotFound) in nodes then Problem(UserNotFound, "no user matches the one specified", [])
    else if Sentinel(Kind.EmailTaken) in nodes then Problem(Code.EmailTaken, "this email is already in use", [])
    else if Sentinel(Kind.InvalidCredentials) in nodes then
      Problem(Code.InvalidCredentials, "incorrect email or password", [])
    else if Sentinel(Kind.Unauthenticated) in nodes || Sentinel(Kind.Unauthorized) in nodes then
      Problem(Code.Unauthorized, "authentication is required before calling this", [])
    else if Sentinel(Kind.Forbidden) in nodes then Problem(Code.Forbidden, "you may only change your own account", [])
    else Problem(Internal, "an internal error occurred", [])
  }

  lemma SentinelsDecide(nodes: seq<Error>, nodes': seq<Error>)
    requires forall k :: Sentinel(k) in nodes <==> Sentinel(k) in nodes'
    ensures BySentinel(nodes) == BySentinel(nodes')
  {
  }

  /** Some field is reported as invalid. */
  predicate Invalidates(e: Error) {
    FindMany(e).Some? || FindOne(e).Some?
  }

  /** Which failure an error is answered as: an invalid field before all others, then one of six in this order. */
  predicate AnsweredAs(e: Error, code: Code) {
    if Invalidates(e) then code == Validation
    else
      match code
      case Validation => false
      case UserNotFound => Is(e, Kind.NotFound)
      case EmailTaken => Is(e, Kind.EmailTaken) && !Is(e, Kind.NotFound)
      case InvalidCredentials => Is(e, Kind.InvalidCredentials) && !Is(e, Kind.EmailTaken) && !Is(e, Kind.NotFound)
      case Unauthorized =>
        && (Is(e, Kind.Unauthenticated) || Is(e, Kind.Unauthorized))
        && !Is(e, Kind.InvalidCredentials) && !Is(e, Kind.EmailTaken) && !Is(e, Kind.NotFound)
      case Forbidden =>
        && Is(e, Kind.Forbidden) && !Is(e, Kind.Unauthenticated) && !Is(e, Kind.Unauthorized)
        && !Is(e, Kind.InvalidCredentials) && !Is(e, Kind.EmailTaken) && !Is(e, Kind.NotFound)
      case Internal =>
        && !Is(e, Kind.Forbidden) && !Is(e, Kind.Unauthenticated) && !Is(e, Kind.Unauthorized)
        && !Is(e, Kind.InvalidCredentials) && !Is(e, Kind.EmailTaken) && !Is(e, Kind.NotFound)
  }

  /** The words a caller is shown. */
  predicate Says(code: Code, message: string) {
    match code
    case Validation => message == "the data sent is invalid"
    case UserNotFound => message == "no user matches the one specified"
    case EmailTaken => message == "this email is already in use"
    case InvalidCredentials => message == "incorrect email or password"
    case Unauthorized => message == "authentication is required before calling this"
    case Forbidden => message == "you may only change your own account"
    case Internal => message == "an internal error occurred"
  }

  /** The code, the words and the fields of an answer, by what occurs in the error. */
  predicate Tells(e: Error, p: Problem) {
    && (forall c :: p.code == c <==> AnsweredAs(e, c))
    && Says(p.code, p.message)
    && p.fields == (if FindMany(e).Some? then FindMany(e).value else if FindOne(e).Some? then [FindOne(e).value] else [])
  }

  lemma ClassifiedTells(e: Error)
    ensures Tells(e, Classified(Some(e)))
  {
    SearchIsFirst(e);
    var p := Classified(Some(e));
    if !Invalidates(e) {
      SentinelTells(e);
    }
  }

  lemma SentinelTells(e: Error)
    requires !Invalidates(e)
    ensures var p := BySentinel(Preorder(e));
      (forall c :: p.code == c <==> AnsweredAs(e, c)) && Says(p.code, p.message) && p.fields == []
  {
    var code := BySentinel(Preorder(e)).code;
    SentinelAnswers(e);
    forall c ensures code == c <==> AnsweredAs(e, c) {
      OneAnswer(e, c, code);
    }
  }

  lemma SentinelAnswers(e: Error)
    requires !Invalidates(e)
    ensures AnsweredAs(e, BySentinel(Preorder(e)).code)
  {
    SearchIsFirst(e);
  }

  lemma OneAnswer(e: Error, c: Code, d: Code)
    ensures AnsweredAs(e, c) && AnsweredAs(e, d) ==> c == d
  {
  }

  method Classify(err: Option<Error>) returns (p: Problem)
    ensures p == Classified(err)
    ensures match err
            case None => p.code == Internal && Says(p.code, p.message) && p.fields == []
            case Some(e) => Tells(e, p)
  {
    if err.None? {
      return Problem(Internal, "an internal error occurred", []);
    }
    var e := err.value;
    SearchIsFirst(e);
    ClassifiedTells(e);
    var invalids := FindMany(e);
    if invalids.Some? {
      var fields: seq<Invalid> := [];
      for i := 0 to |invalids.value|
        invariant fields == invalids.value[..i]
      {
        fields := fields + [Invalid(invalids.value[i].field, invalids.value[i].reason)];
      }
      return Problem(Validation, "the data sent is invalid", fields);
    }
    var invalid := FindOne(e);
    if invalid.Some? {
      return Problem(Validation, "the data sent is invalid", [Invalid(invalid.value.field, invalid.value.reason)]);
    }
    if Is(e, Kind.NotFound) {
      return Problem(UserNotFound, "no user matches the one specified", []);
    } else if Is(e, Kind.EmailTaken) {
      return Problem(Code.EmailTaken, "this email is already in use", []);
    } else if Is(e, Kind.InvalidCredentials) {
      return Problem(Code.InvalidCredentials, "incorrect email or password", []);
    } else if Is(e, Kind.Unauthenticated) || Is(e, Kind.Unauthorized) {
      return Problem(Code.Unauthorized, "authentication is required before calling this", []);
    } else if Is(e, Kind.Forbidden) {
      return Problem(Code.Forbidden, "you may only change your own account", []);
    } else {
      return Problem(Internal, "an internal error occurred", []);
    }
  }

  /** Wrapping, to any depth, changes nothing about the answer. */
  lemma {:induction false} WrappingIsTransparent(texts: seq<string>, e: Error)
    ensures Classified(Some(WrapAll(texts, e))) == Classified(Some(e))
    decreases |texts|
  {
    if texts != [] {
      var inner, outer := WrapAll(texts[1..], e), WrapAll(texts, e);
      WrappingIsTransparent(texts[1..], e);
      assert Preorder(outer) == [outer] + Preorder(inner);
      FirstConcat([outer], Preorder(inner));
      SentinelsDecide(Preorder(outer), Preorder(inner));
    }
  }

  predicate IsValidation(node: Error) {
    node.One? || node.Many?
  }

  lemma {:induction false} FirstExists(nodes: seq<Error>)
    ensures FirstMany(nodes).Some? <==> exists n <- nodes :: n.Many?
    ensures FirstOne(nodes).Some? <==> exists n <- nodes :: n.One?
    decreases |nodes|
  {
    if nodes != [] {
      FirstExists(nodes[1..]);
      assert nodes == [nodes[0]] + nodes[1..];
    }
  }

  /** The answer is a validation failure exactly when some node of the tree, at any depth, is one. */
  lemma ValidationAnywhere(e: Error)
    ensures Classified(Some(e)).code == Validation <==> exists n <- Preorder(e) :: IsValidation(n)
    ensures (exists n <- Preorder(e) :: n.Many?) ==> Some(Classified(Some(e)).fields) == FirstMany(Preorder(e))
  {
    var nodes := Preorder(e);
    FirstExists(nodes);
    if n :| n in nodes && IsValidation(n) {
      assert n.Many? || n.One?;
    }
    if n :| n in nodes && (n.Many? || n.One?) {
      assert IsValidation(n);
    }
  }

  /** The code depends only on which failures occur somewhere in the tree, never on where or how often. */
  lemma CodeIgnoresShape(e: Error, e': Error)
    requires forall k :: Sentinel(k) in Preorder(e) <==> Sentinel(k) in Preorder(e')
    requires (exists n <- Preorder(e) :: IsValidation(n)) <==> (exists n <- Preorder(e') :: IsValidation(n))
    ensures Classified(Some(e)).code == Classified(Some(e')).code
  {
    ValidationAnywhere(e);
    ValidationAnywhere(e');
    SentinelsDecide(Preorder(e), Preorder(e'));
  }
}
