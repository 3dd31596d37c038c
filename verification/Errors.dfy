/**
 Errors as values: the sentinels, the one-field and many-field validation failures, and the two ways Go wraps
 them. errors.As and errors.Is search that tree depth first, a node before its children, left to right.
 */
module Errors {
  import opened Wrappers

  datatype Invalid = Invalid(field: string, reason: string)

  datatype Kind =
    | NotFound
    | EmailTaken
    | InvalidCredentials
    | Unauthorized
    | Forbidden
    | Unauthenticated
    | PasswordMismatch
    | RefreshTokenNotFound

  datatype Error =
    | Sentinel(kind: Kind)
    | One(invalid: Invalid)
    | Many(all: seq<Invalid>)
    | Wrap(text: string, inner: Error)
    | Join(children: seq<Error>)
    | Opaque(text: string)

  /** errors.As for ValidationErrors. */
  function FindMany(e: Error): Option<seq<Invalid>> {
    match e
    case Many(all) => Some(all)
    case Wrap(_, inner) => FindMany(inner)
    case Join(children) => FindManyIn(children)
    case _ => None
  }

  function FindManyIn(es: seq<Error>): Option<seq<Invalid>> {
    if es == [] then None
    else if FindMany(es[0]).Some? then FindMany(es[0])
    else FindManyIn(es[1..])
  }

  /** errors.As for ErrValidation; a ValidationErrors unwraps to its elements. */
  function FindOne(e: Error): Option<Invalid> {
    match e
    case One(invalid) => Some(invalid)
    case Many(all) => if all == [] then None else Some(all[0])
    case Wrap(_, inner) => FindOne(inner)
    case Join(children) => FindOneIn(children)
    case _ => None
  }

  function FindOneIn(es: seq<Error>): Option<Invalid> {
    if es == [] then None
    else if FindOne(es[0]).Some? then FindOne(es[0])
    else FindOneIn(es[1..])
  }

  /** errors.Is for a sentinel. */
  predicate Is(e: Error, kind: Kind) {
    match e
    case Sentinel(k) => k == kind
    case Wrap(_, inner) => Is(inner, kind)
    case Join(children) => exists i | 0 <= i < |children| :: Is(children[i], kind)
    case _ => false
  }

  /** An infrastructure error: no sentinel and no invalid field is anywhere inside it. */
  predicate Infrastructure(e: Error) {
    (forall k :: !Is(e, k)) && FindMany(e).None? && FindOne(e).None?
  }

  predicate Broke<T>(r: Result<T, Error>) {
    r.Err? && Infrastructure(r.error)
  }

  /** A fault of the store or of a library, as it is wrapped on the way up. */
  function Breakdown(text: string, cause: string): (e: Error)
    ensures Infrastructure(e)
  {
    assert Infrastructure(Opaque(cause));
    assert FindMany(Wrap(text, Opaque(cause))) == FindMany(Opaque(cause));
    assert FindOne(Wrap(text, Opaque(cause))) == FindOne(Opaque(cause));
    Wrap(text, Opaque(cause))
  }

  // ---- the tree, flattened ----

  function Ones(all: seq<Invalid>): (es: seq<Error>)
    ensures |es| == |all| && forall i | 0 <= i < |all| :: es[i] == One(all[i])
  {
    seq(|all|, i requires 0 <= i < |all| => One(all[i]))
  }

  /** Every node of the tree, in the order the search visits them. */
  function Preorder(e: Error): (nodes: seq<Error>)
    ensures |nodes| >= 1 && nodes[0] == e
  {
    match e
    case Many(all) => [e] + Ones(all)
    case Wrap(_, inner) => [e] + Preorder(inner)
    case Join(children) => [e] + PreorderIn(children)
    case _ => [e]
  }

  function PreorderIn(es: seq<Error>): seq<Error> {
    if es == [] then [] else Preorder(es[0]) + PreorderIn(es[1..])
  }

  function FirstMany(nodes: seq<Error>): Option<seq<Invalid>> {
    if nodes == [] then None else if nodes[0].Many? then Some(nodes[0].all) else FirstMany(nodes[1..])
  }

  function FirstOne(nodes: seq<Error>): Option<Invalid> {
    if nodes == [] then None else if nodes[0].One? then Some(nodes[0].invalid) else FirstOne(nodes[1..])
  }

  lemma {:induction false} FirstConcat(xs: seq<Error>, ys: seq<Error>)
    ensures FirstMany(xs + ys) == if FirstMany(xs).Some? then FirstMany(xs) else FirstMany(ys)
    ensures FirstOne(xs + ys) == if FirstOne(xs).Some? then FirstOne(xs) else FirstOne(ys)
    decreases |xs|
  {
    if xs == [] {
      assert xs + ys == ys;
    } else {
      FirstConcat(xs[1..], ys);
      assert (xs + ys)[1..] == xs[1..] + ys;
    }
  }

  lemma {:induction false} NoManyInOnes(all: seq<Invalid>)
    ensures FirstMany(Ones(all)).None?
    ensures FirstOne(Ones(all)) == if all == [] then None else Some(all[0])
    decreases |all|
  {
    if all != [] {
      NoManyInOnes(all[1..]);
      assert Ones(all)[1..] == Ones(all[1..]);
    }
  }

  /** The searches find the first matching node of the preorder, if there is one. */
  lemma {:induction false} SearchIsFirst(e: Error)
    ensures FindMany(e) == FirstMany(Preorder(e))
    ensures FindOne(e) == FirstOne(Preorder(e))
    ensures forall k :: Is(e, k) <==> Sentinel(k) in Preorder(e)
    decreases e, 0
  {
    match e
    case Many(all) =>
      NoManyInOnes(all);
      FirstConcat([e], Ones(all));
    case Wrap(_, inner) =>
      SearchIsFirst(inner);
      FirstConcat([e], Preorder(inner));
    case Join(children) =>
      SearchIsFirstIn(children);
      FirstConcat([e], PreorderIn(children));
    case _ =>
  }

  lemma {:induction false} SearchIsFirstIn(es: seq<Error>)
    ensures FindManyIn(es) == FirstMany(PreorderIn(es))
    ensures FindOneIn(es) == FirstOne(PreorderIn(es))
    ensures forall k :: (exists i | 0 <= i < |es| :: Is(es[i], k)) <==> Sentinel(k) in PreorderIn(es)
    decreases es, 1
  {
    if es != [] {
      SearchIsFirst(es[0]);
      SearchIsFirstIn(es[1..]);
      FirstConcat(Preorder(es[0]), PreorderIn(es[1..]));
      forall k
        ensures (exists i | 0 <= i < |es| :: Is(es[i], k)) <==>
                Is(es[0], k) || exists i | 0 <= i < |es| - 1 :: Is(es[1..][i], k)
      {
        if i :| 0 <= i < |es| && Is(es[i], k) {
          assert i > 0 ==> Is(es[1..][i - 1], k);
        }
        if i :| 0 <= i < |es| - 1 && Is(es[1..][i], k) {
          assert Is(es[i + 1], k);
        }
      }
    }
  }

  /** Of joined errors the earlier are searched first, and a single one is searched as if it stood alone. */
  lemma {:induction false} JoinedInOrder(es: seq<Error>, fs: seq<Error>)
    ensures FindMany(Join(es + fs)) == if FindMany(Join(es)).Some? then FindMany(Join(es)) else FindMany(Join(fs))
    ensures FindOne(Join(es + fs)) == if FindOne(Join(es)).Some? then FindOne(Join(es)) else FindOne(Join(fs))
    ensures |es| == 1 ==> FindMany(Join(es)) == FindMany(es[0]) && FindOne(Join(es)) == FindOne(es[0])
    decreases |es|
  {
    if es == [] {
      assert es + fs == fs;
    } else {
      assert (es + fs)[1..] == es[1..] + fs;
      JoinedInOrder(es[1..], fs);
      assert FindManyIn(es[1..] + fs) == FindMany(Join(es[1..] + fs));
      assert FindOneIn(es[1..] + fs) == FindOne(Join(es[1..] + fs));
    }
  }

  function WrapAll(texts: seq<string>, e: Error): Error {
    if texts == [] then e else Wrap(texts[0], WrapAll(texts[1..], e))
  }
}
