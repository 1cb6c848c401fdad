/** Shared vocabulary of the three controllers: identities, the acting user,
    and the structured failures every handler answers with. */
module Common {

  datatype Option<+T> = None | Some(value: T)

  /** Database ids are opaque; only equality is ever used on them. */
  type UserId = nat

  datatype Role = Admin | Member

  /** The authenticated caller, as the authentication middleware resolves it. */
  datatype Actor = Actor(id: UserId, role: Role)
  {
    predicate IsAdmin() { role == Admin }
  }

  /** The failures a handler reports; each carries the message the handler sends.
      ServerError stands for the catch-all 500 answer. */
  datatype Error =
    | NotFound(msg: string)
    | Forbidden(msg: string)
    | BadRequest(msg: string)
    | ServerError
  {
    /** The HTTP status code the handler sets for this failure. */
    function Code(): (c: nat)
      ensures 400 <= c <= 500
      ensures c == 404 <==> NotFound?
      ensures c == 403 <==> Forbidden?
      ensures c == 400 <==> BadRequest?
    {
      match this
      case NotFound(_) => 404
      case Forbidden(_) => 403
      case BadRequest(_) => 400
      case ServerError => 500
    }
  }

  datatype Result<+T> = Ok(value: T) | Fail(error: Error)

  /** The answer of a handler whose success carries nothing the model needs. */
  datatype Outcome = Done | Failed(error: Error)

  /** JavaScript's `a || b` on strings: the empty string is falsy. */
  function OrElse(given: string, current: string): (r: string)
    ensures r == given || r == current
    ensures r == "" ==> given == "" && current == ""
    ensures given != "" ==> r == given
  {
    if given != "" then given else current
  }

  /** JavaScript's `a || b` on an optional body field. */
  function OptOrElse<T>(given: Option<T>, current: T): (r: T)
    ensures given.Some? ==> r == given.value
    ensures given.None? ==> r == current
  {
    if given.Some? then given.value else current
  }

  /** `$pull`: every occurrence of `x` removed, the rest kept in order. */
  function Pull(s: seq<UserId>, x: UserId): (r: seq<UserId>)
    ensures x !in r
    ensures forall y :: y != x ==> (y in r <==> y in s)
    ensures |r| <= |s|
    ensures x !in s ==> r == s
  {
    if s == [] then []
    else if s[0] == x then Pull(s[1..], x)
    else [s[0]] + Pull(s[1..], x)
  }

  lemma {:induction false} PullMultiset(s: seq<UserId>, x: UserId)
    ensures multiset(Pull(s, x)) == multiset(s)[x := 0]
  {
    if s != [] {
      PullMultiset(s[1..], x);
      assert s == [s[0]] + s[1..];
    }
  }
}
