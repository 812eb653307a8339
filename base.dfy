/** Values the JavaScript code expresses with `null`/`undefined`, thrown errors
    and truthiness tests. */
module Base {

  /** A possibly absent value: `None` stands for a missing key, `undefined` or `null`. */
  datatype Option<+T> = None | Some(value: T)
  {
    /** `x ?? d` */
    function OrElse(d: T): T
    {
      match this
      case Some(v) => v
      case None => d
    }
  }

  /** What the services throw. */
  datatype ErrorKind =
    | NameRequired                 // 'Project name is required' / 'Team member name is required'
    | NotFound(id: string)         // '... with id <id> not found'
    | NotAnArray                   // 'Projects must be an array' / 'Team members must be an array'
    | RemoteFailure                // a rejected Firestore call, rethrown to the caller
    | StorageFailure               // localStorage.setItem threw
    | ImportFailed(cause: ErrorKind) // 'Failed to import: <message>'
    | Unparseable                  // JSON.parse threw

  /** A call that either returns a value or throws. */
  datatype Result<+T> = Ok(value: T) | Err(error: ErrorKind)

  /** A string-valued expression is truthy when it is present and not empty. */
  predicate Truthy(s: Option<string>)
  {
    s.Some? && s.value != ""
  }

  /** `s || d` for a string-valued expression `s`. */
  function StrOr(s: Option<string>, d: string): (r: string)
    ensures Truthy(s) ==> r == s.value
    ensures !Truthy(s) ==> r == d
  {
    if Truthy(s) then s.value else d
  }

  /** `s || null` for a string-valued expression `s`: the empty string becomes null. */
  function OrNull(s: Option<string>): (r: Option<string>)
    ensures r.Some? <==> Truthy(s)
    ensures r.Some? ==> r == s
  {
    if Truthy(s) then s else None
  }

  /** A subscriber, told apart from the others by identity (`l !== listener`). */
  type ListenerId = nat

  /** One call `listener(payload)` made by `notifyListeners`. */
  datatype Notice<T> = Notice(listener: ListenerId, payload: T)

  /** The calls `notifyListeners` makes: every subscriber, in subscription
      order, with the same payload. A subscriber that throws is caught and
      logged, so it does not stop the others. */
  function Deliveries<T>(ls: seq<ListenerId>, payload: T): (r: seq<Notice<T>>)
    ensures |r| == |ls|
    ensures forall i :: 0 <= i < |ls| ==> r[i] == Notice(ls[i], payload)
  {
    seq(|ls|, i requires 0 <= i < |ls| => Notice(ls[i], payload))
  }

  /** The unsubscribe closure: `listeners.filter((l) => l !== listener)`. */
  function Without(ls: seq<ListenerId>, l: ListenerId): (r: seq<ListenerId>)
    ensures l !in r
    ensures forall x :: x in ls && x != l ==> x in r
    ensures forall x :: x in r ==> x in ls
  {
    if ls == [] then []
    else if ls[|ls| - 1] == l then Without(ls[..|ls| - 1], l)
    else Without(ls[..|ls| - 1], l) + [ls[|ls| - 1]]
  }

  /** The filter keeps the order of the listeners it keeps: filtering two
      halves is filtering each. */
  lemma {:induction false} WithoutAppend(a: seq<ListenerId>, b: seq<ListenerId>, l: ListenerId)
    ensures Without(a + b, l) == Without(a, l) + Without(b, l)
  {
    if b == [] {
      assert a + b == a;
    } else {
      var init := b[..|b| - 1];
      var last := b[|b| - 1];
      assert (a + b)[..|a + b| - 1] == a + init;
      assert (a + b)[|a + b| - 1] == last;
      WithoutAppend(a, init, l);
    }
  }

  /** Filtering out a listener that is not registered changes nothing. */
  lemma {:induction false} WithoutAbsentListener(ls: seq<ListenerId>, l: ListenerId)
    requires l !in ls
    ensures Without(ls, l) == ls
  {
    if ls != [] {
      assert ls[..|ls| - 1] + [ls[|ls| - 1]] == ls;
      WithoutAbsentListener(ls[..|ls| - 1], l);
    }
  }

  /** The filter on one listener: dropped when it is the one unsubscribed,
      kept otherwise. */
  lemma WithoutSingle(x: ListenerId, l: ListenerId)
    ensures Without([x], l) == if x == l then [] else [x]
  {
    assert [x][..0] == [];
  }
}
