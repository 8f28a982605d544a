/**
 * The intermediate representation the scanner builds from a protocol
 * schema: interfaces, their requests and events, and typed arguments.
 */
module IR {

  /** Success, or the message of the exception the scanner throws. */
  datatype Result<+T> = Ok(value: T) | Err(error: string)

  datatype Option<+T> = None | Some(value: T)

  /** Message of the exception thrown by the signature encoder. */
  const UnknownArg: string := "Unknown arg in argsToShort"

  /** Message of the exception thrown by the C-type mapping. */
  const UnknownWpType: string := "unknown wp type"

  /** The closed set of wire kinds the scanner understands. */
  const Kinds: set<string> := {"int", "uint", "fixed", "string", "object", "new_id", "array", "fd"}

  /**
   * One argument of a request or event: its C parameter type, its wire
   * kind as written in the schema, the interface it refers to (empty when
   * untyped) and its name.
   */
  datatype Arg = Arg(cType: string, wlType: string, interface: string, name: string)

  /** A request or an event: both carry an ordered argument list and a name. */
  datatype Message = Message(args: seq<Arg>, name: string)

  type Request = Message

  type Event = Message

  /** One interface of the protocol, with its requests and events in schema order. */
  datatype Interface = Interface(requests: seq<Request>, events: seq<Event>, name: string, version: int)

  /**
   * Applies f to every element in order; the first failure is the
   * result, as when the scanner throws partway through a loop.
   */
  function MapAll<A, B>(xs: seq<A>, f: A -> Result<B>): (r: Result<seq<B>>)
    ensures r.Ok? <==> forall i :: 0 <= i < |xs| ==> f(xs[i]).Ok?
    ensures r.Ok? ==> |r.value| == |xs| && forall i :: 0 <= i < |xs| ==> f(xs[i]) == Ok(r.value[i])
    ensures r.Err? ==> exists i :: 0 <= i < |xs| && f(xs[i]) == Err(r.error) && forall j :: 0 <= j < i ==> f(xs[j]).Ok?
  {
    if xs == [] then Ok([])
    else
      var prefix := xs[..|xs| - 1];
      assert forall i :: 0 <= i < |prefix| ==> prefix[i] == xs[i];
      match MapAll(prefix, f)
      case Err(e) => Err(e)
      case Ok(init) =>
        match f(xs[|xs| - 1])
        case Err(e) => Err(e)
        case Ok(y) => Ok(init + [y])
  }

  /** Once a prefix has failed, the whole list fails the same way. */
  lemma {:induction false} MapAllStopsAt<A, B>(xs: seq<A>, k: nat, f: A -> Result<B>)
    requires k <= |xs|
    requires MapAll(xs[..k], f).Err?
    ensures MapAll(xs, f) == MapAll(xs[..k], f)
    decreases |xs|
  {
    if k < |xs| {
      assert xs[..|xs| - 1][..k] == xs[..k];
      MapAllStopsAt(xs[..|xs| - 1], k, f);
    } else {
      assert xs[..k] == xs;
    }
  }

  /** Extending the list by one element extends the result by f of that element. */
  lemma MapAllSnoc<A, B>(xs: seq<A>, i: nat, f: A -> Result<B>)
    requires i < |xs|
    ensures MapAll(xs[..i + 1], f) ==
      match MapAll(xs[..i], f)
      case Err(e) => Err(e)
      case Ok(init) =>
        match f(xs[i])
        case Err(e) => Err(e)
        case Ok(y) => Ok(init + [y])
  {
    assert xs[..i + 1][..i] == xs[..i];
    assert xs[..i + 1][i] == xs[i];
  }
}
