/**
 * `ResolverMux`: an ordered list of command-family resolvers, each call a linear
 * scan that hands the message to the first resolver claiming its family.
 */
module Mux {
  import opened Wrappers
  import opened Tcmp

  const UNSUPPORTED_COMMAND: string := "Unsupported command type"
  const UNSUPPORTED_RESPONSE: string := "Unsupported response type"

  /** Some resolver claims the message's family. */
  predicate Supports(resolvers: seq<Resolver>, m: Message)
  {
    exists i :: 0 <= i < |resolvers| && resolvers[i].checkFamily(m)
  }

  /** The position of the first resolver, in list order, that claims the message. */
  function FirstMatch(resolvers: seq<Resolver>, m: Message): (r: Option<nat>)
    ensures r.None? <==> !Supports(resolvers, m)
    ensures r.Some? ==> r.value < |resolvers| && resolvers[r.value].checkFamily(m)
    ensures r.Some? ==> forall j :: 0 <= j < r.value ==> !resolvers[j].checkFamily(m)
  {
    if resolvers == [] then None
    else if resolvers[0].checkFamily(m) then Some(0)
    else match FirstMatch(resolvers[1..], m)
      case None => None
      case Some(i) => Some(i + 1)
  }

  /** `resolveCommand`: the first claiming resolver's answer, or the "Unsupported" error. */
  function ResolveCommandSpec(resolvers: seq<Resolver>, m: Message): Resolution<Command>
  {
    match FirstMatch(resolvers, m)
    case None => Threw(Error(UNSUPPORTED_COMMAND))
    case Some(i) => resolvers[i].resolveCommand(m)
  }

  /** `resolveResponse`: the first claiming resolver's answer, or the "Unsupported" error. */
  function ResolveResponseSpec(resolvers: seq<Resolver>, m: Message): Resolution<Response>
  {
    match FirstMatch(resolvers, m)
    case None => Threw(Error(UNSUPPORTED_RESPONSE))
    case Some(i) => resolvers[i].resolveResponse(m)
  }

  class ResolverMux {
    const resolvers: seq<Resolver>

    constructor (resolvers: seq<Resolver>)
      ensures this.resolvers == resolvers
    {
      this.resolvers := resolvers;
    }

    /** `checkFamily`: folds `supported = supported || resolver.checkFamily(m)` over the list. */
    method CheckFamily(m: Message) returns (supported: bool)
      ensures supported <==> exists i :: 0 <= i < |resolvers| && resolvers[i].checkFamily(m)
    {
      supported := false;
      for i := 0 to |resolvers|
        invariant supported <==> exists j :: 0 <= j < i && resolvers[j].checkFamily(m)
      {
        supported := supported || resolvers[i].checkFamily(m);
      }
    }

    /** `resolveCommand`: returns from the first resolver that claims the family. */
    method ResolveCommand(m: Message) returns (r: Resolution<Command>)
      ensures r == ResolveCommandSpec(resolvers, m)
      ensures !Supports(resolvers, m) ==> r == Threw(Error(UNSUPPORTED_COMMAND))
    {
      for i := 0 to |resolvers|
        invariant forall j :: 0 <= j < i ==> !resolvers[j].checkFamily(m)
      {
        var resolver := resolvers[i];
        if resolver.checkFamily(m) {
          return resolver.resolveCommand(m);
        }
      }
      return Threw(Error(UNSUPPORTED_COMMAND));
    }

    /** `resolveResponse`: returns from the first resolver that claims the family. */
    method ResolveResponse(m: Message) returns (r: Resolution<Response>)
      ensures r == ResolveResponseSpec(resolvers, m)
      ensures !Supports(resolvers, m) ==> r == Threw(Error(UNSUPPORTED_RESPONSE))
    {
      for i := 0 to |resolvers|
        invariant forall j :: 0 <= j < i ==> !resolvers[j].checkFamily(m)
      {
        var resolver := resolvers[i];
        if resolver.checkFamily(m) {
          return resolver.resolveResponse(m);
        }
      }
      return Threw(Error(UNSUPPORTED_RESPONSE));
    }
  }

  /** Once a resolver claims the message, resolvers after it are never consulted. */
  lemma {:induction false} LaterResolversIgnored(front: seq<Resolver>, later: seq<Resolver>, m: Message)
    requires Supports(front, m)
    ensures FirstMatch(front + later, m) == FirstMatch(front, m)
    ensures ResolveResponseSpec(front + later, m) == ResolveResponseSpec(front, m)
    ensures ResolveCommandSpec(front + later, m) == ResolveCommandSpec(front, m)
  {
    var i := FirstMatch(front, m).value;
    var all := front + later;
    assert all[i] == front[i];
    forall j | 0 <= j < i ensures !all[j].checkFamily(m) { assert all[j] == front[j]; }
    FirstMatchIsFirst(all, m, i);
  }

  /** Resolvers that do not claim the message, placed in front, change nothing. */
  lemma {:induction false} NonClaimingPrefixIgnored(front: seq<Resolver>, rest: seq<Resolver>, m: Message)
    requires forall j :: 0 <= j < |front| ==> !front[j].checkFamily(m)
    ensures ResolveResponseSpec(front + rest, m) == ResolveResponseSpec(rest, m)
    ensures ResolveCommandSpec(front + rest, m) == ResolveCommandSpec(rest, m)
  {
    var all := front + rest;
    forall j | 0 <= j < |front| ensures !all[j].checkFamily(m) { assert all[j] == front[j]; }
    if Supports(rest, m) {
      var k := FirstMatch(rest, m).value;
      assert all[|front| + k] == rest[k];
      forall j | 0 <= j < |front| + k ensures !all[j].checkFamily(m) {
        if j >= |front| { assert all[j] == rest[j - |front|]; }
      }
      FirstMatchIsFirst(all, m, |front| + k);
    } else {
      forall j | 0 <= j < |all| ensures !all[j].checkFamily(m) {
        if j >= |front| { assert all[j] == rest[j - |front|]; }
      }
    }
  }

  /** A claiming resolver with no claiming one before it is the first match. */
  lemma FirstMatchIsFirst(resolvers: seq<Resolver>, m: Message, i: nat)
    requires i < |resolvers| && resolvers[i].checkFamily(m)
    requires forall j :: 0 <= j < i ==> !resolvers[j].checkFamily(m)
    ensures FirstMatch(resolvers, m) == Some(i)
  {
    var r := FirstMatch(resolvers, m);
    assert r.Some?;
    assert !(r.value < i);
    assert !(r.value > i);
  }
}
