// Connecting through the bastions and authenticating at every hop (src/connect.rs, `all_in_agent` of
// src/auth.rs). Every foreign call is answered by an oracle, given the number of calls so far.
module Connect {
  import opened Text
  import opened ProxyJump
  import opened AuthStack

  /** Hops are numbered along the route; the handle of a hop is its number. */
  datatype Call =
    | OpenChannel(via: nat, dest: Dest)
    | MakeHandler(host: Host)
    | Establish(through: Option<nat>, dest: Dest)
    | Perform(hop: nat, user: string, method_: AuthMethod)

  datatype Reply = Good | Refused | Broken

  datatype Event = Event(call: Call, reply: Reply)

  type Oracle = (nat, Call) -> Reply

  /** The replies of `events` are those of the oracle, `start` calls having been made before. */
  predicate Answered(oracle: Oracle, start: nat, events: seq<Event>) {
    forall i :: 0 <= i < |events| ==> events[i].reply == oracle(start + i, events[i].call)
  }

  // ---- What one hop does ----

  /** The calls before the authentication: the channel is opened through the previous hop. */
  function Prelude(route: seq<Host>, hop: nat): seq<Call>
    requires hop < |route|
  {
    (if hop > 0 then [OpenChannel(hop - 1, route[hop].dest)] else [])
    + [MakeHandler(route[hop]), Establish(if hop > 0 then Some(hop - 1) else None, route[hop].dest)]
  }

  function Attempts(hop: nat, user: string, stack: seq<AuthMethod>): (r: seq<Call>)
    ensures |r| == |stack| && forall i :: 0 <= i < |r| ==> r[i] == Perform(hop, user, stack[i])
  {
    seq(|stack|, i requires 0 <= i < |stack| => Perform(hop, user, stack[i]))
  }

  function Plan(route: seq<Host>, keys: KeyTypes, hop: nat): seq<Call>
    requires hop < |route|
  {
    Prelude(route, hop) + Attempts(hop, route[hop].dest.user, Built(keys, route[hop].auth))
  }

  function Calls(events: seq<Event>): (r: seq<Call>)
    ensures |r| == |events| && forall i :: 0 <= i < |r| ==> r[i] == events[i].call
  {
    seq(|events|, i requires 0 <= i < |events| => events[i].call)
  }

  /** A call that lets the hop go on: any good reply before the authentication, a refusal in it. */
  predicate GoesOn(e: Event) {
    if e.call.Perform? then e.reply.Refused? else e.reply.Good?
  }

  /** The calls follow the plan of the hop, and every one but the last lets it go on. */
  ghost predicate Follows(route: seq<Host>, keys: KeyTypes, hop: nat, events: seq<Event>)
    requires hop < |route|
  {
    && Calls(events) <= Plan(route, keys, hop)
    && forall i :: 0 <= i < |events| - 1 ==> GoesOn(events[i])
  }

  /** The last call authenticated. */
  predicate Succeeds(events: seq<Event>) {
    events != [] && events[|events| - 1].call.Perform? && events[|events| - 1].reply.Good?
  }

  /** The hop stopped for good: a call failed, or no method is left. */
  predicate Fails(route: seq<Host>, keys: KeyTypes, hop: nat, events: seq<Event>)
    requires hop < |route|
  {
    && events != [] && !Succeeds(events)
    && (GoesOn(events[|events| - 1]) ==> Calls(events) == Plan(route, keys, hop))
  }

  // ---- The methods ----

  /** The loop of `auth`, after the events of this hop so far. */
  method Authenticate(oracle: Oracle, start: nat, route: seq<Host>, keys: KeyTypes, hop: nat, events: seq<Event>)
    returns (r: seq<Event>, ok: bool)
    requires hop < |route| && Answered(oracle, start, events)
    requires Calls(events) == Prelude(route, hop)
    requires forall i :: 0 <= i < |events| ==> GoesOn(events[i])
    ensures Answered(oracle, start, r) && Follows(route, keys, hop, r)
    ensures if ok then Succeeds(r) else Fails(route, keys, hop, r)
  {
    r := events;
    var user := route[hop].dest.user;
    var inner := FromConfig(keys, route[hop].auth);
    var stack := inner.Items();
    ghost var attempts := Attempts(hop, user, stack);
    assert attempts[..0] == [];
    hide Prelude, Attempts, Built, Fails, Follows, Calls, Answered;
    for i := 0 to |stack|
      invariant Calls(r) == Prelude(route, hop) + attempts[..i]
      invariant Answered(oracle, start, r)
      invariant forall j :: 0 <= j < |r| ==> GoesOn(r[j])
    {
      var call := Perform(hop, user, stack[i]);
      var reply := oracle(start + |r|, call);
      AttemptStep(oracle, start, route, keys, hop, r, i, Event(call, reply));
      r := r + [Event(call, reply)];
      match reply {
        case Good => return r, true;
        case Broken => return r, false;
        case Refused =>
      }
    }
    AttemptsFollow(route, keys, hop, r, |stack|);
    Exhausted(route, keys, hop, r);
    ok := false;
  }

  /** One more method: the hop still follows its plan, and stops unless the method was refused. */
  lemma AttemptStep(oracle: Oracle, start: nat, route: seq<Host>, keys: KeyTypes, hop: nat, events: seq<Event>,
                    i: nat, e: Event)
    requires hop < |route| && i < |Built(keys, route[hop].auth)|
    requires var attempts := Attempts(hop, route[hop].dest.user, Built(keys, route[hop].auth));
      Calls(events) == Prelude(route, hop) + attempts[..i]
    requires Answered(oracle, start, events) && e.reply == oracle(start + |events|, e.call)
    requires forall j :: 0 <= j < |events| ==> GoesOn(events[j])
    requires e.call == Perform(hop, route[hop].dest.user, Built(keys, route[hop].auth)[i])
    ensures var attempts := Attempts(hop, route[hop].dest.user, Built(keys, route[hop].auth));
      Calls(events + [e]) == Prelude(route, hop) + attempts[..i + 1]
    ensures Answered(oracle, start, events + [e]) && Follows(route, keys, hop, events + [e])
    ensures if e.reply.Good? then Succeeds(events + [e]) else e.reply.Broken? ==> Fails(route, keys, hop, events + [e])
  {
    CallsPush(oracle, start, events, e);
    var attempts := Attempts(hop, route[hop].dest.user, Built(keys, route[hop].auth));
    hide Prelude, Attempts, Built, Follows, Calls, Answered;
    Assoc(Prelude(route, hop), attempts[..i], [e.call]);
    assert attempts[..i + 1] == attempts[..i] + [e.call];
    AttemptsFollow(route, keys, hop, events + [e], i + 1);
  }

  lemma Exhausted(route: seq<Host>, keys: KeyTypes, hop: nat, events: seq<Event>)
    requires hop < |route| && events != [] && Calls(events) == Plan(route, keys, hop)
    requires GoesOn(events[|events| - 1])
    ensures Fails(route, keys, hop, events)
  {
  }

  lemma CallsPush(oracle: Oracle, start: nat, events: seq<Event>, e: Event)
    requires Answered(oracle, start, events) && e.reply == oracle(start + |events|, e.call)
    ensures Answered(oracle, start, events + [e])
    ensures Calls(events + [e]) == Calls(events) + [e.call]
  {
  }

  lemma AttemptsFollow(route: seq<Host>, keys: KeyTypes, hop: nat, events: seq<Event>, n: nat)
    requires hop < |route| && n <= |Built(keys, route[hop].auth)|
    requires var attempts := Attempts(hop, route[hop].dest.user, Built(keys, route[hop].auth));
      Calls(events) == Prelude(route, hop) + attempts[..n]
    requires forall i :: 0 <= i < |events| - 1 ==> GoesOn(events[i])
    ensures Follows(route, keys, hop, events)
    ensures n == |Built(keys, route[hop].auth)| ==> Calls(events) == Plan(route, keys, hop)
  {
    hide Built, Prelude;
    var attempts := Attempts(hop, route[hop].dest.user, Built(keys, route[hop].auth));
    if n == |attempts| {
      assert attempts[..n] == attempts;
    }
    assert Prelude(route, hop) + attempts[..n] <= Prelude(route, hop) + attempts;
  }

  lemma PreludeFollows(route: seq<Host>, keys: KeyTypes, hop: nat, events: seq<Event>)
    requires hop < |route| && |events| <= |Prelude(route, hop)|
    requires forall i :: 0 <= i < |events| ==> events[i].call == Prelude(route, hop)[i]
    requires forall i :: 0 <= i < |events| - 1 ==> GoesOn(events[i])
    ensures Follows(route, keys, hop, events)
    ensures |events| == |Prelude(route, hop)| ==> Calls(events) == Prelude(route, hop)
  {
    hide Prelude, Attempts, Built;
    assert Plan(route, keys, hop)[..|events|] == Prelude(route, hop)[..|events|];
  }

  /** `connect` and `connect_stream` with the calls around them, for one hop. */
  method ConnectHop(oracle: Oracle, start: nat, route: seq<Host>, keys: KeyTypes, hop: nat, handle: Option<nat>)
    returns (r: seq<Event>, ok: bool)
    requires hop < |route| && handle == if hop > 0 then Some(hop - 1) else None
    ensures Answered(oracle, start, r) && Follows(route, keys, hop, r)
    ensures if ok then Succeeds(r) else Fails(route, keys, hop, r)
  {
    hide Built, Attempts;
    r := [];
    var host := route[hop];
    if handle.Some? {
      var open := OpenChannel(handle.value, host.dest);
      r := r + [Event(open, oracle(start, open))];
      PreludeFollows(route, keys, hop, r);
      if !r[0].reply.Good? {
        return r, false;
      }
    }
    var make := MakeHandler(host);
    r := r + [Event(make, oracle(start + |r|, make))];
    PreludeFollows(route, keys, hop, r);
    if !r[|r| - 1].reply.Good? {
      return r, false;
    }
    var establish := Establish(handle, host.dest);
    r := r + [Event(establish, oracle(start + |r|, establish))];
    PreludeFollows(route, keys, hop, r);
    if !r[|r| - 1].reply.Good? {
      return r, false;
    }
    r, ok := Authenticate(oracle, start, route, keys, hop, r);
  }

  /** The number of calls made by all hops. */
  function Total(hops: seq<seq<Event>>): nat {
    if hops == [] then 0 else Total(hops[..|hops| - 1]) + |hops[|hops| - 1]|
  }

  /** A run: the hops in the order of the route, each with the oracle's answers, all but the last
      successful. */
  ghost predicate IsRun(oracle: Oracle, route: seq<Host>, keys: KeyTypes, hops: seq<seq<Event>>) {
    && |hops| <= |route|
    && (forall i :: 0 <= i < |hops| ==> Answered(oracle, Total(hops[..i]), hops[i]) && Follows(route, keys, i, hops[i]))
    && (forall i :: 0 <= i < |hops| - 1 ==> Succeeds(hops[i]))
  }

  /** `connect_impl`: the run succeeds iff every host of the route has authenticated. */
  method ConnectImpl(oracle: Oracle, chain: Chain, keys: KeyTypes) returns (hops: seq<seq<Event>>, ok: bool)
    ensures Finished(oracle, ChainRoute(chain), keys, hops)
    ensures ok <==> Succeeds(hops[|hops| - 1])
  {
    hide Follows, Answered, Fails, Succeeds, ChainRoute, IsRun, Linked, Destinations, Total;
    ghost var route := ChainRoute(chain);
    var first, bastions := Iterate(chain);
    var events;
    events, ok := ConnectHop(oracle, 0, [first], keys, 0, None);
    hops := [events];
    EmptyRun(oracle, route, keys);
    NextHop(route, [first], keys, 0, events);
    AddHop(oracle, route, keys, [], events);
    assert [] + [events] == [events];
    FailsIsNotSuccess(route, keys, 0, events);
    if !ok || bastions.None? {
      NoDestinations();
      return;
    }
    hops, ok := FollowBastions(oracle, route, keys, bastions.value, first, hops);
  }

  /** The loop over the bastions: each hop is connected through the handle of the one before. */
  method FollowBastions(oracle: Oracle, ghost route: seq<Host>, keys: KeyTypes, it: BastionIter, first: Host,
                        start: seq<seq<Event>>)
    returns (hops: seq<seq<Event>>, ok: bool)
    requires it.Valid() && route == [first] + Destinations(it.Pending())
    requires IsRun(oracle, route, keys, start) && |start| == 1 && Succeeds(start[0])
    modifies it
    ensures Finished(oracle, route, keys, hops)
    ensures ok <==> Succeeds(hops[|hops| - 1])
  {
    hide Follows, Answered, Fails, Succeeds, IsRun, Destinations, Total;
    hops := start;
    var handle := 0;
    var visited := [first];
    while true
      invariant it.Valid() && route == visited + Destinations(it.Pending())
      invariant IsRun(oracle, route, keys, hops) && |hops| == |visited| && hops != [] && Succeeds(hops[|hops| - 1])
      invariant handle == |hops| - 1
      decreases |it.Pending()|
    {
      ghost var before := it.Pending();
      var next := it.Next();
      if next.None? {
        NoDestinations();
        return hops, true;
      }
      DestinationsPop(before);
      Assoc(visited, [next.value.to], Destinations(before[1..]));
      visited := visited + [next.value.to];
      assert visited <= route;
      var events;
      events, ok := ConnectHop(oracle, Total(hops), visited, keys, |hops|, Some(handle));
      NextHop(route, visited, keys, |hops|, events);
      AddHop(oracle, route, keys, hops, events);
      FailsIsNotSuccess(route, keys, |hops|, events);
      hops := hops + [events];
      if !ok {
        return;
      }
      handle := |hops| - 1;
    }
  }

  lemma DestinationsPop(items: seq<Item>)
    requires items != []
    ensures Destinations(items) == [items[0].to] + Destinations(items[1..])
  {
  }

  lemma EmptyRun(oracle: Oracle, route: seq<Host>, keys: KeyTypes)
    ensures IsRun(oracle, route, keys, [])
    ensures Total([]) == 0
  {
  }

  lemma NoDestinations()
    ensures Destinations([]) == []
  {
  }

  /** A hop only depends on the route up to it. */
  lemma NextHop(route: seq<Host>, visited: seq<Host>, keys: KeyTypes, hop: nat, events: seq<Event>)
    requires visited <= route && hop < |visited|
    ensures Follows(visited, keys, hop, events) <==> Follows(route, keys, hop, events)
    ensures Fails(visited, keys, hop, events) <==> Fails(route, keys, hop, events)
  {
    assert Plan(visited, keys, hop) == Plan(route, keys, hop);
  }

  lemma AddHop(oracle: Oracle, route: seq<Host>, keys: KeyTypes, hops: seq<seq<Event>>, events: seq<Event>)
    requires IsRun(oracle, route, keys, hops) && |hops| < |route|
    requires hops != [] ==> Succeeds(hops[|hops| - 1])
    requires Answered(oracle, Total(hops), events) && Follows(route, keys, |hops|, events)
    ensures IsRun(oracle, route, keys, hops + [events])
  {
    hide Answered, Follows, Succeeds, Total;
    var more := hops + [events];
    forall i | 0 <= i < |more|
      ensures Answered(oracle, Total(more[..i]), more[i]) && Follows(route, keys, i, more[i])
    {
      assert more[..i] == hops[..i];
      assert hops[..|hops|] == hops;
    }
    assert forall i :: 0 <= i < |hops| ==> more[i] == hops[i];
  }

  // ---- What every run keeps ----

  function Stack(route: seq<Host>, keys: KeyTypes, hop: nat): seq<AuthMethod>
    requires hop < |route|
  {
    Built(keys, route[hop].auth)
  }

  lemma CallAt(route: seq<Host>, keys: KeyTypes, hop: nat, events: seq<Event>, i: nat)
    requires hop < |route| && Follows(route, keys, hop, events) && i < |events|
    ensures i < |Plan(route, keys, hop)| && events[i].call == Plan(route, keys, hop)[i]
  {
    assert Calls(events)[i] == Plan(route, keys, hop)[i];
  }

  /** Event `i` of a hop: first the good prelude, then the methods of the stack in order, all refused
      but possibly the last. */
  lemma EventAt(route: seq<Host>, keys: KeyTypes, hop: nat, events: seq<Event>, i: nat)
    requires hop < |route| && Follows(route, keys, hop, events) && i < |events|
    ensures i < |Prelude(route, hop)| ==> events[i].call == Prelude(route, hop)[i] && !events[i].call.Perform?
    ensures i >= |Prelude(route, hop)| ==>
      var k := i - |Prelude(route, hop)|;
      k < |Stack(route, keys, hop)| && events[i].call == Perform(hop, route[hop].dest.user, Stack(route, keys, hop)[k])
    ensures i < |events| - 1 ==> events[i].reply == if events[i].call.Perform? then Refused else Good
  {
    hide Built;
    CallAt(route, keys, hop, events, i);
  }

  /** A call that ends the run at once: neither does it let its hop go on, nor does it authenticate. */
  predicate Ends(e: Event) {
    if e.call.Perform? then e.reply.Broken? else !e.reply.Good?
  }

  /** What each call of a run is made with. The first calls of a hop come in this order; then it tries
      the methods of its own configuration, in order, as its own user. */
  lemma CallsAreForTheHop(oracle: Oracle, route: seq<Host>, keys: KeyTypes, hops: seq<seq<Event>>, hop: nat, i: nat)
    requires IsRun(oracle, route, keys, hops) && hop < |hops| && i < |hops[hop]|
    ensures var call := hops[hop][i].call;
      var first := if hop > 0 then 1 else 0;
      && (hop > 0 && i == 0 ==> call == OpenChannel(hop - 1, route[hop].dest))
      && (i == first ==> call == MakeHandler(route[hop]))
      && (i == first + 1 ==> call == Establish(if hop > 0 then Some(hop - 1) else None, route[hop].dest))
      && (i > first + 1 ==>
            var k := i - first - 2;
            var stack := Built(keys, route[hop].auth);
            k < |stack| && call == Perform(hop, route[hop].dest.user, stack[k]))
  {
    hide Follows, Succeeds, Built;
    EventAt(route, keys, hop, hops[hop], i);
  }

  /** A hop that did not authenticate ended at a call that failed, or after all its methods. */
  lemma FailedHopEnded(route: seq<Host>, keys: KeyTypes, hop: nat, events: seq<Event>)
    requires hop < |route| && Follows(route, keys, hop, events) && Fails(route, keys, hop, events)
    ensures var last := events[|events| - 1];
      && !(last.call.Perform? && last.reply.Good?)
      && (Ends(last)
          || (last.call.Perform? && last.reply.Refused?
              && |events| == (if hop > 0 then 3 else 2) + |Built(keys, route[hop].auth)|))
  {
    hide Built;
    FromConfigIsNotEmpty(keys, route[hop].auth);
    assert Calls(events)[|events| - 1] == events[|events| - 1].call;
  }

  lemma FromConfigIsNotEmpty(keys: KeyTypes, auth: Auth)
    ensures Built(keys, auth) != []
  {
    StackIsIntended(keys, auth);
  }

  predicate AuthenticatedWith(route: seq<Host>, hop: nat, events: seq<Event>, m: AuthMethod)
    requires hop < |route|
  {
    events != [] && events[|events| - 1] == Event(Perform(hop, route[hop].dest.user, m), Good)
  }

  /** The last event of a hop is the success of some method of its stack. */
  predicate Authenticated(route: seq<Host>, keys: KeyTypes, hop: nat, events: seq<Event>)
    requires hop < |route|
  {
    exists m :: m in Stack(route, keys, hop) && AuthenticatedWith(route, hop, events, m)
  }

  /** A successful hop ended in the first method of its stack that was not refused. */
  lemma SucceedsByStack(route: seq<Host>, keys: KeyTypes, hop: nat, events: seq<Event>)
    requires hop < |route| && Follows(route, keys, hop, events) && Succeeds(events)
    ensures Authenticated(route, keys, hop, events)
  {
    EventAt(route, keys, hop, events, |events| - 1);
    hide Follows;
    var k := |events| - 1 - |Prelude(route, hop)|;
    var m := Stack(route, keys, hop)[k];
    assert AuthenticatedWith(route, hop, events, m);
  }

  /** A hop after the first is opened through the hop before it, which has already authenticated. */
  lemma TunnelsAreAuthenticated(oracle: Oracle, route: seq<Host>, keys: KeyTypes, hops: seq<seq<Event>>,
                                hop: nat, i: nat)
    requires IsRun(oracle, route, keys, hops)
    requires hop < |hops| && i < |hops[hop]| && hops[hop][i].call.OpenChannel?
    ensures hop > 0 && i == 0 && hops[hop][i].call == OpenChannel(hop - 1, route[hop].dest)
    ensures Authenticated(route, keys, hop - 1, hops[hop - 1])
  {
    hide Follows, Succeeds;
    EventAt(route, keys, hop, hops[hop], i);
    SucceedsByStack(route, keys, hop - 1, hops[hop - 1]);
  }

  /** A run that ends well authenticated every host of the route, in order. */
  lemma SuccessAuthenticatesAll(oracle: Oracle, route: seq<Host>, keys: KeyTypes, hops: seq<seq<Event>>, hop: nat)
    requires IsRun(oracle, route, keys, hops)
    requires |hops| == |route| && hops != [] && Succeeds(hops[|hops| - 1]) && hop < |route|
    ensures Authenticated(route, keys, hop, hops[hop])
  {
    hide Follows;
    SucceedsByStack(route, keys, hop, hops[hop]);
  }

  /** The calls of a run, one after the other. */
  function Log(hops: seq<seq<Event>>): (r: seq<Event>)
    ensures |r| == Total(hops)
  {
    if hops == [] then [] else Log(hops[..|hops| - 1]) + hops[|hops| - 1]
  }

  /** No event before the last ends the run. */
  predicate Quiet(log: seq<Event>) {
    forall i :: 0 <= i < |log| - 1 ==> !Ends(log[i])
  }

  predicate AllQuiet(log: seq<Event>) {
    forall e :: e in log ==> !Ends(e)
  }

  /** The log of a run holds the oracle's answers in order, and nothing is called after a failure. */
  lemma {:induction false} FailureStopsTheRun(oracle: Oracle, route: seq<Host>, keys: KeyTypes, hops: seq<seq<Event>>)
    requires IsRun(oracle, route, keys, hops)
    ensures Answered(oracle, 0, Log(hops))
    ensures Quiet(Log(hops))
    ensures hops == [] || Succeeds(hops[|hops| - 1]) ==> AllQuiet(Log(hops))
  {
    if hops != [] {
      var n := |hops| - 1;
      var before, last := hops[..n], hops[n];
      RunBefore(oracle, route, keys, hops);
      FailureStopsTheRun(oracle, route, keys, before);
      hide IsRun, Ends, GoesOn, Succeeds, Follows, Answered, Total;
      EndsOnlyLast(route, keys, n, last);
      LogGrows(oracle, Log(before), last);
      QuietGrows(Log(before), last);
      assert Log(hops) == Log(before) + last;
    }
  }

  lemma RunBefore(oracle: Oracle, route: seq<Host>, keys: KeyTypes, hops: seq<seq<Event>>)
    requires IsRun(oracle, route, keys, hops) && hops != []
    ensures var n := |hops| - 1;
      && n < |route| && IsRun(oracle, route, keys, hops[..n])
      && Answered(oracle, Total(hops[..n]), hops[n]) && Follows(route, keys, n, hops[n])
      && (n > 0 ==> Succeeds(hops[..n][n - 1]))
  {
    hide Follows, Answered, Total, Succeeds;
    var before := hops[..|hops| - 1];
    assert forall i :: 0 <= i < |before| ==> before[..i] == hops[..i] && before[i] == hops[i];
  }

  lemma QuietGrows(log: seq<Event>, events: seq<Event>)
    ensures AllQuiet(log) && Quiet(events) ==> Quiet(log + events)
    ensures AllQuiet(log) && AllQuiet(events) ==> AllQuiet(log + events)
  {
    hide Ends;
  }

  lemma EndsOnlyLast(route: seq<Host>, keys: KeyTypes, hop: nat, events: seq<Event>)
    requires hop < |route| && Follows(route, keys, hop, events)
    ensures Quiet(events)
    ensures Succeeds(events) ==> AllQuiet(events)
  {
  }

  lemma LogGrows(oracle: Oracle, log: seq<Event>, events: seq<Event>)
    requires Answered(oracle, 0, log) && Answered(oracle, |log|, events)
    ensures Answered(oracle, 0, log + events)
  {
  }

  /** What a hop does is determined by the oracle: the plan fixes every call, and when to stop. */
  lemma HopIsDetermined(oracle: Oracle, start: nat, route: seq<Host>, keys: KeyTypes, hop: nat,
                        a: seq<Event>, b: seq<Event>)
    requires hop < |route| && |a| <= |b|
    requires Answered(oracle, start, a) && Follows(route, keys, hop, a) && (Succeeds(a) || Fails(route, keys, hop, a))
    requires Answered(oracle, start, b) && Follows(route, keys, hop, b)
    ensures a == b
  {
    hide Plan;
    forall i | 0 <= i < |a|
      ensures a[i] == b[i]
    {
      CallAt(route, keys, hop, a, i);
      CallAt(route, keys, hop, b, i);
    }
    assert a[|a| - 1] == b[|a| - 1];
    assert |Calls(b)| <= |Plan(route, keys, hop)|;
    assert a == b[..|a|];
  }

  /** A finished run: every host authenticated, or the last hop failed. */
  ghost predicate Finished(oracle: Oracle, route: seq<Host>, keys: KeyTypes, hops: seq<seq<Event>>) {
    && IsRun(oracle, route, keys, hops) && hops != []
    && var last := hops[|hops| - 1];
       (|hops| == |route| && Succeeds(last)) || Fails(route, keys, |hops| - 1, last)
  }

  lemma FailsIsNotSuccess(route: seq<Host>, keys: KeyTypes, hop: nat, events: seq<Event>)
    requires hop < |route|
    ensures Fails(route, keys, hop, events) ==> !Succeeds(events)
  {
  }

  /** Two finished runs with the same answers are the same run. */
  lemma RunIsDetermined(oracle: Oracle, route: seq<Host>, keys: KeyTypes, a: seq<seq<Event>>, b: seq<seq<Event>>)
    requires Finished(oracle, route, keys, a) && Finished(oracle, route, keys, b)
    ensures a == b
  {
    if |a| <= |b| {
      RunsAgree(oracle, route, keys, a, b, |a|);
      ShorterIsWhole(oracle, route, keys, a, b);
    } else {
      RunsAgree(oracle, route, keys, b, a, |b|);
      ShorterIsWhole(oracle, route, keys, b, a);
    }
  }

  lemma ShorterIsWhole(oracle: Oracle, route: seq<Host>, keys: KeyTypes, a: seq<seq<Event>>, b: seq<seq<Event>>)
    requires Finished(oracle, route, keys, a) && Finished(oracle, route, keys, b)
    requires |a| <= |b| && a == b[..|a|]
    ensures a == b
  {
    hide Follows, Answered, Total, Succeeds;
    var last := |a| - 1;
    assert a[last] == b[last];
    FailsIsNotSuccess(route, keys, last, a[last]);
  }

  lemma FinishedHop(oracle: Oracle, route: seq<Host>, keys: KeyTypes, hops: seq<seq<Event>>, hop: nat)
    requires Finished(oracle, route, keys, hops) && hop < |hops|
    ensures |hops| <= |route|
    ensures Answered(oracle, Total(hops[..hop]), hops[hop]) && Follows(route, keys, hop, hops[hop])
    ensures Succeeds(hops[hop]) || Fails(route, keys, hop, hops[hop])
  {
    hide Follows, Answered, Total, Succeeds, Fails;
  }

  lemma {:induction false} RunsAgree(oracle: Oracle, route: seq<Host>, keys: KeyTypes,
                                     a: seq<seq<Event>>, b: seq<seq<Event>>, n: nat)
    requires Finished(oracle, route, keys, a) && Finished(oracle, route, keys, b)
    requires n <= |a| && n <= |b|
    ensures a[..n] == b[..n]
  {
    hide Follows, Answered, Total, IsRun, Finished, Fails, Succeeds, Log;
    if n > 0 {
      var m := n - 1;
      RunsAgree(oracle, route, keys, a, b, m);
      FinishedHop(oracle, route, keys, a, m);
      FinishedHop(oracle, route, keys, b, m);
      SameHop(oracle, Total(a[..m]), route, keys, m, a[m], b[m]);
      assert a[..n] == a[..m] + [a[m]];
      assert b[..n] == b[..m] + [b[m]];
    }
  }

  lemma SameHop(oracle: Oracle, start: nat, route: seq<Host>, keys: KeyTypes, hop: nat, a: seq<Event>, b: seq<Event>)
    requires hop < |route|
    requires Answered(oracle, start, a) && Follows(route, keys, hop, a) && (Succeeds(a) || Fails(route, keys, hop, a))
    requires Answered(oracle, start, b) && Follows(route, keys, hop, b) && (Succeeds(b) || Fails(route, keys, hop, b))
    ensures a == b
  {
    hide Follows, Answered, Fails, Succeeds;
    if |a| <= |b| {
      HopIsDetermined(oracle, start, route, keys, hop, a, b);
    } else {
      HopIsDetermined(oracle, start, route, keys, hop, b, a);
    }
  }

  // ---- All identities of an agent ----

  /** A public key, or a certificate that may be a host certificate. */
  datatype Identity = PublicKey(key: string) | Cert(cert: string, isUser: bool)

  predicate Offered(id: Identity) {
    id.PublicKey? || id.isUser
  }

  function OfferedOnly(ids: seq<Identity>): seq<Identity> {
    if ids == [] then [] else (if Offered(ids[0]) then [ids[0]] else []) + OfferedOnly(ids[1..])
  }

  lemma OfferedStep(ids: seq<Identity>, i: nat)
    requires i < |ids|
    ensures OfferedOnly(ids[i..]) == (if Offered(ids[i]) then [ids[i]] else []) + OfferedOnly(ids[i + 1..])
  {
    assert ids[i..][1..] == ids[i + 1..];
  }

  /** Public keys and user certificates are offered, host certificates are not; nothing else changes. */
  lemma OfferedOne(key: string, cert: string)
    ensures OfferedOnly([PublicKey(key)]) == [PublicKey(key)]
    ensures OfferedOnly([Cert(cert, true)]) == [Cert(cert, true)] && OfferedOnly([Cert(cert, false)]) == []
  {
    assert forall id: Identity :: [id][1..] == [];
  }

  lemma {:induction false} OfferedInOrder(a: seq<Identity>, b: seq<Identity>)
    ensures OfferedOnly(a + b) == OfferedOnly(a) + OfferedOnly(b)
  {
    if a == [] {
      assert a + b == b;
    } else {
      OfferedInOrder(a[1..], b);
      assert (a + b)[0] == a[0] && (a + b)[1..] == a[1..] + b;
    }
  }

  /** `all_in_agent`: public keys and user certificates are offered in order, up to the first one that
      is not refused; host certificates are skipped. */
  method AllInAgent(ids: seq<Identity>, answer: (nat, Identity) -> Reply) returns (tried: seq<Identity>, r: Reply)
    ensures tried <= OfferedOnly(ids)
    ensures forall i :: 0 <= i < |tried| - 1 ==> answer(i, tried[i]) == Refused
    ensures tried != [] ==> answer(|tried| - 1, tried[|tried| - 1]) == r
    ensures if r == Refused then tried == OfferedOnly(ids) else tried != []
  {
    hide OfferedOnly;
    tried := [];
    assert ids[0..] == ids;
    for i := 0 to |ids|
      invariant tried + OfferedOnly(ids[i..]) == OfferedOnly(ids)
      invariant forall j :: 0 <= j < |tried| ==> answer(j, tried[j]) == Refused
    {
      OfferedStep(ids, i);
      if ids[i].Cert? && !ids[i].isUser {
        assert [] + OfferedOnly(ids[i + 1..]) == OfferedOnly(ids[i + 1..]);
        continue;
      }
      r := answer(|tried|, ids[i]);
      Assoc(tried, [ids[i]], OfferedOnly(ids[i + 1..]));
      tried := tried + [ids[i]];
      if r != Refused {
        IsPrefix(tried, OfferedOnly(ids[i + 1..]), OfferedOnly(ids));
        return;
      }
    }
    NothingOffered(ids);
    r := Refused;
  }

  lemma IsPrefix(a: seq<Identity>, b: seq<Identity>, c: seq<Identity>)
    requires a + b == c
    ensures a <= c
  {
  }

  lemma NothingOffered(ids: seq<Identity>)
    ensures OfferedOnly(ids[|ids|..]) == []
  {
  }
}
