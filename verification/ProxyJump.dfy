// Targets, `ProxyJump` resolution and the chain iterator (src/config.rs).
module ProxyJump {
  import opened Text

  datatype Dest = Dest(name: string, port: nat, user: string)

  datatype Auth = Auth(
    identities: Option<seq<string>>, cert: Option<string>, agent: Option<string>,
    identitiesOnly: bool, includesNone: bool)

  datatype Host = Host(dest: Dest, auth: Auth)

  datatype Target = Target(host: string, port: Option<nat>, user: Option<string>)

  /** The parameters the configuration file gives for a host name. */
  datatype Params = Params(
    hostName: Option<string>, port: Option<nat>, user: Option<string>, proxyJump: Option<seq<string>>, auth: Auth)

  /** The configuration as a function of the queried name, and the local user name if it is known. */
  datatype Config = Config(query: string -> Params, whoami: Option<string>)

  // ---- Targets: [user@]host[:port] ----

  function FirstIndex(s: string, c: char): (i: nat)
    ensures i <= |s| && (i < |s| ==> s[i] == c)
    ensures forall k :: 0 <= k < i ==> s[k] != c
  {
    if s == "" || s[0] == c then 0 else 1 + FirstIndex(s[1..], c)
  }

  function LastIndex(s: string, c: char): (r: Option<nat>)
    ensures r.None? ==> c !in s
    ensures r.Some? ==> r.value < |s| && s[r.value] == c && forall k :: r.value < k < |s| ==> s[k] != c
  {
    if s == "" then None
    else if s[|s| - 1] == c then Some(|s| - 1)
    else LastIndex(s[..|s| - 1], c)
  }

  function ParseDigits(digits: string): Option<nat> {
    if digits != "" && (forall i :: 0 <= i < |digits| ==> IsDigit(digits[i])) && DecimalValue(digits) < 0x1_0000
    then Some(DecimalValue(digits)) else None
  }

  /** `str::parse::<u16>`: decimal digits after an optional `+`, below 65536. */
  function ParsePort(s: string): Option<nat> {
    if s != "" && s[0] == '+' then ParseDigits(s[1..]) else ParseDigits(s)
  }

  /** What is left after the user. */
  function ParseRest(rest: string, user: Option<string>): Target {
    match LastIndex(rest, ':')
    case Some(i) => Target(rest[..i], ParsePort(rest[i + 1..]), user)
    case None => Target(rest, None, user)
  }

  function ParseTarget(query: string): Target {
    var at := FirstIndex(query, '@');
    if at < |query| then ParseRest(query[at + 1..], Some(query[..at])) else ParseRest(query, None)
  }

  lemma {:induction false} FirstIndexIs(s: string, c: char, tail: string)
    requires c !in s
    ensures FirstIndex(s + [c] + tail, c) == |s|
  {
    var t := s + [c] + tail;
    if s == "" {
      assert t[0] == c;
    } else {
      FirstIndexIs(s[1..], c, tail);
      assert t[0] == s[0] && s[0] in s && t[1..] == s[1..] + [c] + tail;
    }
  }

  lemma {:induction false} LastIndexIs(s: string, c: char, tail: string)
    requires c !in tail
    ensures LastIndex(s + [c] + tail, c) == Some(|s|)
  {
    var t := s + [c] + tail;
    if tail == "" {
      assert t[|t| - 1] == c;
    } else {
      LastIndexIs(s, c, tail[..|tail| - 1]);
      assert t[|t| - 1] == tail[|tail| - 1] && tail[|tail| - 1] in tail;
      assert t[..|t| - 1] == s + [c] + tail[..|tail| - 1];
    }
  }

  /** `[user@]host[:port]` */
  function TargetText(user: Option<string>, host: string, port: Option<string>): string {
    (if user.Some? then user.value + "@" else "") + (host + if port.Some? then ":" + port.value else "")
  }

  lemma FirstIndexNone(s: string, c: char)
    requires c !in s
    ensures FirstIndex(s, c) == |s|
  {
    assert forall k :: 0 <= k < |s| ==> s[k] in s;
  }

  lemma UserIsSplit(user: Option<string>, rest: string)
    requires '@' !in if user.Some? then user.value else rest
    ensures ParseTarget((if user.Some? then user.value + "@" else "") + rest) == ParseRest(rest, user)
  {
    hide ParseRest;
    if user.Some? {
      var query := user.value + "@" + rest;
      FirstIndexIs(user.value, '@', rest);
      assert query[..|user.value|] == user.value && query[|user.value| + 1..] == rest;
    } else {
      assert "" + rest == rest;
      FirstIndexNone(rest, '@');
    }
  }

  lemma PortIsSplit(host: string, port: Option<string>, user: Option<string>)
    requires port.Some? ==> ':' !in port.value
    ensures var rest := host + if port.Some? then ":" + port.value else "";
      var whole := Target(host, if port.Some? then ParsePort(port.value) else None, user);
      ParseRest(rest, user) == whole <==> port.Some? || ':' !in host
  {
    hide ParsePort, LastIndex;
    if port.Some? {
      var rest := host + ":" + port.value;
      assert host + (":" + port.value) == rest;
      LastIndexIs(host, ':', port.value);
      assert rest[..|host|] == host && rest[|host| + 1..] == port.value;
    } else {
      assert host + "" == host;
    }
  }

  /** Any form is parsed into its parts, unless the port is missing and the host holds a colon. A port
      that is not a number below 65536 is dropped. */
  lemma TargetRoundTrip(user: Option<string>, host: string, port: Option<string>)
    requires '@' !in if user.Some? then user.value else TargetText(None, host, port)
    requires port.Some? ==> ':' !in port.value
    ensures var whole := Target(host, if port.Some? then ParsePort(port.value) else None, user);
      ParseTarget(TargetText(user, host, port)) == whole <==> port.Some? || ':' !in host
  {
    hide ParseTarget, ParseRest, ParsePort;
    var rest := host + if port.Some? then ":" + port.value else "";
    assert "" + rest == rest;
    UserIsSplit(user, rest);
    PortIsSplit(host, port, user);
  }

  lemma PortRoundTrip(port: nat)
    ensures ParsePort(Decimal(port)) == if port < 0x1_0000 then Some(port) else None
  {
    DecimalRoundTrip(port);
    assert IsDigit(Decimal(port)[0]);
  }

  /** Any character but a digit, other than a leading `+`, makes a port unparsable. */
  lemma NotANumber(s: string, i: nat)
    requires i < |s| && !('0' <= s[i] <= '9') && (i > 0 || s[0] != '+')
    ensures ParsePort(s).None?
  {
    if s[0] == '+' {
      assert s[1..][i - 1] == s[i];
    }
  }

  lemma PlusIsSkipped(port: nat)
    ensures ParsePort("+" + Decimal(port)) == ParsePort(Decimal(port))
  {
    assert ("+" + Decimal(port))[1..] == Decimal(port) && IsDigit(Decimal(port)[0]);
  }

  /** The documented `my-host:nan`: the port is dropped, not the host. */
  lemma UnparsablePortIsDropped(host: string)
    requires '@' !in host
    ensures ParseTarget(TargetText(None, host, Some("nan"))) == Target(host, None, None)
  {
    var text' := TargetText(None, host, Some("nan"));
    assert text' == host + (":" + "nan") && "nan"[0] == 'n' && "nan"[1] == 'a';
    TargetRoundTrip(None, host, Some("nan"));
    NotANumber("nan", 0);
  }

  /** An IPv6 address loses its last group to the port. */
  lemma LastGroupIsTakenForPort()
    ensures ParseTarget("fe80::1") == Target("fe80:", Some(1), None)
  {
    FirstIndexNone("fe80::1", '@');
    LastIndexIs("fe80:", ':', "1");
    assert "fe80:" + [':'] + "1" == "fe80::1";
    assert "fe80::1"[..5] == "fe80:" && "fe80::1"[6..] == "1";
    PortRoundTrip(1);
    assert Decimal(1) == "1";
  }

  /** `parse_host`; it fails only when no user name can be found. */
  function ParseHost(conf: Config, target: Target): Option<Host> {
    var params := conf.query(target.host);
    var name := if params.hostName.Some? then params.hostName.value else target.host;
    var port := if params.port.Some? then params.port.value else if target.port.Some? then target.port.value else 22;
    var user := if params.user.Some? then params.user else if target.user.Some? then target.user else conf.whoami;
    if user.None? then None else Some(Host(Dest(name, port, user.value), params.auth))
  }

  /** The destination and the authentication that the configuration gives for a target. */
  predicate IsHostOf(conf: Config, target: Target, host: Host) {
    var params := conf.query(target.host);
    && host.auth == params.auth
    && (params.hostName.Some? ==> host.dest.name == params.hostName.value)
    && (params.hostName.None? ==> host.dest.name == target.host)
    && (params.port.Some? ==> host.dest.port == params.port.value)
    && (params.port.None? && target.port.Some? ==> host.dest.port == target.port.value)
    && (params.port.None? && target.port.None? ==> host.dest.port == 22)
    && (params.user.Some? ==> host.dest.user == params.user.value)
    && (params.user.None? && target.user.Some? ==> host.dest.user == target.user.value)
    && (params.user.None? && target.user.None? ==> conf.whoami == Some(host.dest.user))
  }

  lemma ParsedHostIs(conf: Config, target: Target)
    ensures ParseHost(conf, target).Some? ==> IsHostOf(conf, target, ParseHost(conf, target).value)
    ensures ParseHost(conf, target).None? <==>
      conf.query(target.host).user.None? && target.user.None? && conf.whoami.None?
  {
  }

  // ---- The route, recursively ----

  function Jumps(conf: Config, host: string): seq<string> {
    match conf.query(host).proxyJump
    case None => []
    case Some(jumps) => jumps
  }

  /** The host name queried for the first listed bastion. */
  function NextHost(conf: Config, host: string): string
    requires Jumps(conf, host) != []
  {
    ParseTarget(Jumps(conf, host)[0]).host
  }

  /** Following the first listed bastion `n` times leads to a host without jumps. */
  predicate Reaches(conf: Config, host: string, n: nat)
    decreases n
  {
    if n == 0 then Jumps(conf, host) == []
    else Jumps(conf, host) != [] && Reaches(conf, NextHost(conf, host), n - 1)
  }

  lemma {:induction false} ReachesOnce(conf: Config, host: string, m: nat, n: nat)
    requires Reaches(conf, host, m) && Reaches(conf, host, n)
    ensures m == n
    decreases m
  {
    hide Jumps, NextHost;
    if m > 0 {
      ReachesOnce(conf, NextHost(conf, host), m - 1, n - 1);
    }
  }

  function ParseHosts(conf: Config, entries: seq<string>): (r: Option<seq<Host>>)
    ensures r.Some? <==> forall i :: 0 <= i < |entries| ==> ParseHost(conf, ParseTarget(entries[i])).Some?
  {
    if entries == [] then Some([])
    else
      var first := ParseHost(conf, ParseTarget(entries[0]));
      var rest := ParseHosts(conf, entries[1..]);
      assert forall i :: 0 < i < |entries| ==> entries[i] == entries[1..][i - 1];
      if first.Some? && rest.Some? then Some([first.value] + rest.value) else None
  }

  function Append(hosts: Option<seq<Host>>, host: Option<Host>): Option<seq<Host>> {
    if hosts.Some? && host.Some? then Some(hosts.value + [host.value]) else None
  }

  /** The hosts to go through, in order: the route of the first listed bastion, then the other listed
      bastions, then the target. */
  function Route(conf: Config, target: Target, n: nat): (r: Option<seq<Host>>)
    requires Reaches(conf, target.host, n)
    ensures r.Some? ==> r.value != [] && ParseHost(conf, target) == Some(r.value[|r.value| - 1])
    ensures ParseHost(conf, target).None? ==> r.None?
    decreases n
  {
    if n == 0 then Append(Some([]), ParseHost(conf, target))
    else
      var jumps := Jumps(conf, target.host);
      var first := Route(conf, ParseTarget(jumps[0]), n - 1);
      var rest := ParseHosts(conf, jumps[1..]);
      if first.None? || rest.None? then None else Append(Some(first.value + rest.value), ParseHost(conf, target))
  }

  lemma {:induction false} ParsedHostsAt(conf: Config, entries: seq<string>, i: nat)
    requires ParseHosts(conf, entries).Some? && i < |entries|
    ensures |ParseHosts(conf, entries).value| == |entries|
    ensures ParseHost(conf, ParseTarget(entries[i])) == Some(ParseHosts(conf, entries).value[i])
    decreases |entries|
  {
    hide ParseHost, ParseTarget;
    if |entries| > 1 {
      ParsedHostsAt(conf, entries[1..], if i > 0 then i - 1 else 0);
    } else {
      assert entries[1..] == [];
    }
  }

  /** The route ends with the listed bastions, in order, and the target; what is before them is the
      route to the first listed bastion. */
  ghost predicate EndsInListed(conf: Config, target: Target, before: seq<Host>, route: seq<Host>) {
    var jumps := Jumps(conf, target.host);
    && jumps != [] && before != [] && |route| == |before| + |jumps| && before <= route
    && IsHostOf(conf, target, route[|route| - 1])
    && forall i :: 0 <= i < |jumps| ==> IsHostOf(conf, ParseTarget(jumps[i]), route[|before| - 1 + i])
  }

  predicate IsRouteOf(conf: Config, target: Target, n: nat, route: seq<Host>) {
    Reaches(conf, target.host, n) && Route(conf, target, n) == Some(route)
  }

  lemma RouteParts(conf: Config, target: Target, n: nat, route: seq<Host>)
    returns (before: seq<Host>, rest: seq<Host>, host: Host)
    requires n > 0 && IsRouteOf(conf, target, n, route)
    ensures route == before + rest + [host] && ParseHost(conf, target) == Some(host)
    ensures Jumps(conf, target.host) != [] && ParseHosts(conf, Jumps(conf, target.host)[1..]) == Some(rest)
    ensures IsRouteOf(conf, ParseTarget(Jumps(conf, target.host)[0]), n - 1, before)
    ensures before != [] && ParseHost(conf, ParseTarget(Jumps(conf, target.host)[0])) == Some(before[|before| - 1])
  {
    hide ParseHost, ParseHosts, ParseTarget;
    var jumps := Jumps(conf, target.host);
    before := Route(conf, ParseTarget(jumps[0]), n - 1).value;
    rest := ParseHosts(conf, jumps[1..]).value;
    host := ParseHost(conf, target).value;
  }

  lemma RestIsListed(conf: Config, jumps: seq<string>)
    requires jumps != [] && ParseHosts(conf, jumps[1..]).Some?
    ensures var rest := ParseHosts(conf, jumps[1..]).value;
      |rest| + 1 == |jumps| && forall i :: 0 < i < |jumps| ==> IsHostOf(conf, ParseTarget(jumps[i]), rest[i - 1])
  {
    hide ParseHost, ParseHosts, ParseTarget, IsHostOf;
    if |jumps| == 1 {
      ParsedNone(conf, jumps);
    } else {
      ParsedHostsAt(conf, jumps[1..], 0);
    }
    forall i | 0 < i < |jumps|
      ensures IsHostOf(conf, ParseTarget(jumps[i]), ParseHosts(conf, jumps[1..]).value[i - 1])
    {
      ParsedHostsAt(conf, jumps[1..], i - 1);
      ParsedHostIs(conf, ParseTarget(jumps[i]));
      assert jumps[i] == jumps[1..][i - 1];
    }
  }

  lemma RouteEndsInListed(conf: Config, target: Target, n: nat, route: seq<Host>) returns (before: seq<Host>)
    requires n > 0 && IsRouteOf(conf, target, n, route)
    ensures EndsInListed(conf, target, before, route)
    ensures IsRouteOf(conf, ParseTarget(Jumps(conf, target.host)[0]), n - 1, before)
  {
    var jumps := Jumps(conf, target.host);
    hide IsRouteOf, ParseHost, ParseHosts, Jumps, ParseTarget, IsHostOf;
    var rest, host;
    before, rest, host := RouteParts(conf, target, n, route);
    RestIsListed(conf, jumps);
    ParsedHostIs(conf, target);
    ParsedHostIs(conf, ParseTarget(jumps[0]));
  }

  lemma ParsedNone(conf: Config, jumps: seq<string>)
    requires |jumps| == 1
    ensures ParseHosts(conf, jumps[1..]) == Some([])
  {
    assert jumps[1..] == [];
  }

  // ---- The chain ----

  datatype Chain = Chain(target: Host, bastions: Option<seq<Host>>)

  function Reverse<T>(s: seq<T>): (r: seq<T>)
    ensures |r| == |s| && forall i :: 0 <= i < |s| ==> r[i] == s[|s| - 1 - i]
  {
    seq(|s|, i requires 0 <= i < |s| => s[|s| - 1 - i])
  }

  /** local -> bastions[N-1] -> ... -> bastions[0] -> target */
  function ChainRoute(chain: Chain): seq<Host> {
    Reverse(if chain.bastions.Some? then chain.bastions.value else []) + [chain.target]
  }

  /** The whole route is the route still to be walked, followed by what comes after its last host. */
  predicate Refines(whole: Option<seq<Host>>, part: Option<seq<Host>>, after: seq<Host>) {
    whole == if part.None? then None else Some(part.value + after)
  }

  lemma RouteStep(conf: Config, target: Target, m: nat, rest: seq<Host>, host: Host)
    requires Reaches(conf, target.host, m) && m > 0
    requires ParseHosts(conf, Jumps(conf, target.host)[1..]) == Some(rest) && ParseHost(conf, target) == Some(host)
    ensures var first := Route(conf, ParseTarget(Jumps(conf, target.host)[0]), m - 1);
      Route(conf, target, m) == if first.None? then None else Some(first.value + rest + [host])
  {
    hide ParseTarget, ParseHost, ParseHosts;
  }

  lemma RefinesStep(whole: Option<seq<Host>>, part: Option<seq<Host>>, first: Option<seq<Host>>,
                    rest: seq<Host>, host: Host, after: seq<Host>)
    requires Refines(whole, part, after)
    requires part == if first.None? then None else Some(first.value + rest + [host])
    ensures Refines(whole, first, rest + ([host] + after))
  {
    if first.Some? {
      Assoc(first.value + rest, [host], after);
      Assoc(first.value, rest, [host] + after);
    }
  }

  // ---- How far the loop gets ----

  /** The host name queried after `k` first jumps, as far as there are jumps. */
  function Visit(conf: Config, host: string, k: nat): string
    decreases k
  {
    if k == 0 || Jumps(conf, host) == [] then host else Visit(conf, NextHost(conf, host), k - 1)
  }

  lemma {:induction false} ReachesAfter(conf: Config, host: string, n: nat, k: nat)
    requires k <= n
    ensures Reaches(conf, host, n) ==> Reaches(conf, Visit(conf, host, k), n - k)
    decreases k
  {
    hide Jumps, NextHost;
    if k > 0 && Reaches(conf, host, n) {
      ReachesAfter(conf, NextHost(conf, host), n - 1, k - 1);
    }
  }

  lemma {:induction false} ReachesStays(conf: Config, host: string, n: nat, k: nat)
    requires Reaches(conf, host, n) && n <= k
    ensures Jumps(conf, Visit(conf, host, k)) == []
    decreases n
  {
    hide Jumps, NextHost;
    if n > 0 {
      ReachesStays(conf, NextHost(conf, host), n - 1, k - 1);
    }
  }

  lemma {:induction false} VisitStep(conf: Config, host: string, k: nat)
    requires Jumps(conf, Visit(conf, host, k)) != []
    ensures Visit(conf, host, k + 1) == NextHost(conf, Visit(conf, host, k))
    decreases k
  {
    hide Jumps, NextHost;
    if k > 0 {
      VisitStep(conf, NextHost(conf, host), k - 1);
    }
  }

  /** A visited host without jumps is the end of the path. */
  lemma {:induction false} EndIsReached(conf: Config, host: string, k: nat) returns (n: nat)
    requires Jumps(conf, Visit(conf, host, k)) == []
    ensures n <= k && Reaches(conf, host, n)
    decreases k
  {
    hide Jumps, NextHost;
    if Jumps(conf, host) == [] {
      n := 0;
    } else {
      n := EndIsReached(conf, NextHost(conf, host), k - 1);
      n := n + 1;
    }
  }

  /** Some bastion listed for `host` cannot be parsed. */
  predicate FailsAt(conf: Config, host: string) {
    ParseHosts(conf, Jumps(conf, host)).None?
  }

  /** `fuel` iterations meet something that cannot be parsed: the target, or a bastion listed for a
      host they visit. */
  ghost predicate Unparsed(conf: Config, target: Target, fuel: nat) {
    ParseHost(conf, target).None? || exists i: nat :: i < fuel && FailsAt(conf, Visit(conf, target.host, i))
  }

  /** Everything on the recursive route is parsed by the loop, and nothing else. */
  lemma {:induction false} RouteIsParsed(conf: Config, target: Target, n: nat, fuel: nat)
    requires Reaches(conf, target.host, n) && n <= fuel
    ensures Route(conf, target, n).None? <==> Unparsed(conf, target, fuel)
    decreases n
  {
    if n > 0 {
      var jumps := Jumps(conf, target.host);
      var next := ParseTarget(jumps[0]);
      RouteIsParsed(conf, next, n - 1, fuel - 1);
      assert FailsAt(conf, target.host) <==> ParseHost(conf, next).None? || ParseHosts(conf, jumps[1..]).None?;
      hide ParseHosts, ParseHost, ParseTarget, Jumps, FailsAt;
      assert Visit(conf, target.host, 0) == target.host;
      assert forall i: nat :: Visit(conf, target.host, i + 1) == Visit(conf, next.host, i);
      forall i: nat | i < fuel && FailsAt(conf, Visit(conf, target.host, i))
        ensures FailsAt(conf, target.host) || Unparsed(conf, next, fuel - 1)
      {
        assert i > 0 ==> Visit(conf, target.host, i) == Visit(conf, next.host, i - 1);
      }
      forall i: nat | i < fuel - 1 && FailsAt(conf, Visit(conf, next.host, i))
        ensures Unparsed(conf, target, fuel)
      {
        assert FailsAt(conf, Visit(conf, target.host, i + 1));
      }
    }
  }

  // ---- The loop ----

  /** The path continues at `host`, and its bastions are parsed. */
  predicate Passes(conf: Config, host: string) {
    Jumps(conf, host) != [] && !FailsAt(conf, host)
  }

  predicate RouteSoFar(conf: Config, target: Target, current: Target, iteration: nat, visited: seq<Host>, n: nat)
    requires visited != [] && Reaches(conf, target.host, n)
  {
    && n >= iteration && Reaches(conf, current.host, n - iteration)
    && Refines(Route(conf, target, n), Route(conf, current, n - iteration), visited[1..])
  }

  ghost predicate PathSoFar(conf: Config, host: string, current: string, iteration: nat) {
    current == Visit(conf, host, iteration) && forall i: nat | i < iteration :: Passes(conf, Visit(conf, host, i))
  }

  ghost predicate RoutesSoFar(conf: Config, target: Target, current: Target, iteration: nat, visited: seq<Host>)
    requires visited != []
  {
    forall n: nat | Reaches(conf, target.host, n) :: RouteSoFar(conf, target, current, iteration, visited, n)
  }

  /** Where the loop stands: what it has visited is the end of the route, if there is one. */
  ghost predicate LoopInvariant(conf: Config, target: Target, current: Target, iteration: nat, visited: seq<Host>) {
    && visited != [] && ParseHost(conf, current) == Some(visited[0]) && ParseHost(conf, target).Some?
    && PathSoFar(conf, target.host, current.host, iteration)
    && RoutesSoFar(conf, target, current, iteration, visited)
  }

  lemma LoopStarts(conf: Config, target: Target, host: Host)
    requires ParseHost(conf, target) == Some(host)
    ensures LoopInvariant(conf, target, target, 0, [host])
  {
    forall n: nat | Reaches(conf, target.host, n)
      ensures RouteSoFar(conf, target, target, 0, [host], n)
    {
      if Route(conf, target, n).Some? {
        assert Route(conf, target, n).value + [host][1..] == Route(conf, target, n).value;
      }
    }
  }

  lemma RouteSoFarStep(conf: Config, target: Target, current: Target, iteration: nat, visited: seq<Host>,
                       rest: seq<Host>, host: Host, n: nat)
    requires visited != [] && ParseHost(conf, current) == Some(visited[0])
    requires Reaches(conf, target.host, n) && RouteSoFar(conf, target, current, iteration, visited, n)
    requires Jumps(conf, current.host) != []
    requires ParseHosts(conf, Jumps(conf, current.host)[1..]) == Some(rest)
    ensures RouteSoFar(conf, target, ParseTarget(Jumps(conf, current.host)[0]), iteration + 1,
                       [host] + (rest + visited), n)
  {
    hide ParseTarget, ParseHost, ParseHosts, Refines, Route, Reaches, Jumps;
    ReachesStep(conf, current.host, n - iteration);
    RouteGrows(conf, Route(conf, target, n), current, n - iteration, visited, rest, host);
  }

  lemma LoopStep(conf: Config, target: Target, current: Target, iteration: nat, visited: seq<Host>,
                 rest: seq<Host>, host: Host)
    requires LoopInvariant(conf, target, current, iteration, visited)
    requires Jumps(conf, current.host) != []
    requires ParseHosts(conf, Jumps(conf, current.host)[1..]) == Some(rest)
    requires ParseHost(conf, ParseTarget(Jumps(conf, current.host)[0])) == Some(host)
    ensures LoopInvariant(conf, target, ParseTarget(Jumps(conf, current.host)[0]), iteration + 1,
                          [host] + (rest + visited))
  {
    assert !FailsAt(conf, current.host);
    hide ParseTarget, ParseHost, ParseHosts, RouteSoFar, Reaches, Jumps, PathSoFar, FailsAt;
    var next := ParseTarget(Jumps(conf, current.host)[0]);
    PathStep(conf, target.host, current.host, iteration);
    forall n: nat | Reaches(conf, target.host, n)
      ensures RouteSoFar(conf, target, next, iteration + 1, [host] + (rest + visited), n)
    {
      RouteSoFarStep(conf, target, current, iteration, visited, rest, host, n);
    }
  }

  lemma PathStep(conf: Config, host: string, current: string, iteration: nat)
    requires PathSoFar(conf, host, current, iteration) && Jumps(conf, current) != [] && !FailsAt(conf, current)
    ensures PathSoFar(conf, host, NextHost(conf, current), iteration + 1)
  {
    hide FailsAt, Visit, Jumps, NextHost;
    VisitStep(conf, host, iteration);
  }

  lemma PathEnds(conf: Config, host: string, current: string, iteration: nat)
    requires PathSoFar(conf, host, current, iteration) && Jumps(conf, current) == []
    ensures Reaches(conf, host, iteration)
  {
    hide FailsAt, Visit, Jumps, Reaches;
    var n := EndIsReached(conf, host, iteration);
    ReachesStays(conf, host, n, n);
  }

  lemma ReachesStep(conf: Config, host: string, m: nat)
    requires Jumps(conf, host) != [] && Reaches(conf, host, m)
    ensures m > 0 && Reaches(conf, NextHost(conf, host), m - 1)
  {
  }

  lemma RouteGrows(conf: Config, whole: Option<seq<Host>>, current: Target, m: nat, visited: seq<Host>,
                   rest: seq<Host>, host: Host)
    requires m > 0 && Reaches(conf, current.host, m)
    requires visited != [] && ParseHost(conf, current) == Some(visited[0])
    requires Refines(whole, Route(conf, current, m), visited[1..])
    requires ParseHosts(conf, Jumps(conf, current.host)[1..]) == Some(rest)
    ensures var first := Route(conf, ParseTarget(Jumps(conf, current.host)[0]), m - 1);
      Refines(whole, first, ([host] + (rest + visited))[1..])
  {
    hide ParseTarget, ParseHost, ParseHosts, Refines, Jumps;
    RouteStep(conf, current, m, rest, visited[0]);
    assert Reaches(conf, ParseTarget(Jumps(conf, current.host)[0]).host, m - 1);
    hide Reaches, Route;
    var first := Route(conf, ParseTarget(Jumps(conf, current.host)[0]), m - 1);
    RefinesStep(whole, Route(conf, current, m), first, rest, visited[0], visited[1..]);
    AfterGrows(visited, rest, host);
  }

  lemma AfterGrows(visited: seq<Host>, rest: seq<Host>, host: Host)
    requires visited != []
    ensures ([host] + (rest + visited))[1..] == rest + ([visited[0]] + visited[1..])
  {
    assert [visited[0]] + visited[1..] == visited;
  }

  lemma ReverseCons(host: Host, hosts: seq<Host>)
    ensures Reverse([host] + hosts) == Reverse(hosts) + [host]
  {
  }

  lemma LoopEnds(conf: Config, target: Target, current: Target, iteration: nat, visited: seq<Host>)
    requires LoopInvariant(conf, target, current, iteration, visited)
    requires Jumps(conf, current.host) == []
    ensures Reaches(conf, target.host, iteration)
    ensures Route(conf, target, iteration) == Some(visited)
  {
    PathEnds(conf, target.host, current.host, iteration);
    hide PathSoFar, ParseHost, Jumps;
    assert RouteSoFar(conf, target, current, iteration, visited, iteration);
    assert [] + [visited[0]] == [visited[0]];
    assert Route(conf, current, 0) == Append(Some([]), Some(visited[0]));
    assert visited == [visited[0]] + visited[1..];
  }

  /** What running the loop for at most `fuel` iterations must give: an error (an inner `None`) iff
      something it meets cannot be parsed; otherwise a chain iff fewer than `fuel` first jumps lead to
      a host without jumps, and then its route is the recursive one; otherwise it is still running. */
  ghost predicate Resolved(conf: Config, target: Target, fuel: nat, r: Option<Option<Chain>>) {
    && (r == Some(None) <==> Unparsed(conf, target, fuel))
    && (r.Some? && r.value.Some? <==>
          !Unparsed(conf, target, fuel) && exists n: nat :: n < fuel && Reaches(conf, target.host, n))
    && forall n: nat | n < fuel && Reaches(conf, target.host, n) ::
         r.Some? && (if r.value.None? then None else Some(ChainRoute(r.value.value))) == Route(conf, target, n)
  }

  lemma ResolvedChain(conf: Config, target: Target, fuel: nat, n: nat, chain: Chain)
    requires n < fuel && Reaches(conf, target.host, n) && Route(conf, target, n) == Some(ChainRoute(chain))
    ensures Resolved(conf, target, fuel, Some(Some(chain)))
  {
    hide Unparsed, Route, Reaches, ChainRoute;
    RouteIsParsed(conf, target, n, fuel);
    forall m: nat | Reaches(conf, target.host, m)
      ensures m == n
    {
      ReachesOnce(conf, target.host, m, n);
    }
  }

  lemma ResolvedError(conf: Config, target: Target, fuel: nat)
    requires Unparsed(conf, target, fuel)
    ensures Resolved(conf, target, fuel, Some(None))
  {
    hide Unparsed, Route, Reaches;
    forall n: nat | n < fuel && Reaches(conf, target.host, n)
      ensures Route(conf, target, n) == None
    {
      RouteIsParsed(conf, target, n, fuel);
    }
  }

  lemma ResolvedRunning(conf: Config, target: Target, current: Target, fuel: nat, visited: seq<Host>)
    requires LoopInvariant(conf, target, current, fuel, visited)
    ensures Resolved(conf, target, fuel, None)
  {
    hide Route, Reaches, Refines, FailsAt;
    assert forall n: nat | Reaches(conf, target.host, n) :: RouteSoFar(conf, target, current, fuel, visited, n);
  }

  /** An iteration that fails has met a bastion that cannot be parsed. */
  lemma LoopFails(conf: Config, target: Target, current: Target, iteration: nat, visited: seq<Host>, fuel: nat)
    requires LoopInvariant(conf, target, current, iteration, visited) && iteration < fuel
    requires Jumps(conf, current.host) != []
    requires ParseHosts(conf, Jumps(conf, current.host)[1..]).None?
          || ParseHost(conf, ParseTarget(Jumps(conf, current.host)[0])).None?
    ensures Unparsed(conf, target, fuel)
  {
    assert FailsAt(conf, current.host);
  }

  method ParseConfig(conf: Config, target: Target, fuel: nat) returns (r: Option<Option<Chain>>)
    ensures Resolved(conf, target, fuel, r)
  {
    hide LoopInvariant, Reaches, Route, ChainRoute, ParseTarget, Resolved;
    var host := ParseHost(conf, target);
    if host.None? {
      ResolvedError(conf, target, fuel);
      return Some(None);
    }
    var targetHost := host.value;
    var proxyJump := conf.query(target.host).proxyJump;
    var bastions: Option<seq<Host>> := None;
    ghost var current, visited := target, [targetHost];
    LoopStarts(conf, target, targetHost);
    NoBastions(targetHost);
    for iteration := 0 to fuel
      invariant proxyJump == conf.query(current.host).proxyJump
      invariant visited == ChainRoute(Chain(targetHost, bastions))
      invariant LoopInvariant(conf, target, current, iteration, visited)
    {
      if proxyJump.None? || proxyJump.value == [] {
        LoopEnds(conf, target, current, iteration, visited);
        ResolvedChain(conf, target, fuel, iteration, Chain(targetHost, bastions));
        return Some(Some(Chain(targetHost, bastions)));
      }
      var inner := proxyJump.value;
      var before := if bastions.Some? then bastions.value else [];
      var pushed := PushRest(conf, inner[1..], before);
      var next := ParseTarget(inner[0]);
      var first := ParseHost(conf, next);
      if pushed.None? || first.None? {
        LoopFails(conf, target, current, iteration, visited, fuel);
        ResolvedError(conf, target, fuel);
        return Some(None);
      }
      ghost var rest := ParseHosts(conf, inner[1..]).value;
      LoopStep(conf, target, current, iteration, visited, rest, first.value);
      ReversePushed(before, rest, first.value, targetHost, bastions);
      bastions := Some(pushed.value + [first.value]);
      current := next;
      visited := [first.value] + (rest + visited);
      proxyJump := conf.query(next.host).proxyJump;
    }
    ResolvedRunning(conf, target, current, fuel, visited);
    return None;
  }

  lemma NoBastions(target: Host)
    ensures ChainRoute(Chain(target, None)) == [target]
  {
  }

  /** Any chain that is returned has the target's fields, and, if there are jumps, ends in the listed
      bastions, which have theirs. */
  lemma ChainIsConfigured(conf: Config, target: Target, fuel: nat, chain: Chain)
    requires Resolved(conf, target, fuel, Some(Some(chain)))
    ensures IsHostOf(conf, target, chain.target)
    ensures Jumps(conf, target.host) == [] ==> ChainRoute(chain) == [chain.target]
    ensures Jumps(conf, target.host) != [] ==>
      var first := ParseTarget(Jumps(conf, target.host)[0]);
      exists before, m: nat ::
        IsRouteOf(conf, first, m, before) && EndsInListed(conf, target, before, ChainRoute(chain))
  {
    var n: nat :| n < fuel && Reaches(conf, target.host, n);
    assert Route(conf, target, n) == Some(ChainRoute(chain));
    assert ParseHost(conf, target) == Some(chain.target);
    ParsedHostIs(conf, target);
    if n > 0 {
      var before := RouteEndsInListed(conf, target, n, ChainRoute(chain));
    } else {
      assert [] + [chain.target] == [chain.target];
    }
  }

  lemma ReversePushed(before: seq<Host>, rest: seq<Host>, first: Host, target: Host, bastions: Option<seq<Host>>)
    requires before == if bastions.Some? then bastions.value else []
    ensures ChainRoute(Chain(target, Some(before + Reverse(rest) + [first])))
         == [first] + (rest + ChainRoute(Chain(target, bastions)))
  {
  }

  lemma ParseHostsStep(conf: Config, rest: seq<string>, i: nat)
    requires i < |rest| && ParseHosts(conf, rest[i + 1..]).Some? && ParseHost(conf, ParseTarget(rest[i])).Some?
    ensures ParseHosts(conf, rest[i..])
         == Some([ParseHost(conf, ParseTarget(rest[i])).value] + ParseHosts(conf, rest[i + 1..]).value)
  {
    assert rest[i..][1..] == rest[i + 1..];
  }

  /** The loop over the remaining listed bastions, last one first. */
  method PushRest(conf: Config, rest: seq<string>, bastions: seq<Host>) returns (r: Option<seq<Host>>)
    ensures var hosts := ParseHosts(conf, rest);
      r == if hosts.None? then None else Some(bastions + Reverse(hosts.value))
  {
    var pushed := bastions;
    var i := |rest|;
    assert bastions + Reverse([]) == bastions;
    while i > 0
      invariant 0 <= i <= |rest|
      invariant ParseHosts(conf, rest[i..]).Some?
      invariant pushed == bastions + Reverse(ParseHosts(conf, rest[i..]).value)
    {
      i := i - 1;
      var host := ParseHost(conf, ParseTarget(rest[i]));
      if host.None? {
        return None;
      }
      ghost var hosts := ParseHosts(conf, rest[i + 1..]).value;
      ParseHostsStep(conf, rest, i);
      hide ParseHosts, ParseTarget, ParseHost, Reverse;
      ReverseCons(host.value, hosts);
      Assoc(bastions, Reverse(hosts), [host.value]);
      pushed := pushed + [host.value];
    }
    assert rest[0..] == rest;
    return Some(pushed);
  }

  // ---- Does the loop return? ----

  /** The hosts on a path that ends are all different, so `n + 1` iterations visit `n + 1` hosts. */
  lemma PathIsDistinct(conf: Config, host: string, n: nat, i: nat, j: nat)
    requires Reaches(conf, host, n) && i < j <= n
    ensures Visit(conf, host, i) != Visit(conf, host, j)
  {
    ReachesAfter(conf, host, n, i);
    ReachesAfter(conf, host, n, j);
    if Visit(conf, host, i) == Visit(conf, host, j) {
      ReachesOnce(conf, Visit(conf, host, i), n - i, n - j);
    }
  }

  function Visited(conf: Config, host: string, k: nat): set<string> {
    (if k == 0 then {} else Visited(conf, host, k - 1)) + {Visit(conf, host, k)}
  }

  lemma {:induction false} VisitedHas(conf: Config, host: string, k: nat, i: nat)
    requires i <= k
    ensures Visit(conf, host, i) in Visited(conf, host, k)
    decreases k
  {
    hide Visit;
    if i < k {
      VisitedHas(conf, host, k - 1, i);
    }
  }

  lemma {:induction false} VisitedAt(conf: Config, host: string, k: nat, x: string) returns (i: nat)
    requires x in Visited(conf, host, k)
    ensures i <= k && x == Visit(conf, host, i)
    decreases k
  {
    hide Visit;
    if x == Visit(conf, host, k) {
      i := k;
    } else {
      i := VisitedAt(conf, host, k - 1, x);
    }
  }

  lemma {:induction false} DistinctHosts(conf: Config, host: string, k: nat)
    requires forall i: nat, j: nat | i < j <= k :: Visit(conf, host, i) != Visit(conf, host, j)
    ensures |Visited(conf, host, k)| == k + 1
  {
    if k > 0 {
      DistinctHosts(conf, host, k - 1);
      var x := Visit(conf, host, k);
      if x in Visited(conf, host, k - 1) {
        var i := VisitedAt(conf, host, k - 1, x);
        assert false;
      }
    }
  }

  lemma IterationsAreHosts(conf: Config, host: string, n: nat, k: nat)
    requires Reaches(conf, host, n) && k <= n
    ensures |Visited(conf, host, k)| == k + 1
  {
    forall i: nat, j: nat | i < j <= k
      ensures Visit(conf, host, i) != Visit(conf, host, j)
    {
      PathIsDistinct(conf, host, n, i, j);
    }
    DistinctHosts(conf, host, k);
  }

  lemma {:induction false} SubsetIsSmaller(a: set<string>, b: set<string>)
    requires a <= b
    ensures |a| <= |b|
    decreases |a|
  {
    if x :| x in a {
      SubsetIsSmaller(a - {x}, b - {x});
    }
  }

  lemma VisitedAreAmong(conf: Config, host: string, hosts: set<string>, k: nat)
    requires forall i: nat :: Visit(conf, host, i) in hosts
    ensures |Visited(conf, host, k)| <= |hosts|
  {
    forall x | x in Visited(conf, host, k)
      ensures x in hosts
    {
      var i := VisitedAt(conf, host, k, x);
    }
    SubsetIsSmaller(Visited(conf, host, k), hosts);
  }

  /** Among finitely many hosts, a path that ends does so within as many iterations as there are hosts. */
  lemma FiniteConfiguration(conf: Config, target: Target, hosts: set<string>, n: nat)
    requires forall k: nat :: Visit(conf, target.host, k) in hosts
    requires Reaches(conf, target.host, n)
    ensures n < |hosts|
  {
    IterationsAreHosts(conf, target.host, n, n);
    VisitedAreAmong(conf, target.host, hosts, n);
  }

  /** The path comes back to a host it left. */
  predicate ComesBack(conf: Config, host: string, i: nat, j: nat) {
    i < j && Visit(conf, host, i) == Visit(conf, host, j) && Jumps(conf, Visit(conf, host, j)) != []
  }

  ghost predicate ComesBackWithin(conf: Config, host: string, m: nat) {
    exists i: nat, j: nat :: j <= m && ComesBack(conf, host, i, j)
  }

  lemma NoEndAfterComingBack(conf: Config, host: string, i: nat, j: nat, n: nat)
    requires ComesBack(conf, host, i, j)
    ensures !Reaches(conf, host, n)
  {
    if Reaches(conf, host, n) {
      if n < j {
        ReachesStays(conf, host, n, j);
      } else {
        PathIsDistinct(conf, host, n, i, j);
      }
    }
  }

  /** If the path comes back to a host it left, no number of iterations returns a chain: the loop runs
      for ever, unless something it meets cannot be parsed. */
  lemma RevisitNeverReturns(conf: Config, target: Target, i: nat, j: nat, fuel: nat, r: Option<Option<Chain>>)
    requires ComesBack(conf, target.host, i, j) && Resolved(conf, target, fuel, r)
    ensures r == if Unparsed(conf, target, fuel) then Some(None) else None
  {
    hide Unparsed, Reaches, ComesBack;
    forall n: nat
      ensures !Reaches(conf, target.host, n)
    {
      NoEndAfterComingBack(conf, target.host, i, j, n);
    }
  }

  /** Conversely, among finitely many hosts a path without end comes back to one. */
  lemma EndlessComesBack(conf: Config, host: string, hosts: set<string>) returns (i: nat, j: nat)
    requires forall k: nat :: Visit(conf, host, k) in hosts
    requires forall n: nat :: !Reaches(conf, host, n)
    ensures ComesBack(conf, host, i, j) && j <= |hosts|
  {
    var m := |hosts|;
    VisitedAreAmong(conf, host, hosts, m);
    if forall i: nat, j: nat | i < j <= m :: Visit(conf, host, i) != Visit(conf, host, j) {
      DistinctHosts(conf, host, m);
    }
    i, j :| i < j <= m && Visit(conf, host, i) == Visit(conf, host, j);
    if Jumps(conf, Visit(conf, host, j)) == [] {
      var n := EndIsReached(conf, host, j);
    }
  }

  /** Among finitely many hosts, and unless something the loop meets cannot be parsed, it returns a
      chain if the path does not come back to a host within as many jumps as there are hosts, and
      otherwise runs for ever. */
  lemma ReturnsUnlessPathComesBack(conf: Config, target: Target, hosts: set<string>, fuel: nat,
                                   r: Option<Option<Chain>>)
    requires forall k: nat :: Visit(conf, target.host, k) in hosts
    requires |hosts| <= fuel && Resolved(conf, target, fuel, r)
    ensures r == Some(None) <==> Unparsed(conf, target, fuel)
    ensures r == None <==> !Unparsed(conf, target, fuel) && ComesBackWithin(conf, target.host, |hosts|)
  {
    hide Unparsed, Reaches, ComesBack, Visit, Route;
    if n: nat :| Reaches(conf, target.host, n) {
      FiniteConfiguration(conf, target, hosts, n);
      forall i: nat, j: nat
        ensures !ComesBack(conf, target.host, i, j)
      {
        if ComesBack(conf, target.host, i, j) {
          NoEndAfterComingBack(conf, target.host, i, j, n);
        }
      }
    } else {
      var i, j := EndlessComesBack(conf, target.host, hosts);
    }
  }

  /** A concrete configuration the loop never returns from: a host whose first jump is itself. */
  lemma SelfJumpNeverReturns(auth: Auth, whoami: Option<string>, fuel: nat, r: Option<Option<Chain>>)
    requires var conf := Config(name => Params(None, None, Some("user"), Some(["host"]), auth), whoami);
      Resolved(conf, Target("host", None, None), fuel, r)
    ensures r == None
  {
    var conf := Config(name => Params(None, None, Some("user"), Some(["host"]), auth), whoami);
    var target := Target("host", None, None);
    assert ParseTarget("host") == target by {
      assert FirstIndex("host", '@') == 4;
      assert LastIndex("host", ':').None?;
    }
    assert Visit(conf, "host", 0) == Visit(conf, "host", 1) == "host";
    assert ComesBack(conf, "host", 0, 1);
    RevisitNeverReturns(conf, target, 0, 1, fuel, r);
  }

  // ---- The chain iterator ----

  datatype Item = Item(from: Host, to: Host)

  /** The items for the `w` remaining windows, last window first, then the final hop. */
  function Items(bastions: seq<Host>, w: nat, final: Option<Item>): (r: seq<Item>)
    requires w < |bastions| || w == 0
    ensures |r| == w + if final.Some? then 1 else 0
  {
    if w > 0 then [Item(bastions[w], bastions[w - 1])] + Items(bastions, w - 1, final)
    else if final.Some? then [final.value] else []
  }

  class BastionIter {
    const bastions: seq<Host>
    var windows: nat
    var finalTarget: Option<Item>

    ghost predicate Valid()
      reads this
    {
      (windows < |bastions| || windows == 0) && (finalTarget.None? ==> windows == 0)
    }

    ghost function Pending(): seq<Item>
      reads this
      requires Valid()
    {
      Items(bastions, windows, finalTarget)
    }

    constructor (bastions: seq<Host>, target: Host)
      requires bastions != []
      ensures Valid() && this.bastions == bastions
      ensures Pending() == Items(bastions, |bastions| - 1, Some(Item(bastions[0], target)))
    {
      this.bastions := bastions;
      windows := |bastions| - 1;
      finalTarget := Some(Item(bastions[0], target));
    }

    /** Yields the pending items in order, and then `None` for ever. */
    method Next() returns (r: Option<Item>)
      requires Valid()
      modifies this
      ensures Valid()
      ensures old(Pending()) == [] ==> r == None && Pending() == []
      ensures old(Pending()) != [] ==> r == Some(old(Pending())[0]) && Pending() == old(Pending())[1..]
    {
      if windows > 0 {
        windows := windows - 1;
        return Some(Item(bastions[windows + 1], bastions[windows]));
      } else {
        r := finalTarget;
        finalTarget := None;
      }
    }

    method Len() returns (n: nat)
      requires Valid()
      ensures n == |Pending()|
    {
      if finalTarget.None? {
        return 0;
      } else {
        return windows + 1;
      }
    }
  }

  /** Every item starts where the one before ended. */
  predicate Linked(from: Host, items: seq<Item>)
    decreases |items|
  {
    items == [] || (items[0].from == from && Linked(items[0].to, items[1..]))
  }

  function Destinations(items: seq<Item>): (r: seq<Host>)
    ensures |r| == |items| && forall i :: 0 <= i < |r| ==> r[i] == items[i].to
  {
    seq(|items|, i requires 0 <= i < |items| => items[i].to)
  }

  lemma {:induction false} ItemsAreLinked(bastions: seq<Host>, w: nat, target: Host)
    requires w < |bastions|
    ensures Linked(bastions[w], Items(bastions, w, Some(Item(bastions[0], target))))
  {
    var items := Items(bastions, w, Some(Item(bastions[0], target)));
    if w > 0 {
      ItemsAreLinked(bastions, w - 1, target);
      assert items[1..] == Items(bastions, w - 1, Some(Item(bastions[0], target)));
    }
  }

  lemma ItemAt(bastions: seq<Host>, w: nat, final: Item, i: nat)
    requires w < |bastions| && i <= w
    ensures Items(bastions, w, Some(final))[i] == if i < w then Item(bastions[w - i], bastions[w - i - 1]) else final
    decreases w
  {
    if i > 0 {
      ItemAt(bastions, w - 1, final, i - 1);
    }
  }

  lemma ItemsFollowRoute(bastions: seq<Host>, w: nat, target: Host)
    requires w < |bastions|
    ensures Destinations(Items(bastions, w, Some(Item(bastions[0], target)))) == Reverse(bastions[..w]) + [target]
  {
    var final := Item(bastions[0], target);
    forall i | 0 <= i <= w
      ensures Items(bastions, w, Some(final))[i].to == (Reverse(bastions[..w]) + [target])[i]
    {
      ItemAt(bastions, w, final, i);
    }
  }

  /** `Chain::iter`: the entry host and the hops after it are the chain's route. */
  method Iterate(chain: Chain) returns (first: Host, it: Option<BastionIter>)
    ensures it.Some? ==> fresh(it.value) && it.value.Valid()
    ensures it.Some? <==> chain.bastions.Some? && chain.bastions.value != []
    ensures it.Some? ==> Linked(first, it.value.Pending()) && |it.value.Pending()| == |chain.bastions.value|
    ensures [first] + (if it.Some? then Destinations(it.value.Pending()) else []) == ChainRoute(chain)
  {
    if chain.bastions.Some? && chain.bastions.value != [] {
      var bastions := chain.bastions.value;
      first := bastions[|bastions| - 1];
      var bastionIter := new BastionIter(bastions, chain.target);
      ItemsFollowRoute(bastions, |bastions| - 1, chain.target);
      ItemsAreLinked(bastions, |bastions| - 1, chain.target);
      assert Reverse(bastions) == [first] + Reverse(bastions[..|bastions| - 1]);
      it := Some(bastionIter);
    } else {
      first := chain.target;
      it := None;
    }
  }
}
