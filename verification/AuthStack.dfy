// The authentication stack (`AuthMethods` and its builders in src/auth.rs).
module AuthStack {
  import opened Text
  import opened ProxyJump

  datatype LocalKind = LocalPriv(privKey: string) | LocalCert(cert: string, privKey: string)

  datatype AgentKind =
    | Full
    | AgentPriv(privKey: string)
    | AgentPub(pubKey: string)
    | AgentCertPriv(cert: string, privKey: string)
    | AgentCertPub(cert: string, pubKey: string)

  datatype AuthMethod = NoAuth | Local(kind: LocalKind) | Agent(agent: string, agentKind: AgentKind)

  datatype KeyType = MaybePublic | MaybePrivate | Unusable

  /** `check_pub_or_priv`: what a file looks like, decided by the file system. */
  type KeyTypes = string -> KeyType

  /** One method is kept without a vector. */
  datatype Inner = Left(single: AuthMethod) | Right(stack: seq<AuthMethod>)
  {
    function Items(): seq<AuthMethod> {
      match this
      case Left(m) => [m]
      case Right(ms) => ms
    }
  }

  class AuthMethods {
    var inner: Inner

    constructor (inner: Inner)
      ensures this.inner == inner
    {
      this.inner := inner;
    }

    method Push(m: AuthMethod)
      modifies this
      ensures inner.Items() == old(inner.Items()) + [m]
    {
      match inner
      case Left(first) => inner := Right([first, m]);
      case Right(ms) => inner := Right(ms + [m]);
    }
  }

  // ---- One identity ----

  function NoAgent(keys: KeyTypes, identity: string, cert: Option<string>): Option<LocalKind> {
    if keys(identity) != MaybePrivate then None
    else if cert.Some? then Some(LocalCert(cert.value, identity))
    else Some(LocalPriv(identity))
  }

  function WithAgentFiltered(keys: KeyTypes, identity: string, cert: Option<string>)
    : Option<(AgentKind, Option<LocalKind>)>
  {
    match (keys(identity), cert)
    case (Unusable, _) => None
    case (MaybePrivate, Some(c)) => Some((AgentCertPriv(c, identity), Some(LocalCert(c, identity))))
    case (MaybePrivate, None) => Some((AgentPriv(identity), Some(LocalPriv(identity))))
    case (MaybePublic, Some(c)) => Some((AgentCertPub(c, identity), None))
    case (MaybePublic, None) => Some((AgentPub(identity), None))
  }

  // ---- The iterators over identities ----

  type Filtered = seq<(AgentKind, Option<LocalKind>)>

  function FilterLocal(keys: KeyTypes, identities: seq<string>, cert: Option<string>): seq<AuthMethod> {
    if identities == [] then []
    else
      var first := NoAgent(keys, identities[0], cert);
      (if first.Some? then [Local(first.value)] else []) + FilterLocal(keys, identities[1..], cert)
  }

  function FilterAgent(keys: KeyTypes, identities: seq<string>, cert: Option<string>): Filtered {
    if identities == [] then []
    else
      var first := WithAgentFiltered(keys, identities[0], cert);
      (if first.Some? then [first.value] else []) + FilterAgent(keys, identities[1..], cert)
  }

  // ---- What the stack should be ----

  /** The agent methods of all usable identities, in order. */
  function AgentMethods(keys: KeyTypes, agent: string, identities: seq<string>, cert: Option<string>): seq<AuthMethod> {
    if identities == [] then []
    else
      var rest := AgentMethods(keys, agent, identities[1..], cert);
      match keys(identities[0])
      case Unusable => rest
      case MaybePrivate =>
        [Agent(agent, if cert.Some? then AgentCertPriv(cert.value, identities[0]) else AgentPriv(identities[0]))] + rest
      case MaybePublic =>
        [Agent(agent, if cert.Some? then AgentCertPub(cert.value, identities[0]) else AgentPub(identities[0]))] + rest
  }

  /** The local methods of all private keys, in order. */
  function LocalMethods(keys: KeyTypes, identities: seq<string>, cert: Option<string>): seq<AuthMethod> {
    if identities == [] then []
    else
      var rest := LocalMethods(keys, identities[1..], cert);
      if keys(identities[0]) != MaybePrivate then rest
      else [Local(if cert.Some? then LocalCert(cert.value, identities[0]) else LocalPriv(identities[0]))] + rest
  }

  /** All agent methods, then all local methods. */
  function Configured(keys: KeyTypes, auth: Auth): seq<AuthMethod> {
    var identities := if auth.identities.Some? then auth.identities.value else [];
    var local := LocalMethods(keys, identities, auth.cert);
    match auth.agent
    case None => local
    case Some(agent) =>
      if auth.identitiesOnly then AgentMethods(keys, agent, identities, auth.cert) + local
      else [Agent(agent, Full)] + local
  }

  function Intended(keys: KeyTypes, auth: Auth): seq<AuthMethod> {
    if auth.includesNone then [NoAuth] + Configured(keys, auth)
    else if Configured(keys, auth) == [] then [NoAuth]
    else Configured(keys, auth)
  }

  /** The first identity that is not unusable. */
  function FirstUsable(keys: KeyTypes, identities: seq<string>): Option<string> {
    if identities == [] then None
    else if keys(identities[0]) != Unusable then Some(identities[0])
    else FirstUsable(keys, identities[1..])
  }

  /** The one case where the stack is not the intended one: no leading `None`, only configured
      identities from the agent, and the first usable identity is a private key. */
  predicate DropsFirst(keys: KeyTypes, auth: Auth) {
    && !auth.includesNone && auth.agent.Some? && auth.identitiesOnly && auth.identities.Some?
    && FirstUsable(keys, auth.identities.value).Some?
    && keys(FirstUsable(keys, auth.identities.value).value) == MaybePrivate
  }

  // ---- The builders ----

  function AgentsOf(agent: string, it: Filtered): (r: seq<AuthMethod>)
    ensures |r| == |it|
  {
    if it == [] then [] else [Agent(agent, it[0].0)] + AgentsOf(agent, it[1..])
  }

  function LocalOf(kind: Option<LocalKind>): seq<AuthMethod> {
    if kind.Some? then [Local(kind.value)] else []
  }

  function LocalsOf(it: Filtered): seq<AuthMethod> {
    if it == [] then [] else LocalOf(it[0].1) + LocalsOf(it[1..])
  }

  lemma {:induction false} FilterLocalIs(keys: KeyTypes, identities: seq<string>, cert: Option<string>)
    ensures FilterLocal(keys, identities, cert) == LocalMethods(keys, identities, cert)
  {
    if identities != [] {
      FilterLocalIs(keys, identities[1..], cert);
    }
  }

  lemma {:induction false} FilterAgentIs(keys: KeyTypes, agent: string, identities: seq<string>, cert: Option<string>)
    ensures AgentsOf(agent, FilterAgent(keys, identities, cert)) == AgentMethods(keys, agent, identities, cert)
    ensures LocalsOf(FilterAgent(keys, identities, cert)) == LocalMethods(keys, identities, cert)
  {
    if identities != [] {
      FilterAgentIs(keys, agent, identities[1..], cert);
      var first := WithAgentFiltered(keys, identities[0], cert);
      var rest := FilterAgent(keys, identities[1..], cert);
      if first.Some? {
        assert FilterAgent(keys, identities, cert)[1..] == rest;
      } else {
        assert FilterAgent(keys, identities, cert) == rest;
      }
    }
  }

  /** `get_or_insert_default().push(...)`, skipping identities without a local method. */
  function PushLocal(local: Option<seq<AuthMethod>>, kind: Option<LocalKind>): Option<seq<AuthMethod>> {
    if kind.None? then local
    else Some((if local.Some? then local.value else []) + [Local(kind.value)])
  }

  function Pushed(local: Option<seq<AuthMethod>>): seq<AuthMethod> {
    if local.Some? then local.value else []
  }

  /** One step of a loop over the iterator: what is gathered and what is still to come stay the same. */
  lemma GatherStep(agent: string, it: Filtered, i: nat, agents: seq<AuthMethod>, local: Option<seq<AuthMethod>>)
    requires i < |it|
    ensures agents + AgentsOf(agent, it[i..]) == agents + [Agent(agent, it[i].0)] + AgentsOf(agent, it[i + 1..])
    ensures Pushed(local) + LocalsOf(it[i..]) == Pushed(PushLocal(local, it[i].1)) + LocalsOf(it[i + 1..])
  {
    assert it[i..][1..] == it[i + 1..];
    Assoc(agents, [Agent(agent, it[i].0)], AgentsOf(agent, it[i + 1..]));
    Assoc(Pushed(local), LocalOf(it[i].1), LocalsOf(it[i + 1..]));
    assert Pushed(PushLocal(local, it[i].1)) == Pushed(local) + LocalOf(it[i].1);
  }

  method AgentFilteredWithNone(agent: string, it: Filtered) returns (methods: seq<AuthMethod>)
    ensures methods == [NoAuth] + AgentsOf(agent, it) + LocalsOf(it)
  {
    methods := [NoAuth];
    var local: Option<seq<AuthMethod>> := None;
    assert it[0..] == it;
    for i := 0 to |it|
      invariant methods + AgentsOf(agent, it[i..]) == [NoAuth] + AgentsOf(agent, it)
      invariant Pushed(local) + LocalsOf(it[i..]) == LocalsOf(it)
    {
      GatherStep(agent, it, i, methods, local);
      methods := methods + [Agent(agent, it[i].0)];
      local := PushLocal(local, it[i].1);
    }
    assert it[|it|..] == [];
    if local.Some? {
      methods := methods + local.value;
    }
  }

  lemma NoIdentities(keys: KeyTypes, auth: Auth)
    ensures LocalMethods(keys, [], auth.cert) == []
    ensures auth.agent.Some? ==> AgentMethods(keys, auth.agent.value, [], auth.cert) == []
  {
  }

  method FromConfigWithNone(keys: KeyTypes, auth: Auth) returns (r: Inner)
    ensures r.Items() == [NoAuth] + Configured(keys, auth)
  {
    NoIdentities(keys, auth);
    hide AgentMethods, LocalMethods, FilterLocal, FilterAgent;
    if auth.agent.Some? && auth.identitiesOnly && auth.identities.Some? {
      var agent, identities := auth.agent.value, auth.identities.value;
      FilterAgentIs(keys, agent, identities, auth.cert);
      var methods := AgentFilteredWithNone(agent, FilterAgent(keys, identities, auth.cert));
      Assoc([NoAuth], AgentMethods(keys, agent, identities, auth.cert), LocalMethods(keys, identities, auth.cert));
      return Right(methods);
    } else if auth.agent.Some? && auth.identitiesOnly {
      return Left(NoAuth);
    } else if auth.agent.Some? {
      var methods := [NoAuth, Agent(auth.agent.value, Full)];
      if auth.identities.Some? {
        FilterLocalIs(keys, auth.identities.value, auth.cert);
        methods := methods + FilterLocal(keys, auth.identities.value, auth.cert);
      }
      return Right(methods);
    } else if auth.identities.Some? {
      FilterLocalIs(keys, auth.identities.value, auth.cert);
      var it := FilterLocal(keys, auth.identities.value, auth.cert);
      if it != [] {
        return Right([NoAuth, it[0]] + it[1..]);
      } else {
        return Left(NoAuth);
      }
    } else {
      return Left(NoAuth);
    }
  }

  lemma FilteredStep(agent: string, it: Filtered)
    requires it != []
    ensures AgentsOf(agent, it) == [Agent(agent, it[0].0)] + AgentsOf(agent, it[1..])
    ensures LocalsOf(it) == LocalOf(it[0].1) + LocalsOf(it[1..])
  {
  }

  lemma NothingFiltered(agent: string)
    ensures AgentsOf(agent, []) == [] && LocalsOf([]) == []
  {
  }

  /** The vector of agent methods starts with the first one, unless that came with a local method. */
  method AgentFilteredWithoutNone(agent: string, it: Filtered) returns (r: Option<Inner>)
    ensures r.None? <==> it == []
    ensures r.Some? ==>
      var agents := AgentsOf(agent, it);
      r.value.Items() == (if it[0].1.Some? then agents[1..] else agents) + LocalsOf(it)
  {
    if it == [] {
      return None;
    }
    var (first, firstLocal) := it[0];
    var firstAgent := Agent(agent, first);
    var rest := it[1..];
    var agents: Option<seq<AuthMethod>> := None;
    var local: Option<seq<AuthMethod>> := None;
    if firstLocal.Some? {
      agents := Some([]);
      local := Some([Local(firstLocal.value)]);
    }
    ghost var start := if firstLocal.Some? then [] else [firstAgent];
    assert rest[0..] == rest;
    hide AgentsOf, LocalsOf;
    assert LocalsOf(it) == LocalOf(firstLocal) + LocalsOf(rest)
        && AgentsOf(agent, it) == [firstAgent] + AgentsOf(agent, rest) by {
      FilteredStep(agent, it);
    }
    for i := 0 to |rest|
      invariant agents.None? ==> i == 0 && firstLocal.None?
      invariant (if agents.Some? then agents.value else [firstAgent]) + AgentsOf(agent, rest[i..])
             == start + AgentsOf(agent, rest)
      invariant Pushed(local) + LocalsOf(rest[i..]) == LocalsOf(it)
    {
      var before := if agents.Some? then agents.value else [firstAgent];
      GatherStep(agent, rest, i, before, local);
      agents := Some(before + [Agent(agent, rest[i].0)]);
      local := PushLocal(local, rest[i].1);
    }
    assert rest[|rest|..] == [];
    NothingFiltered(agent);
    assert [] + AgentsOf(agent, rest) == AgentsOf(agent, rest);
    assert (if agents.Some? then agents.value else [firstAgent]) == start + AgentsOf(agent, rest);
    assert Pushed(local) == LocalsOf(it);
    if agents.Some? {
      return Some(Right(agents.value + Pushed(local)));
    } else {
      return Some(Left(firstAgent));
    }
  }

  method FromConfigWithoutNone(keys: KeyTypes, auth: Auth) returns (r: Option<Inner>)
    ensures r.None? <==> Configured(keys, auth) == []
    ensures r.Some? && !auth.includesNone ==>
      r.value.Items() == if DropsFirst(keys, auth) then Configured(keys, auth)[1..] else Configured(keys, auth)
  {
    if auth.agent.Some? && auth.identitiesOnly && auth.identities.Some? {
      FilterAgentIs(keys, auth.agent.value, auth.identities.value, auth.cert);
      FirstUsableIs(keys, auth.agent.value, auth.identities.value, auth.cert);
      r := AgentFilteredWithoutNone(auth.agent.value, FilterAgent(keys, auth.identities.value, auth.cert));
    } else if auth.agent.Some? && auth.identitiesOnly {
      return None;
    } else if auth.agent.Some? {
      var full := Agent(auth.agent.value, Full);
      var it := if auth.identities.Some? then FilterLocal(keys, auth.identities.value, auth.cert) else [];
      if auth.identities.Some? {
        FilterLocalIs(keys, auth.identities.value, auth.cert);
      }
      if it != [] {
        return Some(Right([full, it[0]] + it[1..]));
      } else {
        return Some(Left(full));
      }
    } else if auth.identities.Some? {
      FilterLocalIs(keys, auth.identities.value, auth.cert);
      var it := FilterLocal(keys, auth.identities.value, auth.cert);
      if |it| >= 2 {
        return Some(Right([it[0], it[1]] + it[2..]));
      } else if it != [] {
        return Some(Left(it[0]));
      } else {
        return None;
      }
    } else {
      return None;
    }
  }

  lemma FilterStep(keys: KeyTypes, agent: string, identities: seq<string>, cert: Option<string>)
    requires identities != []
    ensures keys(identities[0]) == Unusable ==>
      && FilterAgent(keys, identities, cert) == FilterAgent(keys, identities[1..], cert)
      && AgentMethods(keys, agent, identities, cert) == AgentMethods(keys, agent, identities[1..], cert)
      && LocalMethods(keys, identities, cert) == LocalMethods(keys, identities[1..], cert)
    ensures keys(identities[0]) != Unusable ==>
      && FilterAgent(keys, identities, cert) != [] && AgentMethods(keys, agent, identities, cert) != []
      && (FilterAgent(keys, identities, cert)[0].1.Some? <==> keys(identities[0]) == MaybePrivate)
  {
  }

  /** The first element of the filtered iterator comes from the first usable identity. */
  lemma {:induction false} FirstUsableIs(keys: KeyTypes, agent: string, identities: seq<string>, cert: Option<string>)
    ensures FilterAgent(keys, identities, cert) == [] <==> FirstUsable(keys, identities).None?
    ensures FilterAgent(keys, identities, cert) == [] <==>
      AgentMethods(keys, agent, identities, cert) + LocalMethods(keys, identities, cert) == []
    ensures FirstUsable(keys, identities).Some? ==>
      (FilterAgent(keys, identities, cert)[0].1.Some? <==> keys(FirstUsable(keys, identities).value) == MaybePrivate)
  {
    if identities != [] {
      FirstUsableIs(keys, agent, identities[1..], cert);
      hide FilterAgent, AgentMethods, LocalMethods;
      FilterStep(keys, agent, identities, cert);
    }
  }

  /** What `from_config` builds. */
  function Built(keys: KeyTypes, auth: Auth): seq<AuthMethod> {
    DroppedStackIsShorter(keys, auth);
    if DropsFirst(keys, auth) then Configured(keys, auth)[1..] else Intended(keys, auth)
  }

  method FromConfig(keys: KeyTypes, auth: Auth) returns (r: Inner)
    ensures r.Items() == Built(keys, auth) && r.Items() != []
    ensures r.Items() == Intended(keys, auth) <==> !DropsFirst(keys, auth)
  {
    DroppedStackIsShorter(keys, auth);
    if auth.includesNone {
      r := FromConfigWithNone(keys, auth);
    } else {
      var stack := FromConfigWithoutNone(keys, auth);
      match stack {
        case Some(inner) => r := inner;
        case None => r := Left(NoAuth);
      }
    }
  }

  lemma {:induction false} DropShape(keys: KeyTypes, agent: string, identities: seq<string>, cert: Option<string>)
    requires FirstUsable(keys, identities).Some? && keys(FirstUsable(keys, identities).value) == MaybePrivate
    ensures AgentMethods(keys, agent, identities, cert) != [] && LocalMethods(keys, identities, cert) != []
  {
    if keys(identities[0]) == Unusable {
      DropShape(keys, agent, identities[1..], cert);
    }
  }

  lemma DroppedStackIsShorter(keys: KeyTypes, auth: Auth)
    ensures DropsFirst(keys, auth) ==> |Configured(keys, auth)| >= 2
  {
    if DropsFirst(keys, auth) {
      DropShape(keys, auth.agent.value, auth.identities.value, auth.cert);
    }
  }

  /** The stack is the intended one exactly when the first agent method is not dropped. */
  lemma StackIsIntended(keys: KeyTypes, auth: Auth)
    ensures Built(keys, auth) == Intended(keys, auth) <==> !DropsFirst(keys, auth)
    ensures Built(keys, auth) != []
  {
    DroppedStackIsShorter(keys, auth);
  }

  /** What one identity is worth, to the agent and locally, with and without a certificate. */
  lemma OneIdentity(keys: KeyTypes, agent: string, id: string, cert: string)
    ensures keys(id) == MaybePrivate ==>
      && AgentMethods(keys, agent, [id], None) == [Agent(agent, AgentPriv(id))]
      && AgentMethods(keys, agent, [id], Some(cert)) == [Agent(agent, AgentCertPriv(cert, id))]
      && LocalMethods(keys, [id], None) == [Local(LocalPriv(id))]
      && LocalMethods(keys, [id], Some(cert)) == [Local(LocalCert(cert, id))]
    ensures keys(id) == MaybePublic ==>
      && AgentMethods(keys, agent, [id], None) == [Agent(agent, AgentPub(id))]
      && AgentMethods(keys, agent, [id], Some(cert)) == [Agent(agent, AgentCertPub(cert, id))]
    ensures keys(id) != MaybePrivate ==> forall c :: LocalMethods(keys, [id], c) == []
    ensures keys(id) == Unusable ==> forall c :: AgentMethods(keys, agent, [id], c) == []
  {
    assert [id][1..] == [];
  }

  lemma AgentMethodsStep(keys: KeyTypes, agent: string, ids: seq<string>, cert: Option<string>)
    requires ids != []
    ensures AgentMethods(keys, agent, ids, cert)
         == AgentMethods(keys, agent, [ids[0]], cert) + AgentMethods(keys, agent, ids[1..], cert)
  {
    var rest := AgentMethods(keys, agent, ids[1..], cert);
    assert [ids[0]][1..] == [];
    assert AgentMethods(keys, agent, [], cert) == [];
    if keys(ids[0]) == Unusable {
      assert [] + rest == rest;
    }
  }

  lemma LocalMethodsStep(keys: KeyTypes, ids: seq<string>, cert: Option<string>)
    requires ids != []
    ensures LocalMethods(keys, ids, cert) == LocalMethods(keys, [ids[0]], cert) + LocalMethods(keys, ids[1..], cert)
  {
    var rest := LocalMethods(keys, ids[1..], cert);
    assert [ids[0]][1..] == [];
    assert LocalMethods(keys, [], cert) == [];
    if keys(ids[0]) != MaybePrivate {
      assert [] + rest == rest;
    }
  }

  /** The identities of a list are worth what they are worth one by one, in order. */
  lemma {:induction false} IdentitiesInOrder(keys: KeyTypes, agent: string, a: seq<string>, b: seq<string>,
                                             cert: Option<string>)
    ensures AgentMethods(keys, agent, a + b, cert)
         == AgentMethods(keys, agent, a, cert) + AgentMethods(keys, agent, b, cert)
    ensures LocalMethods(keys, a + b, cert) == LocalMethods(keys, a, cert) + LocalMethods(keys, b, cert)
  {
    if a == [] {
      assert a + b == b;
    } else {
      var first := [a[0]];
      assert (a + b)[0] == a[0] && (a + b)[1..] == a[1..] + b;
      AgentMethodsStep(keys, agent, a, cert);
      AgentMethodsStep(keys, agent, a + b, cert);
      LocalMethodsStep(keys, a, cert);
      LocalMethodsStep(keys, a + b, cert);
      hide AgentMethods, LocalMethods;
      IdentitiesInOrder(keys, agent, a[1..], b, cert);
      Assoc(AgentMethods(keys, agent, first, cert), AgentMethods(keys, agent, a[1..], cert),
            AgentMethods(keys, agent, b, cert));
      Assoc(LocalMethods(keys, first, cert), LocalMethods(keys, a[1..], cert), LocalMethods(keys, b, cert));
    }
  }

  /** What is intended in each of the configurations: `none` first if asked for, or if there is nothing
      else; then the agent, whole or by identity; then the private keys. */
  lemma IntendedIs(keys: KeyTypes, auth: Auth)
    ensures var ids := if auth.identities.Some? then auth.identities.value else [];
      var local := LocalMethods(keys, ids, auth.cert);
      var byAgent := if auth.agent.None? then []
                     else if !auth.identitiesOnly then [Agent(auth.agent.value, Full)]
                     else AgentMethods(keys, auth.agent.value, ids, auth.cert);
      var none := if auth.includesNone || byAgent + local == [] then [NoAuth] else [];
      Intended(keys, auth) == none + (byAgent + local)
  {
    assert [] + Configured(keys, auth) == Configured(keys, auth);
  }

  /** A concrete configuration whose only agent method is lost. */
  lemma FirstAgentMethodIsLost()
    ensures var keys := (path: string) => MaybePrivate;
      var auth := Auth(Some(["id"]), None, Some("agent.sock"), true, false);
      && Intended(keys, auth) == [Agent("agent.sock", AgentPriv("id")), Local(LocalPriv("id"))]
      && Built(keys, auth) == [Local(LocalPriv("id"))]
  {
    var keys := (path: string) => MaybePrivate;
    assert ["id"][1..] == [];
    assert LocalMethods(keys, ["id"], None) == [Local(LocalPriv("id"))];
    assert AgentMethods(keys, "agent.sock", ["id"], None) == [Agent("agent.sock", AgentPriv("id"))];
  }
}
