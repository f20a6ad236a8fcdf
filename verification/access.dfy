/**
 * `pkg/kube/namespaces.go` and the middleware of `pkg/agent/http.go`: who the
 * caller is, which namespaces the caller may see, and what follows from that.
 */
module Access {
  import opened Wrappers
  import opened Data
  import opened Matchers
  import opened Storage
  import opened PromQL
  import opened Handlers
  import opened Service

  /** `user.DefaultInfo` */
  datatype Caller = Caller(name: string, uid: string, groups: seq<string>)

  /** One rule check of the access set: verb, API group, resource, namespace, name. */
  type Grants = (Caller, string, string, string, string, string) -> bool

  const CORE_GROUP := ""
  const NAMESPACES := "namespaces"
  const PODS := "pods"
  const NODES := "nodes"

  /** A namespace object of the cache; `deleting` when it has a deletion timestamp. */
  datatype Namespace = Namespace(name: string, namespace: string, deleting: bool)

  predicate CanAccess(grants: Grants, caller: Caller, group: string, resource: string, name: string, ns: string) {
    grants(caller, "get", group, resource, ns, name) || grants(caller, "list", group, resource, ns, name)
  }

  /** Live, granted, and for the monitoring namespace only with access to its pods. */
  predicate IsAccessible(grants: Grants, caller: Caller, monitoring: string, v: Namespace) {
    && !v.deleting
    && CanAccess(grants, caller, CORE_GROUP, NAMESPACES, v.name, v.namespace)
    && (v.name == monitoring ==> CanAccess(grants, caller, CORE_GROUP, PODS, "*", v.namespace))
  }

  ghost function Accessible(grants: Grants, caller: Caller, monitoring: string, objs: seq<Namespace>): set<string> {
    set v | v in objs && IsAccessible(grants, caller, monitoring, v) :: v.name
  }

  /** `QueryByUser`: nil when the cache cannot be listed. */
  method QueryByUser(grants: Grants, caller: Caller, monitoring: string, listed: Option<seq<Namespace>>) returns (ret: Set)
    ensures listed.None? ==> ret == NilSet
    ensures listed.Some? ==> ret == MapSet(Accessible(grants, caller, monitoring, listed.value))
    ensures listed.Some? ==>
              forall n :: n in ret.Keys() <==>
                exists v | v in listed.value ::
                  && v.name == n && !v.deleting
                  && (grants(caller, "get", "", "namespaces", v.namespace, n)
                      || grants(caller, "list", "", "namespaces", v.namespace, n))
                  && (n == monitoring ==>
                        grants(caller, "get", "", "pods", v.namespace, "*")
                        || grants(caller, "list", "", "pods", v.namespace, "*"))
  {
    if listed.None? {
      return NilSet;
    }
    var objs := listed.value;
    var keys := {};
    for i := 0 to |objs|
      invariant keys == Accessible(grants, caller, monitoring, objs[..i])
    {
      var v := objs[i];
      assert objs[..i + 1] == objs[..i] + [v];
      assert forall o :: o in objs[..i + 1] <==> o in objs[..i] || o == v;
      ghost var next := Accessible(grants, caller, monitoring, objs[..i + 1]);
      assert next == keys + if IsAccessible(grants, caller, monitoring, v) then {v.name} else {};
      if v.deleting {
        continue;
      }
      if CanAccess(grants, caller, CORE_GROUP, NAMESPACES, v.name, v.namespace) {
        if monitoring == v.name && !CanAccess(grants, caller, CORE_GROUP, PODS, "*", v.namespace) {
          continue;
        }
        keys := keys + {v.name};
      }
    }
    assert objs[..|objs|] == objs;
    ret := MapSet(keys);
  }

  // ------------------------------------------------------------- middleware

  datatype Headers = Headers(user: string, groups: seq<string>, authorization: string)

  /** The agent: its own token, the service accounts behind tokens, the cluster's rules and its namespaces. */
  datatype Agent = Agent(
    myToken: string,
    serviceAccount: string -> Option<(string, string)>,
    grants: Grants,
    monitoring: string,
    listed: Option<seq<Namespace>>,
    readerLabels: Set
  )

  datatype Decision = Unauthorized | ProxyUnchanged | Serve(caller: Caller, namespaceSet: Set)

  function AccessToken(headers: Headers): string {
    if "Bearer " <= headers.authorization then headers.authorization[|"Bearer "|..] else headers.authorization
  }

  /** Who a request with user or group headers, or else with a service account token, comes from. */
  function Identify(agent: Agent, headers: Headers): Option<Caller> {
    if headers.user != "" || headers.groups != [] then Some(Caller(headers.user, headers.user, headers.groups))
    else if AccessToken(headers) == "" then None
    else
      match agent.serviceAccount(AccessToken(headers))
      case None => None
      case Some((ns, name)) => Some(Caller("system:serviceaccount:" + ns + ":" + name, "", []))
  }

  predicate IsAgentItself(agent: Agent, headers: Headers) {
    headers.user == "" && headers.groups == [] && AccessToken(headers) != "" && AccessToken(headers) == agent.myToken
  }

  ghost function NamespacesOf(agent: Agent, caller: Caller): Set {
    match agent.listed
    case None => NilSet
    case Some(objs) => MapSet(Accessible(agent.grants, caller, agent.monitoring, objs))
  }

  /** Headers name the caller, whatever the token; else the token does, with or without its scheme. */
  lemma CallersAreIdentified(agent: Agent, headers: Headers, token: string)
    requires headers.authorization == "Bearer " + token || (headers.authorization == token && !("Bearer " <= token))
    ensures headers.user != "" || headers.groups != [] ==>
              Identify(agent, headers) == Some(Caller(headers.user, headers.user, headers.groups))
              && !IsAgentItself(agent, headers)
    ensures headers.user == "" && headers.groups == [] ==>
              && (IsAgentItself(agent, headers) <==> token != "" && token == agent.myToken)
              && (Identify(agent, headers).Some? <==> token != "" && agent.serviceAccount(token).Some?)
  {
    if headers.authorization == "Bearer " + token {
      assert headers.authorization[|"Bearer "|..] == token;
    }
  }

  /** `s` up to its first colon, and what follows that. */
  function CutAtColon(s: string): (string, string) {
    if s == "" then ("", "")
    else if s[0] == ':' then ("", s[1..])
    else
      var (before, after) := CutAtColon(s[1..]);
      ([s[0]] + before, after)
  }

  lemma {:induction false} CutUndoesColon(before: string, after: string)
    requires ':' !in before
    ensures CutAtColon(before + ":" + after) == (before, after)
  {
    var s := before + ":" + after;
    if before == "" {
      assert s[1..] == after;
    } else {
      assert s[1..] == before[1..] + ":" + after;
      CutUndoesColon(before[1..], after);
      assert before == [before[0]] + before[1..];
    }
  }

  /** The namespace and the name of a service account can be read from its caller, who has no groups. */
  lemma ServiceAccountsReadBack(agent: Agent, headers: Headers, token: string)
    requires headers.user == "" && headers.groups == [] && token != ""
    requires headers.authorization == "Bearer " + token || (headers.authorization == token && !("Bearer " <= token))
    requires agent.serviceAccount(token).Some? && ':' !in agent.serviceAccount(token).value.0
    ensures var (namespace, name) := agent.serviceAccount(token).value;
            match Identify(agent, headers)
            case None => false
            case Some(caller) =>
              && "system:serviceaccount:" <= caller.name
              && CutAtColon(caller.name[|"system:serviceaccount:"|..]) == (namespace, name)
              && caller.uid == "" && caller.groups == []
  {
    var (namespace, name) := agent.serviceAccount(token).value;
    if headers.authorization == "Bearer " + token {
      assert headers.authorization[|"Bearer "|..] == token;
    }
    var caller := Identify(agent, headers).value;
    assert caller.name[|"system:serviceaccount:"|..] == namespace + ":" + name;
    CutUndoesColon(namespace, name);
  }

  /** The middleware of `accessControl`. */
  method AccessControl(agent: Agent, headers: Headers) returns (d: Decision)
    ensures d == ProxyUnchanged
            <==> IsAgentItself(agent, headers)
                 || (Identify(agent, headers).Some?
                     && agent.grants(Identify(agent, headers).value, "list", "", "nodes", "", ""))
    ensures d == Unauthorized <==> Identify(agent, headers).None? && !IsAgentItself(agent, headers)
    ensures d.Serve? ==>
              Identify(agent, headers) == Some(d.caller) && d.namespaceSet == NamespacesOf(agent, d.caller)
  {
    var accessToken := AccessToken(headers);
    if headers.user == "" && |headers.groups| == 0 && |accessToken| == 0 {
      return Unauthorized;
    }
    var info: Caller;
    if headers.user != "" || |headers.groups| != 0 {
      info := Caller(headers.user, headers.user, headers.groups);
    } else {
      if agent.myToken == accessToken {
        return ProxyUnchanged;
      }
      var sa := agent.serviceAccount(accessToken);
      if sa.None? {
        return Unauthorized;
      }
      info := Caller("system:serviceaccount:" + sa.value.0 + ":" + sa.value.1, "", []);
    }
    if agent.grants(info, "list", CORE_GROUP, NODES, "", "") {
      return ProxyUnchanged;
    }
    var namespaceSet := QueryByUser(agent.grants, info, agent.monitoring, agent.listed);
    d := Serve(info, namespaceSet);
  }

  // ---------------------------------------------------------------- isolation

  /** The cluster's namespaces have Kubernetes names. */
  ghost predicate HasProperNames(agent: Agent) {
    agent.listed.Some? ==> forall v | v in agent.listed.value :: IsNamespaceName(v.name)
  }

  lemma CallersHaveProperNames(agent: Agent, caller: Caller)
    requires HasProperNames(agent)
    ensures AreNamespaceNames(NamespacesOf(agent, caller))
  {
  }

  /**
   * The caller may see the series: it lies in a live namespace that the rules let the
   * caller get or list, and, if that is the monitoring one, all of whose pods they do.
   */
  ghost predicate MaySee(agent: Agent, caller: Caller, s: Series) {
    agent.listed.Some? &&
    exists v | v in agent.listed.value ::
      && v.name == Label(s, "namespace") && !v.deleting
      && (agent.grants(caller, "get", "", "namespaces", v.namespace, v.name)
          || agent.grants(caller, "list", "", "namespaces", v.namespace, v.name))
      && (v.name == agent.monitoring ==>
            agent.grants(caller, "get", "", "pods", v.namespace, "*")
            || agent.grants(caller, "list", "", "pods", v.namespace, "*"))
  }

  /** The series a caller may see, in order. */
  ghost function Visible(agent: Agent, caller: Caller, db: Database): Database {
    if db == [] then []
    else if MaySee(agent, caller, db[0]) then [db[0]] + Visible(agent, caller, db[1..])
    else Visible(agent, caller, db[1..])
  }

  /** The computed set restricts a database to exactly the series the rules let the caller see. */
  lemma {:induction false} NamespacesAreWhatRulesAllow(agent: Agent, caller: Caller, db: Database)
    requires agent.listed.Some?
    ensures Restrict(db, NamespacesOf(agent, caller).keys) == Visible(agent, caller, db)
  {
    if db != [] {
      NamespacesAreWhatRulesAllow(agent, caller, db[1..]);
      assert MaySee(agent, caller, db[0]) <==> Label(db[0], NAMESPACE) in NamespacesOf(agent, caller).keys;
    }
  }

  /**
   * Isolation, request by request: whatever the caller asks, and however it is printed
   * on the way, two databases with the same visible series give the same response.
   */
  lemma CallersAreIsolated(
    E: Engine, I: Interpretation, agent: Agent, caller: Caller, db: Database, db': Database, now: int,
    req: Request, printed: Request)
    requires agent.listed.Some? && HasProperNames(agent) && IsParsedRequest(E, req)
    requires IsPrintedRequest(E, NamespacesOf(agent, caller), agent.readerLabels, req, printed)
    requires SentinelFree(db) && SentinelFree(db')
    requires Visible(agent, caller, db) == Visible(agent, caller, db')
    ensures Respond(E, I, db, NamespacesOf(agent, caller), agent.readerLabels, now, req, printed)
            == Respond(E, I, db', NamespacesOf(agent, caller), agent.readerLabels, now, req, printed)
  {
    CallersHaveProperNames(agent, caller);
    NamespacesAreWhatRulesAllow(agent, caller, db);
    NamespacesAreWhatRulesAllow(agent, caller, db');
    ResponseIsConfined(E, I, NamespacesOf(agent, caller), agent.readerLabels, db, db', now, req, printed);
  }

  /**
   * Service, request by request: a caller with some namespace is told, however a stable
   * request is printed on the way, what Prometheus would say if it held exactly the
   * series the rules let the caller see.
   */
  lemma CallersAreServed(
    E: Engine, I: Interpretation, agent: Agent, caller: Caller, db: Database, now: int, req: Request, printed: Request)
    requires agent.listed.Some? && HasProperNames(agent) && SentinelFree(db)
    requires NamespacesOf(agent, caller).keys != {}
    requires IsParsedRequest(E, req) && HasExpressions(req) && IsStableRequest(E, NamespacesOf(agent, caller), req)
    requires IsPrintedRequest(E, NamespacesOf(agent, caller), agent.readerLabels, req, printed)
    requires !req.LabelNames? && !req.LabelNamespaces?
    ensures Respond(E, I, db, NamespacesOf(agent, caller), agent.readerLabels, now, req, printed)
            == match Upstream(E, I, Visible(agent, caller, db), now, Intended(agent.readerLabels, req))
               case Some(answer) => Ok(answer)
               case None => Err(BadData)
  {
    var ns := NamespacesOf(agent, caller);
    CallersHaveProperNames(agent, caller);
    NamespacesAreWhatRulesAllow(agent, caller, db);
    StableRequestIsKept(E, ns, agent.readerLabels, req, printed);
    ResponseIsExact(E, I, ns, agent.readerLabels, db, now, req, printed);
    assert Restrict(db, ns.Keys()) == Visible(agent, caller, db);
  }
}
