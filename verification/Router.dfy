/** The request router: virtual hosts with priority-ordered routes. */
module Router {
  import opened Common
  import opened Sorting

  datatype Match = Match(pathPrefix: string, pathExact: string, methods: seq<string>, headers: map<string, string>)

  datatype Action = Action(
    upstreamPool: string, stripPrefix: string,
    addHeaders: map<string, string>, removeHeaders: seq<string>,
    addRespHeaders: map<string, string>, removeRespHeaders: seq<string>,
    timeout: int, retryCount: int)

  datatype Route = Route(id: string, priority: int, match_: Match, action: Action)

  datatype TlsConfig = TlsConfig(certFile: string, keyFile: string)

  datatype VirtualHost = VirtualHost(hostname: string, routes: seq<Route>, tls: Option<TlsConfig>)

  /** Header names are in canonical form; a missing header reads as the empty string. */
  datatype Request = Request(host: string, method_: string, path: string, headers: map<string, string>)

  type Hosts = map<string, VirtualHost>

  function PriorityOf(r: Route): int { r.priority }

  // ------------------------------------------------------------------------ matching

  predicate HasPrefix(s: string, prefix: string) { prefix <= s }

  function HeaderGet(headers: map<string, string>, key: string): string {
    if key in headers then headers[key] else ""
  }

  predicate MatchesRoute(r: Route, req: Request) {
    var m := r.match_;
    && (m.methods != [] ==> req.method_ in m.methods)
    && (if m.pathExact != "" then req.path == m.pathExact
        else m.pathPrefix != "" ==> HasPrefix(req.path, m.pathPrefix))
    && (forall key :: key in m.headers ==> HeaderGet(req.headers, key) == m.headers[key])
  }

  method ContainsString(slice: seq<string>, s: string) returns (found: bool)
    ensures found == (s in slice)
  {
    for k := 0 to |slice|
      invariant s !in slice[..k]
    {
      if slice[k] == s {
        return true;
      }
    }
    return false;
  }

  method MatchRoute(r: Route, req: Request) returns (ok: bool)
    ensures ok == MatchesRoute(r, req)
  {
    var m := r.match_;
    if |m.methods| > 0 {
      var listed := ContainsString(m.methods, req.method_);
      if !listed {
        return false;
      }
    }
    if m.pathExact != "" {
      if req.path != m.pathExact {
        return false;
      }
    } else if m.pathPrefix != "" {
      if !HasPrefix(req.path, m.pathPrefix) {
        return false;
      }
    }
    var todo := m.headers.Keys;
    while todo != {}
      invariant todo <= m.headers.Keys
      invariant forall key :: key in m.headers && key !in todo ==> HeaderGet(req.headers, key) == m.headers[key]
      decreases |todo|
    {
      var key :| key in todo;
      todo := todo - {key};
      if HeaderGet(req.headers, key) != m.headers[key] {
        return false;
      }
    }
    return true;
  }

  // ------------------------------------------------------- what a condition excludes

  /** A route without conditions accepts every request. */
  lemma NoConditionAcceptsAll(r: Route, req: Request)
    requires r.match_ == Match("", "", [], map[])
    ensures MatchesRoute(r, req)
  {
  }

  /** A further header condition keeps exactly the requests whose header reads so; a missing
      header reads as the empty string. */
  lemma HeaderCondition(r: Route, req: Request, key: string, value: string)
    requires key !in r.match_.headers
    ensures var narrowed := r.(match_ := r.match_.(headers := r.match_.headers[key := value]));
      MatchesRoute(narrowed, req) <==>
        MatchesRoute(r, req) && (if key in req.headers then req.headers[key] == value else value == "")
  {
    var narrowed := r.(match_ := r.match_.(headers := r.match_.headers[key := value]));
    if MatchesRoute(narrowed, req) {
      assert HeaderGet(req.headers, key) == narrowed.match_.headers[key];
      forall k | k in r.match_.headers ensures HeaderGet(req.headers, k) == r.match_.headers[k] {
        assert narrowed.match_.headers[k] == r.match_.headers[k];
      }
    }
  }

  /** A list of methods keeps exactly the requests with one of them. */
  lemma MethodCondition(r: Route, req: Request, methods: seq<string>)
    requires r.match_.methods == [] && methods != []
    ensures MatchesRoute(r.(match_ := r.match_.(methods := methods)), req) <==>
      MatchesRoute(r, req) && req.method_ in methods
  {
  }

  /** An exact path keeps exactly the requests for it, and overrides any prefix. */
  lemma ExactPathCondition(r: Route, req: Request, path: string, prefix: string)
    requires r.match_.pathExact == "" && r.match_.pathPrefix == "" && path != ""
    ensures MatchesRoute(r.(match_ := r.match_.(pathExact := path, pathPrefix := prefix)), req) <==>
      MatchesRoute(r, req) && req.path == path
  {
  }

  /** A prefix keeps exactly the requests whose path continues it. */
  lemma PrefixCondition(r: Route, req: Request, prefix: string)
    requires r.match_.pathExact == "" && r.match_.pathPrefix == ""
    ensures MatchesRoute(r.(match_ := r.match_.(pathPrefix := prefix)), req) <==>
      MatchesRoute(r, req) && exists rest :: req.path == prefix + rest
  {
    if HasPrefix(req.path, prefix) { assert req.path == prefix + req.path[|prefix|..]; }
  }

  /** Position of the last colon, if any. */
  function LastColon(s: string): Option<nat> {
    if s == "" then None
    else if s[|s| - 1] == ':' then Some(|s| - 1)
    else LastColon(s[..|s| - 1])
  }

  function NormalizeHost(host: string): (h: string) {
    match LastColon(host)
    case Some(i) => if i <= |host| then host[..i] else host
    case None => host
  }

  lemma {:induction false} LastColonFinds(s: string, i: nat)
    requires i < |s| && s[i] == ':' && forall j :: i < j < |s| ==> s[j] != ':'
    ensures LastColon(s) == Some(i)
  {
    if i < |s| - 1 { LastColonFinds(s[..|s| - 1], i); }
  }

  lemma {:induction false} NoColon(s: string)
    ensures LastColon(s).None? <==> forall j :: 0 <= j < |s| ==> s[j] != ':'
    ensures LastColon(s).Some? ==> LastColon(s).value < |s|
  {
    if s != "" { NoColon(s[..|s| - 1]); }
  }

  /** A port appended to any host is stripped again, and exactly the hosts without a
      colon are their own normal form. */
  lemma PortIsStripped(host: string, port: string)
    requires ':' !in port
    ensures NormalizeHost(host + ":" + port) == host
    ensures NormalizeHost(host) == host <==> ':' !in host
  {
    var s := host + ":" + port;
    assert forall j :: |host| < j < |s| ==> s[j] == port[j - |host| - 1];
    LastColonFinds(s, |host|);
    NoColon(host);
  }

  // ------------------------------------------------------------------------- lookup

  /** The virtual host that serves a request: the exact host, else the wildcard. */
  function HostFor(hosts: Hosts, req: Request): Option<VirtualHost> {
    var host := NormalizeHost(req.host);
    if host in hosts then Some(hosts[host])
    else if "*" in hosts then Some(hosts["*"])
    else None
  }

  /** Every stored route list is ordered by priority. */
  ghost predicate Ordered(hosts: Hosts) {
    forall h :: h in hosts ==> Sorted(hosts[h].routes, PriorityOf)
  }

  /** The naive reading of a lookup: some matching route of the serving host such that
      no matching route there has a smaller priority, or nothing if none matches. */
  ghost predicate IsBestMatch(hosts: Hosts, req: Request, found: Option<Route>) {
    match HostFor(hosts, req)
    case None => found.None?
    case Some(vh) =>
      match found
      case Some(r) =>
        r in vh.routes && MatchesRoute(r, req) &&
        forall other :: other in vh.routes && MatchesRoute(other, req) ==> r.priority <= other.priority
      case None => forall r :: r in vh.routes ==> !MatchesRoute(r, req)
  }

  /** A router after setting one virtual host whose routes the sort arranged as `sorted`. */
  function WithHost(hosts: Hosts, vh: VirtualHost, sorted: seq<Route>): Hosts {
    hosts[vh.hostname := vh.(routes := sorted)]
  }

  /** Of hosts listed twice the last one counts. */
  function LastListed(vhs: seq<VirtualHost>, hostname: string): Option<VirtualHost> {
    if vhs == [] then None
    else if vhs[|vhs| - 1].hostname == hostname then Some(vhs[|vhs| - 1])
    else LastListed(vhs[..|vhs| - 1], hostname)
  }

  /** `hosts` is what a new router built from `vhs` may hold. */
  ghost predicate BuiltFrom(vhs: seq<VirtualHost>, hosts: Hosts) {
    forall h :: match LastListed(vhs, h)
      case None => h !in hosts
      case Some(vh) =>
        && h in hosts && IsSortOf(vh.routes, hosts[h].routes, PriorityOf)
        && hosts[h] == vh.(routes := hosts[h].routes)
  }

  class Router {
    var hosts: Hosts

    ghost predicate Valid()
      reads this
    {
      Ordered(hosts)
    }

    constructor (vhs: seq<VirtualHost>)
      ensures Valid() && BuiltFrom(vhs, hosts)
    {
      hosts := map[];
      new;
      for n := 0 to |vhs|
        invariant Valid() && BuiltFrom(vhs[..n], hosts)
      {
        assert vhs[..n + 1][..n] == vhs[..n];
        var sorted := Sort(vhs[n].routes, PriorityOf);
        hosts := WithHost(hosts, vhs[n], sorted);
      }
      assert vhs[..|vhs|] == vhs;
    }

    method AddVirtualHost(vh: VirtualHost) returns (ghost sorted: seq<Route>)
      requires Valid()
      modifies this
      ensures Valid() && IsSortOf(vh.routes, sorted, PriorityOf)
      ensures hosts == old(hosts)[vh.hostname := vh.(routes := sorted)]
    {
      var routes := Sort(vh.routes, PriorityOf);
      hosts := WithHost(hosts, vh, routes);
      sorted := routes;
    }

    method RemoveVirtualHost(hostname: string)
      requires Valid()
      modifies this
      ensures Valid()
      ensures hosts == old(hosts) - {hostname}
    {
      hosts := hosts - {hostname};
    }

    /** Every reachable router answers as the naive search does, and every condition of the
        route it finds holds of the request. */
    method Match(req: Request) returns (found: Option<Route>)
      requires Valid()
      ensures IsBestMatch(hosts, req, found)
      ensures found.Some? ==>
        var host := NormalizeHost(req.host);
        if host in hosts then found.value in hosts[host].routes else "*" in hosts && found.value in hosts["*"].routes
      ensures found.Some? ==>
        var m := found.value.match_;
        && (m.methods != [] ==> req.method_ in m.methods)
        && (m.pathExact != "" ==> req.path == m.pathExact)
        && (m.pathExact == "" ==> m.pathPrefix <= req.path)
        && (forall key :: key in m.headers ==>
              m.headers[key] == if key in req.headers then req.headers[key] else "")
    {
      var host := NormalizeHost(req.host);
      var vh: VirtualHost;
      if host in hosts {
        vh := hosts[host];
      } else if "*" in hosts {
        vh := hosts["*"];
      } else {
        return None;
      }
      for k := 0 to |vh.routes|
        invariant forall j :: 0 <= j < k ==> !MatchesRoute(vh.routes[j], req)
      {
        var ok := MatchRoute(vh.routes[k], req);
        if ok {
          return Some(vh.routes[k]);
        }
      }
      return None;
    }
  }

  /** A new router holds, under each listed name, the routes and settings of the last host
      listed with it, and no other name. */
  lemma {:induction false} NewHoldsLastListed(vhs: seq<VirtualHost>, hosts: Hosts, k: nat)
    requires BuiltFrom(vhs, hosts) && k < |vhs| && forall j :: k < j < |vhs| ==> vhs[j].hostname != vhs[k].hostname
    ensures var name := vhs[k].hostname;
      && name in hosts && multiset(hosts[name].routes) == multiset(vhs[k].routes)
      && hosts[name].hostname == name && hosts[name].tls == vhs[k].tls
    ensures forall name :: name in hosts ==> exists j :: 0 <= j < |vhs| && vhs[j].hostname == name
  {
    LastListedFinds(vhs, k);
    forall name | name in hosts ensures exists j :: 0 <= j < |vhs| && vhs[j].hostname == name {
      assert LastListed(vhs, name).Some?;
      OnlyListedNames(vhs, name);
    }
  }

  lemma {:induction false} LastListedFinds(vhs: seq<VirtualHost>, k: nat)
    requires k < |vhs| && forall j :: k < j < |vhs| ==> vhs[j].hostname != vhs[k].hostname
    ensures LastListed(vhs, vhs[k].hostname) == Some(vhs[k])
  {
    if k < |vhs| - 1 { LastListedFinds(vhs[..|vhs| - 1], k); }
  }

  lemma {:induction false} OnlyListedNames(vhs: seq<VirtualHost>, name: string)
    requires LastListed(vhs, name).Some?
    ensures exists j :: 0 <= j < |vhs| && vhs[j].hostname == name
  {
    if vhs[|vhs| - 1].hostname != name {
      OnlyListedNames(vhs[..|vhs| - 1], name);
      var j :| 0 <= j < |vhs| - 1 && vhs[..|vhs| - 1][j].hostname == name;
      assert vhs[j].hostname == name;
    }
  }

  /** A port on a colon-free Host header never changes which answers are right. */
  lemma PortDoesNotMatter(hosts: Hosts, req: Request, port: string, found: Option<Route>)
    requires ':' !in port && ':' !in req.host
    ensures IsBestMatch(hosts, req, found) <==>
      IsBestMatch(hosts, req.(host := req.host + ":" + port), found)
  {
    PortIsStripped(req.host, port);
    var req' := req.(host := req.host + ":" + port);
    assert forall r :: MatchesRoute(r, req) <==> MatchesRoute(r, req');
  }
}
