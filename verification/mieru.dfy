// Expanding the standard links of a subscription: a client configuration becomes one simple link per server, or
// nothing at all.
module Mieru {
  import opened Wrappers
  import opened GoStrings
  import B = LooseBase64

  const STANDARD_PREFIX := "mieru://"
  const SIMPLE_PREFIX := "mierus://"
  const MAX_ENCODED := 1048576
  const MAX_DECODED := 786432
  const MAX_PROFILES := 256
  const MAX_SERVERS := 256
  const MAX_BINDINGS := 256
  const MAX_LINKS := 16384

  // ---------------------------------------------------------------- configurations

  // Protocol buffer messages; a field that may be unset is an option and a nil message its own constructor.
  datatype Transport = TCP | UDP | UnknownTransport

  datatype Binding = NilBinding | Binding(port: Option<int>, portRange: Option<string>, protocol: Option<Transport>)

  datatype Server = NilServer | Server(ip: string, domain: string, bindings: seq<Binding>)

  datatype User = User(name: string, password: string, hashedPassword: string, quotas: nat)

  datatype Profile =
    | NilProfile
    | Profile(name: string, user: Option<User>, dialer: bool, mtu: Option<int>,
              multiplexing: Option<Option<int>>, handshake: Option<int>, pattern: Option<string>, servers: seq<Server>)

  datatype ClientConfig = ClientConfig(profiles: seq<Profile>, active: string, logging: int)

  // A simple link before it is written as a URL. The query keeps the pairs in the order they are added.
  datatype Link = Link(user: string, password: string, host: string, query: seq<(string, string)>, fragment: string)

  // The libraries: address and text tests, enumeration names, password hashes, traffic patterns (None if invalid),
  // strict base64, protocol buffers (None for unknown fields too) and URLs.
  datatype Env = Env(
    isIp: string -> bool,
    validUtf8: string -> bool,
    hashMatches: (string, string, string) -> bool,
    multiplexingName: int -> Option<string>,
    handshakeName: int -> Option<string>,
    knownLogging: int -> bool,
    encodePattern: string -> Option<string>,
    decodeStrict: string -> Option<string>,
    unmarshal: string -> Option<ClientConfig>,
    url: Link -> string)

  // ---------------------------------------------------------------- port bindings

  function TransportName(t: Transport): string {
    match t case TCP => "TCP" case UDP => "UDP" case UnknownTransport => ""
  }

  // The ports of a binding and its protocol, as written in a link.
  function ProjectPortBinding(b: Binding): Option<(string, string)> {
    if b.NilBinding? || b.protocol.None? || b.protocol.value.UnknownTransport? then None
    else if b.port.None? == b.portRange.None? then None
    else if b.port.Some? then
      if b.port.value < 1 || b.port.value > 65535 then None
      else Some((Itoa(b.port.value), TransportName(b.protocol.value)))
    else
      var parts := Split(b.portRange.value, '-');
      if |parts| != 2 then None
      else
        var first, last := Atoi(parts[0]), Atoi(parts[1]);
        if first.None? || last.None? || first.value < 1 || last.value > 65535 || first.value > last.value then None
        else Some((Itoa(first.value) + "-" + Itoa(last.value), TransportName(b.protocol.value)))
  }

  lemma SplitRange(a: nat, b: nat)
    ensures Split(Itoa(a) + "-" + Itoa(b), '-') == [Itoa(a), Itoa(b)]
  {
    assert '-' !in Itoa(a) && '-' !in Itoa(b);
    SplitAtFirst(Itoa(a), '-', Itoa(b));
    SplitPiece(Itoa(b), '-');
  }

  // Every range of ports in order is accepted as it stands.
  lemma RangeIsAccepted(a: nat, b: nat, t: Transport)
    requires 1 <= a <= b <= 65535 && !t.UnknownTransport?
    ensures var text := Itoa(a) + "-" + Itoa(b);
            ProjectPortBinding(Binding(None, Some(text), Some(t))) == Some((text, TransportName(t)))
  {
    SplitRange(a, b);
    AtoiOfItoa(a);
    AtoiOfItoa(b);
  }

  // What a binding is projected to denotes ports 1 to 65535 in order, and is in normal form: signs and leading zeros
  // are gone, and projecting it once more changes nothing.
  lemma PortsAreNormal(b: Binding)
    requires ProjectPortBinding(b).Some?
    ensures var (text, protocol) := ProjectPortBinding(b).value;
            protocol == TransportName(b.protocol.value) && (protocol == "TCP" || protocol == "UDP") &&
            if b.port.Some? then Atoi(text) == b.port && 1 <= b.port.value <= 65535
            else
              exists first: nat, last: nat ::
                1 <= first <= last <= 65535 && text == Itoa(first) + "-" + Itoa(last) &&
                Split(text, '-') == [Itoa(first), Itoa(last)] &&
                ProjectPortBinding(b.(portRange := Some(text))) == Some((text, protocol))
  {
    hide Split, Atoi, Itoa;
    if b.port.Some? {
      AtoiOfItoa(b.port.value);
    } else {
      var parts := Split(b.portRange.value, '-');
      var first: nat, last: nat := Atoi(parts[0]).value, Atoi(parts[1]).value;
      SplitRange(first, last);
      RangeIsAccepted(first, last, b.protocol.value);
      assert b.(portRange := Some(Itoa(first) + "-" + Itoa(last))) ==
             Binding(None, Some(Itoa(first) + "-" + Itoa(last)), b.protocol);
    }
  }

  // ---------------------------------------------------------------- valid configurations and their links

  predicate HasControlCharacter(s: string) {
    exists i :: 0 <= i < |s| && (s[i] < ' ' || s[i] == '\U{7F}')
  }

  predicate ValidDomain(env: Env, host: string) {
    host != "" && |host| <= 253 && env.validUtf8(host) && !env.isIp(host) &&
    forall i :: 0 <= i < |host| ==> host[i] > ' ' && host[i] != '\U{7F}' && host[i] !in "/?#@[]:"
  }

  predicate ValidServer(env: Env, s: Server) {
    s.Server? &&
    (s.ip != "" ==> env.isIp(s.ip)) &&
    (if s.domain != "" then ValidDomain(env, s.domain) else env.isIp(s.ip)) &&
    1 <= |s.bindings| <= 256 &&
    forall i :: 0 <= i < |s.bindings| ==> ProjectPortBinding(s.bindings[i]).Some?
  }

  predicate ValidText(env: Env, s: string, max: nat) {
    s != "" && |s| <= max && env.validUtf8(s) && !HasControlCharacter(s)
  }

  predicate ValidUser(env: Env, u: User) {
    ValidText(env, u.name, 64) && ValidText(env, u.password, 64) &&
    (u.hashedPassword != "" ==> env.hashMatches(u.hashedPassword, u.password, u.name)) && u.quotas == 0
  }

  // The settings every link of a profile carries; None if one of them is not supported.
  function Settings(env: Env, p: Profile): Option<seq<(string, string)>>
    requires p.Profile?
  {
    var multiplexing :=
      if p.multiplexing.Some? && p.multiplexing.value.Some? then env.multiplexingName(p.multiplexing.value.value)
      else Some("");
    var handshake := if p.handshake.Some? then env.handshakeName(p.handshake.value) else Some("");
    var pattern := if p.pattern.Some? then env.encodePattern(p.pattern.value) else Some("");
    if p.dialer || (p.mtu.Some? && p.mtu.value != 0 && p.mtu.value != 1400) then None
    else if multiplexing.None? || handshake.None? || pattern.None? then None
    else Some([("profile", p.name)] + Setting("multiplexing", multiplexing.value)
              + Setting("handshake-mode", handshake.value) + Setting("traffic-pattern", pattern.value))
  }

  function Setting(key: string, value: string): seq<(string, string)> {
    if value == "" then [] else [(key, value)]
  }

  predicate ValidProfile(env: Env, p: Profile) {
    p.Profile? && ValidText(env, p.name, 256) &&
    p.user.Some? && ValidUser(env, p.user.value) && Settings(env, p).Some? &&
    1 <= |p.servers| <= 256 &&
    forall i :: 0 <= i < |p.servers| ==> ValidServer(env, p.servers[i])
  }

  predicate DistinctNames(ps: seq<Profile>) {
    (forall i :: 0 <= i < |ps| ==> ps[i].Profile?) &&
    forall i, j :: 0 <= i < j < |ps| ==> ps[i].name != ps[j].name
  }

  predicate ValidConfig(env: Env, c: ClientConfig) {
    1 <= |c.profiles| <= 256 && env.knownLogging(c.logging) &&
    (forall i :: 0 <= i < |c.profiles| ==> ValidProfile(env, c.profiles[i])) &&
    DistinctNames(c.profiles) &&
    Endpoints(c.profiles) <= 16384 &&
    (c.active != "" ==> exists i :: 0 <= i < |c.profiles| && c.profiles[i].name == c.active)
  }

  // The number of port bindings.
  function ServerEndpoints(ss: seq<Server>): nat {
    if ss == [] then 0
    else ServerEndpoints(ss[..|ss| - 1]) + var s := ss[|ss| - 1]; if s.Server? then |s.bindings| else 0
  }

  function Endpoints(ps: seq<Profile>): nat {
    if ps == [] then 0
    else Endpoints(ps[..|ps| - 1]) + var p := ps[|ps| - 1]; if p.Profile? then ServerEndpoints(p.servers) else 0
  }

  function PortQuery(bs: seq<Binding>): seq<(string, string)>
    requires forall i :: 0 <= i < |bs| ==> ProjectPortBinding(bs[i]).Some?
  {
    if bs == [] then []
    else
      var (port, protocol) := ProjectPortBinding(bs[|bs| - 1]).value;
      PortQuery(bs[..|bs| - 1]) + [("port", port), ("protocol", protocol)]
  }

  function UriHost(env: Env, s: Server): string
    requires s.Server?
  {
    var host := if s.domain != "" then s.domain else s.ip;
    if env.isIp(host) && ':' in host then "[" + host + "]" else host
  }

  // The link of the server at an index of a profile.
  function ServerLink(env: Env, p: Profile, i: nat): Link
    requires ValidProfile(env, p) && i < |p.servers|
  {
    var s := p.servers[i];
    Link(p.user.value.name, p.user.value.password, UriHost(env, s),
         Settings(env, p).value + PortQuery(s.bindings), p.name + "-" + Itoa(i + 1))
  }

  function ProfileLinks(env: Env, p: Profile): (links: seq<Link>)
    requires ValidProfile(env, p)
    ensures |links| == |p.servers| && forall i :: 0 <= i < |links| ==> links[i] == ServerLink(env, p, i)
  {
    seq(|p.servers|, i requires 0 <= i < |p.servers| => ServerLink(env, p, i))
  }

  predicate ValidProfiles(env: Env, ps: seq<Profile>) {
    forall i :: 0 <= i < |ps| ==> ValidProfile(env, ps[i])
  }

  function Links(env: Env, ps: seq<Profile>): seq<Link>
    requires ValidProfiles(env, ps)
  {
    if ps == [] then [] else Links(env, ps[..|ps| - 1]) + ProfileLinks(env, ps[|ps| - 1])
  }

  // ---------------------------------------------------------------- what the links are

  // Every link comes from a profile and one of its servers, and a later link from a later server.
  predicate Origin(env: Env, ps: seq<Profile>, link: Link, i: nat, j: nat)
    requires ValidProfiles(env, ps)
  {
    i < |ps| && j < |ps[i].servers| && link == ServerLink(env, ps[i], j)
  }

  predicate Before(a: (nat, nat), b: (nat, nat)) { a.0 < b.0 || (a.0 == b.0 && a.1 < b.1) }

  function Servers(p: Profile): seq<Server> { if p.Profile? then p.servers else [] }

  // The server each link is for: profile by profile, server by server.
  function Origins(ps: seq<Profile>): seq<(nat, nat)> {
    if ps == [] then []
    else Origins(ps[..|ps| - 1]) + seq(|Servers(ps[|ps| - 1])|, j => (|ps| - 1, j))
  }

  lemma {:induction false} OriginsAreOrdered(ps: seq<Profile>)
    ensures forall k :: 0 <= k < |Origins(ps)| ==>
              var o := Origins(ps)[k]; o.0 < |ps| && o.1 < |Servers(ps[o.0])|
    ensures forall k, l :: 0 <= k < l < |Origins(ps)| ==> Before(Origins(ps)[k], Origins(ps)[l])
    ensures forall i, j :: 0 <= i < |ps| && 0 <= j < |Servers(ps[i])| ==> (i, j) in Origins(ps)
  {
    if ps != [] {
      var init := ps[..|ps| - 1];
      OriginsAreOrdered(init);
      var last := seq(|Servers(ps[|ps| - 1])|, j => (|ps| - 1, j));
      assert Origins(ps) == Origins(init) + last;
      forall i, j | 0 <= i < |ps| && 0 <= j < |Servers(ps[i])| ensures (i, j) in Origins(ps) {
        if i == |ps| - 1 {
          assert last[j] == (i, j);
        } else {
          assert init[i] == ps[i];
        }
      }
    }
  }

  // One link per server, in order.
  lemma {:induction false} OneLinkPerServer(env: Env, ps: seq<Profile>)
    requires ValidProfiles(env, ps)
    ensures |Links(env, ps)| == |Origins(ps)|
    ensures forall k :: 0 <= k < |Links(env, ps)| ==>
              Origin(env, ps, Links(env, ps)[k], Origins(ps)[k].0, Origins(ps)[k].1)
  {
    hide ValidProfile, ServerLink;
    if ps != [] {
      var init, n := ps[..|ps| - 1], |ps| - 1;
      OneLinkPerServer(env, init);
      ProfileIsProfile(env, ps[n]);
      var last := seq(|Servers(ps[n])|, j => (n, j));
      assert Origins(ps) == Origins(init) + last;
      forall k | 0 <= k < |Links(env, ps)|
        ensures Origin(env, ps, Links(env, ps)[k], Origins(ps)[k].0, Origins(ps)[k].1)
      {
        if k < |Links(env, init)| {
          assert Origin(env, init, Links(env, init)[k], Origins(init)[k].0, Origins(init)[k].1);
        } else {
          assert Origins(ps)[k] == (n, k - |Links(env, init)|);
        }
      }
    }
  }

  lemma {:induction false} BindingsBoundServers(env: Env, ss: seq<Server>)
    requires forall i :: 0 <= i < |ss| ==> ValidServer(env, ss[i])
    ensures |ss| <= ServerEndpoints(ss)
  {
    if ss != [] {
      BindingsBoundServers(env, ss[..|ss| - 1]);
    }
  }

  lemma {:induction false} BindingsBoundLinks(env: Env, ps: seq<Profile>)
    requires ValidProfiles(env, ps)
    ensures |ps| <= |Links(env, ps)| <= Endpoints(ps)
  {
    if ps != [] {
      BindingsBoundLinks(env, ps[..|ps| - 1]);
      BindingsBoundServers(env, ps[|ps| - 1].servers);
    }
  }

  lemma FragmentsDiffer(env: Env, ps: seq<Profile>, a: Link, o: (nat, nat), b: Link, o': (nat, nat))
    requires ValidProfiles(env, ps) && DistinctNames(ps) && Before(o, o')
    requires Origin(env, ps, a, o.0, o.1) && Origin(env, ps, b, o'.0, o'.1)
    ensures a.fragment != b.fragment
  {
    hide ValidProfile, Settings, PortQuery, UriHost, Itoa;
    if a.fragment == b.fragment {
      DashedInjective(ps[o.0].name, o.1 + 1, ps[o'.0].name, o'.1 + 1);
      assert false;
    }
  }

  // No two links of a configuration have the same fragment, whatever dashes and digits the names hold.
  lemma {:induction false} FragmentsAreDistinct(env: Env, c: ClientConfig)
    requires ValidConfig(env, c)
    ensures var links := Links(env, c.profiles);
            forall k, l :: 0 <= k < l < |links| ==> links[k].fragment != links[l].fragment
  {
    var ps := c.profiles;
    OneLinkPerServer(env, ps);
    OriginsAreOrdered(ps);
    hide Links, Origins, ValidProfile, Origin, Before;
    forall k, l | 0 <= k < l < |Links(env, ps)| ensures Links(env, ps)[k].fragment != Links(env, ps)[l].fragment {
      FragmentsDiffer(env, ps, Links(env, ps)[k], Origins(ps)[k], Links(env, ps)[l], Origins(ps)[l]);
    }
  }

  // ---------------------------------------------------------------- the projections

  // Adds the ports and protocols of all bindings to a query.
  method AddPorts(bindings: seq<Binding>, settings: seq<(string, string)>) returns (r: Option<seq<(string, string)>>)
    ensures r.Some? <==> forall k :: 0 <= k < |bindings| ==> ProjectPortBinding(bindings[k]).Some?
    ensures r.Some? ==> r.value == settings + PortQuery(bindings)
  {
    hide ProjectPortBinding;
    var query := settings;
    for k := 0 to |bindings|
      invariant forall j :: 0 <= j < k ==> ProjectPortBinding(bindings[j]).Some?
      invariant query == settings + PortQuery(bindings[..k])
    {
      var projected := ProjectPortBinding(bindings[k]);
      if projected.None? {
        return None;
      }
      assert bindings[..k + 1][..k] == bindings[..k];
      query := query + [("port", projected.value.0)] + [("protocol", projected.value.1)];
    }
    assert bindings[..|bindings|] == bindings;
    r := Some(query);
  }

  method ProjectServer(env: Env, p: Profile, i: nat, settings: seq<(string, string)>) returns (r: Option<Link>)
    requires p.Profile? && p.user.Some? && i < |p.servers| && Settings(env, p) == Some(settings)
    ensures r.Some? <==> ValidServer(env, p.servers[i])
    ensures r.Some? && ValidProfile(env, p) ==> r.value == ServerLink(env, p, i)
  {
    hide Settings, ValidDomain, PortQuery, ProjectPortBinding, Itoa, ValidUser, ValidText;
    var server := p.servers[i];
    if server.NilServer? {
      return None;
    }
    if server.ip != "" && !env.isIp(server.ip) {
      return None;
    }
    var host := server.domain;
    if host != "" {
      if !ValidDomain(env, host) {
        return None;
      }
    } else {
      host := server.ip;
      if !env.isIp(host) {
        return None;
      }
    }
    var bindings := server.bindings;
    if |bindings| == 0 || |bindings| > MAX_BINDINGS {
      return None;
    }
    var query := AddPorts(bindings, settings);
    if query.None? {
      return None;
    }
    var uriHost := host;
    if env.isIp(host) && ':' in host {
      uriHost := "[" + host + "]";
    }
    r := Some(Link(p.user.value.name, p.user.value.password, uriHost, query.value, p.name + "-" + Itoa(i + 1)));
  }

  // The links of a profile and its number of bindings; `names` grows by the profile's name.
  method ProjectProfile(env: Env, p: Profile, names: set<string>)
    returns (r: Option<(seq<Link>, nat)>, names': set<string>)
    ensures r.Some? <==> ValidProfile(env, p) && p.name !in names
    ensures r.Some? ==> r.value == (ProfileLinks(env, p), ServerEndpoints(p.servers)) && names' == names + {p.name}
  {
    hide Settings, HasControlCharacter, ValidServer, ServerLink;
    names' := names;
    if p.NilProfile? || !ValidText(env, p.name, 256) {
      return None, names';
    }
    if p.name in names {
      return None, names';
    }
    names' := names + {p.name};
    if p.user.None? || !ValidUser(env, p.user.value) {
      return None, names';
    }
    var settings := Settings(env, p);
    if settings.None? {
      return None, names';
    }
    if |p.servers| == 0 || |p.servers| > MAX_SERVERS {
      return None, names';
    }
    var links, endpoints := [], 0;
    for i := 0 to |p.servers|
      invariant forall j :: 0 <= j < i ==> ValidServer(env, p.servers[j])
      invariant |links| == i && (ValidProfile(env, p) ==> forall j :: 0 <= j < i ==> links[j] == ServerLink(env, p, j))
      invariant endpoints == ServerEndpoints(p.servers[..i])
    {
      var link := ProjectServer(env, p, i, settings.value);
      if link.None? {
        return None, names';
      }
      ServerIsServer(env, p.servers[i]);
      assert p.servers[..i + 1][..i] == p.servers[..i];
      endpoints := endpoints + |p.servers[i].bindings|;
      links := links + [link.value];
    }
    assert p.servers[..|p.servers|] == p.servers;
    assert ValidProfile(env, p);
    assert links == ProfileLinks(env, p);
    r := Some((links, endpoints));
  }

  lemma ServerIsServer(env: Env, s: Server)
    requires ValidServer(env, s)
    ensures s.Server?
  {
  }

  lemma {:induction false} EndpointsGrow(ps: seq<Profile>, k: nat)
    requires k <= |ps|
    ensures Endpoints(ps[..k]) <= Endpoints(ps)
    decreases |ps|
  {
    if k < |ps| {
      EndpointsGrow(ps[..|ps| - 1], k);
      assert ps[..|ps| - 1][..k] == ps[..k];
    } else {
      assert ps[..k] == ps;
    }
  }

  lemma ProfileIsProfile(env: Env, p: Profile)
    requires ValidProfile(env, p)
    ensures p.Profile?
  {
  }

  function Names(ps: seq<Profile>): set<string> {
    set p | p in ps && p.Profile? :: p.name
  }

  lemma PrefixStep(env: Env, ps: seq<Profile>, i: nat)
    requires i < |ps| && ValidProfiles(env, ps[..i]) && ValidProfile(env, ps[i])
    ensures ValidProfiles(env, ps[..i + 1])
    ensures Endpoints(ps[..i + 1]) == Endpoints(ps[..i]) + ServerEndpoints(ps[i].servers)
    ensures Links(env, ps[..i + 1]) == Links(env, ps[..i]) + ProfileLinks(env, ps[i])
  {
    hide ValidProfile;
    ProfileIsProfile(env, ps[i]);
    assert ps[..i + 1][..i] == ps[..i];
  }

  lemma NamesStep(ps: seq<Profile>, i: nat)
    requires i < |ps| && ps[i].Profile? && DistinctNames(ps[..i])
    ensures Names(ps[..i + 1]) == Names(ps[..i]) + {ps[i].name}
    ensures DistinctNames(ps[..i + 1]) <==> ps[i].name !in Names(ps[..i])
    ensures DistinctNames(ps) ==> DistinctNames(ps[..i + 1])
  {
    var before, upTo := ps[..i], ps[..i + 1];
    assert upTo == before + [ps[i]];
    assert forall p :: p in upTo <==> p in before || p == ps[i];
    if ps[i].name in Names(before) {
      var p :| p in before && p.Profile? && p.name == ps[i].name;
      var k :| 0 <= k < i && before[k] == p;
      assert upTo[k].name == upTo[i].name;
    }
  }

  // Succeeds exactly for the valid configurations, and then with one link per server; anything else gives nothing.
  method ProjectClientConfig(env: Env, c: ClientConfig) returns (r: Option<seq<Link>>)
    ensures r.Some? <==> ValidConfig(env, c)
    ensures r.Some? ==> r.value == Links(env, c.profiles)
  {
    hide ValidProfile, ProfileLinks, ServerEndpoints, Endpoints, Links, DistinctNames, Names;
    var ps := c.profiles;
    if |ps| == 0 || |ps| > MAX_PROFILES {
      return None;
    }
    if !env.knownLogging(c.logging) {
      return None;
    }
    var names, projected, endpoints := {}, [], 0;
    NothingYet(env, ps);
    for i := 0 to |ps|
      invariant ValidProfiles(env, ps[..i])
      invariant DistinctNames(ps[..i])
      invariant names == Names(ps[..i])
      invariant endpoints == Endpoints(ps[..i]) <= MAX_LINKS
      invariant projected == Links(env, ps[..i])
    {
      var projection, names' := ProjectProfile(env, ps[i], names);
      if projection.None? {
        if ValidProfile(env, ps[i]) {
          ProfileIsProfile(env, ps[i]);
          NamesStep(ps, i);
        }
        return None;
      }
      var (links, count) := projection.value;
      ProfileIsProfile(env, ps[i]);
      PrefixStep(env, ps, i);
      NamesStep(ps, i);
      if endpoints > MAX_LINKS - count {
        EndpointsGrow(ps, i + 1);
        return None;
      }
      endpoints := endpoints + count;
      projected := projected + links;
      names := names';
    }
    assert ps[..|ps|] == ps;
    NamesAreFound(env, ps, c.active);
    if c.active != "" {
      if c.active !in names {
        return None;
      }
    }
    BindingsBoundLinks(env, ps);
    if |projected| == 0 {
      return None;
    }
    r := Some(projected);
  }

  lemma NothingYet(env: Env, ps: seq<Profile>)
    ensures DistinctNames(ps[..0]) && Names(ps[..0]) == {} && Endpoints(ps[..0]) == 0 && Links(env, ps[..0]) == []
  {
  }

  lemma NamesAreFound(env: Env, ps: seq<Profile>, name: string)
    requires ValidProfiles(env, ps)
    ensures name in Names(ps) <==> exists i :: 0 <= i < |ps| && ps[i].name == name
  {
    if name in Names(ps) {
      var p :| p in ps && p.Profile? && p.name == name;
      var i :| 0 <= i < |ps| && ps[i] == p;
    }
  }

  // ---------------------------------------------------------------- subscriptions

  predicate IsStandard(line: string) { HasPrefix(line, STANDARD_PREFIX) }

  predicate ContainsStandardLine(subscription: string) {
    exists i :: 0 <= i < |Split(subscription, '\n')| && IsStandard(Split(subscription, '\n')[i])
  }

  function AsString(bs: seq<B.Byte>): string {
    seq(|bs|, i requires 0 <= i < |bs| => bs[i] as char)
  }

  // The text whose lines are expanded: the subscription, or what it decodes to if only that has a standard line.
  function Source(subscription: string): Option<string> {
    if ContainsStandardLine(subscription) then Some(subscription)
    else
      var decoded := B.LooseDecode(subscription);
      if decoded.Some? && ContainsStandardLine(AsString(decoded.value)) then Some(AsString(decoded.value)) else None
  }

  // The configuration in a standard link, if its payload is well formed.
  function Payload(env: Env, link: string): Option<ClientConfig> {
    if !IsStandard(link) then None
    else
      var encoded := link[|STANDARD_PREFIX|..];
      if encoded == "" || |encoded| > MAX_ENCODED then None
      else
        var decoded := env.decodeStrict(encoded);
        if decoded.None? || decoded.value == "" || |decoded.value| > MAX_DECODED then None
        else env.unmarshal(decoded.value)
  }

  function Urls(env: Env, links: seq<Link>): seq<string> {
    seq(|links|, i requires 0 <= i < |links| => env.url(links[i]))
  }

  // A standard line becomes the links of its configuration, or nothing if that is not valid; other lines stay.
  function ExpandLine(env: Env, line: string): seq<string> {
    var candidate := TrimRight(line, " \r");
    if !IsStandard(candidate) then [line]
    else
      var payload := Payload(env, candidate);
      if payload.Some? && ValidConfig(env, payload.value) then Urls(env, Links(env, payload.value.profiles)) else []
  }

  function ExpandLines(env: Env, lines: seq<string>): seq<string> {
    if lines == [] then [] else ExpandLines(env, lines[..|lines| - 1]) + ExpandLine(env, lines[|lines| - 1])
  }

  function Expand(env: Env, subscription: string): string {
    var source := Source(subscription);
    if source.None? then subscription else Join(ExpandLines(env, Split(source.value, '\n')), '\n')
  }

  // What net/url promises: an absolute URL of the scheme it is given, with every control character escaped.
  ghost predicate UrlsAreSimple(env: Env) {
    forall link: Link :: HasPrefix(env.url(link), SIMPLE_PREFIX) && '\n' !in env.url(link)
  }

  predicate Clean(lines: seq<string>) {
    forall i :: 0 <= i < |lines| ==> !IsStandard(lines[i]) && '\n' !in lines[i]
  }

  lemma TrimKeepsPrefix(line: string)
    requires IsStandard(line)
    ensures IsStandard(TrimRight(line, " \r"))
  {
    assert line[..|STANDARD_PREFIX|][7] == '/';
    assert line[7] !in " \r";
    assert TrimRight(line, " \r")[..8] == line[..8];
  }

  lemma ExpandedLineIsClean(env: Env, line: string)
    requires UrlsAreSimple(env) && '\n' !in line
    ensures Clean(ExpandLine(env, line))
  {
    hide ValidConfig, Links, Payload, Split;
    if IsStandard(line) {
      TrimKeepsPrefix(line);
    }
    forall link: Link ensures !IsStandard(env.url(link)) {
      assert HasPrefix(env.url(link), SIMPLE_PREFIX);
      assert SIMPLE_PREFIX[5] != STANDARD_PREFIX[5] && env.url(link)[5] == SIMPLE_PREFIX[5];
    }
  }

  lemma {:induction false} ExpandedLinesAreClean(env: Env, lines: seq<string>)
    requires UrlsAreSimple(env) && forall i :: 0 <= i < |lines| ==> '\n' !in lines[i]
    ensures Clean(ExpandLines(env, lines))
  {
    hide ExpandLine, UrlsAreSimple;
    if lines != [] {
      ExpandedLinesAreClean(env, lines[..|lines| - 1]);
      ExpandedLineIsClean(env, lines[|lines| - 1]);
    }
  }

  lemma JoinIsClean(lines: seq<string>)
    requires Clean(lines)
    ensures !ContainsStandardLine(Join(lines, '\n'))
  {
    if lines != [] {
      SplitOfJoin(lines, '\n');
    } else {
      assert Split("", '\n') == [""];
    }
  }

  // No line of an expanded subscription is a standard link, valid or not.
  lemma {:induction false} NoStandardLineRemains(env: Env, subscription: string)
    requires UrlsAreSimple(env)
    ensures !ContainsStandardLine(Expand(env, subscription))
  {
    hide ContainsStandardLine, ExpandLines, UrlsAreSimple;
    var source := Source(subscription);
    if source.Some? {
      SplitPartsAreClean(source.value, '\n');
      ExpandedLinesAreClean(env, Split(source.value, '\n'));
      JoinIsClean(ExpandLines(env, Split(source.value, '\n')));
    }
  }

  lemma {:induction false} LinesExpandSeparately(env: Env, a: seq<string>, b: seq<string>)
    ensures ExpandLines(env, a + b) == ExpandLines(env, a) + ExpandLines(env, b)
  {
    hide ExpandLine;
    if b == [] {
      assert a + b == a;
    } else {
      LinesExpandSeparately(env, a, b[..|b| - 1]);
      assert (a + b)[..|a + b| - 1] == a + b[..|b| - 1];
    }
  }

  predicate IsInvalidLink(env: Env, line: string) {
    var link := TrimRight(line, " \r");
    IsStandard(link) && (Payload(env, link).None? || !ValidConfig(env, Payload(env, link).value))
  }

  lemma InvalidLinkVanishes(env: Env, line: string)
    requires IsInvalidLink(env, line)
    ensures ExpandLine(env, line) == []
  {
    hide ValidConfig, Links, Payload;
  }

  // A standard link is all or nothing and touches nothing else: the lines before and after it expand as they would
  // without it, and of a link that is not valid nothing appears.
  lemma {:induction false} LinksAreIndependent(env: Env, before: seq<string>, line: string, after: seq<string>)
    ensures ExpandLines(env, before + [line] + after) ==
            ExpandLines(env, before) + ExpandLine(env, line) + ExpandLines(env, after)
    ensures IsInvalidLink(env, line) ==>
            ExpandLines(env, before + [line] + after) == ExpandLines(env, before + after)
  {
    hide IsInvalidLink, ExpandLine;
    LinesExpandSeparately(env, before + [line], after);
    LinesExpandSeparately(env, before, [line]);
    LinesExpandSeparately(env, before, after);
    assert ExpandLines(env, [line]) == ExpandLine(env, line) by { assert [line][..0] == []; }
    hide ExpandLines;
    if IsInvalidLink(env, line) {
      InvalidLinkVanishes(env, line);
    }
  }

  method ExpandUrl(env: Env, link: string) returns (r: Option<seq<string>>)
    requires IsStandard(link)
    ensures r.Some? <==> Payload(env, link).Some? && ValidConfig(env, Payload(env, link).value)
    ensures r.Some? ==> r.value == Urls(env, Links(env, Payload(env, link).value.profiles))
  {
    hide ValidConfig, Links;
    var payload := Payload(env, link);
    if payload.None? {
      return None;
    }
    var links := ProjectClientConfig(env, payload.value);
    if links.None? {
      return None;
    }
    r := Some(Urls(env, links.value));
  }

  // What a line leaves in the expanded subscription.
  method ExpandOne(env: Env, line: string) returns (r: seq<string>)
    ensures r == ExpandLine(env, line)
  {
    hide ValidConfig, Links, Payload, Urls;
    var candidate := TrimRight(line, " \r");
    if !IsStandard(candidate) {
      return [line];
    }
    var links := ExpandUrl(env, candidate);
    r := if links.None? then [] else links.value;
  }

  method ExpandSubscription(env: Env, subscription: string) returns (r: string)
    ensures r == Expand(env, subscription)
    ensures UrlsAreSimple(env) ==> !ContainsStandardLine(r)
    ensures Source(subscription).None? ==> r == subscription
  {
    hide ContainsStandardLine, UrlsAreSimple, ExpandLine;
    assert UrlsAreSimple(env) ==> !ContainsStandardLine(Expand(env, subscription)) by {
      if UrlsAreSimple(env) { NoStandardLineRemains(env, subscription); }
    }
    var text := subscription;
    if !ContainsStandardLine(text) {
      var decoded := B.DecodeLooseBase64(text);
      if decoded.Some? && ContainsStandardLine(AsString(decoded.value)) {
        text := AsString(decoded.value);
      } else {
        return subscription;
      }
    }
    var lines := Split(text, '\n');
    var expanded := [];
    for i := 0 to |lines|
      invariant expanded == ExpandLines(env, lines[..i])
    {
      assert lines[..i + 1][..i] == lines[..i];
      var part := ExpandOne(env, lines[i]);
      expanded := expanded + part;
    }
    assert lines[..|lines|] == lines;
    r := Join(expanded, '\n');
  }
}
