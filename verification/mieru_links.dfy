// What can be read in a simple link: the credentials, the address and the bindings of its server, and the settings of
// its profile.
module MieruLinks {
  import opened Wrappers
  import opened GoStrings
  import opened Mieru

  // What a query says of a key, in order.
  function Values(query: seq<(string, string)>, key: string): seq<string> {
    if query == [] then []
    else (if query[0].0 == key then [query[0].1] else []) + Values(query[1..], key)
  }

  lemma {:induction false} ValuesOfBoth(a: seq<(string, string)>, b: seq<(string, string)>, key: string)
    ensures Values(a + b, key) == Values(a, key) + Values(b, key)
    decreases |a|
  {
    if a == [] {
      assert a + b == b;
    } else {
      assert (a + b)[1..] == a[1..] + b;
      ValuesOfBoth(a[1..], b, key);
    }
  }

  // The text of a port is its number, and that of a range both ends without signs and leading zeros.
  ghost predicate PortReads(b: Binding, text: string) {
    b.Binding? &&
    ((b.portRange.None? && b.port.Some? && 1 <= b.port.value <= 65535 && text == Itoa(b.port.value)) ||
     (b.port.None? && b.portRange.Some? &&
      exists first: nat, last: nat, s, t :: RangeReads(b.portRange.value, s, t, first, last) && text == Itoa(first) + "-" + Itoa(last)))
  }

  predicate RangeReads(range: string, s: string, t: string, first: nat, last: nat) {
    range == s + "-" + t && '-' !in s && '-' !in t && Atoi(s) == Some(first) && Atoi(t) == Some(last) && 1 <= first <= last <= 65535
  }

  predicate ProtocolReads(b: Binding, text: string) {
    b.Binding? && ((b.protocol == Some(TCP) && text == "TCP") || (b.protocol == Some(UDP) && text == "UDP"))
  }

  // A binding is projected if and only if it can be read so, and to what is read.
  lemma BindingExactly(b: Binding)
    ensures forall port, protocol :: ProjectPortBinding(b) == Some((port, protocol)) <==> PortReads(b, port) && ProtocolReads(b, protocol)
  {
    hide Split, Itoa, Atoi;
    forall port, protocol
      ensures ProjectPortBinding(b) == Some((port, protocol)) <==> PortReads(b, port) && ProtocolReads(b, protocol)
    {
      if b.Binding? && b.portRange.Some? && b.port.None? {
        var range := b.portRange.value;
        var parts := Split(range, '-');
        JoinOfSplit(range, '-');
        SplitPartsAreClean(range, '-');
        if PortReads(b, port) {
          var first: nat, last: nat, s, t :| RangeReads(range, s, t, first, last) && port == Itoa(first) + "-" + Itoa(last);
          SplitAtFirst(s, '-', t);
          SplitPiece(t, '-');
          assert parts == [s, t];
        }
        if ProjectPortBinding(b) == Some((port, protocol)) {
          assert Join(parts[1..], '-') == parts[1];
          assert RangeReads(range, parts[0], parts[1], Atoi(parts[0]).value, Atoi(parts[1]).value);
        }
      }
    }
  }

  lemma {:induction false} PortValues(bs: seq<Binding>)
    requires forall i :: 0 <= i < |bs| ==> ProjectPortBinding(bs[i]).Some?
    ensures var ports, protocols := Values(PortQuery(bs), "port"), Values(PortQuery(bs), "protocol");
            |ports| == |protocols| == |bs| &&
            forall i :: 0 <= i < |bs| ==> PortReads(bs[i], ports[i]) && ProtocolReads(bs[i], protocols[i])
    ensures forall key :: key != "port" && key != "protocol" ==> Values(PortQuery(bs), key) == []
    decreases |bs|
  {
    hide ProjectPortBinding, PortReads, ProtocolReads, Values;
    if bs == [] {
      NoValues();
    } else {
      var init, last := bs[..|bs| - 1], bs[|bs| - 1];
      PortValues(init);
      BindingExactly(last);
      var (port, protocol) := ProjectPortBinding(last).value;
      forall key ensures Values(PortQuery(bs), key) == Values(PortQuery(init), key) + Two(port, protocol, key) {
        TwoValues(PortQuery(init), port, protocol, key);
      }
      forall i | 0 <= i < |bs|
        ensures PortReads(bs[i], Values(PortQuery(bs), "port")[i]) && ProtocolReads(bs[i], Values(PortQuery(bs), "protocol")[i])
      {
        if i < |init| { assert init[i] == bs[i]; }
      }
    }
  }

  function Two(port: string, protocol: string, key: string): seq<string> {
    if key == "port" then [port] else if key == "protocol" then [protocol] else []
  }

  lemma NoValues()
    ensures forall key :: Values([], key) == []
  {
  }

  lemma TwoValues(query: seq<(string, string)>, port: string, protocol: string, key: string)
    ensures Values(query + [("port", port), ("protocol", protocol)], key) == Values(query, key) + Two(port, protocol, key)
  {
    hide Values;
    assert query + [("port", port), ("protocol", protocol)] == query + [("port", port)] + [("protocol", protocol)];
    ValuesOfBoth(query + [("port", port)], [("protocol", protocol)], key);
    ValuesOfBoth(query, [("port", port)], key);
    OneValue("port", port, key);
    OneValue("protocol", protocol, key);
  }

  // The name of a multiplexing level or a handshake mode, if it is set.
  function NameOf(value: Option<int>, name: int -> Option<string>): Option<string> {
    if value.None? then Some("") else name(value.value)
  }

  function Level(p: Profile): Option<int>
    requires p.Profile?
  {
    if p.multiplexing.Some? then p.multiplexing.value else None
  }

  function Pattern(env: Env, p: Profile): Option<string>
    requires p.Profile?
  {
    if p.pattern.None? then Some("") else env.encodePattern(p.pattern.value)
  }

  // A profile's settings are supported if and only if it has no dialer of its own, the one packet size, and a known
  // level, mode and pattern, as far as it sets them; each is then one value under its key, unless it is empty.
  lemma SettingsExactly(env: Env, p: Profile)
    requires p.Profile?
    ensures Settings(env, p).Some? <==>
            !p.dialer && (p.mtu == None || p.mtu == Some(0) || p.mtu == Some(1400)) &&
            NameOf(Level(p), env.multiplexingName).Some? && NameOf(p.handshake, env.handshakeName).Some? && Pattern(env, p).Some?
    ensures Settings(env, p).Some? ==>
            var query := Settings(env, p).value;
            Values(query, "profile") == [p.name] &&
            Values(query, "multiplexing") == Value(NameOf(Level(p), env.multiplexingName).value) &&
            Values(query, "handshake-mode") == Value(NameOf(p.handshake, env.handshakeName).value) &&
            Values(query, "traffic-pattern") == Value(Pattern(env, p).value) &&
            forall key :: key !in {"profile", "multiplexing", "handshake-mode", "traffic-pattern"} ==> Values(query, key) == []
  {
    hide Values, Setting, Value;
    if Settings(env, p).Some? {
      var a, b := NameOf(Level(p), env.multiplexingName).value, NameOf(p.handshake, env.handshakeName).value;
      var c := Pattern(env, p).value;
      forall key ensures Values(Settings(env, p).value, key) == Four(p.name, a, b, c, key) {
        FourValues(p.name, a, b, c, key);
      }
    }
  }

  lemma FourValues(name: string, level: string, mode: string, pattern: string, key: string)
    ensures Values([("profile", name)] + Setting("multiplexing", level) + Setting("handshake-mode", mode)
                   + Setting("traffic-pattern", pattern), key) == Four(name, level, mode, pattern, key)
  {
    hide Values, Setting, Value;
    var one, two, three := [("profile", name)], Setting("multiplexing", level), Setting("handshake-mode", mode);
    ValuesOfBoth(one, two, key);
    ValuesOfBoth(one + two, three, key);
    ValuesOfBoth(one + two + three, Setting("traffic-pattern", pattern), key);
    OneValue("profile", name, key);
    OneSetting("multiplexing", level, key);
    OneSetting("handshake-mode", mode, key);
    OneSetting("traffic-pattern", pattern, key);
  }

  function Four(name: string, level: string, mode: string, pattern: string, key: string): seq<string> {
    if key == "profile" then [name]
    else if key == "multiplexing" then Value(level)
    else if key == "handshake-mode" then Value(mode)
    else if key == "traffic-pattern" then Value(pattern)
    else []
  }

  function Value(value: string): seq<string> { if value == "" then [] else [value] }

  lemma OneValue(key: string, value: string, other: string)
    ensures Values([(key, value)], other) == if key == other then [value] else []
  {
    assert [(key, value)][1..] == [];
  }

  lemma OneSetting(key: string, value: string, other: string)
    ensures Values(Setting(key, value), other) == if key == other then Value(value) else []
  {
    if value != "" { OneValue(key, value, other); }
  }

  // The link of a server tells the credentials, the address - in brackets if it is one with colons -, every binding in
  // order, the profile's settings, and in its fragment the profile and which of its servers it is.
  lemma LinkExactly(env: Env, p: Profile, i: nat)
    requires ValidProfile(env, p) && i < |p.servers|
    ensures var link, s := ServerLink(env, p, i), p.servers[i];
            link.user == p.user.value.name && link.password == p.user.value.password &&
            link.fragment == p.name + "-" + Itoa(i + 1) &&
            (s.domain != "" ==> link.host == s.domain) &&
            (s.domain == "" && ':' in s.ip ==> link.host == "[" + s.ip + "]") &&
            (s.domain == "" && ':' !in s.ip ==> link.host == s.ip)
    ensures var query, s := ServerLink(env, p, i).query, p.servers[i];
            var ports, protocols := Values(query, "port"), Values(query, "protocol");
            |ports| == |protocols| == |s.bindings| &&
            (forall k :: 0 <= k < |s.bindings| ==> PortReads(s.bindings[k], ports[k]) && ProtocolReads(s.bindings[k], protocols[k])) &&
            Values(query, "profile") == [p.name] &&
            Values(query, "multiplexing") == Value(NameOf(Level(p), env.multiplexingName).value) &&
            Values(query, "handshake-mode") == Value(NameOf(p.handshake, env.handshakeName).value) &&
            Values(query, "traffic-pattern") == Value(Pattern(env, p).value) &&
            forall key :: key !in {"profile", "multiplexing", "handshake-mode", "traffic-pattern", "port", "protocol"} ==>
              Values(query, key) == []
  {
    hide ProjectPortBinding, PortReads, ProtocolReads, Settings, PortQuery, Values, Itoa;
    var s := p.servers[i];
    assert ValidServer(env, s);
    SettingsExactly(env, p);
    PortValues(s.bindings);
    forall key ensures Values(ServerLink(env, p, i).query, key) == Values(Settings(env, p).value, key) + Values(PortQuery(s.bindings), key) {
      ValuesOfBoth(Settings(env, p).value, PortQuery(s.bindings), key);
    }
  }
}
