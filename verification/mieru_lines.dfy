// What the lines of a subscription become, from the text of a standard link to the links of its servers.
module MieruLines {
  import opened Wrappers
  import opened GoStrings
  import opened Mieru
  import B = LooseBase64

  // A standard link, its payload, the message in that and the configuration the message is.
  predicate Carries(env: Env, link: string, encoded: string, message: string, c: ClientConfig) {
    link == "mieru://" + encoded && 1 <= |encoded| <= 1048576 &&
    env.decodeStrict(encoded) == Some(message) && 1 <= |message| <= 786432 && env.unmarshal(message) == Some(c)
  }

  lemma PayloadExactly(env: Env, link: string, c: ClientConfig)
    ensures Payload(env, link) == Some(c) <==> exists encoded, message :: Carries(env, link, encoded, message, c)
  {
    if Payload(env, link) == Some(c) {
      var encoded := link[8..];
      assert link == "mieru://" + encoded;
      assert Carries(env, link, encoded, env.decodeStrict(encoded).value, c);
    }
    if encoded, message :| Carries(env, link, encoded, message, c) {
      assert link[..8] == "mieru://" && link[8..] == encoded;
    }
  }

  lemma {:induction false} TrimmedRight(s: string, pad: string, cutset: string)
    requires (s == "" || s[|s| - 1] !in cutset) && forall i :: 0 <= i < |pad| ==> pad[i] in cutset
    ensures TrimRight(s + pad, cutset) == s
    decreases |pad|
  {
    if pad == "" {
      assert s + pad == s;
    } else {
      assert (s + pad)[..|s + pad| - 1] == s + pad[..|pad| - 1];
      TrimmedRight(s, pad[..|pad| - 1], cutset);
    }
  }

  // A standard link with a valid configuration becomes the links of its servers, profile by profile and server by server;
  // blanks and carriage returns behind it do not matter.
  lemma LinkBecomesServers(env: Env, link: string, pad: string, encoded: string, message: string, c: ClientConfig)
    requires Carries(env, link, encoded, message, c) && ValidConfig(env, c)
    requires link[|link| - 1] !in " \r" && forall i :: 0 <= i < |pad| ==> pad[i] in " \r"
    ensures var urls, servers := ExpandLine(env, link + pad), Origins(c.profiles);
            |urls| == |servers| &&
            forall k :: 0 <= k < |urls| ==>
              var (i, j) := servers[k];
              i < |c.profiles| && ValidProfile(env, c.profiles[i]) && j < |c.profiles[i].servers| &&
              urls[k] == env.url(ServerLink(env, c.profiles[i], j))
  {
    hide ValidProfile, Links, Origins, ServerLink;
    TrimmedRight(link, pad, " \r");
    PayloadExactly(env, link, c);
    assert IsStandard(link) by { assert link[..8] == "mieru://"; }
    OneLinkPerServer(env, c.profiles);
    var links := Links(env, c.profiles);
    assert ExpandLine(env, link + pad) == Urls(env, links);
    forall k | 0 <= k < |links|
      ensures var (i, j) := Origins(c.profiles)[k];
              i < |c.profiles| && ValidProfile(env, c.profiles[i]) && j < |c.profiles[i].servers| &&
              links[k] == ServerLink(env, c.profiles[i], j)
    {
      assert Origin(env, c.profiles, links[k], Origins(c.profiles)[k].0, Origins(c.profiles)[k].1);
    }
  }

  // Every other line stays as it is, with what is behind it.
  lemma OtherLineStays(env: Env, line: string)
    requires !HasPrefix(line, "mieru://")
    ensures ExpandLine(env, line) == [line]
  {
    var candidate := TrimRight(line, " \r");
    if IsStandard(candidate) { LongerIsStandard(candidate, line); }
  }

  lemma LongerIsStandard(s: string, line: string)
    requires IsStandard(s) && s <= line
    ensures HasPrefix(line, "mieru://")
  {
    assert line[..8] == s[..8];
  }

  // A text in base64, of any of the four encodings, is expanded as what it encodes, if that holds a standard link.
  lemma EncodedExpandsAlike(env: Env, enc: B.Encoding, bs: seq<B.Byte>)
    requires ContainsStandardLine(AsString(bs))
    ensures Expand(env, B.Encode(enc, bs)) == Expand(env, AsString(bs))
  {
    var text := B.Encode(enc, bs);
    B.RoundTrip(enc, bs);
    DecodesLoosely(enc, text, bs);
    NoColon(enc, bs);
    if ContainsStandardLine(text) {
      var i :| 0 <= i < |Split(text, '\n')| && IsStandard(Split(text, '\n')[i]);
      var line := Split(text, '\n')[i];
      assert line[5] == line[..8][5] == ':';
      PartsAreWithin(text, '\n', i, ':');
    }
  }

  lemma DecodesLoosely(enc: B.Encoding, text: string, bs: seq<B.Byte>)
    requires B.Decode(enc, text) == Some(bs)
    ensures B.LooseDecode(text) == Some(bs)
  {
    hide B.Decode;
    forall e | B.Decode(e, text).Some? ensures B.Decode(e, text) == Some(bs) { B.DecodersAgree(e, enc, text); }
    assert enc == B.RAW_URL || enc == B.URL || enc == B.RAW_STD || enc == B.STD;
  }

  lemma {:induction false} NoColon(enc: B.Encoding, bs: seq<B.Byte>)
    ensures ':' !in B.Encode(enc, bs)
    decreases |bs|
  {
    if |bs| > 2 { NoColon(enc, bs[3..]); }
  }

  lemma {:induction false} PartsAreWithin(s: string, sep: char, i: nat, c: char)
    requires i < |Split(s, sep)| && c in Split(s, sep)[i]
    ensures c in s
    decreases |s|
  {
    var rest := Split(s[1..], sep);
    if s[0] == sep {
      if i > 0 { PartsAreWithin(s[1..], sep, i - 1, c); }
    } else if i > 0 {
      PartsAreWithin(s[1..], sep, i, c);
    } else if c in rest[0] {
      PartsAreWithin(s[1..], sep, 0, c);
    }
  }
}
