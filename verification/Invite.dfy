/**
 Invite links as the desktop client builds and parses them: relay links in full
 and compact form, direct links, and their web-wrapped form.
 */
module Invite {
  import opened Seqs
  import opened Codecs

  // ---------------------------------------------------------------------
  // String vocabulary
  // ---------------------------------------------------------------------

  predicate StartsWith(s: string, prefix: string)
  {
    prefix <= s
  }

  function StripPrefix(s: string, prefix: string): (r: Option<string>)
  {
    if StartsWith(s, prefix) then Some(s[|prefix|..]) else None
  }

  /** Splits at the first `sep`. */
  function SplitOnce(s: string, sep: char): (r: Option<(string, string)>)
    ensures r.None? <==> sep !in s
    ensures r.Some? ==> s == r.value.0 + [sep] + r.value.1 && sep !in r.value.0
  {
    if s == "" then None
    else if s[0] == sep then Some(("", s[1..]))
    else match SplitOnce(s[1..], sep)
      case None => None
      case Some((a, b)) => Some(([s[0]] + a, b))
  }

  lemma {:induction false} SplitsAt(a: string, sep: char, b: string)
    requires sep !in a
    ensures SplitOnce(a + [sep] + b, sep) == Some((a, b))
  {
    var s := a + [sep] + b;
    if a != "" {
      SplitsAt(a[1..], sep, b);
      assert s[1..] == a[1..] + [sep] + b;
      assert [a[0]] + a[1..] == a;
    }
  }

  /** Splits at the last `sep`. */
  function RSplitOnce(s: string, sep: char): (r: Option<(string, string)>)
    ensures r.None? <==> sep !in s
    ensures r.Some? ==> s == r.value.0 + [sep] + r.value.1 && sep !in r.value.1
  {
    if s == "" then None
    else if s[|s| - 1] == sep then Some((s[..|s| - 1], ""))
    else match RSplitOnce(s[..|s| - 1], sep)
      case None => None
      case Some((a, b)) => Some((a, b + [s[|s| - 1]]))
  }

  /** Unicode White_Space. */
  predicate White(c: char)
  {
    var n := c as int;
    9 <= n <= 13 || n == 0x20 || n == 0x85 || n == 0xA0 || n == 0x1680 || 0x2000 <= n <= 0x200A
    || n == 0x2028 || n == 0x2029 || n == 0x202F || n == 0x205F || n == 0x3000
  }

  /** The 25 characters with that property. */
  lemma WhiteIff(c: char)
    ensures White(c) <==> c in {
      '\t', '\n', '\U{000B}', '\U{000C}', '\r', ' ', '\U{0085}', '\U{00A0}', '\U{1680}', '\U{2000}', '\U{2001}',
      '\U{2002}', '\U{2003}', '\U{2004}', '\U{2005}', '\U{2006}', '\U{2007}', '\U{2008}', '\U{2009}', '\U{200A}',
      '\U{2028}', '\U{2029}', '\U{202F}', '\U{205F}', '\U{3000}'}
  {
    var n := c as int;
    if White(c) {
      assert c == n as char;
    }
  }

  function TrimStart(s: string): (r: string)
  {
    if s != "" && White(s[0]) then TrimStart(s[1..]) else s
  }

  function TrimEnd(s: string): (r: string)
    ensures r <= s
    ensures r != "" ==> !White(r[|r| - 1])
  {
    if s != "" && White(s[|s| - 1]) then TrimEnd(s[..|s| - 1]) else s
  }

  function Trim(s: string): (r: string)
  {
    TrimEnd(TrimStart(s))
  }

  /** Trimming cannot eat into a prefix that neither starts nor ends with white space. */
  lemma {:induction false} TrimEndKeeps(prefix: string, rest: string)
    requires prefix != "" && !White(prefix[|prefix| - 1])
    ensures TrimEnd(prefix + rest) == prefix + TrimEnd(rest)
    decreases |rest|
  {
    var s := prefix + rest;
    if rest == "" {
      assert s == prefix;
    } else if White(rest[|rest| - 1]) {
      assert s[..|s| - 1] == prefix + rest[..|rest| - 1];
      TrimEndKeeps(prefix, rest[..|rest| - 1]);
    }
  }

  lemma TrimKeeps(prefix: string, rest: string)
    requires prefix != "" && !White(prefix[0]) && !White(prefix[|prefix| - 1])
    ensures Trim(prefix + rest) == prefix + TrimEnd(rest)
  {
    assert (prefix + rest)[0] == prefix[0];
    TrimEndKeeps(prefix, rest);
  }

  // ---------------------------------------------------------------------
  // Relay links
  // ---------------------------------------------------------------------

  /** How the standard library prints and parses a socket address. */
  datatype AddrCodec<!A> = AddrCodec(show: A -> string, parse: string -> Option<A>)

  /** A printed address parses back to itself and contains no slash. */
  ghost predicate Lawful<A(!new)>(codec: AddrCodec<A>)
  {
    forall a :: codec.parse(codec.show(a)) == Some(a) && '/' !in codec.show(a)
  }

  datatype RelayTarget<A> = RelayTarget(addr: A, serverId: seq<Byte>, fingerprint: seq<Byte>, token: string)

  const COMPACT: string := "farder://relayd/"
  const FULL: string := "farder://relay/"

  function ParseRelay<A>(codec: AddrCodec<A>, relay: Option<(A, seq<Byte>)>, s: string): (r: Option<RelayTarget<A>>)
    ensures r.Some? ==> r.value.serverId != []
  {
    if StartsWith(s, COMPACT) then ParseCompact(relay, s[|COMPACT|..])
    else if StartsWith(s, FULL) then ParseFull(codec, s[|FULL|..])
    else None
  }

  /** `<id>` or `<id>/<token>`, completed from the compiled-in default relay. */
  function ParseCompact<A>(relay: Option<(A, seq<Byte>)>, rest: string): (r: Option<RelayTarget<A>>)
    ensures r.Some? ==> r.value.serverId != []
  {
    if relay.None? then None
    else
      var split := SplitOnce(rest, '/');
      var idText := if split.Some? then split.value.0 else rest;
      var token := if split.Some? then split.value.1 else "";
      match FromHex(idText)
      case None => None
      case Some(id) => if id == [] then None else Some(RelayTarget(relay.value.0, id, relay.value.1, token))
  }

  /** `<addr>/<id>/<fingerprint>/<token>`; further slashes belong to the token. */
  function ParseFull<A>(codec: AddrCodec<A>, rest: string): (r: Option<RelayTarget<A>>)
    ensures r.Some? ==> r.value.serverId != [] && r.value.fingerprint != []
  {
    match SplitOnce(rest, '/')
    case None => None
    case Some((addrText, rest1)) =>
      match SplitOnce(rest1, '/')
      case None => None
      case Some((idText, rest2)) =>
        match SplitOnce(rest2, '/')
        case None => None
        case Some((fpText, token)) =>
          match (codec.parse(addrText), FromHex(idText), FromHex(fpText))
          case (Some(addr), Some(id), Some(fp)) =>
            if id == [] || fp == [] then None else Some(RelayTarget(addr, id, fp, token))
          case _ => None
  }

  function BuildRelay<A>(codec: AddrCodec<A>, t: RelayTarget<A>, code: string): (s: string)
  {
    FULL + (codec.show(t.addr) + "/" + (Hex(t.serverId) + "/" + (Hex(t.fingerprint) + "/" + code)))
  }

  function BuildCompact(serverId: seq<Byte>, code: string): (s: string)
  {
    COMPACT + (Hex(serverId) + "/" + code)
  }

  /** The full link gives back every part, whatever the code (empty, or with slashes in it). */
  lemma FullLinkRoundTrip<A(!new)>(codec: AddrCodec<A>, relay: Option<(A, seq<Byte>)>, t: RelayTarget<A>, code: string)
    requires Lawful(codec) && t.serverId != [] && t.fingerprint != []
    ensures ParseRelay(codec, relay, BuildRelay(codec, t, code)) == Some(t.(token := code))
  {
    var fp := Hex(t.fingerprint) + "/" + code;
    var id := Hex(t.serverId) + "/" + fp;
    var rest := codec.show(t.addr) + "/" + id;
    var s := FULL + rest;
    assert s[14] == '/' && COMPACT[14] == 'd';
    assert !StartsWith(s, COMPACT);
    assert s[|FULL|..] == rest;
    SplitsAt(codec.show(t.addr), '/', id);
    SplitsAt(Hex(t.serverId), '/', fp);
    SplitsAt(Hex(t.fingerprint), '/', code);
    HexRoundTrip(t.serverId);
    HexRoundTrip(t.fingerprint);
  }

  lemma CompactLinkRoundTrip<A>(codec: AddrCodec<A>, relay: (A, seq<Byte>), serverId: seq<Byte>, code: string)
    requires serverId != []
    ensures ParseRelay(codec, Some(relay), BuildCompact(serverId, code))
         == Some(RelayTarget(relay.0, serverId, relay.1, code))
  {
    var rest := Hex(serverId) + "/" + code;
    assert (COMPACT + rest)[|COMPACT|..] == rest;
    SplitsAt(Hex(serverId), '/', code);
    HexRoundTrip(serverId);
  }

  /** A compact link may come without a token; without a default relay it leads nowhere. */
  lemma CompactLinkWithoutToken<A>(codec: AddrCodec<A>, relay: (A, seq<Byte>), serverId: seq<Byte>, s: string)
    requires serverId != []
    ensures ParseRelay(codec, Some(relay), COMPACT + Hex(serverId)) == Some(RelayTarget(relay.0, serverId, relay.1, ""))
    ensures StartsWith(s, "farder://relayd/") ==> ParseRelay(codec, None, s) == None
  {
    assert (COMPACT + Hex(serverId))[|COMPACT|..] == Hex(serverId);
    HexRoundTrip(serverId);
  }

  /** What the links look like. */
  lemma KnownCompactLink()
    ensures BuildCompact([0xAB, 0x01], "x/y") == "farder://relayd/ab01/x/y"
    ensures BuildWeb("Zm9v") == "https://farder.xyz/join/Zm9v"
  {
    HexKnown();
  }

  lemma KnownFullLink<A>(codec: AddrCodec<A>, addr: A)
    requires codec.show(addr) == "1.2.3.4:5"
    ensures BuildRelay(codec, RelayTarget(addr, [0xAB], [0x0F], "old"), "new") == "farder://relay/1.2.3.4:5/ab/0f/new"
  {
    HexKnown();
    var tail := "0f" + ("/" + "new");
    assert tail == "0f/new";
    assert "ab" + ("/" + tail) == "ab/0f/new";
  }

  /** The deep link `create_invite` hands out for the connection `serverText` and a new code. */
  function DeepLink<A(==)>(codec: AddrCodec<A>, relay: Option<(A, seq<Byte>)>, serverText: string, code: string): (s: string)
  {
    match ParseRelay(codec, relay, serverText)
    case Some(t) =>
      if relay.Some? && relay.value == (t.addr, t.fingerprint) then BuildCompact(t.serverId, code)
      else BuildRelay(codec, t, code)
    case None => "farder://" + (serverText + "/" + code)
  }

  /**
   For every relayed connection and every code, the link handed out leads back to
   the same relay, server and fingerprint with that code, and is never mistaken for
   a direct invite.  A configured default relay always carries a 32-byte fingerprint.
   */
  lemma RelayInviteRoundTrip<A(!new)>(codec: AddrCodec<A>, relay: Option<(A, seq<Byte>)>, serverText: string, code: string)
    requires Lawful(codec) && (relay.Some? ==> |relay.value.1| == 32)
    requires ParseRelay(codec, relay, serverText).Some?
    ensures var t := ParseRelay(codec, relay, serverText).value;
            var link := DeepLink(codec, relay, serverText, code);
            ParseRelay(codec, relay, link) == Some(t.(token := code)) && ParseDirect(link) == None
  {
    var t := ParseRelay(codec, relay, serverText).value;
    if relay.Some? && relay.value == (t.addr, t.fingerprint) {
      CompactLinkRoundTrip(codec, relay.value, t.serverId, code);
      PrefixOfConcat(RELAY, COMPACT, Hex(t.serverId) + "/" + code);
      RelayIsNotDirect(BuildCompact(t.serverId, code));
    } else {
      FullLinkRoundTrip(codec, relay, t, code);
      PrefixOfConcat(RELAY, FULL, codec.show(t.addr) + "/" + (Hex(t.serverId) + "/" + (Hex(t.fingerprint) + "/" + code)));
      RelayIsNotDirect(BuildRelay(codec, t, code));
    }
  }

  /** The compact form is handed out exactly for servers on the default relay. */
  lemma CompactIff<A(!new)>(codec: AddrCodec<A>, relay: Option<(A, seq<Byte>)>, serverText: string, code: string)
    requires ParseRelay(codec, relay, serverText).Some?
    ensures var t, link := ParseRelay(codec, relay, serverText).value, DeepLink(codec, relay, serverText, code);
            StartsWith(link, "farder://relayd/") <==> relay == Some((t.addr, t.fingerprint))
  {
    var t := ParseRelay(codec, relay, serverText).value;
    var full := codec.show(t.addr) + "/" + (Hex(t.serverId) + "/" + (Hex(t.fingerprint) + "/" + code));
    assert (FULL + full)[14] == '/' && COMPACT[14] == 'd';
    PrefixOfConcat(COMPACT, COMPACT, Hex(t.serverId) + "/" + code);
  }

  lemma PrefixOfConcat(p: string, q: string, rest: string)
    requires p <= q
    ensures p <= q + rest
  {
  }

  // ---------------------------------------------------------------------
  // Direct links
  // ---------------------------------------------------------------------

  const RELAY: string := "farder://relay"
  const SCHEME: string := "farder://"

  predicate Digits(s: string)
  {
    forall i :: 0 <= i < |s| ==> '0' <= s[i] <= '9'
  }

  /** `host:port` with a numeric port. */
  predicate HasPort(addr: string)
  {
    var split := RSplitOnce(addr, ':');
    split.Some? && split.value.1 != "" && Digits(split.value.1)
  }

  ghost predicate EndsInPort(addr: string, host: string, port: string)
  {
    addr == host + ":" + port && port != "" && forall i :: 0 <= i < |port| ==> '0' <= port[i] <= '9'
  }

  lemma HasPortIff(addr: string)
    ensures HasPort(addr) <==> exists host, port :: EndsInPort(addr, host, port)
  {
    if HasPort(addr) {
      var split := RSplitOnce(addr, ':').value;
      assert EndsInPort(addr, split.0, split.1);
    }
    if host, port :| EndsInPort(addr, host, port) {
      assert addr[|host|] == ':';
      var split := RSplitOnce(addr, ':').value;
      LastColon(host, port, split.0, split.1);
    }
  }

  lemma LastColon(a: string, b: string, a': string, b': string)
    requires a + ":" + b == a' + ":" + b' && ':' !in b && ':' !in b'
    ensures a == a' && b == b'
  {
    var s := a + ":" + b;
    assert s[|a|] == ':' && s[|a'|] == ':';
    assert forall i :: 0 <= i < |b| ==> s[|a| + 1 + i] == b[i];
    assert forall i :: 0 <= i < |b'| ==> s[|a'| + 1 + i] == b'[i];
    assert a == s[..|a|] && b == s[|a| + 1..];
  }

  function ParseDirect(s: string): (r: Option<(string, string)>)
  {
    var trimmed := Trim(s);
    if StartsWith(trimmed, RELAY) then None
    else
      var rest := if StartsWith(trimmed, SCHEME) then trimmed[|SCHEME|..] else trimmed;
      match SplitOnce(rest, '/')
      case None => None
      case Some((addr, token)) =>
        if token == "" || StartsWith(token, "setup:") || !HasPort(addr) then None else Some((addr, token))
  }

  lemma RelayIsNotDirect(link: string)
    requires RELAY <= link
    ensures ParseDirect(link) == None
  {
    assert link == RELAY + link[|RELAY|..];
    TrimKeeps(RELAY, link[|RELAY|..]);
  }

  /** What a caller can check before handing out a direct link. */
  predicate DirectOk(addr: string, code: string)
  {
    && '/' !in addr && !StartsWith(addr, "relay") && HasPort(addr)
    && code != "" && !StartsWith(code, "setup:") && !White(code[|code| - 1])
  }

  /** A direct link parses back to its address and code if and only if `DirectOk`. */
  lemma DirectRoundTripIff(addr: string, code: string)
    ensures ParseDirect(SCHEME + (addr + "/" + code)) == Some((addr, code)) <==> DirectOk(addr, code)
  {
    if '/' !in addr {
      SlashFreeRoundTripIff(addr, code);
    }
  }

  lemma SlashFreeRoundTripIff(addr: string, code: string)
    requires '/' !in addr
    ensures ParseDirect(SCHEME + (addr + "/" + code)) == Some((addr, code)) <==> DirectOk(addr, code)
  {
    var body := addr + "/" + code;
    var head := SCHEME + (addr + "/");
    assert SCHEME + body == head + code;
    TrimKeeps(head, code);
    var token := TrimEnd(code);
    var trimmed := head + token;
    assert trimmed == SCHEME + (addr + "/" + token);
    assert trimmed[|SCHEME|..] == addr + "/" + token;
    SplitsAt(addr, '/', token);
    RelayPrefix(addr, token);
    if code != "" && !White(code[|code| - 1]) {
      assert token == code;
    }
  }

  /**
   The direct link that is handed out for a server that is not behind a relay parses
   back to that server and code under the same condition.
   */
  lemma DirectInviteRoundTripIff<A(!new)>(codec: AddrCodec<A>, relay: Option<(A, seq<Byte>)>, serverText: string, code: string)
    requires ParseRelay(codec, relay, serverText).None?
    ensures ParseDirect(DeepLink(codec, relay, serverText, code)) == Some((serverText, code)) <==> DirectOk(serverText, code)
  {
    DirectRoundTripIff(serverText, code);
  }

  /**
   A bare `host:port/code` parses to its parts if and only if the address is slash-free
   with a numeric port and no white space in front, and the code is one that can be
   told apart.
   */
  lemma BareRoundTripIff(addr: string, code: string)
    ensures ParseDirect(addr + "/" + code) == Some((addr, code))
      <==> ('/' !in addr && HasPort(addr) && !White(addr[0])
            && code != "" && !StartsWith(code, "setup:") && !White(code[|code| - 1]))
  {
    if '/' !in addr && HasPort(addr) && !White(addr[0]) {
      BareAddress(addr, code);
    } else if ParseDirect(addr + "/" + code) == Some((addr, code)) {
      NoWhiteFront(addr, code);
    }
  }

  lemma {:induction false} TrimmedStart(s: string)
    ensures TrimStart(s) != "" ==> !White(TrimStart(s)[0])
    ensures Trim(s) != "" ==> !White(Trim(s)[0])
  {
    if s != "" && White(s[0]) {
      TrimmedStart(s[1..]);
    }
  }

  /** A parsed address that is the front of the text never starts with white space. */
  lemma NoWhiteFront(addr: string, code: string)
    requires ParseDirect(addr + "/" + code) == Some((addr, code)) && HasPort(addr)
    ensures '/' !in addr && !White(addr[0])
  {
    var s := addr + "/" + code;
    var t := Trim(s);
    TrimmedStart(s);
    TrimShorter(s);
    assert |t| <= |s|;
    if !StartsWith(t, SCHEME) {
      assert t == s;
    }
  }

  lemma {:induction false} TrimShorter(s: string)
    ensures |TrimStart(s)| <= |s| && |Trim(s)| <= |s|
  {
    if s != "" && White(s[0]) {
      TrimShorter(s[1..]);
    }
  }

  lemma BareAddress(addr: string, code: string)
    requires '/' !in addr && HasPort(addr) && !White(addr[0])
    ensures ParseDirect(addr + "/" + code) == Some((addr, code))
      <==> (code != "" && !StartsWith(code, "setup:") && !White(code[|code| - 1]))
  {
    var head, token := addr + "/", TrimEnd(code);
    TrimKeeps(head, code);
    SplitsAt(addr, '/', token);
    NotALink(addr, token);
    if code != "" && !White(code[|code| - 1]) {
      assert token == code;
    }
  }

  lemma SchemeHead(addr: string, token: string)
    requires '/' !in addr && StartsWith(addr + "/" + token, SCHEME)
    ensures addr == "farder:"
  {
    var s, n := addr + "/" + token, |addr|;
    assert s[n] == '/' && SCHEME[..7] == "farder:" && SCHEME[7] == '/';
    assert s[7] == '/' && forall i :: 0 <= i < 7 ==> s[i] == SCHEME[i] && SCHEME[i] != '/';
    assert n == 7;
    assert addr == s[..7];
  }

  lemma ColonIsNoPort()
    ensures !HasPort("farder:")
  {
  }

  lemma NotALink(addr: string, token: string)
    requires '/' !in addr && HasPort(addr)
    ensures !StartsWith(addr + "/" + token, SCHEME) && !StartsWith(addr + "/" + token, RELAY)
  {
    ColonIsNoPort();
    assert RELAY == SCHEME + "relay";
    if StartsWith(addr + "/" + token, SCHEME) {
      SchemeHead(addr, token);
    }
  }

  lemma RelayPrefix(addr: string, token: string)
    requires '/' !in addr
    ensures StartsWith(SCHEME + (addr + "/" + token), RELAY) <==> StartsWith(addr, "relay")
  {
    var s := SCHEME + (addr + "/" + token);
    assert RELAY == SCHEME + "relay";
    assert s[|SCHEME|..] == addr + "/" + token;
    assert s[|SCHEME| + |addr|] == '/';
    if StartsWith(s, RELAY) {
      assert "relay" == s[|SCHEME|..|RELAY|];
      assert "relay" == addr[..5];
    }
    if StartsWith(addr, "relay") {
      assert s[..|RELAY|] == RELAY;
    }
  }

  // ---------------------------------------------------------------------
  // Web-wrapped links
  // ---------------------------------------------------------------------

  const HOST_JOIN: string := "farder.xyz/join/"

  function BuildWeb(encoded: string): (s: string)
  {
    "https://" + (HOST_JOIN + encoded)
  }

  function DecodeText(encoded: string): (r: Option<string>)
  {
    match FromBase64Url(encoded) case None => None case Some(bs) => FromUtf8(bs)
  }

  function UnwrapWeb(s: string): (r: Option<string>)
  {
    var t := Trim(s);
    var bare := if StartsWith(t, "https://") then t[8..] else if StartsWith(t, "http://") then t[7..] else t;
    match StripPrefix(bare, HOST_JOIN) case None => None case Some(rest) => DecodeText(rest)
  }

  lemma NoWhiteInSymbols(vs: seq<Six>)
    ensures TrimEnd(Symbols(vs)) == Symbols(vs)
  {
    if vs != [] {
      var s := Symbols(vs);
      assert SymbolValue(s[|s| - 1]).Some?;
    }
  }

  lemma UnwrapStrips(encoded: string)
    requires TrimEnd(encoded) == encoded
    ensures UnwrapWeb(BuildWeb(encoded)) == DecodeText(encoded)
  {
    var t := BuildWeb(encoded);
    var head := "https://" + HOST_JOIN;
    assert t == head + encoded;
    TrimKeeps(head, encoded);
    assert t[8..] == HOST_JOIN + encoded;
    assert (HOST_JOIN + encoded)[|HOST_JOIN|..] == encoded;
  }

  lemma UnwrapTrimmed(s: string, t: string, encoded: string)
    requires Trim(s) == t && t in {"https://" + (HOST_JOIN + encoded), "http://" + (HOST_JOIN + encoded), HOST_JOIN + encoded}
    ensures UnwrapWeb(s) == DecodeText(encoded)
  {
    var bare := HOST_JOIN + encoded;
    assert bare[|HOST_JOIN|..] == encoded && bare[0] == 'f';
    if t == "http://" + bare {
      assert t[4] == ':' && "https://"[4] == 's';
      assert t[7..] == bare;
    } else if t == "https://" + bare {
      assert t[8..] == bare;
    }
  }

  /** Both web schemes and the bare host are accepted, with white space in front. */
  lemma UnwrapsAnyScheme(encoded: string, scheme: string)
    requires scheme in {"https://", "http://", ""} && TrimEnd(encoded) == encoded
    ensures UnwrapWeb(scheme + (HOST_JOIN + encoded)) == DecodeText(encoded)
    ensures UnwrapWeb(" " + (scheme + (HOST_JOIN + encoded))) == DecodeText(encoded)
  {
    var t := scheme + (HOST_JOIN + encoded);
    SchemeTrims(encoded, scheme);
    assert (" " + t)[1..] == t;
    UnwrapTrimmed(t, t, encoded);
    UnwrapTrimmed(" " + t, t, encoded);
  }

  lemma SchemeTrims(encoded: string, scheme: string)
    requires scheme in {"https://", "http://", ""} && TrimEnd(encoded) == encoded
    ensures Trim(scheme + (HOST_JOIN + encoded)) == scheme + (HOST_JOIN + encoded)
    ensures scheme == "" ==> scheme + (HOST_JOIN + encoded) == HOST_JOIN + encoded
  {
    var head := scheme + HOST_JOIN;
    assert head + encoded == scheme + (HOST_JOIN + encoded);
    assert head[0] == if scheme == "" then 'f' else 'h';
    assert head[|head| - 1] == '/';
    TrimKeeps(head, encoded);
  }

  lemma TextRoundTrip(text: string)
    ensures DecodeText(Base64Url(Utf8(text))) == Some(text)
  {
    Base64RoundTrip(Utf8(text));
    Utf8RoundTrip(text);
  }

  /** Unwrapping undoes wrapping, for every text. */
  lemma WebRoundTrip(text: string)
    ensures UnwrapWeb(BuildWeb(Base64Url(Utf8(text)))) == Some(text)
  {
    NoWhiteInSymbols(ToSixes(Utf8(text)));
    UnwrapStrips(Base64Url(Utf8(text)));
    TextRoundTrip(text);
  }
}
