/**
 The website's own reading of an invite URL, written independently of the client:
 a regular-expression match on the path, padding to the standard base-64 alphabet,
 the browser's forgiving decoder, and a rebuilt deep link.
 */
module Website {
  import opened Seqs
  import opened Codecs
  import opened Invite

  /** The longest prefix made of token characters. */
  function TokenRun(s: string): (r: string)
  {
    if s != "" && SymbolValue(s[0]).Some? then [s[0]] + TokenRun(s[1..]) else ""
  }

  /** The leftmost match of `/join/` followed by at least one token character. */
  function JoinMatch(path: string): (r: Option<string>)
  {
    if path == "" then None
    else if StartsWith(path, "/join/") && TokenRun(path[6..]) != "" then Some(TokenRun(path[6..]))
    else JoinMatch(path[1..])
  }

  function Standard(c: char): (r: char)
  {
    if c == '-' then '+' else if c == '_' then '/' else c
  }

  function ToStandard(token: string): (r: string)
    ensures |r| == |token|
  {
    if token == "" then "" else [Standard(token[0])] + ToStandard(token[1..])
  }

  function Padded(s: string): (r: string)
  {
    s + (if |s| % 4 == 0 then "" else if |s| % 4 == 1 then "===" else if |s| % 4 == 2 then "==" else "=")
  }

  /** The padding loop. */
  method Pad(s: string) returns (r: string)
    ensures r == Padded(s) && |r| % 4 == 0
  {
    r := s;
    while |r| % 4 != 0
      invariant r == s || r == s + "=" || r == s + "==" || r == s + "==="
      invariant |r| == |s| || |s| % 4 + (|r| - |s|) <= 4
      invariant |r| != |s| ==> |s| % 4 != 0
      decreases |s| + 4 - |r|
    {
      r := r + "=";
    }
    assert s + "" == s;
  }

  function StandardValue(c: char): (v: Option<Six>)
  {
    if c == '+' then Some(62) else if c == '/' then Some(63)
    else if c == '-' || c == '_' then None else SymbolValue(c)
  }

  function StandardValues(s: string): (r: Option<seq<Six>>)
  {
    if s == "" then Some([])
    else match (StandardValue(s[0]), StandardValues(s[1..]))
      case (Some(v), Some(rest)) => Some([v] + rest)
      case _ => None
  }

  /** At most two trailing `=` go, and only from a string of whole quads. */
  function StripPad(s: string): (r: string)
  {
    if |s| % 4 != 0 || s == "" || s[|s| - 1] != '=' then s
    else if s[|s| - 2] == '=' then s[..|s| - 2]
    else s[..|s| - 1]
  }

  /** The browser's `atob` on a string without white space: left-over bits are discarded. */
  function Atob(s: string): (r: Option<string>)
  {
    var bare := StripPad(s);
    if |bare| % 4 == 1 then None
    else match StandardValues(bare)
      case None => None
      case Some(vs) => (match FromSixes(vs, false) case None => None case Some(bs) => Some(Latin1(bs)))
  }

  datatype Parsed = ServerCode(server: string, code: string) | Link(deepLink: string) | Nothing

  function Interpret(decoded: string): (r: Parsed)
  {
    if StartsWith(decoded, SCHEME) then Link(decoded)
    else match SplitOnce(decoded, '/')
      case None => Nothing
      case Some((server, code)) => if server == "" then Nothing else ServerCode(server, code)
  }

  /** `query` holds the `server` and `code` query parameters, empty when absent. */
  function ParseInviteUrl(path: string, query: (string, string)): (r: Parsed)
  {
    var token := JoinMatch(path);
    var decoded := if token.None? then None else Atob(Padded(ToStandard(token.value)));
    var found := if decoded.None? then Nothing else Interpret(decoded.value);
    if !found.Nothing? then found
    else if query.0 != "" && query.1 != "" then ServerCode(query.0, query.1)
    else Nothing
  }

  // ---------------------------------------------------------------------
  // Decoding agrees with the client's encoder
  // ---------------------------------------------------------------------

  lemma {:induction false} WholeRun(s: string)
    requires forall i :: 0 <= i < |s| ==> SymbolValue(s[i]).Some?
    ensures TokenRun(s) == s
  {
    if s != "" {
      WholeRun(s[1..]);
      assert [s[0]] + s[1..] == s;
    }
  }

  lemma {:induction false} StandardRoundTrip(vs: seq<Six>)
    ensures StandardValues(ToStandard(Symbols(vs))) == Some(vs)
    ensures '=' !in ToStandard(Symbols(vs))
  {
    if vs != [] {
      var s := Symbols(vs);
      assert s[0] == Symbol(vs[0]) && s[1..] == Symbols(vs[1..]);
      StandardSymbol(vs[0]);
      StandardRoundTrip(vs[1..]);
      var t := ToStandard(s);
      assert t == [Standard(s[0])] + ToStandard(s[1..]);
      assert t[1..] == ToStandard(s[1..]);
      assert [vs[0]] + vs[1..] == vs;
    }
  }

  lemma StandardSymbol(v: Six)
    ensures StandardValue(Standard(Symbol(v))) == Some(v) && Standard(Symbol(v)) != '='
  {
    SymbolRoundTrip(v);
  }

  lemma StripTwo(s: string)
    requires (|s| + 2) % 4 == 0
    ensures StripPad(s + "==") == s
  {
    var p := s + "==";
    assert p[|p| - 1] == '=' && p[|p| - 2] == '=' && p[..|p| - 2] == s;
  }

  lemma StripOne(s: string)
    requires (|s| + 1) % 4 == 0 && s != "" && s[|s| - 1] != '='
    ensures StripPad(s + "=") == s
  {
    var p := s + "=";
    assert p[|p| - 1] == '=' && p[|p| - 2] == s[|s| - 1] && p[..|p| - 1] == s;
  }

  lemma StripUndoesPad(s: string)
    requires '=' !in s && |s| % 4 != 1
    ensures StripPad(Padded(s)) == s
  {
    if |s| % 4 == 2 {
      StripTwo(s);
    } else if |s| % 4 == 3 {
      StripOne(s);
    } else {
      assert s + "" == s;
    }
  }

  lemma AtobRoundTrip(bs: seq<Byte>)
    ensures Atob(Padded(ToStandard(Base64Url(bs)))) == Some(Latin1(bs))
  {
    var s := ToStandard(Base64Url(bs));
    StandardRoundTrip(ToSixes(bs));
    SixesLength(bs);
    SixesRoundTrip(bs, false);
    StripUndoesPad(s);
  }

  /** What the website's decoder recovers from the path of a web invite. */
  function Recovered(path: string): (r: Option<string>)
  {
    var token := JoinMatch(path);
    if token.None? then None else Atob(Padded(ToStandard(token.value)))
  }

  lemma MatchesToken(token: string)
    requires token != "" && forall i :: 0 <= i < |token| ==> SymbolValue(token[i]).Some?
    ensures JoinMatch("/join/" + token) == Some(token)
  {
    var path := "/join/" + token;
    assert path[6..] == token;
    WholeRun(token);
  }

  lemma RecoversBytes(text: string)
    requires text != ""
    ensures Recovered("/join/" + Base64Url(Utf8(text))) == Some(Latin1(Utf8(text)))
  {
    assert |Utf8Char(text[0])| >= 1;
    SixesLength(Utf8(text));
    MatchesToken(Base64Url(Utf8(text)));
    AtobRoundTrip(Utf8(text));
  }

  /** The website reads the same text as the client if and only if the text is ASCII and not empty. */
  lemma WebsiteRecoversIff(text: string)
    ensures Recovered("/join/" + Base64Url(Utf8(text))) == Some(text) <==> Ascii(text) && text != ""
  {
    if text == "" {
      EmptyTokenIsNoMatch();
    } else {
      RecoversBytes(text);
      Latin1OfUtf8Iff(text);
    }
  }

  lemma EmptyTokenIsNoMatch()
    ensures JoinMatch("/join/" + Base64Url(Utf8(""))) == None
  {
    var path := "/join/" + Base64Url(Utf8(""));
    assert path == "/join/" && path[6..] == "";
    NoMatchWithin(path);
  }

  lemma {:induction false} NoMatchWithin(s: string)
    requires |s| < 6 || (|s| == 6 && s[6..] == "")
    ensures JoinMatch(s) == None
  {
    if s != "" {
      NoMatchWithin(s[1..]);
    }
  }

  /** Every ASCII deep link -- in particular every relay invite -- passes through unchanged. */
  lemma DeepLinksPassThrough(rest: string, query: (string, string))
    requires Ascii(rest)
    ensures ParseInviteUrl("/join/" + Base64Url(Utf8(SCHEME + rest)), query) == Link(SCHEME + rest)
  {
    AsciiConcat(SCHEME, rest);
    WebsiteRecoversIff(SCHEME + rest);
    InterpretsLink(rest);
  }

  lemma AsciiConcat(a: string, b: string)
    requires Ascii(a) && Ascii(b)
    ensures Ascii(a + b)
  {
  }

  lemma InterpretsLink(rest: string)
    ensures Interpret(SCHEME + rest) == Link(SCHEME + rest)
  {
  }

  // ---------------------------------------------------------------------
  // Rebuilding a direct link
  // ---------------------------------------------------------------------

  predicate Unreserved(c: char)
  {
    'A' <= c <= 'Z' || 'a' <= c <= 'z' || '0' <= c <= '9'
    || c in {'-', '_', '.', '!', '~', '*', '\'', '(', ')'}
  }

  predicate AllUnreserved(s: string)
  {
    forall i :: 0 <= i < |s| ==> Unreserved(s[i])
  }

  function UpperHex(v: nat): (c: char)
    requires v < 16
  {
    if v < 10 then ('0' as int + v) as char else ('A' as int + (v - 10)) as char
  }

  function Percent(bs: seq<Byte>): (s: string)
    ensures |s| == 3 * |bs|
    ensures Ascii(s)
  {
    if bs == [] then "" else ['%', UpperHex(bs[0] / 16), UpperHex(bs[0] % 16)] + Percent(bs[1..])
  }

  /** `encodeURIComponent` */
  function EncodeUri(s: string): (r: string)
    ensures |s| <= |r|
    ensures Ascii(r)
  {
    if s == "" then ""
    else (if Unreserved(s[0]) then [s[0]] else Percent(Utf8Char(s[0]))) + EncodeUri(s[1..])
  }

  lemma {:induction false} EncodeUriIff(s: string)
    ensures EncodeUri(s) == s <==> AllUnreserved(s)
    ensures |EncodeUri(s)| == |s| <==> AllUnreserved(s)
  {
    if s != "" {
      EncodeUriIff(s[1..]);
      assert AllUnreserved(s) <==> Unreserved(s[0]) && AllUnreserved(s[1..]);
      assert s == [s[0]] + s[1..];
    }
  }

  /** Reads percent escapes back as bytes; every other character stands for its own bytes. */
  function Unescape(s: string): (bs: seq<Byte>)
  {
    if s == "" then []
    else if |s| >= 3 && s[0] == '%' && HexValue(s[1]).Some? && HexValue(s[2]).Some?
    then [HexValue(s[1]).value * 16 + HexValue(s[2]).value] + Unescape(s[3..])
    else Utf8Char(s[0]) + Unescape(s[1..])
  }

  lemma DigitRoundTrip(v: nat)
    requires v < 16
    ensures HexValue(UpperHex(v)) == Some(v)
  {
  }

  lemma UnescapesOne(h: nat, l: nat, tail: string)
    requires h < 16 && l < 16
    ensures Unescape(['%', UpperHex(h), UpperHex(l)] + tail) == [h * 16 + l] + Unescape(tail)
  {
    DigitRoundTrip(h);
    DigitRoundTrip(l);
    assert (['%', UpperHex(h), UpperHex(l)] + tail)[3..] == tail;
  }

  function Escape(b: Byte): (s: string)
  {
    ['%', UpperHex(b / 16), UpperHex(b % 16)]
  }

  lemma UnescapesByte(b: Byte, tail: string)
    ensures Unescape(Escape(b) + tail) == [b] + Unescape(tail)
  {
    UnescapesOne(b / 16, b % 16, tail);
  }

  lemma PercentCons(b: Byte, bs: seq<Byte>, rest: string)
    ensures Percent([b] + bs) + rest == Escape(b) + (Percent(bs) + rest)
  {
    assert ([b] + bs)[1..] == bs;
  }

  lemma {:induction false} UnescapesPercent(bs: seq<Byte>, rest: string)
    ensures Unescape(Percent(bs) + rest) == bs + Unescape(rest)
  {
    if bs == [] {
      assert Percent(bs) + rest == rest;
    } else {
      var b, tail := bs[0], bs[1..];
      assert bs == [b] + tail;
      UnescapesPercent(tail, rest);
      PercentCons(b, tail, rest);
      UnescapesByte(b, Percent(tail) + rest);
      AssocBytes([b], tail, Unescape(rest));
    }
  }

  /** Percent-encoding loses nothing: read back, any text gives its own UTF-8. */
  lemma {:induction false} EncodeUriRoundTrip(s: string)
    ensures Unescape(EncodeUri(s)) == Utf8(s) && FromUtf8(Unescape(EncodeUri(s))) == Some(s)
  {
    if s != "" {
      EncodeUriRoundTrip(s[1..]);
      var rest := EncodeUri(s[1..]);
      if Unreserved(s[0]) {
        assert EncodeUri(s)[1..] == rest;
      } else {
        UnescapesPercent(Utf8Char(s[0]), rest);
      }
    }
    Utf8RoundTrip(s);
  }

  /** The escapes themselves. */
  lemma KnownEscapes()
    ensures EncodeUri("a/b") == "a%2Fb" && EncodeUri("\U{00E9}") == "%C3%A9"
  {
    assert "a/b"[1..] == "/b" && "/b"[1..] == "b" && "b"[1..] == "";
    assert Percent(Utf8Char('/')) == "%2F" + Percent([]);
    assert EncodeUri("b") == "b";
    assert EncodeUri("/b") == "%2Fb";
    assert Utf8Char('\U{00E9}') == [0xC3, 0xA9] && [0xC3, 0xA9][1..] == [0xA9];
    assert Percent([0xA9]) == ['%', 'A', '9'] + Percent([0xA9][1..]);
    assert Percent([0xC3, 0xA9]) == ['%', 'C', '3'] + Percent([0xA9]);
    assert "\U{00E9}"[1..] == "";
  }

  function BuildDeepLink(server: string, code: string): (s: string)
  {
    SCHEME + (server + "/" + EncodeUri(code))
  }

  lemma AssocBytes(a: seq<Byte>, b: seq<Byte>, c: seq<Byte>)
    ensures a + (b + c) == (a + b) + c
  {
  }

  lemma {:induction false} Utf8Concat(a: string, b: string)
    ensures Utf8(a + b) == Utf8(a) + Utf8(b)
  {
    if a == "" {
      assert a + b == b;
    } else {
      Utf8Concat(a[1..], b);
      assert (a + b)[0] == a[0] && (a + b)[1..] == a[1..] + b;
      AssocBytes(Utf8Char(a[0]), Utf8(a[1..]), Utf8(b));
    }
  }

  lemma ParsesDirect(server: string, code: string, query: (string, string))
    requires server != "" && '/' !in server && Ascii(server) && server != "farder:"
    ensures ParseInviteUrl("/join/" + Base64Url(Utf8(server + "/" + code)), query)
         == ServerCode(server, Latin1(Utf8(code)))
  {
    RecoversBytes(server + "/" + code);
    DecodedDirect(server, code);
    SplitsAt(server, '/', Latin1(Utf8(code)));
    NotAScheme(server, Latin1(Utf8(code)));
  }

  lemma Latin1Concat(a: seq<Byte>, b: seq<Byte>)
    ensures Latin1(a + b) == Latin1(a) + Latin1(b)
  {
  }

  lemma DecodedDirect(server: string, code: string)
    requires Ascii(server)
    ensures Latin1(Utf8(server + "/" + code)) == server + "/" + Latin1(Utf8(code))
  {
    var head := server + "/";
    Utf8Concat(head, code);
    Latin1Concat(Utf8(head), Utf8(code));
    AsciiConcat(server, "/");
    Latin1OfUtf8Iff(head);
  }

  lemma NotAScheme(server: string, code: string)
    requires '/' !in server && server != "farder:"
    ensures !StartsWith(server + "/" + code, SCHEME)
  {
    var s := server + "/" + code;
    var n := |server|;
    assert s[n] == '/';
    if n < 7 {
      assert SCHEME[n] != '/';
    } else if n > 7 {
      assert s[7] == server[7] && SCHEME[7] == '/';
    } else {
      assert s[..7] == server && SCHEME[..7] == "farder:";
    }
  }

  lemma {:induction false} AsciiWhenEncodable(code: string)
    requires AllUnreserved(code)
    ensures Ascii(code)
  {
    forall i | 0 <= i < |code| ensures code[i] as int < 0x80 {
      assert Unreserved(code[i]);
    }
  }

  lemma CodeSurvivesIff(code: string)
    ensures EncodeUri(Latin1(Utf8(code))) == code <==> AllUnreserved(code)
  {
    Latin1OfUtf8Iff(code);
    EncodeUriIff(code);
    if AllUnreserved(code) {
      AsciiWhenEncodable(code);
    }
  }

  lemma SameTail(head: string, x: string, y: string)
    ensures SCHEME + (head + "/" + x) == SCHEME + (head + "/" + y) <==> x == y
  {
    var n := |SCHEME| + |head| + 1;
    assert (SCHEME + (head + "/" + x))[n..] == x;
    assert (SCHEME + (head + "/" + y))[n..] == y;
  }

  /**
   For a direct invite, the website rebuilds exactly the client's deep link if and
   only if the code consists of characters that need no percent-encoding.
   */
  lemma RebuildsDirectLinkIff(server: string, code: string, query: (string, string))
    requires server != "" && '/' !in server && Ascii(server) && server != "farder:"
    ensures var p := ParseInviteUrl("/join/" + Base64Url(Utf8(server + "/" + code)), query);
            && p.ServerCode?
            && (BuildDeepLink(p.server, p.code) == SCHEME + (server + "/" + code) <==> AllUnreserved(code))
  {
    ParsesDirect(server, code, query);
    CodeSurvivesIff(code);
    SameTail(server, EncodeUri(Latin1(Utf8(code))), code);
  }

  // ---------------------------------------------------------------------
  // The other ways in
  // ---------------------------------------------------------------------

  lemma {:induction false} TokenStops(token: string, tail: string)
    requires forall i :: 0 <= i < |token| ==> SymbolValue(token[i]).Some?
    requires tail != "" ==> SymbolValue(tail[0]).None?
    ensures TokenRun(token + tail) == token
  {
    if token == "" {
      assert token + tail == tail;
    } else {
      TokenStops(token[1..], tail);
      assert (token + tail)[1..] == token[1..] + tail;
      assert [token[0]] + token[1..] == token;
    }
  }

  /** The token ends at the first character that cannot be in one. */
  lemma TokenIsCutOut(token: string, tail: string)
    requires token != "" && forall i :: 0 <= i < |token| ==> SymbolValue(token[i]).Some?
    requires tail != "" ==> SymbolValue(tail[0]).None?
    ensures JoinMatch("/join/" + (token + tail)) == Some(token)
  {
    var path := "/join/" + (token + tail);
    assert path[6..] == token + tail;
    TokenStops(token, tail);
  }

  /** A token can be cut out at `i`. */
  predicate MatchesAt(path: string, i: nat)
  {
    i <= |path| && StartsWith(path[i..], "/join/") && TokenRun(path[i + 6..]) != ""
  }

  /** The match is the leftmost one, wherever it is. */
  lemma {:induction false} MatchIsLeftmost(path: string, i: nat)
    requires MatchesAt(path, i) && forall j: nat :: j < i ==> !MatchesAt(path, j)
    ensures JoinMatch(path) == Some(TokenRun(path[i + 6..]))
  {
    if i == 0 {
      assert path[0..] == path;
    } else {
      assert !MatchesAt(path, 0) && path[0..] == path;
      assert path[1..][i - 1..] == path[i..] && path[1..][i + 5..] == path[i + 6..];
      forall j: nat | j < i - 1 ensures !MatchesAt(path[1..], j) {
        assert !MatchesAt(path, j + 1);
        assert path[1..][j..] == path[j + 1..];
        if StartsWith(path[j + 1..], "/join/") {
          assert path[1..][j + 6..] == path[j + 7..];
        }
      }
      MatchIsLeftmost(path[1..], i - 1);
    }
  }

  /** Without a readable token the query parameters are used, if and only if both are there. */
  lemma QueryIsTheFallback(path: string, query: (string, string))
    requires Recovered(path).None? || Interpret(Recovered(path).value).Nothing?
    ensures ParseInviteUrl(path, query)
         == if query.0 != "" && query.1 != "" then ServerCode(query.0, query.1) else Nothing
  {
  }

  /** A token that reads as neither a deep link nor a server and a code counts for nothing. */
  lemma InterpretIff(decoded: string)
    ensures Interpret(decoded).Link? <==> StartsWith(decoded, "farder://")
    ensures Interpret(decoded).ServerCode? <==>
      !StartsWith(decoded, "farder://") && '/' in decoded && decoded[0] != '/'
    ensures Interpret(decoded).ServerCode? ==>
      && decoded == Interpret(decoded).server + "/" + Interpret(decoded).code
      && '/' !in Interpret(decoded).server
  {
    var split := SplitOnce(decoded, '/');
    if split.Some? {
      assert decoded == split.value.0 + ['/'] + split.value.1;
      assert split.value.0 != "" ==> decoded[0] == split.value.0[0];
    }
  }
}
