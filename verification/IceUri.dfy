/** web_server_common.cpp: percent-encoding, ICE server URIs and TURN credentials. A string is a
    sequence of bytes, written as the characters below 256. */
module IceUri {
  import opened Common

  type Byte = c: char | c < 256 as char
  type Text = seq<Byte>

  // ----- percent-encoding -----

  predicate Digit(c: char) { '0' <= c <= '9' }

  // std::isalnum in the C locale, and the four marks of section 2.3 of RFC 3986.
  predicate Unreserved(c: char) {
    Digit(c) || 'a' <= c <= 'z' || 'A' <= c <= 'Z' || c == '-' || c == '_' || c == '.' || c == '~'
  }

  function HexDigit(n: nat): (c: Byte)
    requires n < 16
    ensures HexValue(c) == n && (Digit(c) || 'A' <= c <= 'F')
  {
    if n < 10 then '0' + n as char else 'A' + (n - 10) as char
  }

  function HexValue(c: char): (n: int)
    ensures -1 <= n < 16
  {
    if Digit(c) then c as int - '0' as int
    else if 'a' <= c <= 'f' then c as int - 'a' as int + 10
    else if 'A' <= c <= 'F' then c as int - 'A' as int + 10
    else -1
  }

  function EncodeByte(c: Byte): Text {
    if Unreserved(c) then [c] else ['%', HexDigit(c as int / 16), HexDigit(c as int % 16)]
  }

  function Encode(text: Text): Text {
    if text == [] then [] else EncodeByte(text[0]) + Encode(text[1..])
  }

  // Whether the text starts with a percent sign and two hexadecimal digits.
  predicate Escape(text: Text) {
    |text| > 2 && text[0] == '%' && HexValue(text[1]) >= 0 && HexValue(text[2]) >= 0
  }

  function Unescape(text: Text): Byte
    requires Escape(text)
  {
    (16 * HexValue(text[1]) + HexValue(text[2])) as char
  }

  function Plain(c: Byte): Byte { if c == '+' then ' ' else c }

  function Decode(text: Text): Text {
    if text == [] then []
    else if Escape(text) then [Unescape(text)] + Decode(text[3..])
    else [Plain(text[0])] + Decode(text[1..])
  }

  lemma DecodeByte(c: Byte, rest: Text)
    ensures Decode(EncodeByte(c) + rest) == [c] + Decode(rest)
  {
    var text := EncodeByte(c) + rest;
    if Unreserved(c) {
      assert text[1..] == rest;
    } else {
      assert text[0] == '%' && text[1] == EncodeByte(c)[1] && text[2] == EncodeByte(c)[2];
      assert text[3..] == rest;
    }
  }

  /** Decoding undoes encoding, for every byte string. */
  lemma {:induction false} DecodeEncode(text: Text)
    ensures Decode(Encode(text)) == text
  {
    if text != [] {
      DecodeEncode(text[1..]);
      hide Encode, Decode, EncodeByte;
      assert Encode(text) == EncodeByte(text[0]) + Encode(text[1..]) by { EncodeUnfold(text); }
      DecodeByte(text[0], Encode(text[1..]));
    }
  }

  lemma EncodeUnfold(text: Text)
    requires text != []
    ensures Encode(text) == EncodeByte(text[0]) + Encode(text[1..])
  {
  }

  /** Encoded text holds unreserved characters and percent signs only, so no delimiter. */
  lemma {:induction false} EncodedAlphabet(text: Text)
    ensures forall c :: c in Encode(text) ==> c == '%' || Unreserved(c)
  {
    if text != [] {
      EncodedAlphabet(text[1..]);
      hide Encode, HexDigit;
      EncodeUnfold(text);
      assert forall c :: c in EncodeByte(text[0]) ==> c == '%' || Unreserved(c);
    }
  }

  // One round of the loop of percent_encode.
  lemma EncodeSnoc(text: Text, i: nat)
    requires i < |text|
    ensures Encode(text[..i + 1]) == Encode(text[..i]) + EncodeByte(text[i])
  {
    assert text[..i + 1] == text[..i] + [text[i]];
    EncodeConcat(text[..i], [text[i]]);
    assert [text[i]][1..] == [];
  }

  lemma {:induction false} EncodeConcat(a: Text, b: Text)
    ensures Encode(a + b) == Encode(a) + Encode(b)
  {
    if a == [] {
      assert a + b == b;
    } else {
      assert (a + b)[1..] == a[1..] + b;
      EncodeConcat(a[1..], b);
      hide EncodeByte;
    }
  }

  method PercentEncode(text: Text) returns (result: Text)
    ensures result == Encode(text)
  {
    hide Encode, Unreserved, HexDigit;
    result := [];
    assert text[..0] == [];
    EncodeNothing();
    for i := 0 to |text|
      invariant result == Encode(text[..i])
    {
      EncodeSnoc(text, i);
      var c := text[i];
      if Unreserved(c) {
        result := result + [c];
      } else {
        result := result + ['%', HexDigit(c as int / 16), HexDigit(c as int % 16)];
      }
    }
    assert text[..|text|] == text;
  }

  lemma EncodeNothing()
    ensures Encode([]) == [] && Decode([]) == []
  {
  }

  // One round of the loop of percent_decode.
  lemma DecodeAt(text: Text, i: nat)
    requires i < |text|
    ensures Decode(text[i..]) ==
      if text[i] == '%' && i + 2 < |text| && HexValue(text[i + 1]) >= 0 && HexValue(text[i + 2]) >= 0
      then [(16 * HexValue(text[i + 1]) + HexValue(text[i + 2])) as char] + Decode(text[i + 3..])
      else [if text[i] == '+' then ' ' else text[i]] + Decode(text[i + 1..])
  {
    hide HexValue;
    var rest := text[i..];
    assert rest[1..] == text[i + 1..];
    if |rest| > 2 {
      assert rest[1] == text[i + 1] && rest[2] == text[i + 2] && rest[3..] == text[i + 3..];
    }
  }

  lemma Regroup(done: Text, c: Byte, rest: Text)
    ensures done + ([c] + rest) == (done + [c]) + rest
  {
  }

  method PercentDecode(text: Text) returns (result: Text)
    ensures result == Decode(text)
  {
    hide Decode, HexValue;
    result := [];
    var i := 0;
    EncodeNothing();
    assert text[0..] == text && [] + Decode(text) == Decode(text);
    while i < |text|
      invariant 0 <= i <= |text|
      invariant result + Decode(text[i..]) == Decode(text)
    {
      DecodeAt(text, i);
      if text[i] == '%' && i + 2 < |text| {
        var high, low := HexValue(text[i + 1]), HexValue(text[i + 2]);
        if high >= 0 && low >= 0 {
          Regroup(result, (16 * high + low) as char, Decode(text[i + 3..]));
          result := result + [(16 * high + low) as char];
          i := i + 3;
          continue;
        }
      }
      Regroup(result, if text[i] == '+' then ' ' else text[i], Decode(text[i + 1..]));
      result := result + [if text[i] == '+' then ' ' else text[i]];
      i := i + 1;
    }
    assert text[i..] == [];
  }

  // ----- ICE servers -----

  datatype IceServer = IceServer(uri: Text, browserUrl: Text, username: Text, credential: Text)

  // std::string::find, with the length for npos.
  function Find(s: Text, c: Byte): (k: nat)
    ensures k <= |s| && (k < |s| ==> s[k] == c)
  {
    if s == [] || s[0] == c then 0 else 1 + Find(s[1..], c)
  }

  lemma {:induction false} FindFirst(a: Text, c: Byte, b: Text)
    requires c !in a
    ensures Find(a + [c] + b, c) == |a| && Find(a, c) == |a|
  {
    var s := a + [c] + b;
    if a != [] {
      assert s[0] == a[0] && s[1..] == a[1..] + [c] + b;
      FindFirst(a[1..], c, b);
    }
  }

  function Lower(s: Text): Text {
    if s == [] then [] else [if 'A' <= s[0] <= 'Z' then s[0] - 'A' + 'a' else s[0]] + Lower(s[1..])
  }

  const Stun: Text := ['s', 't', 'u', 'n']
  const Stuns: Text := ['s', 't', 'u', 'n', 's']
  const Turn: Text := ['t', 'u', 'r', 'n']
  const Turns: Text := ['t', 'u', 'r', 'n', 's']

  predicate StunScheme(s: Text) { s == Stun || s == Stuns }
  predicate TurnScheme(s: Text) { s == Turn || s == Turns }

  // What follows an optional pair of slashes.
  function SkipSlashes(s: Text): Text { if |s| >= 2 && s[0] == '/' && s[1] == '/' then s[2..] else s }

  function Url(scheme: Text, authority: Text): Text { scheme + [':'] + authority }

  // The part of a TURN URI after its colon and slashes.
  function ParseTurn(uri: Text, scheme: Text, rest: Text): IceServer {
    var at := Find(rest, '@');
    if at == |rest| then IceServer(uri, Url(scheme, rest), [], [])
    else
      var user := rest[..at];
      var colon := Find(user, ':');
      IceServer(uri, Url(scheme, rest[at + 1..]), Decode(user[..colon]),
                if colon == |user| then [] else Decode(user[colon + 1..]))
  }

  function ParseIceServer(uri: Text): Option<IceServer> {
    var end := Find(uri, ':');
    if end == |uri| then None
    else
      var scheme := Lower(uri[..end]);
      var rest := SkipSlashes(uri[end + 1..]);
      if StunScheme(scheme) then Some(IceServer(uri, Url(scheme, rest), [], []))
      else if TurnScheme(scheme) then Some(ParseTurn(uri, scheme, rest))
      else None
  }

  // The URI that carries a server's credentials to the streamer.
  function BuildUri(scheme: Text, username: Text, credential: Text, authority: Text): Text {
    scheme + [':', '/', '/'] + Encode(username) + [':'] + Encode(credential) + ['@'] + authority
  }

  lemma SchemeParsed(scheme: Text, rest: Text)
    requires TurnScheme(scheme) || StunScheme(scheme)
    ensures Find(scheme + [':', '/', '/'] + rest, ':') == |scheme|
    ensures Lower(scheme) == scheme
    ensures SkipSlashes((scheme + [':', '/', '/'] + rest)[|scheme| + 1..]) == rest
  {
    var uri := scheme + [':', '/', '/'] + rest;
    assert uri == scheme + [':'] + (['/', '/'] + rest);
    FindFirst(scheme, ':', ['/', '/'] + rest);
    assert uri[|scheme| + 1..] == ['/', '/'] + rest;
    assert (['/', '/'] + rest)[2..] == rest;
    LowerScheme(scheme);
  }

  lemma LowerScheme(scheme: Text)
    requires TurnScheme(scheme) || StunScheme(scheme)
    ensures Lower(scheme) == scheme
  {
    LowerFixed(scheme);
  }

  lemma {:induction false} LowerFixed(s: Text)
    requires forall k :: 0 <= k < |s| ==> !('A' <= s[k] <= 'Z')
    ensures Lower(s) == s
  {
    if s != [] {
      LowerFixed(s[1..]);
    }
  }

  lemma UserParsed(uri: Text, scheme: Text, username: Text, credential: Text, authority: Text)
    ensures ParseTurn(uri, scheme, Encode(username) + [':'] + Encode(credential) + ['@'] + authority)
         == IceServer(uri, Url(scheme, authority), username, credential)
  {
    var eu, ec := Encode(username), Encode(credential);
    var user := eu + [':'] + ec;
    var rest := eu + [':'] + ec + ['@'] + authority;
    EncodedAlphabet(username);
    EncodedAlphabet(credential);
    DecodeEncode(username);
    DecodeEncode(credential);
    hide Encode, Decode, Find;
    assert rest == user + ['@'] + authority;
    FindFirst(user, '@', authority);
    assert rest[..|user|] == user && rest[|user| + 1..] == authority;
    FindFirst(eu, ':', ec);
    assert user[..|eu|] == eu && user[|eu| + 1..] == ec;
  }

  /** Parsing a built URI gives back the scheme, the user, the credential and the authority, whatever
      bytes they hold; an '@' in the authority does no harm, because the first one is the
      builder's. */
  lemma ParseBuilt(scheme: Text, username: Text, credential: Text, authority: Text)
    requires TurnScheme(scheme)
    ensures var uri := BuildUri(scheme, username, credential, authority);
      ParseIceServer(uri) == Some(IceServer(uri, Url(scheme, authority), username, credential))
  {
    hide Encode, Decode, Find, Lower, SkipSlashes, ParseTurn;
    var uri := BuildUri(scheme, username, credential, authority);
    var rest := Encode(username) + [':'] + Encode(credential) + ['@'] + authority;
    assert uri == scheme + [':', '/', '/'] + rest;
    SchemeParsed(scheme, rest);
    assert uri[..|scheme|] == scheme;
    UserParsed(uri, scheme, username, credential, authority);
    assert !StunScheme(scheme);
  }

  // ----- a credentials response -----

  /** One entry of the iceServers array, with an empty text for a missing field. */
  datatype Entry = Entry(urls: seq<Text>, username: Text, credential: Text)

  datatype Credentials = Credentials(stun: Text, servers: seq<IceServer>)

  predicate Starts(s: Text, scheme: Text) { |s| > |scheme| && s[..|scheme|] == scheme && s[|scheme|] == ':' }

  predicate IsTurn(x: IceServer) { Starts(x.browserUrl, Turn) || Starts(x.browserUrl, Turns) }

  predicate IsStun(x: IceServer) { Starts(x.browserUrl, Stun) || Starts(x.browserUrl, Stuns) }

  // The server's scheme and the rest of its browser URL.
  function Rebuilt(x: IceServer, username: Text, credential: Text): IceServer {
    var colon := Find(x.browserUrl, ':');
    var authority := if colon < |x.browserUrl| then x.browserUrl[colon + 1..] else [];
    x.(username := username, credential := credential,
       uri := BuildUri(x.browserUrl[..colon], username, credential, authority))
  }

  lemma SchemeOfUrl(scheme: Text, authority: Text)
    requires TurnScheme(scheme) || StunScheme(scheme)
    ensures Find(Url(scheme, authority), ':') == |scheme|
    ensures Url(scheme, authority)[..|scheme|] == scheme && Url(scheme, authority)[|scheme| + 1..] == authority
    ensures forall t :: TurnScheme(t) || StunScheme(t) ==> (Starts(Url(scheme, authority), t) <==> t == scheme)
  {
    FindFirst(scheme, ':', authority);
    hide Find;
    var url := Url(scheme, authority);
    forall t | (TurnScheme(t) || StunScheme(t)) && Starts(url, t) ensures t == scheme {
    }
  }

  // What is known of a parsed server: its URL is a scheme and an authority.
  ghost predicate Shaped(x: IceServer, scheme: Text, authority: Text) {
    (TurnScheme(scheme) || StunScheme(scheme)) && x.browserUrl == Url(scheme, authority)
  }

  lemma ParsedShape(uri: Text) returns (scheme: Text, authority: Text)
    ensures ParseIceServer(uri).Some? ==> Shaped(ParseIceServer(uri).value, scheme, authority)
  {
    var end := Find(uri, ':');
    scheme, authority := Lower(uri[..end]), [];
    if ParseIceServer(uri).Some? {
      var rest := SkipSlashes(uri[end + 1..]);
      authority := rest;
      if TurnScheme(scheme) && Find(rest, '@') < |rest| {
        authority := rest[Find(rest, '@') + 1..];
      }
    }
  }

  /** A parsed server is a TURN server or a STUN server, never both. */
  lemma TurnOrStun(uri: Text)
    ensures ParseIceServer(uri).Some? ==> IsTurn(ParseIceServer(uri).value) == !IsStun(ParseIceServer(uri).value)
  {
    var scheme, authority := ParsedShape(uri);
    if ParseIceServer(uri).Some? {
      hide ParseIceServer, Url;
      SchemeOfUrl(scheme, authority);
    }
  }

  predicate UrlOk(url: Text, username: Text, credential: Text) {
    match ParseIceServer(url)
    case None => false
    case Some(x) => if IsTurn(x) then username != [] && credential != [] else username == [] && credential == []
  }

  function ServerOf(url: Text, username: Text, credential: Text): IceServer
    requires UrlOk(url, username, credential)
  {
    var x := ParseIceServer(url).value;
    if IsTurn(x) then Rebuilt(x, username, credential) else x
  }

  predicate EntryOk(e: Entry) {
    && (e.username == [] <==> e.credential == [])
    && forall k :: 0 <= k < |e.urls| ==> UrlOk(e.urls[k], e.username, e.credential)
  }

  // The servers of the first n URLs of an entry.
  function ServersOf(e: Entry, n: nat): seq<IceServer>
    requires EntryOk(e) && n <= |e.urls|
  {
    if n == 0 then [] else ServersOf(e, n - 1) + [ServerOf(e.urls[n - 1], e.username, e.credential)]
  }

  predicate AllOk(es: seq<Entry>) { forall k :: 0 <= k < |es| ==> EntryOk(es[k]) }

  function Servers(es: seq<Entry>): seq<IceServer>
    requires AllOk(es)
  {
    if es == [] then [] else Servers(es[..|es| - 1]) + ServersOf(es[|es| - 1], |es[|es| - 1].urls|)
  }

  // The browser URL of the first STUN server, or nothing.
  function FirstStun(xs: seq<IceServer>): Text {
    if xs == [] then []
    else
      var before := FirstStun(xs[..|xs| - 1]);
      if before == [] && IsStun(xs[|xs| - 1]) then xs[|xs| - 1].browserUrl else before
  }

  lemma ParsedUri(uri: Text)
    ensures ParseIceServer(uri).Some? ==> ParseIceServer(uri).value.uri == uri
  {
    hide Find, Lower, SkipSlashes, Decode, Url;
  }

  /** Every server accepted carries a URI that parses back to that very server: what the streamer
      reads from its environment is what the browser is told. */
  lemma ServerReparses(url: Text, username: Text, credential: Text)
    requires UrlOk(url, username, credential)
    ensures var x := ServerOf(url, username, credential);
      && ParseIceServer(x.uri) == Some(x)
      && IsTurn(x) == IsTurn(ParseIceServer(url).value)
      && (IsTurn(x) ==> x.username == username && x.credential == credential)
  {
    var x := ParseIceServer(url).value;
    var scheme, authority := ParsedShape(url);
    ParsedUri(url);
    hide ParseIceServer, Url, BuildUri, Find, Starts;
    SchemeOfUrl(scheme, authority);
    if IsTurn(x) {
      assert TurnScheme(scheme);
      ParseBuilt(scheme, username, credential, authority);
    }
  }

  lemma {:induction false} EntryReparses(e: Entry, n: nat, k: nat)
    requires EntryOk(e) && k < n <= |e.urls|
    ensures |ServersOf(e, n)| == n
    ensures ServersOf(e, n)[k] == ServerOf(e.urls[k], e.username, e.credential)
    decreases n
  {
    hide UrlOk, ServerOf;
    if n > 1 {
      EntryReparses(e, n - 1, if k < n - 1 then k else 0);
    }
  }

  lemma {:induction false} ServersReparse(es: seq<Entry>, k: nat)
    requires AllOk(es)
    ensures k < |Servers(es)| ==> ParseIceServer(Servers(es)[k].uri) == Some(Servers(es)[k])
    decreases |es|
  {
    if k < |Servers(es)| {
      hide ParseIceServer, UrlOk, ServerOf;
      var init, last := es[..|es| - 1], es[|es| - 1];
      ServersReparse(init, k);
      var i := k - |Servers(init)|;
      if i >= 0 {
        var n := |last.urls|;
        assert n > 0;
        EntryReparses(last, n, 0);
        EntryReparses(last, n, i);
        ServerReparses(last.urls[i], last.username, last.credential);
      }
    }
  }

  // Place k holds the first STUN server.
  predicate FirstAt(xs: seq<IceServer>, k: nat) {
    k < |xs| && IsStun(xs[k]) && forall j :: 0 <= j < k ==> !IsStun(xs[j])
  }

  lemma {:induction false} FirstStunFound(xs: seq<IceServer>)
    ensures FirstStun(xs) != [] <==> exists k :: 0 <= k < |xs| && IsStun(xs[k])
    ensures FirstStun(xs) != [] ==>
      exists k :: 0 <= k < |xs| && FirstAt(xs, k) && xs[k].browserUrl == FirstStun(xs)
    decreases |xs|
  {
    if xs != [] {
      var init, last := xs[..|xs| - 1], xs[|xs| - 1];
      FirstStunFound(init);
      assert IsStun(last) ==> last.browserUrl != [];
      hide IsStun;
      if FirstStun(init) != [] {
        var k :| 0 <= k < |init| && FirstAt(init, k) && init[k].browserUrl == FirstStun(init);
        assert xs[k] == init[k] && forall j :: 0 <= j < k ==> xs[j] == init[j];
      } else {
        assert forall j :: 0 <= j < |init| ==> !IsStun(init[j]) && xs[j] == init[j];
      }
    }
  }

  method AddUrl(url: Text, username: Text, credential: Text) returns (r: Option<IceServer>)
    ensures r == if UrlOk(url, username, credential) then Some(ServerOf(url, username, credential)) else None
  {
    TurnOrStun(url);
    hide ParseIceServer, Rebuilt;
    var parsed := ParseIceServer(url);
    if parsed.None? {
      return None;
    }
    var ice := parsed.value;
    var turn, stun := IsTurn(ice), IsStun(ice);
    if !turn && !stun {
      return None;
    }
    if turn && (username == [] || credential == []) {
      return None;
    }
    if stun && (username != [] || credential != []) {
      return None;
    }
    if turn {
      ice := Rebuilt(ice, username, credential);
    }
    return Some(ice);
  }

  method AddEntry(e: Entry, stun0: Text, servers0: seq<IceServer>)
    returns (ok: bool, stun: Text, servers: seq<IceServer>)
    requires stun0 == FirstStun(servers0)
    ensures ok <==> EntryOk(e)
    ensures ok ==> servers == servers0 + ServersOf(e, |e.urls|) && stun == FirstStun(servers)
  {
    hide UrlOk, ServerOf, IsStun;
    stun, servers := stun0, servers0;
    if (e.username == []) != (e.credential == []) {
      return false, stun, servers;
    }
    for i := 0 to |e.urls|
      invariant forall k :: 0 <= k < i ==> UrlOk(e.urls[k], e.username, e.credential)
      invariant stun == FirstStun(servers)
      invariant EntryOk(e) ==> servers == servers0 + ServersOf(e, i)
    {
      var r := AddUrl(e.urls[i], e.username, e.credential);
      if r.None? {
        return false, stun, servers;
      }
      assert (servers + [r.value])[..|servers|] == servers;
      if IsStun(r.value) && stun == [] {
        stun := r.value.browserUrl;
      }
      servers := servers + [r.value];
    }
    ok := true;
  }

  /** A response is accepted exactly when every entry is well formed and there is at least one STUN
      and one TURN server; the servers come in the response's order. */
  method ParseCredentials(es: seq<Entry>) returns (r: Option<Credentials>)
    ensures r.Some? <==>
      AllOk(es) && (exists k :: 0 <= k < |Servers(es)| && IsStun(Servers(es)[k]))
                && (exists k :: 0 <= k < |Servers(es)| && IsTurn(Servers(es)[k]))
    ensures r.Some? ==> r.value.servers == Servers(es) && r.value.stun == FirstStun(Servers(es))
    ensures r.Some? ==> forall k :: 0 <= k < |r.value.servers| ==>
      ParseIceServer(r.value.servers[k].uri) == Some(r.value.servers[k])
  {
    hide EntryOk, IsStun, IsTurn, ParseIceServer, FirstStun;
    var stun: Text, servers: seq<IceServer> := [], [];
    NoStun();
    for i := 0 to |es|
      invariant AllOk(es[..i]) && servers == Servers(es[..i]) && stun == FirstStun(servers)
    {
      var ok;
      ok, stun, servers := AddEntry(es[i], stun, servers);
      if !ok {
        return None;
      }
      assert es[..i + 1][..i] == es[..i];
    }
    assert es[..|es|] == es;
    FirstStunFound(servers);
    var turn := exists k :: 0 <= k < |servers| && IsTurn(servers[k]);
    if stun == [] || !turn {
      return None;
    }
    forall k | 0 <= k < |servers| ensures ParseIceServer(servers[k].uri) == Some(servers[k]) {
      ServersReparse(es, k);
    }
    return Some(Credentials(stun, servers));
  }

  lemma NoStun()
    ensures FirstStun([]) == []
  {
  }
}
