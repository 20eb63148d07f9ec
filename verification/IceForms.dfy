/** The ICE server URIs, written out as texts: the partner of their parser. */
module IceForms {
  import opened Common
  import opened IceUri

  // ----- schemes -----

  predicate IsName(name: Text) {
    name == ['s', 't', 'u', 'n'] || name == ['s', 't', 'u', 'n', 's'] || WithUser(name)
  }

  // Only these carry a user.
  predicate WithUser(name: Text) { name == ['t', 'u', 'r', 'n'] || name == ['t', 'u', 'r', 'n', 's'] }

  // The letter, small or capital.
  predicate Letter(c: Byte, small: Byte) { c == small || (c as int + 32 == small as int && 'A' <= c <= 'Z') }

  /** The name, in any mixture of capitals. */
  predicate Spells(text: Text, name: Text) {
    |text| == |name| && forall i :: 0 <= i < |text| ==> Letter(text[i], name[i])
  }

  lemma {:induction false} LowerAt(s: Text, i: nat)
    requires i < |s|
    ensures |Lower(s)| == |s|
    ensures Lower(s)[i] == if 'A' <= s[i] <= 'Z' then (s[i] as int + 32) as char else s[i]
  {
    if |s| > 1 {
      LowerAt(s[1..], if i == 0 then 0 else i - 1);
    } else {
      assert Lower(s[1..]) == [];
    }
  }

  // Lower-case letters.
  predicate Small(name: Text) { forall i :: 0 <= i < |name| ==> 'a' <= name[i] <= 'z' }

  lemma LowerLength(s: Text)
    ensures |Lower(s)| == |s|
  {
    if s != [] {
      LowerAt(s, 0);
    }
  }

  lemma LowerSpells(text: Text, name: Text)
    requires Small(name)
    ensures Lower(text) == name <==> Spells(text, name)
  {
    LowerLength(text);
    hide Lower;
    if |text| == |name| {
      forall i | 0 <= i < |text| ensures Lower(text)[i] == name[i] <==> Letter(text[i], name[i]) {
        LowerAt(text, i);
      }
    }
  }

  lemma NamesSmall(name: Text)
    requires IsName(name)
    ensures Small(name) && (WithUser(name) <==> TurnScheme(name)) && (!WithUser(name) <==> StunScheme(name))
  {
  }

  // ----- the parts of a URI -----

  datatype User = Nobody | Name(name: Text) | NameAndSecret(name: Text, secret: Text)

  function UserText(user: User): Text {
    match user
    case Nobody => []
    case Name(u) => u + ['@']
    case NameAndSecret(u, c) => u + [':'] + c + ['@']
  }

  function Username(user: User): Text { if user.Nobody? then [] else Decode(user.name) }

  function Secret(user: User): Text { if user.NameAndSecret? then Decode(user.secret) else [] }

  predicate Distinguishable(name: Text, user: User, authority: Text) {
    if !WithUser(name) then user.Nobody?
    else match user
      case Nobody => '@' !in authority
      case Name(u) => '@' !in u && ':' !in u
      case NameAndSecret(u, c) => '@' !in u && ':' !in u && '@' !in c
  }

  predicate Slashed(s: Text) { |s| >= 2 && s[0] == '/' && s[1] == '/' }

  function Tail(slashes: bool, rest: Text): Text { (if slashes then ['/', '/'] else []) + rest }

  function Joined(scheme: Text, rest: Text): Text { scheme + [':'] + rest }

  /** A scheme, a colon, maybe two slashes, maybe a user, and the authority. */
  predicate Form(uri: Text, spelled: Text, name: Text, slashes: bool, user: User, authority: Text) {
    && IsName(name) && Spells(spelled, name) && Distinguishable(name, user, authority)
    && (!slashes ==> !Slashed(UserText(user) + authority))
    && uri == Joined(spelled, Tail(slashes, UserText(user) + authority))
  }

  lemma NoColon(spelled: Text, name: Text)
    requires IsName(name) && Spells(spelled, name)
    ensures ':' !in spelled
  {
    NamesSmall(name);
    hide IsName, WithUser;
    forall i | 0 <= i < |spelled| ensures spelled[i] != ':' {
      assert Letter(spelled[i], name[i]);
    }
  }

  lemma NotFound(s: Text, c: Byte)
    requires c !in s
    ensures Find(s, c) == |s|
  {
    FindFirst(s, c, []);
  }

  lemma UserBack(uri: Text, name: Text, user: User, authority: Text)
    requires WithUser(name) && Distinguishable(name, user, authority)
    ensures ParseTurn(uri, name, UserText(user) + authority) ==
            IceServer(uri, Url(name, authority), Username(user), Secret(user))
  {
    var rest := UserText(user) + authority;
    hide Find, Decode, Url, WithUser;
    match user {
      case Nobody =>
        assert rest == authority;
        NotFound(rest, '@');
      case Name(u) =>
        assert rest == u + ['@'] + authority;
        FindFirst(u, '@', authority);
        NotFound(u, ':');
        assert rest[..|u|] == u && rest[|u| + 1..] == authority && u[..|u|] == u;
      case NameAndSecret(u, c) =>
        var info := u + [':'] + c;
        assert rest == info + ['@'] + authority;
        FindFirst(info, '@', authority);
        FindFirst(u, ':', c);
        assert rest[..|info|] == info && rest[|info| + 1..] == authority;
        assert info[..|u|] == u && info[|u| + 1..] == c;
    }
  }

  lemma JoinedParts(scheme: Text, rest: Text)
    requires ':' !in scheme
    ensures var uri := Joined(scheme, rest);
      Find(uri, ':') == |scheme| < |uri| && uri[..|scheme|] == scheme && uri[|scheme| + 1..] == rest
  {
    FindFirst(scheme, ':', rest);
  }

  // What the parser makes of a scheme, as it is spelled, and what follows the colon.
  lemma ParseJoined(spelled: Text, more: Text)
    requires ':' !in spelled
    ensures var uri, scheme, rest := Joined(spelled, more), Lower(spelled), SkipSlashes(more);
      ParseIceServer(uri) ==
      if StunScheme(scheme) then Some(IceServer(uri, Url(scheme, rest), [], []))
      else if TurnScheme(scheme) then Some(ParseTurn(uri, scheme, rest))
      else None
  {
    JoinedParts(spelled, more);
    hide Find, Lower, SkipSlashes, ParseTurn, Joined, Url, TurnScheme, StunScheme;
  }

  /** A text of this form is read back part by part. */
  lemma FormParses(uri: Text, spelled: Text, name: Text, slashes: bool, user: User, authority: Text)
    requires Form(uri, spelled, name, slashes, user, authority)
    ensures ParseIceServer(uri) ==
            Some(IceServer(uri, Joined(name, authority), Username(user), Secret(user)))
  {
    var rest := UserText(user) + authority;
    hide ParseIceServer, Tail, Slashed, IsName, WithUser, TurnScheme, StunScheme, Spells;
    NoColon(spelled, name);
    NamesSmall(name);
    LowerSpells(spelled, name);
    SlashesSkipped(slashes, rest);
    ParseJoined(spelled, Tail(slashes, rest));
    SchemesApart(name);
    assert Joined(name, authority) == Url(name, authority);
    if WithUser(name) {
      UserBack(uri, name, user, authority);
    } else {
      assert rest == authority;
    }
    hide Lower, SkipSlashes, ParseTurn, Joined, Url, Decode;
  }

  /** In particular a URL without a user stands for itself. */
  lemma PlainParses(name: Text, authority: Text)
    requires IsName(name) && '@' !in authority && !Slashed(authority)
    ensures ParseIceServer(name + [':'] + authority) ==
            Some(IceServer(name + [':'] + authority, name + [':'] + authority, [], []))
  {
    assert Spells(name, name);
    assert [] + authority == authority && [] + ([] + authority) == authority;
    assert Form(Joined(name, authority), name, name, false, Nobody, authority);
    FormParses(Joined(name, authority), name, name, false, Nobody, authority);
    hide ParseIceServer;
  }

  lemma SchemesApart(name: Text)
    ensures !(TurnScheme(name) && StunScheme(name))
  {
  }

  lemma SlashesSkipped(slashes: bool, rest: Text)
    requires !slashes ==> !Slashed(rest)
    ensures SkipSlashes(Tail(slashes, rest)) == rest
  {
    if !slashes {
      assert [] + rest == rest;
    } else {
      assert (['/', '/'] + rest)[2..] == rest;
    }
  }

  lemma {:induction false} BeforeFound(s: Text, c: Byte)
    ensures c !in s[..Find(s, c)]
  {
    if s != [] && s[0] != c {
      BeforeFound(s[1..], c);
      assert s[..Find(s, c)] == [s[0]] + s[1..][..Find(s[1..], c)];
    }
  }

  lemma SplitAt(s: Text, k: nat)
    requires k < |s|
    ensures s == s[..k] + [s[k]] + s[k + 1..]
  {
  }

  // The user of what follows the scheme and the slashes.
  lemma UserOf(name: Text, rest: Text) returns (user: User, authority: Text)
    requires WithUser(name)
    ensures rest == UserText(user) + authority && Distinguishable(name, user, authority)
  {
    var at := Find(rest, '@');
    BeforeFound(rest, '@');
    if at == |rest| {
      assert rest[..at] == rest;
      user, authority := Nobody, rest;
    } else {
      SplitAt(rest, at);
      var info := rest[..at];
      authority := rest[at + 1..];
      var colon := Find(info, ':');
      BeforeFound(info, ':');
      hide Find, WithUser;
      if colon == |info| {
        assert info[..colon] == info;
        user := Name(info);
      } else {
        SplitAt(info, colon);
        var u, c := info[..colon], info[colon + 1..];
        assert '@' !in u && '@' !in c;
        user := NameAndSecret(u, c);
      }
    }
  }

  lemma ColonOf(uri: Text) returns (spelled: Text, more: Text)
    requires ParseIceServer(uri).Some?
    ensures uri == Joined(spelled, more) && ':' !in spelled
  {
    var end := Find(uri, ':');
    SplitAt(uri, end);
    BeforeFound(uri, ':');
    spelled, more := uri[..end], uri[end + 1..];
  }

  lemma SlashesOf(more: Text)
    ensures more == Tail(Slashed(more), SkipSlashes(more))
  {
  }

  /** Every URI accepted has this form, so no other text is accepted. */
  lemma ParsedForm(uri: Text) returns (spelled: Text, name: Text, slashes: bool, user: User, authority: Text)
    requires ParseIceServer(uri).Some?
    ensures Form(uri, spelled, name, slashes, user, authority)
  {
    var more;
    spelled, more := ColonOf(uri);
    name := Lower(spelled);
    ParseJoined(spelled, more);
    assert IsName(name);
    hide ParseIceServer, Lower, Joined;
    NamesSmall(name);
    LowerSpells(spelled, name);
    slashes := Slashed(more);
    var rest := SkipSlashes(more);
    SlashesOf(more);
    assert !slashes ==> rest == more;
    hide Tail, SkipSlashes, Spells;
    if WithUser(name) {
      user, authority := UserOf(name, rest);
    } else {
      user, authority := Nobody, rest;
      assert [] + rest == rest;
    }
  }

  // ----- a server with credentials -----

  // The encoded credentials as the user of a URI.
  function Carried(username: Text, credential: Text): User { NameAndSecret(Encode(username), Encode(credential)) }

  function Expected(url: Text, name: Text, authority: Text, username: Text, credential: Text): IceServer {
    if WithUser(name)
    then IceServer(Joined(name, Tail(true, UserText(Carried(username, credential)) + authority)),
                   Joined(name, authority), username, credential)
    else IceServer(url, Joined(name, authority), [], [])
  }

  lemma BuiltUri(name: Text, username: Text, credential: Text, authority: Text)
    ensures BuildUri(name, username, credential, authority) ==
            Joined(name, Tail(true, UserText(Carried(username, credential)) + authority))
  {
    hide Encode;
    var u, c := Encode(username), Encode(credential);
    assert name + [':', '/', '/'] + u + [':'] + c + ['@'] + authority ==
           name + [':'] + (['/', '/'] + (u + [':'] + c + ['@'] + authority));
  }

  /** What a URL of a response becomes. A TURN server needs a user name and a credential, and its URI
      carries them; a STUN server takes neither, and keeps its URL. The browser is given the plain
      URL either way. */
  lemma ServerAdded(url: Text, spelled: Text, name: Text, slashes: bool, user: User, authority: Text,
                    username: Text, credential: Text)
    requires Form(url, spelled, name, slashes, user, authority)
    ensures UrlOk(url, username, credential) <==>
      if WithUser(name) then username != [] && credential != [] else username == [] && credential == []
    ensures UrlOk(url, username, credential) ==>
      ServerOf(url, username, credential) == Expected(url, name, authority, username, credential)
  {
    FormParses(url, spelled, name, slashes, user, authority);
    BuiltUri(name, username, credential, authority);
    NamesSmall(name);
    SchemeOfUrl(name, authority);
    if !WithUser(name) {
      assert Username(user) == [] && Secret(user) == [];
    }
    assert Url(name, authority) == Joined(name, authority);
    hide ParseIceServer, Find, Starts, Encode, Decode, Form, BuildUri, Joined, Tail, UserText, Username, Secret, Url;
  }

  /** A server counts as TURN or as STUN by its scheme. */
  lemma KindIs(x: IceServer, name: Text, authority: Text)
    requires IsName(name) && x.browserUrl == Joined(name, authority)
    ensures IsTurn(x) <==> WithUser(name)
    ensures IsStun(x) <==> !WithUser(name)
  {
    NamesSmall(name);
    SchemeOfUrl(name, authority);
    assert Url(name, authority) == Joined(name, authority);
    hide Starts, Joined, Url, Find;
  }

  predicate Fitting(name: Text, username: Text, credential: Text) {
    if WithUser(name) then username != [] && credential != [] else username == [] && credential == []
  }

  ghost predicate HasForm(url: Text, username: Text, credential: Text) {
    exists spelled, name, slashes, user, authority ::
      Form(url, spelled, name, slashes, user, authority) && Fitting(name, username, credential)
  }

  lemma UrlExactly(url: Text, username: Text, credential: Text)
    ensures UrlOk(url, username, credential) <==> HasForm(url, username, credential)
  {
    if ParseIceServer(url).Some? {
      var spelled, name, slashes, user, authority := ParsedForm(url);
      ServerAdded(url, spelled, name, slashes, user, authority, username, credential);
    }
    hide Form, UrlOk;
    if HasForm(url, username, credential) {
      var spelled, name, slashes, user, authority :|
        Form(url, spelled, name, slashes, user, authority) && Fitting(name, username, credential);
      ServerAdded(url, spelled, name, slashes, user, authority, username, credential);
    } else if UrlOk(url, username, credential) {
      UrlParses(url, username, credential);
    }
  }

  lemma UrlParses(url: Text, username: Text, credential: Text)
    requires UrlOk(url, username, credential)
    ensures ParseIceServer(url).Some?
  {
  }

  /** An entry is accepted exactly when it has both a user name and a credential or neither, and every
      URL is of a form that goes with that. */
  lemma EntryExactly(e: Entry)
    ensures EntryOk(e) <==>
      && (|e.username| == 0 <==> |e.credential| == 0)
      && forall k :: 0 <= k < |e.urls| ==> HasForm(e.urls[k], e.username, e.credential)
  {
    forall k | 0 <= k < |e.urls|
      ensures UrlOk(e.urls[k], e.username, e.credential) <==> HasForm(e.urls[k], e.username, e.credential)
    {
      UrlExactly(e.urls[k], e.username, e.credential);
    }
    hide UrlOk, HasForm;
  }

  // ----- the servers of a response, in order -----

  // The number of URLs in the first n entries.
  function Offset(es: seq<Entry>, n: nat): nat
    requires n <= |es|
  {
    if n == 0 then 0 else Offset(es, n - 1) + |es[n - 1].urls|
  }

  lemma {:induction false} OffsetPrefix(es: seq<Entry>, m: nat, n: nat)
    requires n <= m <= |es|
    ensures Offset(es[..m], n) == Offset(es, n)
  {
    if n > 0 {
      OffsetPrefix(es, m, n - 1);
    }
  }

  lemma {:induction false} OffsetGrows(es: seq<Entry>, i: nat, n: nat)
    requires i < n <= |es|
    ensures Offset(es, i) + |es[i].urls| <= Offset(es, n)
  {
    if i < n - 1 {
      OffsetGrows(es, i, n - 1);
    }
  }

  lemma ServersOfLength(e: Entry)
    requires EntryOk(e)
    ensures |ServersOf(e, |e.urls|)| == |e.urls|
  {
    if e.urls != [] {
      EntryReparses(e, |e.urls|, 0);
    }
  }

  /** The k-th URL of the i-th entry gives the server at its place in the response. */
  lemma {:induction false} ServersInOrder(es: seq<Entry>, i: nat, k: nat)
    requires AllOk(es)
    ensures |Servers(es)| == Offset(es, |es|)
    ensures i < |es| && k < |es[i].urls| ==>
      Offset(es, i) + k < |Servers(es)|
      && Servers(es)[Offset(es, i) + k] == ServerOf(es[i].urls[k], es[i].username, es[i].credential)
    decreases |es|
  {
    hide UrlOk, ServerOf;
    if es != [] {
      var n := |es| - 1;
      var init, last := es[..n], es[n];
      ServersInOrder(init, i, k);
      ServersOfLength(last);
      OffsetPrefix(es, n, n);
      assert Servers(es) == Servers(init) + ServersOf(last, |last.urls|);
      if i < n {
        OffsetPrefix(es, n, i);
        assert init[i] == es[i];
        if k < |es[i].urls| {
          OffsetGrows(es, i, n);
        }
      } else if i == n && k < |last.urls| {
        EntryReparses(last, |last.urls|, k);
      }
    }
  }

  // ----- what decoding and encoding do to each character -----

  lemma HexIs(c: char)
    ensures Hex(c) == HexValue(c)
  {
  }

  /** An escape stands for the byte its two digits, in either case, name; a plus sign for a blank;
      anything else, a malformed escape too, for itself. */
  lemma DecodeHead(text: Text)
    requires text != []
    ensures Decode(text) ==
      if |text| > 2 && text[0] == '%' && Hex(text[1]) >= 0 && Hex(text[2]) >= 0
      then [(16 * Hex(text[1]) + Hex(text[2])) as char] + Decode(text[3..])
      else if text[0] == '+' then [' '] + Decode(text[1..])
      else [text[0]] + Decode(text[1..])
  {
    if |text| > 2 {
      HexIs(text[1]);
      HexIs(text[2]);
    }
    hide HexValue, Hex;
  }

  // The value of a hexadecimal digit, or -1.
  function Hex(c: char): (n: int)
    ensures -1 <= n < 16
  {
    if '0' <= c <= '9' then (c as int) - 48
    else if 'A' <= c <= 'F' then (c as int) - 55
    else if 'a' <= c <= 'f' then (c as int) - 87
    else -1
  }

  /** Unreserved text is its own encoding, */
  lemma {:induction false} EncodeKeeps(text: Text)
    requires forall c :: c in text ==> Unreserved(c)
    ensures Encode(text) == text
  {
    if text != [] {
      EncodeKeeps(text[1..]);
      hide Unreserved;
    }
  }

  /** and any other byte becomes an escape. */
  lemma EncodeEscapes(c: Byte)
    requires !Unreserved(c)
    ensures |Encode([c])| == 3 && Encode([c])[0] == '%'
  {
    assert [c][1..] == [];
  }
}
