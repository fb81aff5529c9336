/** Shadowsocks share links: export against the parser that re-enters itself on decoded text. */
module Shadowsocks {
  import opened Text
  import Base64
  import Percent

  /** The fields a link carries; `cipher` is the method, `name` the display name. */
  datatype Server = Server(cipher: Bytes, password: Bytes, address: Bytes, port: int, name: Bytes)

  /** `Unfinished` means the given number of parser entries was not enough. */
  datatype Outcome = Parsed(server: Server) | Rejected | Unfinished

  // ---------------------------------------------------------------- export

  predicate IsByteServer(s: Server) { IsBytes(s.cipher) && IsBytes(s.password) && IsBytes(s.name) }

  /** Validate, as far as it concerns these fields. */
  predicate Valid(address: Bytes, port: int) { address != [] && 1 <= port <= 65535 }

  predicate Exportable(s: Server) {
    IsByteServer(s) && Valid(s.address, s.port) && s.cipher != [] && s.password != []
  }

  function User(s: Server): Bytes { s.cipher + [':'] + s.password }

  function HostPort(s: Server): Bytes
    requires s.port >= 0
  {
    s.address + [':'] + Itoa(s.port)
  }

  const SCHEME: Bytes := "ss://"
  const LONG_SCHEME: Bytes := "shadowsocks://"

  /** A link with the given user part, host part and name. */
  function Link(user: Bytes, host: Bytes, name: Bytes): Bytes {
    SCHEME + (user + ['@'] + (host + ['#'] + name))
  }

  /** ExportShareLink for this protocol: the checks, then the link. */
  function ExportLink(s: Server): Option<Bytes>
    requires IsByteServer(s)
  {
    if !Valid(s.address, s.port) || s.cipher == [] || s.password == [] then None else Some(Export(s))
  }

  /** The canonical link: the user part encoded, the name escaped. */
  function Export(s: Server): Bytes
    requires IsByteServer(s) && s.port >= 0
  {
    Link(Base64.Encode(User(s), true), HostPort(s), Percent.Escape(s.name))
  }

  // ---------------------------------------------------------------- parsing

  /** net.SplitHostPort. */
  function SplitHostPort(h: Bytes): Option<(Bytes, Bytes)> {
    var i := LastIndex(h, ':');
    if i < 0 then None
    else if h[0] == '[' then
      var end := FirstIndex(h, ']');
      if end + 1 != i || '[' in h[1..] || ']' in h[end + 1..] then None else Some((h[1..end], h[i + 1..]))
    else if ':' in h[..i] || '[' in h || ']' in h then None
    else Some((h[..i], h[i + 1..]))
  }

  /** The part of `s` before the first `c`, and the part behind it (empty when there is no `c`). */
  function Before(s: Bytes, c: Byte): Bytes { s[..FirstIndex(s, c)] }

  function Behind(s: Bytes, c: Byte): Bytes {
    var i := FirstIndex(s, c);
    if i < |s| then s[i + 1..] else []
  }

  /** The end of parsing, once method, password and the host part are known. */
  function Finish(cipher: Bytes, password: Bytes, hostPart: Bytes, name: Bytes): Outcome {
    if cipher == [] || hostPart == [] then Rejected
    else
      var hp := SplitHostPort(Before(Before(hostPart, '/'), '?'));
      if hp.None? then Rejected
      else
        var (host, portText) := hp.value;
        var port := Atoi(portText);
        if port.None? || !Valid(host, port.value) then Rejected
        else
          var decoded := Percent.Unescape(name);
          var shown := if name == [] then host else if decoded.Some? then decoded.value else name;
          Parsed(Server(cipher, password, host, port.value, shown))
  }

  /** The link without its scheme. */
  function Body(link: Bytes): Bytes { TrimPrefix(TrimPrefix(link, SCHEME), LONG_SCHEME) }

  /** Method and password in clear, divided at the first colon. */
  function FinishClear(user: Bytes, hostPart: Bytes, name: Bytes): Outcome {
    var c := FirstIndex(user, ':');
    if c == |user| then Rejected else Finish(user[..c], user[c + 1..], hostPart, name)
  }

  /** What one entry of parseShadowsocks does: it ends, or calls itself on a rewritten link. */
  datatype Entry = Ends(outcome: Outcome) | Again(link: Bytes)

  function Enter(link: Bytes): Entry {
    var rest, name := Before(Body(link), '#'), Behind(Body(link), '#');
    var at := LastIndex(rest, '@');
    if at >= 0 then EnterUser(Before(rest[..at], '?'), rest[at + 1..], name)
    else
      var decoded := Base64.DecodeLenient(rest);
      if decoded.None? then Ends(Rejected) else Again(SCHEME + (decoded.value + ['#'] + name))
  }

  function EnterUser(user: Bytes, hostPart: Bytes, name: Bytes): Entry {
    var decoded := Base64.DecodeLenient(user);
    if decoded.None? then Ends(FinishClear(user, hostPart, name))
    else if ':' in decoded.value then Again(Link(decoded.value, hostPart, name))
    else Ends(Rejected)
  }

  /** parseShadowsocks, entered at most `entries` times. */
  function Parse(link: Bytes, entries: nat): Outcome
    decreases entries
  {
    if entries == 0 then Unfinished
    else match Enter(link)
      case Ends(outcome) => outcome
      case Again(next) => Parse(next, entries - 1)
  }

  // ---------------------------------------------------------------- taking a link apart

  predicate Lacks(s: Bytes, cs: Bytes) { forall k :: 0 <= k < |s| ==> s[k] !in cs }

  lemma BeforeIs(a: Bytes, c: Byte, b: Bytes)
    requires c !in a
    ensures Before(a + [c] + b, c) == a && Before(a, c) == a
  {
    FirstIndexIs(a, c, b);
    FirstIndexAbsent(a, c);
  }

  lemma BehindIs(a: Bytes, c: Byte, b: Bytes)
    requires c !in a
    ensures Behind(a + [c] + b, c) == b
  {
    FirstIndexIs(a, c, b);
  }

  /** The long scheme has neither `@` nor `#`, so it can only be a prefix of the part before one. */
  lemma LongSchemeBefore(user: Bytes, c: Byte, tail: Bytes)
    requires c == '@' || c == '#'
    ensures LONG_SCHEME <= user + [c] + tail <==> LONG_SCHEME <= user
  {
    var text := user + [c] + tail;
    assert c !in LONG_SCHEME;
    assert forall k :: 0 <= k < |user| ==> text[k] == user[k];
    assert text[|user|] == c;
  }

  /** What is left of the user part once the scheme is off: a second scheme goes with it. */
  function Stripped(user: Bytes): Bytes { TrimPrefix(user, LONG_SCHEME) }

  lemma BodyIs(user: Bytes, c: Byte, tail: Bytes)
    requires c == '@' || c == '#'
    ensures Body(SCHEME + (user + [c] + tail)) == Stripped(user) + [c] + tail
  {
    var text := user + [c] + tail;
    assert (SCHEME + text)[|SCHEME|..] == text;
    LongSchemeBefore(user, c, tail);
    if LONG_SCHEME <= user {
      var n := |LONG_SCHEME|;
      assert text[n..] == user[n..] + [c] + tail;
    }
  }

  lemma BodyOfLink(user: Bytes, host: Bytes, name: Bytes)
    ensures Body(Link(user, host, name)) == Stripped(user) + ['@'] + (host + ['#'] + name)
  {
    hide Body;
    BodyIs(user, '@', host + ['#'] + name);
  }

  /** The three parts the parser finds in a link whose user and host part are free of separators. */
  lemma PartsOfLink(user: Bytes, host: Bytes, name: Bytes)
    requires '#' !in Stripped(user) && '#' !in host && '@' !in host
    ensures var body := Body(Link(user, host, name)); var u := Stripped(user);
            var rest := Before(body, '#');
            && rest == u + ['@'] + host && Behind(body, '#') == name
            && LastIndex(rest, '@') == |u| && rest[..|u|] == u && rest[|u| + 1..] == host
  {
    hide Body, Link, Stripped;
    var u := Stripped(user);
    BodyOfLink(user, host, name);
    var rest := u + ['@'] + host;
    assert u + ['@'] + (host + ['#'] + name) == rest + ['#'] + name;
    BeforeIs(rest, '#', name);
    BehindIs(rest, '#', name);
    LastIndexIs(u, '@', host);
  }

  // ---------------------------------------------------------------- the round trip

  /** The servers whose links come back unchanged. */
  predicate Clean(s: Server) {
    && Lacks(s.cipher, ":#?")
    && Lacks(s.password, "#?")
    && Lacks(s.address, ":@#/?[]")
    && s.name != []
    && !(s.cipher == "shadowsocks" && "//" <= s.password)
  }

  lemma LacksMeans(s: Bytes, cs: Bytes, c: Byte)
    requires Lacks(s, cs) && c in cs
    ensures c !in s
  {
  }

  lemma HostPortLacks(s: Server, c: Byte)
    requires s.port >= 0 && c !in s.address && c != ':' && !IsDigit(c)
    ensures c !in HostPort(s)
  {
  }

  /** The first entry decodes the user part and re-enters with it in clear. */
  lemma FirstEntry(s: Server, entries: nat)
    requires Exportable(s) && '@' !in s.address && '#' !in s.address && entries > 0
    ensures Parse(Export(s), entries)
         == Parse(Link(User(s), HostPort(s), Percent.Escape(s.name)), entries - 1)
  {
    hide Body, Link, Before, Behind, LastIndex, Base64.Encode, Base64.DecodeLenient, Percent.Escape, HostPort, FinishClear;
    var user, host, name := Base64.Encode(User(s), true), HostPort(s), Percent.Escape(s.name);
    EncodedUser(s);
    HostPortLacks(s, '@');
    HostPortLacks(s, '#');
    PartsOfLink(user, host, name);
    BeforeIs(user, '?', []);
    Base64.DecodeLenientEncode(User(s));
    assert User(s)[|s.cipher|] == ':';
  }

  lemma EncodedUser(s: Server)
    requires IsByteServer(s)
    ensures var user := Base64.Encode(User(s), true);
            '#' !in user && '?' !in user && Stripped(user) == user
  {
    var user := Base64.Encode(User(s), true);
    Base64.EncodeShape(User(s), true);
    hide Base64.Encode;
    assert LONG_SCHEME[11] == ':';
    assert !Base64.IsAlphabet(':', true) && !Base64.IsAlphabet('#', true) && !Base64.IsAlphabet('?', true);
  }

  lemma ColonIsForeign()
    ensures Base64.IsForeign(':') && Base64.IsForeign('@')
  {
  }

  /** An entry with the user part in clear splits it at its first colon. */
  lemma ClearEntry(user: Bytes, host: Bytes, name: Bytes, entries: nat)
    requires '#' !in user && '?' !in user && ':' in user && !(LONG_SCHEME <= user)
    requires '#' !in host && '@' !in host && entries > 0
    ensures Parse(Link(user, host, name), entries) == FinishClear(user, host, name)
  {
    hide Body, Link, Before, Behind, LastIndex, Base64.DecodeLenient, FinishClear;
    PartsOfLink(user, host, name);
    BeforeIs(user, '?', []);
    ColonIsForeign();
    Base64.ForeignFails(user, ':');
  }

  lemma LongSchemeUser(s: Server)
    requires ':' !in s.cipher
    ensures LONG_SCHEME <= User(s) <==> s.cipher == "shadowsocks" && "//" <= s.password
  {
    var u, m, p := User(s), s.cipher, s.password;
    if m == "shadowsocks" && "//" <= p {
      assert u == "shadowsocks:" + p;
      assert LONG_SCHEME == "shadowsocks:" + "//";
      assert p == "//" + p[2..];
      assert u == LONG_SCHEME + p[2..];
    }
    if LONG_SCHEME <= u {
      FirstColon(s);
      assert m == LONG_SCHEME[..11];
      assert p == u[12..];
      assert p[..2] == u[12..14] == LONG_SCHEME[12..14];
    }
  }

  /** Of two texts with the same start, the first colon is at the same place. */
  lemma FirstColon(s: Server)
    requires ':' !in s.cipher && LONG_SCHEME <= User(s)
    ensures |s.cipher| == 11
  {
    var u := User(s);
    assert u[|s.cipher|] == ':' && forall k :: 0 <= k < |s.cipher| ==> u[k] == s.cipher[k];
    assert forall k :: 0 <= k < |LONG_SCHEME| ==> u[k] == LONG_SCHEME[k];
    assert LONG_SCHEME[11] == ':' && forall k :: 0 <= k < 11 ==> LONG_SCHEME[k] != ':';
  }

  /** What the last step makes of the host part and name of an export. */
  lemma FinishExported(s: Server)
    requires Exportable(s) && s.name != [] && Lacks(s.address, "@#/?[]")
    ensures Finish(s.cipher, s.password, HostPort(s), Percent.Escape(s.name))
         == if ':' in s.address then Rejected else Parsed(s)
  {
    var h, port := HostPort(s), Itoa(s.port);
    hide Itoa, Atoi, Percent.Escape, Percent.Unescape;
    LacksMeans(s.address, "@#/?[]", '/');
    LacksMeans(s.address, "@#/?[]", '?');
    LacksMeans(s.address, "@#/?[]", '[');
    LacksMeans(s.address, "@#/?[]", ']');
    HostPortLacks(s, '/');
    HostPortLacks(s, '?');
    HostPortLacks(s, '[');
    HostPortLacks(s, ']');
    BeforeIs(h, '/', []);
    BeforeIs(h, '?', []);
    assert ':' !in port;
    LastIndexIs(s.address, ':', port);
    assert h[0] == s.address[0];
    assert h[..|s.address|] == s.address && h[|s.address| + 1..] == port;
    AtoiItoa(s.port);
    Percent.UnescapeEscape(s.name);
    Percent.EscapeIsGraphic(s.name);
  }

  lemma CleanRoundTrips(s: Server, entries: nat)
    requires Exportable(s) && Clean(s) && entries >= 2
    ensures Parse(Export(s), entries) == Parsed(s)
  {
    hide Parse, Export, Percent.Escape, HostPort, Lacks, Link;
    AddressLacks(s.address);
    ClearParts(s);
    FirstEntry(s, entries);
    ClearLinkParses(s, entries - 1);
  }

  /** In clear the link of a clean server needs no further entry. */
  lemma ClearLinkParses(s: Server, entries: nat)
    requires Exportable(s) && Clean(s) && entries >= 1
    ensures Parse(Link(User(s), HostPort(s), Percent.Escape(s.name)), entries) == Parsed(s)
  {
    hide Parse, Export, Finish, Percent.Escape, HostPort, Lacks;
    AddressLacks(s.address);
    ClearParts(s);
    LongSchemeUser(s);
    HostPortLacks(s, '@');
    HostPortLacks(s, '#');
    ClearEntry(User(s), HostPort(s), Percent.Escape(s.name), entries);
    FinishExported(s);
  }

  lemma AddressLacks(a: Bytes)
    ensures Lacks(a, ":@#/?[]") <==> Lacks(a, "@#/?[]") && ':' !in a
  {
    forall c: Byte ensures c in ":@#/?[]" <==> c == ':' || c in "@#/?[]" {}
  }

  /** The separators of the user part, for a method and password free of the link's own. */
  lemma ClearParts(s: Server)
    requires Lacks(s.cipher, ":#?") && Lacks(s.password, "#?") && Lacks(s.address, "@#/?[]")
    ensures '#' !in User(s) && '?' !in User(s) && ':' in User(s) && ':' !in s.cipher
    ensures '@' !in s.address && '#' !in s.address
    ensures var c := FirstIndex(User(s), ':'); User(s)[..c] == s.cipher && User(s)[c + 1..] == s.password
  {
    LacksMeans(s.cipher, ":#?", ':');
    LacksMeans(s.cipher, ":#?", '#');
    LacksMeans(s.cipher, ":#?", '?');
    LacksMeans(s.password, "#?", '#');
    LacksMeans(s.password, "#?", '?');
    LacksMeans(s.address, "@#/?[]", '@');
    LacksMeans(s.address, "@#/?[]", '#');
    FirstIndexIs(s.cipher, ':', s.password);
    assert User(s)[|s.cipher|] == ':';
  }

  // ---------------------------------------------------------------- which servers come back

  /** What every parsed server looks like, whatever the link was. */
  predicate ParsedShape(r: Server) {
    && Lacks(r.cipher, ":#?") && Lacks(r.password, "#?") && Lacks(r.address, "@#/?[]")
    && r.address != [] && r.name != []
  }

  lemma SplitHostPortLacks(h: Bytes)
    ensures var hp := SplitHostPort(h);
            hp.Some? ==> '[' !in hp.value.0 && ']' !in hp.value.0 && forall c :: c in hp.value.0 ==> c in h
  {
    var i := LastIndex(h, ':');
    if SplitHostPort(h).Some? {
      if h[0] == '[' {
        var end := FirstIndex(h, ']');
        assert forall k :: 0 <= k < end - 1 ==> h[1..end][k] == h[1..][k] == h[1 + k];
      } else {
        assert forall k :: 0 <= k < i ==> h[..i][k] == h[k];
      }
    }
  }

  lemma BeforeLacks(s: Bytes, c: Byte)
    ensures c !in Before(s, c) && |Before(s, c)| <= |s|
    ensures forall x :: x in Before(s, c) ==> x in s
  {
  }

  lemma FinishShape(cipher: Bytes, password: Bytes, hostPart: Bytes, name: Bytes)
    requires '@' !in hostPart && '#' !in hostPart
    ensures match Finish(cipher, password, hostPart, name)
            case Parsed(r) => r.cipher == cipher && r.password == password && r.name != [] && r.address != []
                              && Lacks(r.address, "@#/?[]")
            case _ => true
  {
    hide Before, SplitHostPort, Atoi, Percent.Unescape;
    var a := Before(hostPart, '/');
    var b := Before(a, '?');
    BeforeLacks(hostPart, '/');
    BeforeLacks(a, '?');
    SplitHostPortLacks(b);
    if name != [] && Percent.Unescape(name).Some? {
      Percent.UnescapeKeepsSomething(name);
    }
  }

  lemma FinishClearShape(user: Bytes, hostPart: Bytes, name: Bytes)
    requires '#' !in user && '?' !in user && '@' !in hostPart && '#' !in hostPart
    ensures match FinishClear(user, hostPart, name)
            case Parsed(r) => ParsedShape(r) && |r.cipher| + 1 + |r.password| == |user|
            case _ => true
  {
    hide Finish;
    var c := FirstIndex(user, ':');
    if c < |user| {
      FinishShape(user[..c], user[c + 1..], hostPart, name);
    }
  }

  /** How many characters the parser may still take as user part. */
  function UserRoom(link: Bytes): nat {
    var rest := Before(Body(link), '#');
    var at := LastIndex(rest, '@');
    if at >= 0 then at else |rest|
  }

  lemma RoomOfRest(d: Bytes, tail: Bytes)
    requires tail == [] || (tail[0] == '@' && '@' !in tail[1..] && '#' !in tail)
    ensures var rest := Before(d + tail, '#'); var at := LastIndex(rest, '@');
            (if at >= 0 then at else |rest|) <= |d|
  {
    var s := d + tail;
    var h := FirstIndex(s, '#');
    var rest := s[..h];
    var at := LastIndex(rest, '@');
    assert h < |s| ==> s[h] == '#';
    assert forall k :: |d| <= k < |s| ==> s[k] == tail[k - |d|];
    if h > |d| {
      assert h == |s| && rest == s;
      assert at == |d| by {
        assert tail == [tail[0]] + tail[1..];
        assert s == d + ['@'] + tail[1..];
        LastIndexIs(d, '@', tail[1..]);
      }
    }
  }

  lemma BeforeCut(a: Bytes, c: Byte, b: Bytes)
    ensures Before(a + [c] + b, c) == Before(a, c)
  {
    var s := a + [c] + b;
    var i := FirstIndex(s, c);
    assert s[|a|] == c;
    assert forall k :: 0 <= k < |a| ==> s[k] == a[k];
    assert i <= |a|;
    assert i == FirstIndex(a, c);
    assert s[..i] == a[..i];
  }

  lemma RoomOfLink(user: Bytes, host: Bytes, name: Bytes)
    requires '@' !in host && '#' !in host
    ensures UserRoom(Link(user, host, name)) <= |Stripped(user)| <= |user|
  {
    hide Body, Link, Before, LastIndex;
    var u := Stripped(user);
    BodyOfLink(user, host, name);
    var x := u + (['@'] + host);
    assert u + ['@'] + (host + ['#'] + name) == x + ['#'] + name;
    BeforeCut(x, '#', name);
    assert (['@'] + host)[1..] == host;
    RoomOfRest(u, ['@'] + host);
  }

  lemma RoomOfWhole(d: Bytes, name: Bytes)
    ensures UserRoom(SCHEME + (d + ['#'] + name)) <= |d|
  {
    hide Body, Before, LastIndex;
    var u := Stripped(d);
    BodyIs(d, '#', name);
    BeforeCut(u, '#', name);
    assert u + [] == u;
    RoomOfRest(u, []);
  }

  /** One entry keeps within a room of `room` characters. */
  predicate Fits(e: Entry, room: nat) {
    match e
    case Again(next) => UserRoom(next) <= room
    case Ends(Parsed(r)) => ParsedShape(r) && |r.cipher| + 1 + |r.password| <= room
    case _ => true
  }

  lemma EnterUserFits(user: Bytes, hostPart: Bytes, name: Bytes)
    requires '#' !in user && '?' !in user && '@' !in hostPart && '#' !in hostPart
    ensures Fits(EnterUser(user, hostPart, name), |user|)
  {
    hide FinishClear, ParsedShape, UserRoom, Link, Stripped, Base64.DecodeLenient;
    FinishClearShape(user, hostPart, name);
    Base64.DecodedIsShorter(user);
    var decoded := Base64.DecodeLenient(user);
    if decoded.Some? {
      RoomOfLink(decoded.value, hostPart, name);
    }
  }

  lemma EnterFits(link: Bytes)
    ensures Fits(Enter(link), UserRoom(link))
  {
    hide Body, Before, Behind, LastIndex, EnterUser, ParsedShape, Base64.DecodeLenient;
    var body := Body(link);
    var rest, name := Before(body, '#'), Behind(body, '#');
    BeforeLacks(body, '#');
    var at := LastIndex(rest, '@');
    if at >= 0 {
      BeforeLacks(rest[..at], '?');
      EnterUserFits(Before(rest[..at], '?'), rest[at + 1..], name);
    } else {
      Base64.DecodedIsShorter(rest);
      var decoded := Base64.DecodeLenient(rest);
      if decoded.Some? {
        RoomOfWhole(decoded.value, name);
      }
    }
  }

  /** Whatever a link parses to has the parsed shape and took its user part from the room there was. */
  lemma {:induction false} ParsedFits(link: Bytes, entries: nat)
    ensures match Parse(link, entries)
            case Parsed(r) => ParsedShape(r) && |r.cipher| + 1 + |r.password| <= UserRoom(link)
            case _ => true
    decreases entries
  {
    hide Enter, ParsedShape, UserRoom;
    EnterFits(link);
    if entries > 0 && Enter(link).Again? {
      ParsedFits(Enter(link).link, entries - 1);
    }
  }

  /** A re-entered export that comes back had no second scheme and no colon in its address. */
  lemma ReEntryNeedsClean(s: Server, entries: nat)
    requires Exportable(s) && ParsedShape(s)
    requires Parse(Link(User(s), HostPort(s), Percent.Escape(s.name)), entries) == Parsed(s)
    ensures Clean(s) && entries > 0
  {
    hide Parse, Link, Percent.Escape, HostPort, UserRoom, Finish, FinishClear, Lacks;
    var user, host, name := User(s), HostPort(s), Percent.Escape(s.name);
    NoEntries(Link(user, host, name));
    ClearParts(s);
    HostPortLacks(s, '@');
    HostPortLacks(s, '#');
    ParsedFits(Link(user, host, name), entries);
    RoomOfLink(user, host, name);
    LongSchemeUser(s);
    AddressLacks(s.address);
    ClearEntry(user, host, name, entries);
    FinishSplit(s);
    FinishExported(s);
  }

  lemma OnlyCleanRoundTrips(s: Server, entries: nat)
    requires Exportable(s) && Parse(Export(s), entries) == Parsed(s)
    ensures Clean(s) && entries >= 2
  {
    hide Parse, Export, Percent.Escape, HostPort, UserRoom, Lacks, Clean;
    NoEntries(Export(s));
    ParsedFits(Export(s), entries);
    ClearParts(s);
    FirstEntry(s, entries);
    ReEntryNeedsClean(s, entries - 1);
  }

  lemma NoEntries(link: Bytes)
    ensures Parse(link, 0) == Unfinished
  {
  }

  lemma FinishSplit(s: Server)
    requires ':' !in s.cipher && s.port >= 0 && IsBytes(s.name)
    ensures FinishClear(User(s), HostPort(s), Percent.Escape(s.name))
         == Finish(s.cipher, s.password, HostPort(s), Percent.Escape(s.name))
  {
    hide Finish, HostPort, Percent.Escape;
    FirstIndexIs(s.cipher, ':', s.password);
    assert User(s)[..|s.cipher|] == s.cipher && User(s)[|s.cipher| + 1..] == s.password;
  }

  /**
   * A server is either refused by the export, or its link parses back to the same server exactly when
   * the server is clean, and two entries of the parser then suffice.
   */
  lemma RoundTripExactly(s: Server, entries: nat)
    requires IsByteServer(s) && entries >= 2
    ensures match ExportLink(s)
            case None => !Exportable(s)
            case Some(link) => Exportable(s) && (Parse(link, entries) == Parsed(s) <==> Clean(s))
  {
    assert ExportLink(s) == if Exportable(s) then Some(Export(s)) else None;
    hide Parse, Export, Clean, ExportLink, Exportable;
    if Exportable(s) {
      ExportedRoundTrips(s, entries);
    }
  }

  lemma ExportedRoundTrips(s: Server, entries: nat)
    requires Exportable(s) && entries >= 2
    ensures Parse(Export(s), entries) == Parsed(s) <==> Clean(s)
  {
    hide Parse, Export, Clean;
    if Clean(s) {
      CleanRoundTrips(s, entries);
    }
    if Parse(Export(s), entries) == Parsed(s) {
      OnlyCleanRoundTrips(s, entries);
    }
  }

  /** The link of a server whose user part reads like a second scheme loses it on the way back. */
  lemma SecondSchemeIsLost(s: Server, entries: nat)
    requires Exportable(s) && s.cipher == "shadowsocks" && "//" <= s.password
    ensures Parse(Export(s), entries) != Parsed(s)
  {
    hide Parse, Export;
    if Parse(Export(s), entries) == Parsed(s) {
      OnlyCleanRoundTrips(s, entries);
    }
  }

  // ---------------------------------------------------------------- which links end

  /** Nothing stands before the name: the guard of the endless branch. */
  predicate HasEmptyBody(link: Bytes) { Before(Body(link), '#') == [] }

  lemma EnterUserShrinks(user: Bytes, hostPart: Bytes, name: Bytes)
    requires '@' !in hostPart && '#' !in hostPart
    ensures match EnterUser(user, hostPart, name)
            case Again(next) => UserRoom(next) < |user|
            case _ => true
  {
    hide FinishClear, UserRoom, Link, Stripped, Base64.DecodeLenient;
    Base64.DecodedIsShorter(user);
    var decoded := Base64.DecodeLenient(user);
    if decoded.Some? {
      RoomOfLink(decoded.value, hostPart, name);
    }
  }

  /** Unless the body is empty, a re-entered link has less room than the one before. */
  lemma EnterShrinks(link: Bytes)
    requires !HasEmptyBody(link)
    ensures match Enter(link)
            case Again(next) => UserRoom(next) < UserRoom(link)
            case _ => true
  {
    hide Body, Before, Behind, LastIndex, EnterUser, Base64.DecodeLenient;
    var body := Body(link);
    var rest, name := Before(body, '#'), Behind(body, '#');
    BeforeLacks(body, '#');
    var at := LastIndex(rest, '@');
    if at >= 0 {
      BeforeLacks(rest[..at], '?');
      EnterUserShrinks(Before(rest[..at], '?'), rest[at + 1..], name);
    } else {
      Base64.DecodedIsShorter(rest);
      var decoded := Base64.DecodeLenient(rest);
      if decoded.Some? {
        RoomOfWhole(decoded.value, name);
      }
    }
  }

  /** Some re-entry, the first or a later one, meets an empty body. */
  predicate RunsEmpty(link: Bytes)
    decreases UserRoom(link)
  {
    HasEmptyBody(link) ||
    match Enter(link)
    case Ends(_) => false
    case Again(next) => EnterShrinks(link); RunsEmpty(next)
  }

  lemma EmptyBodyReEnters(link: Bytes)
    requires HasEmptyBody(link)
    ensures Enter(link).Again? && HasEmptyBody(Enter(link).link)
  {
    hide Base64.DecodeLenient, Body, Before, Behind;
    EmptyDecodes();
    var name := Behind(Body(link), '#');
    BodyIs([], '#', name);
    assert Stripped([]) == [];
    BeforeIs([], '#', name);
    assert [] + ['#'] + name == ([] + ['#'] + name);
  }

  lemma EmptyDecodes()
    ensures Base64.DecodeLenient([]) == Some([]) && LastIndex([], '@') == -1
  {
  }

  /** An empty body decodes to itself: the parser re-enters for ever. */
  lemma {:induction false} EmptyBodyNeverFinishes(link: Bytes, entries: nat)
    requires HasEmptyBody(link)
    ensures Parse(link, entries) == Unfinished
    decreases entries
  {
    hide Enter, HasEmptyBody;
    if entries > 0 {
      EmptyBodyReEnters(link);
      EmptyBodyNeverFinishes(Enter(link).link, entries - 1);
    }
  }

  lemma {:induction false} RunsEmptyNeverFinishes(link: Bytes, entries: nat)
    requires RunsEmpty(link)
    ensures Parse(link, entries) == Unfinished
    decreases entries
  {
    hide Enter, HasEmptyBody, UserRoom;
    if HasEmptyBody(link) {
      EmptyBodyNeverFinishes(link, entries);
    } else if entries > 0 {
      RunsEmptyNeverFinishes(Enter(link).link, entries - 1);
    }
  }

  lemma ParseStep(link: Bytes, entries: nat)
    requires entries > 0
    ensures match Enter(link)
            case Ends(outcome) => Parse(link, entries) == outcome
            case Again(next) => Parse(link, entries) == Parse(next, entries - 1)
  {
    hide Enter;
  }

  lemma OthersStep(link: Bytes)
    requires !RunsEmpty(link)
    ensures match Enter(link)
            case Ends(outcome) => outcome != Unfinished
            case Again(next) => !RunsEmpty(next) && UserRoom(next) < UserRoom(link)
  {
    hide Enter, HasEmptyBody, UserRoom;
    EnterShrinks(link);
    EndsAreFinal(link);
  }

  lemma {:induction false} OthersFinish(link: Bytes, entries: nat)
    requires !RunsEmpty(link) && entries > UserRoom(link)
    ensures Parse(link, entries) != Unfinished
    decreases entries
  {
    hide *;
    OthersStep(link);
    ParseStep(link, entries);
    if Enter(link).Again? {
      OthersFinish(Enter(link).link, entries - 1);
    }
  }

  lemma EndsAreFinal(link: Bytes)
    ensures Enter(link).Ends? ==> Enter(link).outcome != Unfinished
  {
    hide Body, Before, Behind, LastIndex, FirstIndex, Base64.DecodeLenient, SplitHostPort, Atoi, Percent.Unescape;
  }

  /**
   * The parser returns on a link if and only if no re-entry meets an empty body, and then within one
   * entry more than the characters its user part has room for.
   */
  lemma ParserReturnsExactly(link: Bytes)
    ensures (exists entries :: Parse(link, entries) != Unfinished) <==> !RunsEmpty(link)
    ensures !RunsEmpty(link) ==> Parse(link, UserRoom(link) + 1) != Unfinished
  {
    hide Parse, RunsEmpty, UserRoom;
    if RunsEmpty(link) {
      forall entries ensures Parse(link, entries) == Unfinished {
        RunsEmptyNeverFinishes(link, entries);
      }
    } else {
      OthersFinish(link, UserRoom(link) + 1);
    }
  }

  // ---------------------------------------------------------------- which exports end

  /** The host part as the parser sees it, and what it takes for the name: an address may hold a `#`. */
  function HostSeen(s: Server): Bytes
    requires s.port >= 0
  {
    Before(HostPort(s), '#')
  }

  function NameSeen(s: Server): Bytes
    requires s.port >= 0 && IsBytes(s.name)
  {
    Behind(HostPort(s) + ['#'] + Percent.Escape(s.name), '#')
  }

  /** A text cut at a separator: the part before the first one, and all behind it. */
  lemma CutText(h: Bytes, c: Byte, n: Bytes)
    ensures h + [c] + n == Before(h, c) + [c] + Behind(h + [c] + n, c) && c !in Before(h, c)
  {
    var t := h + [c] + n;
    var i := FirstIndex(h, c);
    BeforeCut(h, c, n);
    assert t[|h|] == c;
    var j := FirstIndex(t, c);
    assert t[..j] == h[..i];
    assert j == i && t[j] == c;
    assert t == t[..j] + [t[j]] + t[j + 1..];
  }

  /** The canonical link, with the host part and name the parser finds. */
  lemma ExportSeen(s: Server)
    requires Exportable(s)
    ensures Export(s) == Link(Base64.Encode(User(s), true), HostSeen(s), NameSeen(s)) && '#' !in HostSeen(s)
  {
    hide Base64.Encode, Percent.Escape, HostPort, Before, Behind;
    CutText(HostPort(s), '#', Percent.Escape(s.name));
  }

  /** A user part with an `@` in it is not encoded text. */
  lemma AtEnds(user: Bytes, rest: Bytes, hostPart: Bytes, name: Bytes)
    requires '?' !in user
    ensures EnterUser(Before(user + ['@'] + rest, '?'), hostPart, name).Ends?
  {
    var u := Before(user + ['@'] + rest, '?');
    assert (user + ['@'] + rest)[|user|] == '@';
    assert forall k :: 0 <= k <= |user| ==> (user + ['@'] + rest)[k] != '?';
    assert u[|user|] == '@';
    hide Before, FinishClear, Base64.DecodeLenient;
    ColonIsForeign();
    Base64.ForeignFails(u, '@');
  }

  /** The first entry on an export: over at once with an `@` in the host part, otherwise re-entered in clear. */
  lemma FirstEntryExactly(s: Server)
    requires Exportable(s)
    ensures if '@' in HostSeen(s) then Enter(Export(s)).Ends?
            else Enter(Export(s)) == Again(Link(User(s), HostSeen(s), NameSeen(s)))
    ensures !HasEmptyBody(Export(s))
  {
    ExportSeen(s);
    EncodedUser(s);
    hide Base64.Encode, Enter, Link, Export, HostSeen, NameSeen, Stripped, HasEmptyBody;
    var user, host, name := Base64.Encode(User(s), true), HostSeen(s), NameSeen(s);
    if '@' !in host {
      Base64.DecodeLenientEncode(User(s));
      assert User(s)[|s.cipher|] == ':';
      PlainHost(user, host, name, User(s));
    } else {
      AtHost(user, host, name);
    }
  }

  lemma PlainHost(user: Bytes, host: Bytes, name: Bytes, decoded: Bytes)
    requires '#' !in Stripped(user) && '?' !in Stripped(user) && '#' !in host && '@' !in host
    requires Base64.DecodeLenient(Stripped(user)) == Some(decoded) && ':' in decoded
    ensures Enter(Link(user, host, name)) == Again(Link(decoded, host, name)) && !HasEmptyBody(Link(user, host, name))
  {
    hide Body, Link, Before, Behind, LastIndex, Base64.DecodeLenient, Stripped, FinishClear;
    PartsOfLink(user, host, name);
    BeforeIs(Stripped(user), '?', []);
  }

  lemma AtHost(user: Bytes, host: Bytes, name: Bytes)
    requires '#' !in Stripped(user) && '?' !in Stripped(user) && '#' !in host && '@' in host
    ensures Enter(Link(user, host, name)).Ends? && !HasEmptyBody(Link(user, host, name))
  {
    hide Body, Link, Before, Behind, Stripped, EnterUser, Base64.DecodeLenient;
    var u := Stripped(user);
    BodyOfLink(user, host, name);
    var rest := u + ['@'] + host;
    assert u + ['@'] + (host + ['#'] + name) == rest + ['#'] + name;
    BeforeIs(rest, '#', name);
    var j := LastIndex(host, '@');
    assert host == host[..j] + ['@'] + host[j + 1..];
    assert rest == (u + ['@'] + host[..j]) + ['@'] + host[j + 1..];
    LastIndexIs(u + ['@'] + host[..j], '@', host[j + 1..]);
    var at := LastIndex(rest, '@');
    assert rest[..at] == u + ['@'] + host[..j];
    AtEnds(u, host[..j], rest[at + 1..], Behind(Body(Link(user, host, name)), '#'));
  }

  /** An export diverges if and only if its host part has no `@` and the link in clear runs empty. */
  lemma ExportReturnsExactly(s: Server)
    requires Exportable(s)
    ensures (exists entries :: Parse(Export(s), entries) != Unfinished)
            <==> '@' in HostSeen(s) || !RunsEmpty(Link(User(s), HostSeen(s), NameSeen(s)))
  {
    ParserReturnsExactly(Export(s));
    FirstEntryExactly(s);
    hide Parse, Export, Enter, HasEmptyBody, Link, HostSeen, NameSeen;
  }

  lemma PortIsThere(s: Server)
    requires Exportable(s)
    ensures s.port >= 0 && IsByteServer(s) && IsBytes(s.name)
  {
  }

  /** Whatever the address and name: two entries end the parsing when nothing in the user part is special. */
  lemma PlainExportsEnd(s: Server, entries: nat)
    requires Exportable(s) && entries >= 2
    requires Lacks(s.cipher, "#?") && Lacks(s.password, "#?") && !(LONG_SCHEME <= User(s))
    ensures Parse(Export(s), entries) != Unfinished
  {
    hide *;
    PortIsThere(s);
    FirstEntryExactly(s);
    PlainUser(s);
    ExportSeen(s);
    PlainInClear(s, Export(s), entries);
  }

  lemma PlainInClear(s: Server, link: Bytes, entries: nat)
    requires s.port >= 0 && IsBytes(s.name) && entries >= 2 && '#' !in HostSeen(s)
    requires '#' !in User(s) && '?' !in User(s) && ':' in User(s) && !(LONG_SCHEME <= User(s))
    requires if '@' in HostSeen(s) then Enter(link).Ends?
             else Enter(link) == Again(Link(User(s), HostSeen(s), NameSeen(s)))
    ensures Parse(link, entries) != Unfinished
  {
    hide *;
    EndsAreFinal(link);
    ParseStep(link, entries);
    if '@' !in HostSeen(s) {
      ClearEntry(User(s), HostSeen(s), NameSeen(s), entries - 1);
      FinishClearEnds(User(s), HostSeen(s), NameSeen(s));
    }
  }

  lemma PlainUser(s: Server)
    requires Lacks(s.cipher, "#?") && Lacks(s.password, "#?")
    ensures '#' !in User(s) && '?' !in User(s) && ':' in User(s)
  {
    LacksMeans(s.cipher, "#?", '#');
    LacksMeans(s.cipher, "#?", '?');
    LacksMeans(s.password, "#?", '#');
    LacksMeans(s.password, "#?", '?');
    assert User(s)[|s.cipher|] == ':';
  }

  lemma FinishClearEnds(user: Bytes, host: Bytes, name: Bytes)
    ensures FinishClear(user, host, name) != Unfinished
  {
    hide FirstIndex, SplitHostPort, Before, Atoi, Percent.Unescape;
  }

  /** The link in clear is empty at once exactly when its user part, once stripped, starts with a `#`. */
  lemma ClearLinkIsEmpty(user: Bytes, host: Bytes, name: Bytes)
    ensures HasEmptyBody(Link(user, host, name)) <==> "#" <= Stripped(user)
  {
    BodyOfLink(user, host, name);
    hide Body, Link, Stripped;
    var body := Stripped(user) + ['@'] + (host + ['#'] + name);
    assert body[|Stripped(user)|] == '@';
  }

  lemma HashUser(s: Server)
    requires "#" <= s.cipher
    ensures "#" <= Stripped(User(s))
  {
    assert User(s)[0] == '#' && !(LONG_SCHEME <= User(s));
  }

  /** So the export of a server whose method starts with a `#` sends the parser round for ever. */
  lemma HashMethodNeverFinishes(s: Server, entries: nat)
    requires Exportable(s) && "#" <= s.cipher && '@' !in HostSeen(s)
    ensures Parse(Export(s), entries) == Unfinished
  {
    hide *;
    PortIsThere(s);
    HashUser(s);
    FirstEntryExactly(s);
    EmptyInClear(s, Export(s), entries);
  }

  /** A link that re-enters as an empty one never ends either. */
  lemma EmptyInClear(s: Server, link: Bytes, entries: nat)
    requires s.port >= 0 && IsBytes(s.name) && "#" <= Stripped(User(s))
    requires Enter(link) == Again(Link(User(s), HostSeen(s), NameSeen(s)))
    ensures Parse(link, entries) == Unfinished
  {
    hide *;
    var next := Link(User(s), HostSeen(s), NameSeen(s));
    ClearLinkIsEmpty(User(s), HostSeen(s), NameSeen(s));
    if entries == 0 {
      NoEntries(link);
    } else {
      ParseStep(link, entries);
      EmptyBodyNeverFinishes(next, entries - 1);
    }
  }

  // ---------------------------------------------------------------- the other shapes of link

  /** The older shape, with everything but the name in one piece of base64. */
  function WholeLink(plain: Bytes, name: Bytes): Bytes
    requires IsBytes(plain)
  {
    SCHEME + (Base64.Encode(plain, true) + ['#'] + name)
  }

  /** Encoded text has none of the link's separators, and does not read like a second scheme. */
  lemma EncodedText(b: Bytes)
    requires IsBytes(b)
    ensures var t := Base64.Encode(b, true); '#' !in t && '@' !in t && Stripped(t) == t
  {
    var t := Base64.Encode(b, true);
    Base64.EncodeShape(b, true);
    hide Base64.Encode;
    assert LONG_SCHEME[11] == ':';
    assert !Base64.IsAlphabet(':', true) && !Base64.IsAlphabet('#', true) && !Base64.IsAlphabet('@', true);
  }

  lemma NoLastIndex(s: Bytes, c: Byte)
    requires c !in s
    ensures LastIndex(s, c) == -1
  {
  }

  /** The parser decodes the whole and re-enters with it in clear. */
  lemma WholeEntry(plain: Bytes, name: Bytes)
    requires IsBytes(plain)
    ensures Enter(WholeLink(plain, name)) == Again(SCHEME + (plain + ['#'] + name))
  {
    EncodedText(plain);
    Base64.DecodeLenientEncode(plain);
    var t := Base64.Encode(plain, true);
    assert WholeLink(plain, name) == SCHEME + (t + ['#'] + name);
    hide Body, Stripped, Before, Behind, LastIndex, Base64.Encode, Base64.DecodeLenient, EnterUser, IsBytes, WholeLink;
    BodyIs(t, '#', name);
    BeforeIs(t, '#', name);
    BehindIs(t, '#', name);
    NoLastIndex(t, '@');
  }

  lemma SameLink(user: Bytes, host: Bytes, name: Bytes)
    ensures SCHEME + (user + ['@'] + host + ['#'] + name) == Link(user, host, name)
  {
    assert user + ['@'] + host + ['#'] + name == user + ['@'] + (host + ['#'] + name);
  }

  function PlainText(s: Server): Bytes
    requires s.port >= 0
  {
    User(s) + ['@'] + HostPort(s)
  }

  lemma PlainIsBytes(s: Server)
    requires IsByteServer(s) && IsBytes(s.address) && s.port >= 0
    ensures IsBytes(PlainText(s))
  {
    hide Itoa;
    var port := Itoa(s.port);
    forall k | 0 <= k < |port| ensures IsByte(port[k]) {
      assert IsDigit(port[k]);
    }
  }

  /** A clean server comes back from the older shape as well, after one re-entry. */
  lemma WholeLinkParses(s: Server, entries: nat)
    requires Exportable(s) && IsBytes(s.address) && Clean(s) && entries >= 2
    ensures IsBytes(PlainText(s)) && Parse(WholeLink(PlainText(s), Percent.Escape(s.name)), entries) == Parsed(s)
  {
    hide *;
    PortIsThere(s);
    PlainIsBytes(s);
    WholeParsesAs(s, Percent.Escape(s.name), entries);
    ClearLinkParses(s, entries - 1);
  }

  lemma WholeParsesAs(s: Server, name: Bytes, entries: nat)
    requires s.port >= 0 && IsBytes(PlainText(s)) && entries > 0
    ensures Parse(WholeLink(PlainText(s), name), entries) == Parse(Link(User(s), HostPort(s), name), entries - 1)
  {
    hide *;
    WholeEntry(PlainText(s), name);
    PlainIs(s, name);
    ReEnters(WholeLink(PlainText(s), name), Link(User(s), HostPort(s), name), entries);
  }

  lemma PlainIs(s: Server, name: Bytes)
    requires s.port >= 0
    ensures SCHEME + (PlainText(s) + ['#'] + name) == Link(User(s), HostPort(s), name)
  {
    hide User, HostPort, Link;
    SameLink(User(s), HostPort(s), name);
  }

  lemma ReEnters(link: Bytes, next: Bytes, entries: nat)
    requires Enter(link) == Again(next) && entries > 0
    ensures Parse(link, entries) == Parse(next, entries - 1)
  {
    hide Enter;
  }

  /** An IPv6 address is exported without brackets, and such a link is refused. */
  lemma ColonAddressIsRefused(s: Server, entries: nat)
    requires Exportable(s) && s.name != [] && entries >= 2 && ':' in s.address && Lacks(s.address, "@#/?[]")
    requires Lacks(s.cipher, ":#?") && Lacks(s.password, "#?") && !(LONG_SCHEME <= User(s))
    ensures Parse(Export(s), entries) == Rejected
  {
    hide Parse, Export, Finish, Percent.Escape, HostPort, Lacks;
    ClearParts(s);
    FirstEntry(s, entries);
    HostPortLacks(s, '@');
    HostPortLacks(s, '#');
    ClearEntry(User(s), HostPort(s), Percent.Escape(s.name), entries - 1);
    FinishExported(s);
  }

  function Bracketed(s: Server): Bytes
    requires s.port >= 0
  {
    "[" + s.address + "]:" + Itoa(s.port)
  }

  lemma BracketsFound(address: Bytes, port: Bytes)
    requires '[' !in address && ']' !in address && ':' !in port && '[' !in port && ']' !in port
    ensures SplitHostPort("[" + address + "]:" + port) == Some((address, port))
  {
    var h := "[" + address + "]:" + port;
    BracketsAt(address, port);
    BracketParts(address, port);
    hide FirstIndex, LastIndex;
  }

  lemma BracketsAt(address: Bytes, port: Bytes)
    requires ']' !in address && ':' !in port
    ensures var h := "[" + address + "]:" + port;
            FirstIndex(h, ']') == |address| + 1 && LastIndex(h, ':') == |address| + 2
  {
    var open, closed := "[" + address, "[" + address + "]";
    var h := "[" + address + "]:" + port;
    hide FirstIndex, LastIndex;
    assert h == open + [']'] + (":" + port);
    assert h == closed + [':'] + port;
    FirstIndexIs(open, ']', ":" + port);
    LastIndexIs(closed, ':', port);
  }

  lemma BracketParts(address: Bytes, port: Bytes)
    requires '[' !in address && ']' !in address && '[' !in port && ']' !in port
    ensures var h := "[" + address + "]:" + port;
            && h[0] == '[' && h[1..|address| + 1] == address && h[|address| + 3..] == port
            && '[' !in h[1..] && ']' !in h[|address| + 2..]
  {
    var h := "[" + address + "]:" + port;
    assert h[1..] == address + "]:" + port;
    assert h[|address| + 2..] == ":" + port;
    assert h[|address| + 3..] == port;
  }

  /** In brackets it is accepted, and comes back without them. */
  lemma BracketedSplits(s: Server)
    requires s.port >= 0 && Lacks(s.address, "@#/?[]")
    ensures SplitHostPort(Bracketed(s)) == Some((s.address, Itoa(s.port)))
  {
    hide Itoa, SplitHostPort;
    LacksMeans(s.address, "@#/?[]", '[');
    LacksMeans(s.address, "@#/?[]", ']');
    BracketsFound(s.address, Itoa(s.port));
  }

  /** A server whose host part stands in brackets. */
  lemma BracketedParses(s: Server, entries: nat)
    requires Exportable(s) && s.name != [] && entries >= 1 && Lacks(s.address, "@#/?[]")
    requires Lacks(s.cipher, ":#?") && Lacks(s.password, "#?") && !(LONG_SCHEME <= User(s))
    ensures Parse(Link(User(s), Bracketed(s), Percent.Escape(s.name)), entries) == Parsed(s)
  {
    ClearParts(s);
    BracketedLacks(s);
    BracketedSplits(s);
    var h, name := Bracketed(s), Percent.Escape(s.name);
    BeforeIs(h, '/', []);
    BeforeIs(h, '?', []);
    AtoiItoa(s.port);
    Percent.UnescapeEscape(s.name);
    Percent.EscapeIsGraphic(s.name);
    hide Parse, Bracketed, Lacks, SplitHostPort, Percent.Escape, Percent.Unescape, Itoa, Atoi, Link, Before;
    ClearEntry(User(s), h, name, entries);
  }

  lemma BracketedLacks(s: Server)
    requires s.port >= 0 && Lacks(s.address, "@#/?[]")
    ensures var h := Bracketed(s); '@' !in h && '#' !in h && '/' !in h && '?' !in h && h != []
  {
    hide Itoa;
    LacksMeans(s.address, "@#/?[]", '@');
    LacksMeans(s.address, "@#/?[]", '#');
    LacksMeans(s.address, "@#/?[]", '/');
    LacksMeans(s.address, "@#/?[]", '?');
  }

  /** Which servers have a link at all. */
  lemma ExportedExactly(s: Server)
    requires IsByteServer(s)
    ensures ExportLink(s).Some? <==>
              s.address != [] && 1 <= s.port <= 65_535 && s.cipher != [] && s.password != []
  {
    hide Export;
  }

  /** A link without a name shows the host; one whose name does not unescape shows it as it stands. */
  lemma NameIsShown(cipher: Bytes, password: Bytes, hostPart: Bytes, name: Bytes)
    ensures match Finish(cipher, password, hostPart, name)
            case Parsed(s) =>
              && s.cipher == cipher && s.password == password
              && s.name == (if name == [] then s.address
                            else if Percent.Unescape(name).Some? then Percent.Unescape(name).value else name)
            case _ => true
  {
    hide SplitHostPort, Atoi, Percent.Unescape, Before;
  }

  /** What stands behind a slash or a question mark of the host part, the plugin's options, is left out. */
  lemma OptionsAreCut(cipher: Bytes, password: Bytes, hostPart: Bytes, options: Bytes, name: Bytes)
    requires hostPart != [] && '/' !in hostPart && '?' !in hostPart
    ensures Finish(cipher, password, hostPart + ['/'] + options, name) == Finish(cipher, password, hostPart, name)
    ensures Finish(cipher, password, hostPart + ['?'] + options, name) == Finish(cipher, password, hostPart, name)
  {
    hide SplitHostPort, Atoi, Percent.Unescape, Before;
    BeforeIs(hostPart, '/', options);
    BeforeIs(hostPart, '?', options);
    BeforeQuestion(hostPart, options);
  }

  lemma BeforeQuestion(hostPart: Bytes, options: Bytes)
    requires '/' !in hostPart && '?' !in hostPart
    ensures Before(Before(hostPart + ['?'] + options, '/'), '?') == hostPart
  {
    var text := hostPart + ['?'] + options;
    var i := FirstIndex(text, '/');
    SlashComesLater(hostPart, options);
    assert text[..i] == hostPart + ['?'] + text[|hostPart| + 1..i];
    BeforeIs(hostPart, '?', text[|hostPart| + 1..i]);
  }

  lemma SlashComesLater(hostPart: Bytes, options: Bytes)
    requires '/' !in hostPart
    ensures FirstIndex(hostPart + ['?'] + options, '/') > |hostPart|
  {
    var text := hostPart + ['?'] + options;
    assert forall k :: 0 <= k < |hostPart| ==> text[k] == hostPart[k];
    assert text[|hostPart|] == '?';
  }
}
