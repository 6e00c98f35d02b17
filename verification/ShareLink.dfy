/** Shadowsocks share links: building one from an outbound (v2ray/napsternet.py), parsing it
    (v2ray/store.py) and turning it back into an outbound (v2ray/xray.py). The parts of
    `urlparse` that these use are written out; texts are taken as `str.lower` and `str.strip`
    treat them, lower-casing in ASCII.  */
module ShareLink {
  import opened Wrappers
  import opened Text
  import Base64

  datatype Outbound = Outbound(address: string, port: int, cipher: string, password: string, tag: string)

  // ---- small text functions -------------------------------------------------------------------

  /** Where the first of some characters stands. */
  function FindAny(s: string, cs: set<char>): (i: nat)
    ensures i <= |s|
  {
    if s == [] then 0 else if s[0] in cs then 0 else 1 + FindAny(s[1..], cs)
  }

  /** What follows the last occurrence of a character, and what precedes it. */
  function SplitLast(s: string, c: char): (string, string)
    decreases |s|
  {
    if s == [] then ("", "")
    else
      var n := |s| - 1;
      if s[n] == c then (s[..n], "")
      else
        var (before, after) := SplitLast(s[..n], c);
        (before, after + [s[n]])
  }

  lemma {:induction false} FindOne(a: string, c: char, b: string)
    requires c !in a
    ensures Find(a + [c] + b, c) == |a| && Find(a, c) == |a|
  {
    if a != [] {
      assert (a + [c] + b)[1..] == a[1..] + [c] + b;
      FindOne(a[1..], c, b);
    }
  }

  lemma {:induction false} FindAnyOne(a: string, cs: set<char>, c: char, b: string)
    requires (forall i | 0 <= i < |a| :: a[i] !in cs) && c in cs
    ensures FindAny(a + [c] + b, cs) == |a|
  {
    if a != [] {
      assert (a + [c] + b)[1..] == a[1..] + [c] + b;
      FindAnyOne(a[1..], cs, c, b);
    }
  }

  lemma {:induction false} SplitLastOne(a: string, c: char, b: string)
    requires c !in b
    ensures SplitLast(a + [c] + b, c) == (a, b)
    decreases |b|
  {
    var s := a + [c] + b;
    if b == [] {
      assert s[..|s| - 1] == a;
    } else {
      var n := |b| - 1;
      SplitLastOne(a, c, b[..n]);
      assert s[..|s| - 1] == a + [c] + b[..n];
      assert s[|s| - 1] == b[n] && b == b[..n] + [b[n]];
    }
  }

  // ---- building -------------------------------------------------------------------------------

  function Signed(n: int): string { if n < 0 then "-" + Decimal(-n) else Decimal(n) }

  function UserInfo(cipher: string, password: string): string {
    Base64.Encode(Base64.EncodeText(cipher + ":" + password))
  }

  /** The Shadowsocks branch of `_uri_link_from_outbound`. */
  function BuildLink(o: Outbound): Option<string> {
    var host, cipher, password := Strip(o.address), Strip(o.cipher), Strip(o.password);
    if host == "" || cipher == "" || password == "" then None
    else Some("ss://" + UserInfo(cipher, password) + "@" + host + ":" + Signed(o.port) + "#" + o.tag)
  }

  // ---- parsing --------------------------------------------------------------------------------

  const TRAILING := {')', '.', ',', '>', ';', '\'', ']', '"', '`', '}'}

  function TrimEnd(s: string): string {
    if s != [] && s[|s| - 1] in TRAILING then TrimEnd(s[..|s| - 1]) else s
  }

  /** `_trim_link`. */
  function TrimLink(s: string): string { TrimEnd(Strip(s)) }

  /** The text between `//` and the path, query or fragment. */
  function Netloc(raw: string): string
    requires |raw| >= 5
  {
    raw[5..][..FindAny(raw[5..], {'/', '?', '#'})]
  }

  /** `username`, `password`, `hostname` and `port` of a network location; Malformed where reading
      them raises. */
  datatype Authority = Authority(username: string, password: string, host: string, port: Option<nat>) | Malformed

  function After(s: string, i: nat): string { if i < |s| then s[i + 1..] else "" }

  function HostName(h: string): string { Lower(h[..Find(h, '%')]) + h[Find(h, '%')..] }

  /** Host and port text of what follows the user information. */
  function HostInfo(s: string): (string, string) {
    var open := Find(s, '[');
    if open < |s| then
      var inner := After(s, open);
      var close := Find(inner, ']');
      var rest := After(inner, close);
      (inner[..close], After(rest, Find(rest, ':')))
    else (s[..Find(s, ':')], After(s, Find(s, ':')))
  }

  function SplitNetloc(netloc: string): Authority {
    if ('[' in netloc) != (']' in netloc) then Malformed
    else
      var (user, hostinfo) := if '@' in netloc then SplitLast(netloc, '@') else ("", netloc);
      var (host, port) := HostInfo(hostinfo);
      var username, password := user[..Find(user, ':')], After(user, Find(user, ':'));
      if port == "" then Authority(username, password, HostName(host), None)
      else if !AllDigits(port) || Value(port) > 65535 then Malformed
      else Authority(username, password, HostName(host), Some(Value(port)))
  }

  datatype Server = Server(link: string, host: string, port: nat)

  /** What `parse_ss` makes of a link. The legacy form is not part of this model. */
  datatype Parsed = Sip002(server: Server) | Rejected | LegacyForm

  function ParseSs(link: string): Parsed {
    var raw := TrimLink(link);
    if |raw| < 5 || Lower(raw[..5]) != "ss://" then Rejected
    else
      var a := SplitNetloc(Netloc(raw));
      if a.Malformed? then Rejected
      else if a.host != "" && a.port.Some? && a.port.value > 0 then Sip002(Server(raw, Lower(a.host), a.port.value))
      else LegacyForm
  }

  // ---- back to an outbound --------------------------------------------------------------------

  const METHODS := {"aes-128-gcm", "aes-256-gcm", "chacha20-poly1305", "chacha20-ietf-poly1305", "xchacha20-poly1305"}

  datatype Made = Made(address: string, port: nat, cipher: string, password: string) | NotMade | Unmodelled

  /** `_decode_ss_userinfo`, for user information without percent escapes. */
  function DecodeUserInfo(userinfo: string): Option<(string, string)> {
    var text :=
      if ':' in userinfo then Some(userinfo)
      else
        var bytes := Base64.Decode(Strip(userinfo));
        if bytes.None? then None else Base64.DecodeText(bytes.value);
    if text.None? || ':' !in text.value then None
    else
      var i := Find(text.value, ':');
      Some((text.value[..i], text.value[i + 1..]))
  }

  /** `_outbound_ss` of a parsed SIP002 link. */
  function OutboundOf(s: Server): Made {
    if |s.link| < 5 then Unmodelled
    else
      var a := SplitNetloc(Netloc(s.link));
      if a.Malformed? || a.host == "" || a.port.None? || a.port.value == 0 then Unmodelled
      else
        var userinfo := if a.password == "" then a.username else a.username + ":" + a.password;
        if '%' in userinfo then Unmodelled
        else
          var parts := DecodeUserInfo(userinfo);
          if parts.None? then NotMade
          else
            var cipher := Lower(Strip(parts.value.0));
            if cipher !in METHODS || parts.value.1 == "" then NotMade
            else Made(a.host, a.port.value, cipher, parts.value.1)
  }

  // ---- the round trip -------------------------------------------------------------------------

  /** Printable ASCII without the characters that delimit the parts of a link, but for the colon. */
  predicate Plain(host: string) {
    host != "" && forall i | 0 <= i < |host| :: '!' <= host[i] <= '~' && host[i] !in {'/', '?', '#', '@', '[', ']', '%'}
  }

  lemma {:induction false} StripRightKeeps(base: string, tail: string)
    requires base != "" && !IsBlank(base[|base| - 1])
    ensures base <= StripRight(base + tail)
    decreases |tail|
  {
    var s := base + tail;
    if tail == "" {
      assert s == base;
    } else if IsBlank(s[|s| - 1]) {
      assert s[..|s| - 1] == base + tail[..|tail| - 1];
      StripRightKeeps(base, tail[..|tail| - 1]);
    }
  }

  lemma {:induction false} TrimEndKeeps(base: string, tail: string)
    requires base != "" && base[|base| - 1] !in TRAILING
    ensures base <= TrimEnd(base + tail)
    decreases |tail|
  {
    var s := base + tail;
    if tail == "" {
      assert s == base;
    } else if s[|s| - 1] in TRAILING {
      assert s[..|s| - 1] == base + tail[..|tail| - 1];
      TrimEndKeeps(base, tail[..|tail| - 1]);
    }
  }

  /** Trimming eats at most the tag. */
  lemma TrimKeeps(base: string, tag: string)
    requires base != "" && !IsBlank(base[0]) && base[|base| - 1] == '#'
    ensures base <= TrimLink(base + tag)
  {
    assert StripLeft(base + tag) == base + tag;
    StripRightKeeps(base, tag);
    var s := StripRight(base + tag);
    assert s == base + s[|base|..];
    TrimEndKeeps(base, s[|base|..]);
  }

  /** The network location of the links built here. */
  function Location(user: string, host: string, port: string): string { user + "@" + host + ":" + port }

  ghost predicate SafeUser(user: string) { Base64.AllSafe(user) }

  lemma NetlocOf(raw: string, user: string, host: string, port: string)
    requires SafeUser(user) && Plain(host) && AllDigits(port)
    requires "ss://" + Location(user, host, port) + "#" <= raw
    ensures Netloc(raw) == Location(user, host, port)
  {
    var loc := Location(user, host, port);
    var rest := raw[|"ss://" + loc + "#"|..];
    assert raw == "ss://" + loc + "#" + rest;
    assert raw[5..] == loc + ['#'] + rest;
    FindAnyOne(loc, {'/', '?', '#'}, '#', rest);
  }

  lemma {:induction false} NotFound(s: string, c: char)
    requires c !in s
    ensures Find(s, c) == |s|
  {
  }

  lemma {:induction false} FirstColon(host: string, port: string)
    ensures Find(host + ":" + port, ':') == Find(host, ':')
  {
    if host != "" && host[0] != ':' {
      assert (host + ":" + port)[1..] == host[1..] + ":" + port;
      FirstColon(host[1..], port);
    }
  }

  lemma UserPart(user: string, host: string, port: string)
    requires SafeUser(user) && Plain(host) && AllDigits(port)
    ensures var loc := Location(user, host, port);
      '[' !in loc && ']' !in loc && '@' in loc && SplitLast(loc, '@') == (user, host + ":" + port)
  {
    SplitLastOne(user, '@', host + ":" + port);
    assert Location(user, host, port) == user + ['@'] + (host + ":" + port);
    assert Location(user, host, port)[|user|] == '@';
  }

  lemma HostPart(host: string, port: string)
    requires Plain(host) && AllDigits(port)
    ensures ':' !in host ==> HostInfo(host + ":" + port) == (host, port)
    ensures ':' in host ==> ':' in HostInfo(host + ":" + port).1
  {
    var s := host + ":" + port;
    NotFound(s, '[');
    FirstColon(host, port);
    var i := Find(host, ':');
    if ':' in host {
      assert After(s, i) == host[i + 1..] + ":" + port;
      assert After(s, i)[|host| - i - 1] == ':';
    } else {
      NotFound(host, ':');
      assert s[..|host|] == host && After(s, |host|) == port;
    }
  }

  /** Reading the authority of a built link. */
  lemma ReadAuthority(user: string, host: string, port: nat)
    requires SafeUser(user) && Plain(host) && port <= 65535
    ensures ':' !in host ==>
      SplitNetloc(Location(user, host, Decimal(port))) == Authority(user, "", Lower(host), Some(port))
    ensures ':' in host ==> SplitNetloc(Location(user, host, Decimal(port))) == Malformed
  {
    DecimalRoundTrip(port);
    UserPart(user, host, Decimal(port));
    HostPart(host, Decimal(port));
    NotFound(user, ':');
    NotFound(host, '%');
    if ':' in host {
      var text := HostInfo(host + ":" + Decimal(port)).1;
      var i :| 0 <= i < |text| && text[i] == ':';
      assert !IsDigit(text[i]);
    } else {
      assert host[..|host|] == host && HostName(host) == Lower(host) + host[|host|..];
    }
  }

  lemma FirstColonSplits(cipher: string, password: string)
    requires ':' !in cipher
    ensures var text := cipher + ":" + password; var i := Find(text, ':');
      ':' in text && i < |text| && text[..i] == cipher && text[i + 1..] == password
  {
    var text := cipher + ":" + password;
    FindOne(cipher, ':', password);
    assert text == cipher + [':'] + password;
    assert text[|cipher|] == ':';
  }

  lemma UserInfoIsSafe(cipher: string, password: string)
    ensures SafeUser(UserInfo(cipher, password)) && UserInfo(cipher, password) != ""
    ensures ':' !in UserInfo(cipher, password) && Strip(UserInfo(cipher, password)) == UserInfo(cipher, password)
  {
    var bytes := Base64.EncodeText(cipher + ":" + password);
    Base64.EncodeIsSafe(bytes);
    assert |bytes| > 0;
    Base64.EncodeNotEmpty(bytes);
    StrippedIsFixed(UserInfo(cipher, password));
  }

  lemma UserInfoDecodes(cipher: string, password: string)
    ensures var bytes := Base64.Decode(UserInfo(cipher, password));
      bytes.Some? && Base64.DecodeText(bytes.value) == Some(cipher + ":" + password)
  {
    Base64.TextRoundTrip(cipher + ":" + password);
    Base64.BytesRoundTrip(Base64.EncodeText(cipher + ":" + password));
  }

  /** The user information of a built link gives the cipher and the password back, even where
      the password holds colons. */
  lemma UserInfoRoundTrip(cipher: string, password: string)
    requires ':' !in cipher
    ensures SafeUser(UserInfo(cipher, password)) && UserInfo(cipher, password) != ""
    ensures DecodeUserInfo(UserInfo(cipher, password)) == Some((cipher, password))
  {
    UserInfoIsSafe(cipher, password);
    UserInfoDecodes(cipher, password);
    FirstColonSplits(cipher, password);
  }

  lemma {:induction false} LowerKeepsColon(s: string)
    requires ':' in s
    ensures ':' in Lower(s)
  {
    var i :| 0 <= i < |s| && s[i] == ':';
    assert Lower(s)[i] == ':';
  }

  lemma CipherHasNoColon(cipher: string)
    requires Lower(Strip(cipher)) in METHODS
    ensures ':' !in Strip(cipher) && Strip(cipher) != ""
  {
    if ':' in Strip(cipher) { LowerKeepsColon(Strip(cipher)); }
  }

  predicate Supported(o: Outbound) {
    && Plain(Strip(o.address)) && 1 <= o.port <= 65535
    && Lower(Strip(o.cipher)) in METHODS && Strip(o.password) != ""
  }

  function UserOf(o: Outbound): string { UserInfo(Strip(o.cipher), Strip(o.password)) }

  function LocationOf(o: Outbound): string
    requires o.port >= 0
  {
    Location(UserOf(o), Strip(o.address), Decimal(o.port))
  }

  lemma Regroup(user: string, host: string, port: string, tag: string)
    ensures "ss://" + user + "@" + host + ":" + port + "#" + tag
         == ("ss://" + Location(user, host, port) + "#") + tag
  {
    assert "ss://" + user + "@" + host + ":" + port == "ss://" + Location(user, host, port);
  }

  lemma LinkIs(o: Outbound)
    requires Supported(o)
    ensures BuildLink(o) == Some(("ss://" + LocationOf(o) + "#") + o.tag)
  {
    CipherHasNoColon(o.cipher);
    assert Strip(o.address) != "";
    Regroup(UserOf(o), Strip(o.address), Decimal(o.port), o.tag);
  }

  lemma TrimmedLink(loc: string, tag: string)
    ensures "ss://" + loc + "#" <= TrimLink(("ss://" + loc + "#") + tag)
  {
    var base := "ss://" + loc + "#";
    TrimKeeps(base, tag);
  }

  lemma SchemeOf(raw: string, loc: string)
    requires "ss://" + loc + "#" <= raw
    ensures |raw| >= 5 && Lower(raw[..5]) == "ss://"
  {
    var base := "ss://" + loc + "#";
    assert base[..5] == "ss://";
    assert raw[..5] == base[..5];
    assert Lower("ss://") == "ss://";
  }

  lemma LowerTwice(s: string)
    ensures Lower(Lower(s)) == Lower(s)
  {
  }

  /** What is read from the trimmed link. */
  lemma ReadLink(o: Outbound, raw: string)
    requires Supported(o) && "ss://" + LocationOf(o) + "#" <= raw
    ensures |raw| >= 5 && Lower(raw[..5]) == "ss://"
    ensures ':' !in Strip(o.address) ==>
      SplitNetloc(Netloc(raw)) == Authority(UserOf(o), "", Lower(Strip(o.address)), Some(o.port))
    ensures ':' in Strip(o.address) ==> SplitNetloc(Netloc(raw)) == Malformed
  {
    CipherHasNoColon(o.cipher);
    UserInfoRoundTrip(Strip(o.cipher), Strip(o.password));
    DecimalRoundTrip(o.port);
    SchemeOf(raw, LocationOf(o));
    NetlocOf(raw, UserOf(o), Strip(o.address), Decimal(o.port));
    ReadAuthority(UserOf(o), Strip(o.address), o.port);
  }

  lemma MadeFrom(o: Outbound, raw: string, host: string)
    requires Supported(o) && ':' !in Strip(o.address) && "ss://" + LocationOf(o) + "#" <= raw
    ensures OutboundOf(Server(raw, host, o.port))
         == Made(Lower(Strip(o.address)), o.port, Lower(Strip(o.cipher)), Strip(o.password))
  {
    ReadLink(o, raw);
    CipherHasNoColon(o.cipher);
    UserInfoRoundTrip(Strip(o.cipher), Strip(o.password));
    StripIsStripped(o.cipher);
    assert '%' !in UserOf(o);
  }

  /** Outbound to link and back: for a supported cipher, a non-empty password and a port in range
      the round trip gives the lower-cased host, the port, the lower-cased cipher and the
      password, surrounding blanks removed, exactly when the host has no colon. A host with a
      colon, such as an IPv6 address, is built into a link that does not parse. */
  lemma ShadowsocksRoundTrip(o: Outbound)
    requires Supported(o)
    ensures BuildLink(o).Some?
    ensures ':' !in o.address <==> ParseSs(BuildLink(o).value).Sip002?
    ensures ':' in o.address ==> ParseSs(BuildLink(o).value) == Rejected
    ensures ':' !in o.address ==>
      var s := ParseSs(BuildLink(o).value).server;
      && s.host == Lower(Strip(o.address)) && s.port == o.port
      && OutboundOf(s) == Made(Lower(Strip(o.address)), o.port, Lower(Strip(o.cipher)), Strip(o.password))
  {
    LinkIs(o);
    TrimmedLink(LocationOf(o), o.tag);
    var raw := TrimLink(BuildLink(o).value);
    ReadLink(o, raw);
    ColonSurvivesStrip(o.address);
    LowerTwice(Strip(o.address));
    if ':' !in Strip(o.address) { MadeFrom(o, raw, Lower(Strip(o.address))); }
  }

  lemma {:induction false} StripLeftColon(s: string)
    ensures ':' in StripLeft(s) <==> ':' in s
  {
    if s != "" && IsBlank(s[0]) {
      StripLeftColon(s[1..]);
      assert s == [s[0]] + s[1..];
    }
  }

  lemma {:induction false} StripRightColon(s: string)
    ensures ':' in StripRight(s) <==> ':' in s
  {
    if s != "" && IsBlank(s[|s| - 1]) {
      StripRightColon(s[..|s| - 1]);
      assert s == s[..|s| - 1] + [s[|s| - 1]];
    }
  }

  lemma ColonSurvivesStrip(s: string)
    ensures ':' in Strip(s) <==> ':' in s
  {
    StripLeftColon(s);
    StripRightColon(StripLeft(s));
  }
}
