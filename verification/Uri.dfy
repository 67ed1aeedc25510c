/**
 Connection targets: parsing them (src/net/uri.rs) and building them from the connection dialog's
 fields (src/client/connect_dialog.rs).
 */
module Uri {
  import opened Wrappers

  datatype Scheme = Tcp | Tls | WebSocket | WebSocketTls | Ssh | Socket

  datatype Target = Target(scheme: Scheme, address: string, path: string, username: Option<string>)

  datatype Result<+T> = Ok(value: T) | Err(error: string)

  // ---------------------------------------------------------------- string searches

  // The first index of `c` in `s`, or |s|.
  function Find(s: string, c: char): (i: nat)
    ensures i <= |s| && c !in s[..i] && (i < |s| ==> s[i] == c)
  {
    if s == "" || s[0] == c then 0 else 1 + Find(s[1..], c)
  }

  // The last index of `c` in `s`, or |s|.
  function FindLast(s: string, c: char): (i: nat)
    ensures i <= |s| && (i < |s| ==> s[i] == c && c !in s[i + 1..]) && (i == |s| ==> c !in s)
  {
    if s == "" then 0
    else if s[|s| - 1] == c then |s| - 1
    else
      var i := FindLast(s[..|s| - 1], c);
      if i == |s| - 1 then |s| else i
  }

  // The first index where "://" starts, or |s|.
  function FindScheme(s: string): (i: nat)
    ensures i == |s| || (i + 3 <= |s| && s[i..i + 3] == "://")
  {
    if |s| < 3 then |s| else if s[..3] == "://" then 0 else 1 + FindScheme(s[1..])
  }

  function Lower(c: char): char {
    if 'A' <= c <= 'Z' then (c as int + 32) as char else c
  }

  // `eq_ignore_ascii_case`.
  predicate SameWord(a: string, b: string) {
    |a| == |b| && forall i :: 0 <= i < |a| ==> Lower(a[i]) == Lower(b[i])
  }

  // `trim_start_matches('/')`.
  function TrimSlashes(s: string): string {
    if s != "" && s[0] == '/' then TrimSlashes(s[1..]) else s
  }

  // ---------------------------------------------------------------- parse_target and host_only

  function SchemeOf(word: string): Option<Scheme> {
    if SameWord(word, "tcp") then Some(Tcp)
    else if SameWord(word, "ssl") then Some(Tls)
    else if SameWord(word, "ws") then Some(WebSocket)
    else if SameWord(word, "wss") then Some(WebSocketTls)
    else if SameWord(word, "ssh") then Some(Ssh)
    else None
  }

  function ParseAuthority(scheme: Scheme, authority: string, path: string): Target {
    if scheme != Ssh then Target(scheme, authority, path, None)
    else
      var at := Find(authority, '@');
      var username := if at < |authority| then Some(authority[..at]) else None;
      var hostPort := if at < |authority| then authority[at + 1..] else authority;
      Target(Ssh, if ':' in hostPort then hostPort else hostPort + ":22", TrimSlashes(path), username)
  }

  function ParseTarget(target: string): Result<Target> {
    if target != "" && target[0] == '/' then Ok(Target(Socket, target, "", None))
    else
      var end := FindScheme(target);
      if end == |target| then Ok(Target(Tcp, target, "", None))
      else
        var word, rest := target[..end], target[end + 3..];
        if SameWord(word, "socket") then
          if rest == "" then Err("missing absolute socket path")
          else if rest[0] != '/' then Err("socket path must be absolute")
          else Ok(Target(Socket, rest, "", None))
        else
          var slash := Find(rest, '/');
          if slash == 0 then Err("missing host:port")
          else if SchemeOf(word).None? then Err("unsupported protocol")
          else Ok(ParseAuthority(SchemeOf(word).value, rest[..slash], rest[slash..]))
  }

  function HostOnly(address: string): string {
    address[..FindLast(address, ':')]
  }

  // ---------------------------------------------------------------- decimal numbers

  function Digits(n: nat): (s: string)
    ensures s != "" && forall c <- s :: '0' <= c <= '9'
  {
    var last := [('0' as int + n % 10) as char];
    if n < 10 then last else Digits(n / 10) + last
  }

  // A run of digits as a number; `None` for anything else.
  function Number(s: string): Option<nat> {
    if s == "" then Some(0)
    else
      var last := s[|s| - 1];
      if !('0' <= last <= '9') || Number(s[..|s| - 1]).None? then None
      else Some(10 * Number(s[..|s| - 1]).value + (last as int - '0' as int))
  }

  lemma {:induction false} NumberOfDigits(n: nat)
    ensures Number(Digits(n)) == Some(n)
  {
    var s := Digits(n);
    if n >= 10 {
      NumberOfDigits(n / 10);
      assert s[..|s| - 1] == Digits(n / 10);
    }
  }

  // ---------------------------------------------------------------- build_uri

  const WORDS: seq<string> := ["tcp", "ssl", "ws", "wss", "ssh"]

  function SchemeAt(protocol: nat): Scheme
    requires protocol < 5
  {
    [Tcp, Tls, WebSocket, WebSocketTls, Ssh][protocol]
  }

  // A bare IPv6 address needs brackets for its port to be told apart.
  function Bracketed(host: string): string {
    if ':' in host && host[0] != '[' then "[" + host + "]" else host
  }

  function UserPrefix(word: string, username: Option<string>): string {
    if username.Some? && word == "ssh" then username.value + "@" else ""
  }

  function BuildUri(word: string, host: string, port: nat, username: Option<string>): string {
    word + "://" + (UserPrefix(word, username) + Bracketed(host) + ":" + Digits(port) + "/")
  }

  // ---------------------------------------------------------------- what the searches find

  lemma {:induction false} FindIn(a: string, c: char, rest: string)
    requires c !in a
    ensures Find(a + [c] + rest, c) == |a|
  {
    if a != "" {
      assert (a + [c] + rest)[1..] == a[1..] + [c] + rest;
      FindIn(a[1..], c, rest);
    }
  }

  lemma {:induction false} FindSchemeIn(word: string, rest: string)
    requires ':' !in word
    ensures FindScheme(word + "://" + rest) == |word|
  {
    var s := word + "://" + rest;
    if word == "" {
      assert s[..3] == "://";
    } else {
      assert s[..3][0] == word[0];
      assert s[1..] == word[1..] + "://" + rest;
      FindSchemeIn(word[1..], rest);
    }
  }

  lemma FindLastIn(a: string, c: char, rest: string)
    requires c !in rest
    ensures FindLast(a + [c] + rest, c) == |a|
  {
    var s := a + [c] + rest;
    assert s[|a|] == c && s[|a| + 1..] == rest;
  }

  lemma WordIsScheme(protocol: nat)
    requires protocol < 5
    ensures var word := WORDS[protocol];
      SchemeOf(word) == Some(SchemeAt(protocol)) && !SameWord(word, "socket") && ':' !in word && word[0] != '/'
  {
    if protocol == 1 {
      DifferAt("ssl", "tcp", 0);
    } else if protocol == 3 {
      DifferAt("wss", "tcp", 0);
      DifferAt("wss", "ssl", 0);
    } else if protocol == 4 {
      DifferAt("ssh", "tcp", 0);
      DifferAt("ssh", "ssl", 2);
      DifferAt("ssh", "wss", 0);
    }
  }

  lemma DifferAt(a: string, b: string, i: nat)
    requires |a| == |b| && i < |a| && Lower(a[i]) != Lower(b[i])
    ensures !SameWord(a, b)
  {
  }

  // ---------------------------------------------------------------- the round trip

  function Address(host: string, port: nat): string {
    Bracketed(host) + ":" + Digits(port)
  }

  // A host name the dialog lets through.
  predicate GoodHost(host: string) {
    host != "" && '/' !in host && '@' !in host
  }

  // What the dialog means by its fields.
  function Meant(protocol: nat, host: string, port: nat, username: Option<string>): Target
    requires protocol < 5
  {
    if SchemeAt(protocol) == Ssh then Target(Ssh, Address(host, port), "", username)
    else Target(SchemeAt(protocol), Address(host, port), "/", None)
  }

  lemma DigitsHaveNo(n: nat, c: char)
    requires !('0' <= c <= '9')
    ensures c !in Digits(n)
  {
  }

  lemma ParseRest(protocol: nat, rest: string)
    requires protocol < 5
    ensures ParseTarget(WORDS[protocol] + "://" + rest) ==
            var slash := Find(rest, '/');
            if slash == 0 then Err("missing host:port")
            else Ok(ParseAuthority(SchemeAt(protocol), rest[..slash], rest[slash..]))
  {
    var word := WORDS[protocol];
    var target := word + "://" + rest;
    WordIsScheme(protocol);
    FindSchemeIn(word, rest);
    assert target[0] == word[0] && target[..|word|] == word && target[|word| + 3..] == rest;
  }

  lemma ParseBuilt(protocol: nat, authority: string)
    requires protocol < 5 && authority != "" && '/' !in authority
    ensures ParseTarget(WORDS[protocol] + "://" + (authority + "/")) == Ok(ParseAuthority(SchemeAt(protocol), authority, "/"))
  {
    FindIn(authority, '/', "");
    assert authority + "/" + "" == authority + "/";
    assert (authority + "/")[..|authority|] == authority && (authority + "/")[|authority|..] == "/";
    ParseRest(protocol, authority + "/");
    hide ParseTarget, ParseAuthority, Find;
  }

  lemma AddressIsPlain(host: string, port: nat)
    requires GoodHost(host)
    ensures var a := Address(host, port); '/' !in a && '@' !in a && ':' in a
  {
  }

  lemma ParseWhole(protocol: nat, host: string, port: nat, username: Option<string>)
    requires protocol < 5 && GoodHost(host)
    requires username.Some? && SchemeAt(protocol) == Ssh ==> '/' !in username.value && '@' !in username.value
    ensures ParseTarget(BuildUri(WORDS[protocol], host, port, username)) == Ok(Meant(protocol, host, port, username))
  {
    hide ParseTarget, ParseAuthority, Digits, Bracketed;
    var user, address := UserPrefix(WORDS[protocol], username), Address(host, port);
    AddressIsPlain(host, port);
    assert user + Bracketed(host) + ":" + Digits(port) + "/" == (user + address) + "/";
    ParseBuilt(protocol, user + address);
    if SchemeAt(protocol) == Ssh {
      SplitUser(username, address);
    } else {
      PlainAuthority(SchemeAt(protocol), address);
      assert user + address == address;
    }
  }

  lemma PlainAuthority(scheme: Scheme, authority: string)
    requires scheme != Ssh
    ensures ParseAuthority(scheme, authority, "/") == Target(scheme, authority, "/", None)
  {
  }

  lemma SplitUser(username: Option<string>, address: string)
    requires ':' in address && '@' !in address
    requires username.Some? ==> '@' !in username.value
    ensures ParseAuthority(Ssh, (if username.Some? then username.value + "@" else "") + address, "/") ==
            Target(Ssh, address, "", username)
  {
    hide Find, TrimSlashes;
    OneSlash();
    match username
    case Some(u) =>
      FindIn(u, '@', address);
      assert u + "@" + address == (u + "@") + address;
      assert (u + "@" + address)[..|u|] == u && (u + "@" + address)[|u| + 1..] == address;
    case None =>
      assert "" + address == address;
      NotFound(address, '@');
  }

  lemma OneSlash()
    ensures TrimSlashes("/") == ""
  {
    assert "/"[1..] == "";
  }

  lemma NotFound(s: string, c: char)
    requires c !in s
    ensures Find(s, c) == |s|
  {
  }

  // A user name with a slash or an at sign is not recovered, whatever the host.
  lemma BadUserIsLost(host: string, port: nat, user: string)
    requires GoodHost(host) && ('/' in user || '@' in user)
    ensures ParseTarget(BuildUri("ssh", host, port, Some(user))) != Ok(Meant(4, host, port, Some(user)))
  {
    var rest := user + "@" + Bracketed(host) + ":" + Digits(port) + "/";
    assert WORDS[4] == "ssh";
    ParseRest(4, rest);
    var authority := rest[..Find(rest, '/')];
    ShortUser(user, rest, authority);
    hide ParseTarget, Find, FindScheme;
    assert BuildUri("ssh", host, port, Some(user)) == "ssh" + "://" + rest;
  }

  // The user name parsed out of the authority stops before the first slash and the first at sign.
  lemma ShortUser(user: string, rest: string, authority: string)
    requires '/' in user || '@' in user
    requires |user| <= |rest| && rest[..|user|] == user && authority == rest[..Find(rest, '/')]
    ensures Find(authority, '@') < |authority| ==> authority[..Find(authority, '@')] != user
  {
  }

  lemma SlashBuilt()
    ensures BuildUri("ssh", "h", 22, Some("a/b")) == "ssh" + "://" + ("a/b@h:22/")
  {
    assert Digits(22) == "22";
    assert UserPrefix("ssh", Some("a/b")) == "a/b@" && Bracketed("h") == "h";
    hide Digits, Bracketed, UserPrefix;
  }

  lemma SlashAuthority()
    ensures ParseAuthority(Ssh, "a", "/b@h:22/") == Target(Ssh, "a:22", "b@h:22/", None)
  {
    assert '@' !in "a" && ':' !in "a";
    assert Find("a", '@') == 1;
    hide Find;
    assert "/b@h:22/"[1..] == "b@h:22/" && "a" + ":22" == "a:22";
  }

  // For one: the user's tail ends up in the path, and the host is lost.
  lemma SlashInUser()
    ensures ParseTarget(BuildUri("ssh", "h", 22, Some("a/b"))) == Ok(Target(Ssh, "a:22", "b@h:22/", None))
  {
    hide ParseTarget, BuildUri, ParseAuthority, Find;
    var rest := "a/b@h:22/";
    SlashBuilt();
    SlashAuthority();
    ParseRest(4, rest);
    FindIn("a", '/', "b@h:22/");
    assert "a" + ['/'] + "b@h:22/" == rest;
    assert rest[..1] == "a" && rest[1..] == "/b@h:22/";
    assert WORDS[4] == "ssh" && SchemeAt(4) == Ssh;
  }

  // The fields come back through the URI exactly when an ssh user name has neither a slash nor an at
  // sign; for the other schemes always, the user name staying out of the URI.
  lemma BuildThenParse(protocol: nat, host: string, port: nat, username: Option<string>)
    requires protocol < 5 && GoodHost(host)
    ensures ParseTarget(BuildUri(WORDS[protocol], host, port, username)) == Ok(Meant(protocol, host, port, username)) <==>
            (SchemeAt(protocol) == Ssh && username.Some? ==> '/' !in username.value && '@' !in username.value)
  {
    hide ParseTarget, BuildUri;
    if SchemeAt(protocol) == Ssh && username.Some? && ('/' in username.value || '@' in username.value) {
      BadUserIsLost(host, port, username.value);
    } else {
      ParseWhole(protocol, host, port, username);
    }
  }

  // The host, brackets included, and the port can be told apart again.
  lemma AddressSplits(host: string, port: nat)
    ensures HostOnly(Address(host, port)) == Bracketed(host)
    ensures Number(Address(host, port)[|HostOnly(Address(host, port))| + 1..]) == Some(port)
  {
    DigitsHaveNo(port, ':');
    FindLastIn(Bracketed(host), ':', Digits(port));
    NumberOfDigits(port);
    var a := Address(host, port);
    assert a[..|Bracketed(host)|] == Bracketed(host) && a[|Bracketed(host)| + 1..] == Digits(port);
  }

  // ---------------------------------------------------------------- other targets

  predicate Stands(s: string, k: nat) {
    k + 3 <= |s| && s[k] == ':' && s[k + 1] == '/' && s[k + 2] == '/'
  }

  // "://" is found where it first stands.
  lemma {:induction false} FindSchemeFirst(s: string)
    ensures forall k: nat :: Stands(s, k) ==> FindScheme(s) <= k
    ensures FindScheme(s) < |s| ==> Stands(s, FindScheme(s))
  {
    if |s| >= 3 && s[..3] != "://" {
      FindSchemeFirst(s[1..]);
      assert !Stands(s, 0) by { if Stands(s, 0) { Separator(s); } }
      forall k: nat | Stands(s, k) ensures FindScheme(s) <= k { assert Stands(s[1..], k - 1); }
    }
  }

  lemma Separator(s: string)
    requires Stands(s, 0)
    ensures s[..3] == "://"
  {
  }

  // An absolute path is a socket, and anything else without a scheme is a plain tcp address.
  lemma WithoutScheme(target: string)
    ensures target != "" && target[0] == '/' ==> ParseTarget(target) == Ok(Target(Socket, target, "", None))
    ensures target == "" || target[0] != '/' ==>
              (forall k: nat :: !Stands(target, k)) ==> ParseTarget(target) == Ok(Target(Tcp, target, "", None))
  {
    FindSchemeFirst(target);
  }

  // A socket needs an absolute path after its scheme.
  lemma SocketTarget(path: string)
    ensures ParseTarget("socket://" + path) ==
            if path == "" then Err("missing absolute socket path")
            else if path[0] != '/' then Err("socket path must be absolute")
            else Ok(Target(Socket, path, "", None))
  {
    var target := "socket" + "://" + path;
    FindSchemeIn("socket", path);
    assert target == "socket://" + path;
    assert target[..6] == "socket" && target[9..] == path;
  }

  // An unknown scheme is refused, and so is a target without a host.
  lemma RefusedTargets(word: string, rest: string)
    requires ':' !in word && (word != "" ==> word[0] != '/') && !SameWord(word, "socket")
    ensures rest == "" || rest[0] == '/' ==> ParseTarget(word + "://" + rest) == Err("missing host:port")
    ensures rest != "" && rest[0] != '/' && SchemeOf(word).None? ==>
              ParseTarget(word + "://" + rest) == Err("unsupported protocol")
  {
    var target := word + "://" + rest;
    FindSchemeIn(word, rest);
    assert target[..|word|] == word && target[|word| + 3..] == rest;
    if word != "" { assert target[0] == word[0]; }
  }

  // Schemes are told by their letters, whatever their case.
  lemma SchemeWords(word: string)
    ensures SchemeOf(word) == Some(Tcp) <==> SameWord(word, "tcp")
    ensures SchemeOf(word) == Some(Tls) <==> SameWord(word, "ssl")
    ensures SchemeOf(word) == Some(WebSocket) <==> SameWord(word, "ws")
    ensures SchemeOf(word) == Some(WebSocketTls) <==> SameWord(word, "wss")
    ensures SchemeOf(word) == Some(Ssh) <==> SameWord(word, "ssh")
    ensures SameWord("TcP", "tcp")
  {
    if |word| == 3 {
      var a, b := Lower(word[0]), Lower(word[2]);
      if SameWord(word, "ssl") { DifferAt(word, "tcp", 0); }
      if SameWord(word, "wss") { DifferAt(word, "tcp", 0); DifferAt(word, "ssl", 0); }
      if SameWord(word, "ssh") { DifferAt(word, "tcp", 0); DifferAt(word, "ssl", 2); DifferAt(word, "wss", 0); }
    }
  }

  // ssh alone takes a user and goes to port 22 unless told otherwise; its path loses its slashes.
  lemma SshTargets(host: string, display: string)
    requires host != "" && '/' !in host && '@' !in host && ':' !in host && (display != "" ==> display[0] != '/')
    ensures ParseTarget("ssh" + "://" + (host + ("/" + display))) == Ok(Target(Ssh, host + ":22", display, None))
    ensures ParseTarget("ssh" + "://" + (host + ":2222" + ("/" + display))) == Ok(Target(Ssh, host + ":2222", display, None))
  {
    hide ParseTarget, ParseAuthority;
    assert WORDS[4] == "ssh" && SchemeAt(4) == Ssh;
    SshPlain(host, display);
    assert (host + ":2222")[|host|] == ':';
    SshPlain(host + ":2222", display);
  }

  lemma SshPlain(authority: string, display: string)
    requires authority != "" && '/' !in authority && '@' !in authority && (display != "" ==> display[0] != '/')
    ensures ParseTarget("ssh" + "://" + (authority + ("/" + display))) ==
            Ok(Target(Ssh, if ':' in authority then authority else authority + ":22", display, None))
  {
    var rest := authority + ("/" + display);
    assert WORDS[4] == "ssh" && SchemeAt(4) == Ssh;
    FindIn(authority, '/', display);
    assert authority + ['/'] + display == rest;
    assert rest[..|authority|] == authority && rest[|authority|..] == "/" + display;
    ParseRest(4, rest);
    NotFound(authority, '@');
    assert ("/" + display)[1..] == display;
    hide ParseTarget, Find;
    assert TrimSlashes("/" + display) == TrimSlashes(display) == display;
  }

  // ---------------------------------------------------------------- the dialog

  predicate IsWhitespace(c: char) {
    '\t' <= c <= '\r' || c in " \U{0085}\U{00A0}\U{1680}\U{2028}\U{2029}\U{202F}\U{205F}\U{3000}"
    || '\U{2000}' <= c <= '\U{200A}'
  }

  function TrimStart(s: string): (t: string)
    ensures |t| <= |s| && t == s[|s| - |t|..] && (t != "" ==> !IsWhitespace(t[0]))
  {
    if s != "" && IsWhitespace(s[0]) then TrimStart(s[1..]) else s
  }

  function TrimEnd(s: string): (t: string)
    ensures |t| <= |s| && t == s[..|t|] && (t != "" ==> !IsWhitespace(t[|t| - 1]))
  {
    if s != "" && IsWhitespace(s[|s| - 1]) then TrimEnd(s[..|s| - 1]) else s
  }

  function Trim(s: string): string {
    TrimEnd(TrimStart(s))
  }

  function NonEmpty(s: string): Option<string> {
    if Trim(s) == "" then None else Some(Trim(s))
  }

  // `parse::<u16>`: digits, perhaps after a plus sign, up to 65535.
  function ParseU16(s: string): Option<nat> {
    var digits := if s != "" && s[0] == '+' then s[1..] else s;
    if digits == "" then None
    else
      var n := Number(digits);
      if n.Some? && n.value <= 0xFFFF then n else None
  }

  lemma {:induction false} TrimStartMeans(a: string, s: string)
    requires (forall c <- a :: IsWhitespace(c)) && (s != "" ==> !IsWhitespace(s[0]))
    ensures TrimStart(a + s) == s
  {
    if a == "" {
      assert a + s == s;
    } else {
      assert a[0] in a && forall c <- a[1..] :: c in a;
      assert (a + s)[1..] == a[1..] + s;
      TrimStartMeans(a[1..], s);
    }
  }

  lemma {:induction false} TrimEndMeans(s: string, b: string)
    requires (forall c <- b :: IsWhitespace(c)) && (s != "" ==> !IsWhitespace(s[|s| - 1]))
    ensures TrimEnd(s + b) == s
  {
    if b == "" {
      assert s + b == s;
    } else {
      var init := b[..|b| - 1];
      assert b[|b| - 1] in b && forall c <- init :: c in b;
      assert (s + b)[..|s + b| - 1] == s + init;
      TrimEndMeans(s, init);
    }
  }

  // White space around a field does not count, and white space alone is nothing.
  lemma TrimMeans(a: string, s: string, b: string)
    requires (forall c <- a :: c in " \t\n\r") && (forall c <- b :: c in " \t\n\r")
    requires s != "" && !IsWhitespace(s[0]) && !IsWhitespace(s[|s| - 1])
    ensures Trim(a + (s + b)) == s && NonEmpty(a + (s + b)) == Some(s)
    ensures Trim(a) == "" && NonEmpty(a) == None
  {
    hide TrimStart, TrimEnd;
    TrimStartMeans(a, s + b);
    TrimEndMeans(s, b);
    TrimStartMeans(a, "");
    TrimEndMeans("", "");
    assert a + "" == a && "" + "" == "";
  }

  // A host with a colon is bracketed unless it is already, and the URI is put together in order.
  lemma BuiltText(word: string, host: string, port: nat, user: string)
    requires host != ""
    ensures Bracketed(host) == if ':' in host && host[0] != '[' then "[" + host + "]" else host
    ensures word != "ssh" ==> BuildUri(word, host, port, Some(user)) == word + "://" + ("" + Bracketed(host) + ":" + Digits(port) + "/")
    ensures BuildUri("ssh", host, port, Some(user)) == "ssh" + "://" + (user + "@" + Bracketed(host) + ":" + Digits(port) + "/")
    ensures Digits(10000) == "10000"
  {
    assert Digits(1) == "1" && Digits(10) == "10" && Digits(100) == "100" && Digits(1000) == "1000";
  }

  // The numbers from 0 to 65535 and no others.
  lemma PortNumbers(n: nat, s: string)
    ensures ParseU16(Digits(n)) == if n <= 65535 then Some(n) else None
    ensures (exists c <- s :: !('0' <= c <= '9') && c != '+') ==> ParseU16(s) == None
    ensures ParseU16("") == None
  {
    hide Number;
    NumberOfDigits(n);
    assert Digits(n)[0] in Digits(n);
    hide Digits;
    if exists c <- s :: !('0' <= c <= '9') && c != '+' {
      var c :| c in s && !('0' <= c <= '9') && c != '+';
      NotANumber(if s[0] == '+' then s[1..] else s, c);
    }
  }

  lemma {:induction false} NotANumber(s: string, c: char)
    requires c in s && !('0' <= c <= '9')
    ensures Number(s) == None
  {
    var last := |s| - 1;
    if s[last] != c { NotANumber(s[..last], c); }
  }

  datatype Focus = OnProtocol | OnHost | OnPort | OnUsername | OnPassword | OnButtons

  datatype Status = Clear | Problem(message: string)

  datatype Details = Details(uri: string, username: Option<string>, password: Option<string>)

  datatype Action = Stay | Connect(details: Details)

  predicate HostAllowed(host: string) {
    host != "" && '/' !in host && '@' !in host && forall c <- host :: !IsWhitespace(c)
  }

  class ConnectDialog {
    var protocol: nat
    var host: string
    var port: string
    var username: string
    var password: string
    var focus: Focus
    var status: Status

    // Connects exactly when the host and the port are good; the URI then stands for the fields. A
    // complaint says which field is wrong and moves the focus there.
    method Submit() returns (action: Action)
      requires protocol < 5
      modifies `focus, `status
      ensures action.Connect? <==>
                HostAllowed(Trim(host)) && ParseU16(Trim(port)).Some? && ParseU16(Trim(port)).value > 0
      ensures action.Connect? ==>
        && status == Clear && focus == old(focus)
        && action.details.username == NonEmpty(username) && action.details.password == NonEmpty(password)
        && var meant := Meant(protocol, Trim(host), ParseU16(Trim(port)).value, NonEmpty(username));
           (ParseTarget(action.details.uri) == Ok(meant) <==>
              (SchemeAt(protocol) == Ssh && NonEmpty(username).Some? ==>
                 '/' !in NonEmpty(username).value && '@' !in NonEmpty(username).value))
      ensures action.Stay? ==> status.Problem? && focus == if HostAllowed(Trim(host)) then OnPort else OnHost
    {
      hide ParseTarget, BuildUri, Trim, NonEmpty, ParseU16;
      var name := Trim(host);
      if name == "" {
        status, focus := Problem("please enter a hostname or IP address"), OnHost;
        return Stay;
      }
      if (exists c <- name :: IsWhitespace(c)) || '/' in name || '@' in name {
        status, focus := Problem("the hostname contains invalid characters"), OnHost;
        return Stay;
      }
      var number := ParseU16(Trim(port));
      if number.None? || number.value == 0 {
        status, focus := Problem("the port must be a number between 1 and 65535"), OnPort;
        return Stay;
      }
      var user := NonEmpty(username);
      status := Clear;
      BuildThenParse(protocol, name, number.value, user);
      action := Connect(Details(BuildUri(WORDS[protocol], name, number.value, user), user, NonEmpty(password)));
    }
  }
}
