/** The management certificate: the cache key made from its inputs, the names a certificate carries, and
    the inputs it covers. */
module Certificates {
  import opened Json
  import opened Text

  /** What the certificate's names are made from: active addresses and joined host name, and the
      addresses and names of a pending change. */
  datatype Inputs = Inputs(
    lan: string, tunnel: string, tunnelEnabled: bool, host: string, ips: seq<string>, names: seq<string>)

  /** A subject alternative name; addresses are in their printed form. */
  datatype San = Ip(address: string) | Dns(name: string)

  /** `window` is the validity period, None when it cannot be read from the certificate. */
  datatype Certificate = Certificate(sans: set<San>, window: Option<(int, int)>)

  /** How addresses, address ranges and white space are read; addresses are returned as printed. */
  datatype Reader = Reader(ip: string -> Option<string>, cidr: string -> Option<string>, space: char -> bool)

  function Flag(enabled: bool): string {
    if enabled then "wg" else ""
  }

  function Extras(i: Inputs): seq<string> {
    i.ips + i.names
  }

  function Parts(i: Inputs): seq<string> {
    [i.lan, i.tunnel, Flag(i.tunnelEnabled), i.host] + Extras(i)
  }

  function Key(i: Inputs): string {
    Join(Parts(i), '|')
  }

  /** `certificate_cache_key`. */
  method CertificateCacheKey(i: Inputs) returns (key: string)
    ensures key == Key(i)
    ensures key == Join([i.lan, i.tunnel, if i.tunnelEnabled then "wg" else "", i.host] + (i.ips + i.names), '|')
  {
    key := i.lan + "|" + i.tunnel + "|" + Flag(i.tunnelEnabled) + "|" + i.host;
    ghost var head := [i.lan, i.tunnel, Flag(i.tunnelEnabled), i.host];
    HeadJoined(i.lan, i.tunnel, Flag(i.tunnelEnabled), i.host);
    var extras := Extras(i);
    for n := 0 to |extras|
      invariant key == Join(head + extras[..n], '|')
    {
      JoinAppend(head + extras[..n], extras[n], '|');
      assert head + extras[..n + 1] == head + extras[..n] + [extras[n]];
      key := key + ['|'] + extras[n];
    }
    assert extras[..|extras|] == extras;
  }

  lemma HeadJoined(a: string, b: string, c: string, d: string)
    ensures Join([a, b, c, d] + [], '|') == a + "|" + b + "|" + c + "|" + d
  {
    assert [a, b, c, d] + [] == [a] + [b] + [c] + [d];
    JoinAppend([a], b, '|');
    JoinAppend([a] + [b], c, '|');
    JoinAppend([a] + [b] + [c], d, '|');
  }

  // ---------------------------------------------------------------------------------------
  // The key determines its inputs

  predicate Plain(i: Inputs) {
    forall k | 0 <= k < |Parts(i)| :: '|' !in Parts(i)[k]
  }

  /** Equal in everything but which of the extra names are addresses. */
  predicate SameNames(a: Inputs, b: Inputs) {
    && a.lan == b.lan && a.tunnel == b.tunnel && a.tunnelEnabled == b.tunnelEnabled
    && a.host == b.host && Extras(a) == Extras(b)
  }

  /** Two inputs without a bar have the same key exactly when they ask for the same names. */
  lemma KeyExact(a: Inputs, b: Inputs)
    requires Plain(a) && Plain(b)
    ensures Key(a) == Key(b) <==> SameNames(a, b)
  {
    if Key(a) == Key(b) {
      SplitJoin(Parts(a), '|');
      SplitJoin(Parts(b), '|');
      var p, q := Parts(a), Parts(b);
      assert p == q;
      assert p[0] == q[0] && p[1] == q[1] && p[2] == q[2] && p[3] == q[3];
      assert Flag(true)[0] == 'w';
      assert p[4..] == Extras(a) && q[4..] == Extras(b);
    }
  }

  /** The split between addresses and names is not in the key. */
  lemma KeyForgetsKind(i: Inputs, extra: string)
    ensures Key(i.(ips := [extra], names := [])) == Key(i.(ips := [], names := [extra]))
  {
    assert [extra] + [] == [] + [extra];
  }

  // ---------------------------------------------------------------------------------------
  // Which inputs a certificate covers

  const RENEW_BEFORE_EXPIRY := 30 * 24 * 3600

  /** `certificate_time_valid`, in seconds. */
  predicate Within(window: Option<(int, int)>, now: int) {
    window.Some? && window.value.0 <= now && window.value.1 - now >= RENEW_BEFORE_EXPIRY
  }

  function Undotted(s: string): string {
    if s != [] && s[|s| - 1] == '.' then s[..|s| - 1] else s
  }

  /** `normalize_dns_names`, of one name. */
  function Normal(r: Reader, name: string): string {
    Lowered(Undotted(Trim(name, r.space)))
  }

  /** `canonical_wireguard_ip`. */
  function Tunnel(r: Reader, i: Inputs): Option<string> {
    var raw := Trim(i.tunnel, r.space);
    if raw == "" then None else r.cidr(raw)
  }

  function Host(r: Reader, i: Inputs): string {
    Undotted(Trim(i.host, r.space))
  }

  /** A star stands for exactly one label. */
  predicate Matches(pattern: string, host: string) {
    if "*." <= pattern then
      exists k | 0 < k < |host| :: host[k] == '.' && '.' !in host[..k] && host[k + 1..] == pattern[2..]
    else pattern == host
  }

  /** `verify_hostname`. */
  predicate Verifies(r: Reader, sans: set<San>, host: string) {
    match r.ip(host)
    case Some(a) => Ip(a) in sans
    case None => exists san | san in sans :: san.Dns? && Matches(san.name, Lowered(Undotted(host)))
  }

  predicate TunnelCovered(r: Reader, sans: set<San>, i: Inputs) {
    match Tunnel(r, i)
    case Some(a) => Ip(a) in sans
    case None => !i.tunnelEnabled
  }

  predicate NameCovered(r: Reader, sans: set<San>, name: string) {
    Normal(r, name) == "" || Verifies(r, sans, Normal(r, name))
  }

  /** `certificate_matches_config`, but for the validity period. */
  predicate Covers(r: Reader, sans: set<San>, i: Inputs) {
    && r.ip(i.lan).Some? && Verifies(r, sans, i.lan) && TunnelCovered(r, sans, i)
    && Host(r, i) != "" && Verifies(r, sans, Host(r, i))
    && (forall t | t in i.ips :: Ip(t) in sans)
    && (forall t | t in i.names :: NameCovered(r, sans, t))
  }

  /** A certificate with the pending names of a change covers the router without them. */
  lemma CoversCanonical(r: Reader, sans: set<San>, i: Inputs)
    requires Covers(r, sans, i)
    ensures Covers(r, sans, i.(ips := [], names := []))
  {
    var j := i.(ips := [], names := []);
    assert Tunnel(r, i) == Tunnel(r, j) && Host(r, i) == Host(r, j);
  }

  /** The extra addresses are printed addresses. */
  predicate Printed(r: Reader, i: Inputs) {
    forall t | t in i.ips :: t != "" && r.ip(t) == Some(t) && Normal(r, t) == t
  }

  predicate Proper(r: Reader, i: Inputs) {
    Plain(i) && Printed(r, i)
  }

  /** An extra is looked up the same way whichever list it stands in. */
  lemma ExtrasCovered(r: Reader, sans: set<San>, i: Inputs)
    requires Printed(r, i)
    ensures (forall t | t in Extras(i) :: NameCovered(r, sans, t)) <==>
      (forall t | t in i.ips :: Ip(t) in sans) && (forall t | t in i.names :: NameCovered(r, sans, t))
  {
    forall t | t in i.ips ensures t in Extras(i) && (NameCovered(r, sans, t) <==> Ip(t) in sans) {
    }
    forall t | t in i.names ensures t in Extras(i) {
    }
  }

  /** So inputs with one key are covered by the same certificates. */
  lemma KeyFixesCover(r: Reader, sans: set<San>, a: Inputs, b: Inputs)
    requires Proper(r, a) && Proper(r, b) && Key(a) == Key(b)
    ensures Covers(r, sans, a) <==> Covers(r, sans, b)
  {
    KeyExact(a, b);
    ExtrasCovered(r, sans, a);
    ExtrasCovered(r, sans, b);
    assert Tunnel(r, a) == Tunnel(r, b) && Host(r, a) == Host(r, b);
  }

  // ---------------------------------------------------------------------------------------
  // A new certificate

  predicate Ascii(s: string) {
    forall c | c in s :: c as int < 128
  }

  function Found(a: Option<string>): set<string> {
    if a.Some? then {a.value} else {}
  }

  function Addresses(r: Reader, i: Inputs): set<string> {
    {"127.0.0.1"} + Found(r.ip(i.lan)) + Found(Tunnel(r, i)) + set t | t in i.ips
  }

  function Hosts(r: Reader, i: Inputs): set<string> {
    {i.host, "localhost"} + set t | t in i.names && Normal(r, t) != "" :: Normal(r, t)
  }

  /** The names that `generate_self_signed` puts into a certificate, as they are read back. */
  function Sans(r: Reader, i: Inputs): set<San> {
    (set a | a in Addresses(r, i) :: Ip(a)) + (set h | h in Hosts(r, i) && Ascii(h) :: Dns(Lowered(h)))
  }

  /** A host name as configuration validation admits it. */
  predicate Tidy(r: Reader, name: string) {
    name != "" && name[0] != '*' && Ascii(name) && Trim(name, r.space) == name && Undotted(name) == name
  }

  /** Inputs taken from validated configurations. */
  predicate Validated(r: Reader, i: Inputs) {
    && r.ip(i.lan).Some? && (i.tunnelEnabled ==> Tunnel(r, i).Some?)
    && Tidy(r, i.host) && (forall t | t in i.names :: Tidy(r, t)) && Printed(r, i)
  }

  /** A name that reads as an address is one of the router's own. */
  predicate Placed(r: Reader, i: Inputs, name: string) {
    r.ip(name).Some? ==> r.ip(name).value in Addresses(r, i)
  }

  predicate AllPlaced(r: Reader, i: Inputs) {
    Placed(r, i, i.host) && forall t | t in i.names :: Placed(r, i, Lowered(t))
  }

  /** A name that the certificate was made with is found in it, unless it reads as another address. */
  lemma NameFound(r: Reader, i: Inputs, name: string)
    requires name in Hosts(r, i) && Ascii(name) && name != "" && name[0] != '*' && Undotted(name) == name
    ensures Verifies(r, Sans(r, i), name) <==> Placed(r, i, name)
  {
    assert Dns(Lowered(name)) in Sans(r, i);
    assert Lowered(name)[0] != '*';
    assert Matches(Lowered(name), Lowered(Undotted(name)));
  }

  lemma ExtraFound(r: Reader, i: Inputs, name: string)
    requires name in i.names && Tidy(r, name)
    ensures NameCovered(r, Sans(r, i), name) <==> Placed(r, i, Lowered(name))
  {
    assert Normal(r, name) == Lowered(name) && Lowered(name) in Hosts(r, i);
    forall c | c in Lowered(name) ensures c as int < 128 {
      var k :| 0 <= k < |name| && Lowered(name)[k] == c;
      assert name[k] in name;
    }
    NameFound(r, i, Lowered(name));
  }

  /** A new certificate covers the inputs it was made for if and only if none of their host names reads as an
      address that is not the router's. */
  lemma MadeCovers(r: Reader, i: Inputs)
    requires Validated(r, i)
    ensures Covers(r, Sans(r, i), i) <==> AllPlaced(r, i)
  {
    NameFound(r, i, i.host);
    forall t | t in i.names ensures NameCovered(r, Sans(r, i), t) <==> Placed(r, i, Lowered(t)) {
      ExtraFound(r, i, t);
    }
    AddressesFound(r, i);
  }

  lemma AddressesFound(r: Reader, i: Inputs)
    requires Validated(r, i)
    ensures Verifies(r, Sans(r, i), i.lan) && TunnelCovered(r, Sans(r, i), i)
    ensures forall t | t in i.ips :: Ip(t) in Sans(r, i)
  {
    forall a | a in Addresses(r, i) ensures Ip(a) in Sans(r, i) {
    }
  }

  /** A certificate made for other addresses does not cover a moved LAN. */
  lemma MovedLanUncovered(r: Reader, made: Inputs, i: Inputs)
    requires r.ip(i.lan).Some? ==> r.ip(i.lan).value !in Addresses(r, made)
    ensures !Covers(r, Sans(r, made), i)
  {
  }
}
