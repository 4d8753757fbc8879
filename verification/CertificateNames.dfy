/** Which names and addresses a certificate must carry to cover a router, and which ones a new certificate
    carries, stated on the texts themselves. */
module CertificateNames {
  import opened Json
  import opened Text
  import opened Certificates

  // ---------------------------------------------------------------------------------------
  // Texts

  /** Without one final dot, if there is one. */
  ghost predicate DotDropped(name: string, s: string) {
    s == name + "." || (s == name && (s == "" || s[|s| - 1] != '.'))
  }

  lemma UndottedIff(s: string, name: string)
    ensures Undotted(s) == name <==> DotDropped(name, s)
  {
    if s != "" && s[|s| - 1] == '.' { assert s == s[..|s| - 1] + "."; }
  }

  /** Surrounded by white space only, and without any of its own at the ends. */
  ghost predicate Stripped(space: char -> bool, name: string, s: string) {
    && (name != "" ==> !space(name[0]) && !space(name[|name| - 1]))
    && exists front, back :: AllSpace(space, front) && AllSpace(space, back) && s == front + name + back
  }

  ghost predicate AllSpace(space: char -> bool, s: string) {
    forall c | c in s :: space(c)
  }

  lemma TrimStripped(space: char -> bool, s: string)
    ensures Stripped(space, Trim(s, space), s)
  {
    TrimTrims(s, space);
    var front, back := TrimSurrounded(s, space);
    assert AllSpace(space, front) && AllSpace(space, back);
  }

  /** A star stands for one label that is not empty; any other pattern for itself. */
  ghost predicate StandsFor(pattern: string, host: string) {
    || (pattern == host && !("*." <= pattern))
    || exists first: string, rest ::
         first != "" && '.' !in first && pattern == "*." + rest && host == first + "." + rest
  }

  lemma StarMatches(first: string, rest: string)
    requires first != "" && '.' !in first
    ensures Matches("*." + rest, first + "." + rest)
  {
    var (host, pattern, k) := (first + "." + rest, "*." + rest, |first|);
    assert host[k] == '.' && host[..k] == first && host[k + 1..] == rest && pattern[2..] == rest;
  }

  lemma MatchesIff(pattern: string, host: string)
    ensures Matches(pattern, host) <==> StandsFor(pattern, host)
  {
    if "*." <= pattern && Matches(pattern, host) {
      var k :| 0 < k < |host| && host[k] == '.' && '.' !in host[..k] && host[k + 1..] == pattern[2..];
      var (first, rest) := (host[..k], host[k + 1..]);
      assert host == first + "." + rest && pattern == "*." + rest;
    }
    forall first: string, rest |
        first != "" && '.' !in first && pattern == "*." + rest && host == first + "." + rest
      ensures Matches(pattern, host)
    {
      StarMatches(first, rest);
    }
  }

  // ---------------------------------------------------------------------------------------
  // What a certificate must carry

  /** An address is looked up among the addresses, and a name, without a final dot and in lower case, among
      the names. */
  ghost predicate Carries(r: Reader, sans: set<San>, host: string) {
    match r.ip(host)
    case Some(a) => Ip(a) in sans
    case None => exists pattern, name, low ::
      Dns(pattern) in sans && DotDropped(name, host) && LowerOf(low, name) && StandsFor(pattern, low)
  }

  lemma CarriesIff(r: Reader, sans: set<San>, host: string)
    ensures Verifies(r, sans, host) <==> Carries(r, sans, host)
  {
    var (name, low) := (Undotted(host), Lowered(Undotted(host)));
    UndottedIff(host, name);
    LoweredIff(name, low);
    if r.ip(host).None? {
      if san :| san in sans && san.Dns? && Matches(san.name, low) {
        MatchesIff(san.name, low);
        assert Dns(san.name) in sans && StandsFor(san.name, low);
      }
      forall pattern, name', low' |
          Dns(pattern) in sans && DotDropped(name', host) && LowerOf(low', name') && StandsFor(pattern, low')
        ensures Verifies(r, sans, host)
      {
        UndottedIff(host, name');
        LoweredIff(name', low');
        MatchesIff(pattern, low');
        assert Dns(pattern).name == pattern;
      }
    }
  }

  /** The addresses that a router asks for: of the LAN, of the tunnel, and of a pending change. */
  ghost predicate AsksForAddress(r: Reader, i: Inputs, a: string) {
    || r.ip(i.lan) == Some(a) || a in i.ips
    || (Trim(i.tunnel, r.space) != "" && r.cidr(Trim(i.tunnel, r.space)) == Some(a))
  }

  /** The names that it asks for: its own, and those of a pending change that are not blank. */
  ghost predicate AsksForName(r: Reader, i: Inputs, name: string) {
    || DotDropped(name, Trim(i.host, r.space))
    || (name != "" && exists t, bare :: t in i.names && DotDropped(bare, Trim(t, r.space)) && LowerOf(name, bare))
  }

  /** For every set of names and every router: the certificate covers the router if and only if the LAN address
      reads as one, so does the tunnel's if the tunnel is on, the router has a name, and the certificate
      carries every address and every name that the router asks for. */
  lemma CoversIff(r: Reader, sans: set<San>, i: Inputs)
    ensures Covers(r, sans, i) <==>
      && r.ip(i.lan).Some? && !DotDropped("", Trim(i.host, r.space))
      && (i.tunnelEnabled ==> Trim(i.tunnel, r.space) != "" && r.cidr(Trim(i.tunnel, r.space)).Some?)
      && (forall a | AsksForAddress(r, i, a) :: Ip(a) in sans)
      && (forall name | AsksForName(r, i, name) :: Carries(r, sans, name))
  {
    UndottedIff(Trim(i.host, r.space), "");
    UndottedIff(Trim(i.host, r.space), Host(r, i));
    if r.ip(i.lan).Some? { AddressesIff(r, sans, i); }
    NamesIff(r, sans, i);
  }

  lemma AddressesIff(r: Reader, sans: set<San>, i: Inputs)
    requires r.ip(i.lan).Some?
    ensures (forall a | AsksForAddress(r, i, a) :: Ip(a) in sans) <==>
      && Verifies(r, sans, i.lan) && (Tunnel(r, i).Some? ==> Ip(Tunnel(r, i).value) in sans)
      && forall t | t in i.ips :: Ip(t) in sans
  {
  }

  lemma AsksForNameIff(r: Reader, i: Inputs, name: string)
    ensures AsksForName(r, i, name) <==>
      name == Host(r, i) || (name != "" && exists t :: t in i.names && Normal(r, t) == name)
  {
    UndottedIff(Trim(i.host, r.space), name);
    forall t, bare ensures DotDropped(bare, Trim(t, r.space)) <==> Undotted(Trim(t, r.space)) == bare {
      UndottedIff(Trim(t, r.space), bare);
    }
    forall bare ensures LowerOf(name, bare) <==> Lowered(bare) == name { LoweredIff(bare, name); }
    forall t | t in i.names && Normal(r, t) == name
      ensures exists bare :: t in i.names && DotDropped(bare, Trim(t, r.space)) && LowerOf(name, bare)
    {
      var bare := Undotted(Trim(t, r.space));
      assert DotDropped(bare, Trim(t, r.space)) && LowerOf(name, bare);
    }
  }

  lemma NamesIff(r: Reader, sans: set<San>, i: Inputs)
    ensures (forall name | AsksForName(r, i, name) :: Carries(r, sans, name)) <==>
      Verifies(r, sans, Host(r, i)) && forall t | t in i.names :: NameCovered(r, sans, t)
  {
    forall name ensures Verifies(r, sans, name) <==> Carries(r, sans, name) { CarriesIff(r, sans, name); }
    forall name ensures AsksForName(r, i, name) <==>
      name == Host(r, i) || (name != "" && exists t :: t in i.names && Normal(r, t) == name)
    {
      AsksForNameIff(r, i, name);
    }
  }

  // ---------------------------------------------------------------------------------------
  // What a new certificate carries

  /** The loopback address and every address asked for; `localhost`, the router's name and the pending
      names, in lower case, as far as they are ASCII. */
  lemma SansIff(r: Reader, i: Inputs, san: San)
    ensures san in Sans(r, i) <==>
      match san
      case Ip(a) => a == "127.0.0.1" || AsksForAddress(r, i, a)
      case Dns(low) => exists name ::
        && LowerOf(low, name) && (forall c | c in name :: c as int < 128)
        && (name == "localhost" || name == i.host
            || (name != "" && exists t :: t in i.names && Normal(r, t) == name))
  {
    match san
    case Ip(a) =>
    case Dns(low) =>
      forall name ensures LowerOf(low, name) <==> Lowered(name) == low { LoweredIff(name, low); }
      if san in Sans(r, i) {
        var name :| name in Hosts(r, i) && Ascii(name) && Dns(Lowered(name)) == san;
        assert LowerOf(low, name);
      }
  }
}
