/** The network page's sections as read/write pairs on the configuration, and the firewall page's
    rule changes: which of them are independent, which saves read back as the draft, and which
    concurrent changes a save cannot see. */
module Sections {
  import opened Json
  import opened Text
  import opened Editing

  datatype Lan = Lan(interface: string, ip: string, netmask: string, cidr: string)
  datatype Lease = Lease(id: string, hostname: string, mac: string, ip: string)
  datatype Dhcp = Dhcp(
    enabled: bool, dnsEnabled: bool, rangeStart: string, rangeEnd: string, leaseTime: string,
    dnsServers: seq<string>, leases: seq<Lease>)
  datatype Record = Record(name: string, ip: string)
  datatype Wan = Wan(interface: string, enabled: bool, username: string, password: string, mtu: int)
  datatype Rule = Rule(id: string, enabled: bool, policy: string)

  /** `rest` stands for every field these pages never touch. */
  datatype Config = Config(lan: Lan, dhcp: Dhcp, records: seq<Record>, wan: Wan, rules: seq<Rule>, rest: string)

  datatype Kind = LanKind | DhcpKind | DnsKind | RecordsKind | WanKind

  datatype Draft =
    | LanDraft(lan: Lan)
    | DhcpDraft(enabled: bool, rangeStart: string, rangeEnd: string, leaseTime: string)
    | DnsDraft(resolvers: string)
    | RecordsDraft(records: seq<Record>)
    | WanDraft(wan: Wan)

  // ---------------------------------------------------------------------------------------
  // Read and write

  function KindOf(d: Draft): Kind {
    match d
    case LanDraft(_) => LanKind
    case DhcpDraft(_, _, _, _) => DhcpKind
    case DnsDraft(_) => DnsKind
    case RecordsDraft(_) => RecordsKind
    case WanDraft(_) => WanKind
  }

  /** The text between the first two slashes, as the page prints it when there is none. */
  function PrefixOf(cidr: string): string {
    var parts := Split(cidr, '/');
    if |parts| > 1 then parts[1] else "undefined"
  }

  function CidrFor(ip: string, cidr: string): string {
    ip + "/" + PrefixOf(cidr)
  }

  /** `servers.join(", ")`. */
  function ShowResolvers(servers: seq<string>): string {
    Listed(servers, ',')
  }

  function Kept(parts: seq<string>, space: char -> bool): seq<string> {
    if parts == [] then []
    else
      var item := Trim(parts[0], space);
      (if item == [] then [] else [item]) + Kept(parts[1..], space)
  }

  /** `text.split(",")`, trimmed, without the empty ones. */
  function ParseResolvers(text: string, space: char -> bool): seq<string> {
    Kept(Split(text, ','), space)
  }

  function Read(kind: Kind, c: Config): Draft {
    match kind
    case LanKind => LanDraft(c.lan)
    case DhcpKind => DhcpDraft(c.dhcp.enabled, c.dhcp.rangeStart, c.dhcp.rangeEnd, c.dhcp.leaseTime)
    case DnsKind => DnsDraft(ShowResolvers(c.dhcp.dnsServers))
    case RecordsKind => RecordsDraft(c.records)
    case WanKind => WanDraft(c.wan.(password := ""))
  }

  function Write(c: Config, d: Draft, space: char -> bool): Config {
    match d
    case LanDraft(lan) => c.(lan := lan.(cidr := CidrFor(lan.ip, c.lan.cidr)))
    case DhcpDraft(enabled, rangeStart, rangeEnd, leaseTime) =>
      c.(dhcp := c.dhcp.(enabled := enabled, rangeStart := rangeStart, rangeEnd := rangeEnd, leaseTime := leaseTime))
    case DnsDraft(text) => c.(dhcp := c.dhcp.(dnsEnabled := false, dnsServers := ParseResolvers(text, space)))
    case RecordsDraft(records) => c.(records := records)
    case WanDraft(wan) => c.(wan := wan.(password := if wan.password == "" then c.wan.password else wan.password))
  }

  function Section(kind: Kind, space: char -> bool): Lens<Config, Draft> {
    Lens((c: Config) => Read(kind, c), (c: Config, d: Draft) => Write(c, d, space))
  }

  // ---------------------------------------------------------------------------------------
  // The resolver list as text

  predicate Clean(server: string, space: char -> bool) {
    server != "" && ',' !in server && Trimmed(server, space)
  }

  lemma {:induction false} TrimmedStays(s: string, space: char -> bool)
    requires Trimmed(s, space)
    ensures Trim(s, space) == s
  {
  }

  lemma {:induction false} KeptClean(parts: seq<string>, space: char -> bool)
    requires forall i | 0 <= i < |parts| :: ',' !in parts[i]
    ensures forall i | 0 <= i < |Kept(parts, space)| :: Clean(Kept(parts, space)[i], space)
  {
    if parts != [] {
      TrimTrims(parts[0], space);
      KeptClean(parts[1..], space);
    }
  }

  /** A leading space is invisible to the parser. */
  lemma SpaceIgnored(text: string, space: char -> bool)
    requires space(' ')
    ensures ParseResolvers([' '] + text, space) == ParseResolvers(text, space)
  {
    assert ([' '] + text)[1..] == text;
    var parts := Split(text, ',');
    var spaced := [[' '] + parts[0]] + parts[1..];
    assert Split([' '] + text, ',') == spaced;
    assert spaced[1..] == parts[1..];
    assert ([' '] + parts[0])[1..] == parts[0];
  }

  lemma {:induction false} ParseShown(servers: seq<string>, space: char -> bool)
    requires space(' ') && forall i | 0 <= i < |servers| :: Clean(servers[i], space)
    ensures ParseResolvers(ShowResolvers(servers), space) == servers
  {
    if servers == [] {
    } else {
      TrimmedStays(servers[0], space);
      if |servers| == 1 {
        SplitPrefix(servers[0], [], ',');
        assert Kept([servers[0]], space) == [servers[0]] + Kept([servers[0]][1..], space);
      } else {
        var rest := [' '] + ShowResolvers(servers[1..]);
        SplitPrefix(servers[0], rest, ',');
        SpaceIgnored(ShowResolvers(servers[1..]), space);
        ParseShown(servers[1..], space);
        assert ([servers[0]] + Split(rest, ','))[1..] == Split(rest, ',');
      }
    }
  }

  /** Showing the resolvers and reading them back loses nothing exactly when every one is non-empty,
      trimmed and free of commas. */
  lemma ResolversRoundTrip(servers: seq<string>, space: char -> bool)
    requires space(' ')
    ensures ParseResolvers(ShowResolvers(servers), space) == servers
      <==> forall i | 0 <= i < |servers| :: Clean(servers[i], space)
  {
    JoinSplit(ShowResolvers(servers), ',');
    KeptClean(Split(ShowResolvers(servers), ','), space);
    if forall i | 0 <= i < |servers| :: Clean(servers[i], space) {
      ParseShown(servers, space);
    }
  }

  // ---------------------------------------------------------------------------------------
  // The section laws

  /** A section save changes only its own section: every other section reads as before. */
  lemma SectionsIndependent(kind: Kind, other: Kind, base: Draft, draft: Draft, space: char -> bool)
    requires KindOf(draft) == kind != other
    ensures Leaves(SectionWrite(Section(kind, space), base, draft), Section(other, space))
  {
  }

  /** The rules and every field outside the sections are never touched by a section save. */
  lemma SectionFrame(c: Config, d: Draft, space: char -> bool)
    ensures Write(c, d, space).rules == c.rules && Write(c, d, space).rest == c.rest
    ensures Write(c, d, space).dhcp.leases == c.dhcp.leases
    ensures !d.DnsDraft? ==> Write(c, d, space).dhcp.dnsEnabled == c.dhcp.dnsEnabled
  {
  }

  /** The text is one that the page would print: clean resolvers, a comma and a space between them. */
  ghost predicate Printed(text: string, space: char -> bool) {
    exists servers: seq<string> :: AllClean(servers, space) && text == ShowResolvers(servers)
  }

  predicate AllClean(servers: seq<string>, space: char -> bool) {
    forall i | 0 <= i < |servers| :: Clean(servers[i], space)
  }

  /** A LAN save writes the new address with the prefix that the router has, and nothing else of its own; without a
      prefix it writes what the page prints for one. */
  lemma LanSaved(c: Config, lan: Lan, address: string, prefix: string, space: char -> bool)
    requires '/' !in address && '/' !in prefix
    ensures c.lan.cidr == address + "/" + prefix ==>
      Write(c, LanDraft(lan), space) == c.(lan := Lan(lan.interface, lan.ip, lan.netmask, lan.ip + "/" + prefix))
    ensures c.lan.cidr == address ==>
      Write(c, LanDraft(lan), space) == c.(lan := Lan(lan.interface, lan.ip, lan.netmask, lan.ip + "/undefined"))
  {
    SplitPrefix(address, prefix, '/');
    SplitPrefix(prefix, [], '/');
    assert address + "/" + prefix == address + ['/'] + prefix;
    assert "/undefined" == "/" + "undefined" && lan.ip + "/" + "undefined" == lan.ip + "/undefined";
  }

  /** Reading a text and printing it again gives the text back exactly when it was printed so. */
  lemma PrintedReadsBack(text: string, space: char -> bool)
    requires space(' ')
    ensures ShowResolvers(ParseResolvers(text, space)) == text <==> Printed(text, space)
  {
    JoinSplit(text, ',');
    KeptClean(Split(text, ','), space);
    assert AllClean(ParseResolvers(text, space), space);
    if servers: seq<string> :| AllClean(servers, space) && text == ShowResolvers(servers) {
      ParseShown(servers, space);
    }
  }

  /** What the section reads after a save is the draft itself, exactly when the LAN address keeps its
      prefix, the resolver text is in the form the page prints, and no new WAN password is given. */
  lemma SaveReadsBack(c: Config, d: Draft, space: char -> bool)
    requires space(' ')
    ensures Read(KindOf(d), Write(c, d, space)) == d <==>
      && (d.LanDraft? ==> d.lan.cidr == CidrFor(d.lan.ip, c.lan.cidr))
      && (d.DnsDraft? ==> Printed(d.resolvers, space))
      && (d.WanDraft? ==> d.wan.password == "")
  {
    match d
    case LanDraft(lan) =>
    case DhcpDraft(_, _, _, _) =>
    case DnsDraft(text) => PrintedReadsBack(text, space);
    case RecordsDraft(_) =>
    case WanDraft(wan) =>
  }

  /** Two resolvers typed without a space after the comma are saved, but read back with one. */
  lemma UnspacedReadsBackSpaced(c: Config, a: string, b: string, space: char -> bool)
    requires space(' ') && Clean(a, space) && Clean(b, space)
    ensures Read(DnsKind, Write(c, DnsDraft(a + "," + b), space)) == DnsDraft(a + ", " + b)
    ensures a + ", " + b != a + "," + b
  {
    TwoParsed(a, b, space);
    TwoShown(a, b);
    assert |a + ", " + b| != |a + "," + b|;
  }

  lemma TwoParsed(a: string, b: string, space: char -> bool)
    requires Clean(a, space) && Clean(b, space)
    ensures ParseResolvers(a + "," + b, space) == [a, b]
  {
    SplitPrefix(a, b, ',');
    SplitPrefix(b, "", ',');
    assert a + [','] + b == a + "," + b;
    KeptFirst(b, [], space);
    KeptFirst(a, [b], space);
    assert [a] + [b] == [a, b];
  }

  lemma KeptFirst(part: string, rest: seq<string>, space: char -> bool)
    requires Clean(part, space)
    ensures Kept([part] + rest, space) == [part] + Kept(rest, space)
  {
    TrimmedStays(part, space);
    assert ([part] + rest)[1..] == rest;
  }

  lemma TwoShown(a: string, b: string)
    ensures ShowResolvers([a, b]) == a + ", " + b
  {
    ListedAppend([a], b, ',');
    assert [a] + [b] == [a, b];
    assert a + [',', ' '] + b == a + ", " + b;
  }

  /** Saving a section as it reads changes nothing, exactly when the LAN prefix is already consistent,
      and for the resolvers when router DNS is off and every resolver survives its own text form. */
  lemma SavingUnchanged(kind: Kind, c: Config, space: char -> bool)
    requires space(' ')
    ensures Write(c, Read(kind, c), space) == c <==>
      && (kind == LanKind ==> c.lan.cidr == CidrFor(c.lan.ip, c.lan.cidr))
      && (kind == DnsKind ==> !c.dhcp.dnsEnabled && AllClean(c.dhcp.dnsServers, space))
  {
    ResolversRoundTrip(c.dhcp.dnsServers, space);
    match kind
    case LanKind =>
    case DhcpKind =>
    case DnsKind =>
    case RecordsKind =>
    case WanKind =>
  }

  /** Over any run, of two commits to a section with nothing in between that changes what it reads, the
      later one's base is the earlier one's draft exactly when that draft reads back as written. */
  lemma CommitsChain(
      s: System<Config, Draft>, events: seq<Event<Config, Draft>>, kind: Kind, space: char -> bool, i: nat, j: nat)
    requires Fresh(s) && i < j < |Run(s, events).log|
    requires var log := Run(s, events).log;
      && log[i].SectionWrite? && log[i].lens == Section(kind, space)
      && log[j].SectionWrite? && log[j].lens == Section(kind, space)
      && forall k | i < k < j :: Leaves(log[k], Section(kind, space))
    ensures i < |Run(s, events).past|
    ensures var r := Run(s, events);
      r.log[j].base == r.log[i].draft <==> Read(kind, Write(r.past[i], r.log[i].draft, space)) == r.log[i].draft
  {
    NoLostUpdate(s, events, i, j);
    SectionBasedOnLatest(s, events, i);
  }

  /** The changes the two pages make. */
  ghost predicate PageChange(c: Change<Config, Draft>, space: char -> bool) {
    || (c.SectionWrite? && c.lens == Section(KindOf(c.draft), space))
    || (exists rule :: c == AddedRule(rule))
    || (exists original, candidate :: c == EditedRule(original, candidate))
    || (exists id :: c == ToggledRule(id))
    || (exists id :: c == RemovedRule(id))
  }

  /** Every page change leaves a section alone unless it is a save of that section. */
  lemma OtherChangesLeave(c: Change<Config, Draft>, kind: Kind, space: char -> bool)
    requires PageChange(c, space) && !(c.SectionWrite? && KindOf(c.draft) == kind)
    ensures Leaves(c, Section(kind, space))
  {
    if c.SectionWrite? {
      SectionsIndependent(KindOf(c.draft), kind, c.base, c.draft, space);
      assert c == SectionWrite(c.lens, c.base, c.draft);
    } else if rule :| c == AddedRule(rule) {
      AddedRuleLeaves(rule, kind, space);
    } else if original, candidate :| c == EditedRule(original, candidate) {
      RulesLeaveSections("", original, candidate, kind, space);
    } else if id :| c == ToggledRule(id) {
      RulesLeaveSections(id, Rule("", true, ""), Rule("", true, ""), kind, space);
    } else {
      var id :| c == RemovedRule(id);
      RulesLeaveSections(id, Rule("", true, ""), Rule("", true, ""), kind, space);
    }
  }

  /** So in a log of saves and rule changes of every kind, consecutive saves of one section chain exactly
      when the earlier draft meets the condition of `SaveReadsBack`: always for DHCP and local names. */
  lemma MixedCommitsChain(
      s: System<Config, Draft>, events: seq<Event<Config, Draft>>, space: char -> bool, i: nat, j: nat)
    requires space(' ') && Fresh(s) && i < j < |Run(s, events).log|
    requires var log := Run(s, events).log;
      && (forall k | i <= k <= j :: PageChange(log[k], space))
      && log[i].SectionWrite? && log[j].SectionWrite? && KindOf(log[i].draft) == KindOf(log[j].draft)
      && forall k | i < k < j :: !(log[k].SectionWrite? && KindOf(log[k].draft) == KindOf(log[i].draft))
    ensures i < |Run(s, events).past|
    ensures var r := Run(s, events);
      var d := r.log[i].draft;
      r.log[j].base == d <==>
        && (d.LanDraft? ==> d.lan.cidr == CidrFor(d.lan.ip, r.past[i].lan.cidr))
        && (d.DnsDraft? ==> Printed(d.resolvers, space))
        && (d.WanDraft? ==> d.wan.password == "")
  {
    var log := Run(s, events).log;
    var kind := KindOf(log[i].draft);
    forall k | i < k < j ensures Leaves(log[k], Section(kind, space)) { OtherChangesLeave(log[k], kind, space); }
    assert PageChange(log[i], space) && PageChange(log[j], space);
    CommitsChain(s, events, kind, space, i, j);
    SaveReadsBack(Run(s, events).past[i], log[i].draft, space);
  }

  /** The masked password is the one part of a section that its save cannot compare: a password
      changed by another session is never noticed, and it survives the save exactly when the draft
      leaves the password blank or asks for that same password. */
  lemma PasswordChangeUnseen(c: Config, concurrent: string, base: Draft, wan: Wan, space: char -> bool)
    requires base == Read(WanKind, c)
    ensures var theirs := c.(wan := c.wan.(password := concurrent));
            var saved := Applied(SectionWrite(Section(WanKind, space), base, WanDraft(wan)), theirs);
            && saved.Some?
            && (saved.value.wan.password == concurrent <==> wan.password == "" || wan.password == concurrent)
  {
  }

  // ---------------------------------------------------------------------------------------
  // Rules

  function FindRule(rules: seq<Rule>, id: string): Option<Rule> {
    if rules == [] then None else if rules[0].id == id then Some(rules[0]) else FindRule(rules[1..], id)
  }

  function ReplaceRule(rules: seq<Rule>, id: string, rule: Rule): seq<Rule> {
    seq(|rules|, i requires 0 <= i < |rules| => if rules[i].id == id then rule else rules[i])
  }

  function ToggleRule(rules: seq<Rule>, id: string): seq<Rule> {
    seq(|rules|, i requires 0 <= i < |rules| =>
      if rules[i].id == id then rules[i].(enabled := !rules[i].enabled) else rules[i])
  }

  function RemoveRule(rules: seq<Rule>, id: string): seq<Rule> {
    if rules == [] then []
    else (if rules[0].id == id then [] else [rules[0]]) + RemoveRule(rules[1..], id)
  }

  /** Saving an opened rule: refused unless the rule with its id is still the one that was opened. */
  function EditedRule(original: Rule, candidate: Rule): Change<Config, Draft> {
    Mutation((c: Config) =>
      if FindRule(c.rules, original.id) == Some(original) then
        Some(c.(rules := ReplaceRule(c.rules, original.id, candidate)))
      else None)
  }

  /** Saving a new rule appends it; its id is new with each save. */
  function AddedRule(rule: Rule): Change<Config, Draft> {
    Mutation((c: Config) => Some(c.(rules := c.rules + [rule])))
  }

  lemma AddedRuleLeaves(rule: Rule, kind: Kind, space: char -> bool)
    ensures Leaves(AddedRule(rule), Section(kind, space))
  {
  }

  function ToggledRule(id: string): Change<Config, Draft> {
    Mutation((c: Config) => Some(c.(rules := ToggleRule(c.rules, id))))
  }

  function RemovedRule(id: string): Change<Config, Draft> {
    Mutation((c: Config) => Some(c.(rules := RemoveRule(c.rules, id))))
  }

  lemma {:induction false} FoundAt(rules: seq<Rule>, id: string) returns (k: nat)
    requires FindRule(rules, id).Some?
    ensures k < |rules| && rules[k] == FindRule(rules, id).value && rules[k].id == id
    ensures forall i | 0 <= i < k :: rules[i].id != id
  {
    if rules[0].id == id {
      k := 0;
    } else {
      k := FoundAt(rules[1..], id);
      k := k + 1;
    }
  }

  /** Every other rule with that id already is the candidate. */
  predicate OthersAgree(rules: seq<Rule>, k: nat, candidate: Rule)
    requires k < |rules|
  {
    forall i | 0 <= i < |rules| && i != k && rules[i].id == rules[k].id :: rules[i] == candidate
  }

  /** Saving a rule replaces just the one at k exactly when no other rule with its id differs from the candidate. */
  lemma ReplaceExact(rules: seq<Rule>, k: nat, candidate: Rule)
    requires k < |rules|
    ensures ReplaceRule(rules, rules[k].id, candidate) == rules[k := candidate] <==> OthersAgree(rules, k, candidate)
  {
    var replaced, wanted := ReplaceRule(rules, rules[k].id, candidate), rules[k := candidate];
    if OthersAgree(rules, k, candidate) {
      forall i | 0 <= i < |rules| ensures replaced[i] == wanted[i] {
      }
    }
    if replaced == wanted {
      forall i | 0 <= i < |rules| && i != k && rules[i].id == rules[k].id ensures rules[i] == candidate {
        assert replaced[i] == wanted[i];
      }
    }
  }

  /** Over any run, a committed rule edit found the rule that was opened, and it changed that rule in its
      place and nothing else of the configuration exactly when every other rule of that id agreed. */
  lemma RuleEditExact(
      s: System<Config, Draft>, events: seq<Event<Config, Draft>>, i: nat, original: Rule, candidate: Rule)
      returns (k: nat)
    requires Fresh(s) && i < |Run(s, events).log| && Run(s, events).log[i] == EditedRule(original, candidate)
    ensures i + 1 < |Run(s, events).past| && k < |Run(s, events).past[i].rules|
    ensures var rules := Run(s, events).past[i].rules;
      rules[k] == original && forall n | 0 <= n < k :: rules[n].id != original.id
    ensures var c, c' := Run(s, events).past[i], Run(s, events).past[i + 1];
      c' == c.(rules := c.rules[k := candidate]) <==> OthersAgree(c.rules, k, candidate)
  {
    Serializable(s, events);
    var r := Run(s, events);
    assert Applied(r.log[i], r.past[i]) == Some(r.past[i + 1]);
    k := FoundAt(r.past[i].rules, original.id);
    ReplaceExact(r.past[i].rules, k, candidate);
  }

  /** Two rules that share an id: saving the one that was opened overwrites the other as well, whatever it
      was and without comparing it. */
  lemma SharedIdOverwrites(c: Config, original: Rule, other: Rule, candidate: Rule)
    requires c.rules == [original, other] && original.id == other.id
    ensures Applied(EditedRule(original, candidate), c) == Some(c.(rules := [candidate, candidate]))
  {
    assert ReplaceRule(c.rules, original.id, candidate) == [candidate, candidate];
  }

  /** A toggle turns exactly the rules of its id on or off; two toggles of a rule cancel, in any order with toggles
      of other rules. */
  lemma TogglesCancel(rules: seq<Rule>, id: string, other: string)
    ensures var toggled := ToggleRule(rules, id);
      |toggled| == |rules| && forall i | 0 <= i < |rules| ::
        && toggled[i].id == rules[i].id && toggled[i].policy == rules[i].policy
        && (toggled[i].enabled != rules[i].enabled <==> rules[i].id == id)
    ensures ToggleRule(ToggleRule(rules, id), id) == rules
    ensures ToggleRule(ToggleRule(rules, id), other) == ToggleRule(ToggleRule(rules, other), id)
  {
    var once := ToggleRule(rules, id);
    forall i | 0 <= i < |rules| ensures ToggleRule(once, id)[i] == rules[i] {
    }
    forall i | 0 <= i < |rules|
      ensures ToggleRule(once, other)[i] == ToggleRule(ToggleRule(rules, other), id)[i]
    {
    }
  }

  /** Strictly ascending positions. */
  predicate Ascending(kept: seq<nat>) {
    forall i, j | 0 <= i < j < |kept| :: kept[i] < kept[j]
  }

  /** `kept` are the positions of the rules that a removal leaves: each stays as it was and in its place
      in the order, and exactly the rules of other ids stay. */
  ghost predicate Keeps(rules: seq<Rule>, id: string, kept: seq<nat>) {
    && Ascending(kept) && |kept| == |RemoveRule(rules, id)|
    && (forall n | 0 <= n < |kept| :: kept[n] < |rules| && RemoveRule(rules, id)[n] == rules[kept[n]])
    && (forall i | 0 <= i < |rules| :: i in kept <==> rules[i].id != id)
  }

  /** A removal leaves exactly the rules of other ids, in order. */
  lemma {:induction false} RemovalExact(rules: seq<Rule>, id: string) returns (kept: seq<nat>)
    ensures Keeps(rules, id, kept)
  {
    if rules == [] {
      kept := [];
    } else {
      var rest := RemovalExact(rules[1..], id);
      var shifted := seq(|rest|, n requires 0 <= n < |rest| => rest[n] + 1);
      Shifting(rules, id, rest, shifted);
      if rules[0].id == id {
        kept := shifted;
        assert RemoveRule(rules, id) == RemoveRule(rules[1..], id);
      } else {
        kept := [0] + shifted;
        HeadKept(rules, id, shifted);
      }
    }
  }

  /** The rules after the first, at their positions in the whole list. */
  ghost predicate KeepsAfterFirst(rules: seq<Rule>, id: string, shifted: seq<nat>)
    requires rules != []
  {
    && Ascending(shifted) && |shifted| == |RemoveRule(rules[1..], id)|
    && (forall n | 0 <= n < |shifted| :: 0 < shifted[n] < |rules|)
    && (forall n | 0 <= n < |shifted| :: RemoveRule(rules[1..], id)[n] == rules[shifted[n]])
    && (forall i | 1 <= i < |rules| :: i in shifted <==> rules[i].id != id)
  }

  lemma Shifting(rules: seq<Rule>, id: string, rest: seq<nat>, shifted: seq<nat>)
    requires rules != [] && Keeps(rules[1..], id, rest)
    requires |shifted| == |rest| && forall n | 0 <= n < |rest| :: shifted[n] == rest[n] + 1
    ensures KeepsAfterFirst(rules, id, shifted)
  {
    forall n | 0 <= n < |shifted| ensures RemoveRule(rules[1..], id)[n] == rules[shifted[n]] {
      assert rules[1..][rest[n]] == rules[shifted[n]];
    }
    forall i | 1 <= i < |rules| ensures i in shifted <==> rules[i].id != id {
      ShiftedMember(rest, shifted, i);
      assert rules[1..][i - 1] == rules[i];
    }
  }

  lemma ShiftedMember(rest: seq<nat>, shifted: seq<nat>, i: nat)
    requires i > 0 && |shifted| == |rest| && forall n | 0 <= n < |rest| :: shifted[n] == rest[n] + 1
    ensures i in shifted <==> i - 1 in rest
  {
    if i - 1 in rest {
      var n :| 0 <= n < |rest| && rest[n] == i - 1;
      assert shifted[n] == i;
    }
  }

  /** The first rule stays in front of what is kept of the others. */
  lemma HeadKept(rules: seq<Rule>, id: string, shifted: seq<nat>)
    requires rules != [] && rules[0].id != id && KeepsAfterFirst(rules, id, shifted)
    ensures Keeps(rules, id, [0] + shifted)
  {
    var kept: seq<nat> := [0] + shifted;
    assert RemoveRule(rules, id) == [rules[0]] + RemoveRule(rules[1..], id);
    AscendingFromZero(shifted);
    forall n | 0 <= n < |kept| ensures kept[n] < |rules| && RemoveRule(rules, id)[n] == rules[kept[n]] {
      assert n > 0 ==> kept[n] == shifted[n - 1];
    }
    forall i | 0 <= i < |rules| ensures i in kept <==> rules[i].id != id { InFront(shifted, i); }
  }

  lemma AscendingFromZero(shifted: seq<nat>)
    requires Ascending(shifted) && forall n | 0 <= n < |shifted| :: 0 < shifted[n]
    ensures Ascending([0] + shifted)
  {
  }

  lemma InFront(shifted: seq<nat>, i: nat)
    ensures i in [0] + shifted <==> i == 0 || i in shifted
  {
  }

  /** Rule changes leave every network section as it reads. */
  lemma RulesLeaveSections(id: string, original: Rule, candidate: Rule, kind: Kind, space: char -> bool)
    ensures Leaves(EditedRule(original, candidate), Section(kind, space))
    ensures Leaves(ToggledRule(id), Section(kind, space))
    ensures Leaves(RemovedRule(id), Section(kind, space))
  {
  }
}
