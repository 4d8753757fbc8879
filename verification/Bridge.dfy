/** The tool bridge's sessions: what it sends to the router for each tool call, in which mode, and
    when it signs in again. */
module Bridge {
  import opened Json
  import opened Text
  import opened Pairs
  import opened Percent

  /** What goes out, with the answer's status, 0 for no usable answer; and whether a sign-in worked. */
  datatype Sent =
    | Login(ok: bool)
    | Request(verb: string, path: string, status: nat)

  /** A tool call: `valid` says that its arguments pass the tool's own checks; `id` and `query` are the
      identifier and the parameters they carry, as bytes. */
  datatype Call = Call(name: string, valid: bool, id: string, query: map<string, string>)

  /** Where a tool's one request goes: a fixed path, a path with parameters, or a path that holds an
      identifier between other segments. */
  datatype Route =
    | Fixed(path: string)
    | Queried(path: string)
    | Item(before: seq<string>, after: seq<string>)

  /** `tool_list` without mutations. */
  const READ_TOOLS: set<string> := {
    "get_firewall_status", "explain_firewall_flow", "get_recovery_status", "list_snapshots",
    "preview_snapshot_restore", "get_pending_transaction", "get_dns_filter_status",
    "check_dns_filter_domain", "get_dns_filter_profiles", "get_dns_filter_operations",
    "get_diagnostics", "get_router_status", "get_full_config", "get_dns_activity",
    "get_recent_dns_lookups", "get_security_events", "get_startup_boots", "get_startup_boot",
    "get_firewall_activity", "get_traffic_insights", "get_health", "get_lan_dhcp_status",
    "get_network_interfaces", "list_dhcp_leases", "check_ip_availability"}

  const SNAPSHOTS := ["", "api", "v1", "snapshots"]

  /** The handlers that make one GET. */
  const READ_ROUTES: map<string, Route> := map[
    "get_lan_dhcp_status" := Fixed("/api/v1/network/lan"),
    "get_network_interfaces" := Fixed("/api/v1/system/interfaces"),
    "list_dhcp_leases" := Queried("/api/v1/network/leases"),
    "check_ip_availability" := Queried("/api/v1/network/address-check"),
    "get_firewall_status" := Fixed("/api/v1/firewall/status"),
    "explain_firewall_flow" := Queried("/api/v1/firewall/explain"),
    "get_recovery_status" := Fixed("/api/v1/recovery/status"),
    "list_snapshots" := Fixed("/api/v1/snapshots"),
    "get_pending_transaction" := Fixed("/api/v1/transactions/pending"),
    "get_dns_filter_status" := Fixed("/api/v1/dns-filter"),
    "get_dns_filter_profiles" := Fixed("/api/v1/dns-filter/profiles"),
    "get_dns_filter_operations" := Fixed("/api/v1/dns-filter/operations"),
    "check_dns_filter_domain" := Queried("/api/v1/dns-filter/check"),
    "get_diagnostics" := Fixed("/api/v1/system/diagnostics"),
    "preview_snapshot_restore" := Item(SNAPSHOTS, ["preview"]),
    "get_router_status" := Fixed("/api/v1/system"),
    "get_full_config" := Fixed("/api/v1/config"),
    "get_dns_activity" := Queried("/api/v1/dns-activity"),
    "get_recent_dns_lookups" := Queried("/api/v1/dns-activity/recent"),
    "get_security_events" := Queried("/api/v1/audit/events"),
    "get_startup_boots" := Fixed("/api/v1/startup/boots"),
    "get_startup_boot" := Item(["", "api", "v1", "startup", "boots"], []),
    "get_firewall_activity" := Fixed("/api/v1/firewall/activity"),
    "get_traffic_insights" := Queried("/api/v1/accounting/insights"),
    "get_health" := Fixed("/api/v1/health")]

  const ADMIN_TOOLS: set<string> := {"configure_dns", "create_snapshot", "rollback_snapshot"}

  function ToolList(allowMutations: bool): set<string> {
    if allowMutations then READ_TOOLS + ADMIN_TOOLS else READ_TOOLS
  }

  predicate IsMutationTool(name: string) {
    name in {"add_port_forward", "block_device_ip", "configure_dns", "configure_squid_proxy",
             "create_snapshot", "rollback_snapshot"}
  }

  predicate Expired(status: nat) {
    status == 401 || status == 403
  }

  predicate Succeeded(status: nat) {
    200 <= status <= 299
  }

  // ---------------------------------------------------------------------------------------
  // What one API call and a whole run may send

  predicate IsRequest(s: Sent, verb: string, path: string) {
    s.Request? && s.verb == verb && s.path == path
  }

  /** One API call: the request; if it is refused and no single-use code forbids it, a fresh sign-in; if
      that works, the same request once more. */
  predicate Exchange(sent: seq<Sent>, verb: string, path: string, totp: bool) {
    && 1 <= |sent| <= 3 && IsRequest(sent[0], verb, path)
    && (|sent| > 1 <==> !totp && sent[0].status in {401, 403})
    && (|sent| > 1 ==> sent[1].Login? && (|sent| == 3 <==> sent[1].ok))
    && (|sent| == 3 ==> IsRequest(sent[2], verb, path))
  }

  /** The last thing sent is a request, and it succeeded. */
  predicate Answered(sent: seq<Sent>) {
    sent != [] && sent[|sent| - 1].Request? && 200 <= sent[|sent| - 1].status <= 299
  }

  /** Every sign-in follows a refused request at once, and none is made with a single-use code. */
  ghost predicate SignInsJustified(trace: seq<Sent>, totp: bool) {
    forall i | 0 <= i < |trace| && trace[i].Login? ::
      !totp && i > 0 && trace[i - 1].Request? && Expired(trace[i - 1].status)
  }

  ghost predicate OnlyReads(trace: seq<Sent>) {
    forall i | 0 <= i < |trace| :: trace[i].Request? ==> trace[i].verb == "GET"
  }

  predicate Accepted(s: Sent) {
    IsRequest(s, "POST", "/api/v1/config/preview") && Succeeded(s.status)
  }

  /** Position i comes straight after an accepted preview, or repeats a refused write that did. */
  predicate Previewed(trace: seq<Sent>, i: nat)
    requires i <= |trace|
  {
    || (i > 0 && Accepted(trace[i - 1]))
    || (i > 2 && trace[i - 1].Login? && trace[i - 2].Request? && trace[i - 2].verb == "PUT" && Accepted(trace[i - 3]))
  }

  /** No configuration is written that has not just passed a preview. */
  ghost predicate WritesPreviewed(trace: seq<Sent>) {
    forall i | 0 <= i < |trace| :: trace[i].Request? && trace[i].verb == "PUT" ==> Previewed(trace, i)
  }

  lemma ExchangeJustified(trace: seq<Sent>, sent: seq<Sent>, verb: string, path: string, totp: bool)
    requires SignInsJustified(trace, totp) && Exchange(sent, verb, path, totp)
    ensures SignInsJustified(trace + sent, totp)
  {
  }

  lemma ExchangeReads(trace: seq<Sent>, sent: seq<Sent>, path: string, totp: bool)
    requires OnlyReads(trace) && Exchange(sent, "GET", path, totp)
    ensures OnlyReads(trace + sent)
  {
  }

  lemma ExchangePreviewed(trace: seq<Sent>, sent: seq<Sent>, verb: string, path: string, totp: bool)
    requires WritesPreviewed(trace) && Exchange(sent, verb, path, totp)
    requires verb == "PUT" ==> |trace| > 0 && Accepted(trace[|trace| - 1])
    ensures WritesPreviewed(trace + sent)
  {
    forall i | 0 <= i < |trace + sent| && (trace + sent)[i].Request? && (trace + sent)[i].verb == "PUT"
      ensures Previewed(trace + sent, i)
    {
      if i < |trace| {
        assert Previewed(trace, i);
      }
    }
  }

  ghost predicate SoundTrace(trace: seq<Sent>, allowMutations: bool, totp: bool) {
    SignInsJustified(trace, totp) && WritesPreviewed(trace) && (!allowMutations ==> OnlyReads(trace))
  }

  predicate MaySend(trace: seq<Sent>, verb: string, allowMutations: bool) {
    && (!allowMutations ==> verb == "GET")
    && (verb == "PUT" ==> |trace| > 0 && Accepted(trace[|trace| - 1]))
  }

  lemma Joined(a: seq<Sent>, b: seq<Sent>, c: seq<Sent>)
    ensures a + b + c == a + (b + c)
  {
  }

  lemma Grow(before: seq<Sent>, sent: seq<Sent>, next: Sent)
    ensures before + sent + [next] == before + (sent + [next])
  {
  }

  /** An exchange keeps everything the trace promises. */
  lemma Append(before: seq<Sent>, sent: seq<Sent>, verb: string, path: string, allowMutations: bool, totp: bool)
    requires SoundTrace(before, allowMutations, totp) && MaySend(before, verb, allowMutations)
    requires Exchange(sent, verb, path, totp)
    ensures SoundTrace(before + sent, allowMutations, totp)
  {
    ExchangeJustified(before, sent, verb, path, totp);
    ExchangePreviewed(before, sent, verb, path, totp);
    if !allowMutations { ExchangeReads(before, sent, path, totp); }
  }

  /** In read-only mode the two guards agree: nothing that is listed is a mutation. */
  lemma ReadToolsDoNotMutate(name: string)
    requires name in ToolList(false)
    ensures !IsMutationTool(name)
  {
  }

  /** The list and the handlers agree: a tool is offered in read-only mode exactly when its handler is one
      GET. */
  lemma ReadToolsAreGets(name: string)
    ensures name in ToolList(false) <==> name in READ_ROUTES
  {
  }

  lemma AdminToolsAreNotGets(name: string)
    ensures name in ADMIN_TOOLS ==> name !in READ_ROUTES
  {
    assert "configure_dns" !in READ_ROUTES;
    assert "create_snapshot" !in READ_ROUTES;
    assert "rollback_snapshot" !in READ_ROUTES;
  }

  /** A tool that the bridge offers in its mode. */
  predicate Offered(name: string, allowMutations: bool) {
    name in READ_ROUTES || (allowMutations && name in ADMIN_TOOLS)
  }

  lemma ToolsHandled(name: string, allowMutations: bool)
    ensures name in ToolList(allowMutations) <==> Offered(name, allowMutations)
    ensures name in ADMIN_TOOLS ==> name !in READ_ROUTES
    ensures Offered(name, allowMutations) && IsMutationTool(name) ==> allowMutations
    ensures name in {"configure_dns", "create_snapshot", "rollback_snapshot"} ==>
      (name in ToolList(allowMutations) <==> allowMutations)
  {
    ReadToolsAreGets(name);
    AdminToolsAreNotGets(name);
    if name in ToolList(false) { ReadToolsDoNotMutate(name); }
  }

  // ---------------------------------------------------------------------------------------
  // Paths

  ghost function PathOf(route: Route, id: string, query: map<string, string>): string
    requires IsBytes(id)
  {
    match route
    case Fixed(path) => path
    case Queried(path) => if query == map[] then path else path + ['?'] + Encode(query)
    case Item(before, after) => Join(before + [Escape(id, PathKeeps, false)] + after, '/')
  }

  predicate SlashFree(segments: seq<string>) {
    forall i | 0 <= i < |segments| :: '/' !in segments[i]
  }

  /** An identifier stays one segment of its path and decodes to itself; only "." and ".." make it a dot
      segment. */
  lemma IdentifierIsOneSegment(before: seq<string>, after: seq<string>, id: string, query: map<string, string>)
    requires IsBytes(id) && SlashFree(before) && SlashFree(after)
    ensures var segments := Split(PathOf(Item(before, after), id, query), '/');
      && |segments| == |before| + 1 + |after| && segments[..|before|] == before && segments[|before| + 1..] == after
      && Unescape(segments[|before|], false) == Some(id)
      && (segments[|before|] in {".", ".."} <==> id in {".", ".."})
  {
    var segment := Escape(id, PathKeeps, false);
    PathSegmentEnds(id, '/');
    PathRoundTrip(id);
    DotSegmentsPass(id);
    SplitJoin(before + [segment] + after, '/');
  }

  /** Parameters never change the path, and decode to what the tool was given. */
  lemma ParametersDecode(path: string, id: string, query: map<string, string>)
    requires IsBytes(id) && ByteMap(query) && query != map[] && '?' !in path
    ensures var parts := SplitOnce(PathOf(Queried(path), id, query), '?');
      parts.Some? && parts.value.0 == path && ParseQuery(parts.value.1) == query
  {
    SplitOnceShown(path, Encode(query), '?');
    QueryRoundTrip(query);
  }

  // ---------------------------------------------------------------------------------------
  // What the tools that change something send

  predicate EndsWith(sent: seq<Sent>, verb: string) {
    sent != [] && sent[|sent| - 1].Request? && sent[|sent| - 1].verb == verb
  }

  /** A read; a preview, only if the read succeeded; a write, if and only if the preview did. */
  ghost predicate Steps(get: seq<Sent>, post: seq<Sent>, put: seq<Sent>, totp: bool) {
    && Exchange(get, "GET", "/api/v1/config", totp)
    && (post == [] || (Answered(get) && Exchange(post, "POST", "/api/v1/config/preview", totp)))
    && (if Answered(post) then Exchange(put, "PUT", "/api/v1/config", totp) else put == [])
  }

  ghost predicate Configures(sent: seq<Sent>, totp: bool) {
    exists get, post, put :: sent == get + post + put && Steps(get, post, put, totp)
  }

  /** What an admin tool sends. */
  ghost predicate Administers(sent: seq<Sent>, call: Call, totp: bool)
    requires IsBytes(call.id)
  {
    if call.name == "configure_dns" then Configures(sent, totp)
    else if call.name == "create_snapshot" then Exchange(sent, "POST", "/api/v1/snapshots", totp)
    else if call.name == "rollback_snapshot" then
      var segment := Escape(call.id, PathKeeps, false);
      Exchange(sent, "POST", Join(["", "api", "v1", "snapshots", segment, "restore"], '/'), totp)
    else sent == []
  }

  /** What a tool sends: a read tool its one GET. */
  ghost predicate Handles(sent: seq<Sent>, call: Call, totp: bool)
    requires IsBytes(call.id)
  {
    if call.name in READ_ROUTES then Exchange(sent, "GET", PathOf(READ_ROUTES[call.name], call.id, call.query), totp)
    else Administers(sent, call, totp)
  }

  /** A call succeeds exactly when the last request does; for a change, when that is the write. */
  predicate Succeeds(name: string, sent: seq<Sent>) {
    Answered(sent) && (name == "configure_dns" ==> EndsWith(sent, "PUT"))
  }

  lemma RestorePath(id: string, query: map<string, string>)
    requires IsBytes(id)
    ensures PathOf(Item(SNAPSHOTS, ["restore"]), id, query) ==
      Join(["", "api", "v1", "snapshots", Escape(id, PathKeeps, false), "restore"], '/')
  {
    var segment := Escape(id, PathKeeps, false);
    assert SNAPSHOTS + [segment] + ["restore"] == ["", "api", "v1", "snapshots", segment, "restore"];
  }

  // ---------------------------------------------------------------------------------------
  // The bridge

  class Bridge {
    const allowMutations: bool
    const totpConfigured: bool
    /** Whether the bridge signed in at start. */
    const connected: bool
    /** Everything sent since the bridge signed in at start. */
    var trace: seq<Sent>

    constructor (allowMutations: bool, totpConfigured: bool, connected: bool)
      ensures Sound() && trace == [] && this.connected == connected
      ensures this.allowMutations == allowMutations && this.totpConfigured == totpConfigured
    {
      this.allowMutations, this.totpConfigured, this.connected := allowMutations, totpConfigured, connected;
      trace := [];
    }

    ghost predicate Sound()
      reads this`trace
    {
      SoundTrace(trace, allowMutations, totpConfigured)
    }

    method Send(verb: string, path: string) returns (status: nat)
      modifies this`trace
      ensures trace == old(trace) + [Request(verb, path, status)]
    {
      status := *;
      trace := trace + [Request(verb, path, status)];
    }

    method SignIn() returns (ok: bool)
      modifies this`trace
      ensures trace == old(trace) + [Login(ok)]
    {
      ok := *;
      trace := trace + [Login(ok)];
    }

    /** `call_api`: a success is the success of the last request it sent. */
    method CallApi(verb: string, path: string) returns (status: Option<nat>, ghost sent: seq<Sent>)
      requires Sound() && MaySend(trace, verb, allowMutations)
      modifies this`trace
      ensures Sound() && trace == old(trace) + sent
      ensures if connected then Exchange(sent, verb, path, totpConfigured) else sent == []
      ensures status.Some? <==> Answered(sent)
      ensures status.Some? ==> sent[|sent| - 1] == Request(verb, path, status.value)
    {
      if !connected { return None, []; }
      var first := Send(verb, path);
      sent := [Request(verb, path, first)];
      if !Expired(first) || totpConfigured {
        Append(old(trace), sent, verb, path, allowMutations, totpConfigured);
        return if Succeeded(first) then Some(first) else None, sent;
      }
      var ok := SignIn();
      Grow(old(trace), sent, Login(ok));
      sent := sent + [Login(ok)];
      if !ok {
        Append(old(trace), sent, verb, path, allowMutations, totpConfigured);
        return None, sent;
      }
      var second := Send(verb, path);
      Grow(old(trace), sent, Request(verb, path, second));
      sent := sent + [Request(verb, path, second)];
      Append(old(trace), sent, verb, path, allowMutations, totpConfigured);
      return if Succeeded(second) then Some(second) else None, sent;
    }

    method MakePath(route: Route, id: string, query: map<string, string>) returns (path: string)
      requires IsBytes(id) && ByteMap(query)
      ensures path == PathOf(route, id, query)
    {
      match route
      case Fixed(fixed) => path := fixed;
      case Queried(base) =>
        if query == map[] { return base; }
        var encoded := QueryEncode(query);
        path := base + ['?'] + encoded;
      case Item(before, after) =>
        var segment := PathEscape(id);
        path := Join(before + [segment] + after, '/');
    }

    /** `execute_tool_call`: false is an error. A read tool makes one GET exchange of its own path. */
    method Execute(call: Call) returns (ok: bool, ghost sent: seq<Sent>)
      requires Sound() && IsBytes(call.id) && ByteMap(call.query)
      modifies this`trace
      ensures Sound() && trace == old(trace) + sent && (ok <==> Succeeds(call.name, sent))
      ensures if Offered(call.name, allowMutations) && call.valid && connected
        then Handles(sent, call, totpConfigured) else sent == []
    {
      ToolsHandled(call.name, allowMutations);
      if call.name !in ToolList(allowMutations) { return false, []; }
      if IsMutationTool(call.name) && !allowMutations { return false, []; }
      if !call.valid { return false, []; }
      ok, sent := Dispatch(call);
    }

    method Dispatch(call: Call) returns (ok: bool, ghost sent: seq<Sent>)
      requires Sound() && IsBytes(call.id) && ByteMap(call.query) && Offered(call.name, allowMutations)
      modifies this`trace
      ensures Sound() && trace == old(trace) + sent && (ok <==> Succeeds(call.name, sent))
      ensures if connected then Handles(sent, call, totpConfigured) else sent == []
    {
      if call.name in READ_ROUTES {
        ok, sent := Fetch(call);
      } else {
        ok, sent := Administer(call);
      }
    }

    method Fetch(call: Call) returns (ok: bool, ghost sent: seq<Sent>)
      requires Sound() && call.name in READ_ROUTES && IsBytes(call.id) && ByteMap(call.query)
      modifies this`trace
      ensures Sound() && trace == old(trace) + sent && (ok <==> Succeeds(call.name, sent))
      ensures if connected
        then Exchange(sent, "GET", PathOf(READ_ROUTES[call.name], call.id, call.query), totpConfigured)
        else sent == []
    {
      var path := MakePath(READ_ROUTES[call.name], call.id, call.query);
      var r;
      r, sent := CallApi("GET", path);
      ok := r.Some?;
      AdminToolsAreNotGets(call.name);
    }

    /** The tools that change something, offered only in admin mode. */
    method Administer(call: Call) returns (ok: bool, ghost sent: seq<Sent>)
      requires Sound() && allowMutations && IsBytes(call.id) && ByteMap(call.query)
      modifies this`trace
      ensures Sound() && trace == old(trace) + sent
      ensures if connected then Administers(sent, call, totpConfigured) else sent == []
      ensures ok <==> Succeeds(call.name, sent)
    {
      if call.name == "configure_dns" {
        ok, sent := ConfigureDns();
      } else if call.name == "create_snapshot" {
        var r;
        r, sent := CallApi("POST", "/api/v1/snapshots");
        ok := r.Some?;
      } else if call.name == "rollback_snapshot" {
        var path := MakePath(Item(SNAPSHOTS, ["restore"]), call.id, call.query);
        RestorePath(call.id, call.query);
        var r;
        r, sent := CallApi("POST", path);
        ok := r.Some?;
      } else {
        ok, sent := false, [];
      }
    }

    /** Read, change, preview, write; each step exactly when the one before succeeded. */
    method ConfigureDns() returns (ok: bool, ghost sent: seq<Sent>)
      requires Sound() && allowMutations
      modifies this`trace
      ensures Sound() && trace == old(trace) + sent
      ensures !connected ==> !ok && sent == []
      ensures connected ==> Configures(sent, totpConfigured) && (ok <==> Answered(sent) && EndsWith(sent, "PUT"))
    {
      var fetched, get := CallApi("GET", "/api/v1/config");
      var usable: bool := *;
      if fetched.None? || !usable {
        assert get == get + [] + [] && (connected ==> Steps(get, [], [], totpConfigured));
        return false, get;
      }
      var previewed, post := CallApi("POST", "/api/v1/config/preview");
      Joined(old(trace), get, post);
      if previewed.None? {
        assert get + post == get + post + [] && (connected ==> Steps(get, post, [], totpConfigured));
        return false, get + post;
      }
      var saved, put := CallApi("PUT", "/api/v1/config");
      Joined(old(trace), get + post, put);
      assert connected ==> Steps(get, post, put, totpConfigured);
      return saved.Some?, get + post + put;
    }

    /** Any run of tool calls, whatever the router answers. */
    method Serve(calls: seq<Call>)
      requires Sound() && forall i | 0 <= i < |calls| :: IsBytes(calls[i].id) && ByteMap(calls[i].query)
      modifies this`trace
      ensures Sound()
    {
      for i := 0 to |calls|
        invariant Sound()
      {
        var _, _ := Execute(calls[i]);
      }
    }
  }
}
