/** The server command (package cmd): the configuration checks, the list of served
    suffixes, the rebuild of the record table from the membership source, and the
    staleness policy that decides when to rebuild. The membership source's answers are
    inputs; the HTTP calls that produce them are not modelled. */
module Server {
  import opened Text
  import opened DnsServer

  // ---------------------------------------------------------------------------
  // Configuration
  // ---------------------------------------------------------------------------

  /** One `Networks` entry of the configuration: a label and a network ID. */
  datatype NetworkEntry = NetworkEntry(domain: string, id: string)

  /** The settings the server command reads. `networks` lists the configured map in the
      order the map is walked. */
  datatype Config = Config(
    apiKey: string,
    networks: seq<NetworkEntry>,
    url: string,
    suffix: string,
    myFqdn: string,
    dbRefresh: int)

  datatype ConfigError = NoApiKey | NoNetworks | NoUrl | NoSuffix | NoServerName

  datatype Validation = Accepted | Rejected(reason: ConfigError)

  /** Whether the setting that `e` reports is absent. */
  predicate Missing(cfg: Config, e: ConfigError)
  {
    match e
    case NoApiKey => cfg.apiKey == ""
    case NoNetworks => |cfg.networks| == 0
    case NoUrl => cfg.url == ""
    case NoSuffix => cfg.suffix == ""
    case NoServerName => cfg.myFqdn == ""
  }

  /** The order in which the checks run. */
  function Rank(e: ConfigError): nat
  {
    match e
    case NoApiKey => 0
    case NoNetworks => 1
    case NoUrl => 2
    case NoSuffix => 3
    case NoServerName => 4
  }

  /** The command's pre-run check: the configuration is accepted exactly when no required
      setting is missing, and otherwise rejected for the first missing one in check order. */
  function CheckConfig(cfg: Config): (r: Validation)
    ensures r == Accepted <==> forall e :: !Missing(cfg, e)
    ensures r.Rejected? ==> Missing(cfg, r.reason) && forall e :: Rank(e) < Rank(r.reason) ==> !Missing(cfg, e)
  {
    if cfg.apiKey == "" then assert Missing(cfg, NoApiKey); Rejected(NoApiKey)
    else if |cfg.networks| == 0 then assert Missing(cfg, NoNetworks); Rejected(NoNetworks)
    else if cfg.url == "" then assert Missing(cfg, NoUrl); Rejected(NoUrl)
    else if cfg.suffix == "" then assert Missing(cfg, NoSuffix); Rejected(NoSuffix)
    else if cfg.myFqdn == "" then assert Missing(cfg, NoServerName); Rejected(NoServerName)
    else Accepted
  }

  /** The served suffix of a configured network: `label.suffix.`, lower-cased. */
  function ZoneOf(domain: string, suffix: string): string
  {
    Lower(domain + "." + suffix + ".")
  }

  /** `initializeData`: fills the suffix list, one entry per configured network, in the
      order the configuration is walked. */
  method InitializeData(suffix: string, networks: seq<NetworkEntry>) returns (domains: seq<string>)
    ensures |domains| == |networks|
    ensures forall i :: 0 <= i < |networks| ==> domains[i] == ZoneOf(networks[i].domain, suffix)
  {
    var zones := new string[|networks|];
    var i := 0;
    while i < |networks|
      invariant 0 <= i <= |networks|
      invariant forall k :: 0 <= k < i ==> zones[k] == ZoneOf(networks[k].domain, suffix)
    {
      zones[i] := Lower(networks[i].domain + "." + suffix + ".");
      i := i + 1;
    }
    domains := zones[..];
  }

  /** The refresh interval in minutes: `DbRefresh`, with 0 meaning the default of 30. */
  function RefreshMinutes(configured: int): int
  {
    if configured == 0 then 30 else configured
  }

  /** Nanoseconds per minute: times are integer nanoseconds, as Go's durations are. */
  const NANOS_PER_MINUTE: int := 60_000_000_000

  /** The table is stale at `now` when strictly more than `refresh` minutes have passed
      since the last rebuild. */
  predicate Stale(lastUpdate: int, now: int, refresh: int)
  {
    now - lastUpdate > refresh * NANOS_PER_MINUTE
  }

  // ---------------------------------------------------------------------------
  // What the membership source reports
  // ---------------------------------------------------------------------------

  /** The answer of one call to the membership source: a value, or an error. */
  datatype Fetch<T> = Fetched(value: T) | FetchFailed

  /** A network's IPv6 auto-assignment modes. */
  datatype NetInfo = NetInfo(sixplane: bool, rfc4193: bool)

  /** A network member. Its 6plane and RFC 4193 addresses, which the source derives from
      the network and member IDs, are given as values. */
  datatype Member = Member(
    name: string,
    online: bool,
    sixplaneAddr: Address,
    rfc4193Addr: Address,
    ipAssignments: seq<Address>)

  /** What the rebuild learns for one configured network: its label, the network-info call
      and the member-list call. */
  datatype NetworkPoll = NetworkPoll(domain: string, info: Fetch<NetInfo>, members: Fetch<seq<Member>>)

  /** A network whose two calls both succeeded. */
  datatype Network = Network(domain: string, info: NetInfo, members: seq<Member>)

  predicate Complete(poll: NetworkPoll)
  {
    poll.info.Fetched? && poll.members.Fetched?
  }

  function NetworkOf(poll: NetworkPoll): Network
    requires Complete(poll)
  {
    Network(poll.domain, poll.info.value, poll.members.value)
  }

  /** The networks of a list of polls that all succeeded. */
  function Networks(polls: seq<NetworkPoll>): (nets: seq<Network>)
    requires forall k :: 0 <= k < |polls| ==> Complete(polls[k])
    decreases |polls|
  {
    if polls == [] then []
    else Networks(polls[..|polls| - 1]) + [NetworkOf(polls[|polls| - 1])]
  }

  /** How many polls, from the start, succeeded: the rebuild stops at the first failure. */
  function FetchedPrefix(polls: seq<NetworkPoll>): (n: nat)
    ensures n <= |polls|
    ensures forall k :: 0 <= k < n ==> Complete(polls[k])
    ensures n < |polls| ==> !Complete(polls[n])
    decreases |polls|
  {
    if polls == [] || !Complete(polls[0]) then 0
    else
      var n := 1 + FetchedPrefix(polls[1..]);
      assert forall k :: 1 <= k < n ==> polls[k] == polls[1..][k - 1];
      n
  }

  // ---------------------------------------------------------------------------
  // The table a rebuild produces
  // ---------------------------------------------------------------------------

  /** The hostname of a member: `name.label.suffix.`, lower-cased. */
  function HostName(member: Member, domain: string, suffix: string): string
  {
    Lower(member.name + "." + domain + "." + suffix + ".")
  }

  /** The entry of a member: its assigned IPv4 addresses in order; its 6plane address if the
      network enables 6plane, then its RFC 4193 address if the network enables RFC 4193. */
  function EntryOf(member: Member, info: NetInfo): Records
  {
    Records(
      member.ipAssignments,
      (if info.sixplane then [member.sixplaneAddr] else []) + (if info.rfc4193 then [member.rfc4193Addr] else []))
  }

  /** One write into the table. */
  datatype Upsert = Upsert(host: string, entry: Records)

  function UpsertOf(net: Network, member: Member, suffix: string): Upsert
  {
    Upsert(HostName(member, net.domain, suffix), EntryOf(member, net.info))
  }

  /** The writes for the online members of `ms`, in list order. */
  function MemberWrites(net: Network, ms: seq<Member>, suffix: string): seq<Upsert>
    decreases |ms|
  {
    if ms == [] then []
    else
      var init := MemberWrites(net, ms[..|ms| - 1], suffix);
      var m := ms[|ms| - 1];
      if m.online then init + [UpsertOf(net, m, suffix)] else init
  }

  /** The writes of a whole rebuild: network by network, member by member. */
  function Writes(nets: seq<Network>, suffix: string): seq<Upsert>
    decreases |nets|
  {
    if nets == [] then []
    else Writes(nets[..|nets| - 1], suffix) + MemberWrites(nets[|nets| - 1], nets[|nets| - 1].members, suffix)
  }

  /** The map a list of writes builds from nothing, later writes overwriting earlier ones. */
  function Apply(ws: seq<Upsert>): map<string, Records>
    decreases |ws|
  {
    if ws == [] then map[]
    else Apply(ws[..|ws| - 1])[ws[|ws| - 1].host := ws[|ws| - 1].entry]
  }

  /** The freshly staged table of a rebuild over `nets`. */
  function Staged(nets: seq<Network>, suffix: string): Table
  {
    Apply(Writes(nets, suffix))
  }

  // ---------------------------------------------------------------------------
  // The server state
  // ---------------------------------------------------------------------------

  /** The rebuild's result: its completion time, or an abort (the source exits). */
  datatype Outcome = Completed(at: int) | Aborted

  /** The process-wide state of the server command: the record table, the time of the last
      rebuild, and the settings fixed at startup. */
  class NameServer {
    var db: Table
    var lastUpdate: int
    const suffix: string
    const zones: seq<string>
    const refresh: int

    /** The state after `initializeData` and before the first rebuild: the suffix list, the
        refresh interval with its default applied, an empty table and a clock that `Startup`
        sets at once from the first rebuild. */
    constructor (cfg: Config)
      ensures db == map[] && lastUpdate == 0
      ensures suffix == cfg.suffix && refresh == RefreshMinutes(cfg.dbRefresh)
      ensures |zones| == |cfg.networks|
      ensures forall i :: 0 <= i < |cfg.networks| ==> zones[i] == ZoneOf(cfg.networks[i].domain, cfg.suffix)
    {
      var domains := InitializeData(cfg.suffix, cfg.networks);
      db := map[];
      lastUpdate := 0;
      suffix := cfg.suffix;
      zones := domains;
      refresh := RefreshMinutes(cfg.dbRefresh);
    }

    /** The startup sequence of the server command: `initializeData`, then the first
        `lastUpdate := updateDNS()`, then the refresh interval. `alive` is false when the
        first rebuild fails, where the source ends the process. */
    static method Startup(cfg: Config, polls: seq<NetworkPoll>, finished: int) returns (server: NameServer, alive: bool)
      ensures fresh(server)
      ensures server.suffix == cfg.suffix && server.refresh == RefreshMinutes(cfg.dbRefresh)
      ensures |server.zones| == |cfg.networks|
      ensures forall i :: 0 <= i < |cfg.networks| ==> server.zones[i] == ZoneOf(cfg.networks[i].domain, cfg.suffix)
      ensures alive <==> FetchedPrefix(polls) == |polls|
      ensures alive ==> server.db == Staged(Networks(polls), cfg.suffix) && server.lastUpdate == finished
      ensures !alive ==> server.db == Staged(Networks(polls[..FetchedPrefix(polls)]), cfg.suffix)
    {
      server := new NameServer(cfg);
      alive := server.Rebuild(polls, finished);
    }

    /** `updateDNS`: writes every online member's entry into the table in place, then deletes
        every key that was not written. A failed call to the membership source aborts the
        rebuild where it stands; `finished` is the clock reading at the end. */
    method UpdateDns(polls: seq<NetworkPoll>, finished: int) returns (outcome: Outcome)
      modifies this`db
      ensures outcome.Completed? <==> FetchedPrefix(polls) == |polls|
      ensures outcome.Completed? ==> outcome.at == finished && db == Staged(Networks(polls), suffix)
      ensures outcome.Aborted? ==> db == old(db) + Staged(Networks(polls[..FetchedPrefix(polls)]), suffix)
    {
      var complete, foundDomains := WriteNetworks(polls);
      if !complete {
        outcome := Aborted;
        return;
      }
      DeleteUnwritten(foundDomains);
      assert db == Staged(Networks(polls), suffix);
      outcome := Completed(finished);
    }

    /** The outer loop of `updateDNS`: the networks in order, each written with
        `WriteNetwork`, stopping at the first failed call. `found` is the set of hostnames
        written. */
    method WriteNetworks(polls: seq<NetworkPoll>) returns (complete: bool, found: set<string>)
      modifies this`db
      ensures complete <==> FetchedPrefix(polls) == |polls|
      ensures complete ==> db == old(db) + Staged(Networks(polls), suffix)
      ensures complete ==> found == Staged(Networks(polls), suffix).Keys
      ensures !complete ==> db == old(db) + Staged(Networks(polls[..FetchedPrefix(polls)]), suffix)
    {
      found := {};
      var i := 0;
      while i < |polls|
        invariant 0 <= i <= |polls|
        invariant forall k :: 0 <= k < i ==> Complete(polls[k])
        invariant db == old(db) + Staged(Networks(polls[..i]), suffix)
        invariant found == Staged(Networks(polls[..i]), suffix).Keys
      {
        var poll := polls[i];
        if poll.info.FetchFailed? || poll.members.FetchFailed? {
          PrefixEndsAt(polls, i);
          complete := false;
          return;
        }
        ghost var before := db;
        var written := WriteNetwork(poll.domain, poll.info.value, poll.members.value);
        WrittenNext(polls, i, suffix, old(db), before, db, found, written);
        found := found + written;
        i := i + 1;
      }
      assert polls[..|polls|] == polls;
      PrefixEndsAt(polls, |polls|);
      complete := true;
    }

    /** The inner loop of `updateDNS` for one network: for each online member, in list order,
        the hostname is first cleared and then given the member's entry. `written` is the set
        of hostnames written. */
    method WriteNetwork(domain: string, info: NetInfo, members: seq<Member>) returns (written: set<string>)
      modifies this`db
      ensures db == old(db) + Apply(MemberWrites(Network(domain, info, members), members, suffix))
      ensures written == Apply(MemberWrites(Network(domain, info, members), members, suffix)).Keys
    {
      ghost var net := Network(domain, info, members);
      written := {};
      assert members[..0] == [];
      for j := 0 to |members|
        invariant db == old(db) + Apply(MemberWrites(net, members[..j], suffix))
        invariant written == Apply(MemberWrites(net, members[..j], suffix)).Keys
      {
        ghost var applied := Apply(MemberWrites(net, members[..j], suffix));
        ghost var before := db;
        var one := WriteMember(domain, info, members[j]);
        written := written + one;
        MemberStep(net, members, j, suffix);
        if members[j].online {
          UnionUpdate(old(db), applied, HostName(members[j], domain, suffix), EntryOf(members[j], info));
        }
      }
      assert members[..|members|] == members;
    }

    /** One member's turn of the inner loop of `updateDNS`: an online member's hostname is
        cleared and then given the member's entry; an offline member is skipped. */
    method WriteMember(domain: string, info: NetInfo, n: Member) returns (written: set<string>)
      modifies this`db
      ensures n.online ==> db == old(db)[HostName(n, domain, suffix) := EntryOf(n, info)]
      ensures n.online ==> written == {HostName(n, domain, suffix)}
      ensures !n.online ==> db == old(db) && written == {}
    {
      written := {};
      if n.online {
        var record := Lower(n.name + "." + domain + "." + suffix + ".");
        db := db[record := Records([], [])];
        var entry := BuildEntry(n, info);
        db := db[record := entry];
        written := {record};
      }
    }

    /** The closing loop of `updateDNS`: every key of the table not in `found` is deleted;
        every other key keeps its entry. */
    method DeleteUnwritten(found: set<string>)
      modifies this`db
      ensures db.Keys == old(db).Keys * found
      ensures forall k :: k in db ==> db[k] == old(db)[k]
    {
      var pending := db.Keys;
      while pending != {}
        invariant pending <= old(db).Keys
        invariant forall k :: k in db <==> k in old(db) && (k in found || k in pending)
        invariant forall k :: k in db ==> db[k] == old(db)[k]
        decreases pending
      {
        var record :| record in pending;
        if record !in found {
          db := db - {record};
        }
        pending := pending - {record};
      }
    }

    /** A rebuild and the update of the staleness clock: the `lastUpdate = updateDNS()` of the
        startup sequence and of the serving loop. `alive` is false when the source would
        have ended the process. */
    method Rebuild(polls: seq<NetworkPoll>, finished: int) returns (alive: bool)
      modifies this
      ensures alive <==> FetchedPrefix(polls) == |polls|
      ensures alive ==> db == Staged(Networks(polls), suffix) && lastUpdate == finished
      ensures !alive ==> db == old(db) + Staged(Networks(polls[..FetchedPrefix(polls)]), suffix)
      ensures !alive ==> lastUpdate == old(lastUpdate)
    {
      var outcome := UpdateDns(polls, finished);
      if outcome.Completed? {
        lastUpdate := outcome.at;
        alive := true;
      } else {
        alive := false;
      }
    }

    /** One turn of the serving loop: a query name observed at time `now`. The table is
        rebuilt only when it is stale; otherwise nothing changes. A rebuild ends at
        `finished`, the clock read after the fetches, so never before the query. */
    method Observe(name: string, now: int, polls: seq<NetworkPoll>, finished: int) returns (alive: bool)
      requires now <= finished
      modifies this
      ensures !Stale(old(lastUpdate), now, refresh) ==>
        alive && db == old(db) && lastUpdate == old(lastUpdate)
      ensures Stale(old(lastUpdate), now, refresh) ==>
        && (alive <==> FetchedPrefix(polls) == |polls|)
        && (alive ==> db == Staged(Networks(polls), suffix) && lastUpdate == finished)
        && (!alive ==> db == old(db) + Staged(Networks(polls[..FetchedPrefix(polls)]), suffix))
        && (!alive ==> lastUpdate == old(lastUpdate))
      ensures Stale(old(lastUpdate), now, refresh) && alive ==> lastUpdate >= now
      ensures alive && refresh >= 0 ==> !Stale(lastUpdate, now, refresh)
    {
      alive := true;
      if now - lastUpdate > refresh * NANOS_PER_MINUTE {
        alive := Rebuild(polls, finished);
      }
    }
  }

  /** The rebuild stops exactly at the first failed poll. */
  lemma PrefixEndsAt(polls: seq<NetworkPoll>, i: nat)
    requires i <= |polls|
    requires forall k :: 0 <= k < i ==> Complete(polls[k])
    requires i < |polls| ==> !Complete(polls[i])
    ensures FetchedPrefix(polls) == i
  {
  }

  /** Writing one entry over a table that already holds earlier writes. */
  lemma UnionUpdate(base: Table, applied: Table, k: string, v: Records)
    ensures (base + applied)[k := v] == base + applied[k := v]
  {
  }

  /** Writing a network's entries over a table that already holds the earlier networks'. */
  lemma UnionStep(base: Table, staged: Table, added: Table, before: Table, after: Table)
    requires before == base + staged && after == before + added
    ensures after == base + (staged + added)
  {
  }

  /** A member's entry, built as the rebuild builds it: the IPv6 list by appending the
      enabled automatic addresses, the IPv4 list by appending each assignment. */
  method BuildEntry(member: Member, info: NetInfo) returns (entry: Records)
    ensures entry == EntryOf(member, info)
  {
    var ip6: seq<Address> := [];
    var ip4: seq<Address> := [];
    if info.sixplane {
      ip6 := ip6 + [member.sixplaneAddr];
    }
    if info.rfc4193 {
      ip6 := ip6 + [member.rfc4193Addr];
    }
    for k := 0 to |member.ipAssignments|
      invariant ip4 == member.ipAssignments[..k]
    {
      ip4 := ip4 + [member.ipAssignments[k]];
    }
    assert member.ipAssignments[..|member.ipAssignments|] == member.ipAssignments;
    entry := Records(ip4, ip6);
  }

  /** Applying a concatenation of writes is the right-biased union of applying each part. */
  lemma {:induction false} ApplyConcat(ws1: seq<Upsert>, ws2: seq<Upsert>)
    ensures Apply(ws1 + ws2) == Apply(ws1) + Apply(ws2)
    decreases |ws2|
  {
    if ws2 == [] {
      assert ws1 + ws2 == ws1;
    } else {
      var init := ws2[..|ws2| - 1];
      var u := ws2[|ws2| - 1];
      assert (ws1 + ws2)[..|ws1 + ws2| - 1] == ws1 + init;
      ApplyConcat(ws1, init);
    }
  }

  /** One member's turn of the rebuild's inner loop, in terms of the writes. */
  lemma MemberStep(net: Network, members: seq<Member>, j: nat, suffix: string)
    requires j < |members|
    ensures members[j].online ==>
      Apply(MemberWrites(net, members[..j + 1], suffix)) ==
      Apply(MemberWrites(net, members[..j], suffix))[HostName(members[j], net.domain, suffix) := EntryOf(members[j], net.info)]
    ensures !members[j].online ==>
      MemberWrites(net, members[..j + 1], suffix) == MemberWrites(net, members[..j], suffix)
  {
    assert members[..j + 1][..j] == members[..j];
    var ws := MemberWrites(net, members[..j], suffix);
    assert (ws + [UpsertOf(net, members[j], suffix)])[..|ws|] == ws;
  }

  /** One more network written: the table and the written names grow by its staged entries. */
  lemma WrittenNext(polls: seq<NetworkPoll>, i: nat, suffix: string, base: Table, before: Table, after: Table,
                    found: set<string>, written: set<string>)
    requires i < |polls|
    requires forall k :: 0 <= k <= i ==> Complete(polls[k])
    requires before == base + Staged(Networks(polls[..i]), suffix)
    requires found == Staged(Networks(polls[..i]), suffix).Keys
    requires after == before + Apply(MemberWrites(NetworkOf(polls[i]), NetworkOf(polls[i]).members, suffix))
    requires written == Apply(MemberWrites(NetworkOf(polls[i]), NetworkOf(polls[i]).members, suffix)).Keys
    ensures after == base + Staged(Networks(polls[..i + 1]), suffix)
    ensures found + written == Staged(Networks(polls[..i + 1]), suffix).Keys
  {
    StagedNext(polls, i, suffix);
    UnionStep(base, Staged(Networks(polls[..i]), suffix),
              Apply(MemberWrites(NetworkOf(polls[i]), NetworkOf(polls[i]).members, suffix)), before, after);
  }

  /** One network's turn of the rebuild's outer loop, in terms of the staged table. */
  lemma StagedNext(polls: seq<NetworkPoll>, i: nat, suffix: string)
    requires i < |polls|
    requires forall k :: 0 <= k <= i ==> Complete(polls[k])
    ensures Staged(Networks(polls[..i + 1]), suffix) ==
      Staged(Networks(polls[..i]), suffix) + Apply(MemberWrites(NetworkOf(polls[i]), NetworkOf(polls[i]).members, suffix))
  {
    assert polls[..i + 1][..i] == polls[..i];
    var done := Networks(polls[..i]);
    var net := NetworkOf(polls[i]);
    assert Networks(polls[..i + 1]) == done + [net];
    assert (done + [net])[..|done|] == done;
    ApplyConcat(Writes(done, suffix), MemberWrites(net, net.members, suffix));
  }

  // ---------------------------------------------------------------------------
  // What a rebuild leaves in the table
  // ---------------------------------------------------------------------------

  /** A key is in the map a list of writes builds exactly when some write names it. */
  lemma {:induction false} ApplyKeys(ws: seq<Upsert>, k: string)
    ensures k in Apply(ws) <==> exists u :: u in ws && u.host == k
    decreases |ws|
  {
    if ws != [] {
      var init := ws[..|ws| - 1];
      ApplyKeys(init, k);
      assert ws == init + [ws[|ws| - 1]];
    }
  }

  /** Every value in the map a list of writes builds was written by one of them. */
  lemma {:induction false} ApplyFrom(ws: seq<Upsert>, k: string)
    requires k in Apply(ws)
    ensures Upsert(k, Apply(ws)[k]) in ws
    decreases |ws|
  {
    var init := ws[..|ws| - 1];
    var last := ws[|ws| - 1];
    assert ws == init + [last];
    if last.host != k {
      ApplyFrom(init, k);
    }
  }

  /** Splitting a member list splits its writes. */
  lemma {:induction false} MemberWritesConcat(net: Network, a: seq<Member>, b: seq<Member>, suffix: string)
    ensures MemberWrites(net, a + b, suffix) == MemberWrites(net, a, suffix) + MemberWrites(net, b, suffix)
    decreases |b|
  {
    if b == [] {
      assert a + b == a;
    } else {
      var init := b[..|b| - 1];
      assert (a + b)[..|a + b| - 1] == a + init;
      MemberWritesConcat(net, a, init, suffix);
    }
  }

  /** Every write for a member list is that of one of its online members. */
  lemma {:induction false} MemberWriteFrom(net: Network, ms: seq<Member>, suffix: string, u: Upsert)
    requires u in MemberWrites(net, ms, suffix)
    ensures exists j :: 0 <= j < |ms| && ms[j].online && u == UpsertOf(net, ms[j], suffix)
    decreases |ms|
  {
    var init := ms[..|ms| - 1];
    var last := ms[|ms| - 1];
    if !(last.online && u == UpsertOf(net, last, suffix)) {
      MemberWriteFrom(net, init, suffix, u);
      var j :| 0 <= j < |init| && init[j].online && u == UpsertOf(net, init[j], suffix);
      assert ms[j] == init[j];
    }
  }

  /** Every online member of a list is written. */
  lemma {:induction false} MemberWriteOf(net: Network, ms: seq<Member>, j: nat, suffix: string)
    requires j < |ms| && ms[j].online
    ensures UpsertOf(net, ms[j], suffix) in MemberWrites(net, ms, suffix)
    decreases |ms|
  {
    if j < |ms| - 1 {
      var init := ms[..|ms| - 1];
      assert init[j] == ms[j];
      MemberWriteOf(net, init, j, suffix);
    }
  }

  /** Member `j` of network `i` is online, and so is written by a rebuild. */
  predicate Produces(nets: seq<Network>, i: int, j: int)
  {
    0 <= i < |nets| && 0 <= j < |nets[i].members| && nets[i].members[j].online
  }

  /** Every write of a rebuild is that of an online member of some network. */
  lemma {:induction false} WriteFrom(nets: seq<Network>, suffix: string, u: Upsert)
    requires u in Writes(nets, suffix)
    ensures exists i, j :: Produces(nets, i, j) && u == UpsertOf(nets[i], nets[i].members[j], suffix)
    decreases |nets|
  {
    var init := nets[..|nets| - 1];
    var last := nets[|nets| - 1];
    if u in MemberWrites(last, last.members, suffix) {
      MemberWriteFrom(last, last.members, suffix, u);
      var j :| 0 <= j < |last.members| && last.members[j].online && u == UpsertOf(last, last.members[j], suffix);
      assert Produces(nets, |nets| - 1, j);
    } else {
      WriteFrom(init, suffix, u);
      var i, j :| Produces(init, i, j) && u == UpsertOf(init[i], init[i].members[j], suffix);
      assert init[i] == nets[i];
      assert Produces(nets, i, j);
    }
  }

  /** Every online member of every network is written by a rebuild. */
  lemma {:induction false} WriteOf(nets: seq<Network>, i: int, j: int, suffix: string)
    requires Produces(nets, i, j)
    ensures UpsertOf(nets[i], nets[i].members[j], suffix) in Writes(nets, suffix)
    decreases |nets|
  {
    var init := nets[..|nets| - 1];
    if i == |nets| - 1 {
      MemberWriteOf(nets[i], nets[i].members, j, suffix);
    } else {
      assert init[i] == nets[i];
      assert Produces(init, i, j);
      WriteOf(init, i, j, suffix);
    }
  }

  /** The hostname and entry member `j` of network `i` would get. */
  function HostOf(nets: seq<Network>, i: int, j: int, suffix: string): string
    requires Produces(nets, i, j)
  {
    HostName(nets[i].members[j], nets[i].domain, suffix)
  }

  function EntryAt(nets: seq<Network>, i: int, j: int): Records
    requires Produces(nets, i, j)
  {
    EntryOf(nets[i].members[j], nets[i].info)
  }

  /** After a rebuild the table holds exactly the hostnames of the online members, each with
      the entry of an online member of that name; anything else, whatever the table held
      before, is gone. */
  lemma StagedContents(nets: seq<Network>, suffix: string, k: string)
    ensures k in Staged(nets, suffix) <==> exists i, j :: Produces(nets, i, j) && HostOf(nets, i, j, suffix) == k
    ensures k in Staged(nets, suffix) ==>
      exists i, j :: Produces(nets, i, j) && HostOf(nets, i, j, suffix) == k && Staged(nets, suffix)[k] == EntryAt(nets, i, j)
  {
    var ws := Writes(nets, suffix);
    ApplyKeys(ws, k);
    if k in Staged(nets, suffix) {
      ApplyFrom(ws, k);
      WriteFrom(nets, suffix, Upsert(k, Staged(nets, suffix)[k]));
    }
    if exists i, j :: Produces(nets, i, j) && HostOf(nets, i, j, suffix) == k {
      var i, j :| Produces(nets, i, j) && HostOf(nets, i, j, suffix) == k;
      WriteOf(nets, i, j, suffix);
    }
  }

  /** Within the last network written, a member keeps its entry over every earlier network
      and every earlier member of its own network, unless a later member has the same name. */
  lemma LastNetworkWins(nets: seq<Network>, net: Network, before: seq<Member>, m: Member, after: seq<Member>, suffix: string)
    requires net.members == before + [m] + after && m.online
    requires forall x :: x in after && x.online ==> HostName(x, net.domain, suffix) != HostName(m, net.domain, suffix)
    ensures HostName(m, net.domain, suffix) in Staged(nets + [net], suffix)
    ensures Staged(nets + [net], suffix)[HostName(m, net.domain, suffix)] == EntryOf(m, net.info)
  {
    var h := HostName(m, net.domain, suffix);
    var u := UpsertOf(net, m, suffix);
    assert (nets + [net])[..|nets|] == nets;
    MemberWritesConcat(net, before + [m], after, suffix);
    assert (before + [m])[..|before|] == before;
    var x := Writes(nets, suffix) + MemberWrites(net, before, suffix);
    assert Writes(nets + [net], suffix) == (x + [u]) + MemberWrites(net, after, suffix);
    ApplyConcat(x + [u], MemberWrites(net, after, suffix));
    assert (x + [u])[..|x|] == x;
    forall w | w in MemberWrites(net, after, suffix)
      ensures w.host != h
    {
      MemberWriteFrom(net, after, suffix, w);
      var j :| 0 <= j < |after| && after[j].online && w == UpsertOf(net, after[j], suffix);
      assert after[j] in after;
    }
    ApplyKeys(MemberWrites(net, after, suffix), h);
  }

  /** Splitting the network list splits the writes of a rebuild. */
  lemma {:induction false} WritesConcat(a: seq<Network>, b: seq<Network>, suffix: string)
    ensures Writes(a + b, suffix) == Writes(a, suffix) + Writes(b, suffix)
    decreases |b|
  {
    if b == [] {
      assert a + b == a;
    } else {
      var init := b[..|b| - 1];
      assert (a + b)[..|a + b| - 1] == a + init;
      assert (a + b)[|a + b| - 1] == b[|b| - 1];
      WritesConcat(a, init, suffix);
    }
  }

  /** When online members share a hostname, the one written last wins: member `m` of network
      `net` keeps its entry over every member of the networks walked before it and every
      earlier member of its own network, as long as no later member of `net` and no online
      member of a network walked after it has the same hostname. */
  lemma LaterWins(pre: seq<Network>, net: Network, post: seq<Network>,
                  before: seq<Member>, m: Member, after: seq<Member>, suffix: string)
    requires net.members == before + [m] + after && m.online
    requires forall x :: x in after && x.online ==> HostName(x, net.domain, suffix) != HostName(m, net.domain, suffix)
    requires forall i, j :: Produces(post, i, j) ==> HostOf(post, i, j, suffix) != HostName(m, net.domain, suffix)
    ensures HostName(m, net.domain, suffix) in Staged(pre + [net] + post, suffix)
    ensures Staged(pre + [net] + post, suffix)[HostName(m, net.domain, suffix)] == EntryOf(m, net.info)
  {
    var h := HostName(m, net.domain, suffix);
    LastNetworkWins(pre, net, before, m, after, suffix);
    WritesConcat(pre + [net], post, suffix);
    ApplyConcat(Writes(pre + [net], suffix), Writes(post, suffix));
    forall w | w in Writes(post, suffix)
      ensures w.host != h
    {
      WriteFrom(post, suffix, w);
    }
    ApplyKeys(Writes(post, suffix), h);
  }

  /** No two online members with the same hostname disagree on their entry. */
  ghost predicate NoConflicts(nets: seq<Network>, suffix: string)
  {
    forall i1, j1, i2, j2 ::
      Produces(nets, i1, j1) && Produces(nets, i2, j2) && HostOf(nets, i1, j1, suffix) == HostOf(nets, i2, j2, suffix)
      ==> EntryAt(nets, i1, j1) == EntryAt(nets, i2, j2)
  }

  /** Writes that agree wherever they name the same key. */
  ghost predicate Consistent(ws: seq<Upsert>)
  {
    forall u, v :: u in ws && v in ws && u.host == v.host ==> u.entry == v.entry
  }

  /** Consistent writes build the same map whatever their order and repetition. */
  lemma ApplySame(ws1: seq<Upsert>, ws2: seq<Upsert>)
    requires forall u :: u in ws1 <==> u in ws2
    requires Consistent(ws1)
    ensures Apply(ws1) == Apply(ws2)
  {
    forall k | true
      ensures k in Apply(ws1) <==> k in Apply(ws2)
    {
      ApplyKeys(ws1, k);
      ApplyKeys(ws2, k);
    }
    forall k | k in Apply(ws1)
      ensures Apply(ws1)[k] == Apply(ws2)[k]
    {
      ApplyFrom(ws1, k);
      ApplyFrom(ws2, k);
    }
  }

  /** A write of one rebuild is a write of any rebuild over (at least) the same networks. */
  lemma SameNetworksSameWrites(nets1: seq<Network>, nets2: seq<Network>, suffix: string, u: Upsert)
    requires forall n :: n in nets1 ==> n in nets2
    requires u in Writes(nets1, suffix)
    ensures u in Writes(nets2, suffix)
  {
    WriteFrom(nets1, suffix, u);
    var i, j :| Produces(nets1, i, j) && u == UpsertOf(nets1[i], nets1[i].members[j], suffix);
    assert nets1[i] in nets2;
    var i' :| 0 <= i' < |nets2| && nets2[i'] == nets1[i];
    assert Produces(nets2, i', j);
    WriteOf(nets2, i', j, suffix);
  }

  /** Without conflicting members, the writes of a rebuild never disagree on a hostname. */
  lemma WritesConsistent(nets: seq<Network>, suffix: string)
    requires NoConflicts(nets, suffix)
    ensures Consistent(Writes(nets, suffix))
  {
    forall u, v | u in Writes(nets, suffix) && v in Writes(nets, suffix) && u.host == v.host
      ensures u.entry == v.entry
    {
      WriteFrom(nets, suffix, u);
      WriteFrom(nets, suffix, v);
      var i1, j1 :| Produces(nets, i1, j1) && u == UpsertOf(nets[i1], nets[i1].members[j1], suffix);
      var i2, j2 :| Produces(nets, i2, j2) && v == UpsertOf(nets[i2], nets[i2].members[j2], suffix);
      assert HostOf(nets, i1, j1, suffix) == HostOf(nets, i2, j2, suffix);
    }
  }

  /** The order in which the configured networks are walked does not matter, as long as no
      two online members claim the same hostname with different addresses. */
  lemma OrderIrrelevant(nets1: seq<Network>, nets2: seq<Network>, suffix: string)
    requires forall n :: n in nets1 <==> n in nets2
    requires NoConflicts(nets1, suffix)
    ensures Staged(nets1, suffix) == Staged(nets2, suffix)
  {
    forall u
      ensures u in Writes(nets1, suffix) <==> u in Writes(nets2, suffix)
    {
      if u in Writes(nets1, suffix) {
        SameNetworksSameWrites(nets1, nets2, suffix, u);
      }
      if u in Writes(nets2, suffix) {
        SameNetworksSameWrites(nets2, nets1, suffix, u);
      }
    }
    WritesConsistent(nets1, suffix);
    ApplySame(Writes(nets1, suffix), Writes(nets2, suffix));
  }

  // ---------------------------------------------------------------------------
  // How the rebuilt table is served
  // ---------------------------------------------------------------------------

  /** A member's hostname lies under its network's served suffix, which is never empty. */
  lemma HostUnderZone(m: Member, domain: string, suffix: string)
    ensures HasSuffix(HostName(m, domain, suffix), ZoneOf(domain, suffix))
    ensures ZoneOf(domain, suffix) != ""
  {
    var tail := domain + "." + suffix + ".";
    assert m.name + "." + domain + "." + suffix + "." == (m.name + ".") + tail;
    LowerAppend(m.name + ".", tail);
    HasSuffixOfAppend(Lower(m.name + "."), Lower(tail));
    assert |Lower(tail)| == |tail|;
  }

  /** Every hostname a rebuild stores falls under some served suffix, so the handler looks
      it up instead of refusing it. */
  lemma StoredNamesServed(nets: seq<Network>, suffix: string, zones: seq<string>, k: string)
    requires forall i :: 0 <= i < |nets| ==> ZoneOf(nets[i].domain, suffix) in zones
    requires forall z :: z in zones ==> z != ""
    requires k in Staged(nets, suffix)
    ensures FindSuffix(k, zones) != ""
  {
    StagedContents(nets, suffix, k);
    var i, j :| Produces(nets, i, j) && HostOf(nets, i, j, suffix) == k;
    HostUnderZone(nets[i].members[j], nets[i].domain, suffix);
    var z := ZoneOf(nets[i].domain, suffix);
    var n :| 0 <= n < |zones| && zones[n] == z;
    assert HasSuffix(k, zones[n]);
    FindSuffixFirst(k, zones);
  }

  /** An A query for a hostname a rebuild stored is answered with one A record per stored
      IPv4 address, in order, with no error; a host without IPv4 addresses gets the SOA of
      its suffix in the Authority section instead. */
  lemma RebuiltHostsResolve(nets: seq<Network>, suffix: string, zones: seq<string>, self: Identity, k: string)
    requires forall i :: 0 <= i < |nets| ==> ZoneOf(nets[i].domain, suffix) in zones
    requires forall z :: z in zones ==> z != ""
    requires k in Staged(nets, suffix)
    ensures var r, rec := Single(Question(k, TYPE_A), Staged(nets, suffix), zones, self), Staged(nets, suffix)[k];
      && r.rcode == RCODE_SUCCESS
      && r.answer == AddressRecords(k, rec.a, false)
      && r.ns == (if |rec.a| == 0 then [Soa(FindSuffix(k, zones), self.fqdn)] else [])
  {
    var db := Staged(nets, suffix);
    var q := Question(k, TYPE_A);
    StagedContents(nets, suffix, k);
    var i, j :| Produces(nets, i, j) && HostOf(nets, i, j, suffix) == k;
    LowerIdempotent(nets[i].members[j].name + "." + nets[i].domain + "." + suffix + ".");
    assert Lower(k) == k;
    StoredNamesServed(nets, suffix, zones, k);
    var m := Reply(Request(OPCODE_QUERY, [q]));
    SingleIsStep(q, db, zones, self);
    KnownName(m, q, db, zones, self);
    var r := Step(m, q, db, zones, self);
    assert r.answer == r.answer[|m.answer|..];
  }

  /** A name that no online member has is answered NXDOMAIN with the suffix's SOA once a
      rebuild completes, whatever the table held before. */
  lemma EvictedNameIsNxdomain(nets: seq<Network>, suffix: string, zones: seq<string>, self: Identity, q: Question)
    requires forall i, j :: Produces(nets, i, j) ==> HostOf(nets, i, j, suffix) != Lower(q.name)
    requires FindSuffix(Lower(q.name), zones) != ""
    requires q.qtype == TYPE_A || q.qtype == TYPE_AAAA
    ensures var r := Single(q, Staged(nets, suffix), zones, self);
      && r.rcode == RCODE_NAME_ERROR
      && r.answer == []
      && r.ns == [Soa(FindSuffix(Lower(q.name), zones), self.fqdn)]
  {
    var db := Staged(nets, suffix);
    StagedContents(nets, suffix, Lower(q.name));
    SingleIsStep(q, db, zones, self);
    UnknownName(Reply(Request(OPCODE_QUERY, [q])), q, db, zones, self);
  }
}
