# ztdns, modelled in Dafny

ztdns is an authoritative DNS responder for the members of ZeroTier networks. Each
configured network (a label and a network ID) gets a served suffix `label.suffix.`. Every
online member of the network is published as `name.label.suffix.`, with its assigned IPv4
addresses and its automatically derived IPv6 addresses. The record table is rebuilt
from the ZeroTier controller API. A rebuild happens when a query arrives and the table is
older than the refresh interval.

The model has three modules:

- `Text` (`text.dfy`): ASCII lower-casing and the plain string-suffix test the server uses.
- `DnsServer` (`dnssrv.dfy`): the query handler of `dnssrv/dnssrv.go`.
  - `FindSuffix` is the first-match suffix search over the served suffixes, a recursion
    over list positions. `FindSuffixFirst` states what it returns.
  - `HandleDnsRequest` builds the reply message section by section in a loop.
  - The method is proved equal to the specification function `Handle`, the fold of the
    per-question effect `Step` over the question list.
  - Lemmas then state what each kind of question does to the reply and how the questions
    of one message combine.
  - Lemmas also show that every answer, authority and additional record is grounded in the
    question, the table or the served suffixes, and that lookups are case-insensitive and
    read only the asked names.
- `Server` (`server.dfy`): the server command of `cmd/server.go`.
  - The configuration check and the suffix list (an array filled by index).
  - The class `NameServer`, which holds the record table and the time of the last rebuild.
    `Startup` creates it and runs the first rebuild; `Observe` is one turn of the serving loop.
  - Its method `UpdateDns` writes every online member's entry in place and then deletes
    every key it did not write. It is proved to leave exactly `Staged(nets)`, the table
    defined by applying the members' writes in order.
  - Lemmas about `Staged` state which keys it holds and which entry wins on a hostname
    collision, that the order of networks is irrelevant when no hostnames collide, and what
    the handler then answers for stored and evicted names.

Resource records are an abstract datatype. HINFO, SOA and NS carry only the fields the
handler fills in, and `SelfA` is the server's own address record. DNS constants are those
of RFC 1035 and the DNS library: opcode QUERY = 0; types A = 1, NS = 2, SOA = 6, AAAA = 28,
ANY = 255; Rcodes NOERROR = 0, NXDOMAIN = 3, REFUSED = 5. Times are integer nanoseconds,
and a minute is 60 000 000 000 of them.

## Model

| member | source | states |
|---|---|---|
| DnsServer.FindSuffixFirst | dnssrv/dnssrv.go:120-128 | The result is `""` when no served suffix is a string suffix of the name. Otherwise it is a served suffix of the name, and precisely the first such entry in list order. |
| DnsServer.HandleDnsRequest | dnssrv/dnssrv.go:131-214 | The reply built in place equals `Handle(request)`: the per-question effect folded over the questions when the opcode is QUERY, and the bare reply otherwise. The names sent to the refresh loop are the question names in order (none for other opcodes). |
| DnsServer.HandleQuestion | dnssrv/dnssrv.go:138-208 | One pass of the question loop, with its early `continue`s, has exactly the effect `Step` describes. |
| DnsServer.AppendAddresses | dnssrv/dnssrv.go:183-196 | The address loop appends one A (or AAAA) record per address, in order, and leaves everything else unchanged. |
| DnsServer.AddressRecords | dnssrv/dnssrv.go:184-195 | There is one record per address, each owned by the name as asked and carrying the address at that position. |
| DnsServer.ReplyHeader | dnssrv/dnssrv.go:132-137 | Every reply is authoritative and uncompressed and echoes the opcode and the questions. A request whose opcode is not QUERY gets empty Answer, Authority and Additional sections and NOERROR. |
| DnsServer.StepsKeepHeader | dnssrv/dnssrv.go:137-211 | Handling questions never changes the opcode, the question list or the two flags. |
| DnsServer.RefusedQuestion | dnssrv/dnssrv.go:143-149 | A question whose lower-cased name is under no served suffix sets REFUSED and appends nothing. Its effect is the same for any record table. |
| DnsServer.AnyQuestion | dnssrv/dnssrv.go:152-158 | An ANY question under a served suffix appends exactly one HINFO "RFC8482" "" record owned by the name as asked, and nothing else. Its effect is the same for any record table. |
| DnsServer.SoaApexQuestion | dnssrv/dnssrv.go:160-169 | An SOA question whose lower-cased name is the matched suffix appends the suffix's SOA to Answer, its NS to Authority and the server's own A record to Additional. |
| DnsServer.NsApexQuestion | dnssrv/dnssrv.go:171-178 | An NS question at the apex appends the suffix's NS to Answer and the own A record to Additional. Authority is unchanged. |
| DnsServer.KnownName | dnssrv/dnssrv.go:180-202 | For a name in the table, an A question appends one A record per IPv4 address and an AAAA question one AAAA per IPv6 address, in table order and owned by the name as asked. Other types append nothing. The suffix's SOA goes to Authority exactly when the whole Answer section is still empty. Rcode and Additional are unchanged. |
| DnsServer.UnknownName | dnssrv/dnssrv.go:203-208 | For a name under a served suffix but not in the table, the Rcode becomes NXDOMAIN, the suffix's SOA goes to Authority, and nothing else changes. |
| DnsServer.SingleIsStep | dnssrv/dnssrv.go:132-209 | A request holding one question gets the effect of that question on the bare reply. |
| DnsServer.StepAgainstSingle | dnssrv/dnssrv.go:138-209 | Handling a question appends to Answer and Additional exactly what that question gets when asked alone. It sets the Rcode the lone question gets, or keeps the old one when that is NOERROR. |
| DnsServer.StepsAnswers | dnssrv/dnssrv.go:138-209 | Over a question list, Answer is the concatenation of the answers each question gets alone. |
| DnsServer.StepsExtras | dnssrv/dnssrv.go:138-209 | Over a question list, Additional is the concatenation of the additionals each question gets alone. |
| DnsServer.StepsRcode | dnssrv/dnssrv.go:145-206 | Over a question list, the Rcode is the last error code set, or the initial one if none is. |
| DnsServer.MessageComposes | dnssrv/dnssrv.go:137-211 | For a query, the Answer and Additional sections are the per-question results in order. The message-wide Rcode is the one set by the last REFUSED or NXDOMAIN question. |
| DnsServer.StepTail | dnssrv/dnssrv.go:138-209 | A question only appends to Authority and Additional: to Authority nothing or one SOA/NS record of a suffix the server serves, to Additional nothing or the server's own A record. |
| DnsServer.FoundGrounded | dnssrv/dnssrv.go:180-197 | Every record a table lookup answers carries an address stored for the lower-cased name, is owned by the name as asked, and has the asked type. |
| DnsServer.StepKeepsSectionsOk | dnssrv/dnssrv.go:138-209 | One question keeps every Answer and Authority record grounded and keeps Additional made only of the own A record. |
| DnsServer.StepsKeepSectionsOk | dnssrv/dnssrv.go:137-211 | The same holds over the whole question loop. |
| DnsServer.RepliesAreGrounded | dnssrv/dnssrv.go:131-214 | Every reply is grounded. HINFO answers only an ANY question of that name. SOA and NS name a served suffix and this server. A and AAAA answer a question of that type and carry an address the table holds for the lower-cased name. Additional holds only the server's own A record. |
| DnsServer.CaseInsensitive | dnssrv/dnssrv.go:140-192 | Two spellings of a name that differ only in letter case get the same Rcode, Authority and Additional sections and the same answers, each owned by the spelling asked. |
| DnsServer.StepsReadAskedNames | dnssrv/dnssrv.go:180 | Two tables that agree on the lower-cased asked names give the same reply to a question list. |
| DnsServer.ReadsOnlyAskedNames | dnssrv/dnssrv.go:131-214 | The reply depends on the table only through the entries of the lower-cased question names: lookup is exact, never by wildcard or suffix. The handler takes the table as a value and never writes it. |
| Text.LowerAppend | cmd/server.go:135 | Lower-casing distributes over concatenation. |
| Text.LowerIdempotent | dnssrv/dnssrv.go:140 | Lower-casing a lower-cased name changes nothing. |
| Text.HasSuffixOfAppend | dnssrv/dnssrv.go:122 | A string ends with any string appended to it. |
| Server.CheckConfig | cmd/server.go:42-57 | The configuration is accepted exactly when the API key, the network map, the URL, the suffix and the server name are all present. Otherwise it is rejected for a missing one with nothing earlier in that order missing. |
| Server.InitializeData | cmd/server.go:93-105 | The suffix array has one entry per configured network, in walk order, each `lower(label + "." + suffix + ".")`. |
| Server.FetchedPrefix | cmd/server.go:116-128 | This is the number of networks the rebuild gets through. All of them had both calls succeed, and the next, if any, had a call fail. |
| Server.NameServer.constructor | cmd/server.go:60-61 | The state after `initializeData`, before the first rebuild: the suffix list of `initializeData` and the refresh interval with 0 replaced by 30. The table is empty and the clock is a placeholder until `Startup` runs the first rebuild. |
| Server.NameServer.Startup | cmd/server.go:60-73 | Startup builds the suffix list and the refresh interval, then runs the first rebuild. When it completes, the table is `Staged` over the polled networks and the last-update time is its completion time. When it fails, the process ends. |
| Server.NameServer.UpdateDns | cmd/server.go:107-174 | A rebuild completes exactly when no call fails. It then leaves the table equal to `Staged` over the polled networks, whatever it held before, and returns the completion time. After a failure the table is the old one overwritten by the networks written so far, with nothing deleted. |
| Server.NameServer.WriteNetworks | cmd/server.go:116-161 | The outer loop stops at the first failed call and has written the staged entries of every network before it. The set of hostnames found is exactly the staged key set. |
| Server.NameServer.WriteNetwork | cmd/server.go:131-160 | One network's member loop overwrites the table with that network's writes. Its found set is their key set. |
| Server.NameServer.WriteMember | cmd/server.go:133-159 | An online member's hostname is cleared and then set to its entry. An offline member changes nothing. |
| Server.BuildEntry | cmd/server.go:137-157 | The built entry lists the member's IPv4 assignments in order. Its IPv6 list is the 6plane address if the network enables it, followed by the RFC 4193 address if that mode is enabled. |
| Server.NameServer.DeleteUnwritten | cmd/server.go:163-169 | The deletion loop keeps exactly the keys in the found set, with their entries unchanged. |
| Server.NameServer.Rebuild | cmd/server.go:64-81 | `lastUpdate = updateDNS()` takes the completion time on success. It marks the process as ended on failure, with the clock unchanged. |
| Server.NameServer.Observe | cmd/server.go:70-83 | On an observed query, the table is rebuilt only when strictly more than `refresh` minutes have passed since the last rebuild. Otherwise table and clock are unchanged. A rebuild, which ends no earlier than the query, sets the clock to at least the query time. After a served query with a non-negative interval the table is never stale. |
| Server.ApplyKeys | cmd/server.go:155-158 | A key is in the written map exactly when some write names it. |
| Server.ApplyFrom | cmd/server.go:155-158 | Every value in the written map was written for that key. |
| Server.ApplyConcat | cmd/server.go:116-161 | Applying writes in two runs is the right-biased union of the two maps. |
| Server.MemberWriteFrom | cmd/server.go:131-160 | Every write of a network's member loop is that of one of its online members. |
| Server.MemberWriteOf | cmd/server.go:131-160 | Every online member of a network is written by its member loop. |
| Server.MemberWritesConcat | cmd/server.go:131-160 | Splitting a member list splits its writes. |
| Server.WriteFrom | cmd/server.go:116-161 | Every write of a rebuild is that of an online member of some network, with that member's hostname and entry. |
| Server.WriteOf | cmd/server.go:116-161 | Every online member of every network is written by a rebuild, with its hostname and entry. |
| Server.SameNetworksSameWrites | cmd/server.go:116-161 | A write of a rebuild is also a write of any rebuild over at least the same networks, whatever the walk order. |
| Server.WritesConsistent | cmd/server.go:133-158 | When no two online members claim one hostname with different entries, no two writes of a rebuild disagree on a hostname. |
| Server.StagedContents | cmd/server.go:131-170 | After a rebuild the table's keys are exactly the lower-cased `name.label.suffix.` of the online members. Each entry is that of an online member of that name. Any other key, such as a member gone offline or removed, is absent. |
| Server.LastNetworkWins | cmd/server.go:131-158 | Within the last network walked, an online member keeps its entry over every earlier network and every earlier member, unless a later member of that network has the same hostname. |
| Server.WritesConcat | cmd/server.go:116-161 | Splitting the network list splits the writes of a rebuild. |
| Server.LaterWins | cmd/server.go:116-158 | When online members share a hostname, the member written last keeps its entry. This holds for a member of any network, over all earlier networks and earlier members, provided no later member of its network and no member of a network walked after it claims that hostname. |
| Server.ApplySame | cmd/server.go:155-158 | Write lists with the same elements that never disagree on a key build the same map. |
| Server.OrderIrrelevant | cmd/server.go:116-170 | Two rebuilds over the same networks, walked in any order, give the same table when no two online members claim one hostname with different entries. Repeated rebuilds over unchanged data therefore leave the table unchanged. |
| Server.HostUnderZone | cmd/server.go:93-135 | Every member hostname ends with its network's served suffix, which is never empty. |
| Server.StoredNamesServed | cmd/server.go:93-170 | Every hostname a rebuild stores falls under a served suffix, so the handler looks it up rather than refusing it. |
| Server.RebuiltHostsResolve | cmd/server.go:131-170 | An A query for a stored hostname answers one A record per stored IPv4 address, with NOERROR. A host without IPv4 addresses gets the suffix's SOA in Authority. |
| Server.EvictedNameIsNxdomain | cmd/server.go:163-169 | After a rebuild, an A or AAAA query for a name under a served suffix that no online member has gets NXDOMAIN, no answer and the suffix's SOA. |

## Left out

- Sockets, goroutines and the resolution of the server's own address (`Start`, `getIPFromDNS`, `getIfaceAddrs` in `dnssrv/dnssrv.go:39-118`) are I/O. The own address record is an input (`Identity`).
- Text-form record construction by the DNS library is not modelled. Every record is built directly as a datatype value, so the error branches around `dns.NewRR` never fire. Wire encoding and message IDs are also left out.
- The SOA serial, which reads the clock at startup, is not modelled. SOA and NS carry only the zone and this server's name.
- HandleDnsRequest: the DNS library's `SetReply` copies only the first question of the request, so the real handler answers only that one. The model instead takes all of the request's questions into the reply and loops over them. The multi-question results (`StepsRcode`, `MessageComposes`, and "the last REFUSED or NXDOMAIN wins") describe that loop over a full list, which is a choice of this model. For a request with one question the two agree.
- The ZeroTier API calls (network info, member list), the 6plane and RFC 4193 address derivation and `net.ParseIP` are inputs. Each network's two calls are one `NetworkPoll`, and the derived addresses are fields of `Member`. The calls for the network at which a rebuild stops are made in the source; the model does not track them.
- The order in which Go walks the `Networks` map is given as the order of the input sequences. `OrderIrrelevant` states when that order does not matter.
- Server.NameServer.constructor: it stops before the first rebuild, so it leaves an empty table and a placeholder clock of 0. The source never serves from that state. Startup as a whole is `NameServer.Startup`: the constructor followed at once by one `Rebuild`.
- Server.NameServer.UpdateDns: when a call fails the source ends the process; the model returns `Aborted` and leaves the partially updated table, which no one reads afterwards.
- The hand-off of observed names over a channel and the unsynchronised concurrent access to the table are not modelled. `Observe` is one sequential step, given the observed name and the current time.
- Server.Stale: `refresh * time.Minute` is a 64-bit count of nanoseconds in the source, so it wraps once `refresh` exceeds about 153.7 million minutes (about 292 years). The model uses unbounded integers and does not wrap there.
- Text.Lower lower-cases ASCII letters only. Go's `strings.ToLower` also maps non-ASCII letters.
- Logging, the root-user warning, the debug flag and the cobra/viper configuration plumbing are left out. `Config` holds the settings already read.
- Several behaviours are modelled as the code has them, which differs from a description of the system's intent:
  - The "no data" SOA is added when the whole message's Answer section is empty, not per question.
  - The Rcode is message-wide, so the last REFUSED or NXDOMAIN wins.
  - Suffix matching is by plain string suffix, not by DNS labels, so `xnet.zt.` matches the suffix `net.zt.`.
  - A failed rebuild exits the process rather than keeping the old table for a retry.
