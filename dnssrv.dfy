/** The authoritative DNS query handler (package dnssrv): served-suffix matching and
    the construction of a reply from the record table. Resource records are abstract
    values; the library's text parsing and wire encoding are not modelled. */
module DnsServer {
  import opened Text

  /** An IP address in its textual form; the handler only copies addresses. */
  type Address = string

  /** The addresses known for one hostname (the `Records` struct). */
  datatype Records = Records(a: seq<Address>, aaaa: seq<Address>)

  /** The record table: lower-case fully qualified hostname to its addresses. */
  type Table = map<string, Records>

  // Protocol numbers, as the DNS library defines them (RFC 1035, RFC 3596).
  const OPCODE_QUERY: nat := 0
  const TYPE_A: nat := 1
  const TYPE_NS: nat := 2
  const TYPE_SOA: nat := 6
  const TYPE_AAAA: nat := 28
  const TYPE_ANY: nat := 255
  const RCODE_SUCCESS: nat := 0
  const RCODE_NAME_ERROR: nat := 3
  const RCODE_REFUSED: nat := 5

  datatype Question = Question(name: string, qtype: nat)

  datatype Request = Request(opcode: nat, question: seq<Question>)

  /** The resource records the handler can emit. SOA and NS stand for the two
      startup templates filled in with a zone; `SelfA` is the server's own A record. */
  datatype RR =
    | Hinfo(owner: string, cpu: string, os: string)
    | Soa(zone: string, primary: string)
    | Ns(zone: string, host: string)
    | A(owner: string, ip: Address)
    | AAAA(owner: string, ip: Address)
    | SelfA(fqdn: string, ip: Address)

  /** The server's own name (`myFQDN`) and the address it resolved to at startup. */
  datatype Identity = Identity(fqdn: string, ip: Address)

  /** The reply message: the header fields the handler touches and the three sections. */
  datatype Msg = Msg(
    opcode: nat,
    question: seq<Question>,
    answer: seq<RR>,
    ns: seq<RR>,
    extra: seq<RR>,
    rcode: nat,
    authoritative: bool,
    compress: bool)

  function OwnA(self: Identity): RR
  {
    SelfA(self.fqdn, self.ip)
  }

  function SoaFor(zone: string, self: Identity): RR
  {
    Soa(zone, self.fqdn)
  }

  function NsFor(zone: string, self: Identity): RR
  {
    Ns(zone, self.fqdn)
  }

  /** `findSuffix`: the first served suffix, in list order, that `name` ends with,
      and "" when there is none (`FindSuffixFirst` states this). */
  function FindSuffix(name: string, domains: seq<string>): (r: string)
    ensures r != "" ==> r in domains
  {
    FindSuffixFrom(name, domains, 0)
  }

  /** The search loop of `findSuffix` from position `k` on. */
  function FindSuffixFrom(name: string, domains: seq<string>, k: nat): (r: string)
    requires k <= |domains|
    ensures r != "" ==> r in domains
    decreases |domains| - k
  {
    if k == |domains| then ""
    else if HasSuffix(name, domains[k]) then domains[k]
    else FindSuffixFrom(name, domains, k + 1)
  }

  /** The search finds nothing when no served suffix ends the name; otherwise it finds a
      suffix of the name, and precisely the first such entry in list order. */
  lemma FindSuffixFirst(name: string, domains: seq<string>)
    ensures var r := FindSuffix(name, domains);
      && ((forall i :: 0 <= i < |domains| ==> !HasSuffix(name, domains[i])) ==> r == "")
      && ((exists i :: 0 <= i < |domains| && HasSuffix(name, domains[i])) ==> r in domains && HasSuffix(name, r))
      && forall i :: (0 <= i < |domains| && HasSuffix(name, domains[i]) &&
                      forall j :: 0 <= j < i ==> !HasSuffix(name, domains[j])) ==> r == domains[i]
  {
    FindSuffixFromFirst(name, domains, 0);
  }

  lemma {:induction false} FindSuffixFromFirst(name: string, domains: seq<string>, k: nat)
    requires k <= |domains|
    ensures var r := FindSuffixFrom(name, domains, k);
      && ((forall i :: k <= i < |domains| ==> !HasSuffix(name, domains[i])) ==> r == "")
      && ((exists i :: k <= i < |domains| && HasSuffix(name, domains[i])) ==> r in domains && HasSuffix(name, r))
      && forall i :: (k <= i < |domains| && HasSuffix(name, domains[i]) &&
                      forall j :: k <= j < i ==> !HasSuffix(name, domains[j])) ==> r == domains[i]
    decreases |domains| - k
  {
    if k < |domains| && !HasSuffix(name, domains[k]) {
      FindSuffixFromFirst(name, domains, k + 1);
    }
  }

  /** One record per address, in the order of `ips`: AAAA records when `six`, A records otherwise. */
  function AddressRecords(owner: string, ips: seq<Address>, six: bool): (rs: seq<RR>)
    ensures |rs| == |ips|
    ensures forall k :: 0 <= k < |ips| ==> rs[k] == if six then AAAA(owner, ips[k]) else A(owner, ips[k])
    decreases |ips|
  {
    if ips == [] then []
    else
      var last := if six then AAAA(owner, ips[|ips| - 1]) else A(owner, ips[|ips| - 1]);
      AddressRecords(owner, ips[..|ips| - 1], six) + [last]
  }

  /** The answers a table entry yields for a question: its A or AAAA addresses, or
      nothing for any other query type. */
  function Found(q: Question, rec: Records): seq<RR>
  {
    if q.qtype == TYPE_A then AddressRecords(q.name, rec.a, false)
    else if q.qtype == TYPE_AAAA then AddressRecords(q.name, rec.aaaa, true)
    else []
  }

  /** What `SetReply` and the two flag assignments leave before any question is handled. */
  function Reply(request: Request): Msg
  {
    Msg(request.opcode, request.question, [], [], [], RCODE_SUCCESS, true, false)
  }

  /** The effect of handling one question on the reply built so far. */
  function Step(m: Msg, q: Question, db: Table, domains: seq<string>, self: Identity): Msg
  {
    var lookupName := Lower(q.name);
    Respond(m, q, lookupName, FindSuffix(lookupName, domains), db, self)
  }

  /** The branches of the question loop once the lower-cased name and the suffix it falls
      under are known. */
  function Respond(m: Msg, q: Question, lookupName: string, zone: string, db: Table, self: Identity): Msg
  {
    if zone == "" then
      m.(rcode := RCODE_REFUSED)
    else if q.qtype == TYPE_ANY then
      m.(answer := m.answer + [Hinfo(q.name, "RFC8482", "")])
    else if q.qtype == TYPE_SOA && zone == lookupName then
      m.(answer := m.answer + [SoaFor(zone, self)], ns := m.ns + [NsFor(zone, self)], extra := m.extra + [OwnA(self)])
    else if q.qtype == TYPE_NS && zone == lookupName then
      m.(answer := m.answer + [NsFor(zone, self)], extra := m.extra + [OwnA(self)])
    else if lookupName in db then
      var answer := m.answer + Found(q, db[lookupName]);
      m.(answer := answer, ns := if |answer| == 0 then m.ns + [SoaFor(zone, self)] else m.ns)
    else
      m.(rcode := RCODE_NAME_ERROR, ns := m.ns + [SoaFor(zone, self)])
  }

  /** The questions handled one after the other, in order. */
  function Steps(m: Msg, qs: seq<Question>, db: Table, domains: seq<string>, self: Identity): Msg
    decreases |qs|
  {
    if qs == [] then m
    else Step(Steps(m, qs[..|qs| - 1], db, domains, self), qs[|qs| - 1], db, domains, self)
  }

  /** The reply `handleDNSRequest` writes back for a request. */
  function Handle(request: Request, db: Table, domains: seq<string>, self: Identity): Msg
  {
    if request.opcode == OPCODE_QUERY then Steps(Reply(request), request.question, db, domains, self)
    else Reply(request)
  }

  /** The names the handler hands to the refresh loop, in order. */
  function QuestionNames(qs: seq<Question>): seq<string>
  {
    seq(|qs|, i requires 0 <= i < |qs| => qs[i].name)
  }

  /** `handleDNSRequest`: builds the reply section by section, and returns the query
      names it observed (the values sent on the query channel). The table is only read. */
  method HandleDnsRequest(request: Request, db: Table, domains: seq<string>, self: Identity)
    returns (m: Msg, observed: seq<string>)
    ensures m == Handle(request, db, domains, self)
    ensures observed == if request.opcode == OPCODE_QUERY then QuestionNames(request.question) else []
  {
    m := Msg(request.opcode, request.question, [], [], [], RCODE_SUCCESS, false, false);
    m := m.(compress := false);
    m := m.(authoritative := true);
    observed := [];
    if request.opcode == OPCODE_QUERY {
      var questions := m.question;
      for i := 0 to |questions|
        invariant m == Steps(Reply(request), questions[..i], db, domains, self)
        invariant observed == QuestionNames(questions[..i])
      {
        StepsSnoc(Reply(request), questions, i, db, domains, self);
        observed := observed + [questions[i].name];
        m := HandleQuestion(m, questions[i], db, domains, self);
      }
      assert questions[..|questions|] == questions;
    }
  }

  /** One more turn of the question loop. */
  lemma StepsSnoc(m: Msg, qs: seq<Question>, i: nat, db: Table, domains: seq<string>, self: Identity)
    requires i < |qs|
    ensures Steps(m, qs[..i + 1], db, domains, self) == Step(Steps(m, qs[..i], db, domains, self), qs[i], db, domains, self)
    ensures QuestionNames(qs[..i + 1]) == QuestionNames(qs[..i]) + [qs[i].name]
  {
    assert qs[..i + 1][..i] == qs[..i];
  }

  /** The body of the handler's loop: one question's records appended to the reply. */
  method HandleQuestion(m0: Msg, q: Question, db: Table, domains: seq<string>, self: Identity)
    returns (m: Msg)
    ensures m == Step(m0, q, db, domains, self)
  {
    m := m0;
    var lookupName := Lower(q.name);
    var domainName := FindSuffix(lookupName, domains);
    if domainName == "" {
      m := m.(rcode := RCODE_REFUSED);
      return;
    }
    if q.qtype == TYPE_ANY {
      m := m.(answer := m.answer + [Hinfo(q.name, "RFC8482", "")]);
      return;
    }
    if q.qtype == TYPE_SOA && domainName == lookupName {
      m := m.(answer := m.answer + [SoaFor(domainName, self)]);
      m := m.(ns := m.ns + [NsFor(domainName, self)]);
      m := m.(extra := m.extra + [OwnA(self)]);
      return;
    }
    if q.qtype == TYPE_NS && domainName == lookupName {
      m := m.(answer := m.answer + [NsFor(domainName, self)]);
      m := m.(extra := m.extra + [OwnA(self)]);
      return;
    }
    if lookupName in db {
      var rec := db[lookupName];
      if q.qtype == TYPE_A {
        m := AppendAddresses(m, q.name, rec.a, false);
      } else if q.qtype == TYPE_AAAA {
        m := AppendAddresses(m, q.name, rec.aaaa, true);
      }
      if |m.answer| == 0 {
        m := m.(ns := m.ns + [SoaFor(domainName, self)]);
      }
    } else {
      m := m.(rcode := RCODE_NAME_ERROR);
      m := m.(ns := m.ns + [SoaFor(domainName, self)]);
    }
  }

  /** The loop over an entry's addresses: one A (or AAAA) answer per address, in order. */
  method AppendAddresses(m0: Msg, owner: string, ips: seq<Address>, six: bool) returns (m: Msg)
    ensures m == m0.(answer := m0.answer + AddressRecords(owner, ips, six))
  {
    m := m0;
    for j := 0 to |ips|
      invariant m == m0.(answer := m.answer)
      invariant m.answer == m0.answer + AddressRecords(owner, ips[..j], six)
    {
      var rr := if six then AAAA(owner, ips[j]) else A(owner, ips[j]);
      AddressRecordsSnoc(owner, ips, j, six);
      m := m.(answer := m.answer + [rr]);
    }
    assert ips[..|ips|] == ips;
  }

  /** One more turn of the address loop. */
  lemma AddressRecordsSnoc(owner: string, ips: seq<Address>, j: nat, six: bool)
    requires j < |ips|
    ensures AddressRecords(owner, ips[..j + 1], six) ==
      AddressRecords(owner, ips[..j], six) + [if six then AAAA(owner, ips[j]) else A(owner, ips[j])]
  {
    assert ips[..j + 1][..j] == ips[..j];
  }

  // ---------------------------------------------------------------------------
  // Properties of the reply
  // ---------------------------------------------------------------------------

  /** The reply a request holding only question `q` gets. */
  function Single(q: Question, db: Table, domains: seq<string>, self: Identity): Msg
  {
    Handle(Request(OPCODE_QUERY, [q]), db, domains, self)
  }

  lemma SingleIsStep(q: Question, db: Table, domains: seq<string>, self: Identity)
    ensures Single(q, db, domains, self) == Step(Reply(Request(OPCODE_QUERY, [q])), q, db, domains, self)
  {
    assert [q][..0] == [];
    assert Steps(Reply(Request(OPCODE_QUERY, [q])), [], db, domains, self) == Reply(Request(OPCODE_QUERY, [q]));
  }

  lemma StepKeepsHeader(m: Msg, q: Question, db: Table, domains: seq<string>, self: Identity)
    ensures var r := Step(m, q, db, domains, self);
      r.opcode == m.opcode && r.question == m.question &&
      r.authoritative == m.authoritative && r.compress == m.compress
  {
  }

  lemma {:induction false} StepsKeepHeader(m: Msg, qs: seq<Question>, db: Table, domains: seq<string>, self: Identity)
    ensures var r := Steps(m, qs, db, domains, self);
      r.opcode == m.opcode && r.question == m.question &&
      r.authoritative == m.authoritative && r.compress == m.compress
    decreases |qs|
  {
    if qs != [] {
      StepsKeepHeader(m, qs[..|qs| - 1], db, domains, self);
      StepKeepsHeader(Steps(m, qs[..|qs| - 1], db, domains, self), qs[|qs| - 1], db, domains, self);
    }
  }

  /** Every reply is authoritative and uncompressed and echoes the request's opcode and
      questions; a request that is not a standard query gets empty sections and NOERROR. */
  lemma ReplyHeader(request: Request, db: Table, domains: seq<string>, self: Identity)
    ensures var r := Handle(request, db, domains, self);
      r.authoritative && !r.compress && r.opcode == request.opcode && r.question == request.question
    ensures var r := Handle(request, db, domains, self);
      request.opcode != OPCODE_QUERY ==> r.answer == [] && r.ns == [] && r.extra == [] && r.rcode == RCODE_SUCCESS
  {
    StepsKeepHeader(Reply(request), request.question, db, domains, self);
  }

  /** A question under no served suffix sets REFUSED, appends nothing, and its effect
      does not depend on the record table. */
  lemma RefusedQuestion(m: Msg, q: Question, db: Table, other: Table, domains: seq<string>, self: Identity)
    requires forall i :: 0 <= i < |domains| ==> !HasSuffix(Lower(q.name), domains[i])
    ensures Step(m, q, db, domains, self) == m.(rcode := RCODE_REFUSED)
    ensures Step(m, q, db, domains, self) == Step(m, q, other, domains, self)
  {
    FindSuffixFirst(Lower(q.name), domains);
  }

  /** An ANY question under a served suffix appends exactly one HINFO "RFC8482" "" record,
      owned by the name as asked, and nothing else; the table plays no part. */
  lemma AnyQuestion(m: Msg, q: Question, db: Table, other: Table, domains: seq<string>, self: Identity)
    requires FindSuffix(Lower(q.name), domains) != ""
    requires q.qtype == TYPE_ANY
    ensures Step(m, q, db, domains, self) == m.(answer := m.answer + [Hinfo(q.name, "RFC8482", "")])
    ensures Step(m, q, db, domains, self) == Step(m, q, other, domains, self)
  {
  }

  /** An SOA question for a zone apex answers the zone's SOA, adds its NS to the authority
      section and the server's own A record to the additional section. */
  lemma SoaApexQuestion(m: Msg, q: Question, db: Table, domains: seq<string>, self: Identity)
    requires q.qtype == TYPE_SOA
    requires Lower(q.name) != "" && FindSuffix(Lower(q.name), domains) == Lower(q.name)
    ensures var zone := Lower(q.name);
      Step(m, q, db, domains, self) ==
        m.(answer := m.answer + [Soa(zone, self.fqdn)], ns := m.ns + [Ns(zone, self.fqdn)],
           extra := m.extra + [SelfA(self.fqdn, self.ip)])
  {
  }

  /** An NS question for a zone apex answers the zone's NS and adds the server's own A
      record to the additional section; the authority section is left alone. */
  lemma NsApexQuestion(m: Msg, q: Question, db: Table, domains: seq<string>, self: Identity)
    requires q.qtype == TYPE_NS
    requires Lower(q.name) != "" && FindSuffix(Lower(q.name), domains) == Lower(q.name)
    ensures var zone := Lower(q.name);
      Step(m, q, db, domains, self) ==
        m.(answer := m.answer + [Ns(zone, self.fqdn)], extra := m.extra + [SelfA(self.fqdn, self.ip)])
  {
  }

  /** A name held in the table: an A question answers one A record per IPv4 address and an
      AAAA question one AAAA record per IPv6 address, in table order, owned by the name as
      asked; other types answer nothing. The zone's SOA goes to the authority section only
      when the whole Answer section is still empty, and the Rcode is untouched. */
  lemma KnownName(m: Msg, q: Question, db: Table, domains: seq<string>, self: Identity)
    requires FindSuffix(Lower(q.name), domains) != ""
    requires q.qtype != TYPE_ANY
    requires q.qtype in {TYPE_SOA, TYPE_NS} ==> FindSuffix(Lower(q.name), domains) != Lower(q.name)
    requires Lower(q.name) in db
    ensures var r, rec, zone := Step(m, q, db, domains, self), db[Lower(q.name)], FindSuffix(Lower(q.name), domains);
      var added := r.answer[|m.answer|..];
      && r.answer[..|m.answer|] == m.answer
      && |added| == (if q.qtype == TYPE_A then |rec.a| else if q.qtype == TYPE_AAAA then |rec.aaaa| else 0)
      && (forall k :: 0 <= k < |added| ==>
            added[k] == if q.qtype == TYPE_A then A(q.name, rec.a[k]) else AAAA(q.name, rec.aaaa[k]))
      && r.ns == (if |r.answer| == 0 then m.ns + [Soa(zone, self.fqdn)] else m.ns)
      && r.rcode == m.rcode && r.extra == m.extra
  {
    var r := Step(m, q, db, domains, self);
    assert r.answer == m.answer + Found(q, db[Lower(q.name)]);
  }

  /** A name under a served suffix but absent from the table: NXDOMAIN, with the zone's SOA
      in the authority section, and no answer. */
  lemma UnknownName(m: Msg, q: Question, db: Table, domains: seq<string>, self: Identity)
    requires FindSuffix(Lower(q.name), domains) != ""
    requires q.qtype != TYPE_ANY
    requires q.qtype in {TYPE_SOA, TYPE_NS} ==> FindSuffix(Lower(q.name), domains) != Lower(q.name)
    requires Lower(q.name) !in db
    ensures Step(m, q, db, domains, self) ==
      m.(rcode := RCODE_NAME_ERROR, ns := m.ns + [Soa(FindSuffix(Lower(q.name), domains), self.fqdn)])
  {
  }

  // ---------------------------------------------------------------------------
  // How the questions of one message combine
  // ---------------------------------------------------------------------------

  /** The Answer sections the questions would get if each were asked alone, in order. */
  function SingleAnswers(qs: seq<Question>, db: Table, domains: seq<string>, self: Identity): seq<RR>
    decreases |qs|
  {
    if qs == [] then []
    else SingleAnswers(qs[..|qs| - 1], db, domains, self) + Single(qs[|qs| - 1], db, domains, self).answer
  }

  /** The Additional sections the questions would get if each were asked alone, in order. */
  function SingleExtras(qs: seq<Question>, db: Table, domains: seq<string>, self: Identity): seq<RR>
    decreases |qs|
  {
    if qs == [] then []
    else SingleExtras(qs[..|qs| - 1], db, domains, self) + Single(qs[|qs| - 1], db, domains, self).extra
  }

  /** The Rcode of the last question that, asked alone, gets an error code; NOERROR if none does. */
  function LastRcode(qs: seq<Question>, db: Table, domains: seq<string>, self: Identity): nat
    decreases |qs|
  {
    if qs == [] then RCODE_SUCCESS
    else
      var r := Single(qs[|qs| - 1], db, domains, self).rcode;
      if r != RCODE_SUCCESS then r else LastRcode(qs[..|qs| - 1], db, domains, self)
  }

  lemma StepAgainstSingle(m: Msg, q: Question, db: Table, domains: seq<string>, self: Identity)
    ensures var r, s := Step(m, q, db, domains, self), Single(q, db, domains, self);
      && r.answer == m.answer + s.answer
      && r.extra == m.extra + s.extra
      && r.rcode == if s.rcode != RCODE_SUCCESS then s.rcode else m.rcode
  {
    SingleIsStep(q, db, domains, self);
    var s := Single(q, db, domains, self);
    var name := Lower(q.name);
    var zone := FindSuffix(name, domains);
    if zone == "" {
      assert s.answer == [];
    } else if q.qtype == TYPE_ANY {
      assert s.answer == [Hinfo(q.name, "RFC8482", "")];
    } else if q.qtype == TYPE_SOA && zone == name {
      assert s.answer == [SoaFor(zone, self)];
    } else if q.qtype == TYPE_NS && zone == name {
      assert s.answer == [NsFor(zone, self)];
    } else if name in db {
      assert s.answer == Found(q, db[name]);
    } else {
      assert s.answer == [];
    }
  }

  lemma {:induction false} StepsAnswers(m: Msg, qs: seq<Question>, db: Table, domains: seq<string>, self: Identity)
    ensures Steps(m, qs, db, domains, self).answer == m.answer + SingleAnswers(qs, db, domains, self)
    decreases |qs|
  {
    if qs != [] {
      var init := qs[..|qs| - 1];
      StepsAnswers(m, init, db, domains, self);
      StepAgainstSingle(Steps(m, init, db, domains, self), qs[|qs| - 1], db, domains, self);
    }
  }

  lemma {:induction false} StepsExtras(m: Msg, qs: seq<Question>, db: Table, domains: seq<string>, self: Identity)
    ensures Steps(m, qs, db, domains, self).extra == m.extra + SingleExtras(qs, db, domains, self)
    decreases |qs|
  {
    if qs != [] {
      var init := qs[..|qs| - 1];
      StepsExtras(m, init, db, domains, self);
      StepAgainstSingle(Steps(m, init, db, domains, self), qs[|qs| - 1], db, domains, self);
    }
  }

  lemma {:induction false} StepsRcode(m: Msg, qs: seq<Question>, db: Table, domains: seq<string>, self: Identity)
    ensures var last := LastRcode(qs, db, domains, self);
      Steps(m, qs, db, domains, self).rcode == if last != RCODE_SUCCESS then last else m.rcode
    decreases |qs|
  {
    if qs != [] {
      var init := qs[..|qs| - 1];
      StepsRcode(m, init, db, domains, self);
      StepAgainstSingle(Steps(m, init, db, domains, self), qs[|qs| - 1], db, domains, self);
    }
  }

  /** For a query, the Answer and Additional sections are those of the questions asked one by
      one, concatenated in order, and the message-wide Rcode is the one set by the last
      question that sets one (REFUSED or NXDOMAIN), NOERROR otherwise. */
  lemma MessageComposes(request: Request, db: Table, domains: seq<string>, self: Identity)
    requires request.opcode == OPCODE_QUERY
    ensures var r := Handle(request, db, domains, self);
      && r.answer == SingleAnswers(request.question, db, domains, self)
      && r.extra == SingleExtras(request.question, db, domains, self)
      && r.rcode == LastRcode(request.question, db, domains, self)
  {
    StepsAnswers(Reply(request), request.question, db, domains, self);
    StepsExtras(Reply(request), request.question, db, domains, self);
    StepsRcode(Reply(request), request.question, db, domains, self);
  }

  // ---------------------------------------------------------------------------
  // Where every record of the reply comes from
  // ---------------------------------------------------------------------------

  /** A record the handler may put in the Answer or Authority section of a reply to `qs`. */
  ghost predicate Grounded(rr: RR, qs: seq<Question>, db: Table, domains: seq<string>, self: Identity)
  {
    match rr
    case Hinfo(owner, cpu, os) =>
      cpu == "RFC8482" && os == "" && exists q :: q in qs && q.name == owner && q.qtype == TYPE_ANY
    case Soa(zone, primary) => zone in domains && primary == self.fqdn
    case Ns(zone, host) => zone in domains && host == self.fqdn
    case A(owner, ip) =>
      (exists q :: q in qs && q.name == owner && q.qtype == TYPE_A) &&
      Lower(owner) in db && ip in db[Lower(owner)].a
    case AAAA(owner, ip) =>
      (exists q :: q in qs && q.name == owner && q.qtype == TYPE_AAAA) &&
      Lower(owner) in db && ip in db[Lower(owner)].aaaa
    case SelfA(fqdn, ip) => fqdn == self.fqdn && ip == self.ip
  }

  ghost predicate AllGrounded(rs: seq<RR>, qs: seq<Question>, db: Table, domains: seq<string>, self: Identity)
  {
    forall k :: 0 <= k < |rs| ==> Grounded(rs[k], qs, db, domains, self)
  }

  ghost predicate SectionsOk(m: Msg, qs: seq<Question>, db: Table, domains: seq<string>, self: Identity)
  {
    && AllGrounded(m.answer, qs, db, domains, self)
    && AllGrounded(m.ns, qs, db, domains, self)
    && (forall k :: 0 <= k < |m.extra| ==> m.extra[k] == OwnA(self))
  }

  lemma GroundedAppend(rs: seq<RR>, more: seq<RR>, qs: seq<Question>, db: Table, domains: seq<string>, self: Identity)
    requires AllGrounded(rs, qs, db, domains, self) && AllGrounded(more, qs, db, domains, self)
    ensures AllGrounded(rs + more, qs, db, domains, self)
  {
    forall k | 0 <= k < |rs + more|
      ensures Grounded((rs + more)[k], qs, db, domains, self)
    {
      if k >= |rs| {
        assert (rs + more)[k] == more[k - |rs|];
      }
    }
  }

  /** The answers drawn from the table entry of an asked name are grounded. */
  lemma FoundGrounded(q: Question, qs: seq<Question>, db: Table, domains: seq<string>, self: Identity)
    requires q in qs && Lower(q.name) in db
    ensures AllGrounded(Found(q, db[Lower(q.name)]), qs, db, domains, self)
  {
    var rec := db[Lower(q.name)];
    var added := Found(q, rec);
    forall k | 0 <= k < |added|
      ensures Grounded(added[k], qs, db, domains, self)
    {
      if q.qtype == TYPE_A {
        assert added[k] == A(q.name, rec.a[k]);
      } else {
        assert added[k] == AAAA(q.name, rec.aaaa[k]);
      }
    }
  }

  lemma RefusedAnswerGrounded(m: Msg, q: Question, qs: seq<Question>, db: Table, domains: seq<string>, self: Identity)
    requires FindSuffix(Lower(q.name), domains) == ""
    ensures AllGrounded(Step(m, q, db, domains, self).answer[|m.answer|..], qs, db, domains, self)
  {
    assert Step(m, q, db, domains, self).answer == m.answer;
    assert Step(m, q, db, domains, self).answer[|m.answer|..] == [];
  }

  lemma AnyAnswerGrounded(m: Msg, q: Question, qs: seq<Question>, db: Table, domains: seq<string>, self: Identity)
    requires q in qs
    requires FindSuffix(Lower(q.name), domains) != "" && q.qtype == TYPE_ANY
    ensures AllGrounded(Step(m, q, db, domains, self).answer[|m.answer|..], qs, db, domains, self)
  {
    var added := Step(m, q, db, domains, self).answer[|m.answer|..];
    assert added == [Hinfo(q.name, "RFC8482", "")];
    assert Grounded(added[0], qs, db, domains, self);
  }

  lemma ApexAnswerGrounded(m: Msg, q: Question, qs: seq<Question>, db: Table, domains: seq<string>, self: Identity)
    requires FindSuffix(Lower(q.name), domains) != "" && q.qtype != TYPE_ANY
    requires FindSuffix(Lower(q.name), domains) == Lower(q.name) && q.qtype in {TYPE_SOA, TYPE_NS}
    ensures AllGrounded(Step(m, q, db, domains, self).answer[|m.answer|..], qs, db, domains, self)
  {
    assert FindSuffix(Lower(q.name), domains) in domains;
  }

  lemma TableAnswerGrounded(m: Msg, q: Question, qs: seq<Question>, db: Table, domains: seq<string>, self: Identity)
    requires q in qs
    requires FindSuffix(Lower(q.name), domains) != "" && q.qtype != TYPE_ANY
    requires q.qtype in {TYPE_SOA, TYPE_NS} ==> FindSuffix(Lower(q.name), domains) != Lower(q.name)
    ensures AllGrounded(Step(m, q, db, domains, self).answer[|m.answer|..], qs, db, domains, self)
  {
    var added := Step(m, q, db, domains, self).answer[|m.answer|..];
    if Lower(q.name) in db {
      assert added == Found(q, db[Lower(q.name)]);
      FoundGrounded(q, qs, db, domains, self);
    } else {
      assert added == [];
    }
  }

  lemma SingleAnswersGrounded(q: Question, qs: seq<Question>, db: Table, domains: seq<string>, self: Identity)
    requires q in qs
    ensures AllGrounded(Single(q, db, domains, self).answer, qs, db, domains, self)
  {
    var m := Reply(Request(OPCODE_QUERY, [q]));
    SingleIsStep(q, db, domains, self);
    var name := Lower(q.name);
    var zone := FindSuffix(name, domains);
    if zone == "" {
      RefusedAnswerGrounded(m, q, qs, db, domains, self);
    } else if q.qtype == TYPE_ANY {
      AnyAnswerGrounded(m, q, qs, db, domains, self);
    } else if q.qtype in {TYPE_SOA, TYPE_NS} && zone == name {
      ApexAnswerGrounded(m, q, qs, db, domains, self);
    } else {
      TableAnswerGrounded(m, q, qs, db, domains, self);
    }
    assert Step(m, q, db, domains, self).answer[|m.answer|..] == Step(m, q, db, domains, self).answer;
  }

  /** What one question appends to the Authority and Additional sections: nothing or one
      SOA/NS record of a served suffix, and nothing or the server's own A record. */
  lemma StepTail(m: Msg, q: Question, qs: seq<Question>, db: Table, domains: seq<string>, self: Identity)
    returns (ns: seq<RR>, extra: seq<RR>)
    ensures Step(m, q, db, domains, self).ns == m.ns + ns
    ensures Step(m, q, db, domains, self).extra == m.extra + extra
    ensures AllGrounded(ns, qs, db, domains, self)
    ensures ns == [] || (|ns| == 1 && (ns[0].Soa? || ns[0].Ns?) && ns[0].zone in domains)
    ensures extra == [] || extra == [OwnA(self)]
  {
    var name := Lower(q.name);
    ns, extra := RespondTail(m, q, name, FindSuffix(name, domains), qs, db, domains, self);
  }

  lemma RespondTail(m: Msg, q: Question, name: string, zone: string, qs: seq<Question>, db: Table,
                    domains: seq<string>, self: Identity)
    returns (ns: seq<RR>, extra: seq<RR>)
    requires zone != "" ==> zone in domains
    ensures Respond(m, q, name, zone, db, self).ns == m.ns + ns
    ensures Respond(m, q, name, zone, db, self).extra == m.extra + extra
    ensures AllGrounded(ns, qs, db, domains, self)
    ensures ns == [] || (|ns| == 1 && (ns[0].Soa? || ns[0].Ns?) && ns[0].zone in domains)
    ensures extra == [] || extra == [OwnA(self)]
  {
    if zone == "" || q.qtype == TYPE_ANY {
      ns, extra := [], [];
    } else if q.qtype == TYPE_SOA && zone == name {
      ns, extra := [NsFor(zone, self)], [OwnA(self)];
    } else if q.qtype == TYPE_NS && zone == name {
      ns, extra := [], [OwnA(self)];
    } else if name in db {
      ns := if |m.answer + Found(q, db[name])| == 0 then [SoaFor(zone, self)] else [];
      extra := [];
    } else {
      ns, extra := [SoaFor(zone, self)], [];
    }
  }

  lemma AppendKeepsSectionsOk(m: Msg, r: Msg, answer: seq<RR>, ns: seq<RR>, extra: seq<RR>,
                              qs: seq<Question>, db: Table, domains: seq<string>, self: Identity)
    requires SectionsOk(m, qs, db, domains, self)
    requires r.answer == m.answer + answer && r.ns == m.ns + ns && r.extra == m.extra + extra
    requires AllGrounded(answer, qs, db, domains, self) && AllGrounded(ns, qs, db, domains, self)
    requires extra == [] || extra == [OwnA(self)]
    ensures SectionsOk(r, qs, db, domains, self)
  {
    GroundedAppend(m.answer, answer, qs, db, domains, self);
    GroundedAppend(m.ns, ns, qs, db, domains, self);
  }

  lemma StepKeepsSectionsOk(m: Msg, q: Question, qs: seq<Question>, db: Table, domains: seq<string>, self: Identity)
    requires q in qs
    requires SectionsOk(m, qs, db, domains, self)
    ensures SectionsOk(Step(m, q, db, domains, self), qs, db, domains, self)
  {
    var r := Step(m, q, db, domains, self);
    var answer := Single(q, db, domains, self).answer;
    assert r.answer == m.answer + answer by {
      StepAgainstSingle(m, q, db, domains, self);
    }
    assert AllGrounded(answer, qs, db, domains, self) by {
      SingleAnswersGrounded(q, qs, db, domains, self);
    }
    var ns, extra := StepTail(m, q, qs, db, domains, self);
    AppendKeepsSectionsOk(m, r, answer, ns, extra, qs, db, domains, self);
  }

  lemma {:induction false} StepsKeepSectionsOk(m: Msg, qs: seq<Question>, all: seq<Question>, db: Table, domains: seq<string>, self: Identity)
    requires forall k :: 0 <= k < |qs| ==> qs[k] in all
    requires SectionsOk(m, all, db, domains, self)
    ensures SectionsOk(Steps(m, qs, db, domains, self), all, db, domains, self)
    decreases |qs|
  {
    if qs != [] {
      var init := qs[..|qs| - 1];
      StepsKeepSectionsOk(m, init, all, db, domains, self);
      StepKeepsSectionsOk(Steps(m, init, db, domains, self), qs[|qs| - 1], all, db, domains, self);
    }
  }

  /** Every Answer and Authority record of a reply is one of: the RFC 8482 HINFO for an ANY
      question asked; an SOA or NS of a served zone naming this server; an A or AAAA record
      owned by a name asked with that type, whose address the table holds for the lower-cased
      name. The Additional section holds only the server's own A record. */
  lemma RepliesAreGrounded(request: Request, db: Table, domains: seq<string>, self: Identity)
    ensures SectionsOk(Handle(request, db, domains, self), request.question, db, domains, self)
  {
    if request.opcode == OPCODE_QUERY {
      StepsKeepSectionsOk(Reply(request), request.question, request.question, db, domains, self);
    }
  }

  // ---------------------------------------------------------------------------
  // Case and table independence
  // ---------------------------------------------------------------------------

  /** The record `rr` with its owner replaced, for the records that carry the query name. */
  function Reowned(rr: RR, owner: string): RR
  {
    match rr
    case Hinfo(_, cpu, os) => Hinfo(owner, cpu, os)
    case A(_, ip) => A(owner, ip)
    case AAAA(_, ip) => AAAA(owner, ip)
    case _ => rr
  }

  /** Two spellings of a name that differ only in letter case get the same Rcode, Authority
      and Additional sections, and the same answers, each owned by the name as asked. */
  lemma CaseInsensitive(q1: Question, q2: Question, db: Table, domains: seq<string>, self: Identity)
    requires Lower(q1.name) == Lower(q2.name) && q1.qtype == q2.qtype
    ensures var r1, r2 := Single(q1, db, domains, self), Single(q2, db, domains, self);
      && r2.rcode == r1.rcode && r2.ns == r1.ns && r2.extra == r1.extra
      && |r2.answer| == |r1.answer|
      && forall k :: 0 <= k < |r1.answer| ==> r2.answer[k] == Reowned(r1.answer[k], q2.name)
  {
    SingleIsStep(q1, db, domains, self);
    SingleIsStep(q2, db, domains, self);
    var name := Lower(q1.name);
    var zone := FindSuffix(name, domains);
    if zone == "" {
    } else if q1.qtype == TYPE_ANY {
    } else if q1.qtype == TYPE_SOA && zone == name {
    } else if q1.qtype == TYPE_NS && zone == name {
    } else if name in db {
      FoundRenamed(q1, q2, db[name]);
    } else {
    }
  }

  lemma FoundRenamed(q1: Question, q2: Question, rec: Records)
    requires q1.qtype == q2.qtype
    ensures |Found(q2, rec)| == |Found(q1, rec)|
    ensures forall k :: 0 <= k < |Found(q1, rec)| ==> Found(q2, rec)[k] == Reowned(Found(q1, rec)[k], q2.name)
  {
  }

  /** Two tables agree on the lower-cased names of the questions. */
  ghost predicate AgreeOn(db: Table, other: Table, qs: seq<Question>)
  {
    forall k :: 0 <= k < |qs| ==>
      (Lower(qs[k].name) in db <==> Lower(qs[k].name) in other) &&
      (Lower(qs[k].name) in db ==> db[Lower(qs[k].name)] == other[Lower(qs[k].name)])
  }

  lemma {:induction false} StepsReadAskedNames(m: Msg, qs: seq<Question>, db: Table, other: Table, domains: seq<string>, self: Identity)
    requires AgreeOn(db, other, qs)
    ensures Steps(m, qs, db, domains, self) == Steps(m, qs, other, domains, self)
    decreases |qs|
  {
    if qs != [] {
      var init := qs[..|qs| - 1];
      assert AgreeOn(db, other, init) by {
        forall k | 0 <= k < |init| ensures init[k] == qs[k] { }
      }
      StepsReadAskedNames(m, init, db, other, domains, self);
    }
  }

  /** The reply depends on the table only through the entries of the lower-cased question
      names: lookups are exact, with no wildcard or suffix search. */
  lemma ReadsOnlyAskedNames(request: Request, db: Table, other: Table, domains: seq<string>, self: Identity)
    requires AgreeOn(db, other, request.question)
    ensures Handle(request, db, domains, self) == Handle(request, other, domains, self)
  {
    StepsReadAskedNames(Reply(request), request.question, db, other, domains, self);
  }
}
