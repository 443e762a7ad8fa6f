/** What one flow accumulates from its packets (internal/aggregate/aggregate.go, lines 110-117,
    204-231, 280-313, 365-435). */
module FlowStats {
  import opened Sequences
  import opened Wrappers

  datatype FlowKey = FlowKey(srcIP: string, dstIP: string, srcPort: nat, dstPort: nat, proto: string, iface: string)

  datatype Flags = Flags(quic: bool, http2: bool, grpc: bool, rh0: bool, fragment: bool)

  datatype Http = Http(verb: string, host: string, userAgent: string, uri: string)

  datatype Cert = Cert(selfSigned: bool, expired: bool, validityDays: int, subjectCN: string, hasSAN: bool, ipCN: bool)

  /** A packet event. Time 0 is the zero time. `ttl` is meaningful where `ttlSeen` holds. */
  datatype Packet = Packet(
    key: FlowKey, payloadLen: nat, timestamp: nat, enrichmentOnly: bool,
    dnsQuery: string, sni: string, ja3: string, ja3s: string, hassh: string,
    flags: Flags, nxdomain: bool, ttl: nat, ttlSeen: bool, http: Http, cert: Option<Cert>)

  /** What is counted and timed. */
  datatype Counters = Counters(packetCount: nat, byteCount: nat, firstSeen: nat, lastSeen: nat, timestamps: seq<nat>)

  /** The names and fingerprints seen. */
  datatype Names = Names(dnsQueries: set<string>, tlsNames: set<string>, ja3: string, ja3s: string, hassh: string)

  datatype Answers = Answers(nxdomains: nat, minTTL: nat, ttlSeen: bool)

  datatype Offers = Offers(http: Http, cert: Option<Cert>)

  datatype Stats = Stats(counters: Counters, names: Names, flags: Flags, answers: Answers, offers: Offers)

  const MAX_TIMESTAMPS: nat := 1024

  const FRESH: Stats := Stats(Counters(0, 0, 0, 0, []), Names({}, {}, "", "", ""), Flags(false, false, false, false, false),
                              Answers(0, 0, false), Offers(Http("", "", "", ""), None))

  // ----- the step

  function Earlier(first: nat, t: nat): nat {
    if first == 0 || t < first then t else first
  }

  function Later(last: nat, t: nat): nat {
    if t > last then t else last
  }

  function Count(c: Counters, p: Packet): Counters {
    if p.enrichmentOnly then c
    else Counters(c.packetCount + 1, c.byteCount + p.payloadLen, Earlier(c.firstSeen, p.timestamp), Later(c.lastSeen, p.timestamp),
                  if |c.timestamps| < MAX_TIMESTAMPS then c.timestamps + [p.timestamp] else c.timestamps)
  }

  function Include(names: set<string>, name: string): set<string> {
    if name == "" then names else names + {name}
  }

  function Keep(before: string, now: string): string {
    if now != "" && before == "" then now else before
  }

  function Name(n: Names, p: Packet): Names {
    Names(Include(n.dnsQueries, p.dnsQuery), Include(n.tlsNames, p.sni),
          Keep(n.ja3, p.ja3), Keep(n.ja3s, p.ja3s), Keep(n.hassh, p.hassh))
  }

  function Or(a: Flags, b: Flags): Flags {
    Flags(a.quic || b.quic, a.http2 || b.http2, a.grpc || b.grpc, a.rh0 || b.rh0, a.fragment || b.fragment)
  }

  function Answer(a: Answers, p: Packet): Answers {
    Answers(a.nxdomains + (if p.nxdomain then 1 else 0),
            if p.ttlSeen && (!a.ttlSeen || p.ttl < a.minTTL) then p.ttl else a.minTTL,
            a.ttlSeen || p.ttlSeen)
  }

  function Offer(o: Offers, p: Packet): Offers {
    Offers(if p.http.verb != "" && o.http.verb == "" then p.http else o.http,
           if p.cert.Some? && o.cert.None? then p.cert else o.cert)
  }

  /** A flow after one more of its packets. */
  function Absorb(s: Stats, p: Packet): Stats {
    Stats(Count(s.counters, p), Name(s.names, p), Or(s.flags, p.flags), Answer(s.answers, p), Offer(s.offers, p))
  }

  /** A flow after all of its packets, in the order of their arrival. */
  ghost function Fold(ps: seq<Packet>): Stats {
    if ps == [] then FRESH else Absorb(Fold(ps[..|ps| - 1]), ps[|ps| - 1])
  }

  // ----- the flow object

  class FlowState {
    var packetCount: nat
    var byteCount: nat
    var firstSeen: nat
    var lastSeen: nat
    var timestamps: seq<nat>
    var dnsQueries: set<string>
    var tlsNames: set<string>
    var ja3: string
    var ja3s: string
    var hassh: string
    var flags: Flags
    var nxdomains: nat
    var minTTL: nat
    var ttlSeen: bool
    var http: Http
    var cert: Option<Cert>

    ghost function CountersNow(): Counters
      reads `packetCount, `byteCount, `firstSeen, `lastSeen, `timestamps
    {
      Counters(packetCount, byteCount, firstSeen, lastSeen, timestamps)
    }

    ghost function NamesNow(): Names
      reads `dnsQueries, `tlsNames, `ja3, `ja3s, `hassh
    {
      Names(dnsQueries, tlsNames, ja3, ja3s, hassh)
    }

    ghost function AnswersNow(): Answers
      reads `nxdomains, `minTTL, `ttlSeen
    {
      Answers(nxdomains, minTTL, ttlSeen)
    }

    ghost function OffersNow(): Offers
      reads `http, `cert
    {
      Offers(http, cert)
    }

    ghost function Value(): Stats
      reads this
    {
      Stats(CountersNow(), NamesNow(), flags, AnswersNow(), OffersNow())
    }

    constructor ()
      ensures Value() == FRESH
    {
      packetCount, byteCount, firstSeen, lastSeen, timestamps := 0, 0, 0, 0, [];
      dnsQueries, tlsNames, ja3, ja3s, hassh := {}, {}, "", "", "";
      flags := Flags(false, false, false, false, false);
      nxdomains, minTTL, ttlSeen, http, cert := 0, 0, false, Http("", "", "", ""), None;
    }

    /** The part of Add that runs under the lock of the flow. */
    method AddPacket(pkt: Packet)
      modifies this
      ensures Value() == Absorb(old(Value()), pkt)
    {
      hide CountersNow, NamesNow, AnswersNow, OffersNow, Count, Name, Or, Answer, Offer;
      NoteCounters(pkt);
      NoteNames(pkt);
      NoteFlags(pkt);
      NoteAnswer(pkt);
      NoteOffers(pkt);
    }

    method NoteCounters(pkt: Packet)
      modifies `packetCount, `byteCount, `firstSeen, `lastSeen, `timestamps
      ensures CountersNow() == Count(old(CountersNow()), pkt)
    {
      if !pkt.enrichmentOnly {
        packetCount := packetCount + 1;
        byteCount := byteCount + pkt.payloadLen;
        if firstSeen == 0 || pkt.timestamp < firstSeen {
          firstSeen := pkt.timestamp;
        }
        if pkt.timestamp > lastSeen {
          lastSeen := pkt.timestamp;
        }
        if |timestamps| < MAX_TIMESTAMPS {
          timestamps := timestamps + [pkt.timestamp];
        }
      }
    }

    method NoteNames(pkt: Packet)
      modifies `dnsQueries, `tlsNames, `ja3, `ja3s, `hassh
      ensures NamesNow() == Name(old(NamesNow()), pkt)
    {
      if pkt.dnsQuery != "" {
        dnsQueries := dnsQueries + {pkt.dnsQuery};
      }
      if pkt.sni != "" {
        tlsNames := tlsNames + {pkt.sni};
      }
      if pkt.ja3 != "" && ja3 == "" {
        ja3 := pkt.ja3;
      }
      if pkt.ja3s != "" && ja3s == "" {
        ja3s := pkt.ja3s;
      }
      if pkt.hassh != "" && hassh == "" {
        hassh := pkt.hassh;
      }
    }

    method NoteFlags(pkt: Packet)
      modifies `flags
      ensures flags == Or(old(flags), pkt.flags)
    {
      if pkt.flags.quic {
        flags := flags.(quic := true);
      }
      if pkt.flags.http2 {
        flags := flags.(http2 := true);
      }
      if pkt.flags.grpc {
        flags := flags.(grpc := true);
      }
      if pkt.flags.rh0 {
        flags := flags.(rh0 := true);
      }
      if pkt.flags.fragment {
        flags := flags.(fragment := true);
      }
    }

    method NoteAnswer(pkt: Packet)
      modifies `nxdomains, `minTTL, `ttlSeen
      ensures AnswersNow() == Answer(old(AnswersNow()), pkt)
    {
      if pkt.nxdomain {
        nxdomains := nxdomains + 1;
      }
      if pkt.ttlSeen {
        if !ttlSeen || pkt.ttl < minTTL {
          minTTL := pkt.ttl;
        }
        ttlSeen := true;
      }
    }

    method NoteOffers(pkt: Packet)
      modifies `http, `cert
      ensures OffersNow() == Offer(old(OffersNow()), pkt)
    {
      if pkt.http.verb != "" && http.verb == "" {
        http := pkt.http;
      }
      if pkt.cert.Some? && cert.None? {
        cert := pkt.cert;
      }
    }
  }

  // ----- what the accumulated values are

  /** The packets that count: all but the synthetic ones. */
  ghost function Real(ps: seq<Packet>): seq<Packet> {
    if ps == [] then []
    else Real(ps[..|ps| - 1]) + if ps[|ps| - 1].enrichmentOnly then [] else [ps[|ps| - 1]]
  }

  ghost function Times(ps: seq<Packet>): (ts: seq<nat>)
    ensures |ts| == |ps| && forall i :: 0 <= i < |ps| ==> ts[i] == ps[i].timestamp
  {
    seq(|ps|, i requires 0 <= i < |ps| => ps[i].timestamp)
  }

  /** The first value of `f` that is not empty. */
  ghost function FirstOf(ps: seq<Packet>, f: Packet -> string): string {
    if ps == [] then "" else if f(ps[0]) != "" then f(ps[0]) else FirstOf(ps[1..], f)
  }

  lemma {:induction false} FirstOfSnoc(ps: seq<Packet>, p: Packet, f: Packet -> string)
    ensures FirstOf(ps + [p], f) == Keep(FirstOf(ps, f), f(p))
  {
    if ps != [] {
      assert (ps + [p])[1..] == ps[1..] + [p];
      FirstOfSnoc(ps[1..], p, f);
    } else {
      assert (ps + [p])[1..] == [];
    }
  }

  function Ja3(p: Packet): string { p.ja3 }
  function Ja3s(p: Packet): string { p.ja3s }
  function Hassh(p: Packet): string { p.hassh }

  ghost function Bytes(ps: seq<Packet>): nat {
    if ps == [] then 0 else Bytes(ps[..|ps| - 1]) + ps[|ps| - 1].payloadLen
  }

  lemma {:induction false} BytesSnoc(ps: seq<Packet>, p: Packet)
    ensures Bytes(ps + [p]) == Bytes(ps) + p.payloadLen
  {
    assert (ps + [p])[..|ps|] == ps;
  }

  lemma {:induction false} NothingFolded()
    ensures Fold([]) == FRESH
  {
  }

  lemma {:induction false} FoldSnoc(ps: seq<Packet>, p: Packet)
    ensures Fold(ps + [p]) == Absorb(Fold(ps), p)
  {
    hide Absorb;
    assert (ps + [p])[..|ps|] == ps;
  }

  lemma {:induction false} RealSnoc(ps: seq<Packet>, p: Packet)
    ensures Real(ps + [p]) == if p.enrichmentOnly then Real(ps) else Real(ps) + [p]
  {
    assert (ps + [p])[..|ps|] == ps;
    assert Real(ps) + [] == Real(ps);
  }

  ghost function Capped(ts: seq<nat>): seq<nat> {
    if |ts| <= MAX_TIMESTAMPS then ts else ts[..MAX_TIMESTAMPS]
  }

  lemma {:induction false} CappedSnoc(ts: seq<nat>, t: nat)
    ensures Capped(ts + [t]) == if |Capped(ts)| < MAX_TIMESTAMPS then Capped(ts) + [t] else Capped(ts)
  {
  }

  lemma {:induction false} CountersFold(ps: seq<Packet>)
    ensures var c, ts := Fold(ps).counters, Times(Real(ps));
            c.packetCount == |ts| && c.timestamps == Capped(ts) && c.byteCount == Bytes(Real(ps))
  {
    if ps != [] {
      hide Name, Or, Answer, Offer, Earlier, Later, Real, Times, Bytes, Capped;
      var front, p := ps[..|ps| - 1], ps[|ps| - 1];
      CountersFold(front);
      assert ps == front + [p];
      RealSnoc(front, p);
      BytesSnoc(Real(front), p);
      TimesSnoc(Real(front), p);
      CappedSnoc(Times(Real(front)), p.timestamp);
      assert Fold(ps).counters == Count(Fold(front).counters, p);
      hide Fold;
    } else {
      hide Times;
    }
  }

  /** The counters describe the real packets: their number and size, and their times in order, up to the cap. */
  lemma {:induction false} CountersAreExact(ps: seq<Packet>)
    ensures var c, ts := Fold(ps).counters, Times(Real(ps));
            && c.packetCount == |ts| && c.byteCount == Bytes(Real(ps))
            && c.timestamps == (if |ts| <= 1024 then ts else ts[..1024])
  {
    hide Fold, Times, Real, Bytes;
    CountersFold(ps);
  }

  lemma {:induction false} TimesSnoc(ps: seq<Packet>, p: Packet)
    ensures Times(ps + [p]) == Times(ps) + [p.timestamp]
  {
  }

  /** lastSeen is the latest time of a real packet. */
  lemma {:induction false} LastSeenIsLatest(ps: seq<Packet>)
    ensures var last, ts := Fold(ps).counters.lastSeen, Times(Real(ps));
            (forall t :: t in ts ==> t <= last) && (last == 0 || last in ts)
  {
    if ps == [] {
      hide Fold;
      NothingFolded();
    } else {
      hide Fold, Name, Or, Answer, Offer, Earlier, Real, Times;
      var front, p := ps[..|ps| - 1], ps[|ps| - 1];
      LastSeenIsLatest(front);
      assert ps == front + [p];
      FoldSnoc(front, p);
      RealSnoc(front, p);
      TimesSnoc(Real(front), p);
    }
  }

  ghost function Queries(ps: seq<Packet>): set<string> {
    set i | 0 <= i < |ps| && ps[i].dnsQuery != "" :: ps[i].dnsQuery
  }

  ghost function ServerNames(ps: seq<Packet>): set<string> {
    set i | 0 <= i < |ps| && ps[i].sni != "" :: ps[i].sni
  }

  lemma {:induction false} QueriesSnoc(ps: seq<Packet>, p: Packet)
    ensures Queries(ps + [p]) == Include(Queries(ps), p.dnsQuery)
  {
    var all := ps + [p];
    assert forall i :: 0 <= i < |ps| ==> all[i] == ps[i];
    assert all[|ps|] == p;
  }

  lemma {:induction false} ServerNamesSnoc(ps: seq<Packet>, p: Packet)
    ensures ServerNames(ps + [p]) == Include(ServerNames(ps), p.sni)
  {
    var all := ps + [p];
    assert forall i :: 0 <= i < |ps| ==> all[i] == ps[i];
    assert all[|ps|] == p;
  }

  /** The collected names are exactly the names seen. */
  lemma {:induction false} NamesAreExact(ps: seq<Packet>)
    ensures Fold(ps).names.dnsQueries == Queries(ps) && Fold(ps).names.tlsNames == ServerNames(ps)
  {
    if ps != [] {
      hide Count, Or, Answer, Offer, Keep, Queries, ServerNames, Include;
      var front, p := ps[..|ps| - 1], ps[|ps| - 1];
      NamesAreExact(front);
      assert ps == front + [p];
      QueriesSnoc(front, p);
      ServerNamesSnoc(front, p);
    }
  }

  ghost predicate Any(ps: seq<Packet>, f: Packet -> bool) {
    exists i :: 0 <= i < |ps| && f(ps[i])
  }

  predicate Quic(p: Packet) { p.flags.quic }
  predicate Http2(p: Packet) { p.flags.http2 }
  predicate Grpc(p: Packet) { p.flags.grpc }
  predicate Rh0(p: Packet) { p.flags.rh0 }
  predicate Fragment(p: Packet) { p.flags.fragment }

  lemma {:induction false} AnySnoc(ps: seq<Packet>, p: Packet, f: Packet -> bool)
    ensures Any(ps + [p], f) <==> Any(ps, f) || f(p)
  {
    var all := ps + [p];
    assert forall i :: 0 <= i < |ps| ==> all[i] == ps[i];
    assert all[|ps|] == p;
  }

  /** The flags of a sequence of packets. */
  ghost function AnyFlags(ps: seq<Packet>): Flags {
    Flags(Any(ps, Quic), Any(ps, Http2), Any(ps, Grpc), Any(ps, Rh0), Any(ps, Fragment))
  }

  lemma {:induction false} AnyFlagsSnoc(ps: seq<Packet>, p: Packet)
    ensures AnyFlags(ps + [p]) == Or(AnyFlags(ps), p.flags)
  {
    hide Any;
    AnySnoc(ps, p, Quic);
    AnySnoc(ps, p, Http2);
    AnySnoc(ps, p, Grpc);
    AnySnoc(ps, p, Rh0);
    AnySnoc(ps, p, Fragment);
  }

  /** Each flag says that some packet had it. */
  lemma {:induction false} FlagsAreExact(ps: seq<Packet>)
    ensures Fold(ps).flags == AnyFlags(ps)
  {
    if ps == [] {
      hide Fold;
      NothingFolded();
    } else {
      hide Fold, Count, Name, Answer, Offer, Or, AnyFlags;
      var front, p := ps[..|ps| - 1], ps[|ps| - 1];
      FlagsAreExact(front);
      assert ps == front + [p];
      FoldSnoc(front, p);
      AnyFlagsSnoc(front, p);
    }
  }

  /** Of the fingerprints of each kind, the first one stays. */
  lemma {:induction false} FirstFingerprintsWin(ps: seq<Packet>)
    ensures var n := Fold(ps).names; n.ja3 == FirstOf(ps, Ja3) && n.ja3s == FirstOf(ps, Ja3s) && n.hassh == FirstOf(ps, Hassh)
  {
    if ps != [] {
      hide Count, Or, Answer, Offer, Include, FirstOf, Keep;
      var front, p := ps[..|ps| - 1], ps[|ps| - 1];
      FirstFingerprintsWin(front);
      assert ps == front + [p];
      FirstOfSnoc(front, p, Ja3);
      FirstOfSnoc(front, p, Ja3s);
      FirstOfSnoc(front, p, Hassh);
      assert Fold(ps).names == Name(Fold(front).names, p);
      hide Fold, Absorb;
    }
  }

  const NO_REQUEST: Http := Http("", "", "", "")

  /** The first request that has a method. */
  ghost function FirstRequest(ps: seq<Packet>): Http {
    if ps == [] then NO_REQUEST else if ps[0].http.verb != "" then ps[0].http else FirstRequest(ps[1..])
  }

  lemma {:induction false} FirstRequestSnoc(ps: seq<Packet>, p: Packet)
    ensures FirstRequest(ps + [p]) == if FirstRequest(ps).verb == "" && p.http.verb != "" then p.http else FirstRequest(ps)
  {
    if ps != [] {
      assert (ps + [p])[1..] == ps[1..] + [p];
      FirstRequestSnoc(ps[1..], p);
    } else {
      assert (ps + [p])[1..] == [];
    }
  }

  /** The four HTTP fields come from one packet, the first that has a method. */
  lemma {:induction false} HttpIsOneRequest(ps: seq<Packet>)
    ensures Fold(ps).offers.http == FirstRequest(ps)
  {
    if ps != [] {
      hide Count, Name, Or, Answer, FirstRequest;
      var front, p := ps[..|ps| - 1], ps[|ps| - 1];
      HttpIsOneRequest(front);
      assert ps == front + [p];
      FirstRequestSnoc(front, p);
      assert Fold(ps).offers == Offer(Fold(front).offers, p);
      hide Fold;
    }
  }

  /** The first certificate. */
  ghost function FirstCert(ps: seq<Packet>): Option<Cert> {
    if ps == [] then None else if ps[0].cert.Some? then ps[0].cert else FirstCert(ps[1..])
  }

  lemma {:induction false} FirstCertSnoc(ps: seq<Packet>, p: Packet)
    ensures FirstCert(ps + [p]) == if FirstCert(ps).None? && p.cert.Some? then p.cert else FirstCert(ps)
  {
    if ps != [] {
      assert (ps + [p])[1..] == ps[1..] + [p];
      FirstCertSnoc(ps[1..], p);
    } else {
      assert (ps + [p])[1..] == [];
    }
  }

  /** Of several certificates the first one stays. */
  lemma {:induction false} FirstCertWins(ps: seq<Packet>)
    ensures Fold(ps).offers.cert == FirstCert(ps)
  {
    if ps != [] {
      hide Count, Name, Or, Answer, FirstCert;
      var front, p := ps[..|ps| - 1], ps[|ps| - 1];
      FirstCertWins(front);
      assert ps == front + [p];
      FirstCertSnoc(front, p);
      assert Fold(ps).offers == Offer(Fold(front).offers, p);
      hide Fold;
    }
  }

  /** The positions of the NXDOMAIN answers. */
  ghost function NXDomains(ps: seq<Packet>): set<nat> {
    set i: nat | i < |ps| && ps[i].nxdomain
  }

  lemma {:induction false} NXDomainsSnoc(ps: seq<Packet>, p: Packet)
    ensures |NXDomains(ps + [p])| == |NXDomains(ps)| + if p.nxdomain then 1 else 0
  {
    var all := ps + [p];
    assert forall i: nat :: i < |ps| ==> all[i] == ps[i];
    assert all[|ps|] == p;
    assert NXDomains(all) == NXDomains(ps) + if p.nxdomain then {|ps|} else {};
  }

  lemma {:induction false} NXDomainsAreCounted(ps: seq<Packet>)
    ensures Fold(ps).answers.nxdomains == |NXDomains(ps)|
  {
    if ps != [] {
      hide Count, Name, Or, Offer, NXDomains;
      var front, p := ps[..|ps| - 1], ps[|ps| - 1];
      NXDomainsAreCounted(front);
      assert ps == front + [p];
      NXDomainsSnoc(front, p);
      assert Fold(ps).answers == Answer(Fold(front).answers, p);
      hide Fold;
    }
  }

  /** The TTLs that were seen. */
  ghost function TTLs(ps: seq<Packet>): seq<nat> {
    if ps == [] then [] else TTLs(ps[..|ps| - 1]) + if ps[|ps| - 1].ttlSeen then [ps[|ps| - 1].ttl] else []
  }

  /** minTTL is the lowest of the TTLs that were seen; a TTL of zero counts. */
  lemma {:induction false} TTLIsLowest(ps: seq<Packet>)
    ensures var a, ts := Fold(ps).answers, TTLs(ps);
            && (a.ttlSeen <==> ts != [])
            && (a.ttlSeen ==> a.minTTL in ts && forall t :: t in ts ==> a.minTTL <= t)
  {
    if ps != [] {
      hide Count, Name, Or, Offer;
      var front, p := ps[..|ps| - 1], ps[|ps| - 1];
      TTLIsLowest(front);
      assert Fold(ps).answers == Answer(Fold(front).answers, p);
      assert TTLs(ps) == TTLs(front) + if p.ttlSeen then [p.ttl] else [];
      hide Fold, TTLs;
    }
  }

  // ----- order

  /** The part of a flow that does not depend on the order of its packets. */
  datatype Core = Core(packetCount: nat, byteCount: nat, lastSeen: nat, dnsQueries: set<string>, tlsNames: set<string>,
                       flags: Flags, answers: Answers)

  ghost function CoreOf(s: Stats): Core {
    Core(s.counters.packetCount, s.counters.byteCount, s.counters.lastSeen, s.names.dnsQueries, s.names.tlsNames, s.flags, s.answers)
  }

  ghost function CoreStep(c: Core, p: Packet): Core {
    Core(if p.enrichmentOnly then c.packetCount else c.packetCount + 1,
         if p.enrichmentOnly then c.byteCount else c.byteCount + p.payloadLen,
         if p.enrichmentOnly then c.lastSeen else Later(c.lastSeen, p.timestamp),
         Include(c.dnsQueries, p.dnsQuery), Include(c.tlsNames, p.sni), Or(c.flags, p.flags), Answer(c.answers, p))
  }

  lemma {:induction false} CoreStepsCommute(c: Core, a: Packet, b: Packet)
    ensures CoreStep(CoreStep(c, a), b) == CoreStep(CoreStep(c, b), a)
  {
    assert Include(Include(c.dnsQueries, a.dnsQuery), b.dnsQuery) == Include(Include(c.dnsQueries, b.dnsQuery), a.dnsQuery);
    assert Include(Include(c.tlsNames, a.sni), b.sni) == Include(Include(c.tlsNames, b.sni), a.sni);
  }

  lemma {:induction false} CoreOfAbsorb(s: Stats, p: Packet)
    ensures CoreOf(Absorb(s, p)) == CoreStep(CoreOf(s), p)
  {
    hide Or, Answer, Offer, Include, Keep, Earlier, Later;
  }

  /** It does not matter when a packet arrives: it could as well have been the last. */
  lemma {:induction false} CoreMoveLast(x: seq<Packet>, p: Packet, y: seq<Packet>)
    ensures CoreOf(Fold(x + [p] + y)) == CoreStep(CoreOf(Fold(x + y)), p)
    decreases |y|
  {
    hide Absorb, CoreStep, CoreOf, Fold;
    if y == [] {
      assert x + [p] + y == x + [p] && x + y == x;
      FoldSnoc(x, p);
      CoreOfAbsorb(Fold(x), p);
    } else {
      var front, last := y[..|y| - 1], y[|y| - 1];
      assert x + [p] + y == x + [p] + front + [last] && x + y == x + front + [last];
      CoreMoveLast(x, p, front);
      FoldSnoc(x + [p] + front, last);
      FoldSnoc(x + front, last);
      CoreOfAbsorb(Fold(x + [p] + front), last);
      CoreOfAbsorb(Fold(x + front), last);
      CoreStepsCommute(CoreOf(Fold(x + front)), p, last);
    }
  }

  /** Permuting the packets of a flow changes nothing in its core: counts, last time, names, flags, DNS answers. */
  lemma {:induction false} OrderIsIrrelevant(ps: seq<Packet>, qs: seq<Packet>)
    requires multiset(ps) == multiset(qs)
    ensures CoreOf(Fold(ps)) == CoreOf(Fold(qs))
    decreases |ps|
  {
    hide CoreStep, CoreOf, Absorb, Fold;
    assert |multiset(ps)| == |ps| && |multiset(qs)| == |qs|;
    if ps != [] {
      var front, p := ps[..|ps| - 1], ps[|ps| - 1];
      assert ps == front + [p];
      var x, y := TakeOut(qs, p);
      OrderIsIrrelevant(front, x + y);
      FoldSnoc(front, p);
      CoreOfAbsorb(Fold(front), p);
      CoreMoveLast(x, p, y);
    }
  }

  /** Synthetic events leave counts and timing alone: without them they are the same. */
  lemma {:induction false} EnrichmentIsNotCounted(ps: seq<Packet>)
    ensures Fold(Real(ps)).counters == Fold(ps).counters
  {
    if ps != [] {
      hide Name, Or, Answer, Offer, Earlier, Later;
      var front, p := ps[..|ps| - 1], ps[|ps| - 1];
      EnrichmentIsNotCounted(front);
      assert ps == front + [p];
      FoldSnoc(front, p);
      RealSnoc(front, p);
      FoldSnoc(Real(front), p);
      hide Fold, Real;
    }
  }

  // ----- the first time

  /** firstSeen after packets with these times. */
  ghost function FirstTime(ts: seq<nat>): nat {
    if ts == [] then 0 else Earlier(FirstTime(ts[..|ts| - 1]), ts[|ts| - 1])
  }

  lemma {:induction false} FirstSeenIsFirstTime(ps: seq<Packet>)
    ensures Fold(ps).counters.firstSeen == FirstTime(Times(Real(ps)))
  {
    if ps != [] {
      hide Name, Or, Answer, Offer, Earlier, Later;
      var front, p := ps[..|ps| - 1], ps[|ps| - 1];
      FirstSeenIsFirstTime(front);
      var ts := Times(Real(front));
      assert ps == front + [p];
      RealSnoc(front, p);
      TimesSnoc(Real(front), p);
      assert (ts + [p.timestamp])[..|ts|] == ts;
    }
  }

  /** Without a zero time, firstSeen is the least time. */
  lemma {:induction false} FirstTimeIsLeast(ts: seq<nat>)
    requires 0 !in ts && ts != []
    ensures FirstTime(ts) in ts && forall t :: t in ts ==> FirstTime(ts) <= t
  {
    var front := ts[..|ts| - 1];
    if front != [] {
      FirstTimeIsLeast(front);
    }
    assert ts == front + [ts[|ts| - 1]];
  }

  lemma {:induction false} FirstTimeOfZeros(ts: seq<nat>)
    requires forall i :: 0 <= i < |ts| ==> ts[i] == 0
    ensures FirstTime(ts) == 0
  {
    if ts != [] {
      FirstTimeOfZeros(ts[..|ts| - 1]);
    }
  }

  lemma {:induction false} FirstTimeAtEnd(ts: seq<nat>, t: nat)
    ensures FirstTime(ts + [t]) == 0 <==> t == 0
  {
    assert (ts + [t])[..|ts|] == ts;
  }

  /** Some ordering of the times ends with a given one. */
  lemma {:induction false} PutLast(ts: seq<nat>, t: nat) returns (us: seq<nat>)
    requires t in ts
    ensures multiset(us + [t]) == multiset(ts)
  {
    var x, y := TakeOut(ts, t);
    us := x + y;
  }

  ghost predicate OrderFree(ts: seq<nat>) {
    forall us: seq<nat> :: multiset(us) == multiset(ts) ==> FirstTime(us) == FirstTime(ts)
  }

  ghost predicate AllZero(ts: seq<nat>) {
    forall i :: 0 <= i < |ts| ==> ts[i] == 0
  }

  lemma {:induction false} SameTimes(us: seq<nat>, ts: seq<nat>)
    requires multiset(us) == multiset(ts) && (0 !in ts || AllZero(ts))
    ensures FirstTime(us) == FirstTime(ts)
  {
    hide FirstTime;
    assert forall t :: t in us <==> t in multiset(us);
    assert forall t :: t in ts <==> t in multiset(ts);
    if AllZero(ts) {
      assert forall i :: 0 <= i < |us| ==> us[i] in us;
      FirstTimeOfZeros(us);
      FirstTimeOfZeros(ts);
    } else {
      assert ts[0] in ts;
      assert us != [];
      FirstTimeIsLeast(us);
      FirstTimeIsLeast(ts);
    }
  }

  /** firstSeen is independent of the order of the packets exactly if no time is zero, or all are: a zero time
      after other packets makes the flow forget the earliest. */
  lemma {:induction false} FirstSeenIsOrderFreeIff(ts: seq<nat>)
    ensures OrderFree(ts) <==> 0 !in ts || AllZero(ts)
  {
    hide FirstTime;
    if 0 !in ts || AllZero(ts) {
      forall us: seq<nat> | multiset(us) == multiset(ts)
        ensures FirstTime(us) == FirstTime(ts)
      {
        SameTimes(us, ts);
      }
    } else {
      var i :| 0 <= i < |ts| && ts[i] != 0;
      var us := PutLast(ts, 0);
      var vs := PutLast(ts, ts[i]);
      FirstTimeAtEnd(us, 0);
      FirstTimeAtEnd(vs, ts[i]);
      assert FirstTime(us + [0]) != FirstTime(vs + [ts[i]]);
    }
  }
}
