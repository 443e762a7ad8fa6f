/** The string keys under which alerts are deduplicated and recurring flows counted
    (internal/alerting/alerting.go, lines 159-162; internal/history/history.go, lines 367-371). */
module FlowKeys {
  import opened Decimal
  import opened Sequences

  /** The parts of a flow that its alert is deduplicated by. The interface is not among them. */
  datatype Tuple = Tuple(srcIP: string, srcPort: nat, dstIP: string, dstPort: nat, proto: string)

  function DedupeKey(t: Tuple): string {
    (t.srcIP + ":" + Itoa(t.srcPort)) + "-" + (">" + ((t.dstIP + ":" + Itoa(t.dstPort)) + "/" + t.proto))
  }

  function RecurrenceKey(srcIP: string, dstIP: string, dstPort: nat, proto: string): string {
    srcIP + "\0" + (dstIP + "\0" + (Itoa(dstPort) + "\0" + proto))
  }

  /** Printed addresses: digits, dots and colons, no dash and no slash. */
  ghost predicate Plain(t: Tuple) {
    '-' !in t.srcIP && '/' !in t.dstIP
  }

  lemma {:induction false} EndPoint(ip: string, port: nat, c: char)
    requires c !in ip && c != ':' && !('0' <= c <= '9')
    ensures c !in ip + ":" + Itoa(port)
  {
    ItoaDigits(port);
  }

  lemma {:induction false} EndPointInjective(a: string, p: nat, b: string, q: nat)
    requires a + ":" + Itoa(p) == b + ":" + Itoa(q)
    ensures a == b && p == q
  {
    hide Itoa;
    ItoaDigits(p);
    ItoaDigits(q);
    SplitAtLast(a, Itoa(p), b, Itoa(q), ':');
    ItoaInjective(p, q);
  }

  /** Flows with different addresses, ports or protocol never suppress each other's alerts, colons of IPv6 addresses
      notwithstanding. */
  lemma {:induction false} DedupeKeyInjective(a: Tuple, b: Tuple)
    requires Plain(a) && Plain(b) && DedupeKey(a) == DedupeKey(b)
    ensures a == b
  {
    hide Itoa;
    EndPoint(a.srcIP, a.srcPort, '-');
    EndPoint(b.srcIP, b.srcPort, '-');
    EndPoint(a.dstIP, a.dstPort, '/');
    EndPoint(b.dstIP, b.dstPort, '/');
    var a2, b2 := a.dstIP + ":" + Itoa(a.dstPort), b.dstIP + ":" + Itoa(b.dstPort);
    SplitAtFirst(a.srcIP + ":" + Itoa(a.srcPort), ">" + (a2 + "/" + a.proto), b.srcIP + ":" + Itoa(b.srcPort), ">" + (b2 + "/" + b.proto), '-');
    assert (">" + (a2 + "/" + a.proto))[1..] == a2 + "/" + a.proto && (">" + (b2 + "/" + b.proto))[1..] == b2 + "/" + b.proto;
    SplitAtFirst(a2, a.proto, b2, b.proto, '/');
    EndPointInjective(a.srcIP, a.srcPort, b.srcIP, b.srcPort);
    EndPointInjective(a.dstIP, a.dstPort, b.dstIP, b.dstPort);
  }

  /** Different flow tuples are counted under different keys, whatever the protocol's name. */
  lemma {:induction false} RecurrenceKeyInjective(s1: string, d1: string, p1: nat, n1: string, s2: string, d2: string, p2: nat, n2: string)
    requires '\0' !in s1 && '\0' !in d1 && '\0' !in s2 && '\0' !in d2
    requires RecurrenceKey(s1, d1, p1, n1) == RecurrenceKey(s2, d2, p2, n2)
    ensures s1 == s2 && d1 == d2 && p1 == p2 && n1 == n2
  {
    hide Itoa;
    ItoaDigits(p1);
    ItoaDigits(p2);
    SplitAtFirst(s1, d1 + "\0" + (Itoa(p1) + "\0" + n1), s2, d2 + "\0" + (Itoa(p2) + "\0" + n2), '\0');
    SplitAtFirst(d1, Itoa(p1) + "\0" + n1, d2, Itoa(p2) + "\0" + n2, '\0');
    SplitAtFirst(Itoa(p1), n1, Itoa(p2), n2, '\0');
    ItoaInjective(p1, p2);
  }
}
