/** SSH_MSG_KEXINIT and the string that HASSH hashes (internal/capture/ssh.go, lines 44-53, 66-162;
    sections 4.2, 6 and 7.1 of RFC 4253). Go's int is taken to have 64 bits. */
module Ssh {
  import opened Sequences
  import opened Wrappers
  import opened Wire

  const SSH_DASH: seq<Byte> := [83, 83, 72, 45]
  const NEWLINE: Byte := 10
  const SEMICOLON: Byte := 59
  const KEXINIT: Byte := 20
  const COOKIE_LEN: nat := 16
  const FIELDS: nat := 10
  const MAX_BANNER: nat := 256
  const MAX_PACKET: nat := 65535

  /** The five results of parseSSHKexInit. */
  datatype Kex = Kex(kex: seq<Byte>, enc: seq<Byte>, mac: seq<Byte>, comp: seq<Byte>, ok: bool)

  const FAILED: Kex := Kex([], [], [], [], false)

  // ----- what the bytes mean

  /** The position behind the first newline of `s[i..end]`. */
  ghost function LineEnd(s: seq<Byte>, i: nat, end: nat): (n: Option<nat>)
    requires end <= |s|
    ensures n.Some? ==> i < n.value <= end
    decreases end - i
  {
    if i >= end then None else if s[i] == NEWLINE then Some(i + 1) else LineEnd(s, i + 1, end)
  }

  ghost predicate HasBanner(payload: seq<Byte>) {
    |payload| >= 4 && payload[..4] == SSH_DASH
  }

  /** What follows the identification line, if there is one and it ends in time. */
  ghost function AfterBanner(payload: seq<Byte>): Option<seq<Byte>> {
    if !HasBanner(payload) then Some(payload)
    else match LineEnd(payload, 4, if |payload| > MAX_BANNER then MAX_BANNER else |payload|)
         case None => None
         case Some(n) => Some(payload[n..])
  }

  /** The message inside a binary packet, without its padding. */
  ghost function Message(packet: seq<Byte>): (msg: Option<seq<Byte>>)
    ensures msg.Some? ==> |msg.value| >= 1 + COOKIE_LEN
  {
    if |packet| < 6 || !(18 <= At32(packet, 0) <= MAX_PACKET) then None
    else match Vec32(packet)
         case None => None
         case Some(split) => Unpadded(split.vector)
  }

  ghost function Unpadded(body: seq<Byte>): (msg: Option<seq<Byte>>)
    requires |body| >= 1
    ensures msg.Some? ==> |msg.value| >= 1 + COOKIE_LEN
  {
    if |body| - 1 - body[0] < 1 + COOKIE_LEN then None else Some(body[1..|body| - body[0]])
  }

  /** The first `n` name-lists of `s`. */
  ghost function NameLists(s: seq<Byte>, n: nat): (r: Option<seq<seq<Byte>>>)
    ensures r.Some? ==> |r.value| == n
  {
    if n == 0 then Some([])
    else match Vec32(s)
         case None => None
         case Some(split) => Prepend([split.vector], NameLists(split.rest, n - 1))
  }

  ghost function Prepend(done: seq<seq<Byte>>, r: Option<seq<seq<Byte>>>): Option<seq<seq<Byte>>> {
    match r
    case None => None
    case Some(rest) => Some(done + rest)
  }

  ghost function Chosen(lists: Option<seq<seq<Byte>>>): Kex
    requires lists.Some? ==> |lists.value| == FIELDS
  {
    match lists
    case None => FAILED
    case Some(f) => Kex(f[0], f[2], f[4], f[6], f[0] != [])
  }

  ghost function KexOf(msg: seq<Byte>): Kex
    requires |msg| >= 1 + COOKIE_LEN
  {
    if msg[0] != KEXINIT then FAILED else Chosen(NameLists(msg[1 + COOKIE_LEN..], FIELDS))
  }

  ghost function KexOfPacket(packet: seq<Byte>): Kex {
    match Message(packet)
    case None => FAILED
    case Some(msg) => KexOf(msg)
  }

  ghost function Parse(payload: seq<Byte>): Kex {
    match AfterBanner(payload)
    case None => FAILED
    case Some(packet) => KexOfPacket(packet)
  }

  function HasshString(k: Kex): seq<Byte> {
    k.kex + [SEMICOLON] + (k.enc + [SEMICOLON] + (k.mac + [SEMICOLON] + k.comp))
  }

  // ----- the cursor

  /** parseSSHKexInit; it never reads outside the payload, whatever the payload is. */
  method ParseSSHKexInit(payload: seq<Byte>) returns (k: Kex)
    ensures k == Parse(payload)
  {
    hide KexOfPacket, LineEnd;
    var packet := payload;
    if |payload| >= 4 && payload[0] == 83 && payload[1] == 83 && payload[2] == 72 && payload[3] == 45 {
      assert payload[..4] == SSH_DASH;
      var end := |payload|;
      if end > MAX_BANNER {
        end := MAX_BANNER;
      }
      var nlIdx := FindLineEnd(payload, end);
      if nlIdx < 0 {
        return FAILED;
      }
      packet := payload[nlIdx..];
    }
    k := ParsePacket(packet);
  }

  /** The banner loop: the index behind the first newline, or -1. */
  method FindLineEnd(payload: seq<Byte>, end: nat) returns (nlIdx: int)
    requires 4 <= end <= |payload|
    ensures LineEnd(payload, 4, end) == if nlIdx < 0 then None else Some(nlIdx)
  {
    nlIdx := -1;
    var i := 4;
    while i < end
      invariant i <= end && LineEnd(payload, 4, end) == LineEnd(payload, i, end)
    {
      if payload[i] == NEWLINE {
        return i + 1;
      }
      i := i + 1;
    }
  }

  method ParsePacket(packet: seq<Byte>) returns (k: Kex)
    ensures k == KexOfPacket(packet)
  {
    hide At32, KexOf;
    if |packet| < 6 {
      return FAILED;
    }
    var pktLen := At32(packet, 0);
    if pktLen < 18 || pktLen > MAX_PACKET || |packet| < 4 + pktLen {
      return FAILED;
    }
    var paddingLen := packet[4] as int;
    var payloadLen := pktLen - 1 - paddingLen;
    if payloadLen < 17 || 5 + payloadLen > |packet| {
      return FAILED;
    }
    var msg := packet[5..5 + payloadLen];
    SliceOfSlice(packet, 4, 4 + pktLen, 1, 1 + payloadLen);
    k := ParseMessage(msg);
  }

  method ParseMessage(msg: seq<Byte>) returns (k: Kex)
    requires |msg| >= 17
    ensures k == KexOf(msg)
  {
    if msg[0] != KEXINIT {
      return FAILED;
    }
    var lists := ReadNameLists(msg);
    k := match lists
         case None => FAILED
         case Some(fields) => Kex(fields[0], fields[2], fields[4], fields[6], fields[0] != []);
  }

  method ReadNameLists(msg: seq<Byte>) returns (lists: Option<seq<seq<Byte>>>)
    requires |msg| >= 17
    ensures lists == NameLists(msg[17..], FIELDS)
  {
    hide At32, Vec32;
    var pos := 17;
    var fields: seq<seq<Byte>> := [];
    ghost var all := NameLists(msg[17..], FIELDS);
    assert all.Some? ==> [] + all.value == all.value;
    for i := 0 to FIELDS
      invariant |fields| == i && 17 <= pos <= |msg|
      invariant all == Prepend(fields, NameLists(msg[pos..], FIELDS - i))
    {
      Vec32At(msg, pos);
      if pos + 4 > |msg| {
        return None;
      }
      var fieldLen := At32(msg, pos);
      pos := pos + 4;
      if fieldLen > |msg| - pos {
        return None;
      }
      PrependTwice(fields, [msg[pos..pos + fieldLen]], NameLists(msg[pos + fieldLen..], FIELDS - i - 1));
      fields := fields + [msg[pos..pos + fieldLen]];
      pos := pos + fieldLen;
    }
    assert fields + [] == fields;
    lists := Some(fields);
  }

  lemma {:induction false} PrependTwice(a: seq<seq<Byte>>, b: seq<seq<Byte>>, r: Option<seq<seq<Byte>>>)
    ensures Prepend(a, Prepend(b, r)) == Prepend(a + b, r)
  {
    if r.Some? {
      Regroup(a, b, r.value);
    }
  }

  /** ExtractHASH: the empty string, or the digest of the four lists. */
  method ExtractHASH(payload: seq<Byte>, md5: seq<Byte> -> string) returns (hash: string)
    ensures hash == if Parse(payload).ok then md5(HasshString(Parse(payload))) else ""
  {
    hide Parse;
    var k := ParseSSHKexInit(payload);
    if !k.ok {
      return "";
    }
    var s := k.kex + [SEMICOLON] + (k.enc + [SEMICOLON] + (k.mac + [SEMICOLON] + k.comp));
    hash := md5(s);
  }

  // ----- round trip

  /** A KEXINIT as a client sends it: the last two fields of the message and its padding are `trailer` and `padding`. */
  datatype Sent = Sent(cookie: seq<Byte>, lists: seq<seq<Byte>>, trailer: seq<Byte>, padding: seq<Byte>)

  ghost function PutLists(lists: seq<seq<Byte>>): seq<Byte>
    requires forall l :: l in lists ==> |l| < 0x1_0000_0000
  {
    if lists == [] then [] else Put32(lists[0]) + PutLists(lists[1..])
  }

  ghost predicate WellSized(m: Sent) {
    && |m.cookie| == COOKIE_LEN && |m.lists| == FIELDS && |m.padding| < 256
    && (forall l :: l in m.lists ==> |l| < 0x1_0000_0000)
    && 1 + |PutMessage(m)| + |m.padding| <= MAX_PACKET
  }

  ghost function PutMessage(m: Sent): seq<Byte>
    requires forall l :: l in m.lists ==> |l| < 0x1_0000_0000
  {
    [KEXINIT] + m.cookie + (PutLists(m.lists) + m.trailer)
  }

  ghost function PutPacket(m: Sent): seq<Byte>
    requires WellSized(m)
  {
    Put32([|m.padding|] + PutMessage(m) + m.padding)
  }

  /** An identification line: it starts with "SSH-", has one newline, at its end, and at most 256 bytes. */
  ghost predicate Banner(line: seq<Byte>) {
    5 <= |line| <= MAX_BANNER && line[..4] == SSH_DASH && line[|line| - 1] == NEWLINE && NEWLINE !in line[4..|line| - 1]
  }

  lemma {:induction false} ListsRoundTrip(lists: seq<seq<Byte>>, rest: seq<Byte>)
    requires forall l :: l in lists ==> |l| < 0x1_0000_0000
    ensures NameLists(PutLists(lists) + rest, |lists|) == Some(lists)
  {
    if lists != [] {
      hide Vec32, Put32;
      Regroup(Put32(lists[0]), PutLists(lists[1..]), rest);
      Vec32RoundTrip(lists[0], PutLists(lists[1..]) + rest);
      ListsRoundTrip(lists[1..], rest);
      assert [lists[0]] + lists[1..] == lists;
    }
  }

  lemma {:induction false} MessageRoundTrip(m: Sent)
    requires WellSized(m)
    ensures |PutMessage(m)| >= 17
    ensures KexOf(PutMessage(m)) == Kex(m.lists[0], m.lists[2], m.lists[4], m.lists[6], m.lists[0] != [])
  {
    hide NameLists, PutLists;
    ListsRoundTrip(m.lists, m.trailer);
    assert PutMessage(m)[17..] == PutLists(m.lists) + m.trailer;
  }

  lemma {:induction false} PacketRoundTrip(m: Sent, more: seq<Byte>)
    requires WellSized(m)
    ensures Message(PutPacket(m) + more) == Some(PutMessage(m))
    ensures |PutPacket(m)| >= 4 && PutPacket(m)[0] == 0
  {
    hide PutLists, Vec32, At32, KexOf;
    MessageRoundTrip(m);
    var msg := PutMessage(m);
    var body := [|m.padding|] + msg + m.padding;
    assert body[1..|body| - body[0]] == msg;
    Vec32RoundTrip(body, more);
    Print32At(|body|);
    At32Of(Print32(|body|), body + more);
    Regroup(Print32(|body|), body, more);
  }

  lemma {:induction false} At32Of(s: seq<Byte>, more: seq<Byte>)
    requires |s| == 4
    ensures At32(s + more, 0) == At32(s, 0)
  {
  }

  lemma {:induction false} LineEndAt(s: seq<Byte>, i: nat, n: nat, end: nat)
    requires i <= n < end <= |s| && s[n] == NEWLINE && NEWLINE !in s[i..n]
    ensures LineEnd(s, i, end) == Some(n + 1)
    decreases n - i
  {
    if i < n {
      assert s[i..n][0] == s[i] && s[i..n][1..] == s[i + 1..n];
      LineEndAt(s, i + 1, n, end);
    }
  }

  lemma {:induction false} BannerIsSkipped(line: seq<Byte>, packet: seq<Byte>)
    requires Banner(line)
    ensures AfterBanner(line + packet) == Some(packet)
  {
    var s, n := line + packet, |line| - 1;
    assert s[..4] == line[..4] && s[4..n] == line[4..n] && s[n + 1..] == packet;
    LineEndAt(s, 4, n, if |s| > MAX_BANNER then MAX_BANNER else |s|);
  }

  /** For any ten name-lists, cookie, padding and trailing bytes, with or without an identification line,
      the parser returns lists 0, 2, 4 and 6, and it succeeds exactly if the first is not empty. */
  lemma {:induction false} RoundTrip(m: Sent, line: Option<seq<Byte>>, more: seq<Byte>)
    requires WellSized(m) && (line.Some? ==> Banner(line.value))
    ensures var head := if line.Some? then line.value else [];
            Parse(head + (PutPacket(m) + more)) == Kex(m.lists[0], m.lists[2], m.lists[4], m.lists[6], m.lists[0] != [])
  {
    hide Message, PutPacket, KexOf, LineEnd, PutMessage, NameLists;
    PacketRoundTrip(m, more);
    MessageRoundTrip(m);
    var packet := PutPacket(m) + more;
    assert packet[0] == 0;
    if line.Some? {
      BannerIsSkipped(line.value, packet);
    } else {
      assert [] + packet == packet;
      assert packet[..4][0] == 0;
    }
  }

  /** The numbers on the wire: an identification line starts with "SSH-", ends with a line feed and has 256 bytes at most; the
      message is of type 20, with a cookie of 16 bytes and ten lists, in a packet of at most 65535 bytes. */
  lemma {:induction false} PacketOnTheWire(m: Sent, line: seq<Byte>, more: seq<Byte>)
    requires WellSized(m)
    requires 5 <= |line| <= 256 && line[..4] == [83, 83, 72, 45] && line[|line| - 1] == 10 && 10 !in line[4..|line| - 1]
    ensures |m.cookie| == 16 && |m.lists| == 10
    ensures var msg := [20] + m.cookie + (PutLists(m.lists) + m.trailer);
            var packet := Print32(1 + |msg| + |m.padding|) + [|m.padding|] + msg + m.padding;
            && 1 + |msg| + |m.padding| <= 65535
            && Parse(line + (packet + more)) == Kex(m.lists[0], m.lists[2], m.lists[4], m.lists[6], m.lists[0] != [])
  {
    var msg := [20] + m.cookie + (PutLists(m.lists) + m.trailer);
    assert Banner(line);
    assert PutPacket(m) == Print32(1 + |msg| + |m.padding|) + [|m.padding|] + msg + m.padding;
    hide Parse, PutLists, Print32, PutPacket, WellSized;
    RoundTrip(m, Some(line), more);
  }

  // ----- the hashed string

  predicate HasSemicolon(k: Kex) {
    SEMICOLON in k.kex || SEMICOLON in k.enc || SEMICOLON in k.mac || SEMICOLON in k.comp
  }

  predicate SameLists(a: Kex, b: Kex) {
    a.kex == b.kex && a.enc == b.enc && a.mac == b.mac && a.comp == b.comp
  }

  /** Where the second and third separators are. */
  ghost function Second(k: Kex): nat {
    |k.kex| + 1 + |k.enc|
  }

  ghost function Third(k: Kex): nat {
    Second(k) + 1 + |k.mac|
  }

  lemma {:induction false} Separators(k: Kex)
    ensures var s := HasshString(k);
            && |s| == Third(k) + 1 + |k.comp|
            && s[|k.kex|] == s[Second(k)] == s[Third(k)] == SEMICOLON
            && s[..|k.kex|] == k.kex && s[|k.kex| + 1..Second(k)] == k.enc
            && s[Second(k) + 1..Third(k)] == k.mac && s[Third(k) + 1..] == k.comp
  {
  }

  /** Where no list contains a semicolon, the string splits at its semicolons (byte 59) into the four lists, in this order. */
  lemma {:induction false} HasshReads(k: Kex)
    requires !HasSemicolon(k)
    ensures Fields(HasshString(k), 59) == [k.kex, k.enc, k.mac, k.comp]
  {
    FirstField(k.kex, k.enc + [SEMICOLON] + (k.mac + [SEMICOLON] + k.comp), SEMICOLON);
    FirstField(k.enc, k.mac + [SEMICOLON] + k.comp, SEMICOLON);
    FirstField(k.mac, k.comp, SEMICOLON);
    OnlyField(k.comp, SEMICOLON);
    hide Fields;
  }

  /** What is hashed for a printed packet: lists 0, 2, 4 and 6 with semicolons between them. */
  lemma {:induction false} HasshOfPrinted(m: Sent, line: Option<seq<Byte>>, more: seq<Byte>)
    requires WellSized(m) && (line.Some? ==> Banner(line.value)) && m.lists[0] != []
    ensures var k := Parse((if line.Some? then line.value else []) + (PutPacket(m) + more));
            k.ok && HasshString(k) == m.lists[0] + [59] + m.lists[2] + [59] + m.lists[4] + [59] + m.lists[6]
  {
    hide Parse, PutPacket, Banner, PutMessage;
    RoundTrip(m, line, more);
    FourParts(m.lists[0], m.lists[2], m.lists[4], m.lists[6]);
    hide WellSized;
  }

  lemma {:induction false} FourParts(a: seq<Byte>, b: seq<Byte>, c: seq<Byte>, d: seq<Byte>)
    ensures a + [59] + b + [59] + c + [59] + d == a + [59] + (b + [59] + (c + [59] + d))
  {
  }

  lemma {:induction false} OnlySeparators(k: Kex, i: nat)
    requires !HasSemicolon(k) && i < |HasshString(k)|
    ensures HasshString(k)[i] == SEMICOLON <==> i == |k.kex| || i == Second(k) || i == Third(k)
  {
    var s := HasshString(k);
    Separators(k);
    if i < |k.kex| {
      assert s[i] == k.kex[i];
    } else if |k.kex| < i < Second(k) {
      assert s[i] == k.enc[i - |k.kex| - 1];
    } else if Second(k) < i < Third(k) {
      assert s[i] == k.mac[i - Second(k) - 1];
    } else if i > Third(k) {
      assert s[i] == k.comp[i - Third(k) - 1];
    }
  }

  /** The hashed string determines the four lists if none of them contains a semicolon. */
  lemma {:induction false} StringDetermines(k: Kex, other: Kex)
    requires !HasSemicolon(k) && HasshString(other) == HasshString(k)
    ensures SameLists(k, other)
  {
    Separators(k);
    Separators(other);
    OnlySeparators(k, |other.kex|);
    OnlySeparators(k, Second(other));
    OnlySeparators(k, Third(other));
  }

  lemma {:induction false} Cutting(list: seq<Byte>) returns (x: seq<Byte>, y: seq<Byte>)
    requires SEMICOLON in list
    ensures list == x + [SEMICOLON] + y
  {
    var n :| 0 <= n < |list| && list[n] == SEMICOLON;
    x, y := list[..n], list[n + 1..];
  }

  /** A semicolon inside a name moves the border between two lists: other lists, same string. */
  lemma {:induction false} SemicolonIsAmbiguous(k: Kex) returns (other: Kex)
    requires HasSemicolon(k)
    ensures HasshString(other) == HasshString(k) && !SameLists(k, other)
  {
    if SEMICOLON in k.kex {
      var x, y := Cutting(k.kex);
      other := k.(kex := x, enc := y + [SEMICOLON] + k.enc);
    } else if SEMICOLON in k.enc {
      var x, y := Cutting(k.enc);
      other := k.(kex := k.kex + [SEMICOLON] + x, enc := y);
    } else if SEMICOLON in k.mac {
      var x, y := Cutting(k.mac);
      other := k.(enc := k.enc + [SEMICOLON] + x, mac := y);
    } else {
      var x, y := Cutting(k.comp);
      other := k.(mac := k.mac + [SEMICOLON] + x, comp := y);
    }
    assert HasshString(other) == HasshString(k);
  }

  /** HASSH tells key exchanges apart exactly where no name contains a semicolon. */
  lemma {:induction false} HasshIsInjectiveIff(k: Kex)
    ensures (forall other :: HasshString(other) == HasshString(k) ==> SameLists(k, other)) <==> !HasSemicolon(k)
  {
    hide HasshString, HasSemicolon, SameLists;
    if HasSemicolon(k) {
      var other := SemicolonIsAmbiguous(k);
    } else {
      forall other | HasshString(other) == HasshString(k)
        ensures SameLists(k, other)
      {
        StringDetermines(k, other);
      }
    }
  }
}
