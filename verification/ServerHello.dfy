/** The ServerHello that JA3S reads (internal/ja3/ja3s.go, lines 77-178; section 7.4.1.3 of
    RFC 5246). */
module ServerHello {
  import opened Sequences
  import opened Wrappers
  import opened Wire
  import CH = ClientHello
  import Cursor = ClientHelloCursor

  const SERVER_HELLO: Byte := 0x02

  /** `cipher` is 0 when the server chose a GREASE value. */
  datatype Hello = Hello(version: Word, cipher: Word, extensions: seq<Word>)

  function Filtered(cipher: Word): Word {
    if cipher in CH.GREASE then 0 else cipher
  }

  ghost function HelloOf(body: seq<Byte>): Option<Hello> {
    if |body| < 2 + CH.RANDOM_LEN then None
    else match Vec8(body[2 + CH.RANDOM_LEN..])
         case None => None
         case Some(session) => HelloOfRest(At16(body, 0), session.rest)
  }

  /** Cipher, compression method and extensions; the last two may be missing. */
  ghost function HelloOfRest(version: Word, s: seq<Byte>): Option<Hello> {
    if |s| < 2 then None
    else if |s| < 5 then Some(Hello(version, Filtered(At16(s, 0)), []))
    else match Vec16(s[3..])
         case None => None
         case Some(block) => Some(Hello(version, Filtered(At16(s, 0)), CH.NoGrease(CH.Kinds(CH.Extensions(block.vector)))))
  }

  /** What parseServerHello returns for a payload. */
  ghost function Parse(payload: seq<Byte>): Option<Hello> {
    match CH.Record(payload)
    case None => None
    case Some(hs) =>
      if |hs| < 4 || hs[0] != SERVER_HELLO || |hs| < 4 + At24(hs, 1) then None
      else HelloOf(hs[4..4 + At24(hs, 1)])
  }

  // ----- the cursor parser

  ghost function RestAt(body: seq<Byte>, version: Word, p: nat): Option<Hello> {
    if p + 2 > |body| then None
    else if p + 5 > |body| then Some(Hello(version, Filtered(At16(body, p)), []))
    else if p + 5 + At16(body, p + 3) > |body| then None
    else Some(Hello(version, Filtered(At16(body, p)), Walked(body, p + 5, p + 5 + At16(body, p + 3))))
  }

  lemma {:induction false} RestByPosition(body: seq<Byte>, version: Word, p: nat)
    requires p <= |body|
    ensures RestAt(body, version, p) == HelloOfRest(version, body[p..])
  {
    hide Vec16, Filtered, CH.Extensions, CH.NoGrease, CH.Kinds;
    if p + 5 <= |body| {
      SliceOfDrop(body, p, 0, 3);
      Vec16At(body, p + 3);
    }
  }

  method ParseServerHello(payload: seq<Byte>) returns (r: Option<Hello>)
    ensures r == Parse(payload)
  {
    hide At16, At24, HelloOf;
    if |payload| < 5 || payload[0] != CH.HANDSHAKE {
      return None;
    }
    var recordLen := At16(payload, 3);
    if |payload| < 5 + recordLen {
      return None;
    }
    var hs := payload[5..5 + recordLen];
    if |hs| < 4 || hs[0] != SERVER_HELLO {
      return None;
    }
    var hsBodyLen := At24(hs, 1);
    if |hs| < 4 + hsBodyLen {
      return None;
    }
    r := ParseBody(hs[4..4 + hsBodyLen]);
  }

  method ParseBody(body: seq<Byte>) returns (r: Option<Hello>)
    ensures r == HelloOf(body)
  {
    hide At16, Vec8, RestAt, HelloOfRest;
    var pos := 0;
    if pos + 2 > |body| {
      return None;
    }
    var serverVersion := At16(body, pos);
    pos := pos + 2 + CH.RANDOM_LEN;
    if pos > |body| {
      return None;
    }
    Vec8At(body, pos);
    if pos + 1 > |body| {
      return None;
    }
    pos := pos + 1 + body[pos];
    if pos > |body| {
      return None;
    }
    RestByPosition(body, serverVersion, pos);
    r := ParseRest(body, serverVersion, pos);
  }

  method ParseRest(body: seq<Byte>, version: Word, start: nat) returns (r: Option<Hello>)
    requires start <= |body|
    ensures r == RestAt(body, version, start)
  {
    hide At16, Walked;
    var pos := start;
    if pos + 2 > |body| {
      return None;
    }
    var cipher: Word := At16(body, pos);
    if cipher in CH.GREASE {
      cipher := 0;
    }
    pos := pos + 3;
    if pos > |body| || pos + 2 > |body| {
      return Some(Hello(version, cipher, []));
    }
    var extTotal := At16(body, pos);
    pos := pos + 2;
    var extEnd := pos + extTotal;
    if extEnd > |body| {
      return None;
    }
    var extensions := WalkKinds(body, pos, extEnd);
    r := Some(Hello(version, cipher, extensions));
  }

  /** The extension loop of parseServerHello. */
  method WalkKinds(body: seq<Byte>, start: nat, extEnd: nat) returns (extensions: seq<Word>)
    requires start <= extEnd <= |body|
    ensures extensions == Walked(body, start, extEnd)
  {
    hide Walked, CH.GREASE, At16;
    extensions := [];
    var pos := start;
    ghost var all := Walked(body, start, extEnd);
    assert [] + all == all;
    while pos + 4 <= extEnd
      invariant start <= pos <= extEnd
      invariant all == extensions + Walked(body, pos, extEnd)
    {
      WalkedStep(body, pos, extEnd);
      var extType: Word := At16(body, pos);
      var extLen := At16(body, pos + 2);
      if pos + 4 + extLen > extEnd {
        break;
      }
      Regroup(extensions, [extType], Walked(body, pos + 4 + extLen, extEnd));
      pos := pos + 4 + extLen;
      if extType !in CH.GREASE {
        extensions := extensions + [extType];
      }
    }
    WalkedStep(body, pos, extEnd);
    assert extensions + [] == extensions;
  }

  ghost function Walked(body: seq<Byte>, pos: nat, end: nat): seq<Word>
    requires pos <= end <= |body|
  {
    CH.NoGrease(CH.Kinds(CH.Extensions(body[pos..end])))
  }

  lemma {:induction false} WalkedStep(body: seq<Byte>, pos: nat, end: nat)
    requires pos <= end <= |body|
    ensures Walked(body, pos, end)
            == if pos + 4 > end || pos + 4 + At16(body, pos + 2) > end then []
               else if At16(body, pos) in CH.GREASE then Walked(body, pos + 4 + At16(body, pos + 2), end)
               else [At16(body, pos)] + Walked(body, pos + 4 + At16(body, pos + 2), end)
  {
    hide CH.Extensions, CH.GREASE, At16;
    Cursor.ExtensionStep(body, pos, end);
    if pos + 4 <= end && pos + 4 + At16(body, pos + 2) <= end {
      var rest := CH.Extensions(body[pos + 4 + At16(body, pos + 2)..end]);
      var e := CH.Ext(At16(body, pos), body[pos + 4..pos + 4 + At16(body, pos + 2)]);
      assert ([e] + rest)[1..] == rest && ([e.kind] + CH.Kinds(rest))[1..] == CH.Kinds(rest);
    }
  }

  // ----- round trip

  datatype SentHello = SentHello(recordVersion: Word, version: Word, random: seq<Byte>, session: seq<Byte>,
                                 cipher: Word, compression: Byte, extensions: Option<seq<CH.SentExt>>)

  ghost predicate WellSized(h: SentHello) {
    && |h.random| == CH.RANDOM_LEN && |h.session| < 256
    && (h.extensions.Some? ==> CH.AllFit(h.extensions.value) && |CH.PutExts(h.extensions.value)| < 0x1_0000)
    && 4 + |PutBody(h)| < 0x1_0000
  }

  ghost function PutRest(h: SentHello): seq<Byte>
    requires h.extensions.Some? ==> CH.AllFit(h.extensions.value) && |CH.PutExts(h.extensions.value)| < 0x1_0000
  {
    Print16(h.cipher) + [h.compression] + if h.extensions.None? then [] else Put16(CH.PutExts(h.extensions.value))
  }

  ghost function PutBody(h: SentHello): seq<Byte>
    requires |h.session| < 256
    requires h.extensions.Some? ==> CH.AllFit(h.extensions.value) && |CH.PutExts(h.extensions.value)| < 0x1_0000
  {
    Print16(h.version) + h.random + (Put8(h.session) + PutRest(h))
  }

  ghost function PutRecord(h: SentHello): seq<Byte>
    requires WellSized(h)
  {
    [CH.HANDSHAKE] + Print16(h.recordVersion) + Put16([SERVER_HELLO] + Print24(|PutBody(h)|) + PutBody(h))
  }

  ghost function Meaning(h: SentHello): Hello {
    Hello(h.version, Filtered(h.cipher), if h.extensions.None? then [] else CH.NoGrease(CH.SentKinds(h.extensions.value)))
  }

  lemma {:induction false} RestRoundTrip(h: SentHello)
    requires WellSized(h)
    ensures HelloOfRest(h.version, PutRest(h)) == Some(Meaning(h))
  {
    hide PutBody, CH.NoGrease, CH.Kinds, CH.Extensions, CH.SentKinds, CH.PutExts, Vec16, CH.AllCurves, CH.AllFormats;
    var s := PutRest(h);
    Print16At(h.cipher, s[2..]);
    assert s == Print16(h.cipher) + s[2..];
    match h.extensions
    case None =>
    case Some(es) =>
      Vec16RoundTrip(CH.PutExts(es), []);
      assert s[3..] == Put16(CH.PutExts(es)) + [];
      CH.ExtsRoundTrip(es);
  }

  lemma {:induction false} BodyRoundTrip(h: SentHello)
    requires WellSized(h)
    ensures HelloOf(PutBody(h)) == Some(Meaning(h))
  {
    RestRoundTrip(h);
    hide HelloOfRest, Meaning, PutRest, Vec8;
    var body, s1 := PutBody(h), Put8(h.session) + PutRest(h);
    assert body == Print16(h.version) + (h.random + s1);
    Print16At(h.version, h.random + s1);
    assert body[2 + CH.RANDOM_LEN..] == s1;
    Vec8RoundTrip(h.session, PutRest(h));
  }

  /** Parsing a printed ServerHello, whatever follows it, yields its version, its cipher (0 for
      GREASE) and its extension types without GREASE. */
  lemma {:induction false} RoundTrip(h: SentHello, more: seq<Byte>)
    requires WellSized(h)
    ensures Parse(PutRecord(h) + more) == Some(Meaning(h))
  {
    hide HelloOf, Meaning, At24, Print24, CH.Record;
    BodyRoundTrip(h);
    CH.HandshakeBody(SERVER_HELLO, PutBody(h));
    CH.FirstRecord(h.recordVersion, [SERVER_HELLO] + Print24(|PutBody(h)|) + PutBody(h), more);
  }

  /** The numbers on the wire: a handshake record is of type 22 and a ServerHello of type 2, and the random has 32 bytes. */
  lemma {:induction false} HelloOnTheWire(h: SentHello, more: seq<Byte>)
    requires WellSized(h)
    ensures var body := PutBody(h);
            && |h.random| == 32
            && Parse([22] + Print16(h.recordVersion) + Print16(4 + |body|) + [2] + Print24(|body|) + body + more) == Some(Meaning(h))
  {
    hide Parse, Meaning, PutBody, Print16, Print24, Put16;
    CH.RecordLayout(h.recordVersion, 2, PutBody(h), more);
    RoundTrip(h, more);
  }

  /** The version stays as it is, and a cipher of the GREASE pattern becomes 0. */
  lemma {:induction false} GreaseCipherIsZero(h: SentHello)
    ensures Meaning(h).version == h.version
    ensures Meaning(h).cipher == if h.cipher / 256 == h.cipher % 256 && h.cipher % 16 == 10 then 0 else h.cipher
  {
    hide CH.GREASE, CH.NoGrease, CH.SentKinds;
    CH.GreasePattern(h.cipher);
  }
}
