/** The ClientHello as both walkers read it: what the bytes mean, independent of cursors
    (internal/capture/capture.go, lines 463-530; internal/ja3/ja3.go, lines 157-305;
    section 7.4.1.2 of RFC 5246, section 3 of RFC 6066, section 2 of RFC 8701). */
module ClientHello {
  import opened Sequences
  import opened Wrappers
  import opened Wire

  const HANDSHAKE: Byte := 0x16
  const CLIENT_HELLO: Byte := 0x01
  const SERVER_NAME: Word := 0x0000
  const SUPPORTED_GROUPS: Word := 0x000A
  const EC_POINT_FORMATS: Word := 0x000B
  const RANDOM_LEN: nat := 32

  const GREASE: set<Word> := {
    0x0A0A, 0x1A1A, 0x2A2A, 0x3A3A, 0x4A4A, 0x5A5A, 0x6A6A, 0x7A7A,
    0x8A8A, 0x9A9A, 0xAAAA, 0xBABA, 0xCACA, 0xDADA, 0xEAEA, 0xFAFA
  }

  lemma {:induction false} GreaseMember(w: Word, n: nat)
    requires n < 16 && w == n * 0x1010 + 0x0A0A
    ensures w in GREASE && w / 256 == w % 256 == 16 * n + 10
  {
    assert w == (16 * n + 10) * 256 + (16 * n + 10);
  }

  lemma {:induction false} GreaseIndex(w: Word) returns (n: nat)
    requires w in GREASE
    ensures n < 16 && w == n * 0x1010 + 0x0A0A
  {
    n := w / 0x1000;
  }

  /** The table is the pattern of section 2 of RFC 8701: two equal bytes that end in the digit A. */
  lemma {:induction false} GreasePattern(w: Word)
    ensures w in GREASE <==> w / 256 == w % 256 && w % 16 == 10
  {
    if w in GREASE {
      var n := GreaseIndex(w);
      GreaseMember(w, n);
    }
    if w / 256 == w % 256 && w % 16 == 10 {
      GreaseMember(w, w % 256 / 16);
    }
  }

  ghost function NoGrease(ws: seq<Word>): seq<Word> {
    if ws == [] then [] else (if ws[0] in GREASE then [] else [ws[0]]) + NoGrease(ws[1..])
  }

  lemma {:induction false} NoGreaseConcat(a: seq<Word>, b: seq<Word>)
    ensures NoGrease(a + b) == NoGrease(a) + NoGrease(b)
  {
    if a == [] {
      assert a + b == b;
    } else {
      assert (a + b)[1..] == a[1..] + b;
      NoGreaseConcat(a[1..], b);
    }
  }

  // ----- the record and the fixed part of the hello

  /** The payload of the first handshake record, once all of it is there. */
  ghost function Record(payload: seq<Byte>): Option<seq<Byte>> {
    if |payload| < 5 || payload[0] != HANDSHAKE || |payload| < 5 + At16(payload, 3) then None
    else Some(payload[5..5 + At16(payload, 3)])
  }

  /** Both parsers look at the first record only: once it is complete, later bytes do not matter. */
  lemma {:induction false} RecordIsStable(payload: seq<Byte>, more: seq<Byte>)
    requires Record(payload).Some?
    ensures Record(payload + more) == Record(payload)
  {
    assert (payload + more)[..|payload|] == payload;
    assert At16(payload + more, 3) == At16(payload, 3);
    assert (payload + more)[5..5 + At16(payload, 3)] == payload[5..5 + At16(payload, 3)];
  }

  /** The cipher list of a hello body and what follows its compression methods. */
  datatype Fields = Fields(ciphers: seq<Byte>, tail: seq<Byte>)

  ghost function FieldsOf(body: seq<Byte>): Option<Fields> {
    if |body| < 2 + RANDOM_LEN then None else FromSession(body[2 + RANDOM_LEN..])
  }

  ghost function FromSession(s: seq<Byte>): Option<Fields> {
    match Vec8(s)
    case None => None
    case Some(session) => FromCiphers(session.rest)
  }

  ghost function FromCiphers(s: seq<Byte>): Option<Fields> {
    match Vec16(s)
    case None => None
    case Some(ciphers) => FromCompression(ciphers.vector, ciphers.rest)
  }

  ghost function FromCompression(ciphers: seq<Byte>, s: seq<Byte>): Option<Fields> {
    match Vec8(s)
    case None => None
    case Some(compression) => Some(Fields(ciphers, compression.rest))
  }

  // ----- extensions

  datatype Ext = Ext(kind: Word, data: seq<Byte>)

  /** The extensions of a block, up to the first one that does not fit. */
  ghost function Extensions(block: seq<Byte>): seq<Ext> {
    if |block| < 4 || 4 + At16(block, 2) > |block| then []
    else [Ext(At16(block, 0), block[4..4 + At16(block, 2)])] + Extensions(block[4 + At16(block, 2)..])
  }

  ghost function Kinds(es: seq<Ext>): seq<Word> {
    if es == [] then [] else [es[0].kind] + Kinds(es[1..])
  }

  /** The name that the SNI walker takes: that of the first server_name extension of at least five
      bytes whose name fits into the block. The walker does not bound the name by the extension. */
  ghost function SniOf(block: seq<Byte>): seq<Byte> {
    if |block| < 4 || 4 + At16(block, 2) > |block| then []
    else if At16(block, 0) == SERVER_NAME && At16(block, 2) >= 5 && 9 + At16(block, 7) <= |block| then block[9..9 + At16(block, 7)]
    else SniOf(block[4 + At16(block, 2)..])
  }

  /** The SNI of what follows the compression methods: an extension block, or less. */
  ghost function SniOfTail(tail: seq<Byte>): seq<Byte> {
    match Vec16(tail)
    case None => []
    case Some(block) => SniOf(block.vector)
  }

  /** What extractTLSSNI returns for a payload; the empty string means that it found nothing. */
  ghost function Sni(payload: seq<Byte>): seq<Byte> {
    match Record(payload)
    case None => []
    case Some(hs) =>
      if |hs| < 4 || hs[0] != CLIENT_HELLO then []
      else match FieldsOf(hs[4..])
           case None => []
           case Some(fields) => SniOfTail(fields.tail)
  }

  // ----- the fields that JA3 uses

  datatype Hello = Hello(version: Word, ciphers: seq<Word>, extensions: seq<Word>, curves: seq<Word>, formats: seq<Byte>)

  ghost function CurvesOf(data: seq<Byte>): seq<Word> {
    match Vec16(data)
    case None => []
    case Some(list) => if |list.vector| % 2 != 0 then [] else NoGrease(Words(list.vector))
  }

  ghost function FormatsOf(data: seq<Byte>): seq<Byte> {
    match Vec8(data)
    case None => []
    case Some(list) => list.vector
  }

  ghost function AllCurves(es: seq<Ext>): seq<Word> {
    if es == [] then []
    else (if es[0].kind == SUPPORTED_GROUPS then CurvesOf(es[0].data) else []) + AllCurves(es[1..])
  }

  ghost function AllFormats(es: seq<Ext>): seq<Byte> {
    if es == [] then []
    else (if es[0].kind == EC_POINT_FORMATS then FormatsOf(es[0].data) else []) + AllFormats(es[1..])
  }

  ghost function HelloOf(body: seq<Byte>): Option<Hello> {
    match FieldsOf(body)
    case None => None
    case Some(fields) => if |fields.ciphers| % 2 != 0 then None else HelloOfTail(At16(body, 0), NoGrease(Words(fields.ciphers)), fields.tail)
  }

  /** Completes a hello with its extension block, which may be missing but not cut short. */
  ghost function HelloOfTail(version: Word, ciphers: seq<Word>, tail: seq<Byte>): Option<Hello> {
    if |tail| < 2 then Some(Hello(version, ciphers, [], [], []))
    else match Vec16(tail)
         case None => None
         case Some(block) => Some(HelloOfBlock(version, ciphers, Extensions(block.vector)))
  }

  ghost function HelloOfBlock(version: Word, ciphers: seq<Word>, es: seq<Ext>): Hello {
    Hello(version, ciphers, NoGrease(Kinds(es)), AllCurves(es), AllFormats(es))
  }

  /** What parseClientHello returns for a payload. */
  ghost function Parse(payload: seq<Byte>): Option<Hello> {
    match Record(payload)
    case None => None
    case Some(hs) =>
      if |hs| < 4 || hs[0] != CLIENT_HELLO || |hs| < 4 + At24(hs, 1) then None
      else HelloOf(hs[4..4 + At24(hs, 1)])
  }

  // ----- the two walkers agree

  lemma {:induction false} SniNeedsServerName(block: seq<Byte>)
    requires SniOf(block) != []
    ensures SERVER_NAME in Kinds(Extensions(block))
  {
    var es := Extensions(block);
    assert es[1..] == Extensions(block[4 + At16(block, 2)..]);
    if !(At16(block, 0) == SERVER_NAME && At16(block, 2) >= 5 && 9 + At16(block, 7) <= |block|) {
      SniNeedsServerName(block[4 + At16(block, 2)..]);
    }
  }

  lemma {:induction false} NoGreaseHas(ws: seq<Word>, w: Word)
    ensures w in NoGrease(ws) <==> w in ws && w !in GREASE
  {
    if ws != [] {
      NoGreaseHas(ws[1..], w);
      assert ws == [ws[0]] + ws[1..];
    }
  }

  /** Whenever the SNI walker finds a name in a hello whose handshake length is not shorter than the
      record, the JA3 parser accepts the hello exactly when that length fills the record and the
      cipher list has an even number of bytes; its extension list then contains server_name. */
  lemma {:induction false} WalkersAgree(payload: seq<Byte>)
    requires Sni(payload) != []
    ensures Record(payload).Some? && |Record(payload).value| >= 4 && FieldsOf(Record(payload).value[4..]).Some?
    ensures var hs := Record(payload).value;
            4 + At24(hs, 1) >= |hs| ==>
              (Parse(payload).Some? <==> 4 + At24(hs, 1) == |hs| && |FieldsOf(hs[4..]).value.ciphers| % 2 == 0)
    ensures var hs := Record(payload).value;
            4 + At24(hs, 1) == |hs| && Parse(payload).Some? ==> SERVER_NAME in Parse(payload).value.extensions
  {
    hide Record, FieldsOf, SniOf, Extensions, Kinds, NoGrease, AllCurves, AllFormats, Words, At24, GREASE;
    var hs := Record(payload).value;
    var fields := FieldsOf(hs[4..]).value;
    var block := Vec16(fields.tail).value.vector;
    assert |fields.tail| >= 2;
    hide Vec16;
    SniNeedsServerName(block);
    NoGreaseHas(Kinds(Extensions(block)), SERVER_NAME);
    assert SERVER_NAME !in GREASE by { GreasePattern(SERVER_NAME); }
    if 4 + At24(hs, 1) == |hs| {
      assert hs[4..4 + At24(hs, 1)] == hs[4..];
    }
  }

  // ----- round trip

  datatype SentExt =
    | Groups(curves: seq<Word>)
    | Formats(formats: seq<Byte>)
    | Other(kind: Word, data: seq<Byte>)
  {
    ghost predicate Fits() {
      match this
      case Groups(curves) => 2 + 2 * |curves| < 0x1_0000
      case Formats(formats) => |formats| < 256
      case Other(kind, data) => kind != SUPPORTED_GROUPS && kind != EC_POINT_FORMATS && |data| < 0x1_0000
    }

    ghost function Kind(): Word {
      match this
      case Groups(_) => SUPPORTED_GROUPS
      case Formats(_) => EC_POINT_FORMATS
      case Other(kind, _) => kind
    }

    ghost function Data(): seq<Byte>
      requires Fits()
    {
      match this
      case Groups(curves) => Put16(PutWords(curves))
      case Formats(formats) => Put8(formats)
      case Other(_, data) => data
    }
  }

  /** A hello as a client composes it. `extensions` is None when the block is left out. */
  datatype SentHello = SentHello(recordVersion: Word, version: Word, random: seq<Byte>, session: seq<Byte>,
                                 ciphers: seq<Word>, compression: seq<Byte>, extensions: Option<seq<SentExt>>)

  /** The extensions of a hello; none if the block is left out. */
  ghost function SentExts(h: SentHello): seq<SentExt> {
    if h.extensions.Some? then h.extensions.value else []
  }

  ghost predicate AllFit(es: seq<SentExt>) {
    forall i :: 0 <= i < |es| ==> es[i].Fits()
  }

  ghost function PutExts(es: seq<SentExt>): seq<Byte>
    requires AllFit(es)
  {
    if es == [] then [] else Print16(es[0].Kind()) + Put16(es[0].Data()) + PutExts(es[1..])
  }

  ghost function PutTail(h: SentHello): seq<Byte>
    requires h.extensions.Some? ==> AllFit(h.extensions.value) && |PutExts(h.extensions.value)| < 0x1_0000
  {
    match h.extensions
    case None => []
    case Some(es) => Put16(PutExts(es))
  }

  /** Every part fits its length field. */
  ghost predicate WellSized(h: SentHello) {
    && |h.random| == RANDOM_LEN && |h.session| < 256 && 2 * |h.ciphers| < 0x1_0000 && |h.compression| < 256
    && (h.extensions.Some? ==> AllFit(h.extensions.value) && |PutExts(h.extensions.value)| < 0x1_0000)
    && 4 + |PutBody(h)| < 0x1_0000
  }

  ghost function PutBody(h: SentHello): seq<Byte>
    requires |h.session| < 256 && 2 * |h.ciphers| < 0x1_0000 && |h.compression| < 256
    requires h.extensions.Some? ==> AllFit(h.extensions.value) && |PutExts(h.extensions.value)| < 0x1_0000
  {
    Print16(h.version) + h.random + (Put8(h.session) + (Put16(PutWords(h.ciphers)) + (Put8(h.compression) + PutTail(h))))
  }

  ghost function PutHandshake(h: SentHello): seq<Byte>
    requires WellSized(h)
  {
    [CLIENT_HELLO] + Print24(|PutBody(h)|) + PutBody(h)
  }

  /** The TLS record that carries the hello. */
  ghost function PutRecord(h: SentHello): seq<Byte>
    requires WellSized(h)
  {
    [HANDSHAKE] + Print16(h.recordVersion) + Put16(PutHandshake(h))
  }

  // what was sent, with the GREASE values removed

  ghost function SentKinds(es: seq<SentExt>): seq<Word> {
    if es == [] then [] else [es[0].Kind()] + SentKinds(es[1..])
  }

  ghost function SentCurves(es: seq<SentExt>): seq<Word> {
    if es == [] then [] else (if es[0].Groups? then es[0].curves else []) + SentCurves(es[1..])
  }

  ghost function SentFormats(es: seq<SentExt>): seq<Byte> {
    if es == [] then [] else (if es[0].Formats? then es[0].formats else []) + SentFormats(es[1..])
  }

  ghost function Meaning(h: SentHello): Hello {
    var es := SentExts(h);
    Hello(h.version, NoGrease(h.ciphers), NoGrease(SentKinds(es)), NoGrease(SentCurves(es)), SentFormats(es))
  }

  lemma {:induction false} CurvesRoundTrip(curves: seq<Word>)
    requires 2 + 2 * |curves| < 0x1_0000
    ensures CurvesOf(Put16(PutWords(curves))) == NoGrease(curves) && |Put16(PutWords(curves))| < 0x1_0000
  {
    hide Words, PutWords, NoGrease, At16, Print16;
    Vec16RoundTrip(PutWords(curves), []);
    assert Put16(PutWords(curves)) + [] == Put16(PutWords(curves));
    WordsRoundTrip(curves);
    hide Vec16, Put16;
  }

  lemma {:induction false} FormatsRoundTrip(formats: seq<Byte>)
    requires |formats| < 256
    ensures FormatsOf(Put8(formats)) == formats
  {
    Vec8RoundTrip(formats, []);
    assert Put8(formats) + [] == Put8(formats);
    hide Vec8;
  }

  lemma {:induction false} ExtDataRoundTrip(e: SentExt)
    requires e.Fits()
    ensures e.Groups? ==> CurvesOf(e.Data()) == NoGrease(e.curves)
    ensures e.Formats? ==> FormatsOf(e.Data()) == e.formats
    ensures |e.Data()| < 0x1_0000
  {
    hide CurvesOf, FormatsOf, NoGrease, PutWords, Put16;
    match e
    case Groups(curves) => CurvesRoundTrip(curves);
    case Formats(formats) => FormatsRoundTrip(formats);
    case Other(_, _) =>
  }

  lemma {:induction false} FirstExt(kind: Word, data: seq<Byte>, rest: seq<Byte>)
    requires |data| < 0x1_0000
    ensures Extensions(Print16(kind) + Put16(data) + rest) == [Ext(kind, data)] + Extensions(rest)
  {
    hide At16, Print16;
    var block, n := Print16(kind) + Put16(data) + rest, |data|;
    assert block == Print16(kind) + Print16(n) + (data + rest);
    HeaderRoundTrip(kind, n, data + rest);
    SliceOfDrop(block, 4, 0, n);
    assert (data + rest)[0..n] == data && (data + rest)[n..] == rest;
  }

  lemma {:induction false} ExtsRoundTrip(es: seq<SentExt>)
    requires AllFit(es)
    ensures var got := Extensions(PutExts(es));
            Kinds(got) == SentKinds(es) && AllCurves(got) == NoGrease(SentCurves(es)) && AllFormats(got) == SentFormats(es)
  {
    if es != [] {
      var e, rest := es[0], PutExts(es[1..]);
      ExtDataRoundTrip(e);
      FirstExt(e.Kind(), e.Data(), rest);
      ExtsRoundTrip(es[1..]);
      var got, first := Extensions(rest), Ext(e.Kind(), e.Data());
      assert ([first] + got)[1..] == got;
      hide Extensions, CurvesOf, FormatsOf, NoGrease;
      if e.Groups? {
        NoGreaseConcat(e.curves, SentCurves(es[1..]));
      } else {
        assert SentCurves(es) == SentCurves(es[1..]) && AllCurves([first] + got) == AllCurves(got);
      }
    }
  }

  lemma {:induction false} BodyRoundTrip(h: SentHello)
    requires WellSized(h)
    ensures FieldsOf(PutBody(h)) == Some(Fields(PutWords(h.ciphers), PutTail(h))) && At16(PutBody(h), 0) == h.version
  {
    var body := PutBody(h);
    var s3 := Put8(h.compression) + PutTail(h);
    var s2 := Put16(PutWords(h.ciphers)) + s3;
    var s1 := Put8(h.session) + s2;
    assert body == Print16(h.version) + (h.random + s1);
    Print16At(h.version, h.random + s1);
    assert body[2 + RANDOM_LEN..] == s1;
    Vec8RoundTrip(h.session, s2);
    Vec16RoundTrip(PutWords(h.ciphers), s3);
    Vec8RoundTrip(h.compression, PutTail(h));
  }

  lemma {:induction false} HelloRoundTrip(h: SentHello)
    requires WellSized(h)
    ensures HelloOf(PutBody(h)) == Some(Meaning(h))
  {
    hide FieldsOf, PutBody, Words, PutWords, HelloOfTail, PutTail, Meaning, NoGrease, At16;
    BodyRoundTrip(h);
    WordsRoundTrip(h.ciphers);
    TailRoundTrip(h);
    hide WellSized;
  }

  lemma {:induction false} TailRoundTrip(h: SentHello)
    requires WellSized(h)
    ensures HelloOfTail(h.version, NoGrease(h.ciphers), PutTail(h)) == Some(Meaning(h))
  {
    match h.extensions
    case None =>
    case Some(es) =>
      Vec16RoundTrip(PutExts(es), []);
      assert Put16(PutExts(es)) + [] == Put16(PutExts(es)) && |PutTail(h)| >= 2;
      ExtsRoundTrip(es);
      hide Vec16, Put16, PutExts, Extensions, Kinds, NoGrease, AllCurves, AllFormats, SentKinds, SentCurves, SentFormats;
  }

  /** A printed handshake record is found whole, whatever follows it. */
  lemma {:induction false} FirstRecord(version: Word, hs: seq<Byte>, more: seq<Byte>)
    requires |hs| < 0x1_0000
    ensures Record([HANDSHAKE] + Print16(version) + Put16(hs) + more) == Some(hs)
  {
    var p := [HANDSHAKE] + Print16(version) + Put16(hs) + more;
    assert p[3] == Print16(|hs|)[0] && p[4] == Print16(|hs|)[1];
    Print16At(|hs|, []);
    assert p[5..5 + |hs|] == hs;
  }

  lemma {:induction false} HandshakeBody(kind: Byte, body: seq<Byte>)
    requires |body| < 0x100_0000
    ensures var hs := [kind] + Print24(|body|) + body;
            |hs| == 4 + |body| && hs[0] == kind && At24(hs, 1) == |body| && hs[4..4 + |body|] == body
  {
    Print24After(kind, |body|, body);
    hide At24;
  }

  /** Parsing a printed ClientHello, whatever follows it, yields its version, ciphers, extension
      types, curves and point formats with exactly the GREASE values removed. */
  lemma {:induction false} RoundTrip(h: SentHello, more: seq<Byte>)
    requires WellSized(h)
    ensures Parse(PutRecord(h) + more) == Some(Meaning(h))
  {
    hide Record, HelloOf, PutBody, Meaning, Print24, At24;
    HelloRoundTrip(h);
    HandshakeBody(CLIENT_HELLO, PutBody(h));
    FirstRecord(h.recordVersion, PutHandshake(h), more);
  }

  // ----- the SNI of a printed hello

  /** The data of a server_name extension: a list that begins with `name`. */
  ghost function NameData(kind: Byte, name: seq<Byte>, others: seq<Byte>): seq<Byte>
    requires 3 + |name| + |others| < 0x1_0000
  {
    Put16([kind] + Put16(name) + others)
  }

  lemma {:induction false} NameRoundTrip(kind: Byte, name: seq<Byte>, others: seq<Byte>, rest: seq<Byte>)
    requires 5 + |name| + |others| < 0x1_0000
    ensures SniOf(Print16(SERVER_NAME) + Put16(NameData(kind, name, others)) + rest) == name
  {
    var data := NameData(kind, name, others);
    var n, m, tail := |data|, 3 + |name| + |others|, name + others + rest;
    assert n == m + 2 && data + rest == Print16(m) + [kind] + Print16(|name|) + tail;
    hide Print16, At16;
    var block := Print16(SERVER_NAME) + Put16(data) + rest;
    HeaderRoundTrip(SERVER_NAME, n, data + rest);
    assert block == Print16(SERVER_NAME) + Print16(n) + (data + rest);
    NameLength(m, kind, |name|, tail);
    At16Of(block, 4, 3);
    assert block[9..] == tail;
    assert block[9..9 + |name|] == tail[..|name|] == name;
  }

  lemma {:induction false} NameLength(m: nat, kind: Byte, n: nat, tail: seq<Byte>)
    requires m < 0x1_0000 && n < 0x1_0000
    ensures var s := Print16(m) + [kind] + Print16(n) + tail; |s| == 5 + |tail| && At16(s, 3) == n && s[5..] == tail
  {
  }

  lemma {:induction false} At16Of(s: seq<Byte>, i: nat, j: nat)
    requires i + j + 2 <= |s|
    ensures At16(s[i..], j) == At16(s, i + j)
  {
  }

  lemma {:induction false} OtherExtIsSkipped(kind: Word, data: seq<Byte>, rest: seq<Byte>)
    requires |data| < 0x1_0000 && kind != SERVER_NAME
    ensures SniOf(Print16(kind) + Put16(data) + rest) == SniOf(rest)
  {
    hide At16, Print16;
    var block, n := Print16(kind) + Put16(data) + rest, |data|;
    assert block == Print16(kind) + Print16(n) + (data + rest);
    HeaderRoundTrip(kind, n, data + rest);
    assert block[4 + n..] == block[4..][n..] == rest;
  }

  /** Extension `n` is the first of type server_name, and its list begins with `name`. */
  ghost predicate NamesFirst(es: seq<SentExt>, n: nat, kind: Byte, name: seq<Byte>, others: seq<Byte>) {
    && n < |es| && 5 + |name| + |others| < 0x1_0000 && es[n] == Other(0, NameData(kind, name, others))
    && forall i :: 0 <= i < n ==> es[i].Kind() != 0
  }

  lemma {:induction false} NameIsFound(es: seq<SentExt>, n: nat, kind: Byte, name: seq<Byte>, others: seq<Byte>)
    requires AllFit(es) && NamesFirst(es, n, kind, name, others)
    ensures SniOf(PutExts(es)) == name
  {
    hide SniOf, NameData;
    ExtDataRoundTrip(es[0]);
    if n == 0 {
      NameRoundTrip(kind, name, others, PutExts(es[1..]));
    } else {
      OtherExtIsSkipped(es[0].Kind(), es[0].Data(), PutExts(es[1..]));
      NameIsFound(es[1..], n - 1, kind, name, others);
    }
  }

  lemma {:induction false} NoNameIsFound(es: seq<SentExt>)
    requires AllFit(es) && forall i :: 0 <= i < |es| ==> es[i].Kind() != SERVER_NAME
    ensures SniOf(PutExts(es)) == []
  {
    if es != [] {
      hide SniOf;
      ExtDataRoundTrip(es[0]);
      OtherExtIsSkipped(es[0].Kind(), es[0].Data(), PutExts(es[1..]));
      NoNameIsFound(es[1..]);
    }
  }

  /** The walker finds what the extension block has. */
  lemma {:induction false} SniOfPrinted(h: SentHello, more: seq<Byte>)
    requires WellSized(h)
    ensures Sni(PutRecord(h) + more) == if h.extensions.Some? then SniOf(PutExts(h.extensions.value)) else []
  {
    hide Record, FieldsOf, PutBody, PutWords, Print24, At24, SniOf, PutExts;
    HandshakeBody(CLIENT_HELLO, PutBody(h));
    FirstRecord(h.recordVersion, PutHandshake(h), more);
    BodyRoundTrip(h);
    assert PutHandshake(h)[4..4 + |PutBody(h)|] == PutHandshake(h)[4..];
    if h.extensions.Some? {
      Vec16RoundTrip(PutExts(h.extensions.value), []);
      assert PutTail(h) + [] == PutTail(h);
    }
    hide Vec16;
  }

  /** The SNI of a printed hello, whatever follows it, is the first name of its first server_name extension, whatever the
      other extensions are. */
  lemma {:induction false} SniRoundTrip(h: SentHello, n: nat, kind: Byte, name: seq<Byte>, others: seq<Byte>, more: seq<Byte>)
    requires WellSized(h) && NamesFirst(SentExts(h), n, kind, name, others)
    ensures Sni(PutRecord(h) + more) == name
  {
    assert h.extensions.Some?;
    hide NamesFirst, AllFit, Sni, PutRecord, PutBody;
    SniOfPrinted(h, more);
    NameIsFound(SentExts(h), n, kind, name, others);
  }

  /** A hello without a server_name extension has none. */
  lemma {:induction false} NoNameNoSni(h: SentHello, more: seq<Byte>)
    requires WellSized(h) && forall i :: 0 <= i < |SentExts(h)| ==> SentExts(h)[i].Kind() != SERVER_NAME
    ensures Sni(PutRecord(h) + more) == []
  {
    hide AllFit, Sni, PutRecord, PutBody;
    SniOfPrinted(h, more);
    if h.extensions.Some? {
      NoNameIsFound(SentExts(h));
    }
  }

  /** A printed handshake record as one string of bytes. */
  lemma {:induction false} RecordLayout(version: Word, kind: Byte, body: seq<Byte>, more: seq<Byte>)
    requires 4 + |body| < 0x1_0000
    ensures [HANDSHAKE] + Print16(version) + Put16([kind] + Print24(|body|) + body) + more
            == [22] + Print16(version) + Print16(4 + |body|) + [kind] + Print24(|body|) + body + more
  {
    var v, n, m := Print16(version), Print16(4 + |body|), Print24(|body|);
    assert |[kind] + m + body| == 4 + |body|;
    hide Print16, Print24;
  }

  /** The numbers on the wire: a handshake record is of type 22 and a ClientHello of type 1, the random has 32 bytes,
      supported_groups is extension 10 and ec_point_formats extension 11. */
  lemma {:induction false} HelloOnTheWire(h: SentHello, more: seq<Byte>)
    requires WellSized(h)
    ensures var body := PutBody(h);
            && |h.random| == 32
            && Parse([22] + Print16(h.recordVersion) + Print16(4 + |body|) + [1] + Print24(|body|) + body + more) == Some(Meaning(h))
    ensures forall e :: e in SentExts(h) ==> (e.Groups? ==> e.Kind() == 10) && (e.Formats? ==> e.Kind() == 11)
  {
    hide Parse, Meaning, PutBody, Print16, Print24, Put16;
    RecordLayout(h.recordVersion, 1, PutBody(h), more);
    RoundTrip(h, more);
  }

  /** Two hellos that differ only in GREASE ciphers, extensions and curves parse to the same value. */
  lemma {:induction false} GreaseIsInvisible(a: SentHello, b: SentHello, moreA: seq<Byte>, moreB: seq<Byte>)
    requires WellSized(a) && WellSized(b) && a.version == b.version && NoGrease(a.ciphers) == NoGrease(b.ciphers)
    requires Visible(SentExts(a)) == Visible(SentExts(b))
    ensures Parse(PutRecord(a) + moreA) == Parse(PutRecord(b) + moreB)
  {
    RoundTrip(a, moreA);
    RoundTrip(b, moreB);
    VisibleIsEnough(SentExts(a));
    VisibleIsEnough(SentExts(b));
  }

  /** The extensions without GREASE types, and without GREASE curves inside. */
  ghost function Visible(es: seq<SentExt>): seq<SentExt> {
    if es == [] then []
    else (if es[0].Kind() in GREASE then [] else [if es[0].Groups? then Groups(NoGrease(es[0].curves)) else es[0]]) + Visible(es[1..])
  }

  lemma {:induction false} NoGreaseTwice(ws: seq<Word>)
    ensures NoGrease(NoGrease(ws)) == NoGrease(ws)
  {
    if ws != [] {
      NoGreaseTwice(ws[1..]);
      NoGreaseConcat(if ws[0] in GREASE then [] else [ws[0]], NoGrease(ws[1..]));
    }
  }

  lemma {:induction false} VisibleIsEnough(es: seq<SentExt>)
    ensures NoGrease(SentKinds(es)) == NoGrease(SentKinds(Visible(es)))
    ensures NoGrease(SentCurves(es)) == NoGrease(SentCurves(Visible(es)))
    ensures SentFormats(es) == SentFormats(Visible(es))
  {
    if es != [] {
      var e, rest := es[0], es[1..];
      VisibleIsEnough(rest);
      GreasePattern(SUPPORTED_GROUPS);
      GreasePattern(EC_POINT_FORMATS);
      hide GREASE;
      if e.Kind() in GREASE {
        assert Visible(es) == Visible(rest) && SentCurves(es) == SentCurves(rest) && SentFormats(es) == SentFormats(rest);
      } else {
        var v := if e.Groups? then Groups(NoGrease(e.curves)) else e;
        assert Visible(es) == [v] + Visible(rest) && ([v] + Visible(rest))[1..] == Visible(rest);
        if e.Groups? {
          NoGreaseTwice(e.curves);
          NoGreaseConcat(e.curves, SentCurves(rest));
          NoGreaseConcat(v.curves, SentCurves(Visible(rest)));
        } else {
          assert SentCurves(es) == SentCurves(rest) && SentCurves(Visible(es)) == SentCurves(Visible(rest));
        }
      }
    }
  }
}
