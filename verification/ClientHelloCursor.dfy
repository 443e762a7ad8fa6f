/** The two cursor parsers, proved to compute what module ClientHello says the bytes mean. Neither
    indexes out of bounds on any input. */
module ClientHelloCursor {
  import opened Sequences
  import opened Wrappers
  import opened Wire
  import opened ClientHello

  /** Where the cipher list lies and where the part after the compression methods starts. */
  datatype Layout = Layout(ciphers: nat, length: nat, tail: nat)

  /** The fixed part of a hello body that starts at `start`, by absolute positions. */
  ghost function LayoutAt(hs: seq<Byte>, start: nat): (l: Option<Layout>)
    ensures l.Some? ==> start + 2 <= l.value.ciphers && l.value.ciphers + l.value.length <= l.value.tail <= |hs|
  {
    LayoutFromSession(hs, start + 2 + RANDOM_LEN)
  }

  ghost function LayoutFromSession(hs: seq<Byte>, p: nat): (l: Option<Layout>)
    ensures l.Some? ==> p <= l.value.ciphers && l.value.ciphers + l.value.length <= l.value.tail <= |hs|
  {
    if p + 1 > |hs| then None else LayoutFromCiphers(hs, p + 1 + hs[p])
  }

  ghost function LayoutFromCiphers(hs: seq<Byte>, p: nat): (l: Option<Layout>)
    ensures l.Some? ==> p <= l.value.ciphers && l.value.ciphers + l.value.length <= l.value.tail <= |hs|
  {
    if p + 2 > |hs| then None
    else
      var q := p + 2 + At16(hs, p);
      if q + 1 > |hs| || q + 1 + hs[q] > |hs| then None else Some(Layout(p + 2, At16(hs, p), q + 1 + hs[q]))
  }

  /** The fields that a layout delimits. */
  ghost function FieldsIn(hs: seq<Byte>, l: Option<Layout>): Option<Fields>
    requires l.Some? ==> l.value.ciphers + l.value.length <= l.value.tail <= |hs|
  {
    if l.None? then None
    else Some(Fields(hs[l.value.ciphers..l.value.ciphers + l.value.length], hs[l.value.tail..]))
  }

  lemma {:induction false} CiphersByPosition(hs: seq<Byte>, p: nat)
    requires p <= |hs|
    ensures FromCiphers(hs[p..]) == FieldsIn(hs, LayoutFromCiphers(hs, p))
  {
    hide Vec8, Vec16, At16;
    Vec16At(hs, p);
    if p + 2 <= |hs| && p + 2 + At16(hs, p) <= |hs| {
      Vec8At(hs, p + 2 + At16(hs, p));
    }
  }

  lemma {:induction false} SessionByPosition(hs: seq<Byte>, p: nat)
    requires p <= |hs|
    ensures FromSession(hs[p..]) == FieldsIn(hs, LayoutFromSession(hs, p))
  {
    hide Vec8, FromCiphers, LayoutFromCiphers;
    Vec8At(hs, p);
    if p + 1 <= |hs| {
      if p + 1 + hs[p] <= |hs| {
        CiphersByPosition(hs, p + 1 + hs[p]);
      }
    }
  }

  lemma {:induction false} FieldsByPosition(hs: seq<Byte>, start: nat)
    requires start <= |hs|
    ensures FieldsOf(hs[start..]) == FieldsIn(hs, LayoutAt(hs, start))
  {
    hide FromSession, LayoutFromSession;
    if start + 2 + RANDOM_LEN <= |hs| {
      SliceOfDrop(hs, start, 0, 2 + RANDOM_LEN);
      SessionByPosition(hs, start + 2 + RANDOM_LEN);
    }
  }

  /** The SNI of a handshake message, by positions. */
  ghost function SniAt(hs: seq<Byte>): seq<Byte> {
    match LayoutAt(hs, 4)
    case None => []
    case Some(l) => SniTailAt(hs, l.tail)
  }

  ghost function SniTailAt(hs: seq<Byte>, p: nat): seq<Byte> {
    if p + 2 > |hs| || p + 2 + At16(hs, p) > |hs| then [] else SniOf(hs[p + 2..p + 2 + At16(hs, p)])
  }

  lemma {:induction false} SniTailByPosition(hs: seq<Byte>, p: nat)
    requires p <= |hs|
    ensures SniTailAt(hs, p) == SniOfTail(hs[p..])
  {
    hide Vec16, SniOf, At16;
    Vec16At(hs, p);
  }

  lemma {:induction false} SniByPosition(hs: seq<Byte>)
    requires |hs| >= 4
    ensures SniAt(hs) == match FieldsOf(hs[4..])
                         case None => []
                         case Some(fields) => SniOfTail(fields.tail)
  {
    hide FieldsOf, LayoutAt, SniTailAt, SniOfTail;
    FieldsByPosition(hs, 4);
    if LayoutAt(hs, 4).Some? {
      SniTailByPosition(hs, LayoutAt(hs, 4).value.tail);
    }
  }

  /** The JA3 fields of a hello body, by positions. */
  ghost function HelloAt(body: seq<Byte>): Option<Hello> {
    match LayoutAt(body, 0)
    case None => None
    case Some(l) =>
      if l.length % 2 != 0 then None
      else HelloTailAt(body, At16(body, 0), NoGrease(Words(body[l.ciphers..l.ciphers + l.length])), l.tail)
  }

  ghost function HelloTailAt(body: seq<Byte>, version: Word, ciphers: seq<Word>, p: nat): Option<Hello> {
    if p + 2 > |body| then Some(Hello(version, ciphers, [], [], []))
    else if p + 2 + At16(body, p) > |body| then None
    else Some(HelloOfBlock(version, ciphers, Extensions(body[p + 2..p + 2 + At16(body, p)])))
  }

  lemma {:induction false} HelloTailByPosition(body: seq<Byte>, version: Word, ciphers: seq<Word>, p: nat)
    requires p <= |body|
    ensures HelloTailAt(body, version, ciphers, p) == HelloOfTail(version, ciphers, body[p..])
  {
    hide Vec16, Extensions, HelloOfBlock, At16;
    Vec16At(body, p);
  }

  lemma {:induction false} HelloByPosition(body: seq<Byte>)
    ensures HelloAt(body) == HelloOf(body)
  {
    hide FieldsOf, LayoutAt, Words, NoGrease, HelloTailAt, HelloOfTail, At16;
    FieldsByPosition(body, 0);
    assert body[0..] == body;
    if LayoutAt(body, 0).Some? {
      var l := LayoutAt(body, 0).value;
      HelloTailByPosition(body, At16(body, 0), NoGrease(Words(body[l.ciphers..l.ciphers + l.length])), l.tail);
    }
  }

  /** The header of the extension at `pos` in the block hs[pos..end]. */
  lemma {:induction false} HeaderAt(hs: seq<Byte>, pos: nat, end: nat)
    requires pos + 4 <= end <= |hs|
    ensures At16(hs[pos..end], 0) == At16(hs, pos) && At16(hs[pos..end], 2) == At16(hs, pos + 2)
    ensures pos + 9 <= end ==> At16(hs[pos..end], 7) == At16(hs, pos + 7)
  {
  }

  /** One round of the SNI walk over the block hs[pos..end]. */
  lemma {:induction false} SniStep(hs: seq<Byte>, pos: nat, end: nat)
    requires pos <= end <= |hs|
    ensures SniOf(hs[pos..end])
            == if pos + 4 > end || pos + 4 + At16(hs, pos + 2) > end then []
               else if At16(hs, pos) == SERVER_NAME && At16(hs, pos + 2) >= 5 && pos + 9 + At16(hs, pos + 7) <= end then
                 hs[pos + 9..pos + 9 + At16(hs, pos + 7)]
               else SniOf(hs[pos + 4 + At16(hs, pos + 2)..end])
  {
    hide At16;
    if pos + 4 <= end {
      HeaderAt(hs, pos, end);
      if pos + 4 + At16(hs, pos + 2) <= end {
        SliceOfSlice(hs, pos, end, 4, 4 + At16(hs, pos + 2));
        if pos + 9 <= end && pos + 9 + At16(hs, pos + 7) <= end {
          SliceOfSlice(hs, pos, end, 9, 9 + At16(hs, pos + 7));
        }
      }
    }
  }

  /** One round of the extension walk over the block body[pos..end]. */
  lemma {:induction false} ExtensionStep(body: seq<Byte>, pos: nat, end: nat)
    requires pos <= end <= |body|
    ensures Extensions(body[pos..end])
            == if pos + 4 > end || pos + 4 + At16(body, pos + 2) > end then []
               else [Ext(At16(body, pos), body[pos + 4..pos + 4 + At16(body, pos + 2)])]
                    + Extensions(body[pos + 4 + At16(body, pos + 2)..end])
  {
    hide At16;
    if pos + 4 <= end {
      HeaderAt(body, pos, end);
      if pos + 4 + At16(body, pos + 2) <= end {
        SliceOfSlice(body, pos, end, 4, 4 + At16(body, pos + 2));
      }
    }
  }

  /** extractTLSSNI. */
  method ExtractTLSSNI(payload: seq<Byte>) returns (name: seq<Byte>)
    ensures name == Sni(payload)
  {
    if |payload| < 5 || payload[0] != HANDSHAKE {
      return [];
    }
    var recordLen := At16(payload, 3);
    if recordLen < 4 || |payload| < 5 + recordLen {
      return [];
    }
    var hs := payload[5..5 + recordLen];
    if hs[0] != CLIENT_HELLO {
      return [];
    }
    SniByPosition(hs);
    hide SniAt;
    name := SniFromHandshake(hs);
  }

  method SniFromHandshake(hs: seq<Byte>) returns (name: seq<Byte>)
    requires |hs| >= 4
    ensures name == SniAt(hs)
  {
    hide SniOf;
    if |hs| < 39 {
      return [];
    }
    var pos := 38;
    pos := pos + 1 + hs[pos];
    if pos + 2 > |hs| {
      return [];
    }
    pos := pos + 2 + At16(hs, pos);
    if pos + 1 > |hs| {
      return [];
    }
    pos := pos + 1 + hs[pos];
    if pos + 2 > |hs| {
      return [];
    }
    var extTotal := At16(hs, pos);
    pos := pos + 2;
    var end := pos + extTotal;
    if end > |hs| {
      return [];
    }
    name := WalkForName(hs, pos, end);
  }

  /** The extension loop of extractTLSSNI; it ends because `pos` grows by at least four a round. */
  method WalkForName(hs: seq<Byte>, start: nat, end: nat) returns (name: seq<Byte>)
    requires start <= end <= |hs|
    ensures name == SniOf(hs[start..end])
  {
    hide SniOf, At16;
    var pos := start;
    while pos + 4 <= end
      invariant start <= pos <= end
      invariant SniOf(hs[pos..end]) == SniOf(hs[start..end])
    {
      SniStep(hs, pos, end);
      var extType := At16(hs, pos);
      var extLen := At16(hs, pos + 2);
      if pos + 4 + extLen > end {
        return [];
      }
      if extType == SERVER_NAME && extLen >= 5 {
        var nameLen := At16(hs, pos + 7);
        if pos + 9 + nameLen <= end {
          return hs[pos + 9..pos + 9 + nameLen];
        }
      }
      pos := pos + 4 + extLen;
    }
    SniStep(hs, pos, end);
    return [];
  }

  /** parseClientHello. */
  method ParseClientHello(payload: seq<Byte>) returns (r: Option<Hello>)
    ensures r == Parse(payload)
  {
    hide At16, At24, HelloAt, HelloOf;
    if |payload| < 5 || payload[0] != HANDSHAKE {
      return None;
    }
    var recordLen := At16(payload, 3);
    if |payload| < 5 + recordLen {
      return None;
    }
    var hs := payload[5..5 + recordLen];
    if |hs| < 4 || hs[0] != CLIENT_HELLO {
      return None;
    }
    var hsBodyLen := At24(hs, 1);
    if |hs| < 4 + hsBodyLen {
      return None;
    }
    HelloByPosition(hs[4..4 + hsBodyLen]);
    r := ParseBody(hs[4..4 + hsBodyLen]);
  }

  method ParseBody(body: seq<Byte>) returns (r: Option<Hello>)
    ensures r == HelloAt(body)
  {
    hide Words, Extensions, NoGrease, Kinds, AllCurves, AllFormats;
    var pos := 0;
    if pos + 2 > |body| {
      return None;
    }
    var clientVersion := At16(body, pos);
    pos := pos + 2 + RANDOM_LEN;
    if pos + 1 > |body| {
      return None;
    }
    pos := pos + 1 + body[pos];
    if pos + 2 > |body| {
      return None;
    }
    var csLen := At16(body, pos);
    pos := pos + 2;
    if pos + csLen > |body| || csLen % 2 != 0 {
      return None;
    }
    var cipherSuites := ReadWords(body, pos, csLen);
    pos := pos + csLen;
    if pos + 1 > |body| {
      return None;
    }
    pos := pos + 1 + body[pos];
    if pos > |body| {
      return None;
    }
    if pos + 2 > |body| {
      return Some(Hello(clientVersion, cipherSuites, [], [], []));
    }
    var extTotal := At16(body, pos);
    pos := pos + 2;
    var extEnd := pos + extTotal;
    if extEnd > |body| {
      return None;
    }
    var extensions, curves, formats := WalkExtensions(body, pos, extEnd);
    r := Some(Hello(clientVersion, cipherSuites, extensions, curves, formats));
  }

  lemma {:induction false} ReadStep(s: seq<Byte>, pos: nat, i: nat)
    requires pos + i + 2 <= |s| && i % 2 == 0
    ensures NoGrease(Words(s[pos..pos + i + 2]))
            == NoGrease(Words(s[pos..pos + i])) + if At16(s, pos + i) in GREASE then [] else [At16(s, pos + i)]
  {
    hide Words, NoGrease, GREASE;
    var w := At16(s, pos + i);
    assert s[pos..pos + i + 2] == s[pos..pos + i] + [s[pos + i], s[pos + i + 1]];
    WordsSnoc(s[pos..pos + i], s[pos + i], s[pos + i + 1]);
    NoGreaseConcat(Words(s[pos..pos + i]), [w]);
    NoGreaseOne(w);
  }

  /** The non-GREASE numbers in `len` bytes from `pos`. */
  method ReadWords(s: seq<Byte>, pos: nat, len: nat) returns (ws: seq<Word>)
    requires pos + len <= |s| && len % 2 == 0
    ensures ws == NoGrease(Words(s[pos..pos + len]))
  {
    assert NoGrease(Words([])) == [];
    hide Words, NoGrease, GREASE, At16;
    ws := [];
    var i := 0;
    while i < len
      invariant i <= len && i % 2 == 0
      invariant ws == NoGrease(Words(s[pos..pos + i]))
    {
      ReadStep(s, pos, i);
      var w := At16(s, pos + i);
      if w !in GREASE {
        ws := ws + [w];
      }
      i := i + 2;
    }
  }

  /** What the three accumulators of the extension loop hold after the extensions `es`. */
  ghost predicate Collected(es: seq<Ext>, extensions: seq<Word>, curves: seq<Word>, formats: seq<Byte>) {
    extensions == NoGrease(Kinds(es)) && curves == AllCurves(es) && formats == AllFormats(es)
  }

  lemma {:induction false} KindsSnoc(es: seq<Ext>, e: Ext)
    ensures Kinds(es + [e]) == Kinds(es) + [e.kind]
  {
    if es == [] {
      assert [] + [e] == [e] && Kinds([e]) == [e.kind] + Kinds([]);
    } else {
      assert (es + [e])[1..] == es[1..] + [e];
      KindsSnoc(es[1..], e);
    }
  }

  lemma {:induction false} AllCurvesSnoc(es: seq<Ext>, e: Ext)
    ensures AllCurves(es + [e]) == AllCurves(es) + if e.kind == SUPPORTED_GROUPS then CurvesOf(e.data) else []
  {
    hide CurvesOf;
    if es == [] {
      assert [] + [e] == [e] && AllCurves([]) == [] && [e][1..] == [];
    } else {
      assert (es + [e])[1..] == es[1..] + [e];
      AllCurvesSnoc(es[1..], e);
    }
  }

  lemma {:induction false} AllFormatsSnoc(es: seq<Ext>, e: Ext)
    ensures AllFormats(es + [e]) == AllFormats(es) + if e.kind == EC_POINT_FORMATS then FormatsOf(e.data) else []
  {
    hide FormatsOf;
    if es == [] {
      assert [] + [e] == [e] && AllFormats([]) == [] && [e][1..] == [];
    } else {
      assert (es + [e])[1..] == es[1..] + [e];
      AllFormatsSnoc(es[1..], e);
    }
  }

  lemma {:induction false} NoGreaseOne(w: Word)
    ensures NoGrease([w]) == if w in GREASE then [] else [w]
  {
    hide GREASE;
    assert [w][1..] == [];
  }

  /** The extension loop of parseClientHello. */
  method WalkExtensions(body: seq<Byte>, start: nat, extEnd: nat) returns (extensions: seq<Word>, curves: seq<Word>, formats: seq<Byte>)
    requires start <= extEnd <= |body|
    ensures Collected(Extensions(body[start..extEnd]), extensions, curves, formats)
  {
    assert Collected([], [], [], []);
    hide Extensions, At16, Collected;
    extensions, curves, formats := [], [], [];
    var pos := start;
    ghost var done: seq<Ext> := [];
    ghost var all := Extensions(body[start..extEnd]);
    assert [] + all == all;
    while pos + 4 <= extEnd
      invariant start <= pos <= extEnd
      invariant all == done + Extensions(body[pos..extEnd])
      invariant Collected(done, extensions, curves, formats)
    {
      ExtensionStep(body, pos, extEnd);
      var extType := At16(body, pos);
      var extLen := At16(body, pos + 2);
      if pos + 4 + extLen > extEnd {
        break;
      }
      var extData := body[pos + 4..pos + 4 + extLen];
      Regroup(done, [Ext(extType, extData)], Extensions(body[pos + 4 + extLen..extEnd]));
      extensions, curves, formats := Collect(done, extType, extData, extensions, curves, formats);
      done := done + [Ext(extType, extData)];
      pos := pos + 4 + extLen;
    }
    ExtensionStep(body, pos, extEnd);
    assert done + [] == done;
  }

  /** The loop body of parseClientHello for one extension. */
  method Collect(ghost done: seq<Ext>, extType: Word, extData: seq<Byte>, extensions: seq<Word>, curves: seq<Word>, formats: seq<Byte>)
    returns (extensions': seq<Word>, curves': seq<Word>, formats': seq<Byte>)
    requires Collected(done, extensions, curves, formats)
    ensures Collected(done + [Ext(extType, extData)], extensions', curves', formats')
  {
    hide NoGrease, Kinds, AllCurves, AllFormats, GREASE, CurvesOf, FormatsOf;
    KindsSnoc(done, Ext(extType, extData));
    AllCurvesSnoc(done, Ext(extType, extData));
    AllFormatsSnoc(done, Ext(extType, extData));
    NoGreaseConcat(Kinds(done), [extType]);
    NoGreaseOne(extType);
    extensions', curves', formats' := extensions, curves, formats;
    if extType !in GREASE {
      extensions' := extensions + [extType];
    }
    if extType == SUPPORTED_GROUPS {
      var more := ReadCurves(extData);
      curves' := curves + more;
    } else if extType == EC_POINT_FORMATS {
      var more := ReadFormats(extData);
      formats' := formats + more;
    }
  }

  method ReadCurves(extData: seq<Byte>) returns (more: seq<Word>)
    ensures more == CurvesOf(extData)
  {
    if |extData| < 2 {
      return [];
    }
    var listLen := At16(extData, 0);
    if |extData| < 2 + listLen || listLen % 2 != 0 {
      return [];
    }
    more := ReadWords(extData, 2, listLen);
  }

  method ReadFormats(extData: seq<Byte>) returns (more: seq<Byte>)
    ensures more == FormatsOf(extData)
  {
    more := [];
    if |extData| < 1 {
      return;
    }
    var fmtLen: nat := extData[0];
    if |extData| < 1 + fmtLen {
      return;
    }
    for i := 0 to fmtLen
      invariant more == extData[1..1 + i]
    {
      more := more + [extData[1 + i]];
    }
  }
}
