/** One TCP stream that waits for its ClientHello (internal/capture/reassembly.go, lines 34, 64-140).
    The ordered chunks that the TCP library hands over are the input. */
module Reassembly {
  import opened Sequences
  import opened Wrappers
  import opened Wire
  import CH = ClientHello
  import ClientHelloCursor
  import Ja3

  const MAX_STREAM_BUF: nat := 8 * 1024

  /** A contiguous piece of the stream and the time of its packet; 0 is the zero time. */
  datatype Chunk = Chunk(bytes: seq<Byte>, seen: nat)

  datatype Attempt = Attempt(sni: seq<Byte>, ja3: string, timestamp: nat)

  /** What an attempt says, without its time. */
  datatype Finding = Finding(sni: seq<Byte>, ja3: string)

  datatype State = State(buf: seq<Byte>, done: bool, lastSeen: nat)

  const FRESH: State := State([], false, 0)

  function Later(a: nat, b: nat): nat {
    if b > a then b else a
  }

  function Cut(s: seq<Byte>, n: nat): seq<Byte> {
    if |s| <= n then s else s[..n]
  }

  /** One batch read into the buffer. Empty chunks are skipped even when the buffer is full. */
  ghost function Fill(s: State, rs: seq<Chunk>): (t: State)
    requires |s.buf| <= MAX_STREAM_BUF
    ensures |t.buf| <= MAX_STREAM_BUF && t.done == s.done
    decreases rs
  {
    if rs == [] then s
    else
      var s1 := s.(lastSeen := Later(s.lastSeen, rs[0].seen));
      if rs[0].bytes == [] then Fill(s1, rs[1..])
      else if |s.buf| == MAX_STREAM_BUF then s1
      else Fill(s1.(buf := s.buf + Cut(rs[0].bytes, MAX_STREAM_BUF - |s.buf|)), rs[1..])
  }

  ghost function Found(s: State, md5: string -> string): Attempt {
    Attempt(CH.Sni(s.buf), Ja3.Fingerprint(s.buf, md5), s.lastSeen)
  }

  datatype Reaction = Reaction(state: State, attempt: Option<Attempt>)

  /** The stream's reaction to a batch. `named` says that both ends are IP addresses with ports. */
  ghost function React(s: State, rs: seq<Chunk>, named: bool, md5: string -> string): (r: Reaction)
    requires |s.buf| <= MAX_STREAM_BUF
    ensures |r.state.buf| <= MAX_STREAM_BUF
  {
    if s.done then Reaction(s, None)
    else
      var t := Fill(s, rs);
      if CH.Sni(t.buf) == [] then Reaction(t, None)
      else Reaction(t.(done := true), if named then Some(Found(t, md5)) else None)
  }

  /** Everything a stream tries to emit while it is handed the given batches. */
  ghost function Attempts(s: State, batches: seq<seq<Chunk>>, named: bool, md5: string -> string): seq<Attempt>
    requires |s.buf| <= MAX_STREAM_BUF
    decreases batches
  {
    if batches == [] then []
    else
      var r := React(s, batches[0], named, md5);
      (if r.attempt.Some? then [r.attempt.value] else []) + Attempts(r.state, batches[1..], named, md5)
  }

  ghost function Findings(attempts: seq<Attempt>): seq<Finding> {
    seq(|attempts|, i requires 0 <= i < |attempts| => Finding(attempts[i].sni, attempts[i].ja3))
  }

  ghost function ChunkBytes(rs: seq<Chunk>): seq<Byte> {
    if rs == [] then [] else rs[0].bytes + ChunkBytes(rs[1..])
  }

  /** The byte stream that a sequence of batches carries. */
  ghost function Stream(batches: seq<seq<Chunk>>): seq<Byte> {
    if batches == [] then [] else ChunkBytes(batches[0]) + Stream(batches[1..])
  }

  /** What the stream as a whole should yield: one finding if its first 8 KB hold a name, else none. */
  ghost function Verdict(stream: seq<Byte>, named: bool, md5: string -> string): seq<Finding> {
    var head := Cut(stream, MAX_STREAM_BUF);
    if named && CH.Sni(head) != [] then [Finding(CH.Sni(head), Ja3.Fingerprint(head, md5))] else []
  }

  // ----- the stream object

  class TlsStream {
    const named: bool
    const md5: string -> string
    var buf: seq<Byte>
    var done: bool
    var lastSeen: nat
    /** What went into the channel. */
    var out: seq<Attempt>

    ghost predicate Valid()
      reads this
    {
      |buf| <= MAX_STREAM_BUF
    }

    ghost function Value(): State
      reads this
    {
      State(buf, done, lastSeen)
    }

    constructor (named: bool, md5: string -> string)
      ensures Valid() && Value() == FRESH && out == [] && this.named == named && this.md5 == md5
    {
      this.named, this.md5 := named, md5;
      buf, done, lastSeen, out := [], false, 0, [];
    }

    /** Reassembled. `room` says that the channel has a free slot; without one the event is dropped. */
    method Reassembled(rs: seq<Chunk>, room: bool)
      requires Valid()
      modifies this
      ensures Valid()
      ensures Value() == React(old(Value()), rs, named, md5).state
      ensures var attempt := React(old(Value()), rs, named, md5).attempt;
              out == if attempt.Some? && room then old(out) + [attempt.value] else old(out)
    {
      hide CH.Sni, Ja3.Fingerprint, Fill;
      if done {
        return;
      }
      Absorb(rs);
      var sni := ClientHelloCursor.ExtractTLSSNI(buf);
      if sni == [] {
        return;
      }
      if !named {
        done := true;
        return;
      }
      var ja3 := Ja3.ComputeFingerprint(buf, md5);
      var evt := Attempt(sni, ja3, lastSeen);
      if room {
        out := out + [evt];
      }
      done := true;
    }

    /** The buffering loop of Reassembled. */
    method Absorb(rs: seq<Chunk>)
      requires Valid()
      modifies `buf, `lastSeen
      ensures Valid()
      ensures Value() == Fill(old(Value()), rs)
    {
      var i := 0;
      while i < |rs|
        invariant i <= |rs|
        invariant Valid() && done == old(done)
        invariant Fill(Value(), rs[i..]) == Fill(old(Value()), rs)
      {
        var r := rs[i];
        assert rs[i..][0] == r && rs[i..][1..] == rs[i + 1..];
        if r.seen > lastSeen {
          lastSeen := r.seen;
        }
        i := i + 1;
        if r.bytes != [] {
          var remaining := MAX_STREAM_BUF - |buf|;
          if remaining <= 0 {
            return;
          }
          var chunk := r.bytes;
          if |chunk| > remaining {
            chunk := chunk[..remaining];
          }
          buf := buf + chunk;
        }
      }
    }
  }

  // ----- segmentation

  /** A batch adds the next bytes of the stream, up to the capacity. */
  lemma {:induction false} FillTakesPrefix(s: State, rs: seq<Chunk>)
    requires |s.buf| <= MAX_STREAM_BUF
    ensures Fill(s, rs).buf == Cut(s.buf + ChunkBytes(rs), MAX_STREAM_BUF)
    decreases rs
  {
    if rs == [] {
      assert s.buf + [] == s.buf;
    } else {
      var s1 := s.(lastSeen := Later(s.lastSeen, rs[0].seen));
      if rs[0].bytes == [] {
        assert rs[0].bytes + ChunkBytes(rs[1..]) == ChunkBytes(rs[1..]);
        FillTakesPrefix(s1, rs[1..]);
      } else if |s.buf| < MAX_STREAM_BUF {
        var piece := Cut(rs[0].bytes, MAX_STREAM_BUF - |s.buf|);
        FillTakesPrefix(s1.(buf := s.buf + piece), rs[1..]);
        assert Cut(s.buf + piece + ChunkBytes(rs[1..]), MAX_STREAM_BUF) == Cut(s.buf + (rs[0].bytes + ChunkBytes(rs[1..])), MAX_STREAM_BUF);
      }
    }
  }

  /** Once the buffer holds a name, more bytes change neither the name nor the fingerprint. */
  lemma {:induction false} FoundIsStable(buf: seq<Byte>, more: seq<Byte>, md5: string -> string)
    requires CH.Sni(buf) != []
    ensures CH.Sni(buf + more) == CH.Sni(buf) && Ja3.Fingerprint(buf + more, md5) == Ja3.Fingerprint(buf, md5)
  {
    assert CH.Record(buf).Some?;
    assert CH.Sni(buf + more) == CH.Sni(buf) by {
      hide CH.Record, CH.FieldsOf, CH.SniOfTail;
      CH.RecordIsStable(buf, more);
    }
    hide CH.Record, CH.Sni, Ja3.Fingerprint;
    Ja3.FingerprintIsStable(buf, more, md5);
  }

  lemma {:induction false} CutOfCut(a: seq<Byte>, b: seq<Byte>, n: nat)
    ensures Cut(Cut(a, n) + b, n) == Cut(a + b, n)
  {
  }

  /** A prefix of the capped stream that already holds a name decides the verdict. */
  lemma {:induction false} EarlyFinding(a: seq<Byte>, b: seq<Byte>, md5: string -> string)
    requires CH.Sni(Cut(a, MAX_STREAM_BUF)) != []
    ensures Verdict(a + b, true, md5) == Verdict(a, true, md5) && Verdict(a + b, false, md5) == []
  {
    hide CH.Sni, Ja3.Fingerprint;
    var head, all := Cut(a, MAX_STREAM_BUF), Cut(a + b, MAX_STREAM_BUF);
    var more := all[|head|..];
    assert all == head + more;
    FoundIsStable(head, more, md5);
  }

  lemma {:induction false} DoneIsSilent(s: State, batches: seq<seq<Chunk>>, named: bool, md5: string -> string)
    requires s.done && |s.buf| <= MAX_STREAM_BUF
    ensures Attempts(s, batches, named, md5) == []
    decreases batches
  {
    if batches != [] {
      DoneIsSilent(s, batches[1..], named, md5);
    }
  }

  lemma {:induction false} AttemptsFrom(s: State, batches: seq<seq<Chunk>>, named: bool, md5: string -> string)
    requires !s.done && |s.buf| <= MAX_STREAM_BUF && CH.Sni(s.buf) == []
    ensures Findings(Attempts(s, batches, named, md5)) == Verdict(s.buf + Stream(batches), named, md5)
    decreases batches
  {
    hide CH.Sni, Ja3.Fingerprint, Fill, Ja3.Ja3String;
    if batches == [] {
      assert s.buf + [] == s.buf;
    } else {
      var t := Fill(s, batches[0]);
      var a, b := s.buf + ChunkBytes(batches[0]), Stream(batches[1..]);
      FillTakesPrefix(s, batches[0]);
      Regroup(s.buf, ChunkBytes(batches[0]), b);
      if CH.Sni(t.buf) == [] {
        AttemptsFrom(t, batches[1..], named, md5);
        CutOfCut(a, b, MAX_STREAM_BUF);
        assert [] + Attempts(t, batches[1..], named, md5) == Attempts(t, batches[1..], named, md5);
      } else {
        DoneIsSilent(t.(done := true), batches[1..], named, md5);
        EarlyFinding(a, b, md5);
      }
    }
  }

  lemma {:induction false} NothingNamesNothing()
    ensures CH.Sni([]) == []
  {
    hide CH.FieldsOf, CH.SniOfTail;
  }

  lemma {:induction false} AttemptsAreVerdict(batches: seq<seq<Chunk>>, named: bool, md5: string -> string)
    ensures Findings(Attempts(FRESH, batches, named, md5)) == Verdict(Stream(batches), named, md5)
  {
    hide CH.Sni, Attempts, Verdict, Findings, Stream;
    NothingNamesNothing();
    AttemptsFrom(FRESH, batches, named, md5);
    assert FRESH.buf + Stream(batches) == Stream(batches);
  }

  /** A stream makes exactly the attempt that its first 8 KB call for, however it is cut into chunks and batches. */
  lemma {:induction false} AttemptsAreExact(batches: seq<seq<Chunk>>, named: bool, md5: string -> string)
    ensures var head := if |Stream(batches)| <= 8192 then Stream(batches) else Stream(batches)[..8192];
            Findings(Attempts(FRESH, batches, named, md5))
            == if named && CH.Sni(head) != [] then [Finding(CH.Sni(head), Ja3.Fingerprint(head, md5))] else []
  {
    hide CH.Sni, Ja3.Fingerprint, Attempts, Findings, Stream;
    AttemptsAreVerdict(batches, named, md5);
  }

  /** Two splittings of one byte stream: the same attempt, or none, and never two. */
  lemma {:induction false} SegmentationIsIrrelevant(a: seq<seq<Chunk>>, b: seq<seq<Chunk>>, named: bool, md5: string -> string)
    requires Stream(a) == Stream(b)
    ensures Findings(Attempts(FRESH, a, named, md5)) == Findings(Attempts(FRESH, b, named, md5))
    ensures |Attempts(FRESH, a, named, md5)| <= 1
  {
    AttemptsAreVerdict(a, named, md5);
    AttemptsAreVerdict(b, named, md5);
    assert |Attempts(FRESH, a, named, md5)| == |Findings(Attempts(FRESH, a, named, md5))|;
  }

  // ----- the time of the attempt

  /** The chunks of a batch that are read when the buffer holds `n` bytes: up to the first one that finds it full. */
  ghost function ReadOf(n: nat, rs: seq<Chunk>): seq<Chunk>
    decreases rs
  {
    if rs == [] then []
    else if rs[0].bytes == [] then [rs[0]] + ReadOf(n, rs[1..])
    else if n >= MAX_STREAM_BUF then [rs[0]]
    else [rs[0]] + ReadOf(n + |Cut(rs[0].bytes, MAX_STREAM_BUF - n)|, rs[1..])
  }

  /** The chunks that are read of several batches. */
  ghost function Read(n: nat, batches: seq<seq<Chunk>>): seq<Chunk>
    decreases batches
  {
    if batches == [] then []
    else ReadOf(n, batches[0]) + Read(LeastOf(MAX_STREAM_BUF, n + |ChunkBytes(batches[0])|), batches[1..])
  }

  function LeastOf(a: nat, b: nat): nat {
    if a <= b then a else b
  }

  /** The latest of the chunks' times. */
  ghost function Latest(rs: seq<Chunk>): nat {
    if rs == [] then 0 else Later(Latest(rs[..|rs| - 1]), rs[|rs| - 1].seen)
  }

  lemma {:induction false} LatestIsMaximum(rs: seq<Chunk>)
    ensures (forall r :: r in rs ==> r.seen <= Latest(rs)) && (Latest(rs) == 0 || exists r :: r in rs && r.seen == Latest(rs))
  {
    if rs != [] {
      var front, r := rs[..|rs| - 1], rs[|rs| - 1];
      LatestIsMaximum(front);
      assert rs == front + [r];
    }
  }

  lemma {:induction false} LatestConcat(a: seq<Chunk>, b: seq<Chunk>)
    ensures Latest(a + b) == Later(Latest(a), Latest(b))
  {
    if b == [] {
      assert a + b == a;
    } else {
      assert a + b == a + b[..|b| - 1] + [b[|b| - 1]];
      LatestConcat(a, b[..|b| - 1]);
    }
  }

  lemma {:induction false} LatestOne(r: Chunk)
    ensures Latest([r]) == r.seen
  {
    assert [r][..0] == [];
  }

  lemma {:induction false} LatestFirst(r: Chunk, rs: seq<Chunk>)
    ensures Latest([r] + rs) == Later(r.seen, Latest(rs))
  {
    LatestConcat([r], rs);
    LatestOne(r);
  }

  function Noted(s: State, r: Chunk): State {
    s.(lastSeen := Later(s.lastSeen, r.seen))
  }

  function Buffered(s: State, r: Chunk): State
    requires |s.buf| <= MAX_STREAM_BUF
  {
    Noted(s, r).(buf := s.buf + Cut(r.bytes, MAX_STREAM_BUF - |s.buf|))
  }

  /** What becomes of the first chunk of a batch: skipped, refused, or put into the buffer. */
  lemma {:induction false} FirstChunk(s: State, rs: seq<Chunk>)
    requires |s.buf| <= MAX_STREAM_BUF && rs != []
    ensures rs[0].bytes == [] ==>
              Fill(s, rs) == Fill(Noted(s, rs[0]), rs[1..]) && ReadOf(|s.buf|, rs) == [rs[0]] + ReadOf(|s.buf|, rs[1..])
    ensures rs[0].bytes != [] && |s.buf| == MAX_STREAM_BUF ==> Fill(s, rs) == Noted(s, rs[0]) && ReadOf(|s.buf|, rs) == [rs[0]]
    ensures rs[0].bytes != [] && |s.buf| < MAX_STREAM_BUF ==>
              var t := Buffered(s, rs[0]);
              && |t.buf| <= MAX_STREAM_BUF && Fill(s, rs) == Fill(t, rs[1..])
              && ReadOf(|s.buf|, rs) == [rs[0]] + ReadOf(|t.buf|, rs[1..])
  {
    hide Later;
  }

  /** lastSeen after a batch is the latest time read, in this batch or before. */
  lemma {:induction false} FillSeen(s: State, rs: seq<Chunk>)
    requires |s.buf| <= MAX_STREAM_BUF
    ensures Fill(s, rs).lastSeen == Later(s.lastSeen, Latest(ReadOf(|s.buf|, rs)))
    decreases rs
  {
    if rs == [] {
      LatestNothing();
      assert Fill(s, rs) == s && ReadOf(|s.buf|, rs) == [];
    } else {
      FirstChunk(s, rs);
      hide Latest, Cut, Fill, ReadOf;
      if rs[0].bytes == [] {
        FillSeen(Noted(s, rs[0]), rs[1..]);
        LatestFirst(rs[0], ReadOf(|s.buf|, rs[1..]));
      } else if |s.buf| < MAX_STREAM_BUF {
        FillSeen(Buffered(s, rs[0]), rs[1..]);
        LatestFirst(rs[0], ReadOf(|Buffered(s, rs[0]).buf|, rs[1..]));
      } else {
        LatestOne(rs[0]);
      }
    }
  }

  lemma {:induction false} LatestNothing()
    ensures Latest([]) == 0
  {
  }

  /** The capped stream after the first `i` batches, behind the bytes already buffered. */
  ghost function Head(buf: seq<Byte>, batches: seq<seq<Chunk>>, i: nat): seq<Byte>
    requires i <= |batches|
  {
    Cut(buf + Stream(batches[..i]), MAX_STREAM_BUF)
  }

  /** Batch `j` is the one that completes the name. */
  ghost predicate Completes(buf: seq<Byte>, batches: seq<seq<Chunk>>, j: nat) {
    && j < |batches| && CH.Sni(Head(buf, batches, j + 1)) != []
    && forall i: nat :: i <= j ==> CH.Sni(Head(buf, batches, i)) == []
  }

  lemma {:induction false} HeadStep(buf: seq<Byte>, batches: seq<seq<Chunk>>, i: nat)
    requires i < |batches|
    ensures Head(buf, batches, i + 1) == Head(Cut(buf + ChunkBytes(batches[0]), MAX_STREAM_BUF), batches[1..], i)
  {
    var rest := Stream(batches[1..][..i]);
    assert batches[..i + 1][0] == batches[0] && batches[..i + 1][1..] == batches[1..][..i];
    Regroup(buf, ChunkBytes(batches[0]), rest);
    CutOfCut(buf + ChunkBytes(batches[0]), rest, MAX_STREAM_BUF);
  }

  lemma {:induction false} ReadStep(n: nat, batches: seq<seq<Chunk>>, i: nat)
    requires i < |batches|
    ensures Read(n, batches[..i + 1]) == ReadOf(n, batches[0]) + Read(LeastOf(MAX_STREAM_BUF, n + |ChunkBytes(batches[0])|), batches[1..][..i])
  {
    assert batches[..i + 1][0] == batches[0] && batches[..i + 1][1..] == batches[1..][..i];
  }

  /** A batch without a name yet, and the batch with the name. */
  lemma {:induction false} AttemptsStep(s: State, batches: seq<seq<Chunk>>, md5: string -> string)
    requires !s.done && |s.buf| <= MAX_STREAM_BUF && batches != []
    ensures var t := Fill(s, batches[0]);
            Attempts(s, batches, true, md5) == if CH.Sni(t.buf) == [] then Attempts(t, batches[1..], true, md5) else [Found(t, md5)]
  {
    var t := Fill(s, batches[0]);
    DoneIsSilent(t.(done := true), batches[1..], true, md5);
    hide CH.Sni, Found, Fill;
    assert [] + Attempts(t, batches[1..], true, md5) == Attempts(t, batches[1..], true, md5);
  }

  lemma {:induction false} CompletesLater(buf: seq<Byte>, batches: seq<seq<Chunk>>, j: nat)
    requires |buf| <= MAX_STREAM_BUF && Completes(buf, batches, j)
    ensures var buf' := Cut(buf + ChunkBytes(batches[0]), MAX_STREAM_BUF);
            if j == 0 then CH.Sni(buf') != [] && Head(buf, batches, 1) == buf'
            else CH.Sni(buf') == [] && Completes(buf', batches[1..], j - 1)
  {
    var buf' := Cut(buf + ChunkBytes(batches[0]), MAX_STREAM_BUF);
    HeadStep(buf, batches, 0);
    HeadStep(buf, batches, j);
    EmptyHead(buf', batches[1..]);
    hide CH.Sni, Head, Cut;
    if j > 0 {
      assert CH.Sni(Head(buf, batches, 0 + 1)) == [];
      forall i: nat | i <= j - 1
        ensures CH.Sni(Head(buf', batches[1..], i)) == []
      {
        HeadStep(buf, batches, i);
        assert CH.Sni(Head(buf, batches, i + 1)) == [];
      }
    }
  }

  lemma {:induction false} BatchFills(s: State, rs: seq<Chunk>)
    requires |s.buf| <= MAX_STREAM_BUF
    ensures var t := Fill(s, rs);
            && t.buf == Cut(s.buf + ChunkBytes(rs), MAX_STREAM_BUF) && |t.buf| == LeastOf(MAX_STREAM_BUF, |s.buf| + |ChunkBytes(rs)|)
            && !s.done == !t.done && t.lastSeen == Later(s.lastSeen, Latest(ReadOf(|s.buf|, rs)))
  {
    FillTakesPrefix(s, rs);
    FillSeen(s, rs);
    hide Fill, Latest, ReadOf, ChunkBytes;
  }

  /** The attempt at batch `j`, its time as the latest of what was seen before and what is read up to that batch. */
  ghost function AttemptAt(s: State, batches: seq<seq<Chunk>>, j: nat, md5: string -> string): Attempt
    requires j < |batches|
  {
    var head := Head(s.buf, batches, j + 1);
    Attempt(CH.Sni(head), Ja3.Fingerprint(head, md5), Later(s.lastSeen, Latest(Read(|s.buf|, batches[..j + 1]))))
  }

  lemma {:induction false} AttemptNow(s: State, batches: seq<seq<Chunk>>, md5: string -> string)
    requires |s.buf| <= MAX_STREAM_BUF && batches != []
    ensures AttemptAt(s, batches, 0, md5) == Found(Fill(s, batches[0]), md5)
  {
    hide CH.Sni, Ja3.Fingerprint, Fill, ReadOf, Latest, Head, ChunkBytes, Read, Cut, LeastOf;
    BatchFills(s, batches[0]);
    HeadStep(s.buf, batches, 0);
    ReadStep(|s.buf|, batches, 0);
    var t, first := Fill(s, batches[0]), ReadOf(|s.buf|, batches[0]);
    EmptyHead(t.buf, batches[1..]);
    assert first + [] == first;
  }

  lemma {:induction false} AttemptAfter(s: State, batches: seq<seq<Chunk>>, j: nat, md5: string -> string)
    requires |s.buf| <= MAX_STREAM_BUF && 0 < j < |batches|
    ensures AttemptAt(s, batches, j, md5) == AttemptAt(Fill(s, batches[0]), batches[1..], j - 1, md5)
  {
    hide CH.Sni, Ja3.Fingerprint, Fill, ReadOf, Latest, Head, ChunkBytes, Read, Cut, LeastOf;
    BatchFills(s, batches[0]);
    HeadStep(s.buf, batches, j);
    ReadStep(|s.buf|, batches, j);
    var t := Fill(s, batches[0]);
    LatestConcat(ReadOf(|s.buf|, batches[0]), Read(|t.buf|, batches[1..][..j]));
  }

  lemma {:induction false} AttemptFrom(s: State, batches: seq<seq<Chunk>>, j: nat, md5: string -> string)
    requires !s.done && |s.buf| <= MAX_STREAM_BUF && j < |batches| && Completes(s.buf, batches, j)
    ensures Attempts(s, batches, true, md5) == [AttemptAt(s, batches, j, md5)]
    decreases j
  {
    hide *;
    AttemptsStep(s, batches, md5);
    CompletesLater(s.buf, batches, j);
    BatchFills(s, batches[0]);
    if j == 0 {
      AttemptNow(s, batches, md5);
    } else {
      AttemptAfter(s, batches, j, md5);
      AttemptFrom(Fill(s, batches[0]), batches[1..], j - 1, md5);
    }
  }

  lemma {:induction false} EmptyHead(buf: seq<Byte>, batches: seq<seq<Chunk>>)
    requires |buf| <= MAX_STREAM_BUF
    ensures Head(buf, batches, 0) == buf
    ensures Read(|buf|, batches[..0]) == []
  {
    assert buf + [] == buf;
  }

  lemma {:induction false} AttemptOfFresh(batches: seq<seq<Chunk>>, j: nat, md5: string -> string)
    requires j < |batches|
    ensures var head, a := Cut(Stream(batches[..j + 1]), MAX_STREAM_BUF), AttemptAt(FRESH, batches, j, md5);
            a == Attempt(CH.Sni(head), Ja3.Fingerprint(head, md5), Latest(Read(0, batches[..j + 1])))
  {
    assert FRESH.buf + Stream(batches[..j + 1]) == Stream(batches[..j + 1]);
    hide CH.Sni, Ja3.Fingerprint, Latest, Read, Stream;
  }

  /** The one attempt of a stream is made at the batch that completes the name; its time is the latest of all chunks read
      up to the end of that batch. */
  lemma {:induction false} TimeIsExact(batches: seq<seq<Chunk>>, j: nat, md5: string -> string)
    requires Completes([], batches, j)
    ensures var head := Cut(Stream(batches[..j + 1]), MAX_STREAM_BUF);
            Attempts(FRESH, batches, true, md5)
            == [Attempt(CH.Sni(head), Ja3.Fingerprint(head, md5), Latest(Read(0, batches[..j + 1])))]
  {
    AttemptOfFresh(batches, j, md5);
    AttemptFrom(FRESH, batches, j, md5);
    hide *;
  }

  /** A fresh stream reacts to a batch whose bytes are a hello, with or without an empty chunk after it. */
  lemma {:induction false} FillHello(hello: seq<Byte>)
    requires 0 < |hello| <= MAX_STREAM_BUF
    ensures Fill(FRESH, [Chunk(hello, 1)]) == State(hello, false, 1)
    ensures Fill(FRESH, [Chunk(hello, 1), Chunk([], 2)]) == State(hello, false, 2)
  {
    var one, two := Chunk(hello, 1), Chunk([], 2);
    assert [] + hello == hello;
    assert [one, two][1..] == [two] && [one][1..] == [] && [two][1..] == [];
    assert Fill(State(hello, false, 1), [two]) == State(hello, false, 2);
    assert Fill(State(hello, false, 1), []) == State(hello, false, 1);
  }

  lemma {:induction false} OneAttempt(batch: seq<Chunk>, rest: seq<seq<Chunk>>, md5: string -> string)
    requires CH.Sni(Fill(FRESH, batch).buf) != []
    ensures Attempts(FRESH, [batch] + rest, true, md5) == [Found(Fill(FRESH, batch), md5)]
  {
    hide CH.Sni, Fill, Found;
    DoneIsSilent(Fill(FRESH, batch).(done := true), rest, true, md5);
    assert ([batch] + rest)[1..] == rest;
  }

  /** The time of the attempt does depend on the batches: an empty chunk that follows the name in its own batch
      moves it, one in the next batch does not. */
  lemma {:induction false} TimestampNeedsTheBatches(hello: seq<Byte>, md5: string -> string)
    requires |hello| <= MAX_STREAM_BUF && CH.Sni(hello) != []
    ensures Attempts(FRESH, [[Chunk(hello, 1), Chunk([], 2)]], true, md5) == [Attempt(CH.Sni(hello), Ja3.Fingerprint(hello, md5), 2)]
    ensures Attempts(FRESH, [[Chunk(hello, 1)], [Chunk([], 2)]], true, md5) == [Attempt(CH.Sni(hello), Ja3.Fingerprint(hello, md5), 1)]
  {
    NothingNamesNothing();
    hide CH.Sni, Ja3.Fingerprint, Attempts, Fill;
    var one, two := Chunk(hello, 1), Chunk([], 2);
    FillHello(hello);
    OneAttempt([one, two], [], md5);
    OneAttempt([one], [[two]], md5);
    assert [[one, two]] + [] == [[one, two]] && [[one]] + [[two]] == [[one], [two]];
  }
}
