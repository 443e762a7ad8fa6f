/** The JA3 and JA3S strings before hashing (internal/ja3/ja3.go, lines 67-75, 122-155;
    internal/ja3/ja3s.go, lines 46-75). The digest is a parameter. */
module Ja3 {
  import opened Sequences
  import opened Wrappers
  import opened Wire
  import opened Decimal
  import CH = ClientHello
  import ClientHelloCursor
  import SH = ServerHello

  ghost function Ja3String(h: CH.Hello): string {
    Itoa(h.version) + "," + (JoinNumbers(h.ciphers) + "," + (JoinNumbers(h.extensions) + ","
      + (JoinNumbers(h.curves) + "," + JoinNumbers(h.formats))))
  }

  ghost function Ja3sString(h: SH.Hello): string {
    Itoa(h.version) + "," + (Itoa(h.cipher) + "," + JoinNumbers(h.extensions))
  }

  /** The fingerprint of a payload; empty when it holds no ClientHello. */
  ghost function Fingerprint(payload: seq<Byte>, md5: string -> string): string {
    match CH.Parse(payload)
    case None => ""
    case Some(h) => md5(Ja3String(h))
  }

  lemma {:induction false} NoComma(n: nat, ws: seq<Word>)
    ensures ',' !in Itoa(n) && ',' !in JoinNumbers(ws)
  {
    ItoaDigits(n);
    JoinAvoids(ws, ',');
  }

  /** Equal JA3 strings mean equal version, ciphers, extensions, curves and point formats. */
  lemma {:induction false} Ja3Injective(a: CH.Hello, b: CH.Hello)
    requires Ja3String(a) == Ja3String(b)
    ensures a == b
  {
    hide Itoa, JoinNumbers;
    NoComma(a.version, a.ciphers);
    NoComma(b.version, b.ciphers);
    NoComma(0, a.extensions);
    NoComma(0, b.extensions);
    NoComma(0, a.curves);
    NoComma(0, b.curves);
    var a4 := JoinNumbers(a.formats);
    var b4 := JoinNumbers(b.formats);
    var a3 := JoinNumbers(a.curves) + "," + a4;
    var b3 := JoinNumbers(b.curves) + "," + b4;
    var a2 := JoinNumbers(a.extensions) + "," + a3;
    var b2 := JoinNumbers(b.extensions) + "," + b3;
    var a1 := JoinNumbers(a.ciphers) + "," + a2;
    var b1 := JoinNumbers(b.ciphers) + "," + b2;
    SplitAtFirst(Itoa(a.version), a1, Itoa(b.version), b1, ',');
    SplitAtFirst(JoinNumbers(a.ciphers), a2, JoinNumbers(b.ciphers), b2, ',');
    SplitAtFirst(JoinNumbers(a.extensions), a3, JoinNumbers(b.extensions), b3, ',');
    SplitAtFirst(JoinNumbers(a.curves), a4, JoinNumbers(b.curves), b4, ',');
    ItoaInjective(a.version, b.version);
    JoinInjective(a.ciphers, b.ciphers);
    JoinInjective(a.extensions, b.extensions);
    JoinInjective(a.curves, b.curves);
    JoinInjective(a.formats, b.formats);
  }

  /** Equal JA3S strings mean equal version, cipher and extensions. */
  lemma {:induction false} Ja3sInjective(a: SH.Hello, b: SH.Hello)
    requires Ja3sString(a) == Ja3sString(b)
    ensures a == b
  {
    hide Itoa, JoinNumbers;
    NoComma(a.version, []);
    NoComma(b.version, []);
    NoComma(a.cipher, []);
    NoComma(b.cipher, []);
    var a1, b1 := JoinNumbers(a.extensions), JoinNumbers(b.extensions);
    SplitAtFirst(Itoa(a.version), Itoa(a.cipher) + "," + a1, Itoa(b.version), Itoa(b.cipher) + "," + b1, ',');
    SplitAtFirst(Itoa(a.cipher), a1, Itoa(b.cipher), b1, ',');
    ItoaInjective(a.version, b.version);
    ItoaInjective(a.cipher, b.cipher);
    JoinInjective(a.extensions, b.extensions);
  }

  /** The string has five fields between its commas. They are numerals and lists of numerals in base ten, and read in this
      order: version, ciphers, extensions, curves, point formats. */
  lemma {:induction false} Ja3Reads(h: CH.Hello)
    ensures var f := Fields(Ja3String(h), ',');
            && |f| == 5 && Numeral(f[0]) && Numerals(f[1]) && Numerals(f[2]) && Numerals(f[3]) && Numerals(f[4])
            && NumberOf(f[0]) == h.version && NumbersOf(f[1]) == h.ciphers && NumbersOf(f[2]) == h.extensions
            && NumbersOf(f[3]) == h.curves && NumbersOf(f[4]) == h.formats
  {
    hide Itoa, JoinNumbers, Numeral, Numerals, NumberOf, NumbersOf;
    NoComma(h.version, h.ciphers);
    NoComma(0, h.extensions);
    NoComma(0, h.curves);
    NoComma(0, h.formats);
    var f4 := JoinNumbers(h.formats);
    var f3 := JoinNumbers(h.curves) + "," + f4;
    var f2 := JoinNumbers(h.extensions) + "," + f3;
    var f1 := JoinNumbers(h.ciphers) + "," + f2;
    OnlyField(f4, ',');
    FirstField(JoinNumbers(h.curves), f4, ',');
    FirstField(JoinNumbers(h.extensions), f3, ',');
    FirstField(JoinNumbers(h.ciphers), f2, ',');
    FirstField(Itoa(h.version), f1, ',');
    hide Fields;
    ItoaReads(h.version);
    JoinReads(h.ciphers);
    JoinReads(h.extensions);
    JoinReads(h.curves);
    JoinReads(h.formats);
  }

  /** Likewise with three fields: version, cipher, extensions. */
  lemma {:induction false} Ja3sReads(h: SH.Hello)
    ensures var f := Fields(Ja3sString(h), ',');
            && |f| == 3 && Numeral(f[0]) && Numeral(f[1]) && Numerals(f[2])
            && NumberOf(f[0]) == h.version && NumberOf(f[1]) == h.cipher && NumbersOf(f[2]) == h.extensions
  {
    hide Itoa, JoinNumbers, Numeral, Numerals, NumberOf, NumbersOf;
    NoComma(h.version, h.extensions);
    NoComma(h.cipher, []);
    var f2 := JoinNumbers(h.extensions);
    OnlyField(f2, ',');
    FirstField(Itoa(h.cipher), f2, ',');
    FirstField(Itoa(h.version), Itoa(h.cipher) + "," + f2, ',');
    hide Fields;
    ItoaReads(h.version);
    ItoaReads(h.cipher);
    JoinReads(h.extensions);
  }

  /** What is hashed for a printed ClientHello, whatever follows it: a string whose five fields are the version and, without
      GREASE values, the ciphers, extension types, curves and point formats that were sent. */
  lemma {:induction false} FingerprintOfPrinted(h: CH.SentHello, more: seq<Byte>, md5: string -> string) returns (s: string)
    requires CH.WellSized(h)
    ensures Fingerprint(CH.PutRecord(h) + more, md5) == md5(s)
    ensures var f, es := Fields(s, ','), CH.SentExts(h);
            && |f| == 5 && NumberOf(f[0]) == h.version
            && NumbersOf(f[1]) == CH.NoGrease(h.ciphers) && NumbersOf(f[2]) == CH.NoGrease(CH.SentKinds(es))
            && NumbersOf(f[3]) == CH.NoGrease(CH.SentCurves(es)) && NumbersOf(f[4]) == CH.SentFormats(es)
  {
    hide CH.Parse, CH.WellSized, CH.PutRecord, Ja3String, Fields, NumberOf, NumbersOf, CH.NoGrease;
    CH.RoundTrip(h, more);
    Ja3Reads(CH.Meaning(h));
    s := Ja3String(CH.Meaning(h));
  }

  /** The JA3 fingerprint depends on the first record only. */
  lemma {:induction false} FingerprintIsStable(payload: seq<Byte>, more: seq<Byte>, md5: string -> string)
    requires CH.Record(payload).Some?
    ensures Fingerprint(payload + more, md5) == Fingerprint(payload, md5)
  {
    hide CH.HelloOf, Ja3String, At16, At24, CH.Record;
    CH.RecordIsStable(payload, more);
  }

  /** Inserting GREASE values changes no fingerprint. */
  lemma {:induction false} GreaseKeepsFingerprint(a: CH.SentHello, b: CH.SentHello, md5: string -> string)
    requires CH.WellSized(a) && CH.WellSized(b) && a.version == b.version && CH.NoGrease(a.ciphers) == CH.NoGrease(b.ciphers)
    requires CH.Visible(CH.SentExts(a)) == CH.Visible(CH.SentExts(b))
    ensures Fingerprint(CH.PutRecord(a), md5) == Fingerprint(CH.PutRecord(b), md5)
  {
    hide CH.Parse, Ja3String, CH.PutRecord, CH.Visible, CH.NoGrease;
    CH.GreaseIsInvisible(a, b, [], []);
    assert CH.PutRecord(a) + [] == CH.PutRecord(a) && CH.PutRecord(b) + [] == CH.PutRecord(b);
  }

  method ComputeJA3(h: CH.Hello) returns (s: string)
    ensures s == Ja3String(h)
  {
    var ciphers := Join(h.ciphers);
    var extensions := Join(h.extensions);
    var curves := Join(h.curves);
    var formats := Join(h.formats);
    s := Itoa(h.version) + "," + (ciphers + "," + (extensions + "," + (curves + "," + formats)));
  }

  method ComputeFingerprint(payload: seq<Byte>, md5: string -> string) returns (f: string)
    ensures f == Fingerprint(payload, md5)
  {
    hide CH.Parse, Ja3String;
    var h := ClientHelloCursor.ParseClientHello(payload);
    if h.None? {
      return "";
    }
    var s := ComputeJA3(h.value);
    f := md5(s);
  }

  method ComputeJA3S(h: SH.Hello) returns (s: string)
    ensures s == Ja3sString(h)
  {
    var extensions := Join(h.extensions);
    s := Itoa(h.version) + "," + (Itoa(h.cipher) + "," + extensions);
  }
}
