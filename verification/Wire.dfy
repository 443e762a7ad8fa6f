/** Bytes, big-endian numbers and length-prefixed vectors, with their printers. */
module Wire {
  import opened Sequences
  import opened Wrappers

  type Byte = x: int | 0 <= x < 256
  type Word = x: int | 0 <= x < 0x1_0000

  function At16(s: seq<Byte>, i: nat): (n: nat)
    requires i + 2 <= |s|
    ensures n < 0x1_0000
  {
    (s[i] as int) * 256 + s[i + 1]
  }

  function At24(s: seq<Byte>, i: nat): nat
    requires i + 3 <= |s|
  {
    (s[i] as int) * 0x1_0000 + (s[i + 1] as int) * 256 + s[i + 2]
  }

  function At32(s: seq<Byte>, i: nat): nat
    requires i + 4 <= |s|
  {
    (s[i] as int) * 0x100_0000 + (s[i + 1] as int) * 0x1_0000 + (s[i + 2] as int) * 256 + s[i + 3]
  }

  ghost function Print16(n: nat): seq<Byte>
    requires n < 0x1_0000
  {
    [n / 256, n % 256]
  }

  ghost function Print24(n: nat): seq<Byte>
    requires n < 0x100_0000
  {
    [n / 0x1_0000, n / 256 % 256, n % 256]
  }

  ghost function Print32(n: nat): seq<Byte>
    requires n < 0x1_0000_0000
  {
    [n / 0x100_0000, n / 0x1_0000 % 256, n / 256 % 256, n % 256]
  }

  /** A vector and what follows it. */
  datatype Split = Split(vector: seq<Byte>, rest: seq<Byte>)

  /** Reads a vector that is prefixed with its length in one, two or four bytes. */
  ghost function Vec8(s: seq<Byte>): Option<Split> {
    if |s| < 1 || 1 + s[0] > |s| then None else Some(Split(s[1..1 + s[0]], s[1 + s[0]..]))
  }

  ghost function Vec16(s: seq<Byte>): Option<Split> {
    if |s| < 2 || 2 + At16(s, 0) > |s| then None else Some(Split(s[2..2 + At16(s, 0)], s[2 + At16(s, 0)..]))
  }

  ghost function Vec32(s: seq<Byte>): Option<Split> {
    if |s| < 4 || 4 + At32(s, 0) > |s| then None else Some(Split(s[4..4 + At32(s, 0)], s[4 + At32(s, 0)..]))
  }

  ghost function Put8(v: seq<Byte>): seq<Byte>
    requires |v| < 256
  {
    [|v|] + v
  }

  ghost function Put16(v: seq<Byte>): seq<Byte>
    requires |v| < 0x1_0000
  {
    Print16(|v|) + v
  }

  ghost function Put32(v: seq<Byte>): seq<Byte>
    requires |v| < 0x1_0000_0000
  {
    Print32(|v|) + v
  }

  lemma {:induction false} Print16At(n: nat, rest: seq<Byte>)
    requires n < 0x1_0000
    ensures At16(Print16(n) + rest, 0) == n && (Print16(n) + rest)[2..] == rest
  {
  }

  lemma {:induction false} Print24At(n: nat)
    requires n < 0x100_0000
    ensures At24(Print24(n), 0) == n
  {
  }

  /** Two numbers printed in a row, and what follows them. */
  lemma {:induction false} HeaderRoundTrip(a: nat, b: nat, rest: seq<Byte>)
    requires a < 0x1_0000 && b < 0x1_0000
    ensures var s := Print16(a) + Print16(b) + rest; |s| == 4 + |rest| && At16(s, 0) == a && At16(s, 2) == b && s[4..] == rest
  {
  }

  /** A three-byte number printed at position 1, after a type byte. */
  lemma {:induction false} Print24After(kind: Byte, n: nat, rest: seq<Byte>)
    requires n < 0x100_0000
    ensures var s := [kind] + Print24(n) + rest; At24(s, 1) == n && s[4..] == rest
  {
    Print24At(n);
  }

  lemma {:induction false} Print32At(n: nat)
    requires n < 0x1_0000_0000
    ensures At32(Print32(n), 0) == n
  {
    var q1 := n / 256;
    var q2 := q1 / 256;
    var q3 := q2 / 256;
    assert q2 == n / 0x1_0000;
    assert q3 == n / 0x100_0000;
    assert n == q1 * 256 + n % 256 && q1 == q2 * 256 + q1 % 256 && q2 == q3 * 256 + q2 % 256;
  }

  /** Reading back a printed vector gives the vector and whatever was printed after it. */
  lemma {:induction false} Vec8RoundTrip(v: seq<Byte>, rest: seq<Byte>)
    requires |v| < 256
    ensures Vec8(Put8(v) + rest) == Some(Split(v, rest))
  {
    var s := Put8(v) + rest;
    assert s[1..1 + |v|] == v && s[1 + |v|..] == rest;
  }

  lemma {:induction false} Vec16RoundTrip(v: seq<Byte>, rest: seq<Byte>)
    requires |v| < 0x1_0000
    ensures Vec16(Put16(v) + rest) == Some(Split(v, rest))
  {
    var s := Put16(v) + rest;
    assert s[0] == |v| / 256 && s[1] == |v| % 256;
    assert s[2..2 + |v|] == v && s[2 + |v|..] == rest;
  }

  lemma {:induction false} Vec32RoundTrip(v: seq<Byte>, rest: seq<Byte>)
    requires |v| < 0x1_0000_0000
    ensures Vec32(Put32(v) + rest) == Some(Split(v, rest))
  {
    var s, n := Put32(v) + rest, |v|;
    Print32At(n);
    assert s[0] == Print32(n)[0] && s[1] == Print32(n)[1] && s[2] == Print32(n)[2] && s[3] == Print32(n)[3];
    assert s[4..4 + n] == v && s[4 + n..] == rest;
  }

  /** The vectors that start at position `p`. */
  lemma {:induction false} Vec16At(s: seq<Byte>, p: nat)
    requires p <= |s|
    ensures Vec16(s[p..]) == if p + 2 > |s| || p + 2 + At16(s, p) > |s| then None
                             else Some(Split(s[p + 2..p + 2 + At16(s, p)], s[p + 2 + At16(s, p)..]))
  {
    if p + 2 <= |s| && p + 2 + At16(s, p) <= |s| {
      SliceOfDrop(s, p, 2, 2 + At16(s, p));
    }
  }

  lemma {:induction false} Vec32At(s: seq<Byte>, p: nat)
    requires p <= |s|
    ensures Vec32(s[p..]) == if p + 4 > |s| || p + 4 + At32(s, p) > |s| then None
                             else Some(Split(s[p + 4..p + 4 + At32(s, p)], s[p + 4 + At32(s, p)..]))
  {
    if p + 4 <= |s| && p + 4 + At32(s, p) <= |s| {
      SliceOfDrop(s, p, 4, 4 + At32(s, p));
    }
  }

  lemma {:induction false} Vec8At(s: seq<Byte>, p: nat)
    requires p <= |s|
    ensures Vec8(s[p..]) == if p + 1 > |s| || p + 1 + s[p] > |s| then None
                            else Some(Split(s[p + 1..p + 1 + s[p]], s[p + 1 + s[p]..]))
  {
    if p + 1 <= |s| && p + 1 + s[p] <= |s| {
      SliceOfDrop(s, p, 1, s[p] as nat + 1);
    }
  }

  /** The two-byte numbers of a byte string; an odd last byte is ignored. */
  ghost function Words(s: seq<Byte>): seq<Word> {
    if |s| < 2 then [] else [At16(s, 0)] + Words(s[2..])
  }

  ghost function PutWords(ws: seq<Word>): (s: seq<Byte>)
    ensures |s| == 2 * |ws|
  {
    if ws == [] then [] else Print16(ws[0]) + PutWords(ws[1..])
  }

  lemma {:induction false} WordsRoundTrip(ws: seq<Word>)
    ensures Words(PutWords(ws)) == ws
  {
    if ws != [] {
      Print16At(ws[0], PutWords(ws[1..]));
      WordsRoundTrip(ws[1..]);
    }
  }

  lemma {:induction false} WordsSnoc(s: seq<Byte>, hi: Byte, lo: Byte)
    requires |s| % 2 == 0
    ensures Words(s + [hi, lo]) == Words(s) + [At16([hi, lo], 0)]
  {
    var t := s + [hi, lo];
    if s == [] {
      assert t == [hi, lo] && Words([]) == [];
    } else {
      assert t[2..] == s[2..] + [hi, lo];
      WordsSnoc(s[2..], hi, lo);
    }
  }
}
