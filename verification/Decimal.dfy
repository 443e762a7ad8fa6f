/** Decimal numerals and separated lists of them. */
module Decimal {
  import opened Sequences

  function Digit(d: nat): char
    requires d < 10
  {
    "0123456789"[d]
  }

  /** The decimal numeral of `n`. */
  function Itoa(n: nat): (s: string)
    ensures s != []
  {
    if n < 10 then [Digit(n)] else Itoa(n / 10) + [Digit(n % 10)]
  }

  ghost predicate Digits(s: string) {
    forall i :: 0 <= i < |s| ==> '0' <= s[i] <= '9'
  }

  lemma {:induction false} ItoaDigits(n: nat)
    ensures Digits(Itoa(n))
  {
    if n >= 10 {
      ItoaDigits(n / 10);
    }
  }

  lemma {:induction false} DigitInjective(a: nat, b: nat)
    requires a < 10 && b < 10 && Digit(a) == Digit(b)
    ensures a == b
  {
  }

  /** Different numbers have different numerals. */
  lemma {:induction false} ItoaInjective(a: nat, b: nat)
    requires Itoa(a) == Itoa(b)
    ensures a == b
  {
    var s := Itoa(a);
    var last := s[|s| - 1];
    assert last == Digit(a % 10) && last == Digit(b % 10);
    DigitInjective(a % 10, b % 10);
    if a >= 10 && b >= 10 {
      assert Itoa(a / 10) == s[..|s| - 1] && Itoa(b / 10) == s[..|s| - 1];
      ItoaInjective(a / 10, b / 10);
    }
  }

  /** The numerals of `ns`, separated by dashes; nothing for the empty list. */
  ghost function JoinNumbers(ns: seq<nat>): string {
    if ns == [] then ""
    else if |ns| == 1 then Itoa(ns[0])
    else Itoa(ns[0]) + "-" + JoinNumbers(ns[1..])
  }

  lemma {:induction false} JoinAvoids(ns: seq<nat>, c: char)
    requires !('0' <= c <= '9') && c != '-'
    ensures c !in JoinNumbers(ns)
  {
    if ns != [] {
      ItoaDigits(ns[0]);
      JoinAvoids(ns[1..], c);
    }
  }

  lemma {:induction false} DashIff(ns: seq<nat>)
    requires ns != []
    ensures '-' in JoinNumbers(ns) <==> |ns| >= 2
  {
    ItoaDigits(ns[0]);
    if |ns| >= 2 {
      assert JoinNumbers(ns)[|Itoa(ns[0])|] == '-';
    }
  }

  /** Different lists of numbers join to different strings, the empty list included. */
  lemma {:induction false} JoinInjective(a: seq<nat>, b: seq<nat>)
    requires JoinNumbers(a) == JoinNumbers(b)
    ensures a == b
  {
    if a != [] && b != [] {
      DashIff(a);
      DashIff(b);
      if |a| == 1 {
        ItoaInjective(a[0], b[0]);
      } else {
        ItoaDigits(a[0]);
        ItoaDigits(b[0]);
        SplitAtFirst(Itoa(a[0]), JoinNumbers(a[1..]), Itoa(b[0]), JoinNumbers(b[1..]), '-');
        ItoaInjective(a[0], b[0]);
        JoinInjective(a[1..], b[1..]);
        assert a == [a[0]] + a[1..] && b == [b[0]] + b[1..];
      }
    }
  }

  // ----- reading back

  /** What a string of digits means, by the codes of its characters. */
  ghost function NumberOf(s: string): int {
    if s == "" then 0 else 10 * NumberOf(s[..|s| - 1]) + (s[|s| - 1] as int - '0' as int)
  }

  /** A nonempty string of digits without a leading zero. */
  ghost predicate Numeral(s: string) {
    s != "" && (forall i :: 0 <= i < |s| ==> '0' <= s[i] <= '9') && (|s| > 1 ==> s[0] != '0')
  }

  lemma {:induction false} ItoaReads(n: nat)
    ensures Numeral(Itoa(n)) && NumberOf(Itoa(n)) == n && (n > 0 ==> Itoa(n)[0] != '0')
  {
    if n >= 10 {
      ItoaReads(n / 10);
      assert Itoa(n)[..|Itoa(n)| - 1] == Itoa(n / 10);
    } else {
      assert Itoa(n)[..0] == "" && NumberOf("") == 0;
    }
  }

  /** The numbers of a list that is separated by dashes; the empty string is the empty list. */
  ghost function NumbersOf(s: string): seq<int> {
    if s == "" then [] else var fields := Fields(s, '-'); seq(|fields|, i requires 0 <= i < |fields| => NumberOf(fields[i]))
  }

  /** All parts of a list are numerals. */
  ghost predicate Numerals(s: string) {
    s == "" || forall i :: 0 <= i < |Fields(s, '-')| ==> Numeral(Fields(s, '-')[i])
  }

  lemma {:induction false} JoinFields(ns: seq<nat>)
    requires ns != []
    ensures var fields := Fields(JoinNumbers(ns), '-');
            |fields| == |ns| && forall i :: 0 <= i < |ns| ==> fields[i] == Itoa(ns[i])
  {
    hide Itoa;
    ItoaDigits(ns[0]);
    if |ns| == 1 {
      OnlyField(Itoa(ns[0]), '-');
    } else {
      JoinFields(ns[1..]);
      FirstField(Itoa(ns[0]), JoinNumbers(ns[1..]), '-');
    }
  }

  /** A joined list reads back as numerals of its numbers, in their order. */
  lemma {:induction false} JoinReads(ns: seq<nat>)
    ensures var s := JoinNumbers(ns); Numerals(s) && NumbersOf(s) == ns
  {
    if ns != [] {
      JoinFields(ns);
      ItoaReads(ns[0]);
      assert JoinNumbers(ns) != "";
      forall i | 0 <= i < |ns|
        ensures Numeral(Itoa(ns[i])) && NumberOf(Itoa(ns[i])) == ns[i]
      {
        ItoaReads(ns[i]);
      }
      hide Itoa, NumberOf, Numeral, JoinNumbers, Fields;
    }
  }

  /** fmt.Sprintf("%d") of every value, then strings.Join with dashes. */
  method Join(ns: seq<nat>) returns (s: string)
    ensures s == JoinNumbers(ns)
  {
    if |ns| == 0 {
      return "";
    }
    var parts := new string[|ns|](_ => "");
    for i := 0 to |ns|
      invariant forall j :: 0 <= j < i ==> parts[j] == Itoa(ns[j])
    {
      parts[i] := Itoa(ns[i]);
    }
    var k := |ns| - 1;
    s := parts[k];
    while k > 0
      invariant 0 <= k < |ns| && s == JoinNumbers(ns[k..])
    {
      k := k - 1;
      assert ns[k..][1..] == ns[k + 1..];
      s := parts[k] + "-" + s;
    }
    assert ns[0..] == ns;
  }
}
