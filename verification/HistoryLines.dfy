/** The history file as bytes: newline-terminated lines, their byte offsets, and reading lines
    from an offset. */
module HistoryLines {
  import opened Wire

  type Line = seq<Byte>

  const NEWLINE: Byte := 10

  ghost predicate Clean(line: Line) {
    NEWLINE !in line
  }

  ghost predicate AllClean(lines: seq<Line>) {
    forall i :: 0 <= i < |lines| ==> Clean(lines[i])
  }

  /** The bytes of a file that holds `lines`. */
  ghost function Render(lines: seq<Line>): seq<Byte> {
    if lines == [] then [] else lines[0] + [NEWLINE] + Render(lines[1..])
  }

  /** The byte offset at which line `k` starts. */
  ghost function Offset(lines: seq<Line>, k: nat): nat
    requires k <= |lines|
  {
    if k == 0 then 0 else Offset(lines, k - 1) + |lines[k - 1]| + 1
  }

  /** The position of the first newline, or the length if there is none. */
  ghost function LineEnd(data: seq<Byte>): (n: nat)
    ensures n <= |data|
  {
    if data == [] || data[0] == NEWLINE then 0 else 1 + LineEnd(data[1..])
  }

  /** What is left after the first line and its newline. */
  ghost function AfterLine(data: seq<Byte>): seq<Byte> {
    if LineEnd(data) < |data| then data[LineEnd(data) + 1..] else []
  }

  /** The lines that a scanner reads from `data`. */
  ghost function SplitLines(data: seq<Byte>): seq<Line>
    decreases |data|
  {
    if data == [] then [] else [data[..LineEnd(data)]] + SplitLines(AfterLine(data))
  }

  /** Reads the first line of `data`. */
  method NextLine(data: seq<Byte>) returns (line: Line, rest: seq<Byte>)
    requires data != []
    ensures line == data[..LineEnd(data)] && rest == AfterLine(data)
  {
    var n := 0;
    while n < |data| && data[n] != NEWLINE
      invariant n <= |data| && LineEnd(data) == n + LineEnd(data[n..])
    {
      assert data[n..][1..] == data[n + 1..];
      n := n + 1;
    }
    line := data[..n];
    rest := if n < |data| then data[n + 1..] else [];
  }

  lemma {:induction false} LineEndAt(line: Line, rest: seq<Byte>)
    requires Clean(line)
    ensures LineEnd(line + [NEWLINE] + rest) == |line|
  {
    if line != [] {
      assert (line + [NEWLINE] + rest)[1..] == line[1..] + [NEWLINE] + rest;
      LineEndAt(line[1..], rest);
    }
  }

  /** Writing lines and scanning them gives the lines back. */
  lemma {:induction false} SplitRender(lines: seq<Line>)
    requires AllClean(lines)
    ensures SplitLines(Render(lines)) == lines
  {
    if lines != [] {
      var data := Render(lines);
      LineEndAt(lines[0], Render(lines[1..]));
      assert data[..|lines[0]|] == lines[0] && data[|lines[0]| + 1..] == Render(lines[1..]);
      SplitRender(lines[1..]);
    }
  }

  lemma {:induction false} RenderConcat(a: seq<Line>, b: seq<Line>)
    ensures Render(a + b) == Render(a) + Render(b)
  {
    if a == [] {
      assert a + b == b;
    } else {
      assert (a + b)[1..] == a[1..] + b;
      RenderConcat(a[1..], b);
    }
  }

  /** Offsets are the lengths of rendered prefixes. */
  lemma {:induction false} OffsetIsLength(lines: seq<Line>, k: nat)
    requires k <= |lines|
    ensures Offset(lines, k) == |Render(lines[..k])|
  {
    if k > 0 {
      OffsetIsLength(lines, k - 1);
      assert lines[..k] == lines[..k - 1] + [lines[k - 1]];
      RenderConcat(lines[..k - 1], [lines[k - 1]]);
      assert Render([lines[k - 1]]) == lines[k - 1] + [NEWLINE] + Render([]);
    }
  }

  /** Seeking to the offset of line `k` and scanning reads exactly the lines from `k` on. */
  lemma {:induction false} ReadFrom(lines: seq<Line>, k: nat)
    requires k <= |lines| && AllClean(lines)
    ensures Offset(lines, k) <= |Render(lines)|
    ensures SplitLines(Render(lines)[Offset(lines, k)..]) == lines[k..]
  {
    OffsetIsLength(lines, k);
    assert lines == lines[..k] + lines[k..];
    RenderConcat(lines[..k], lines[k..]);
    assert Render(lines)[Offset(lines, k)..] == Render(lines[k..]);
    SplitRender(lines[k..]);
  }

  lemma {:induction false} OffsetPrefix(a: seq<Line>, b: seq<Line>, k: nat)
    requires k <= |a|
    ensures Offset(a + b, k) == Offset(a, k)
  {
    if k > 0 {
      OffsetPrefix(a, b, k - 1);
    }
  }
}
