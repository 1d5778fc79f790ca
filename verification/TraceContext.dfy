/** W3C Trace Context headers as src/core/trace.cpp reads and writes them (section 3.2.2 of the
    W3C Trace Context recommendation, restricted to what the code accepts). */
module TraceContext {

  type byte = x: int | 0 <= x < 256

  predicate IsLowerHex(c: char) {
    '0' <= c <= '9' || 'a' <= c <= 'f'
  }

  predicate AllHex(s: string) {
    forall i | 0 <= i < |s| :: IsLowerHex(s[i])
  }

  predicate AllZero(s: string) {
    forall i | 0 <= i < |s| :: s[i] == '0'
  }

  datatype Context = Context(traceId: string, spanId: string, flags: string)

  const EMPTY := Context("", "", "")

  predicate Valid(c: Context) {
    && |c.traceId| == 32 && |c.spanId| == 16 && |c.flags| == 2
    && AllHex(c.traceId) && AllHex(c.spanId) && AllHex(c.flags)
    && !AllZero(c.traceId) && !AllZero(c.spanId)
  }

  function Parse(s: string): Context {
    if |s| != 55 then EMPTY
    else if s[2] != '-' || s[35] != '-' || s[52] != '-' then EMPTY
    else if !AllHex(s[0..2]) then EMPTY
    else
      var c := Context(s[3..35], s[36..52], s[53..55]);
      if !Valid(c) then EMPTY else c
  }

  function Print(c: Context): string {
    if !Valid(c) then "" else "00-" + c.traceId + "-" + c.spanId + "-" + c.flags
  }

  /** The accepted language, position by position: dashes at 2, 35 and 52, lower-case hex
      everywhere else (any version, "ff" included), and a nonzero digit in either id. */
  predicate Accepted(s: string) {
    && |s| == 55
    && (forall i | 0 <= i < 55 :: if i == 2 || i == 35 || i == 52 then s[i] == '-' else IsLowerHex(s[i]))
    && (exists i | 3 <= i < 35 :: s[i] != '0')
    && (exists i | 36 <= i < 52 :: s[i] != '0')
  }

  lemma SliceHex(s: string, lo: nat, hi: nat)
    requires lo <= hi <= |s|
    ensures AllHex(s[lo..hi]) <==> forall i | lo <= i < hi :: IsLowerHex(s[i])
    ensures AllZero(s[lo..hi]) <==> forall i | lo <= i < hi :: s[i] == '0'
  {
    forall i | lo <= i < hi
      ensures s[i] == s[lo..hi][i - lo]
    {
    }
    assert forall i | 0 <= i < hi - lo :: s[lo..hi][i] == s[i + lo];
  }

  /** Parsing yields a valid context exactly on the accepted language and the empty one on every
      other string. */
  lemma ParseAccepts(s: string)
    ensures Accepted(s) <==> Valid(Parse(s))
    ensures !Accepted(s) ==> Parse(s) == EMPTY
    ensures Accepted(s) ==> Parse(s) == Context(s[3..35], s[36..52], s[53..55])
  {
    if |s| == 55 {
      SliceHex(s, 0, 2);
      SliceHex(s, 3, 35);
      SliceHex(s, 36, 52);
      SliceHex(s, 53, 55);
    }
  }

  /** Only valid contexts are printed, and the printed form is parsed back. */
  lemma ParseOfPrint(c: Context)
    ensures !Valid(c) ==> Print(c) == ""
    ensures Valid(c) ==> |Print(c)| == 55 && Parse(Print(c)) == c
  {
    if Valid(c) {
      var s := Print(c);
      assert s[0..2] == "00";
      assert s[3..35] == c.traceId;
      assert s[36..52] == c.spanId;
      assert s[53..55] == c.flags;
    }
  }

  /** Printing what was parsed keeps everything but the version, which becomes "00". */
  lemma PrintOfParse(s: string)
    ensures Print(Parse(s)) == if Accepted(s) then "00" + s[2..] else ""
  {
    ParseAccepts(s);
    if Accepted(s) {
      Fields(s);
      assert s[2..3] == "-" && s[35..36] == "-" && s[52..53] == "-";
    }
  }

  lemma Fields(s: string)
    requires |s| == 55
    ensures s[2..] == s[2..3] + s[3..35] + s[35..36] + s[36..52] + s[52..53] + s[53..55]
  {
    assert s[2..35] == s[2..3] + s[3..35];
    assert s[2..36] == s[2..35] + s[35..36];
    assert s[2..52] == s[2..36] + s[36..52];
    assert s[2..53] == s[2..52] + s[52..53];
    assert s[2..] == s[2..53] + s[53..55];
  }

  // ----- Random identifiers -----

  const HEX: string := "0123456789abcdef"

  function HexText(data: seq<byte>): string {
    if data == [] then ""
    else
      var b := data[|data| - 1];
      HexText(data[..|data| - 1]) + [HEX[b / 16], HEX[b % 16]]
  }

  method BytesToLowerHex(data: seq<byte>) returns (out: array<char>)
    ensures fresh(out) && out[..] == HexText(data)
  {
    out := new char[|data| * 2];
    for i := 0 to |data|
      invariant out[..2 * i] == HexText(data[..i])
    {
      out[i * 2 + 0] := HEX[data[i] / 16];
      out[i * 2 + 1] := HEX[data[i] % 16];
      assert data[..i + 1][..i] == data[..i];
      assert out[..2 * (i + 1)] == out[..2 * i] + [HEX[data[i] / 16], HEX[data[i] % 16]];
    }
    assert data[..|data|] == data && out[..] == out[..2 * |data|];
  }

  function Digit(c: char): (d: nat)
    ensures d < 16
  {
    if '0' <= c <= '9' then (c - '0') as nat
    else if 'a' <= c <= 'f' then (c - 'a') as nat + 10
    else 0
  }

  function DigitPair(c: char, d: char): byte {
    Digit(c) * 16 + Digit(d)
  }

  /** Two characters to a byte; an odd one at the front is dropped. */
  function Unhex(s: string): seq<byte> {
    if |s| < 2 then [] else Unhex(s[..|s| - 2]) + [DigitPair(s[|s| - 2], s[|s| - 1])]
  }

  lemma HexDigit(n: nat)
    requires n < 16
    ensures Digit(HEX[n]) == n && IsLowerHex(HEX[n]) && (HEX[n] == '0' <==> n == 0)
  {
  }

  lemma HexDigits(b: byte)
    ensures DigitPair(HEX[b / 16], HEX[b % 16]) == b
    ensures IsLowerHex(HEX[b / 16]) && IsLowerHex(HEX[b % 16])
    ensures (HEX[b / 16] == '0' && HEX[b % 16] == '0') <==> b == 0
  {
    HexDigit(b / 16);
    HexDigit(b % 16);
  }

  lemma {:induction false} HexShape(data: seq<byte>)
    ensures |HexText(data)| == 2 * |data| && AllHex(HexText(data))
  {
    if data != [] {
      HexShape(data[..|data| - 1]);
      HexDigits(data[|data| - 1]);
    }
  }

  lemma UnhexSnoc(s: string, c: char, d: char)
    ensures Unhex(s + [c, d]) == Unhex(s) + [DigitPair(c, d)]
  {
    var t := s + [c, d];
    assert t[..|t| - 2] == s;
  }

  /** The text determines the bytes. */
  lemma {:induction false} HexRoundTrip(data: seq<byte>)
    ensures Unhex(HexText(data)) == data
  {
    if data != [] {
      var front, b := data[..|data| - 1], data[|data| - 1];
      HexRoundTrip(front);
      HexDigits(b);
      UnhexSnoc(HexText(front), HEX[b / 16], HEX[b % 16]);
      assert data == front + [b];
    }
  }

  lemma AllZeroSnoc(s: string, c: char, d: char)
    ensures AllZero(s + [c, d]) <==> AllZero(s) && c == '0' && d == '0'
  {
    var t := s + [c, d];
    assert t[|s|] == c && t[|s| + 1] == d;
    assert forall i | 0 <= i < |s| :: t[i] == s[i];
  }

  predicate ZeroBytes(data: seq<byte>) {
    forall i | 0 <= i < |data| :: data[i] == 0
  }

  /** Only zero bytes print as zeros. */
  lemma {:induction false} HexZero(data: seq<byte>)
    ensures AllZero(HexText(data)) <==> ZeroBytes(data)
  {
    if data != [] {
      var front, b := data[..|data| - 1], data[|data| - 1];
      HexZero(front);
      HexDigits(b);
      AllZeroSnoc(HexText(front), HEX[b / 16], HEX[b % 16]);
      assert data == front + [b];
    }
  }

  function NewRoot(trace: seq<byte>, span: seq<byte>): Context {
    Context(HexText(trace), HexText(span), "01")
  }

  lemma NewRootValid(trace: seq<byte>, span: seq<byte>)
    requires |trace| == 16 && |span| == 8
    ensures var c := NewRoot(trace, span);
      && (Valid(c) <==> !ZeroBytes(trace) && !ZeroBytes(span))
      && Unhex(c.traceId) == trace && Unhex(c.spanId) == span && c.flags == "01"
  {
    HexRoundTrip(trace);
    HexRoundTrip(span);
    HexShape(trace);
    HexShape(span);
    HexZero(trace);
    HexZero(span);
  }

  /** `trace'` and `span'` are the bytes of the fresh root used when no child can be made. */
  function NewChild(parent: Context, span: seq<byte>, trace': seq<byte>, span': seq<byte>): Context {
    var c := Context(parent.traceId, HexText(span), if parent.flags == "" then "01" else parent.flags);
    if !Valid(c) then NewRoot(trace', span') else c
  }

  /** A parent that a child can be made of: its own span does not matter, and its flags may be
      missing. */
  predicate CanHaveChild(parent: Context) {
    && |parent.traceId| == 32 && AllHex(parent.traceId) && !AllZero(parent.traceId)
    && (parent.flags == "" || (|parent.flags| == 2 && AllHex(parent.flags)))
  }

  /** For any parent at all: exactly when a child is made, and what it is; otherwise the result is
      the fresh root. */
  lemma ChildOfAnyParent(parent: Context, span: seq<byte>, trace': seq<byte>, span': seq<byte>)
    requires |span| == 8
    ensures var c := NewChild(parent, span, trace', span');
      if CanHaveChild(parent) && !ZeroBytes(span) then
        && Valid(c) && c.traceId == parent.traceId && Unhex(c.spanId) == span
        && c.flags == if parent.flags == "" then "01" else parent.flags
      else c == NewRoot(trace', span')
  {
    HexShape(span);
    HexRoundTrip(span);
    HexZero(span);
  }

  /** When a child is made it shares the trace and has its own span, equal to the parent's only
      if the random bytes spell it; a valid parent fails to have a child only for zero bytes. */
  lemma ChildOfValidParent(parent: Context, span: seq<byte>, trace': seq<byte>, span': seq<byte>)
    requires Valid(parent) && |span| == 8
    ensures var c := NewChild(parent, span, trace', span');
      if !ZeroBytes(span) then
        && Valid(c) && c.traceId == parent.traceId && c.flags == parent.flags
        && (c.spanId == parent.spanId <==> span == Unhex(parent.spanId))
      else c == NewRoot(trace', span')
  {
    HexShape(span);
    HexRoundTrip(span);
    HexZero(span);
    if Unhex(HexText(span)) == Unhex(parent.spanId) {
      UnhexInjective(HexText(span), parent.spanId);
    }
  }

  lemma DigitPairInjective(c: char, d: char, c': char, d': char)
    requires IsLowerHex(c) && IsLowerHex(d) && IsLowerHex(c') && IsLowerHex(d')
    requires DigitPair(c, d) == DigitPair(c', d')
    ensures c == c' && d == d'
  {
  }

  lemma {:induction false} UnhexInjective(s: string, t: string)
    requires |s| == |t| && |s| % 2 == 0 && AllHex(s) && AllHex(t)
    requires Unhex(s) == Unhex(t)
    ensures s == t
    decreases |s|
  {
    if s != "" {
      var n := |s|;
      var front, front' := s[..n - 2], t[..n - 2];
      var x, y := DigitPair(s[n - 2], s[n - 1]), DigitPair(t[n - 2], t[n - 1]);
      SnocInjective(Unhex(front), x, Unhex(front'), y);
      UnhexInjective(front, front');
      DigitPairInjective(s[n - 2], s[n - 1], t[n - 2], t[n - 1]);
      assert s == front + [s[n - 2], s[n - 1]] && t == front' + [t[n - 2], t[n - 1]];
    }
  }

  lemma SnocInjective(a: seq<byte>, x: byte, b: seq<byte>, y: byte)
    requires a + [x] == b + [y]
    ensures a == b && x == y
  {
    assert (a + [x])[..|a|] == a && (b + [y])[..|b|] == b;
    assert (a + [x])[|a|] == x && (b + [y])[|b|] == y;
  }
}
