/** The wire framing of the protocol: a payload of N bytes is preceded by N written
    as six lower-case, zero-padded hexadecimal digits (send_message), and the
    receiving side reassembles payloads from arbitrarily split input
    (socket_data_handler, setup_read, header_complete_callback,
    data_complete_callback). This module holds the pure definitions; the
    in-place reader is the class in module FrameReader. */
module Framing {
  import opened Wrappers

  newtype Byte = b: int | 0 <= b < 256

  // ---------------------------------------------------------------------------
  // UTF-8 (what Buffer.from / Buffer.byteLength / socket.write do to a string)

  function EncodeChar(c: char): (r: seq<Byte>)
    ensures 1 <= |r| <= 4
    ensures |r| == 1 <==> c as int < 0x80
  {
    var v := c as int;
    if v < 0x80 then [v as Byte]
    else if v < 0x800 then [(0xC0 + v / 0x40) as Byte, (0x80 + v % 0x40) as Byte]
    else if v < 0x10000 then
      [(0xE0 + v / 0x1000) as Byte, (0x80 + (v / 0x40) % 0x40) as Byte, (0x80 + v % 0x40) as Byte]
    else
      [(0xF0 + v / 0x40000) as Byte, (0x80 + (v / 0x1000) % 0x40) as Byte,
       (0x80 + (v / 0x40) % 0x40) as Byte, (0x80 + v % 0x40) as Byte]
  }

  function Utf8(s: string): seq<Byte> {
    if |s| == 0 then [] else EncodeChar(s[0]) + Utf8(s[1..])
  }

  /** The byte length counts bytes, not characters: it equals the character count
      exactly when every character is ASCII. */
  lemma {:induction false} ByteLengthAtLeastLength(s: string)
    ensures |Utf8(s)| >= |s|
    ensures |Utf8(s)| == |s| <==> forall i :: 0 <= i < |s| ==> s[i] as int < 0x80
  {
    if |s| > 0 {
      ByteLengthAtLeastLength(s[1..]);
      assert forall i :: 1 <= i < |s| ==> s[i] == s[1..][i - 1];
    }
  }

  // ---------------------------------------------------------------------------
  // Hexadecimal length header

  function Pow16(k: nat): (p: nat)
    ensures p >= 1
  {
    if k == 0 then 1 else 16 * Pow16(k - 1)
  }

  /** '0'..'9' and 'a'..'f', the digits that `toString(16)` writes. */
  predicate IsLowerHex(b: Byte) {
    48 <= b <= 57 || 97 <= b <= 102
  }

  /** Digits that `parseInt(_, 16)` accepts. */
  predicate IsHex(b: Byte) {
    48 <= b <= 57 || 97 <= b <= 102 || 65 <= b <= 70
  }

  predicate AllHex(s: seq<Byte>) {
    forall i :: 0 <= i < |s| ==> IsHex(s[i])
  }

  function HexDigit(d: nat): (b: Byte)
    requires d < 16
    ensures IsLowerHex(b)
  {
    if d < 10 then (48 + d) as Byte else (87 + d) as Byte
  }

  function HexDigitValue(b: Byte): (d: nat)
    requires IsHex(b)
    ensures d < 16
  {
    if b <= 57 then (b - 48) as nat else if b >= 97 then (b - 87) as nat else (b - 55) as nat
  }

  /** `n.toString(16)`: the shortest lower-case hexadecimal form. */
  function HexDigits(n: nat): (r: seq<Byte>)
    ensures |r| >= 1
    ensures forall i :: 0 <= i < |r| ==> IsLowerHex(r[i])
  {
    if n < 16 then [HexDigit(n)] else HexDigits(n / 16) + [HexDigit(n % 16)]
  }

  /** Value of a run of hexadecimal digits, read left to right. */
  function HexValue(s: seq<Byte>): nat
    requires AllHex(s)
  {
    if |s| == 0 then 0 else HexValue(s[..|s| - 1]) * 16 + HexDigitValue(s[|s| - 1])
  }

  /** Length of the leading run of hexadecimal digits. */
  function HexRun(s: seq<Byte>): (k: nat)
    ensures k <= |s| && AllHex(s[..k])
    ensures AllHex(s) ==> k == |s|
    ensures k < |s| ==> !IsHex(s[k])
  {
    if |s| == 0 || !IsHex(s[0]) then 0
    else
      var k := 1 + HexRun(s[1..]);
      assert s[..k] == [s[0]] + s[1..][..k - 1];
      assert k < |s| ==> s[k] == s[1..][k - 1];
      assert AllHex(s) ==> AllHex(s[1..]) by {
        if AllHex(s) {
          forall i | 0 <= i < |s[1..]| ensures IsHex(s[1..][i]) {
            assert s[1..][i] == s[i + 1];
          }
        }
      }
      k
  }

  /** `parseInt(header, 16)`: the value of the leading hexadecimal digits; None
      (NaN) when the header does not start with one. */
  function ParseHeader(h: seq<Byte>): (r: Option<nat>)
    ensures r.Some? <==> |h| > 0 && IsHex(h[0])
  {
    var k := HexRun(h);
    if k == 0 then None else Some(HexValue(h[..k]))
  }

  function Zeros(k: nat): (r: seq<Byte>)
    ensures |r| == k
    ensures forall i :: 0 <= i < k ==> r[i] == 48
  {
    seq(k, i => 48 as Byte)
  }

  lemma {:induction false} HexDigitsShort(n: nat, k: nat)
    requires k >= 1 && n < Pow16(k)
    ensures |HexDigits(n)| <= k
  {
    if n >= 16 {
      assert n / 16 < Pow16(k - 1);
      HexDigitsShort(n / 16, k - 1);
    }
  }

  lemma {:induction false} HexValueOfDigits(n: nat)
    ensures AllHex(HexDigits(n)) && HexValue(HexDigits(n)) == n
  {
    if n >= 16 {
      HexValueOfDigits(n / 16);
      var d := HexDigits(n);
      assert d[..|d| - 1] == HexDigits(n / 16);
    }
  }

  lemma {:induction false} HexValueZerosPrefix(k: nat, d: seq<Byte>)
    requires AllHex(d)
    ensures AllHex(Zeros(k) + d) && HexValue(Zeros(k) + d) == HexValue(d)
    decreases |d|, k
  {
    var s := Zeros(k) + d;
    if |d| > 0 {
      assert s[..|s| - 1] == Zeros(k) + d[..|d| - 1];
      HexValueZerosPrefix(k, d[..|d| - 1]);
    } else if k > 0 {
      assert s[..|s| - 1] == Zeros(k - 1) + d;
      HexValueZerosPrefix(k - 1, d);
    }
  }

  /** send_message's `len_str`: the hexadecimal byte count left-padded with zeros to
      six digits. A seven-digit count is written unpadded (`Array(0)`), and a longer
      one makes `Array` throw a RangeError, modelled as None. Every length below
      16^6 gives six lower-case digits that read back as that length. A
      seven-digit header is the bare digits, and a reader that takes six bytes
      reads the length divided by 16. */
  function Header(n: nat): (r: Option<seq<Byte>>)
    ensures r.Some? <==> |HexDigits(n)| <= 7
    ensures n < Pow16(6) ==> r.Some? && |r.value| == 6 && ParseHeader(r.value) == Some(n)
    ensures |HexDigits(n)| == 7 ==> r == Some(HexDigits(n)) && ParseHeader(r.value[..6]) == Some(n / 16)
    ensures r.Some? ==> forall i :: 0 <= i < |r.value| ==> IsLowerHex(r.value[i])
  {
    var d := HexDigits(n);
    if |d| <= 6 then
      var h := Zeros(6 - |d|) + d;
      HexValueOfDigits(n);
      HexValueZerosPrefix(6 - |d|, d);
      assert HexRun(h) == 6 && h[..6] == h;
      Some(h)
    else if |d| == 7 then
      assert n >= Pow16(6) by {
        if n < Pow16(6) { HexDigitsShort(n, 6); }
      }
      var p := HexDigits(n / 16);
      assert d[..6] == p;
      HexValueOfDigits(n / 16);
      assert HexRun(p) == 6 && p[..6] == p;
      Some(d)
    else
      assert n >= Pow16(6) by {
        if n < Pow16(6) { HexDigitsShort(n, 6); }
      }
      None
  }

  /** The bytes send_message writes for a payload: header then payload. */
  function Frame(payload: seq<Byte>): (r: Option<seq<Byte>>)
    ensures |payload| < Pow16(6) ==> r.Some? && |r.value| == 6 + |payload|
    ensures r.Some? ==> exists h :: Header(|payload|) == Some(h) && r.value == h + payload
  {
    match Header(|payload|)
    case None => None
    case Some(h) => Some(h + payload)
  }

  /** For a payload shorter than 16^6 bytes, the first six bytes are lower-case
      hexadecimal digits giving the payload length, and the payload follows. */
  lemma FrameLayout(payload: seq<Byte>)
    requires |payload| < Pow16(6)
    ensures var f := Frame(payload).value;
      && |f| == 6 + |payload|
      && f[6..] == payload
      && (forall i :: 0 <= i < 6 ==> IsLowerHex(f[i]))
      && ParseHeader(f[..6]) == Some(|payload|)
  {
    var h := Header(|payload|).value;
    var f := Frame(payload).value;
    assert f == h + payload;
    assert f[..6] == h && f[6..] == payload;
  }

  // ---------------------------------------------------------------------------
  // Reassembly

  /** What the reader does once the awaited unit is complete
      (`buffer_complete_callback`). */
  datatype Awaiting = AwaitHeader | AwaitBody

  /** The reader's state: what it awaits, the size of that unit (the buffer's
      length) and the bytes of it received so far (`len_remaining` is
      `size - |got|`). */
  datatype ReadState = ReadState(awaiting: Awaiting, size: nat, got: seq<Byte>)

  predicate WellFormed(st: ReadState) {
    |st.got| <= st.size
  }

  /** The state set up by the constructor and after every body (`setup_read(6, ...)`). */
  const Initial: ReadState := ReadState(AwaitHeader, 6, [])

  /** The bodies handed to the message handler, the state left behind, and whether
      the input was consumed without a header that fails to parse. */
  datatype RunResult = RunResult(out: seq<seq<Byte>>, state: ReadState, ok: bool)

  function Min(a: nat, b: nat): nat {
    if a <= b then a else b
  }

  /** 0 while the unit is incomplete; a complete unit still to be handed on counts
      1 for a body and 2 for a header (a header can lead to an empty body). */
  function Phase(st: ReadState): nat {
    if |st.got| < st.size then 0 else if st.awaiting == AwaitBody then 1 else 2
  }

  /** One pass of socket_data_handler over `input`: copy as many bytes as the unit
      still needs, then let Continue act on a completed unit. */
  function Run(st: ReadState, input: seq<Byte>): (r: RunResult)
    requires WellFormed(st)
    ensures WellFormed(r.state)
    decreases |input|, Phase(st), 1
  {
    if |input| == 0 then RunResult([], st, true)
    else
      var k := Min(st.size - |st.got|, |input|);
      Continue(ReadState(st.awaiting, st.size, st.got + input[..k]), input[k..])
  }

  /** The `len_remaining == 0` test: a complete header is parsed and a body of that
      length awaited; a complete body is handed on and a fresh header awaited; an
      incomplete unit means the input is used up. */
  function Continue(st: ReadState, rest: seq<Byte>): (r: RunResult)
    requires WellFormed(st)
    requires |st.got| < st.size ==> rest == []
    ensures WellFormed(r.state)
    decreases |rest|, Phase(st), 0
  {
    if |st.got| < st.size then RunResult([], st, true)
    else match st.awaiting
      case AwaitHeader =>
        (match ParseHeader(st.got)
         case None => RunResult([], st, false)
         case Some(len) => Run(ReadState(AwaitBody, len, []), rest))
      case AwaitBody =>
        var r := Run(Initial, rest);
        RunResult([st.got] + r.out, r.state, r.ok)
  }

  /** Running on `b` after a first result. */
  function Then(r1: RunResult, b: seq<Byte>): RunResult
    requires WellFormed(r1.state)
  {
    var r2 := Run(r1.state, b);
    RunResult(r1.out + r2.out, r2.state, r1.ok && r2.ok)
  }

  /** A header that does not parse leaves the reader stuck on it. */
  lemma StuckStays(st: ReadState, b: seq<Byte>)
    requires st.awaiting == AwaitHeader && |st.got| == st.size && ParseHeader(st.got).None?
    ensures Run(st, b).out == [] && Run(st, b).state == st
  {
    if |b| > 0 {
      assert st.got + b[..0] == st.got;
    }
  }

  /** Where the input is split does not matter. */
  lemma {:induction false} RunAppend(st: ReadState, a: seq<Byte>, b: seq<Byte>)
    requires WellFormed(st)
    ensures Run(st, a + b) == Then(Run(st, a), b)
    decreases |a|, Phase(st), 1
  {
    if |a| == 0 {
      assert a + b == b;
    } else {
      var rem := st.size - |st.got|;
      var k := Min(rem, |a + b|);
      if rem <= |a| {
        assert (a + b)[..k] == a[..k];
        assert (a + b)[k..] == a[k..] + b;
        ContinueAppend(ReadState(st.awaiting, st.size, st.got + a[..k]), a[k..], b);
      } else {
        var st1 := ReadState(st.awaiting, st.size, st.got + a);
        assert a[..|a|] == a && a[|a|..] == [];
        assert Run(st, a) == RunResult([], st1, true);
        if |b| == 0 {
          assert a + b == a;
        } else {
          var kb := Min(rem - |a|, |b|);
          assert k == |a| + kb;
          assert st.got + (a + b)[..k] == st1.got + b[..kb];
          assert (a + b)[k..] == b[kb..];
        }
      }
    }
  }

  lemma {:induction false} ContinueAppend(st: ReadState, rest: seq<Byte>, b: seq<Byte>)
    requires WellFormed(st) && |st.got| == st.size
    ensures Continue(st, rest + b) == Then(Continue(st, rest), b)
    decreases |rest|, Phase(st), 0
  {
    match st.awaiting {
      case AwaitHeader =>
        match ParseHeader(st.got) {
          case None =>
            StuckStays(st, b);
          case Some(len) =>
            RunAppend(ReadState(AwaitBody, len, []), rest, b);
        }
      case AwaitBody =>
        RunAppend(Initial, rest, b);
    }
  }

  /** Feeding the input chunk by chunk, one socket_data_handler call each. */
  function RunChunks(st: ReadState, chunks: seq<seq<Byte>>): (r: RunResult)
    requires WellFormed(st)
    ensures WellFormed(r.state)
    decreases |chunks|
  {
    if |chunks| == 0 then RunResult([], st, true)
    else
      var r1 := Run(st, chunks[0]);
      var r2 := RunChunks(r1.state, chunks[1..]);
      RunResult(r1.out + r2.out, r2.state, r1.ok && r2.ok)
  }

  function Flatten(chunks: seq<seq<Byte>>): seq<Byte> {
    if |chunks| == 0 then [] else chunks[0] + Flatten(chunks[1..])
  }

  /** Any chunking of the input gives the same result as a single call. */
  lemma {:induction false} ChunkingIrrelevant(st: ReadState, chunks: seq<seq<Byte>>)
    requires WellFormed(st)
    ensures RunChunks(st, chunks) == Run(st, Flatten(chunks))
    decreases |chunks|
  {
    if |chunks| > 0 {
      RunAppend(st, chunks[0], Flatten(chunks[1..]));
      ChunkingIrrelevant(Run(st, chunks[0]).state, chunks[1..]);
    }
  }

  predicate Sendable(p: seq<Byte>) {
    0 < |p| < Pow16(6)
  }

  /** The bytes of several frames sent one after another. */
  function Wire(ps: seq<seq<Byte>>): seq<Byte>
    requires forall i :: 0 <= i < |ps| ==> Sendable(ps[i])
  {
    if |ps| == 0 then []
    else
      assert Sendable(ps[0]);
      assert forall i :: 0 <= i < |ps[1..]| ==> ps[1..][i] == ps[i + 1];
      Frame(ps[0]).value + Wire(ps[1..])
  }

  /** One non-empty frame, delivered to a fresh reader, yields its payload and
      leaves the reader awaiting the next header. */
  lemma OneFrame(p: seq<Byte>)
    requires Sendable(p)
    ensures Run(Initial, Frame(p).value) == RunResult([p], Initial, true)
  {
    FrameLayout(p);
    var f := Frame(p).value;
    assert Initial.got + f[..6] == f[..6];
    var body := ReadState(AwaitBody, |p|, []);
    var done := ReadState(AwaitBody, |p|, p);
    assert body.got + p[..|p|] == p && p[|p|..] == [];
    assert Run(body, p) == Continue(done, []);
    assert Continue(done, []) == RunResult([p] + Run(Initial, []).out, Initial, true);
  }

  /** Framing round trip: the frames of non-empty payloads read back as exactly
      those payloads, in order, and the reader ends awaiting a header. */
  lemma {:induction false} WireRoundTrip(ps: seq<seq<Byte>>)
    requires forall i :: 0 <= i < |ps| ==> Sendable(ps[i])
    ensures Run(Initial, Wire(ps)) == RunResult(ps, Initial, true)
  {
    if |ps| > 0 {
      RunAppend(Initial, Frame(ps[0]).value, Wire(ps[1..]));
      OneFrame(ps[0]);
      WireRoundTrip(ps[1..]);
      assert [ps[0]] + ps[1..] == ps;
    }
  }

  /** The same holds however the bytes are split into socket reads. */
  lemma ChunkedRoundTrip(ps: seq<seq<Byte>>, chunks: seq<seq<Byte>>)
    requires forall i :: 0 <= i < |ps| ==> Sendable(ps[i])
    requires Flatten(chunks) == Wire(ps)
    ensures RunChunks(Initial, chunks) == RunResult(ps, Initial, true)
  {
    ChunkingIrrelevant(Initial, chunks);
    WireRoundTrip(ps);
  }

  /** No partial body is ever handed on: whatever prefix of the frames has arrived,
      the bodies emitted so far are a prefix of the payloads. */
  lemma PartialDeliveryEmitsPrefix(ps: seq<seq<Byte>>, j: nat)
    requires forall i :: 0 <= i < |ps| ==> Sendable(ps[i])
    requires j <= |Wire(ps)|
    ensures Run(Initial, Wire(ps)[..j]).ok
    ensures var out := Run(Initial, Wire(ps)[..j]).out; |out| <= |ps| && out == ps[..|out|]
  {
    var w := Wire(ps);
    assert w == w[..j] + w[j..];
    RunAppend(Initial, w[..j], w[j..]);
    WireRoundTrip(ps);
  }

  /** A zero-length body (header 000000) that ends a read is handed on only when
      the next read brings at least one byte. */
  lemma ZeroLengthBodyDeferred(x: Byte)
    ensures Frame([]) == Some([48, 48, 48, 48, 48, 48])
    ensures Run(Initial, Frame([]).value) == RunResult([], ReadState(AwaitBody, 0, []), true)
    ensures Run(ReadState(AwaitBody, 0, []), [x]).out == [[]]
  {
    assert HexDigits(0) == [48];
    assert Zeros(5) + [48] == [48, 48, 48, 48, 48, 48];
    assert Header(0) == Some(Zeros(5) + [48]);
    var f := Frame([]).value;
    assert f == Zeros(5) + [48];
    assert Initial.got + f[..6] == f;
    assert f[6..] == [];
    assert ParseHeader(f) == Some(0);
    var st := ReadState(AwaitBody, 0, []);
    assert st.got + [x][..0] == [];
    assert [x][0..] == [x];
    assert Run(Initial, [x]).out == [];
  }
}
