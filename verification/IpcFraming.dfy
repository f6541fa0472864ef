/** The frames of the worker-transport connection: a 32-bit little-endian length that counts
    the kind byte, the kind byte, the payload. */
module IpcFraming {
  import opened Bytes

  const MAX_PAYLOAD: nat := 32 * 1024 * 1024
  const HEADER: nat := 5

  datatype Msg = Msg(kind: byte, payload: seq<byte>)

  predicate Fits(m: Msg) {
    |m.payload| <= MAX_PAYLOAD
  }

  function Le32(n: nat): (b: seq<byte>)
    requires n < 0x1_0000_0000
    ensures |b| == 4 && FromLe32(b) == n
  {
    var n1 := n / 0x100;
    var n2 := n1 / 0x100;
    var n3 := n2 / 0x100;
    [n % 0x100, n1 % 0x100, n2 % 0x100, n3]
  }

  function FromLe32(b: seq<byte>): nat
    requires |b| == 4
  {
    var b0: int, b1: int, b2: int, b3: int := b[0], b[1], b[2], b[3];
    b0 + 0x100 * (b1 + 0x100 * (b2 + 0x100 * b3))
  }

  /** The bytes of a message that fits. */
  function Encoded(m: Msg): (b: seq<byte>)
    requires Fits(m)
    ensures |b| == HEADER + |m.payload|
  {
    Le32(1 + |m.payload|) + [m.kind] + m.payload
  }

  /** Builds the frame in a fresh buffer; None stands for the payload-too-large error. */
  method Frame(m: Msg) returns (r: Option<array<byte>>)
    ensures r.Some? <==> |m.payload| <= 33_554_432
    ensures r.Some? ==> fresh(r.value) && r.value[..] == Encoded(m)
    ensures r.Some? ==>
              var b, n := r.value[..], 1 + |m.payload|;
              && |b| == 5 + |m.payload| && b[4] == m.kind && b[5..] == m.payload
              && (b[0] as int) + 256 * (b[1] as int) + 65536 * (b[2] as int) + 16_777_216 * (b[3] as int) == n
  {
    if |m.payload| > MAX_PAYLOAD {
      return None;
    }
    var b := new byte[5 + |m.payload|];
    var head := Le32(1 + |m.payload|);
    b[0], b[1], b[2], b[3] := head[0], head[1], head[2], head[3];
    b[4] := m.kind;
    for i := 0 to |m.payload|
      invariant b[..4] == head && b[4] == m.kind
      invariant b[5..5 + i] == m.payload[..i]
    {
      b[5 + i] := m.payload[i];
      assert b[5..5 + i + 1] == b[5..5 + i] + [m.payload[i]];
    }
    assert b[..] == b[..4] + [b[4]] + b[5..];
    assert b[..4][0] == head[0] && b[..4][1] == head[1] && b[..4][2] == head[2] && b[..4][3] == head[3];
    return Some(b);
  }

  /** How one read of a byte stream ends. The stream's end gives Eof both before a header and
      between a header and its payload, because ReadFull reports Eof whenever it read nothing. */
  datatype ReadResult =
    | Message(msg: Msg, rest: seq<byte>)
    | Eof
    | UnexpectedEof
    | BadLength(n: nat)

  function ReadMessage(s: seq<byte>): ReadResult {
    if s == [] then Eof
    else if |s| < HEADER then UnexpectedEof
    else
      var n := FromLe32(s[..4]);
      if n == 0 || n - 1 > MAX_PAYLOAD then BadLength(n)
      else if n - 1 > 0 && |s| == HEADER then Eof
      else if |s| < HEADER + (n - 1) then UnexpectedEof
      else Message(Msg(s[4], s[HEADER..HEADER + (n - 1)]), s[HEADER + (n - 1)..])
  }

  datatype ReadError = NoError | AtEof | CutShort

  /** The receiving end of a connection. */
  class Stream {
    var data: seq<byte>

    constructor (bytes: seq<byte>)
      ensures data == bytes
    {
      data := bytes;
    }

    method ReadFull(n: nat) returns (b: seq<byte>, e: ReadError)
      modifies this
      ensures |old(data)| >= n ==> e == NoError && b == old(data)[..n] && data == old(data)[n..]
      ensures |old(data)| < n ==> data == [] && e == (if old(data) == [] then AtEof else CutShort)
    {
      if |data| >= n {
        b, e := data[..n], NoError;
        data := data[n..];
      } else {
        b, e := [], if |data| == 0 then AtEof else CutShort;
        data := [];
      }
    }

    /** Reads one frame, header first. */
    method Read() returns (r: ReadResult)
      modifies this
      ensures r == ReadMessage(old(data))
      ensures r.Message? ==> data == r.rest
      ensures r.BadLength? <==>
                var b := old(data);
                |b| >= 5 &&
                var n := (b[0] as int) + 256 * (b[1] as int) + 65536 * (b[2] as int) + 16_777_216 * (b[3] as int);
                n == 0 || n > 33_554_433
    {
      var hdr, e := ReadFull(HEADER);
      if e == AtEof {
        return Eof;
      } else if e == CutShort {
        return UnexpectedEof;
      }
      var n := FromLe32(hdr[0..4]);
      assert hdr[0..4] == old(data)[..4];
      if n == 0 || n - 1 > MAX_PAYLOAD {
        return BadLength(n);
      }
      var payload: seq<byte> := [];
      if n - 1 > 0 {
        payload, e := ReadFull(n - 1);
        if e == AtEof {
          return Eof;
        } else if e == CutShort {
          return UnexpectedEof;
        }
      }
      assert payload == old(data)[HEADER..HEADER + (n - 1)];
      assert data == old(data)[HEADER + (n - 1)..];
      return Message(Msg(hdr[4], payload), data);
    }
  }

  /** Everything a reader gets from a stream, and how its last read ended. */
  datatype Parsed = Parsed(msgs: seq<Msg>, end: ReadResult)

  function Parse(s: seq<byte>): (p: Parsed)
    ensures !p.end.Message?
    decreases |s|
  {
    match ReadMessage(s)
    case Message(m, rest) => var p := Parse(rest); Parsed([m] + p.msgs, p.end)
    case end => Parsed([], end)
  }

  predicate AllFit(ms: seq<Msg>) {
    forall i :: 0 <= i < |ms| ==> Fits(ms[i])
  }

  /** The bytes of a list of messages. */
  function Wire(ms: seq<Msg>): seq<byte>
    requires AllFit(ms)
  {
    if ms == [] then [] else Encoded(ms[0]) + Wire(ms[1..])
  }

  lemma {:induction false} WireAppend(a: seq<Msg>, b: seq<Msg>)
    requires AllFit(a) && AllFit(b)
    ensures Wire(a + b) == Wire(a) + Wire(b)
  {
    if a == [] {
      assert a + b == b;
    } else {
      WireAppend(a[1..], b);
      assert (a + b)[1..] == a[1..] + b;
    }
  }

  /** A frame is read back whole, whatever follows it. */
  lemma ReadEncoded(m: Msg, rest: seq<byte>)
    requires Fits(m)
    ensures ReadMessage(Encoded(m) + rest) == Message(m, rest)
  {
    var s := Encoded(m) + rest;
    assert s[..4] == Le32(1 + |m.payload|);
    assert s[HEADER..HEADER + |m.payload|] == m.payload;
    assert s[HEADER + |m.payload|..] == rest;
  }

  /** A frame cut short yields no message, and never a bad length. The cut looks like a clean
      end of stream exactly when it falls before the header or right after it. */
  lemma ReadCutFrame(m: Msg, k: nat)
    requires Fits(m) && k < |Encoded(m)|
    ensures var r := ReadMessage(Encoded(m)[..k]);
            r == if k == 0 || k == HEADER then Eof else UnexpectedEof
  {
    var s := Encoded(m)[..k];
    if k >= HEADER {
      assert s[..4] == Le32(1 + |m.payload|);
    }
  }

  ghost predicate ReadsAs(s: seq<byte>, ms: seq<Msg>) {
    var p := Parse(s);
    p.msgs == ms && !p.end.BadLength?
  }

  /** Reading a stream cut after k bytes gives the first n messages and no bad length, where n
      counts every frame that lies before the cut. */
  ghost predicate CutAt(ms: seq<Msg>, k: nat, n: nat)
    requires AllFit(ms) && k <= |Wire(ms)|
  {
    && n <= |ms|
    && ReadsAs(Wire(ms)[..k], ms[..n])
    && |Wire(ms[..n])| <= k
    && (n < |ms| ==> k < |Wire(ms[..n + 1])|)
  }

  /** Where the cut falls. */
  lemma CutPoint(ms: seq<Msg>, k: nat, i: nat) returns (n: nat)
    requires AllFit(ms) && i <= |ms| && |Wire(ms[..i])| <= k
    ensures n <= |ms| && |Wire(ms[..n])| <= k && (n < |ms| ==> k < |Wire(ms[..n + 1])|)
    decreases |ms| - i
  {
    if i == |ms| || k < |Wire(ms[..i + 1])| {
      n := i;
    } else {
      n := CutPoint(ms, k, i + 1);
    }
  }

  /** Cutting the stream anywhere loses only the frames the cut touches. */
  lemma ParseCut(ms: seq<Msg>, k: nat) returns (n: nat)
    requires AllFit(ms) && k <= |Wire(ms)|
    ensures CutAt(ms, k, n)
  {
    n := CutPoint(ms, k, 0);
    var a, b := ms[..n], ms[n..];
    TakeDrop(ms, n);
    WireAppend(a, b);
    TakePastFirst(Wire(a), Wire(b), k);
    if b != [] {
      TakeNext(ms, n);
      WireAppend(a, [b[0]]);
      WireOne(b[0]);
    }
    CutRest(b, k - |Wire(a)|);
    ReadsBehind(a, Wire(b)[..k - |Wire(a)|]);
  }

  lemma WireOne(m: Msg)
    requires Fits(m)
    ensures Wire([m]) == Encoded(m)
  {
    assert [m][1..] == [];
  }

  /** A cut within the first frame, or of nothing, leaves nothing to read. */
  lemma CutRest(ms: seq<Msg>, k: nat)
    requires AllFit(ms) && k <= |Wire(ms)| && (if ms == [] then k == 0 else k < |Encoded(ms[0])|)
    ensures ReadsAs(Wire(ms)[..k], [])
  {
    if ms != [] {
      TakeFirst(Encoded(ms[0]), Wire(ms[1..]), k);
      ReadCutFrame(ms[0], k);
    }
  }

  lemma TakeFirst(x: seq<byte>, y: seq<byte>, k: nat)
    requires k <= |x|
    ensures (x + y)[..k] == x[..k]
  {
  }

  lemma {:induction false} ReadsBehind(ms: seq<Msg>, rest: seq<byte>)
    requires AllFit(ms) && ReadsAs(rest, [])
    ensures ReadsAs(Wire(ms) + rest, ms)
  {
    if ms == [] {
      assert [] + rest == rest;
    } else {
      ReadsBehind(ms[1..], rest);
      Assoc(Encoded(ms[0]), Wire(ms[1..]), rest);
      ParseFirst(ms[0], Wire(ms[1..]) + rest);
      HeadTail(ms);
    }
  }

  lemma ParseFirst(m: Msg, rest: seq<byte>)
    requires Fits(m)
    ensures Parse(Encoded(m) + rest) == Parsed([m] + Parse(rest).msgs, Parse(rest).end)
  {
    ReadEncoded(m, rest);
  }

  /** The whole stream gives back exactly the messages and then ends cleanly. */
  lemma {:induction false} ParseWire(ms: seq<Msg>)
    requires AllFit(ms)
    ensures Parse(Wire(ms)) == Parsed(ms, Eof)
  {
    if ms != [] {
      ParseWire(ms[1..]);
      ParseFirst(ms[0], Wire(ms[1..]));
    }
  }
}
