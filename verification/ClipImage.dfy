/** The chunked clipboard image: the sender cuts base64 text, the receiver puts it together again and
    applies a picture only from a complete, unbroken series of chunks. */
module ClipImage {
  import opened Bytes
  import opened Base64

  const CHUNK: nat := 48 * 1024

  datatype Chunk = Chunk(i: int, n: int, d: string)

  // ---- Sender ----

  function TextsOf(cs: seq<Chunk>): seq<string> {
    if cs == [] then [] else TextsOf(cs[..|cs| - 1]) + [cs[|cs| - 1].d]
  }

  /** Chunks 0, 1, ... of n. */
  predicate Numbered(cs: seq<Chunk>, n: int) {
    forall j :: 0 <= j < |cs| ==> cs[j].i == j && cs[j].n == n
  }

  /** All chunks of a text, none of them over the limit. */
  predicate Cut(cs: seq<Chunk>, text: string) {
    cs != [] && Made(cs, |cs|, text)
  }

  method BroadcastClipImage(png: seq<byte>) returns (msgs: seq<Chunk>)
    ensures Cut(msgs, Encode(png))
  {
    var b64 := Encode(png);
    msgs := CutText(b64);
  }

  lemma TextsSnoc(cs: seq<Chunk>, c: Chunk)
    ensures Flatten(TextsOf(cs + [c])) == Flatten(TextsOf(cs)) + c.d
  {
    assert (cs + [c])[..|cs|] == cs;
    FlattenSnoc(TextsOf(cs), c.d);
  }

  method CutText(b64: string) returns (msgs: seq<Chunk>)
    ensures Cut(msgs, b64)
  {
    var total := (|b64| + CHUNK - 1) / CHUNK;
    if total < 1 {
      total := 1;
    }
    msgs := [];
    var i := 0;
    while i < total
      invariant 0 <= i <= total && (total - 1) * CHUNK <= |b64| <= total * CHUNK
      invariant |msgs| == i && Made(msgs, total, b64[..Min(i * CHUNK, |b64|)])
    {
      var start := i * CHUNK;
      assert start <= |b64|;
      var end := start + CHUNK;
      if end > |b64| {
        end := |b64|;
      }
      MadeSnoc(msgs, total, b64, start, end);
      msgs := msgs + [Chunk(i, total, b64[start..end])];
      i := i + 1;
    }
    assert b64[..|b64|] == b64;
  }

  /** The first chunks of n, which carry the text. */
  predicate Made(cs: seq<Chunk>, n: int, text: string) {
    && Numbered(cs, n) && Flatten(TextsOf(cs)) == text
    && forall j :: 0 <= j < |cs| ==> |cs[j].d| <= 49_152 && (j < n - 1 ==> |cs[j].d| == 49_152)
  }

  lemma MadeSnoc(cs: seq<Chunk>, n: int, text: string, start: nat, end: nat)
    requires start <= end <= |text| && end - start <= CHUNK && Made(cs, n, text[..start])
    requires |cs| < n - 1 ==> end - start == CHUNK
    ensures Made(cs + [Chunk(|cs|, n, text[start..end])], n, text[..end])
  {
    TextsSnoc(cs, Chunk(|cs|, n, text[start..end]));
    assert text[..start] + text[start..end] == text[..end];
  }

  // ---- Receiver ----

  /** The parts collected so far of a picture of `total` chunks; nothing when total is 0. */
  datatype Asm = Asm(parts: seq<string>, total: nat, next: nat, applied: seq<seq<byte>>)

  const IDLE: Asm := Asm([], 0, 0, [])

  function Reset(a: Asm): Asm {
    Asm([], 0, 0, a.applied)
  }

  /** Making the part list fails on a negative count, so a first chunk needs n >= 0. */
  predicate Acceptable(c: Chunk) {
    c.i == 0 ==> c.n >= 0
  }

  predicate AllAcceptable(cs: seq<Chunk>) {
    forall i :: 0 <= i < |cs| ==> Acceptable(cs[i])
  }

  /** A chunk with index 0 always begins a new picture. */
  function Begin(a: Asm, c: Chunk): Asm
    requires Acceptable(c)
  {
    if c.i == 0 then Asm(seq(c.n, _ => ""), c.n, 0, a.applied) else a
  }

  predicate Fitting(a: Asm, c: Chunk) {
    a.total != 0 && c.n == a.total && c.i == a.next && c.i < |a.parts|
  }

  function Accept(a: Asm, c: Chunk): Asm
    requires Fitting(a, c)
  {
    var parts := a.parts[c.i := c.d];
    if a.next + 1 == a.total then
      var raw := Decode(Flatten(parts));
      Asm([], 0, 0, if raw.Some? then a.applied + [raw.value] else a.applied)
    else Asm(parts, a.total, a.next + 1, a.applied)
  }

  function Step(a: Asm, c: Chunk): Asm
    requires Acceptable(c)
  {
    var a1 := Begin(a, c);
    if Fitting(a1, c) then Accept(a1, c) else Reset(a1)
  }

  class ClipSync {
    var imgParts: seq<string>
    var imgTotal: nat
    var imgNext: nat
    var applied: seq<seq<byte>>

    function State(): Asm
      reads this
    {
      Asm(imgParts, imgTotal, imgNext, applied)
    }

    constructor ()
      ensures State() == IDLE
    {
      imgParts, imgTotal, imgNext, applied := [], 0, 0, [];
    }

    method RecvImageChunk(i: int, n: int, d: string)
      requires Acceptable(Chunk(i, n, d))
      modifies this
      ensures State() == Step(old(State()), Chunk(i, n, d))
    {
      if i == 0 {
        imgParts := seq(n, _ => "");
        imgTotal := n;
        imgNext := 0;
        assert imgParts == seq(n, _ => "");
      }
      if imgTotal == 0 || n != imgTotal || i != imgNext || i >= |imgParts| {
        imgParts, imgTotal, imgNext := [], 0, 0;
        return;
      }
      imgParts := imgParts[i := d];
      imgNext := imgNext + 1;
      var done := imgNext == imgTotal;
      var b64 := "";
      if done {
        b64 := Flatten(imgParts);
        imgParts, imgTotal, imgNext := [], 0, 0;
      }
      if !done {
        return;
      }
      var raw := Decode(b64);
      if raw.None? {
        return;
      }
      applied := applied + [raw.value];
    }
  }

  function Run(cs: seq<Chunk>): Asm
    requires AllAcceptable(cs)
  {
    if cs == [] then IDLE else Step(Run(cs[..|cs| - 1]), cs[|cs| - 1])
  }

  /** The last m chunks received are the first m of a picture of n. */
  predicate Series(cs: seq<Chunk>, m: nat, n: int) {
    m == 0 ||
    (cs != [] && cs[|cs| - 1].i == m - 1 && cs[|cs| - 1].n == n && Series(cs[..|cs| - 1], m - 1, n))
  }

  /** The texts of the last m chunks, joined. */
  function Joined(cs: seq<Chunk>, m: nat): string
    requires m <= |cs|
  {
    if m == 0 then [] else Joined(cs[..|cs| - 1], m - 1) + cs[|cs| - 1].d
  }

  lemma {:induction false} SeriesLength(cs: seq<Chunk>, m: nat, n: int)
    requires Series(cs, m, n)
    ensures m <= |cs|
  {
    if m > 0 {
      SeriesLength(cs[..|cs| - 1], m - 1, n);
    }
  }

  /** The receiver is collecting exactly when the last chunks it got are the beginning of one picture,
      and it then holds their texts. */
  ghost predicate Collecting(cs: seq<Chunk>, a: Asm) {
    if a.total == 0 then
      a.next == 0 && a.parts == [] && forall m: nat, n: nat :: 0 < m < n ==> !Series(cs, m, n)
    else
      && 0 < a.next < a.total == |a.parts| && Series(cs, a.next, a.total)
      && a.next <= |cs| && Flatten(a.parts[..a.next]) == Joined(cs, a.next)
  }

  /** The text of the picture that the last chunk completes, if it completes one. */
  function Completed(cs: seq<Chunk>): Option<string> {
    if cs == [] || cs[|cs| - 1].n <= 0 || !Series(cs, cs[|cs| - 1].n, cs[|cs| - 1].n) then None
    else
      SeriesLength(cs, cs[|cs| - 1].n, cs[|cs| - 1].n);
      Some(Joined(cs, cs[|cs| - 1].n))
  }

  function AppliedBy(cs: seq<Chunk>): seq<seq<byte>> {
    var text := Completed(cs);
    if text.None? then []
    else
      var raw := Decode(text.value);
      if raw.None? then [] else [raw.value]
  }

  lemma FlattenTake(parts: seq<string>, i: nat, d: string)
    requires i < |parts|
    ensures Flatten(parts[i := d][..i + 1]) == Flatten(parts[..i]) + d
  {
    FlattenSnoc(parts[..i], d);
    assert parts[i := d][..i + 1] == parts[..i] + [d];
  }

  /** The chunk continues the picture being collected, or begins one. */
  predicate Fits(a: Asm, c: Chunk) {
    (c.i == 0 && c.n > 0) || (a.total > 0 && c.n == a.total && c.i == a.next)
  }

  /** What a fitting chunk finds once a picture has been begun. */
  ghost predicate Ready(cs: seq<Chunk>, a: Asm, c: Chunk) {
    && Fitting(a, c) && a.total == |a.parts| && Series(cs, c.i, c.n)
    && c.i <= |cs| && Flatten(a.parts[..c.i]) == Joined(cs, c.i)
  }

  lemma BeginReady(cs: seq<Chunk>, a: Asm, c: Chunk)
    requires Collecting(cs, a) && Acceptable(c) && Fits(a, c)
    ensures Ready(cs, Begin(a, c), c)
  {
    if c.i == 0 {
      assert Begin(a, c).parts[..0] == [];
    }
  }

  lemma SeriesSnoc(cs: seq<Chunk>, c: Chunk)
    requires 0 <= c.i <= |cs| && Series(cs, c.i, c.n)
    ensures Series(cs + [c], c.i + 1, c.n) && Joined(cs + [c], c.i + 1) == Joined(cs, c.i) + c.d
  {
    assert (cs + [c])[..|cs|] == cs;
  }

  lemma AcceptJoins(cs: seq<Chunk>, a: Asm, c: Chunk)
    requires Ready(cs, a, c)
    ensures Series(cs + [c], c.i + 1, c.n)
    ensures Flatten(a.parts[c.i := c.d][..c.i + 1]) == Joined(cs + [c], c.i + 1)
  {
    SeriesSnoc(cs, c);
    FlattenTake(a.parts, c.i, c.d);
  }

  lemma AcceptMore(cs: seq<Chunk>, a: Asm, c: Chunk)
    requires Ready(cs, a, c) && c.i + 1 < c.n
    ensures Collecting(cs + [c], Accept(a, c)) && Accept(a, c).applied == a.applied
    ensures AppliedBy(cs + [c]) == []
  {
    AcceptJoins(cs, a, c);
    assert (cs + [c])[|cs|] == c && !Series(cs + [c], c.n, c.n);
  }

  /** Once a picture is complete nothing is being collected. */
  lemma NothingBegun(cs: seq<Chunk>, c: Chunk)
    requires c.i + 1 == c.n
    ensures forall m: nat, n: nat :: 0 < m < n ==> !Series(cs + [c], m, n)
  {
    assert (cs + [c])[|cs|] == c;
  }

  lemma CompletedIs(cs: seq<Chunk>, text: string)
    requires cs != [] && 0 < cs[|cs| - 1].n <= |cs| && Series(cs, cs[|cs| - 1].n, cs[|cs| - 1].n)
    requires Joined(cs, cs[|cs| - 1].n) == text
    ensures Completed(cs) == Some(text)
  {
  }

  lemma AcceptLast(cs: seq<Chunk>, a: Asm, c: Chunk)
    requires Ready(cs, a, c) && c.i + 1 == c.n
    ensures Accept(a, c) == Asm([], 0, 0, a.applied + AppliedBy(cs + [c]))
  {
    AcceptJoins(cs, a, c);
    var all := cs + [c];
    var parts := a.parts[c.i := c.d];
    assert parts[..c.i + 1] == parts;
    Snoc(cs, c);
    CompletedIs(all, Flatten(parts));
  }

  lemma SeriesFits(cs: seq<Chunk>, a: Asm, c: Chunk, m: nat, n: nat)
    requires Collecting(cs, a) && 0 < m <= n && Series(cs + [c], m, n)
    ensures Fits(a, c)
  {
    assert (cs + [c])[..|cs|] == cs;
    assert c.i == m - 1 && c.n == n;
    assert m > 1 ==> a.total > 0;
  }

  lemma StepMisfit(cs: seq<Chunk>, a: Asm, c: Chunk, m: nat, n: nat)
    requires Collecting(cs, a) && Acceptable(c) && !Fits(a, c)
    ensures Step(a, c) == Reset(a) && (0 < m <= n ==> !Series(cs + [c], m, n))
  {
    assert !Fitting(Begin(a, c), c);
    if 0 < m <= n && Series(cs + [c], m, n) {
      SeriesFits(cs, a, c, m, n);
    }
  }

  lemma CollectingStep(cs: seq<Chunk>, a: Asm, c: Chunk)
    requires Collecting(cs, a) && Acceptable(c)
    ensures Collecting(cs + [c], Step(a, c)) && Step(a, c).applied == a.applied + AppliedBy(cs + [c])
  {
    var all := cs + [c];
    if Fits(a, c) {
      BeginReady(cs, a, c);
      if c.i + 1 < c.n {
        AcceptMore(cs, Begin(a, c), c);
      } else {
        AcceptLast(cs, Begin(a, c), c);
        NothingBegun(cs, c);
      }
    } else {
      forall m: nat, n: nat
        ensures 0 < m <= n ==> !Series(all, m, n)
      {
        StepMisfit(cs, a, c, m, n);
      }
      StepMisfit(cs, a, c, 0, 0);
    }
  }

  lemma {:induction false} CollectingRun(cs: seq<Chunk>)
    requires AllAcceptable(cs)
    ensures Collecting(cs, Run(cs))
    ensures cs != [] ==> Run(cs).applied == Run(cs[..|cs| - 1]).applied + AppliedBy(cs)
  {
    if cs == [] {
      assert forall m: nat, n: nat :: 0 < m < n ==> !Series(cs, m, n);
    } else {
      var front, c := cs[..|cs| - 1], cs[|cs| - 1];
      CollectingRun(front);
      CollectingStep(front, Run(front), c);
      assert cs == front + [c];
    }
  }

  /** A picture is applied exactly when the chunk just received is the last of an unbroken series 0 to
      n - 1 of one n: it is then their joined text, decoded. A missing, repeated, reordered or stale
      chunk therefore never ends up in a picture. */
  lemma AppliedIffUnbroken(cs: seq<Chunk>)
    requires AllAcceptable(cs)
    requires cs != []
    ensures Run(cs).applied == Run(cs[..|cs| - 1]).applied + AppliedBy(cs)
  {
    CollectingRun(cs);
  }

  lemma {:induction false} NumberedSeries(before: seq<Chunk>, msgs: seq<Chunk>, n: int)
    requires Numbered(msgs, n)
    ensures Series(before + msgs, |msgs|, n) && Joined(before + msgs, |msgs|) == Flatten(TextsOf(msgs))
  {
    if msgs != [] {
      var front, c := msgs[..|msgs| - 1], msgs[|msgs| - 1];
      NumberedSeries(before, front, n);
      assert (before + msgs)[..|before| + |msgs| - 1] == before + front;
      TextsSnoc(front, c);
      assert msgs == front + [c];
    }
  }

  /** Whatever was received before, the chunks a sender makes of a picture give that picture back. */
  lemma PictureArrives(before: seq<Chunk>, msgs: seq<Chunk>, png: seq<byte>)
    requires AllAcceptable(before) && Cut(msgs, Encode(png))
    ensures AllAcceptable(before + msgs)
    ensures Run(before + msgs).applied == Run((before + msgs)[..|before + msgs| - 1]).applied + [png]
  {
    DecodeEncode(png);
    TextArrives(before, msgs, Encode(png), png);
  }

  lemma TextArrives(before: seq<Chunk>, msgs: seq<Chunk>, text: string, png: seq<byte>)
    requires AllAcceptable(before) && Cut(msgs, text) && Decode(text) == Some(png)
    ensures AllAcceptable(before + msgs)
    ensures Run(before + msgs).applied == Run((before + msgs)[..|before + msgs| - 1]).applied + [png]
  {
    AcceptableJoin(before, msgs);
    CompletedBy(before, msgs);
    AppliedOnce(before + msgs, text, png);
  }

  lemma AcceptableJoin(before: seq<Chunk>, msgs: seq<Chunk>)
    requires AllAcceptable(before) && Numbered(msgs, |msgs|)
    ensures AllAcceptable(before + msgs)
  {
  }

  lemma AppliedOnce(cs: seq<Chunk>, text: string, png: seq<byte>)
    requires AllAcceptable(cs) && cs != [] && Completed(cs) == Some(text) && Decode(text) == Some(png)
    ensures Run(cs).applied == Run(cs[..|cs| - 1]).applied + [png]
  {
    CollectingRun(cs);
  }

  lemma CompletedBy(before: seq<Chunk>, msgs: seq<Chunk>)
    requires msgs != [] && Numbered(msgs, |msgs|)
    ensures Completed(before + msgs) == Some(Flatten(TextsOf(msgs)))
  {
    NumberedSeries(before, msgs, |msgs|);
    assert (before + msgs)[|before + msgs| - 1] == msgs[|msgs| - 1];
  }
}
