/** Cutting captured sound, delivered in buffers of any size, into frames of exactly the size the Opus
    encoder takes. */
module OpusFraming {
  import opened Bytes

  type Sample = x: int | -0x8000 <= x < 0x8000

  const FRAME: nat := 960
  const LIMIT: nat := FRAME * 25

  /** One capture callback: its samples, and whether a sink and an encoder are there to take them. */
  datatype Callback = Callback(pcm: seq<Sample>, sink: bool, encoder: bool)

  predicate Heard(c: Callback) {
    c.sink && c.pcm != [] && c.encoder
  }

  /** The newest samples, as many as are ever kept. */
  function Newest(s: seq<Sample>): (r: seq<Sample>)
    ensures |r| == Min(|s|, 24_000) && r == s[|s| - |r|..]
  {
    if |s| > LIMIT then s[|s| - LIMIT..] else s
  }

  /** The whole frames at the front. */
  function Frames(s: seq<Sample>): (fs: seq<seq<Sample>>)
    ensures forall i :: 0 <= i < |fs| ==> |fs[i]| == 960
  {
    if |s| < FRAME then [] else [s[..FRAME]] + Frames(s[FRAME..])
  }

  function Rest(s: seq<Sample>): (r: seq<Sample>)
    ensures |r| < 960
  {
    if |s| < FRAME then s else Rest(s[FRAME..])
  }

  /** The frames sent before the encoder first fails. */
  function Encoded(fs: seq<seq<Sample>>, encodes: seq<Sample> -> bool): (r: seq<seq<Sample>>)
    ensures r <= fs && (r == fs <==> forall i :: 0 <= i < |fs| ==> encodes(fs[i]))
  {
    if fs == [] || !encodes(fs[0]) then [] else [fs[0]] + Encoded(fs[1..], encodes)
  }

  /** They are all the frames before the first one refused. */
  lemma {:induction false} EncodedIs(fs: seq<seq<Sample>>, encodes: seq<Sample> -> bool)
    ensures var r := Encoded(fs, encodes);
            && (forall i :: 0 <= i < |r| ==> encodes(fs[i])) && (|r| < |fs| ==> !encodes(fs[|r|]))
  {
    if fs != [] && encodes(fs[0]) {
      EncodedIs(fs[1..], encodes);
      var r := Encoded(fs[1..], encodes);
      assert forall i :: 0 < i <= |r| ==> fs[i] == fs[1..][i - 1];
    }
  }

  /** Frames and rest are the samples again. */
  lemma {:induction false} FramesAndRest(s: seq<Sample>)
    ensures Flatten(Frames(s)) + Rest(s) == s
  {
    if |s| >= FRAME {
      var fs := Frames(s[FRAME..]);
      FramesAndRest(s[FRAME..]);
      assert ([s[..FRAME]] + fs)[1..] == fs;
      assert s[..FRAME] + (Flatten(fs) + Rest(s)) == s;
    }
  }

  datatype State = State(pending: seq<Sample>, sent: seq<seq<Sample>>)

  function Step(s: State, c: Callback, encodes: seq<Sample> -> bool): State {
    if Heard(c) then
      var kept := Newest(s.pending + c.pcm);
      State(Rest(kept), s.sent + Encoded(Frames(kept), encodes))
    else s
  }

  class Framer {
    var encPending: seq<Sample>
    var sent: seq<seq<Sample>>

    constructor ()
      ensures encPending == [] && sent == []
    {
      encPending, sent := [], [];
    }

    method CutFrames(pcm: seq<Sample>) returns (frames: seq<seq<Sample>>)
      modifies this`encPending
      ensures frames == Frames(Newest(old(encPending) + pcm)) && encPending == Rest(Newest(old(encPending) + pcm))
    {
      encPending := encPending + pcm;
      if |encPending| > LIMIT {
        encPending := encPending[|encPending| - LIMIT..];
      }
      ghost var all := encPending;
      frames := [];
      while |encPending| >= FRAME
        invariant Frames(all) == frames + Frames(encPending) && Rest(all) == Rest(encPending)
        decreases |encPending|
      {
        var f := encPending[..FRAME];
        encPending := encPending[FRAME..];
        frames := frames + [f];
      }
      assert all == Newest(old(encPending) + pcm);
    }

    method SendFrames(frames: seq<seq<Sample>>, encodes: seq<Sample> -> bool)
      modifies this`sent
      ensures sent == old(sent) + Encoded(frames, encodes)
    {
      var i := 0;
      while i < |frames|
        invariant 0 <= i <= |frames|
        invariant sent + Encoded(frames[i..], encodes) == old(sent) + Encoded(frames, encodes)
      {
        assert frames[i..][1..] == frames[i + 1..];
        if !encodes(frames[i]) {
          return;
        }
        sent := sent + [frames[i]];
        i := i + 1;
      }
    }

    method EncodeAndSend(c: Callback, encodes: seq<Sample> -> bool)
      modifies this
      ensures State(encPending, sent) == Step(State(old(encPending), old(sent)), c, encodes)
      ensures !c.sink || c.pcm == [] || !c.encoder ==> encPending == old(encPending) && sent == old(sent)
      ensures c.sink && c.pcm != [] && c.encoder ==>
                var all := old(encPending) + c.pcm;
                var kept := if |all| > 24_000 then all[|all| - 24_000..] else all;
                |encPending| < 960 && Flatten(Frames(kept)) + encPending == kept
                && sent == old(sent) + Encoded(Frames(kept), encodes)
    {
      if !c.sink || |c.pcm| == 0 {
        return;
      }
      if !c.encoder {
        return;
      }
      FramesAndRest(Newest(encPending + c.pcm));
      var frames := CutFrames(c.pcm);
      SendFrames(frames, encodes);
    }
  }

  /** Callbacks one after another. */
  function Run(cs: seq<Callback>, encodes: seq<Sample> -> bool): State {
    if cs == [] then State([], []) else Step(Run(cs[..|cs| - 1], encodes), cs[|cs| - 1], encodes)
  }

  /** Everything delivered to a sink. */
  function Delivered(cs: seq<Callback>): seq<Sample> {
    if cs == [] then []
    else Delivered(cs[..|cs| - 1]) + (if Heard(cs[|cs| - 1]) then cs[|cs| - 1].pcm else [])
  }

  /** The callback brings more than can be kept beside what is pending. */
  predicate Overflows(s: State, c: Callback) {
    Heard(c) && |s.pending| + |c.pcm| > LIMIT
  }

  /** The encoder refuses a frame the callback completes. */
  predicate Breaks(s: State, c: Callback, encodes: seq<Sample> -> bool) {
    Heard(c) && var fs := Frames(Newest(s.pending + c.pcm)); exists i :: 0 <= i < |fs| && !encodes(fs[i])
  }

  function LostAt(s: State, c: Callback, encodes: seq<Sample> -> bool): nat {
    if Heard(c) then
      var all := s.pending + c.pcm;
      var fs := Frames(Newest(all));
      |all| - |Newest(all)| + FRAME * (|fs| - |Encoded(fs, encodes)|)
    else 0
  }

  function Lost(cs: seq<Callback>, encodes: seq<Sample> -> bool): nat {
    if cs == [] then 0
    else Lost(cs[..|cs| - 1], encodes) + LostAt(Run(cs[..|cs| - 1], encodes), cs[|cs| - 1], encodes)
  }

  function Total(s: State): seq<Sample> {
    Flatten(s.sent) + s.pending
  }

  lemma LostAtIff(s: State, c: Callback, encodes: seq<Sample> -> bool)
    ensures LostAt(s, c, encodes) > 0 <==> Overflows(s, c) || Breaks(s, c, encodes)
  {
  }

  lemma {:induction false} FramesLength(fs: seq<seq<Sample>>)
    requires forall i :: 0 <= i < |fs| ==> |fs[i]| == FRAME
    ensures |Flatten(fs)| == FRAME * |fs|
  {
    if fs != [] {
      FramesLength(fs[1..]);
    }
  }

  lemma StepCounts(s: State, c: Callback, encodes: seq<Sample> -> bool)
    ensures |Total(Step(s, c, encodes))| + LostAt(s, c, encodes) == |Total(s)| + (if Heard(c) then |c.pcm| else 0)
  {
    if Heard(c) {
      var kept := Newest(s.pending + c.pcm);
      var fs := Frames(kept);
      FlattenAppend(s.sent, Encoded(fs, encodes));
      FramesAndRest(kept);
      FramesLength(fs);
      FramesLength(Encoded(fs, encodes));
    }
  }

  lemma StepKeeps(s: State, c: Callback, encodes: seq<Sample> -> bool)
    requires Heard(c) && !Breaks(s, c, encodes)
    ensures Total(Step(s, c, encodes)) == Flatten(s.sent) + Newest(s.pending + c.pcm)
  {
    var kept := Newest(s.pending + c.pcm);
    FlattenAppend(s.sent, Frames(kept));
    FramesAndRest(kept);
    Assoc(Flatten(s.sent), Flatten(Frames(kept)), Rest(kept));
  }

  /** Every sample is sent, pending, or counted as lost. */
  lemma {:induction false} SamplesCounted(cs: seq<Callback>, encodes: seq<Sample> -> bool)
    ensures |Total(Run(cs, encodes))| + Lost(cs, encodes) == |Delivered(cs)|
    ensures Lost(cs, encodes) == 0 ==> Total(Run(cs, encodes)) == Delivered(cs)
  {
    if cs != [] {
      var front, c := cs[..|cs| - 1], cs[|cs| - 1];
      var s := Run(front, encodes);
      SamplesCounted(front, encodes);
      StepCounts(s, c, encodes);
      if Heard(c) && Lost(cs, encodes) == 0 {
        LostAtIff(s, c, encodes);
        StepKeeps(s, c, encodes);
        Assoc(Flatten(s.sent), s.pending, c.pcm);
      }
    }
  }

  /** Every frame sent has exactly the size the encoder takes, and less than a frame is pending. */
  lemma {:induction false} RunShape(cs: seq<Callback>, encodes: seq<Sample> -> bool)
    ensures |Run(cs, encodes).pending| < 960
    ensures forall i :: 0 <= i < |Run(cs, encodes).sent| ==> |Run(cs, encodes).sent[i]| == 960
  {
    if cs != [] {
      RunShape(cs[..|cs| - 1], encodes);
    }
  }

  /** The i-th callback loses samples. */
  predicate Loses(cs: seq<Callback>, i: nat, encodes: seq<Sample> -> bool)
    requires i < |cs|
  {
    Overflows(Run(cs[..i], encodes), cs[i]) || Breaks(Run(cs[..i], encodes), cs[i], encodes)
  }

  lemma {:induction false} LostIff(cs: seq<Callback>, encodes: seq<Sample> -> bool)
    ensures Lost(cs, encodes) > 0 <==> exists i :: 0 <= i < |cs| && Loses(cs, i, encodes)
  {
    if cs != [] {
      var front := cs[..|cs| - 1];
      LostIff(front, encodes);
      LostAtIff(Run(front, encodes), cs[|cs| - 1], encodes);
      forall i | 0 <= i < |front|
        ensures Loses(front, i, encodes) == Loses(cs, i, encodes)
      {
        assert front[..i] == cs[..i];
      }
      assert Loses(cs, |cs| - 1, encodes) <==> LostAt(Run(front, encodes), cs[|cs| - 1], encodes) > 0;
    }
  }

  /** Over any run, the frames sent and the samples pending are exactly the samples delivered if and
      only if no callback brings too much and the encoder refuses no frame. */
  lemma ConservedIff(cs: seq<Callback>, encodes: seq<Sample> -> bool)
    ensures Total(Run(cs, encodes)) == Delivered(cs) <==> forall i :: 0 <= i < |cs| ==> !Loses(cs, i, encodes)
  {
    SamplesCounted(cs, encodes);
    LostIff(cs, encodes);
  }

  /** Callbacks of at most 24000 - 959 samples never bring too much. */
  lemma SmallCallbacksFit(cs: seq<Callback>, c: Callback, encodes: seq<Sample> -> bool)
    requires |c.pcm| <= 24_000 - 959
    ensures !Overflows(Run(cs, encodes), c)
  {
    RunShape(cs, encodes);
  }

  /** A callback that brings too much leaves exactly the newest samples: the sound before them is
      dropped, the sound sent earlier is not touched. */
  lemma OverflowKeepsNewest(cs: seq<Callback>, c: Callback, encodes: seq<Sample> -> bool)
    requires var s := Run(cs, encodes); Overflows(s, c) && !Breaks(s, c, encodes)
    ensures var s, all := Run(cs, encodes), Run(cs, encodes).pending + c.pcm;
            && Total(Run(cs + [c], encodes)) == Flatten(s.sent) + all[|all| - 24_000..]
            && s.sent <= Run(cs + [c], encodes).sent
  {
    assert (cs + [c])[..|cs|] == cs;
    StepKeeps(Run(cs, encodes), c, encodes);
  }
}
