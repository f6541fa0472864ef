/** The recorder object. Its methods change it as RecorderBytes.WriteFrame says, failed writes included. */
module RecorderCode {
  import opened Bytes
  import opened Ebml
  import opened WebM
  import opened Recorder
  import opened RecorderBytes

  class WebMRecorder {
    var file: seq<byte>
    const path: string
    var clusterOpen: bool
    var clusterStart: nat
    var closed: bool
    var frames: nat

    function State(): Tape
      reads this
    {
      Tape(clusterOpen, clusterStart, file, frames)
    }

    /** Creates the file and writes its header, as often as that succeeds. */
    constructor (path: string, width: nat, height: nat)
      ensures State() == NewTape(width, height) && !closed && this.path == path
    {
      this.path := path;
      clusterOpen, clusterStart, closed, frames := false, 0, false, 0;
      var bytes := Element(ID_EBML, Body(EbmlItems()));
      bytes := bytes + (EncodeId(ID_SEGMENT) + UnknownSize());
      bytes := bytes + Element(ID_INFO, Body(InfoItems()));
      bytes := bytes + Element(ID_TRACKS, Body(TracksItems(width, height)));
      file := bytes;
    }

    /** Starts a recording. When the file cannot be created, or a write of its header fails, there is no recorder
        and no file is left; left is what the path holds afterwards. */
    static method New(path: string, width: nat, height: nat, createOk: bool, headerOk: bool)
        returns (r: WebMRecorder?, left: Option<seq<byte>>)
      ensures r == null <==> !(createOk && headerOk)
      ensures r != null ==> fresh(r) && r.State() == NewTape(width, height) && !r.closed && r.path == path
      ensures left == if r == null then None else Some(HeaderBytes(width, height))
    {
      if !createOk {
        return null, None;
      }
      if !headerOk {
        return null, None;
      }
      r := new WebMRecorder(path, width, height);
      left := Some(r.file);
    }

    /** A write to the file; failAt is how many bytes get out before an error. */
    method WriteBytes(bytes: seq<byte>, failAt: Option<nat>) returns (ok: bool)
      modifies this`file
      ensures file == Put(old(file), bytes, failAt) && (ok <==> failAt.None?)
    {
      if failAt.None? {
        file := file + bytes;
        return true;
      }
      file := file + bytes[..Min(failAt.value, |bytes|)];
      return false;
    }

    method StartClusterLocked(ts: nat, failAt: Option<nat>) returns (ok: bool)
      requires ts < 0x8000_0000_0000_0000
      modifies this`file, this`clusterOpen, this`clusterStart
      ensures State() == OpenCluster(old(State()), ts, failAt) && (ok <==> failAt.None?)
    {
      clusterStart := ts;
      clusterOpen := true;
      var hdr := EncodeId(ID_CLUSTER) + UnknownSize();
      Pow256Values();
      var time := UintBytes(ts / MS);
      hdr := hdr + Element(ID_TIMECODE, time);
      ok := WriteBytes(hdr, failAt);
    }

    method WriteBlock(vp8: seq<byte>, keyframe: bool, ts: nat, rel: int, failAt: Option<nat>) returns (ok: bool)
      modifies this`file, this`frames
      ensures State() == PutBlock(old(State()), Input(vp8, keyframe, ts), rel, failAt) && (ok <==> failAt.None?)
    {
      var flags: byte := 0;
      if keyframe {
        flags := 0x80;
      }
      var body: seq<byte> := [0x81, rel / 0x100 % 0x100, rel % 0x100, flags] + vp8;
      ok := WriteBytes(Element(ID_SIMPLE_BLOCK, body), failAt);
      if !ok {
        return;
      }
      frames := frames + 1;
    }

    /** The guard against a block time that would wrap, and the block. */
    method WriteGuarded(vp8: seq<byte>, keyframe: bool, ts: nat, at: int, f: Fault) returns (ok: bool)
      requires ts < 0x8000_0000_0000_0000
      modifies this`file, this`clusterOpen, this`clusterStart, this`frames
      ensures State() == PutFrame(old(State()), Input(vp8, keyframe, ts), at, f)
      ensures ok <==> f.block.None? && (at > 0x7FFF ==> f.guard.None?)
    {
      var rel := at;
      if rel > 0x7FFF {
        ok := StartClusterLocked(ts, f.guard);
        if !ok {
          return;
        }
        rel := 0;
      }
      ok := WriteBlock(vp8, keyframe, ts, rel, f.block);
    }

    /** Opens a cluster if none is open or the span of the open one is over. */
    method EnsureCluster(keyframe: bool, ts: nat, failAt: Option<nat>) returns (ok: bool)
      requires ts < 0x8000_0000_0000_0000 && (clusterOpen ==> clusterStart <= ts)
      modifies this`file, this`clusterOpen, this`clusterStart
      ensures State() == if Opens(old(State()), ts) then OpenCluster(old(State()), ts, failAt) else old(State())
      ensures ok <==> !Opens(old(State()), ts) || failAt.None?
    {
      ok := true;
      if !clusterOpen || (keyframe && ts - clusterStart >= CLUSTER_SPAN) || ts - clusterStart >= CLUSTER_SPAN {
        ok := StartClusterLocked(ts, failAt);
      }
    }

    /** Appends one frame. ts is the time since the start. */
    method Write(vp8: seq<byte>, keyframe: bool, ts: nat, f: Fault) returns (ok: bool)
      requires ts < 0x8000_0000_0000_0000 && (clusterOpen ==> clusterStart <= ts)
      modifies this`file, this`clusterOpen, this`clusterStart, this`frames
      ensures var i, was := Input(vp8, keyframe, ts), old(State());
              && State() == (if closed then was else WriteFrame(was, i, f))
              && (ok <==> closed || Succeeds(was, i, f))
    {
      if |vp8| == 0 {
        return true;
      }
      if closed {
        return true;
      }
      ok := EnsureCluster(keyframe, ts, f.head);
      if !ok {
        return;
      }
      ok := WriteGuarded(vp8, keyframe, ts, (ts - clusterStart) / MS, f);
    }

    /** Finishes the recording; closeOk is what closing the file answers. A second call does nothing. */
    method Stop(closeOk: bool) returns (p: string, ok: bool)
      modifies this`closed
      ensures closed && p == path && (ok <==> old(closed) || closeOk)
    {
      if closed {
        return path, true;
      }
      closed := true;
      return path, closeOk;
    }
  }
}
