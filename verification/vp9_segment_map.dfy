/** The double-buffered segmentation map of the VP9 decoder, and which map a frame is predicted from. */
module Vp9SegmentMap {
  import opened Words

  /** What a frame asks of the map, and how it ends: `output` is the map that the hardware leaves in the window. */
  datatype Frame = Frame(
    frameIsIntra: bool, errorResilient: bool, segEnabled: bool, updateMap: bool, output: seq<byte>, done: bool)
  {
    predicate Resets() {
      frameIsIntra || errorResilient
    }

    predicate Updates() {
      done && segEnabled && updateMap
    }
  }

  datatype Maps = Maps(first: seq<byte>, second: seq<byte>, active: nat)
  {
    predicate Valid(size: nat) {
      |first| == |second| == size && active < 2
    }

    function Active(): seq<byte> {
      if active == 0 then first else second
    }
  }

  function Zeros(size: nat): seq<byte> {
    seq(size, _ => 0)
  }

  /** The window that configuring a frame prepares. */
  function Window(m: Maps, f: Frame, size: nat): seq<byte> {
    if f.segEnabled && !f.frameIsIntra then m.Active() else Zeros(size)
  }

  function Configured(m: Maps, f: Frame, size: nat): Maps {
    if f.Resets() then Maps(Zeros(size), Zeros(size), 0) else m
  }

  function Finished(m: Maps, f: Frame): Maps {
    if !f.Updates() then m
    else if m.active == 0 then m.(second := f.output, active := 1)
    else m.(first := f.output, active := 0)
  }

  function Run(frames: seq<Frame>, size: nat): Maps {
    if frames == [] then Maps(Zeros(size), Zeros(size), 0)
    else
      var last := frames[|frames| - 1];
      Finished(Configured(Run(frames[..|frames| - 1], size), last, size), last)
  }

  /** What one frame leaves as the active map.  In particular a frame with update_map off, without segmentation, or in
      error, leaves the map that was active, unless it is intra or error-resilient, which clears it. */
  lemma ActiveAfter(m: Maps, f: Frame, size: nat)
    ensures f.done && f.segEnabled && f.updateMap ==> Finished(Configured(m, f, size), f).Active() == f.output
    ensures !(f.done && f.segEnabled && f.updateMap) ==>
      Finished(Configured(m, f, size), f).Active() ==
        if f.frameIsIntra || f.errorResilient then Zeros(size) else m.Active()
  {
  }

  /** The active map survives every run of inter frames that neither reset nor update it. */
  lemma {:induction false} MapSurvives(frames: seq<Frame>, more: seq<Frame>, size: nat)
    requires forall j | 0 <= j < |more| :: !more[j].frameIsIntra && !more[j].errorResilient
    requires forall j | 0 <= j < |more| :: !more[j].done || !more[j].segEnabled || !more[j].updateMap
    ensures Run(frames + more, size).Active() == Run(frames, size).Active()
    decreases |more|
  {
    if more == [] {
      assert frames + more == frames;
    } else {
      var front, f := more[..|more| - 1], more[|more| - 1];
      MapSurvives(frames, front, size);
      assert (frames + more)[..|frames + more| - 1] == frames + front;
      ActiveAfter(Run(frames + front, size), f, size);
    }
  }

  /** Frame `i` produced the map that counts: nothing since has replaced or cleared it. */
  predicate Latest(frames: seq<Frame>, i: int) {
    && 0 <= i < |frames| && frames[i].Updates()
    && forall j | i < j < |frames| :: !frames[j].Updates() && !frames[j].Resets()
  }

  /** In every run the active map is the one of the latest successful update since the last reset - a reset by the
      updating frame itself does not hide its own map - and all zero when there is none. */
  lemma {:induction false} ActiveIsLatest(frames: seq<Frame>, size: nat)
    ensures forall i | Latest(frames, i) :: Run(frames, size).Active() == frames[i].output
    ensures (forall i :: !Latest(frames, i)) ==> Run(frames, size).Active() == Zeros(size)
  {
    if frames != [] {
      var n := |frames| - 1;
      var front, last := frames[..n], frames[n];
      ActiveIsLatest(front, size);
      if last.Updates() {
        assert Latest(frames, n);
      } else if !last.Resets() {
        assert forall i :: Latest(frames, i) <==> Latest(front, i);
      }
    }
  }

  /** What an inter frame with segmentation is given, in terms of the frames configured before it. */
  lemma WindowIsLatest(frames: seq<Frame>, f: Frame, size: nat)
    requires f.segEnabled && !f.frameIsIntra
    ensures forall i | Latest(frames, i) :: Window(Run(frames, size), f, size) == frames[i].output
    ensures (forall i :: !Latest(frames, i)) ==> Window(Run(frames, size), f, size) == Zeros(size)
  {
    ActiveIsLatest(frames, size);
  }

  /** PrevSegmentIds as VP9 defines it when the frame starts: setup_past_independence() clears it first. */
  function PrevSegmentIds(m: Maps, f: Frame, size: nat): seq<byte> {
    if f.Resets() then Zeros(size) else m.Active()
  }

  /** The window is what VP9 predicts from, except for an error-resilient inter frame, which is shown the
      map it should have forgotten, unless that map is zero anyway. */
  lemma WindowIsSpecIff(m: Maps, f: Frame, size: nat)
    requires f.segEnabled
    ensures Window(m, f, size) == PrevSegmentIds(m, f, size) <==>
      f.frameIsIntra || !f.errorResilient || m.Active() == Zeros(size)
  {
  }

  /** A run that shows the exception. */
  lemma StaleWindow(size: nat)
    requires size > 0
    ensures var key := Frame(true, false, true, true, seq(size, _ => 1), true);
      var resilient := Frame(false, true, true, false, seq(size, _ => 1), true);
      Window(Run([key], size), resilient, size) != PrevSegmentIds(Run([key], size), resilient, size)
  {
    var key := Frame(true, false, true, true, seq(size, _ => 1), true);
    var resilient := Frame(false, true, true, false, seq(size, _ => 1), true);
    assert Latest([key], 0);
    WindowIsLatest([key], resilient, size);
    assert Window(Run([key], size), resilient, size)[0] == 1;
    assert Zeros(size)[0] == 0;
  }

  // The buffers.

  class SegmentMaps {
    const size: nat
    const first: array<byte>
    const second: array<byte>
    /** The window at CEDRUS_DEC_VP9_SEGMENT_MAP_OFFSET that driver and hardware share. */
    const window: array<byte>
    var active: nat

    ghost predicate Valid()
      reads this
    {
      && active < 2 && first.Length == second.Length == window.Length == size
      && first != second && first != window && second != window
    }

    ghost function View(): Maps
      requires Valid()
      reads this, first, second
    {
      Maps(first[..], second[..], active)
    }

    constructor (size: nat)
      ensures Valid() && fresh(first) && fresh(second) && fresh(window) && this.size == size
      ensures View() == Run([], size)
    {
      this.size := size;
      first := new byte[size](_ => 0);
      second := new byte[size](_ => 0);
      window := new byte[size](_ => 0);
      active := 0;
      new;
      assert first[..] == Zeros(size) && second[..] == Zeros(size);
    }

    method Configure(f: Frame)
      requires Valid()
      modifies this`active, first, second, window
      ensures Valid() && View() == Configured(old(View()), f, size)
      ensures window[..] == Window(old(View()), f, size)
    {
      Clear(window);
      if f.segEnabled && !f.frameIsIntra {
        Copy(window, if active == 0 then first else second);
      }
      if f.frameIsIntra || f.errorResilient {
        Clear(first);
        Clear(second);
        active := 0;
      }
    }

    method Finish(f: Frame)
      requires Valid() && window[..] == f.output
      modifies this`active, first, second
      ensures Valid() && View() == Finished(old(View()), f)
    {
      if !f.done {
        return;
      }
      if f.segEnabled && f.updateMap {
        var next := 1 - active;
        Copy(if next == 0 then first else second, window);
        active := next;
      }
    }
  }

  method Clear(a: array<byte>)
    modifies a
    ensures a[..] == Zeros(a.Length)
  {
    for k := 0 to a.Length
      invariant forall j | 0 <= j < k :: a[j] == 0
    {
      a[k] := 0;
    }
  }

  method Copy(to: array<byte>, from: array<byte>)
    requires to != from && to.Length == from.Length
    modifies to
    ensures to[..] == from[..]
  {
    for k := 0 to to.Length
      invariant forall j | 0 <= j < k :: to[j] == from[j]
    {
      to[k] := from[k];
    }
  }
}
