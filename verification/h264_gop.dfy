/** Closed groups of pictures: how often an IDR picture comes. */
module H264Gop {
  import opened Words
  import opened H264Headers
  import opened H264Encoder

  function Jobs(events: seq<Event>): (n: nat)
    ensures n <= |events|
  {
    if events == [] then 0
    else Jobs(events[..|events| - 1]) + (if events[|events| - 1].EncodeJob? then 1 else 0)
  }

  /** No write to the shape of the GOP. */
  predicate Constant(events: seq<Event>) {
    forall i | 0 <= i < |events| && events[i].Write? :: !events[i].ctrl.GopClosure? && !events[i].ctrl.GopSize?
  }

  predicate Unforced(events: seq<Event>) {
    forall i | 0 <= i < |events| && events[i].Write? :: !events[i].ctrl.ForceKeyFrame?
  }

  /** The index of the group after `j` jobs of a closed GOP of `n` frames. */
  function IndexAfter(g: u32, n: nat, j: nat): int
    requires n > 0
  {
    if j == 0 then g else (Wrap32(g as int + 1) + (j - 1)) % n
  }

  lemma IndexStep(g: u32, n: nat, j: nat)
    requires 0 < n <= 65535
    ensures 0 <= IndexAfter(g, n, j) < TWO_32
    ensures Wrap32(IndexAfter(g, n, j) + 1) % n == IndexAfter(g, n, j + 1)
  {
    if j > 0 {
      var x := Wrap32(g as int + 1) + (j - 1);
      ModuloStep(x, n);
      assert x + 1 == Wrap32(g as int + 1) + j;
    }
  }

  lemma ModuloStep(x: nat, n: nat)
    requires 0 < n <= 65535
    ensures 0 <= x % n < n && Wrap32(x % n + 1) % n == (x + 1) % n
  {
    var q, r := x / n, x % n;
    FloorDiv(x, n);
    DivMod(x, n);
    ScaleOrder(-1, q, n);
    WordIsWrapped(r + 1);
    if r + 1 < n {
      RowIs(q, r + 1, n);
      RowIs(0, r + 1, n);
    } else {
      assert (q + 1) * n == q * n + n;
      RowIs(q + 1, 0, n);
      RowIs(1, 0, n);
    }
  }

  predicate IdrAt(outputs: seq<Output>, k: int) {
    0 <= k < |outputs| && outputs[k].job.frameType.IdrFrame?
  }

  lemma EncodedStep(t: Trace, setup: Setup, rec: nat)
    requires t.s.Valid()
    ensures var n := Encoded(t, setup, rec);
      && n.s.c == t.s.c.(forceKeyFrame := false) && n.s.gopIndex == NextGopIndex(t.s)
      && |n.outputs| == |t.outputs| + 1 && n.outputs[..|t.outputs|] == t.outputs
      && (IdrAt(n.outputs, |t.outputs|) <==> t.s.c.forceKeyFrame || t.s.gopIndex == 0)
  {
    hide ClampedQp, SpsOf, PpsOf, SliceOf;
  }

  lemma WrittenStep(s: State, ctrl: Ctrl)
    requires !ctrl.GopClosure? && !ctrl.GopSize?
    ensures var n := Written(s, ctrl);
      && n.c.gopClosure == s.c.gopClosure && n.c.gopSize == s.c.gopSize && n.gopIndex == s.gopIndex
      && n.c.forceKeyFrame == (s.c.forceKeyFrame || ctrl.ForceKeyFrame?)
  {
    hide Written;
    WrittenJobFields(s, ctrl);
    WrittenNumbers(s, ctrl);
  }

  /** A run with a constant closed GOP: where its index gets to, and how many pictures it makes. */
  lemma {:induction false} ClosedRun(t: Trace, setup: Setup, events: seq<Event>)
    requires t.s.Valid() && t.s.c.gopClosure && forall i | 0 <= i < |events| :: events[i].Valid()
    requires Constant(events)
    ensures var r := Run(t, setup, events);
      && r.s.c.gopClosure && r.s.c.gopSize == t.s.c.gopSize
      && r.s.gopIndex == IndexAfter(t.s.gopIndex, t.s.c.gopSize, Jobs(events))
      && |r.outputs| == |t.outputs| + Jobs(events)
      && (Unforced(events) && !t.s.c.forceKeyFrame ==> !r.s.c.forceKeyFrame)
  {
    hide IndexAfter, Written, Encoded;
    if events == [] {
      IndexStart(t.s.gopIndex, t.s.c.gopSize);
    } else {
      var before, e := events[..|events| - 1], events[|events| - 1];
      ClosedRun(t, setup, before);
      IndexStep(t.s.gopIndex, t.s.c.gopSize, Jobs(before));
      var b := Run(t, setup, before);
      match e
      case Write(ctrl) => WrittenStep(b.s, ctrl);
      case EncodeJob(rec) => EncodedStep(b, setup, rec);
    }
  }

  /** Which of its pictures are IDR pictures. */
  lemma {:induction false} ClosedPictures(t: Trace, setup: Setup, events: seq<Event>, j: nat)
    requires t.s.Valid() && t.s.c.gopClosure && forall i | 0 <= i < |events| :: events[i].Valid()
    requires Constant(events) && j < Jobs(events)
    ensures var idr := IdrAt(Run(t, setup, events).outputs, |t.outputs| + j);
      var index := IndexAfter(t.s.gopIndex, t.s.c.gopSize, j);
      && (index == 0 ==> idr)
      && (Unforced(events) && !t.s.c.forceKeyFrame ==> (idr <==> index == 0))
  {
    hide IndexAfter, Written, Encoded;
    if events != [] {
      var before, e := events[..|events| - 1], events[|events| - 1];
      ClosedRun(t, setup, before);
      var b := Run(t, setup, before);
      if j < Jobs(before) { ClosedPictures(t, setup, before, j); }
      match e
      case Write(ctrl) => WrittenStep(b.s, ctrl);
      case EncodeJob(rec) =>
        EncodedStep(b, setup, rec);
        var r := Encoded(b, setup, rec);
        assert j < Jobs(before) ==> r.outputs[|t.outputs| + j] == b.outputs[|t.outputs| + j];
    }
  }

  lemma IndexStart(g: u32, n: nat)
    requires n > 0
    ensures IndexAfter(g, n, 0) == g
  {
  }

  /** Whether a group index is 0 at some point of the next `n` jobs. */
  predicate Reaches(g: u32, n: nat)
    requires n > 0
  {
    g == 0 || Wrap32(g as int + 1) % n != 1 % n
  }

  /** The job of a window at which it is. */
  function ZeroAt(g: u32, n: nat): nat
    requires n > 0
  {
    if g == 0 || Wrap32(g as int + 1) % n == 0 then (if g == 0 then 0 else 1) else n - Wrap32(g as int + 1) % n + 1
  }

  lemma ReachesZero(g: u32, n: nat)
    requires 0 < n && Reaches(g, n)
    ensures ZeroAt(g, n) < n && IndexAfter(g, n, ZeroAt(g, n)) == 0
  {
    var b := Wrap32(g as int + 1);
    if g != 0 {
      DivMod(b, n);
      if n == 1 { SmallModulo(b); }
      if b % n != 0 {
        RowIs(0, 1, n);
        assert b + (n - b % n) == (b / n + 1) * n;
        FloorDiv(b, n);
        ScaleOrder(-1, b / n, n);
        RowIs(b / n + 1, 0, n);
      }
    }
  }

  lemma SmallModulo(b: int)
    ensures b % 1 == 0
  {
  }

  lemma NeverZero(g: u32, n: nat, j: nat)
    requires 0 < n && !Reaches(g, n) && j < n
    ensures IndexAfter(g, n, j) != 0
  {
    if j > 0 {
      var b := Wrap32(g as int + 1);
      DivMod(b, n);
      FloorDiv(b, n);
      ScaleOrder(-1, b / n, n);
      RowIs(0, 1, n);
      RowIs(b / n, j, n);
    }
  }

  /** Any gop_size consecutive jobs of a closed GOP of constant size contain an IDR picture, unless the group index
      starts as a multiple of the size other than 0 - then they do not, short of a forced key frame. */
  lemma WindowHasIdrIff(t: Trace, setup: Setup, events: seq<Event>)
    requires t.s.Valid() && t.s.c.gopClosure && forall i | 0 <= i < |events| :: events[i].Valid()
    requires Constant(events) && Unforced(events) && !t.s.c.forceKeyFrame && Jobs(events) == t.s.c.gopSize
    ensures (exists k :: |t.outputs| <= k && IdrAt(Run(t, setup, events).outputs, k))
      <==> Reaches(t.s.gopIndex, t.s.c.gopSize)
  {
    hide Run, IndexAfter, Reaches, ZeroAt;
    var g, n := t.s.gopIndex, t.s.c.gopSize;
    ClosedRun(t, setup, events);
    if Reaches(g, n) {
      WindowHasIdr(t, setup, events);
    } else {
      forall k | |t.outputs| <= k ensures !IdrAt(Run(t, setup, events).outputs, k) {
        if k < |t.outputs| + n {
          NeverZero(g, n, k - |t.outputs|);
          ClosedPictures(t, setup, events, k - |t.outputs|);
        }
      }
    }
  }

  /** With forced key frames there can only be more of them. */
  lemma WindowHasIdr(t: Trace, setup: Setup, events: seq<Event>)
    requires t.s.Valid() && t.s.c.gopClosure && forall i | 0 <= i < |events| :: events[i].Valid()
    requires Constant(events) && Jobs(events) == t.s.c.gopSize && Reaches(t.s.gopIndex, t.s.c.gopSize)
    ensures exists k :: |t.outputs| <= k && IdrAt(Run(t, setup, events).outputs, k)
  {
    hide Run, IndexAfter, Reaches, ZeroAt;
    var j := ZeroAt(t.s.gopIndex, t.s.c.gopSize);
    ReachesZero(t.s.gopIndex, t.s.c.gopSize);
    ClosedPictures(t, setup, events, j);
  }

  /** A stream whose GOP was closed and constant from the start always satisfies the condition. */
  lemma StreamReaches(c: Controls, setup: Setup, events: seq<Event>)
    requires c.Valid() && c.gopClosure && Constant(events) && forall i | 0 <= i < |events| :: events[i].Valid()
    ensures var s := Run(Initial(c), setup, events).s;
      s.c.gopClosure && s.c.gopSize == c.gopSize && Reaches(s.gopIndex, s.c.gopSize)
  {
    hide Run, IndexAfter;
    var n := c.gopSize;
    ClosedRun(Initial(c), setup, events);
    var g := Run(Initial(c), setup, events).s.gopIndex;
    if Jobs(events) == 0 {
      IndexStart(0, n);
    } else {
      IndexBelow(0, n, Jobs(events));
      if g != 0 {
        if g + 1 < n {
          RowIs(0, g + 1, n);
        } else {
          RowIs(1, 0, n);
        }
        RowIs(0, 1, n);
        WordIsWrapped(g + 1);
      }
    }
  }

  /** So in a stream whose GOP is closed and constant, any gop_size consecutive jobs contain an IDR picture. */
  lemma StreamHasIdr(c: Controls, setup: Setup, before: seq<Event>, window: seq<Event>)
    requires c.Valid() && c.gopClosure && Constant(before) && Constant(window) && Jobs(window) == c.gopSize
    requires forall i | 0 <= i < |before| :: before[i].Valid()
    requires forall i | 0 <= i < |window| :: window[i].Valid()
    ensures var t := Run(Initial(c), setup, before);
      exists k :: |t.outputs| <= k && IdrAt(Run(t, setup, window).outputs, k)
  {
    hide Run, Reaches;
    StreamReaches(c, setup, before);
    WindowHasIdr(Run(Initial(c), setup, before), setup, window);
  }

  lemma IndexBelow(g: u32, n: nat, j: nat)
    requires 0 < n && j > 0
    ensures 0 <= IndexAfter(g, n, j) < n
  {
    DivMod(Wrap32(g as int + 1) + (j - 1), n);
    FloorDiv(Wrap32(g as int + 1) + (j - 1), n);
  }

  /** No write to anything that open groups depend on. */
  predicate OpenConstant(events: seq<Event>) {
    forall i | 0 <= i < |events| && events[i].Write? ::
      !events[i].ctrl.GopClosure? && !events[i].ctrl.IPeriod? && !events[i].ctrl.ForceKeyFrame?
  }

  lemma OpenStep(t: Trace, setup: Setup, rec: nat)
    requires t.s.Valid() && !t.s.c.gopClosure && !t.s.c.forceKeyFrame
    ensures var n := Encoded(t, setup, rec);
      && n.s.c == t.s.c && n.s.gopIndex == Wrap32(t.s.gopIndex as int + 1)
      && |n.outputs| == |t.outputs| + 1 && n.outputs[..|t.outputs|] == t.outputs
      && n.outputs[|t.outputs|].job.frameType ==
           if t.s.gopIndex == 0 then IdrFrame else if t.s.gopIndex % t.s.c.iPeriod == 0 then IFrame else PFrame
  {
    hide ClampedQp, SpsOf, PpsOf, SliceOf;
  }

  lemma WrapStep(x: nat)
    ensures Wrap32(Wrap32(x) as int + 1) == Wrap32(x + 1)
  {
  }

  /** An open GOP has one IDR picture, the first; every i_period-th picture is an I picture, and all others are P; the
      index that counts them wraps at 2^32. */
  lemma {:induction false} OpenPictures(c: Controls, setup: Setup, events: seq<Event>)
    requires c.Valid() && !c.gopClosure && !c.forceKeyFrame && forall i | 0 <= i < |events| :: events[i].Valid()
    requires OpenConstant(events)
    ensures var r := Run(Initial(c), setup, events);
      && !r.s.c.gopClosure && !r.s.c.forceKeyFrame && r.s.c.iPeriod == c.iPeriod
      && |r.outputs| == Jobs(events) && r.s.gopIndex == Wrap32(Jobs(events))
      && forall j: nat | j < |r.outputs| :: r.outputs[j].job.frameType ==
           if Wrap32(j) == 0 then IdrFrame else if Wrap32(j) % c.iPeriod == 0 then IFrame else PFrame
  {
    hide Written, Encoded, Wrap32;
    if events == [] {
      WordIsWrapped(0);
    } else {
      var before, e := events[..|events| - 1], events[|events| - 1];
      OpenPictures(c, setup, before);
      var b := Run(Initial(c), setup, before);
      match e
      case Write(ctrl) => OpenWritten(b.s, ctrl);
      case EncodeJob(rec) =>
        OpenStep(b, setup, rec);
        WrapStep(Jobs(before));
        var r := Encoded(b, setup, rec);
        forall j: nat | j < |b.outputs| ensures r.outputs[j] == b.outputs[j] {
          assert r.outputs[..|b.outputs|][j] == b.outputs[j];
        }
    }
  }

  lemma OpenWritten(s: State, ctrl: Ctrl)
    requires !ctrl.GopClosure? && !ctrl.IPeriod? && !ctrl.ForceKeyFrame?
    ensures var n := Written(s, ctrl);
      && n.c.gopClosure == s.c.gopClosure && n.c.iPeriod == s.c.iPeriod && n.gopIndex == s.gopIndex
      && n.c.forceKeyFrame == s.c.forceKeyFrame
  {
    hide Written;
    WrittenJobFields(s, ctrl);
    WrittenNumbers(s, ctrl);
  }

  /** The condition can fail: a group of 4 shortened to 2 after its second picture gives two P pictures in a row. */
  lemma ShrunkGroup(c: Controls, setup: Setup)
    requires c.Valid() && c.gopClosure && c.gopSize == 4 && !c.forceKeyFrame
    ensures var t := Run(Initial(c), setup, [EncodeJob(0), EncodeJob(0), Write(GopSize(2))]);
      t.s.c.gopSize == 2 && t.s.gopIndex == 2 && !Reaches(t.s.gopIndex, t.s.c.gopSize)
  {
    hide Run, Next, Written, Reaches;
    var two := [EncodeJob(0), EncodeJob(0)];
    assert two[..1] == [EncodeJob(0)] && two[..1][..0] == [];
    ClosedRun(Initial(c), setup, two);
    assert IndexAfter(0, 4, 2) == 2;
    RunOne(Initial(c), setup, two, Write(GopSize(2)));
    assert two + [Write(GopSize(2))] == [EncodeJob(0), EncodeJob(0), Write(GopSize(2))];
    NextShrunk(Run(Initial(c), setup, two), setup);
  }

  lemma NextShrunk(t: Trace, setup: Setup)
    requires t.s.Valid() && t.s.gopIndex == 2
    ensures var n := Next(t, setup, Write(GopSize(2)));
      n.s.gopIndex == 2 && n.s.c.gopSize == 2 && !Reaches(2, 2)
  {
    hide Written;
    ShrunkState(t.s);
  }

  lemma RunOne(t: Trace, setup: Setup, events: seq<Event>, e: Event)
    requires t.s.Valid() && e.Valid() && forall i | 0 <= i < |events| :: events[i].Valid()
    ensures forall i | 0 <= i < |events + [e]| :: (events + [e])[i].Valid()
    ensures Run(t, setup, events + [e]) == Next(Run(t, setup, events), setup, e)
  {
    assert (events + [e])[..|events|] == events;
  }

  lemma ShrunkState(s: State)
    requires s.gopIndex == 2
    ensures Written(s, GopSize(2)).gopIndex == 2 && Written(s, GopSize(2)).c.gopSize == 2 && !Reaches(2, 2)
  {
  }
}
