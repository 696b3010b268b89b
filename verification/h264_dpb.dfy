/** Position allocation of the H.264 decoder: which of the engine's frame slots each picture of the DPB occupies. */
module H264Dpb {
  const FRAME_NUM := 18
  const DPB_ENTRIES := 16

  /** A picture, named by the timestamp of its buffer. */
  type Picture = nat

  datatype Entry = Entry(valid: bool, active: bool, picture: Picture)

  /** What a slice or field job carries: the picture it decodes into and the DPB. */
  datatype Job = Job(picture: Picture, dpb: seq<Entry>)
  {
    predicate Valid() {
      |dpb| == DPB_ENTRIES
    }
  }

  /** The pictures of the first `n` entries that are valid and whose buffers are found. */
  function Refs(dpb: seq<Entry>, found: set<Picture>, n: nat): set<Picture>
    requires n <= |dpb|
  {
    set i | 0 <= i < n && dpb[i].valid && dpb[i].picture in found :: dpb[i].picture
  }

  function Used(positions: map<Picture, nat>, refs: set<Picture>): set<nat> {
    set p | p in refs && p in positions :: positions[p]
  }

  /** find_first_zero_bit(), from bit `from` on. */
  function FirstZero(used: set<nat>, from: nat): (z: nat)
    requires from <= FRAME_NUM
    ensures from <= z <= FRAME_NUM && (z < FRAME_NUM ==> z !in used)
    ensures forall k | from <= k < z :: k in used
    decreases FRAME_NUM - from
  {
    if from == FRAME_NUM || from !in used then from else FirstZero(used, from + 1)
  }

  /** Where the job's picture goes: where it is already, or into the first free slot. */
  function Position(positions: map<Picture, nat>, job: Job, found: set<Picture>): nat
    requires job.Valid()
  {
    var refs := Refs(job.dpb, found, DPB_ENTRIES);
    if job.picture in refs && job.picture in positions then positions[job.picture]
    else FirstZero(Used(positions, refs), 0)
  }

  // Counting slots.

  lemma {:induction false} DistinctCount(s: set<nat>, n: nat)
    requires forall k | 0 <= k < n :: k in s
    ensures |s| >= n
  {
    if n > 0 {
      DistinctCount(s - {n - 1}, n - 1);
    }
  }

  lemma {:induction false} UsedCount(positions: map<Picture, nat>, refs: set<Picture>)
    ensures |Used(positions, refs)| <= |refs|
    decreases |refs|
  {
    if refs == {} {
      assert Used(positions, refs) == {};
    } else {
      var p :| p in refs;
      var rest := refs - {p};
      UsedCount(positions, rest);
      if p in positions {
        assert Used(positions, refs) == Used(positions, rest) + {positions[p]};
      } else {
        assert Used(positions, refs) == Used(positions, rest);
      }
    }
  }

  lemma {:induction false} RefsCount(dpb: seq<Entry>, found: set<Picture>, n: nat)
    requires n <= |dpb|
    ensures |Refs(dpb, found, n)| <= n
  {
    if n > 0 {
      RefsCount(dpb, found, n - 1);
      var e := dpb[n - 1];
      if e.valid && e.picture in found {
        assert Refs(dpb, found, n) == Refs(dpb, found, n - 1) + {e.picture};
      } else {
        assert Refs(dpb, found, n) == Refs(dpb, found, n - 1);
      }
    } else {
      assert Refs(dpb, found, 0) == {};
    }
  }

  /** Sixteen entries leave one of the first seventeen slots free. */
  lemma FreeSlot(positions: map<Picture, nat>, dpb: seq<Entry>, found: set<Picture>)
    requires |dpb| == DPB_ENTRIES
    ensures FirstZero(Used(positions, Refs(dpb, found, DPB_ENTRIES)), 0) <= DPB_ENTRIES
  {
    var used := Used(positions, Refs(dpb, found, DPB_ENTRIES));
    RefsCount(dpb, found, DPB_ENTRIES);
    UsedCount(positions, Refs(dpb, found, DPB_ENTRIES));
    var z := FirstZero(used, 0);
    DistinctCount(used, z);
  }

  /** Some valid entry's buffer, which is found, has this slot. */
  predicate Held(positions: map<Picture, nat>, job: Job, found: set<Picture>, slot: nat)
    requires job.Valid()
  {
    exists i | 0 <= i < 16 ::
      job.dpb[i].valid && job.dpb[i].picture in found && job.dpb[i].picture in positions
      && positions[job.dpb[i].picture] == slot
  }

  /** A picture that a valid entry names stays where it is; any other gets the lowest slot that no valid entry holds. */
  lemma PositionIs(positions: map<Picture, nat>, job: Job, found: set<Picture>)
    requires job.Valid()
    ensures var z := Position(positions, job, found);
      if job.picture in found && job.picture in positions
         && exists i | 0 <= i < 16 :: job.dpb[i].valid && job.dpb[i].picture == job.picture
      then z == positions[job.picture]
      else z < 17 && !Held(positions, job, found, z) && forall k: nat | k < z :: Held(positions, job, found, k)
  {
    var refs := Refs(job.dpb, found, DPB_ENTRIES);
    FreeSlot(positions, job.dpb, found);
    UsedIsHeld(positions, job, found);
  }

  lemma UsedIsHeld(positions: map<Picture, nat>, job: Job, found: set<Picture>)
    requires job.Valid()
    ensures forall k: nat :: k in Used(positions, Refs(job.dpb, found, DPB_ENTRIES)) <==> Held(positions, job, found, k)
  {
    var refs := Refs(job.dpb, found, DPB_ENTRIES);
    forall k: nat ensures k in Used(positions, refs) <==> Held(positions, job, found, k) {
      if k in Used(positions, refs) {
        var p :| p in refs && p in positions && positions[p] == k;
        var i :| 0 <= i < DPB_ENTRIES && job.dpb[i].valid && job.dpb[i].picture in found && job.dpb[i].picture == p;
      }
    }
  }

  // Runs.

  /** Between jobs: the slots, the DPB of the last job, and the picture it decoded into. */
  datatype State = State(positions: map<Picture, nat>, dpb: set<Picture>, current: set<Picture>)
  {
    predicate Valid() {
      dpb + current <= positions.Keys && |current| <= 1
    }
  }

  /** No two pictures of the DPB, the current one included, share a slot. */
  ghost predicate Distinct(s: State) {
    && s.Valid()
    && (forall p | p in s.dpb + s.current :: s.positions[p] <= DPB_ENTRIES)
    && forall p, q | p in s.dpb + s.current && q in s.dpb + s.current && p != q :: s.positions[p] != s.positions[q]
  }

  predicate AllFound(job: Job, found: set<Picture>) {
    forall i | 0 <= i < |job.dpb| && job.dpb[i].valid :: job.dpb[i].picture in found
  }

  function ValidRefs(job: Job): set<Picture> {
    set i | 0 <= i < |job.dpb| && job.dpb[i].valid :: job.dpb[i].picture
  }

  /** A new picture: its DPB comes from the last one and the picture decoded before. */
  predicate NewPicture(s: State, job: Job) {
    job.picture !in s.dpb + s.current && ValidRefs(job) <= s.dpb + s.current
  }

  /** A further slice with the same DPB, or a second field whose DPB holds the first one. */
  predicate SamePicture(s: State, job: Job) {
    && s.current == {job.picture}
    && (ValidRefs(job) == s.dpb || (job.picture in ValidRefs(job) && ValidRefs(job) <= s.dpb + s.current))
  }

  function Next(s: State, job: Job, found: set<Picture>): State
    requires job.Valid()
  {
    State(s.positions[job.picture := Position(s.positions, job, found)], ValidRefs(job), {job.picture})
  }

  lemma RefsAreValid(job: Job, found: set<Picture>)
    requires job.Valid() && AllFound(job, found)
    ensures Refs(job.dpb, found, DPB_ENTRIES) == ValidRefs(job)
  {
  }

  lemma NewPictureDistinct(s: State, job: Job, found: set<Picture>)
    requires Distinct(s) && job.Valid() && AllFound(job, found) && NewPicture(s, job)
    ensures Distinct(Next(s, job, found))
    ensures forall p | p in ValidRefs(job) ::
      Next(s, job, found).positions[p] == s.positions[p] != Position(s.positions, job, found)
  {
    RefsAreValid(job, found);
    FreeSlot(s.positions, job.dpb, found);
    var z := Position(s.positions, job, found);
    forall p | p in ValidRefs(job) ensures s.positions[p] != z {
      assert s.positions[p] in Used(s.positions, ValidRefs(job));
    }
  }

  /** What a picture's first job leaves behind for its later ones. */
  ghost predicate Settled(s: State) {
    && s.Valid() && |s.current| == 1
    && forall p | p in s.current :: p in s.dpb || s.positions[p] == FirstZero(Used(s.positions, s.dpb), 0)
  }

  lemma NewPictureSettled(s: State, job: Job, found: set<Picture>)
    requires s.Valid() && job.Valid() && AllFound(job, found) && NewPicture(s, job)
    ensures Settled(Next(s, job, found))
  {
    RefsAreValid(job, found);
    var n := Next(s, job, found);
    assert Used(n.positions, n.dpb) == Used(s.positions, n.dpb) by {
      assert forall p | p in n.dpb :: n.positions[p] == s.positions[p];
    }
  }

  /** All slices and both fields of a picture get the slot that its first job chose. */
  lemma SamePictureSameSlot(s: State, job: Job, found: set<Picture>)
    requires s.Valid() && Settled(s) && job.Valid() && AllFound(job, found) && SamePicture(s, job)
    ensures Position(s.positions, job, found) == s.positions[job.picture]
    ensures Settled(Next(s, job, found)) && Next(s, job, found).positions == s.positions
  {
    RefsAreValid(job, found);
    assert s.positions[job.picture := s.positions[job.picture]] == s.positions;
  }

  datatype Step = Step(job: Job, found: set<Picture>)

  function Run(steps: seq<Step>): State
    requires forall i | 0 <= i < |steps| :: steps[i].job.Valid()
  {
    if steps == [] then State(map[], {}, {})
    else Next(Run(steps[..|steps| - 1]), steps[|steps| - 1].job, steps[|steps| - 1].found)
  }

  /** Each job continues the picture before it or starts a new one, and finds the buffers it names. */
  predicate Legal(steps: seq<Step>)
    requires forall i | 0 <= i < |steps| :: steps[i].job.Valid()
  {
    steps == [] ||
    (var front, last := steps[..|steps| - 1], steps[|steps| - 1];
     && Legal(front) && AllFound(last.job, last.found)
     && (NewPicture(Run(front), last.job) || SamePicture(Run(front), last.job)))
  }

  /** In every legal run the slots of the DPB and of the current picture are distinct and within the first seventeen. */
  lemma {:induction false} RunDistinct(steps: seq<Step>)
    requires (forall i | 0 <= i < |steps| :: steps[i].job.Valid()) && Legal(steps)
    ensures Distinct(Run(steps))
    ensures steps != [] ==> Settled(Run(steps))
  {
    if steps != [] {
      var front, last := steps[..|steps| - 1], steps[|steps| - 1];
      RunDistinct(front);
      var s := Run(front);
      if NewPicture(s, last.job) {
        NewPictureDistinct(s, last.job, last.found);
        NewPictureSettled(s, last.job, last.found);
      } else {
        assert front != [] by { assert Run([]).current == {}; }
        SamePictureSameSlot(s, last.job, last.found);
      }
    }
  }

  // The driver's loop.

  class Decoder {
    /** The slot recorded in each buffer. */
    var positions: map<Picture, nat>

    /** The allocation of cedrus_write_frame_list; the list is built beside it, one buffer a slot. */
    method WriteFrameList(job: Job, found: set<Picture>) returns (position: nat, picList: map<nat, Picture>)
      requires job.Valid() && found <= positions.Keys
      modifies this
      ensures position == Position(old(positions), job, found)
      ensures positions == old(positions)[job.picture := position]
      ensures picList.Keys == {position} + Used(old(positions), ActiveRefs(job, found))
      ensures picList[position] == job.picture
      ensures var refs := Refs(job.dpb, found, DPB_ENTRIES);
        (forall p, q | p in refs && q in refs && p != q :: old(positions[p]) != old(positions[q])) ==>
        forall p | p in ActiveRefs(job, found) && old(positions[p]) != position :: picList[old(positions[p])] == p
    {
      var used: set<nat> := {};
      var output: int := -1;
      picList := map[];
      for i := 0 to DPB_ENTRIES
        invariant positions == old(positions)
        invariant used == Used(positions, Refs(job.dpb, found, i))
        invariant output >= 0 <==> job.picture in Refs(job.dpb, found, i)
        invariant output >= 0 ==> output == positions[job.picture]
        invariant picList.Keys == Used(positions, ActiveTo(job, found, i))
        invariant forall k | k in picList :: picList[k] in ActiveTo(job, found, i) && positions[picList[k]] == k
      {
        ghost var refs, active := Refs(job.dpb, found, i), ActiveTo(job, found, i);
        var e := job.dpb[i];
        if e.valid && e.picture in found {
          assert Refs(job.dpb, found, i + 1) == refs + {e.picture};
          var slot := positions[e.picture];
          used := used + {slot};
          if e.picture == job.picture {
            output := slot;
            assert ActiveTo(job, found, i + 1) == active;
          } else if e.active {
            picList := picList[slot := e.picture];
            assert ActiveTo(job, found, i + 1) == active + {e.picture};
          } else {
            assert ActiveTo(job, found, i + 1) == active;
          }
        } else {
          assert Refs(job.dpb, found, i + 1) == refs;
          assert ActiveTo(job, found, i + 1) == active;
        }
      }
      position := if output >= 0 then output else FirstZero(used, 0);
      positions := positions[job.picture := position];
      picList := picList[position := job.picture];
    }
  }

  function ActiveTo(job: Job, found: set<Picture>, n: nat): set<Picture>
    requires n <= |job.dpb|
  {
    set i | 0 <= i < n && job.dpb[i].valid && job.dpb[i].active && job.dpb[i].picture in found
            && job.dpb[i].picture != job.picture :: job.dpb[i].picture
  }

  function ActiveRefs(job: Job, found: set<Picture>): set<Picture>
    requires job.Valid()
  {
    ActiveTo(job, found, DPB_ENTRIES)
  }

  /** What is listed beside the current picture: the found pictures of valid entries that are active. */
  lemma ActiveRefsAre(job: Job, found: set<Picture>, p: Picture)
    requires job.Valid()
    ensures p in ActiveRefs(job, found) <==>
      p != job.picture && p in found
      && exists i | 0 <= i < 16 :: job.dpb[i].valid && job.dpb[i].active && job.dpb[i].picture == p
  {
  }
}
