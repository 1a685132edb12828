/**
 * From the encoder to viewers and recordings (media.c, rtsp.c, record.c):
 * frames held for privacy, a ring that may overrun its readers, PLAY and PAUSE,
 * and segments.  Whatever the interleaving, a picture that depends on the one
 * before it is only ever delivered straight after that one.
 */
module Delivery {
  import opened Bytes
  import opened Streams
  import AnnexB
  import Rtp

  /** A published frame, as decoding sees it: whether it stands alone, and its number among all the encoder's frames. */
  datatype Entry = Entry(key: bool, encoded: nat)

  // ----- the publisher

  /** The frame jipc_publish_video is at work on, past the hold: main says that the first ring has yet to get it. */
  datatype Passing = Passing(idr: bool, keyframe: bool, encoded: nat, main: bool)

  /**
   * One source: the privacy hold, whether the source waits for a keyframe, how
   * many frames its encoder has made, whether its thread still runs, what it has
   * published in its ring and, if both says that a second ring shares it, in that
   * one, and the frame between its hold test and the rings.
   */
  datatype Source = Source(
    hold: bool, waiting: bool, encoded: nat, alive: bool, log: seq<Entry>, both: bool, shared: seq<Entry>,
    passing: Option<Passing>)

  /** The start of jipc_publish_video, with the encoder's next frame: privacy_hold is tested. */
  function TestHold(s: Source, idr: bool, keyframe: bool): Source
    requires s.alive && s.passing.None?
  {
    var t := s.(encoded := s.encoded + 1);
    if s.hold then t.(waiting := true) else t.(passing := Some(Passing(idr, keyframe, s.encoded, true)))
  }

  /**
   * The frame enters the first ring, unless the source waits for a keyframe.  The
   * waiting flag is this thread's own, so it is tested in the same step.  stored
   * says whether the ring got its copy; the thread ends when a copy was not made.
   */
  function StoreMain(s: Source, stored: bool): Source
    requires s.passing.Some? && s.passing.value.main
  {
    var f := s.passing.value;
    if s.waiting && !f.idr then s.(passing := None)
    else if !stored then s.(waiting := false, alive := false, passing := None)
    else
      s.(waiting := false, log := s.log + [Entry(f.keyframe || f.idr, f.encoded)],
         passing := if s.both then Some(f.(main := false)) else None)
  }

  /** And the ring that shares the source, under its own lock. */
  function StoreShared(s: Source, stored: bool): Source
    requires s.passing.Some? && !s.passing.value.main
  {
    var f := s.passing.value;
    s.(alive := stored, passing := None,
       shared := s.shared + if stored then [Entry(f.keyframe || f.idr, f.encoded)] else [])
  }

  /** Published frames follow one another in encoder order, but for those that stand alone. */
  ghost predicate LogOk(log: seq<Entry>) {
    forall i :: 0 < i < |log| ==> log[i].key || log[i].encoded == log[i - 1].encoded + 1
  }

  ghost predicate SourceInv(s: Source) {
    && LogOk(s.log) && (s.passing.Some? ==> s.alive && s.passing.value.encoded + 1 == s.encoded)
    && (s.log != [] && s.alive && !s.waiting ==>
          s.log[|s.log| - 1].encoded + (if s.passing.Some? && s.passing.value.main then 2 else 1) == s.encoded)
    && SharedInv(s)
  }

  /** The second ring is given what the first was, and is behind it by one frame at most. */
  ghost predicate SharedInv(s: Source) {
    if !s.both then s.shared == [] && (s.passing.Some? ==> s.passing.value.main)
    else
      var last := |s.log| - 1;
      if s.passing.Some? && !s.passing.value.main then
        var f := s.passing.value;
        s.log != [] && s.shared == s.log[..last] && s.log[last] == Entry(f.keyframe || f.idr, f.encoded)
      else s.shared == s.log || (!s.alive && s.log != [] && s.shared == s.log[..last])
  }

  // ----- readers

  /** An RTSP client's video track; sent holds the sequence numbers of the frames it was sent. */
  datatype Viewer = Viewer(playing: bool, needKeyframe: bool, cursor: nat, sent: seq<nat>)

  function Play(v: Viewer): Viewer {
    v.(playing := true, needKeyframe := v.needKeyframe || !v.playing)
  }

  function Pause(v: Viewer): Viewer {
    v.(playing := false)
  }

  /** One turn of stream_frames on the video track. */
  function Stream1(v: Viewer, log: seq<Entry>, capacity: nat): Viewer
    requires capacity > 0
  {
    var w := Wanted(|log|, capacity, v.cursor);
    if !v.playing || w == 0 then v
    else
      var key := log[w - 1].key;
      var need := v.needKeyframe || (v.cursor > 0 && w != v.cursor + 1 && !key);
      if need && !key then v.(cursor := w, needKeyframe := true)
      else v.(cursor := w, needKeyframe := false, sent := v.sent + [w])
  }

  datatype Item = Sps | Pps | Picture(sequence: nat)

  /** The recorder on one channel: its segments so far, the last of them still being written while open. */
  datatype Recorder = Recorder(cursor: nat, open: bool, halted: bool, segments: seq<seq<Item>>)

  function Append(segments: seq<seq<Item>>, item: Item): seq<seq<Item>> {
    if segments == [] then [[item]] else segments[|segments| - 1 := segments[|segments| - 1] + [item]]
  }

  /**
   * One turn of record_main on a channel: due says the segment is old enough to
   * close, known that the stream's parameter sets are, written that every write
   * succeeds.
   */
  function Record1(r: Recorder, log: seq<Entry>, capacity: nat, due: bool, known: bool, written: bool): Recorder
    requires capacity > 0
  {
    var w := Wanted(|log|, capacity, r.cursor);
    if r.halted || w == 0 then r
    else
      var key := log[w - 1].key;
      var lost := r.cursor > 0 && w != r.cursor + 1;
      var open := r.open && !lost && !(due && key);
      if !open && !key then r.(cursor := w, open := false)
      else if !written || (!open && !known) then r.(cursor := w, open := open, halted := true)
      else
        var segments := if open then r.segments else r.segments + [[Sps, Pps]];
        Recorder(w, true, false, Append(segments, Picture(w)))
  }

  /** Recording switched off: every segment is closed and the cursor forgotten. */
  function Disable(r: Recorder): Recorder {
    r.(open := false, cursor := 0, halted := false)
  }

  /** retention closes open segments when the quota holds nothing else to delete. */
  function CloseSegment(r: Recorder): Recorder {
    r.(open := false)
  }

  /** Each of these either stands alone or is the ring's successor of the one before. */
  ghost predicate Linked(log: seq<Entry>, numbers: seq<nat>) {
    && (forall i :: 0 <= i < |numbers| ==> 1 <= numbers[i] <= |log|)
    && (numbers != [] ==> log[numbers[0] - 1].key)
    && forall i, j :: 0 <= i && j == i + 1 < |numbers| ==> log[numbers[j] - 1].key || numbers[j] == numbers[i] + 1
  }

  ghost predicate ViewerInv(v: Viewer, log: seq<Entry>) {
    && v.cursor <= |log| && Linked(log, v.sent)
    && (v.playing && !v.needKeyframe ==> v.sent != [] && v.sent[|v.sent| - 1] == v.cursor)
  }

  /** SPS, PPS and a keyframe, then pictures each of which directly follows the one before. */
  ghost predicate SegmentOk(log: seq<Entry>, segment: seq<Item>) {
    && |segment| >= 3 && segment[0] == Sps && segment[1] == Pps
    && (forall i :: 2 <= i < |segment| ==> segment[i].Picture? && 1 <= segment[i].sequence <= |log|)
    && log[segment[2].sequence - 1].key
    && forall i, j :: 2 <= i && j == i + 1 < |segment| ==>
         log[segment[j].sequence - 1].key || segment[j].sequence == segment[i].sequence + 1
  }

  ghost predicate EndsAt(segment: seq<Item>, sequence: nat) {
    segment != [] && segment[|segment| - 1] == Picture(sequence)
  }

  ghost predicate RecorderInv(r: Recorder, log: seq<Entry>) {
    && r.cursor <= |log|
    && (forall i :: 0 <= i < |r.segments| ==> SegmentOk(log, r.segments[i]))
    && (r.open && !r.halted ==> r.segments != [] && EndsAt(r.segments[|r.segments| - 1], r.cursor))
  }

  // ----- the whole system, step by step

  /** second is a viewer of the ring that shares the source; the recorder reads the first. */
  datatype System = System(source: Source, viewer: Viewer, second: Viewer, recorder: Recorder)

  datatype Step =
    | Encode(idr: bool, keyframe: bool) | Store(stored: bool) | Share(stored: bool)
    | Hold(on: bool)
    | ViewerPlay | ViewerPause | ViewerRead
    | SecondPlay | SecondPause | SecondRead
    | RecorderRead(due: bool, known: bool, written: bool) | RecorderOff | RecorderClose

  /** The publisher's next step, if this is it. */
  function Publish1(s: Source, step: Step): Source {
    match step
    case Encode(idr, keyframe) => if s.alive && s.passing.None? then TestHold(s, idr, keyframe) else s
    case Store(stored) => if s.passing.Some? && s.passing.value.main then StoreMain(s, stored) else s
    case Share(stored) => if s.passing.Some? && !s.passing.value.main then StoreShared(s, stored) else s
    case _ => s
  }

  function Apply(s: System, step: Step, capacity: nat): System
    requires capacity > 0
  {
    match step
    case Encode(_, _) | Store(_) | Share(_) => s.(source := Publish1(s.source, step))
    case Hold(on) => s.(source := s.source.(hold := on))
    case ViewerPlay => s.(viewer := Play(s.viewer))
    case ViewerPause => s.(viewer := Pause(s.viewer))
    case ViewerRead => s.(viewer := Stream1(s.viewer, s.source.log, capacity))
    case SecondPlay => s.(second := Play(s.second))
    case SecondPause => s.(second := Pause(s.second))
    case SecondRead => s.(second := Stream1(s.second, s.source.shared, capacity))
    case RecorderRead(due, known, written) => s.(recorder := Record1(s.recorder, s.source.log, capacity, due, known, written))
    case RecorderOff => s.(recorder := Disable(s.recorder))
    case RecorderClose => s.(recorder := CloseSegment(s.recorder))
  }

  ghost predicate Inv(s: System) {
    && SourceInv(s.source)
    && ViewerInv(s.viewer, s.source.log) && ViewerInv(s.second, s.source.shared)
    && RecorderInv(s.recorder, s.source.log)
  }

  function Start(hold: bool, both: bool): System {
    System(Source(hold, false, 0, true, [], both, [], None), Viewer(false, false, 0, []), Viewer(false, false, 0, []), Recorder(0, false, false, []))
  }

  lemma LogAppend(log: seq<Entry>, e: Entry)
    requires LogOk(log) && (log == [] || e.key || log[|log| - 1].encoded + 1 == e.encoded)
    ensures LogOk(log + [e])
  {
  }

  lemma TestKeeps(s: Source, idr: bool, keyframe: bool)
    requires SourceInv(s) && s.alive && s.passing.None?
    ensures SourceInv(TestHold(s, idr, keyframe))
  {
    hide LogOk;
  }

  lemma StoreKeeps(s: Source, stored: bool)
    requires SourceInv(s) && s.passing.Some? && s.passing.value.main
    ensures SourceInv(StoreMain(s, stored))
  {
    hide LogOk;
    var f := s.passing.value;
    if s.log == [] || f.idr || !s.waiting {
      LogAppend(s.log, Entry(f.keyframe || f.idr, f.encoded));
    }
  }

  lemma ShareKeeps(s: Source, stored: bool)
    requires SourceInv(s) && s.passing.Some? && !s.passing.value.main
    ensures SourceInv(StoreShared(s, stored))
  {
    hide LogOk;
  }

  lemma PublishKeeps(s: Source, step: Step)
    requires SourceInv(s)
    ensures SourceInv(Publish1(s, step))
    ensures s.log <= Publish1(s, step).log && s.shared <= Publish1(s, step).shared
  {
    hide SourceInv;
    match step
    case Encode(idr, keyframe) =>
      if s.alive && s.passing.None? {
        TestKeeps(s, idr, keyframe);
      }
    case Store(stored) =>
      if s.passing.Some? && s.passing.value.main {
        StoreKeeps(s, stored);
      }
    case Share(stored) =>
      if s.passing.Some? && !s.passing.value.main {
        ShareKeeps(s, stored);
      }
    case _ =>
  }

  lemma ViewerKeeps(v: Viewer, log: seq<Entry>, longer: seq<Entry>)
    requires log <= longer && ViewerInv(v, log)
    ensures ViewerInv(v, longer)
  {
  }

  /** Readers are not disturbed by what is published after. */
  lemma RecorderKeeps(r: Recorder, log: seq<Entry>, longer: seq<Entry>)
    requires log <= longer && RecorderInv(r, log)
    ensures RecorderInv(r, longer)
  {
    forall i | 0 <= i < |r.segments| ensures SegmentOk(longer, r.segments[i]) {
      assert SegmentOk(log, r.segments[i]);
    }
  }

  lemma LinkedAppend(log: seq<Entry>, numbers: seq<nat>, w: nat)
    requires Linked(log, numbers) && 1 <= w <= |log|
    requires log[w - 1].key || (numbers != [] && w == numbers[|numbers| - 1] + 1)
    ensures Linked(log, numbers + [w])
  {
  }

  lemma Stream1Keeps(v: Viewer, log: seq<Entry>, capacity: nat)
    requires capacity > 0 && ViewerInv(v, log)
    ensures ViewerInv(Stream1(v, log, capacity), log)
  {
    var v' := Stream1(v, log, capacity);
    if v'.sent != v.sent {
      LinkedAppend(log, v.sent, v'.cursor);
    }
  }

  lemma SegmentAppend(log: seq<Entry>, segment: seq<Item>, w: nat)
    requires segment == [Sps, Pps] || SegmentOk(log, segment)
    requires 1 <= w <= |log|
    requires log[w - 1].key || (|segment| > 2 && segment[|segment| - 1] == Picture(w - 1))
    ensures SegmentOk(log, segment + [Picture(w)])
  {
  }

  lemma SegmentSize(log: seq<Entry>, segment: seq<Item>)
    requires SegmentOk(log, segment)
    ensures |segment| > 2 && segment[|segment| - 1].Picture? && segment[|segment| - 1].sequence > 0
  {
  }

  lemma Record1Keeps(r: Recorder, log: seq<Entry>, capacity: nat, due: bool, known: bool, written: bool)
    requires capacity > 0 && RecorderInv(r, log)
    ensures var r' := Record1(r, log, capacity, due, known, written);
            RecorderInv(r', log)
  {
    hide Wanted, SegmentOk;
    var r' := Record1(r, log, capacity, due, known, written);
    var w, n := Wanted(|log|, capacity, r.cursor), |r.segments|;
    if w > 0 && !r.halted && r'.segments != r.segments {
      if |r'.segments| > n {
        SegmentAppend(log, [Sps, Pps], w);
        assert r'.segments == r.segments + [[Sps, Pps] + [Picture(w)]];
      } else {
        assert SegmentOk(log, r.segments[n - 1]);
        SegmentSize(log, r.segments[n - 1]);
        SegmentAppend(log, r.segments[n - 1], w);
      }
    }
  }

  lemma StepKeeps(s: System, step: Step, capacity: nat)
    requires capacity > 0 && Inv(s)
    ensures Inv(Apply(s, step, capacity))
  {
    hide LogOk, Linked, SegmentOk, Stream1, Record1, Publish1;
    match step
    case Encode(_, _) | Store(_) | Share(_) =>
      PublishKeeps(s.source, step);
      var t := Publish1(s.source, step);
      ViewerKeeps(s.viewer, s.source.log, t.log);
      ViewerKeeps(s.second, s.source.shared, t.shared);
      RecorderKeeps(s.recorder, s.source.log, t.log);
    case SecondRead => Stream1Keeps(s.second, s.source.shared, capacity);
    case ViewerRead => Stream1Keeps(s.viewer, s.source.log, capacity);
    case RecorderRead(due, known, written) => Record1Keeps(s.recorder, s.source.log, capacity, due, known, written);
    case _ =>
  }

  function Run(s: System, steps: seq<Step>, capacity: nat): System
    requires capacity > 0
    decreases |steps|
  {
    if steps == [] then s else Run(Apply(s, steps[0], capacity), steps[1..], capacity)
  }

  lemma {:induction false} RunKeeps(s: System, steps: seq<Step>, capacity: nat)
    requires capacity > 0 && Inv(s)
    ensures Inv(Run(s, steps, capacity))
    decreases |steps|
  {
    if steps != [] {
      StepKeeps(s, steps[0], capacity);
      RunKeeps(Apply(s, steps[0], capacity), steps[1..], capacity);
    }
  }

  /** In encoder order, this entry depends on nothing or on the entry that was delivered before it. */
  ghost predicate Decodable(log: seq<Entry>, previous: nat, number: nat)
    requires 1 <= previous <= |log| && 1 <= number <= |log|
  {
    log[number - 1].key || log[number - 1].encoded == log[previous - 1].encoded + 1
  }

  /** Ring successors are encoder successors. */
  lemma SuccessorsDecode(log: seq<Entry>, number: nat)
    requires LogOk(log) && 1 < number <= |log|
    ensures Decodable(log, number - 1, number)
  {
  }

  lemma LinkedDecodes(log: seq<Entry>, sent: seq<nat>, i: nat)
    requires LogOk(log) && Linked(log, sent) && 0 < i < |sent|
    ensures 1 <= sent[i - 1] <= |log| && 1 <= sent[i] <= |log| && Decodable(log, sent[i - 1], sent[i])
  {
    assert 1 <= sent[i - 1];
    if !log[sent[i] - 1].key {
      SuccessorsDecode(log, sent[i]);
    }
  }

  lemma SegmentDecodes(log: seq<Entry>, segment: seq<Item>, i: nat)
    requires LogOk(log) && SegmentOk(log, segment) && 2 < i < |segment|
    ensures segment[i - 1].Picture? && segment[i].Picture?
    ensures 1 <= segment[i - 1].sequence <= |log| && 1 <= segment[i].sequence <= |log|
    ensures Decodable(log, segment[i - 1].sequence, segment[i].sequence)
  {
    assert 1 <= segment[i - 1].sequence;
    if !log[segment[i].sequence - 1].key {
      SuccessorsDecode(log, segment[i].sequence);
    }
  }

  /** The first frame sent stands alone, and every other one stands alone or directly follows the one sent before it. */
  ghost predicate Decodes(log: seq<Entry>, sent: seq<nat>) {
    && (forall i :: 0 <= i < |sent| ==> 1 <= sent[i] <= |log|)
    && (sent != [] ==> log[sent[0] - 1].key)
    && forall i :: 0 < i < |sent| ==> Decodable(log, sent[i - 1], sent[i])
  }

  lemma ViewerSeesDecodable(v: Viewer, log: seq<Entry>)
    requires LogOk(log) && ViewerInv(v, log)
    ensures Decodes(log, v.sent)
  {
    hide Decodable, LogOk;
    forall i | 0 < i < |v.sent| ensures Decodable(log, v.sent[i - 1], v.sent[i]) {
      LinkedDecodes(log, v.sent, i);
    }
  }

  lemma SharedLogOk(s: Source)
    requires SourceInv(s)
    ensures LogOk(s.shared) && s.shared <= s.log && (s.both ==> |s.shared| + 1 >= |s.log|)
  {
  }

  /**
   * End to end: in every run of encoder frames, privacy holds, ring overruns,
   * PLAY, PAUSE and recording switches, the first frame a viewer is sent stands
   * alone, and every other one stands alone or directly follows, in encoder
   * order, the frame sent before it.  So it is for viewers of the ring that shares
   * the source, which holds the same frames but for the last one at most.
   */
  lemma ViewerDecodes(hold: bool, both: bool, steps: seq<Step>, capacity: nat)
    requires capacity > 0
    ensures var s := Run(Start(hold, both), steps, capacity);
            && Decodes(s.source.log, s.viewer.sent) && Decodes(s.source.shared, s.second.sent)
            && s.source.shared <= s.source.log && (s.source.both ==> |s.source.shared| + 1 >= |s.source.log|)
  {
    var s := Run(Start(hold, both), steps, capacity);
    RunKeeps(Start(hold, both), steps, capacity);
    hide Run, Decodes, LogOk, SharedInv;
    SharedLogOk(s.source);
    ViewerSeesDecodable(s.viewer, s.source.log);
    ViewerSeesDecodable(s.second, s.source.shared);
  }

  /** And every segment holds SPS, PPS, a frame that stands alone, and then frames that decode in the same sense. */
  lemma SegmentsDecode(hold: bool, both: bool, steps: seq<Step>, capacity: nat, k: nat)
    requires capacity > 0
    requires k < |Run(Start(hold, both), steps, capacity).recorder.segments|
    ensures var s := Run(Start(hold, both), steps, capacity);
            var log, segment := s.source.log, s.recorder.segments[k];
            && SegmentOk(log, segment)
            && forall i :: 2 < i < |segment| ==> Decodable(log, segment[i - 1].sequence, segment[i].sequence)
  {
    var s := Run(Start(hold, both), steps, capacity);
    RunKeeps(Start(hold, both), steps, capacity);
    var log, segment := s.source.log, s.recorder.segments[k];
    assert SegmentOk(log, segment);
    hide Run, Decodable, LogOk;
    forall i | 2 < i < |segment| ensures Decodable(log, segment[i - 1].sequence, segment[i].sequence) {
      SegmentDecodes(log, segment, i);
    }
  }

  // ----- what is delivered, not only what is not

  /** A frame of the encoder. */
  datatype Coded = Coded(idr: bool, keyframe: bool)

  /** The publisher at work, with memory for every copy. */
  function PublishAll(s: Source, frames: seq<Coded>): Source
    decreases |frames|
  {
    if frames == [] then s
    else
      var tested := Publish1(s, Encode(frames[0].idr, frames[0].keyframe));
      PublishAll(Publish1(Publish1(tested, Store(true)), Share(true)), frames[1..])
  }

  /** The first of the frames that a source lets through: a waiting one looks for an IDR. */
  function Resume(frames: seq<Coded>, waiting: bool): (r: nat)
    ensures r <= |frames| && (!waiting ==> r == 0)
    ensures waiting ==> (forall i :: 0 <= i < r ==> !frames[i].idr) && (r < |frames| ==> frames[r].idr)
  {
    if !waiting || frames == [] || frames[0].idr then 0 else 1 + Resume(frames[1..], waiting)
  }

  function Numbered(frames: seq<Coded>, from: nat): (log: seq<Entry>)
    ensures |log| == |frames|
  {
    seq(|frames|, i requires 0 <= i < |frames| => Entry(frames[i].keyframe || frames[i].idr, from + i))
  }

  /** t is s after these frames, of which those from the resumption on entered the rings. */
  ghost predicate Entered(s: Source, frames: seq<Coded>, t: Source) {
    var r := Resume(frames, s.waiting);
    var entered := Numbered(frames[r..], s.encoded + r);
    && t.log == s.log + entered && t.shared == (if s.both then s.shared + entered else s.shared)
    && t.(log := s.log, shared := s.shared) == s.(encoded := s.encoded + |frames|, waiting := s.waiting && r == |frames|)
  }

  /** Without a hold every frame enters the rings, in order, from the first IDR on if the source waits for one. */
  lemma {:induction false} FramesEnter(s: Source, frames: seq<Coded>)
    requires SourceInv(s) && s.alive && s.passing.None? && !s.hold
    ensures Entered(s, frames, PublishAll(s, frames))
    decreases |frames|
  {
    hide Publish1, SourceInv, Entered;
    if frames == [] {
      NoneEntered(s);
    } else {
      var f, rest := frames[0], frames[1..];
      OneFrame(s, f);
      StepsKeep(s, f);
      var u := Publish1(Publish1(Publish1(s, Encode(f.idr, f.keyframe)), Store(true)), Share(true));
      FramesEnter(u, rest);
      if s.waiting && !f.idr {
        SkippedFirst(s, frames, u, PublishAll(s, frames));
      } else {
        EnteredFirst(s, frames, u, PublishAll(s, frames));
      }
    }
  }

  lemma NoneEntered(s: Source)
    ensures Entered(s, [], s)
  {
    hide Numbered, Resume;
    NoFrames(s.encoded, s.waiting);
  }

  lemma SkippedFirst(s: Source, frames: seq<Coded>, u: Source, t: Source)
    requires frames != [] && s.waiting && !frames[0].idr && u == s.(encoded := s.encoded + 1, log := s.log + [], shared := s.shared + [])
    requires Entered(u, frames[1..], t)
    ensures Entered(s, frames, t)
  {
    hide Numbered, Resume;
    ResumeNext(frames, true);
    var r := Resume(frames, true);
    assert s.log + [] == s.log && s.shared + [] == s.shared;
    assert frames[1..][r - 1..] == frames[r..];
  }

  lemma EnteredFirst(s: Source, frames: seq<Coded>, u: Source, t: Source)
    requires frames != [] && (!s.waiting || frames[0].idr)
    requires var e := Entry(frames[0].keyframe || frames[0].idr, s.encoded);
             u == s.(encoded := s.encoded + 1, waiting := false, log := s.log + [e], shared := if s.both then s.shared + [e] else s.shared)
    requires Entered(u, frames[1..], t)
    ensures Entered(s, frames, t)
  {
    hide Numbered, Resume;
    var e, rest := Entry(frames[0].keyframe || frames[0].idr, s.encoded), frames[1..];
    ResumeNext(frames, s.waiting);
    NumberedNext(frames, s.encoded);
    assert frames[0..] == frames && rest[0..] == rest;
    Shift(s.log, e, Numbered(rest, s.encoded + 1));
    Shift(s.shared, e, Numbered(rest, s.encoded + 1));
  }

  lemma NoFrames(from: nat, waiting: bool)
    ensures Numbered([], from) == [] && Resume([], waiting) == 0
  {
  }

  lemma ResumeNext(frames: seq<Coded>, waiting: bool)
    requires frames != []
    ensures Resume(frames, waiting) == if !waiting || frames[0].idr then 0 else 1 + Resume(frames[1..], true)
    ensures Resume(frames[1..], false) == 0
  {
  }

  lemma OneFrame(s: Source, f: Coded)
    requires s.alive && s.passing.None? && !s.hold
    ensures var entered := if s.waiting && !f.idr then [] else [Entry(f.keyframe || f.idr, s.encoded)];
            Publish1(Publish1(Publish1(s, Encode(f.idr, f.keyframe)), Store(true)), Share(true))
            == s.(encoded := s.encoded + 1, waiting := s.waiting && !f.idr,
                  log := s.log + entered, shared := if s.both then s.shared + entered else s.shared)
  {
  }

  lemma StepsKeep(s: Source, f: Coded)
    requires SourceInv(s)
    ensures SourceInv(Publish1(Publish1(Publish1(s, Encode(f.idr, f.keyframe)), Store(true)), Share(true)))
  {
    hide SourceInv, Publish1;
    PublishKeeps(s, Encode(f.idr, f.keyframe));
    PublishKeeps(Publish1(s, Encode(f.idr, f.keyframe)), Store(true));
    PublishKeeps(Publish1(Publish1(s, Encode(f.idr, f.keyframe)), Store(true)), Share(true));
  }

  lemma NumberedNext(frames: seq<Coded>, from: nat)
    requires frames != []
    ensures Numbered(frames, from) == [Entry(frames[0].keyframe || frames[0].idr, from)] + Numbered(frames[1..], from + 1)
  {
  }

  /** During a hold none does, and afterwards the source waits for an IDR. */
  lemma {:induction false} HeldFramesStayOut(s: Source, frames: seq<Coded>)
    requires s.alive && s.passing.None? && s.hold
    ensures PublishAll(s, frames) == s.(encoded := s.encoded + |frames|, waiting := s.waiting || frames != [])
    decreases |frames|
  {
    if frames != [] {
      HeldFramesStayOut(s.(encoded := s.encoded + 1, waiting := true), frames[1..]);
    }
  }

  /** A copy that is not made ends the thread, and publishes nothing. */
  lemma FailedCopyEnds(s: Source)
    requires SourceInv(s) && s.passing.Some?
    ensures var f := s.passing.value;
            var t := Publish1(s, if f.main then Store(false) else Share(false));
            t.log == s.log && t.shared == s.shared && t.passing.None? && (t.alive <==> f.main && s.waiting && !f.idr)
  {
  }

  /**
   * What a viewer's turn sends, about its log and its cursor alone: the wanted
   * frame w if it plays and w is a keyframe, or if it owes no keyframe and w
   * follows what it has seen.
   */
  lemma Stream1Sends(v: Viewer, log: seq<Entry>, capacity: nat)
    requires capacity > 0 && v.cursor <= |log|
    ensures var t, w := Stream1(v, log, capacity), Wanted(|log|, capacity, v.cursor);
            if !v.playing || w == 0 then t == v
            else
              var sends := log[w - 1].key || (!v.needKeyframe && (v.cursor == 0 || w == v.cursor + 1));
              t == Viewer(true, !sends, w, if sends then v.sent + [w] else v.sent)
  {
  }

  /** A viewer who pauses gets nothing, and from PLAY on the next keyframe first. */
  lemma PlayStartsAtKey(v: Viewer, log: seq<Entry>, capacity: nat)
    requires capacity > 0 && v.cursor <= |log|
    ensures Stream1(Pause(v), log, capacity).sent == v.sent
    ensures v.playing ==> Play(v) == v
    ensures var t, w := Stream1(Play(Pause(v)), log, capacity), Wanted(|log|, capacity, v.cursor);
            t.playing && t.sent == (if w > 0 && log[w - 1].key then v.sent + [w] else v.sent)
  {
  }

  function Range(from: nat, to: nat): (numbers: seq<nat>)
    requires from <= to
    ensures |numbers| == to - from
  {
    seq(to - from, i => from + 1 + i)
  }

  /** Whenever the viewer reads, the ring still has the frame after the one it read last; and it does not pause. */
  ghost predicate ViewerKeepsUp(s: System, steps: seq<Step>, capacity: nat)
    requires capacity > 0
    decreases |steps|
  {
    steps != [] ==>
      && !steps[0].ViewerPause? && (steps[0].ViewerRead? ==> |s.source.log| <= s.viewer.cursor + capacity)
      && ViewerKeepsUp(Apply(s, steps[0], capacity), steps[1..], capacity)
  }

  /**
   * Over every run: once a viewer has been sent a frame, and as long as it never
   * falls a ring behind, it is sent every frame that follows, each once.
   */
  lemma {:induction false} EveryFrame(s: System, steps: seq<Step>, capacity: nat)
    requires capacity > 0 && Inv(s) && ViewerKeepsUp(s, steps, capacity)
    requires s.viewer.playing && !s.viewer.needKeyframe && s.viewer.cursor > 0
    ensures var v, w := s.viewer, Run(s, steps, capacity).viewer;
            && v.cursor <= w.cursor && w.sent == v.sent + Range(v.cursor, w.cursor)
            && w.playing && !w.needKeyframe
    decreases |steps|
  {
    if steps != [] {
      hide Inv, Apply, Range;
      var t := Apply(s, steps[0], capacity);
      StepKeeps(s, steps[0], capacity);
      ViewerStep(s, steps[0], capacity);
      EveryFrame(t, steps[1..], capacity);
      RangesJoin(s.viewer.cursor, t.viewer.cursor, Run(s, steps, capacity).viewer.cursor);
    }
  }

  lemma ViewerStep(s: System, step: Step, capacity: nat)
    requires capacity > 0 && Inv(s) && !step.ViewerPause?
    requires step.ViewerRead? ==> |s.source.log| <= s.viewer.cursor + capacity
    requires s.viewer.playing && !s.viewer.needKeyframe && s.viewer.cursor > 0
    ensures var v, w := s.viewer, Apply(s, step, capacity).viewer;
            v.cursor <= w.cursor && w.sent == v.sent + Range(v.cursor, w.cursor) && w.playing && !w.needKeyframe
  {
    hide Record1, Publish1, LogOk, Linked, SegmentOk;
    assert s.viewer.sent + Range(s.viewer.cursor, s.viewer.cursor) == s.viewer.sent;
    if step.ViewerRead? && |s.source.log| > s.viewer.cursor {
      assert Range(s.viewer.cursor, s.viewer.cursor + 1) == [s.viewer.cursor + 1];
    }
  }

  lemma RangesJoin(a: nat, b: nat, c: nat)
    requires a <= b <= c
    ensures Range(a, b) + Range(b, c) == Range(a, c)
  {
  }

  /** The pictures of all segments, in order. */
  function Pictures(segments: seq<seq<Item>>): seq<nat> {
    if segments == [] then [] else Pictures(segments[..|segments| - 1]) + PicturesOf(segments[|segments| - 1])
  }

  function PicturesOf(segment: seq<Item>): seq<nat> {
    if segment == [] then []
    else
      var last := segment[|segment| - 1];
      PicturesOf(segment[..|segment| - 1]) + if last.Picture? then [last.sequence] else []
  }

  /**
   * What a recorder's turn writes when nothing fails: the wanted frame w if it is
   * a keyframe, or if a segment is open and w follows what was read; and a new
   * segment exactly for a keyframe that finds none open, or after a gap, or when
   * the open one is due.
   */
  lemma Record1Writes(r: Recorder, log: seq<Entry>, capacity: nat, due: bool)
    requires capacity > 0 && RecorderInv(r, log)
    ensures var t, w := Record1(r, log, capacity, due, true, true), Wanted(|log|, capacity, r.cursor);
            if r.halted || w == 0 then t == r
            else
              var key, follows := log[w - 1].key, r.open && (r.cursor == 0 || w == r.cursor + 1);
              && t.cursor == w && !t.halted && t.open == (key || follows)
              && Pictures(t.segments) == Pictures(r.segments) + (if key || follows then [w] else [])
              && |t.segments| == |r.segments| + (if key && (!follows || due) then 1 else 0)
  {
    hide Wanted, SegmentOk;
    var t, w, n := Record1(r, log, capacity, due, true, true), Wanted(|log|, capacity, r.cursor), |r.segments|;
    if !r.halted && w > 0 && t.segments != r.segments {
      if |t.segments| > n {
        NewSegment(r.segments, w);
        OneSegmentMore(r.segments, w);
      } else {
        assert t.segments == r.segments[n - 1 := r.segments[n - 1] + [Picture(w)]];
        OnePictureMore(r.segments, w);
      }
    }
  }

  lemma NewSegment(segments: seq<seq<Item>>, w: nat)
    ensures Append(segments + [[Sps, Pps]], Picture(w)) == segments + [[Sps, Pps, Picture(w)]]
  {
    assert [Sps, Pps] + [Picture(w)] == [Sps, Pps, Picture(w)];
  }

  lemma OneSegmentMore(segments: seq<seq<Item>>, w: nat)
    ensures Pictures(segments + [[Sps, Pps, Picture(w)]]) == Pictures(segments) + [w]
  {
    var longer := segments + [[Sps, Pps, Picture(w)]];
    assert longer[..|segments|] == segments;
    var s: seq<Item> := [Sps, Pps, Picture(w)];
    assert s[..2] == [Sps, Pps] && s[..2][..1] == [Sps] && s[..2][..1][..0] == [];
    assert PicturesOf([Sps]) == [] && PicturesOf([Sps, Pps]) == [];
  }

  lemma OnePictureMore(segments: seq<seq<Item>>, w: nat)
    requires segments != []
    ensures var n := |segments| - 1;
            Pictures(segments[n := segments[n] + [Picture(w)]]) == Pictures(segments) + [w]
  {
    var n := |segments| - 1;
    var longer := segments[n] + [Picture(w)];
    assert longer[..|longer| - 1] == segments[n];
    assert segments[n := longer][..n] == segments[..n];
  }

  /** A write that fails, or parameter sets that are not known for a new segment, halts the recording of the channel. */
  lemma Record1Fails(r: Recorder, log: seq<Entry>, capacity: nat, due: bool, known: bool, written: bool)
    requires capacity > 0 && RecorderInv(r, log) && !r.halted && Wanted(|log|, capacity, r.cursor) > 0
    ensures var good := Record1(r, log, capacity, due, true, true);
            var opens := |good.segments| > |r.segments|;
            var t := Record1(r, log, capacity, due, known, written);
            t.halted <==> Pictures(good.segments) != Pictures(r.segments) && (!written || (opens && !known))
    ensures !Record1(r, log, capacity, due, known, written).halted ==>
              Record1(r, log, capacity, due, known, written) == Record1(r, log, capacity, due, true, true)
  {
    Record1Writes(r, log, capacity, due);
    hide Wanted, SegmentOk, Pictures;
  }

  /** Whenever the recorder reads, the ring still has the next frame and nothing fails; and it is left on. */
  ghost predicate RecorderKeepsUp(s: System, steps: seq<Step>, capacity: nat)
    requires capacity > 0
    decreases |steps|
  {
    steps != [] ==>
      && !steps[0].RecorderOff? && !steps[0].RecorderClose?
      && (steps[0].RecorderRead? ==>
            steps[0].known && steps[0].written && |s.source.log| <= s.recorder.cursor + capacity)
      && RecorderKeepsUp(Apply(s, steps[0], capacity), steps[1..], capacity)
  }

  /** A recorder with an open segment that never falls a ring behind records every frame that follows, each once. */
  lemma {:induction false} EveryFrameRecorded(s: System, steps: seq<Step>, capacity: nat)
    requires capacity > 0 && Inv(s) && RecorderKeepsUp(s, steps, capacity)
    requires s.recorder.open && !s.recorder.halted && s.recorder.cursor > 0
    ensures var r, t := s.recorder, Run(s, steps, capacity).recorder;
            && r.cursor <= t.cursor && t.open && !t.halted
            && Pictures(t.segments) == Pictures(r.segments) + Range(r.cursor, t.cursor)
    decreases |steps|
  {
    hide Pictures, RecorderInv;
    if steps != [] {
      hide Inv, Apply, Range;
      var t := Apply(s, steps[0], capacity);
      StepKeeps(s, steps[0], capacity);
      RecorderStep(s, steps[0], capacity);
      EveryFrameRecorded(t, steps[1..], capacity);
      RangesJoin(s.recorder.cursor, t.recorder.cursor, Run(s, steps, capacity).recorder.cursor);
    }
  }

  lemma RecorderStep(s: System, step: Step, capacity: nat)
    requires capacity > 0 && Inv(s) && !step.RecorderOff? && !step.RecorderClose?
    requires step.RecorderRead? ==> step.known && step.written && |s.source.log| <= s.recorder.cursor + capacity
    requires s.recorder.open && !s.recorder.halted && s.recorder.cursor > 0
    ensures var r, t := s.recorder, Apply(s, step, capacity).recorder;
            && r.cursor <= t.cursor && t.open && !t.halted
            && Pictures(t.segments) == Pictures(r.segments) + Range(r.cursor, t.cursor)
  {
    hide Record1, Stream1, Publish1, LogOk, Linked, SegmentOk, Pictures;
    assert Pictures(s.recorder.segments) + Range(s.recorder.cursor, s.recorder.cursor) == Pictures(s.recorder.segments);
    if step.RecorderRead? {
      Record1Writes(s.recorder, s.source.log, capacity, step.due);
      if |s.source.log| > s.recorder.cursor {
        assert Range(s.recorder.cursor, s.recorder.cursor + 1) == [s.recorder.cursor + 1];
      }
    }
  }

  // ----- the same steps on the daemon's own state

  /** A ring's log as decoding sees it; numbers are the encoder's frame numbers. */
  ghost function Entries(log: seq<Frame>, numbers: seq<nat>): seq<Entry>
    requires |log| == |numbers|
  {
    seq(|log|, i requires 0 <= i < |log| => Entry(log[i].keyframe, numbers[i]))
  }

  /** One source's side of jipc_app: its ring, the ring that shares it when only main streams are encoded, and its flags. */
  class Publisher {
    const main: Stream
    const shared: Stream?
    var hold: bool
    var waiting: bool
    var alive: bool
    ghost var encoded: nat
    ghost var numbers: seq<nat>
    ghost var sharedNumbers: seq<nat>
    ghost var passing: Option<Passing>

    ghost predicate Valid()
      reads this, main, main.slots
      reads if shared == null then {} else {shared, (shared as Stream).slots}
    {
      && main.Valid() && |numbers| == |main.log|
      && (shared != null ==>
            shared.Valid() && shared != main && shared.slots != main.slots && |sharedNumbers| == |shared.log|)
      && forall i :: 0 <= i < |main.log| ==> main.log[i].codec == H264
    }

    ghost function View(): Source
      reads this, main, main.slots
      reads if shared == null then {} else {shared, (shared as Stream).slots}
      requires Valid()
    {
      Source(hold, waiting, encoded, alive, Entries(main.log, numbers),
             shared != null, if shared == null then [] else Entries(shared.log, sharedNumbers), passing)
    }

    constructor (main: Stream, shared: Stream?, hold: bool)
      requires main.Valid() && main.log == []
      requires shared != null ==> shared.Valid() && shared != main && shared.slots != main.slots && shared.log == []
      ensures Valid() && this.main == main && this.shared == shared
      ensures View() == Start(hold, shared != null).source
    {
      this.main, this.shared, this.hold := main, shared, hold;
      waiting, alive, encoded, numbers, sharedNumbers, passing := false, true, 0, [], [], None;
    }

    /** The start of jipc_publish_video: a held frame leaves its parameter sets and no more. */
    method HoldTest(data: seq<byte>, keyframe: bool) returns (passes: bool)
      requires Valid() && alive && passing.None?
      modifies this, main`sps, main`pps
      modifies if shared == null then {} else {shared}
      ensures Valid() && View() == TestHold(old(View()), HasIdr(AnnexB.Split(data)), keyframe)
      ensures passes == passing.Some? && main.log == old(main.log) && (shared != null ==> shared.log == old(shared.log))
    {
      hide AnnexB.Split, HasIdr, Latest, Entries;
      encoded := encoded + 1;
      passes := !hold;
      if hold {
        waiting := true;
        KeepParameters(data);
      } else {
        passing := Some(Passing(HasIdr(AnnexB.Split(data)), keyframe, encoded - 1, true));
      }
    }

    /** The frame's way into the first ring; stored says whether memory was found for its copy. */
    method StoreFrame(data: seq<byte>, pts: nat, keyframe: bool, stored: bool) returns (more: bool)
      requires Valid() && alive && encoded > 0 && passing == Some(Passing(HasIdr(AnnexB.Split(data)), keyframe, encoded - 1, true))
      modifies this, main, main.slots
      ensures Valid()
      ensures View() == StoreMain(old(View()), stored && data != [] && |data| <= AnnexB.MAX_FRAME)
      ensures more == passing.Some? && old(main.log) <= main.log
      ensures |main.log| > |old(main.log)| ==> main.log[|old(main.log)|].data == data && main.log[|old(main.log)|].pts == pts
    {
      hide AnnexB.Split, HasIdr, Entries;
      more := false;
      if !waiting || HasIdr(AnnexB.Split(data)) {
        waiting := false;
        Copy(data, pts, keyframe, stored);
        more := alive && shared != null;
      }
      passing := if more then Some(passing.value.(main := false)) else None;
    }

    method Copy(data: seq<byte>, pts: nat, keyframe: bool, stored: bool)
      requires Valid() && encoded > 0
      modifies this`alive, this`numbers, main, main.slots
      ensures Valid() && alive == (stored && data != [] && |data| <= AnnexB.MAX_FRAME)
      ensures var was := Entries(old(main.log), old(numbers));
              Entries(main.log, numbers) ==
              if alive then was + [Entry(keyframe || HasIdr(AnnexB.Split(data)), encoded - 1)] else was
      ensures |main.log| == |old(main.log)| + if alive then 1 else 0
      ensures old(main.log) <= main.log
      ensures alive ==> main.log[|old(main.log)|].data == data && main.log[|old(main.log)|].pts == pts
    {
      hide AnnexB.Split, HasIdr, Latest;
      alive := main.Publish(data, pts, keyframe, H264, stored);
      if alive {
        numbers := numbers + [encoded - 1];
      }
    }

    /** And into the ring that shares the source. */
    method ShareFrame(data: seq<byte>, pts: nat, keyframe: bool, stored: bool)
      requires Valid() && encoded > 0 && shared != null
      requires passing == Some(Passing(HasIdr(AnnexB.Split(data)), keyframe, encoded - 1, false))
      modifies this, shared, shared.slots
      ensures Valid()
      ensures View() == StoreShared(old(View()), stored && data != [] && |data| <= AnnexB.MAX_FRAME)
      ensures shared.log == old(shared.log) +
                if alive then [Frame(data, pts, |old(shared.log)| + 1, keyframe || HasIdr(AnnexB.Split(data)), H264)] else []
    {
      hide AnnexB.Split, HasIdr, Latest;
      ghost var was := Entries(shared.log, sharedNumbers);
      alive := shared.Publish(data, pts, keyframe, H264, stored);
      passing := None;
      if alive {
        sharedNumbers := sharedNumbers + [encoded - 1];
        assert Entries(shared.log, sharedNumbers) == was + [Entry(keyframe || HasIdr(AnnexB.Split(data)), encoded - 1)];
      }
    }

    /** Parameter sets get through a privacy hold. */
    method KeepParameters(data: seq<byte>)
      requires Valid()
      modifies main`sps, main`pps
      modifies if shared == null then {} else {shared}
      ensures Valid() && main.log == old(main.log) && (shared != null ==> shared.log == old(shared.log))
      ensures main.sps == Latest(AnnexB.Split(data), 7, old(main.sps)) && main.pps == Latest(AnnexB.Split(data), 8, old(main.pps))
      ensures shared != null ==> shared.sps == Latest(AnnexB.Split(data), 7, old(shared.sps))
    {
      hide AnnexB.Split, Latest;
      var _ := main.StreamParameters(data);
      if shared != null {
        var _ := shared.StreamParameters(data);
      }
    }
  }

  /** The video half of an rtsp_client. */
  class VideoClient {
    var playing: bool
    var needKeyframe: bool
    var cursor: nat
    ghost var sent: seq<nat>

    ghost function View(): Viewer
      reads this
    {
      Viewer(playing, needKeyframe, cursor, sent)
    }

    constructor ()
      ensures View() == Start(false, false).viewer
    {
      playing, needKeyframe, cursor, sent := false, false, 0, [];
    }

    /** The state changes of a successful PLAY request ... */
    method HandlePlay()
      modifies this
      ensures View() == Play(old(View()))
    {
      if !playing {
        needKeyframe := true;
      }
      playing := true;
    }

    /** ... and of PAUSE. */
    method HandlePause()
      modifies this
      ensures View() == Pause(old(View()))
    {
      playing := false;
    }

    /**
     * stream_frames on the video track: chooses the frame and sends it, with what
     * jipc_codec_parameters answers, under the ring's lock again, ahead of a
     * keyframe.  When ok is false the client's connection ends.
     */
    method StreamFrames(stream: Stream, track: Rtp.Track, stored: bool, parameters: seq<seq<byte>>, ghost numbers: seq<nat>)
      returns (ok: bool)
      requires stream.Valid() && track.Valid() && |numbers| == |stream.log| && ParameterSets(parameters)
      requires forall i :: 0 <= i < |stream.log| ==> stream.log[i].codec == H264
      modifies this, track
      ensures track.Valid()
      ensures var v := Stream1(old(View()), Entries(stream.log, numbers), stream.slots.Length);
              if !stored && v.cursor != old(cursor) then
                !ok && View() == old(View()) && track.View() == old(track.View())
              else
                && View() == v
                && if v.sent == old(sent) then ok && track.View() == old(track.View())
                   else Sent(stream.log[v.cursor - 1], parameters, old(track.View()), track, ok)
    {
      hide Sent;
      ok := true;
      if !playing {
        return;
      }
      var previous := cursor;
      var rc, frame;
      rc, frame, cursor := stream.Read(cursor, stored);
      if rc < 0 {
        return false;
      }
      if rc == 0 {
        return;
      }
      if previous > 0 && frame.sequence != previous + 1 && !frame.keyframe && !needKeyframe {
        needKeyframe := true;
      }
      if needKeyframe {
        if !frame.keyframe {
          return;
        }
        needKeyframe := false;
      }
      sent := sent + [frame.sequence];
      ok := SendFrame(frame, parameters, track);
    }

    method SendFrame(frame: Frame, parameters: seq<seq<byte>>, track: Rtp.Track) returns (ok: bool)
      requires track.Valid() && ParameterSets(parameters)
      modifies track
      ensures track.Valid() && Sent(frame, parameters, old(track.View()), track, ok)
    {
      hide Rtp.Emit, Rtp.ItemsOf, Rtp.FrameUnits, Rtp.MediaTimestamp, Rtp.Failed;
      ok := track.VideoFrame(if frame.keyframe then parameters else [], frame.data, frame.pts);
    }
  }

  /** The frame went out behind the parameter sets, as far as ok says. */
  ghost predicate Sent(frame: Frame, parameters: seq<seq<byte>>, before: Rtp.Sender, track: Rtp.Track, ok: bool)
    reads track
  {
    var us := Rtp.FrameUnits(if frame.keyframe then parameters else [], frame.data);
    var ts := Rtp.MediaTimestamp(track.base, frame.pts, 90_000);
    if ok then Rtp.AllSendable(us) && track.View() == Rtp.Emit(before, Rtp.VIDEO_TYPE, Rtp.ItemsOf(us, ts))
    else Rtp.Failed(before, track.View(), us, ts)
  }

  /** What jipc_codec_parameters can answer: an SPS and a PPS, or that they are not both known. */
  predicate ParameterSets(ps: seq<seq<byte>>) {
    ps == [] || (|ps| == 2 && ps[0] != [] && ps[1] != [])
  }

  /** One channel of the recorder; file is what the segment being written holds. */
  class ChannelRecorder {
    var cursor: nat
    var open: bool
    var halted: bool
    var file: seq<byte>
    ghost var segments: seq<seq<Item>>

    ghost function View(): Recorder
      reads this
    {
      Recorder(cursor, open, halted, segments)
    }

    constructor ()
      ensures View() == Start(false, false).recorder
    {
      cursor, open, halted, file, segments := 0, false, false, [], [];
    }

    /**
     * record_main's turn on a video channel: which frame is read, whether it opens a
     * segment, and what is written.  parameters are what jipc_codec_parameters answers.
     */
    method Turn(stream: Stream, stored: bool, due: bool, parameters: seq<seq<byte>>, written: bool, ghost numbers: seq<nat>)
      requires stream.Valid() && |numbers| == |stream.log| && ParameterSets(parameters)
      requires open ==> segments != []
      modifies this
      ensures View() == if !stored then old(View()) else
                Record1(old(View()), Entries(stream.log, numbers), stream.slots.Length, due, parameters != [], written)
      ensures |segments| > |old(segments)| ==> |parameters| == 2
      ensures segments != old(segments) ==>
                file == (if |segments| > |old(segments)| then
                           AnnexB.START_CODE + parameters[0] + AnnexB.START_CODE + parameters[1] else old(file))
                        + stream.log[cursor - 1].data
    {
      hide Wanted;
      if halted {
        return;
      }
      var previous := cursor;
      var rc, frame;
      rc, frame, cursor := stream.Read(cursor, stored);
      if rc <= 0 {
        return;
      }
      if previous > 0 && frame.sequence != previous + 1 {
        open := false;
        if !frame.keyframe {
          return;
        }
      }
      if open && due && frame.keyframe {
        open := false;
      }
      if !open && !frame.keyframe {
        return;
      }
      WriteFrame(frame, parameters, written);
    }

    /** The writing half: a segment that is not open is opened with the parameter sets. */
    method WriteFrame(frame: Frame, parameters: seq<seq<byte>>, written: bool)
      requires ParameterSets(parameters) && !halted && (open ==> segments != [])
      modifies this`open, this`halted, this`file, this`segments
      ensures var r, known := old(View()), parameters != [];
              View() == if !written || (!r.open && !known) then r.(halted := true) else
                r.(open := true, segments := Append(if r.open then r.segments else r.segments + [[Sps, Pps]], Picture(frame.sequence)))
      ensures |segments| > |old(segments)| ==> |parameters| == 2
      ensures segments != old(segments) ==>
                file == (if |segments| > |old(segments)| then
                           AnnexB.START_CODE + parameters[0] + AnnexB.START_CODE + parameters[1] else old(file))
                        + frame.data
    {
      if !written || (!open && parameters == []) {
        halted := true;
        return;
      }
      var prefix := file;
      if !open {
        prefix := AnnexB.START_CODE + parameters[0] + AnnexB.START_CODE + parameters[1];
        segments := segments + [[Sps, Pps]];
        open := true;
      }
      file := prefix + frame.data;
      segments := Append(segments, Picture(frame.sequence));
    }
  }
}
