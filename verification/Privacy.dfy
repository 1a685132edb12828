/**
 * Privacy mode (controls.c, media.c): the engine thread holds frames, blacks out
 * every lens, waits, and lets frames through again, while the encoder publishes
 * and manual picture controls arrive.  Every interleaving of their steps is a
 * run.  An engine step is one atomic store or one backend call under the control
 * lock; a frame is tested against the hold and enters each ring in steps of their
 * own; a manual control tests privacy_on and writes in two, the lock held between.
 */
module Privacy {
  import Delivery
  import Streams

  const SETTLE_US: nat := 1_000_000
  const BLACK: seq<int> := [0, 0, 0]

  /** Where the engine is in its turn; privacy is what this turn applies, picture whether it applies the picture settings. */
  datatype Pc =
    | Idle
    | AtHold(privacy: bool, picture: bool)
    | AtOn(privacy: bool, picture: bool)
    | AtCover(privacy: bool, picture: bool)
    | Covering(lens: nat, failed: bool, picture: bool)
    | AtPicture(privacy: bool, picture: bool, lens: nat, field: nat)
    | AtEnd(privacy: bool)

  /**
   * A frame that entered a ring: which one, whether it was the source's first
   * ring, when, whether privacy was on then, and what was known of the lenses.
   * tested and epoch count the times the hold had been set for privacy, up to the
   * frame's hold test and up to now.
   */
  datatype Shot = Shot(
    frame: nat, main: bool, clock: nat, on: bool, black: bool,
    coveredAt: nat, releasedAt: nat, coverEnd: nat, tested: nat, epoch: nat)
  {
    /** Its hold test came before privacy was last switched on. */
    predicate Late() {
      tested < epoch
    }
  }

  /** A setting of one lens, on its way to the ISP. */
  datatype Change = Change(lens: nat, field: nat, value: int)

  /**
   * source carries privacy_hold.  isp is brightness, contrast and saturation of
   * each lens.  now is the clock when the engine's turn began; coveredAt is the
   * engine's own record; pending is a manual control past its test of privacy_on,
   * which holds the control lock.  covered, coverEnd, releasedAt, epoch, tested and
   * shots are history: the lenses whose cover call succeeded since privacy was
   * last switched on, when the last of them did, the turn that released the
   * frames, how often the hold was set, and how often it had been at the last
   * frame's hold test.
   */
  datatype State = State(
    clock: nat, now: nat, pc: Pc,
    source: Delivery.Source, on: bool,
    active: Streams.Option<bool>, coveredAt: nat,
    isp: seq<seq<int>>, pending: Streams.Option<Change>,
    covered: set<nat>, coverEnd: nat, releasedAt: nat, epoch: nat, tested: nat, shots: seq<Shot>)

  datatype Step =
    | Tick(us: nat)
    | Begin(privacy: bool, picture: bool)
    | Advance
    | CoverCall(writes: nat)
    | PictureCall(value: int, accepted: bool)
    | ManualTest(lens: nat, field: nat, value: int)
    | ManualWrite(accepted: bool)
    | ManualCover(lens: nat, writes: nat)
    | Publish(step: Delivery.Step)

  function Write(isp: seq<seq<int>>, lens: nat, field: nat, value: int): seq<seq<int>> {
    if lens < |isp| && field < |isp[lens]| then isp[lens := isp[lens][field := value]] else isp
  }

  /** privacy_cover: brightness, contrast, saturation to 0, in that order, as far as the ISP accepts them. */
  function Cover(isp: seq<seq<int>>, lens: nat, writes: nat): seq<seq<int>> {
    var a := if writes > 0 then Write(isp, lens, 0, 0) else isp;
    var b := if writes > 1 then Write(a, lens, 1, 0) else a;
    if writes > 2 then Write(b, lens, 2, 0) else b
  }

  predicate AllBlack(isp: seq<seq<int>>) {
    forall lens :: 0 <= lens < |isp| ==> isp[lens] == BLACK
  }

  /** The engine's next store, or its way to the next call. */
  function AdvanceEngine(s: State): State {
    match s.pc
    case AtHold(privacy, picture) =>
      if privacy then
        s.(source := s.source.(hold := true), coveredAt := 0, covered := {}, epoch := s.epoch + 1, pc := AtOn(privacy, picture))
      else s.(pc := AtOn(privacy, picture))
    case AtOn(privacy, picture) =>
      s.(on := privacy, pc := AtCover(privacy, picture || !privacy))
    case AtCover(privacy, picture) =>
      var next := AtPicture(privacy, picture, 0, 0);
      if privacy && s.coveredAt == 0 then s.(pc := Covering(0, false, picture))
      else if privacy && s.source.hold && s.now - s.coveredAt >= SETTLE_US then
        s.(source := s.source.(hold := false), releasedAt := s.now, pc := next)
      else s.(pc := next)
    case Covering(lens, failed, picture) =>
      if lens < |s.isp| then s
      else s.(coveredAt := if failed then 0 else s.now, pc := AtPicture(true, picture, 0, 0))
    case AtPicture(privacy, picture, lens, field) =>
      if picture && !privacy && lens < |s.isp| then s else s.(pc := AtEnd(privacy))
    case AtEnd(privacy) =>
      s.(source := if privacy then s.source else s.source.(hold := false), pc := Idle)
    case Idle => s
  }

  function Apply(s: State, step: Step): State {
    match step
    case Tick(us) => s.(clock := s.clock + us)
    case Begin(privacy, picture) =>
      if !s.pc.Idle? then s
      else
        var change := s.active != Streams.Some(privacy);
        s.(now := s.clock, active := Streams.Some(privacy),
           pc := if change then AtHold(privacy, picture) else AtCover(privacy, picture))
    case Advance => AdvanceEngine(s)
    case CoverCall(writes) =>
      if s.pc.Covering? && s.pc.lens < |s.isp| && s.pending.None? then
        var lens, ok := s.pc.lens, writes >= 3;
        s.(isp := Cover(s.isp, lens, writes),
           covered := if ok then s.covered + {lens} else s.covered,
           coverEnd := if ok then s.clock else s.coverEnd,
           pc := Covering(lens + 1, s.pc.failed || !ok, s.pc.picture))
      else s
    case PictureCall(value, accepted) =>
      // apply_picture through jipc_backend_control, which ignores these while privacy_on is set
      if s.pc.AtPicture? && s.pc.picture && !s.pc.privacy && s.pc.lens < |s.isp| && s.pending.None? then
        var AtPicture(privacy, picture, lens, field) := s.pc;
        s.(isp := if s.on || !accepted then s.isp else Write(s.isp, lens, field, value),
           pc := if field < 2 then AtPicture(privacy, picture, lens, field + 1) else AtPicture(privacy, picture, lens + 1, 0))
      else s
    case ManualTest(lens, field, value) =>
      if s.on || s.pending.Some? then s else s.(pending := Streams.Some(Change(lens, field, value)))
    case ManualWrite(accepted) =>
      if s.pending.None? then s
      else
        var Change(lens, field, value) := s.pending.value;
        s.(pending := Streams.None, isp := if accepted then Write(s.isp, lens, field, value) else s.isp)
    case ManualCover(lens, writes) => if s.pending.Some? then s else s.(isp := Cover(s.isp, lens, writes))
    case Publish(publish) => PublishStep(s, publish)
  }

  /** A step of jipc_publish_video: the hold test, or the frame's way into a ring. */
  function PublishStep(s: State, step: Delivery.Step): State {
    var source := Delivery.Publish1(s.source, step);
    var t := s.(source := source);
    if source.encoded > s.source.encoded then t.(tested := s.epoch)
    else if s.source.passing.Some? && (|source.log| > |s.source.log| || |source.shared| > |s.source.shared|) then
      t.(shots := s.shots + [ShotNow(s)])
    else t
  }

  function ShotNow(s: State): Shot
    requires s.source.passing.Some?
  {
    Shot(s.source.passing.value.encoded, s.source.passing.value.main, s.clock, s.on, AllBlack(s.isp),
         s.coveredAt, s.releasedAt, s.coverEnd, s.tested, s.epoch)
  }

  /** jipc_controls_preload: a camera that starts in privacy mode starts with privacy_on and privacy_hold set. */
  function Start(clock: nat, privacy: bool, both: bool, isp: seq<seq<int>>): State {
    State(clock, 0, Idle, Delivery.Start(privacy, both).source, privacy, Streams.None, 0, isp, Streams.None, {}, 0, 0, 0, 0, [])
  }

  // ----- what every step keeps

  /** A frame stored while privacy is on shows black lenses and a settled pipe. */
  ghost predicate Settled(shot: Shot) {
    shot.on ==>
      && shot.black
      && 0 < shot.coveredAt && shot.releasedAt >= shot.coveredAt + SETTLE_US
      && shot.coveredAt <= shot.coverEnd <= shot.releasedAt <= shot.clock
  }

  /** Frames whose hold test was late: for each time the hold was set there is at most one, once in each ring. */
  ghost predicate OneLate(shots: seq<Shot>) {
    forall i, j :: 0 <= i < j < |shots| && shots[i].Late() && shots[j].Late() && shots[i].epoch == shots[j].epoch ==>
      shots[i].frame == shots[j].frame && shots[i].main && !shots[j].main
  }

  ghost predicate Past(shots: seq<Shot>, epoch: nat) {
    && (forall i :: 0 <= i < |shots| ==> shots[i].tested <= shots[i].epoch <= epoch)
    && (forall i :: 0 <= i < |shots| && !shots[i].Late() ==> Settled(shots[i]))
    && OneLate(shots)
  }

  /** The late frames of this epoch are the one on its way, in the first ring. */
  ghost predicate OnlyLate(shots: seq<Shot>, epoch: nat, passing: Delivery.Passing) {
    forall i :: 0 <= i < |shots| && shots[i].Late() && shots[i].epoch == epoch ==>
      shots[i].frame == passing.encoded && shots[i].main && !passing.main
  }

  ghost predicate ShotsInv(s: State) {
    && s.tested <= s.epoch && Past(s.shots, s.epoch)
    && (s.source.passing.Some? ==>
          && (s.tested == s.epoch && (s.on || (s.pc.AtOn? && s.pc.privacy)) ==> !s.source.hold)
          && (s.tested < s.epoch ==> OnlyLate(s.shots, s.epoch, s.source.passing.value)))
  }

  ghost predicate Inv(s: State) {
    && 0 < s.clock && s.now <= s.clock && (s.pc.Idle? || 0 < s.now)
    && (forall lens :: 0 <= lens < |s.isp| ==> |s.isp[lens]| == 3)
    && |s.isp| > 0
    // the lenses covered since privacy was switched on are black, and stay so until it is switched off
    && (s.on ==> forall lens :: 0 <= lens < |s.isp| && lens in s.covered ==> s.isp[lens] == BLACK)
    // a control tested before that keeps the lock, and no lens is covered until it has written
    && (s.on && s.pending.Some? ==> s.covered == {})
    // a cover on record is a cover of every lens, and its time is no later than the calls'
    && (s.on && s.coveredAt > 0 ==>
          && (forall lens :: 0 <= lens < |s.isp| ==> lens in s.covered)
          && s.coveredAt <= s.coverEnd <= s.clock)
    // frames flow while privacy is on only after a cover on record and a second of engine turns
    && (s.on && !s.source.hold ==>
          && 0 < s.coveredAt && s.releasedAt >= s.coveredAt + SETTLE_US
          && s.coverEnd <= s.releasedAt <= s.clock)
    && (s.on && s.coveredAt > 0 && s.pc.AtCover? ==> s.coverEnd <= s.now)
    && PcInv(s) && ShotsInv(s)
  }

  ghost predicate PcInv(s: State) {
    match s.pc
    case Idle => s.active.None? || (s.on == s.active.value && (!s.on ==> !s.source.hold))
    case AtHold(privacy, picture) => s.active == Streams.Some(privacy)
    case AtOn(privacy, picture) =>
      && s.active == Streams.Some(privacy)
      && (privacy ==> s.source.hold && s.coveredAt == 0 && s.covered == {})
    case AtCover(privacy, picture) => s.active == Streams.Some(privacy) && s.on == privacy
    case Covering(lens, failed, picture) =>
      && s.active == Streams.Some(true) && s.on && s.coveredAt == 0 && lens <= |s.isp|
      && (!failed ==>
            && (forall l :: 0 <= l < lens ==> l in s.covered)
            && (lens > 0 ==> s.now <= s.coverEnd <= s.clock))
    case AtPicture(privacy, picture, lens, field) => s.active == Streams.Some(privacy) && s.on == privacy
    case AtEnd(privacy) => s.active == Streams.Some(privacy) && s.on == privacy
  }

  lemma WriteFacts(isp: seq<seq<int>>, lens: nat, field: nat, value: int)
    requires forall l :: 0 <= l < |isp| ==> |isp[l]| == 3
    ensures var w := Write(isp, lens, field, value);
            && |w| == |isp| && (forall l :: 0 <= l < |w| ==> |w[l]| == 3)
            && forall l :: 0 <= l < |w| && (l != lens || (value == 0 && isp[l] == BLACK)) ==> w[l] == isp[l]
  {
  }

  lemma CoverFacts(isp: seq<seq<int>>, lens: nat, writes: nat)
    requires forall l :: 0 <= l < |isp| ==> |isp[l]| == 3
    ensures var c := Cover(isp, lens, writes);
            && |c| == |isp| && (forall l :: 0 <= l < |c| ==> |c[l]| == 3)
            && (forall l :: 0 <= l < |c| && (l != lens || isp[l] == BLACK) ==> c[l] == isp[l])
            && (lens < |isp| ==> forall field :: 0 <= field < 3 ==> c[lens][field] == if field < writes then 0 else isp[lens][field])
            && (writes >= 3 && lens < |isp| ==> c[lens] == BLACK)
  {
  }

  lemma AdvanceKeeps(s: State)
    requires Inv(s)
    ensures Inv(AdvanceEngine(s))
  {
    hide Inv, AdvanceEngine;
    if s.pc.AtHold? || s.pc.AtOn? {
      SwitchKeeps(s);
    } else {
      ReleaseKeeps(s);
    }
  }

  lemma SwitchKeeps(s: State)
    requires Inv(s) && (s.pc.AtHold? || s.pc.AtOn?)
    ensures Inv(AdvanceEngine(s))
  {
    HoldKeepsShots(s, AdvanceEngine(s));
    hide ShotsInv;
  }

  lemma ReleaseKeeps(s: State)
    requires Inv(s) && !s.pc.AtHold? && !s.pc.AtOn?
    ensures Inv(AdvanceEngine(s))
  {
    hide ShotsInv;
    ReleaseKeepsShots(s);
  }

  lemma ReleaseKeepsShots(s: State)
    requires ShotsInv(s) && !s.pc.AtHold? && !s.pc.AtOn?
    ensures ShotsInv(AdvanceEngine(s))
  {
    hide ShotsInv;
    SameShots(s, AdvanceEngine(s));
  }

  /** What is stored is not touched, and the hold at most let go. */
  lemma SameShots(s: State, t: State)
    requires ShotsInv(s) && t.source == s.source.(hold := t.source.hold) && (t.source.hold ==> s.source.hold)
    requires t.on == s.on && t.shots == s.shots && t.tested == s.tested && t.epoch == s.epoch && (t.pc.AtOn? ==> t.pc == s.pc)
    ensures ShotsInv(t)
  {
    hide Past, OnlyLate;
  }

  /** What the engine does to the hold suits the frame on its way. */
  lemma HoldKeepsShots(s: State, t: State)
    requires ShotsInv(s) && t == AdvanceEngine(s) && (s.pc.AtHold? || s.pc.AtOn?)
    requires s.pc.AtOn? && s.pc.privacy ==> s.source.hold
    ensures ShotsInv(t)
  {
    hide Past, OnlyLate;
    PastGrows(s.shots, s.epoch);
    if s.source.passing.Some? {
      NoneLateYet(s.shots, s.epoch, s.source.passing.value);
    }
  }

  lemma PastGrows(shots: seq<Shot>, epoch: nat)
    requires Past(shots, epoch)
    ensures Past(shots, epoch + 1)
  {
    hide Settled, OneLate;
  }

  lemma NoneLateYet(shots: seq<Shot>, epoch: nat, passing: Delivery.Passing)
    requires Past(shots, epoch)
    ensures OnlyLate(shots, epoch + 1, passing)
  {
    hide Settled, OneLate;
  }

  /** A frame whose hold test is not late is stored over black lenses. */
  lemma ShotNowSettled(s: State)
    requires Inv(s) && s.source.passing.Some?
    ensures s.tested == s.epoch ==> Settled(ShotNow(s))
  {
    hide OneLate;
  }

  lemma PublishKeeps(s: State, step: Delivery.Step)
    requires Inv(s)
    ensures Inv(PublishStep(s, step))
  {
    hide Settled, ShotsInv, PublishStep;
    if s.source.passing.Some? {
      ShotNowSettled(s);
    }
    PublishChanges(s, step);
    PublishKeepsShots(s, PublishStep(s, step), step);
  }

  lemma PublishChanges(s: State, step: Delivery.Step)
    ensures var t := PublishStep(s, step);
            && t.source.hold == s.source.hold
            && t.(source := s.source, tested := s.tested, shots := s.shots) == s
  {
    hide AllBlack;
  }

  lemma PublishKeepsShots(s: State, t: State, step: Delivery.Step)
    requires ShotsInv(s) && t == PublishStep(s, step)
    requires s.source.passing.Some? && s.tested == s.epoch ==> Settled(ShotNow(s))
    requires s.pc.AtOn? && s.pc.privacy ==> s.source.hold
    ensures ShotsInv(t)
  {
    hide Settled, AllBlack;
    if t.shots != s.shots {
      OneLateAppend(s.shots, ShotNow(s));
    }
  }

  lemma OneLateAppend(shots: seq<Shot>, shot: Shot)
    requires OneLate(shots)
    requires shot.Late() ==> forall i :: 0 <= i < |shots| && shots[i].Late() && shots[i].epoch == shot.epoch ==>
               shots[i].frame == shot.frame && shots[i].main && !shot.main
    ensures OneLate(shots + [shot])
  {
  }

  lemma CallKeeps(s: State, step: Step)
    requires Inv(s) && (step.CoverCall? || step.PictureCall? || step.ManualTest? || step.ManualWrite? || step.ManualCover?)
    ensures Inv(Apply(s, step))
  {
    hide Write, Cover, ShotsInv;
    SameShots(s, Apply(s, step));
    match step
    case CoverCall(writes) =>
      if s.pc.Covering? {
        CoverFacts(s.isp, s.pc.lens, writes);
      }
    case PictureCall(value, accepted) =>
      if s.pc.AtPicture? {
        WriteFacts(s.isp, s.pc.lens, s.pc.field, value);
      }
    case ManualTest(_, _, _) =>
    case ManualWrite(accepted) =>
      if s.pending.Some? {
        WriteFacts(s.isp, s.pending.value.lens, s.pending.value.field, s.pending.value.value);
      }
    case ManualCover(lens, writes) => CoverFacts(s.isp, lens, writes);
  }

  lemma StepKeeps(s: State, step: Step)
    requires Inv(s)
    ensures Inv(Apply(s, step))
  {
    match step
    case Tick(us) =>
    case Begin(privacy, picture) =>
    case Advance => AdvanceKeeps(s);
    case Publish(publish) => PublishKeeps(s, publish);
    case _ => CallKeeps(s, step);
  }

  // ----- every run

  function Run(s: State, steps: seq<Step>): State
    decreases |steps|
  {
    if steps == [] then s else Apply(Run(s, steps[..|steps| - 1]), steps[|steps| - 1])
  }

  ghost predicate ValidStart(clock: nat, isp: seq<seq<int>>) {
    clock > 0 && isp != [] && forall l :: 0 <= l < |isp| ==> |isp[l]| == 3
  }

  lemma {:induction false} RunKeeps(clock: nat, privacy: bool, both: bool, isp: seq<seq<int>>, steps: seq<Step>)
    requires ValidStart(clock, isp)
    ensures Inv(Run(Start(clock, privacy, both, isp), steps))
    decreases |steps|
  {
    if steps != [] {
      var before := steps[..|steps| - 1];
      RunKeeps(clock, privacy, both, isp, before);
      StepKeeps(Run(Start(clock, privacy, both, isp), before), steps[|steps| - 1]);
    }
  }

  /**
   * No picture leaks.  In every run, a frame that enters a ring while privacy_on
   * is set does so when every lens is black, after a turn of the engine in which
   * the cover of every lens succeeded and a later turn that began at least a
   * second after that one; unless its hold test came before privacy was switched
   * on, which holds for at most one frame each time.  And while any lens has not
   * been covered since privacy came on, frames are held.
   */
  lemma NoLeak(clock: nat, privacy: bool, both: bool, isp: seq<seq<int>>, steps: seq<Step>)
    requires ValidStart(clock, isp)
    ensures var s := Run(Start(clock, privacy, both, isp), steps);
            && (forall i :: 0 <= i < |s.shots| ==> Settled(s.shots[i]) || s.shots[i].Late())
            && OneLate(s.shots)
            && (s.on && (exists lens :: 0 <= lens < |s.isp| && lens !in s.covered) ==> s.source.hold)
  {
    hide OneLate, Settled;
    RunKeeps(clock, privacy, both, isp, steps);
  }

  /** With late saying whether a frame's hold test came before privacy was last switched on: is it always kept back? */
  ghost predicate KeptBack(late: bool) {
    forall clock: nat, privacy, both, isp, steps, i: nat ::
      ValidStart(clock, isp) ==>
        var shots := Run(Start(clock, privacy, both, isp), steps).shots;
        i < |shots| && shots[i].Late() == late ==> Settled(shots[i])
  }

  /** A frame past its hold test, and privacy on since. */
  predicate OnItsWay(s: State) {
    && s.on && s.tested < s.epoch && s.isp == [[128, 128, 128]] && s.shots == []
    && !s.source.waiting && s.source.passing == Streams.Some(Delivery.Passing(true, true, 0, true))
  }

  lemma PrivacyComesOn()
    ensures OnItsWay(Apply(Apply(Apply(Apply(Lit(), Publish(Delivery.Encode(true, true))), Begin(true, false)), Advance), Advance))
  {
  }

  lemma LateStore(s: State)
    requires OnItsWay(s)
    ensures var shots := Apply(s, Publish(Delivery.Store(true))).shots;
            |shots| == 1 && shots[0].Late() && shots[0].on && !shots[0].black
  {
    assert s.isp[0] == [128, 128, 128];
  }

  /** A run in which a frame passes the hold test, privacy comes on, and the frame enters the ring from a lens still lit. */
  lemma FrameOnItsWay() returns (steps: seq<Step>)
    ensures var shots := Run(Lit(), steps).shots;
            |shots| == 1 && shots[0].Late() && shots[0].on && !shots[0].black
  {
    hide Run, Apply, OnItsWay;
    RunOn(Lit());
    steps := [] + [Publish(Delivery.Encode(true, true))] + [Begin(true, false)] + [Advance] + [Advance];
    PrivacyComesOn();
    LateStore(Run(Lit(), steps));
    steps := steps + [Publish(Delivery.Store(true))];
  }

  /** Exactly the frames whose hold test came after are always kept back. */
  lemma KeptBackIff(late: bool)
    ensures KeptBack(late) <==> !late
  {
    hide Run, Settled;
    if late {
      var steps := FrameOnItsWay();
      assert ValidStart(1, [[128, 128, 128]]);
      assert Run(Start(1, false, false, [[128, 128, 128]]), steps).shots[0].Late();
      Unsettled(Run(Lit(), steps).shots[0]);
    } else {
      forall clock: nat, privacy, both, isp, steps, i: nat | ValidStart(clock, isp)
        ensures var shots := Run(Start(clock, privacy, both, isp), steps).shots;
                i < |shots| && shots[i].Late() == late ==> Settled(shots[i])
      {
        NoLeak(clock, privacy, both, isp, steps);
      }
    }
  }

  lemma Unsettled(shot: Shot)
    ensures shot.on && !shot.black ==> !Settled(shot)
  {
  }

  /** A black lens stays black through any step that leaves privacy on, but for a control tested before it came on. */
  lemma StaysBlack(s: State, step: Step, lens: nat)
    requires Inv(s) && s.on && lens < |s.isp| && s.isp[lens] == BLACK && s.pending.None?
    ensures |Apply(s, step).isp| == |s.isp|
    ensures Apply(s, step).on ==> Apply(s, step).isp[lens] == BLACK && Apply(s, step).pending.None?
  {
    hide Write, Cover, ShotsInv;
    match step
    case CoverCall(writes) =>
      if s.pc.Covering? {
        CoverFacts(s.isp, s.pc.lens, writes);
      }
    case ManualCover(l, writes) => CoverFacts(s.isp, l, writes);
    case _ =>
  }

  /** So does it through any run during which privacy stays on; a covered lens is one, as Inv says. */
  lemma {:induction false} StaysBlackWhileOn(s: State, steps: seq<Step>, lens: nat)
    requires Inv(s) && s.on && lens < |s.isp| && s.isp[lens] == BLACK && s.pending.None?
    requires forall n :: 0 <= n <= |steps| ==> Run(s, steps[..n]).on
    ensures Inv(Run(s, steps)) && |Run(s, steps).isp| == |s.isp| && Run(s, steps).isp[lens] == BLACK && Run(s, steps).pending.None?
    decreases |steps|
  {
    if steps != [] {
      var n := |steps| - 1;
      assert steps[..n + 1] == steps;
      forall k | 0 <= k <= n ensures Run(s, steps[..n][..k]).on {
        assert steps[..n][..k] == steps[..k];
      }
      StaysBlackWhileOn(s, steps[..n], lens);
      hide Inv, Apply;
      StaysBlack(Run(s, steps[..n]), steps[n], lens);
      StepKeeps(Run(s, steps[..n]), steps[n]);
    }
  }

  // ----- and back

  /** A control by hand sets its one setting if privacy was off when it was tested and the ISP accepts; else nothing. */
  lemma ManualSets(s: State, lens: nat, field: nat, value: int, accepted: bool)
    requires Inv(s) && s.pending.None? && lens < |s.isp| && field < 3
    ensures var t := Apply(Apply(s, ManualTest(lens, field, value)), ManualWrite(accepted));
            t == if s.on || !accepted then s else s.(isp := s.isp[lens := s.isp[lens][field := value]])
  {
  }

  /** A cover by hand, with the lock free, does what the engine's does. */
  lemma ManualCovers(s: State, lens: nat)
    requires Inv(s) && lens < |s.isp|
    ensures Apply(s, ManualCover(lens, 3)).isp == if s.pending.None? then s.isp[lens := BLACK] else s.isp
  {
    CoverFacts(s.isp, lens, 3);
  }

  /** The engine's next call is due: a lens to cover, or a setting to restore. */
  predicate CoverDue(s: State) {
    s.pc.Covering? && s.pc.lens < |s.isp|
  }

  predicate SettingDue(s: State) {
    s.pc.AtPicture? && s.pc.picture && !s.pc.privacy && s.pc.lens < |s.isp|
  }

  /** No call is skipped and none is made that is not due; a setting is written exactly if it is accepted and privacy is off. */
  lemma CallsAsDue(s: State, value: int, accepted: bool, writes: nat)
    requires s.pending.None?
    ensures CoverDue(s) || SettingDue(s) ==> Apply(s, Advance) == s
    ensures !CoverDue(s) ==> Apply(s, CoverCall(writes)) == s
    ensures CoverDue(s) ==>
              var t := Apply(s, CoverCall(writes));
              && t.isp == Cover(s.isp, s.pc.lens, writes) && t.pc == Covering(s.pc.lens + 1, s.pc.failed || writes < 3, s.pc.picture)
              && t.coverEnd == (if writes < 3 then s.coverEnd else s.clock)
    ensures !SettingDue(s) ==> Apply(s, PictureCall(value, accepted)) == s
    ensures SettingDue(s) ==>
              var t, lens, field := Apply(s, PictureCall(value, accepted)), s.pc.lens, s.pc.field;
              && t.isp == (if accepted && !s.on && field < |s.isp[lens]| then s.isp[lens := s.isp[lens][field := value]] else s.isp)
              && t.pc == if field < 2 then AtPicture(false, true, lens, field + 1) else AtPicture(false, true, lens + 1, 0)
  {
    hide Cover;
  }

  /** The control lock: while a control by hand is on its way, no other call reaches the ISP. */
  lemma LockExcludes(s: State, step: Step)
    requires s.pending.Some? && (step.CoverCall? || step.PictureCall? || step.ManualTest? || step.ManualCover?)
    ensures Apply(s, step) == s
  {
  }

  /** Every frame that enters a ring is on record: there is a shot for each. */
  lemma {:induction false} ShotsAreAll(clock: nat, privacy: bool, both: bool, isp: seq<seq<int>>, steps: seq<Step>)
    ensures var s := Run(Start(clock, privacy, both, isp), steps);
            |s.shots| == |s.source.log| + |s.source.shared|
    decreases |steps|
  {
    hide Apply;
    if steps != [] {
      ShotsAreAll(clock, privacy, both, isp, steps[..|steps| - 1]);
      StepShoots(Run(Start(clock, privacy, both, isp), steps[..|steps| - 1]), steps[|steps| - 1]);
    }
  }

  lemma StepShoots(s: State, step: Step)
    ensures var t := Apply(s, step);
            |t.shots| + |s.source.log| + |s.source.shared| == |s.shots| + |t.source.log| + |t.source.shared|
  {
    hide Cover, Write, AllBlack, PublishStep;
    if step.Publish? {
      PublishShoots(s, step.step);
    }
  }

  lemma PublishShoots(s: State, step: Delivery.Step)
    ensures var t := PublishStep(s, step);
            |t.shots| + |s.source.log| + |s.source.shared| == |s.shots| + |t.source.log| + |t.source.shared|
  {
    hide AllBlack;
  }

  function LensCalls(values: seq<int>): seq<Step>
    requires |values| == 3
  {
    [PictureCall(values[0], true), PictureCall(values[1], true), PictureCall(values[2], true)]
  }

  /** The settings of the first n lenses, each accepted. */
  function SettingCalls(settings: seq<seq<int>>, n: nat): seq<Step>
    requires n <= |settings| && forall l :: 0 <= l < |settings| ==> |settings[l]| == 3
  {
    if n == 0 then [] else SettingCalls(settings, n - 1) + LensCalls(settings[n - 1])
  }

  lemma RunOnce(s: State, steps: seq<Step>, step: Step)
    ensures Run(s, steps + [step]) == Apply(Run(s, steps), step)
  {
    hide Run, Apply;
    RunOn(s);
  }

  lemma LensIsSet(s: State, lens: nat, values: seq<int>)
    requires s.pc == AtPicture(false, true, lens, 0) && !s.on && s.pending.None? && lens < |s.isp| && |s.isp[lens]| == |values| == 3
    ensures Run(s, LensCalls(values)) == s.(isp := s.isp[lens := values], pc := AtPicture(false, true, lens + 1, 0))
  {
    RunOn(s);
    hide Run;
    assert LensCalls(values) == [] + [PictureCall(values[0], true)] + [PictureCall(values[1], true)] + [PictureCall(values[2], true)];
    assert s.isp[lens][0 := values[0]][1 := values[1]][2 := values[2]] == values;
  }

  lemma {:induction false} RunConcat(s: State, a: seq<Step>, b: seq<Step>)
    ensures Run(s, a + b) == Run(Run(s, a), b)
    decreases |b|
  {
    hide Run, Apply;
    RunOn(Run(s, a));
    if b == [] {
      assert a + b == a;
    } else {
      var n := |b| - 1;
      RunConcat(s, a, b[..n]);
      assert a + b == (a + b[..n]) + [b[n]] && b == b[..n] + [b[n]];
      RunOnce(s, a + b[..n], b[n]);
      RunOnce(Run(s, a), b[..n], b[n]);
    }
  }

  lemma {:induction false} PictureIsSet(s: State, settings: seq<seq<int>>, n: nat)
    requires s.pc == AtPicture(false, true, 0, 0) && !s.on && s.pending.None? && n <= |settings| == |s.isp|
    requires forall l :: 0 <= l < |s.isp| ==> |s.isp[l]| == |settings[l]| == 3
    ensures Run(s, SettingCalls(settings, n)) == s.(isp := settings[..n] + s.isp[n..], pc := AtPicture(false, true, n, 0))
  {
    RunOn(s);
    hide Run;
    if n == 0 {
      assert settings[..0] + s.isp[0..] == s.isp;
    } else {
      PictureIsSet(s, settings, n - 1);
      var t := Run(s, SettingCalls(settings, n - 1));
      RunConcat(s, SettingCalls(settings, n - 1), LensCalls(settings[n - 1]));
      LensIsSet(t, n - 1, settings[n - 1]);
      assert t.isp[n - 1 := settings[n - 1]] == settings[..n] + s.isp[n..];
    }
  }

  /** The turn that switches privacy off, its calls accepted: up to the picture, the settings, and its end. */
  function OffTurn(picture: bool, settings: seq<seq<int>>): seq<Step>
    requires forall l :: 0 <= l < |settings| ==> |settings[l]| == 3
  {
    [Begin(false, picture), Advance, Advance, Advance] + SettingCalls(settings, |settings|) + [Advance, Advance]
  }

  /** After that turn privacy is off, every lens has its settings back and frames are no longer held. */
  lemma PrivacyGoesOff(s: State, picture: bool, settings: seq<seq<int>>)
    requires Inv(s) && s.pc.Idle? && s.active != Streams.Some(false) && s.pending.None?
    requires |settings| == |s.isp| && forall l :: 0 <= l < |settings| ==> |settings[l]| == 3
    ensures Run(s, OffTurn(picture, settings))
         == s.(now := s.clock, active := Streams.Some(false), on := false, source := s.source.(hold := false), isp := settings)
  {
    hide Run, Apply, AdvanceEngine;
    var first, calls, last := [Begin(false, picture), Advance, Advance, Advance], SettingCalls(settings, |settings|), [Advance, Advance];
    RunConcat(s, first + calls, last);
    RunConcat(s, first, calls);
    OffBegins(s, picture);
    var t := Run(s, first);
    LensesWhole(s);
    PictureIsSet(t, settings, |settings|);
    assert settings[..|settings|] + s.isp[|settings|..] == settings;
    OffEnds(Run(t, calls));
  }

  lemma LensesWhole(s: State)
    requires Inv(s)
    ensures forall l :: 0 <= l < |s.isp| ==> |s.isp[l]| == 3
  {
  }

  lemma OffBegins(s: State, picture: bool)
    requires s.pc.Idle? && s.active != Streams.Some(false)
    ensures Run(s, [Begin(false, picture), Advance, Advance, Advance])
         == s.(now := s.clock, active := Streams.Some(false), on := false, pc := AtPicture(false, true, 0, 0))
  {
    RunOn(s);
    hide Run;
    assert [Begin(false, picture), Advance, Advance, Advance] == [] + [Begin(false, picture)] + [Advance] + [Advance] + [Advance];
  }

  lemma OffEnds(s: State)
    requires s.pc == AtPicture(false, true, |s.isp|, 0)
    ensures Run(s, [Advance, Advance]) == s.(source := s.source.(hold := false), pc := Idle)
  {
    RunOn(s);
    hide Run;
    assert [Advance, Advance] == [] + [Advance] + [Advance];
  }

  /**
   * With privacy off frames flow: in every run, once the engine has ended a turn
   * with privacy off, no hold is left, and the next frame with an IDR enters the
   * ring, whatever was held before.
   */
  lemma FramesFlowAgain(clock: nat, privacy: bool, both: bool, isp: seq<seq<int>>, steps: seq<Step>, keyframe: bool)
    requires ValidStart(clock, isp)
    requires var s := Run(Start(clock, privacy, both, isp), steps);
             s.pc.Idle? && s.active == Streams.Some(false) && s.source.alive && s.source.passing.None?
    ensures var start := Start(clock, privacy, both, isp);
            var s, t := Run(start, steps), Run(start, steps + [Publish(Delivery.Encode(true, keyframe))] + [Publish(Delivery.Store(true))]);
            && !s.on && !s.source.hold
            && t.source.log == s.source.log + [Delivery.Entry(true, s.source.encoded)]
            && |t.shots| == |s.shots| + 1 && t.shots[|s.shots|].frame == s.source.encoded && !t.shots[|s.shots|].on
  {
    RunKeeps(clock, privacy, both, isp, steps);
    RunOn(Start(clock, privacy, both, isp));
    hide Run, Apply, Inv;
    NextFrameEnters(Run(Start(clock, privacy, both, isp), steps), keyframe);
  }

  lemma NextFrameEnters(s: State, keyframe: bool)
    requires Inv(s) && s.pc.Idle? && s.active == Streams.Some(false) && s.source.alive && s.source.passing.None?
    ensures var t := Apply(Apply(s, Publish(Delivery.Encode(true, keyframe))), Publish(Delivery.Store(true)));
            && !s.on && !s.source.hold
            && t.source.log == s.source.log + [Delivery.Entry(true, s.source.encoded)]
            && |t.shots| == |s.shots| + 1 && t.shots[|s.shots|].frame == s.source.encoded && !t.shots[|s.shots|].on
  {
    hide AllBlack, ShotsInv;
  }

  /** What the ISP answers to the engine's next call, if it is one. */
  datatype Answer = Answer(writes: nat, value: int, accepted: bool)

  /** The engine's next step at a place in its turn. */
  function EngineStep(pc: Pc, lenses: nat, answer: Answer): Step {
    match pc
    case Covering(lens, _, _) => if lens < lenses then CoverCall(answer.writes) else Advance
    case AtPicture(privacy, picture, lens, _) =>
      if picture && !privacy && lens < lenses then PictureCall(answer.value, answer.accepted) else Advance
    case _ => Advance
  }

  /** How many steps the engine's turn can still take. */
  function Rank(pc: Pc, lenses: nat): nat {
    var picture := 3 * lenses + 4;
    match pc
    case Idle => 0
    case AtEnd(_) => 1
    case AtPicture(_, _, lens, field) => if lens < lenses then 3 * (lenses - lens) + 4 - (if field < 2 then field else 2) else 2
    case Covering(lens, _, _) => (if lens < lenses then lenses - lens else 0) + 1 + picture
    case AtCover(_, _) => lenses + 2 + picture
    case AtOn(_, _) => lenses + 3 + picture
    case AtHold(_, _) => lenses + 4 + picture
  }

  lemma StepRanks(s: State, answer: Answer)
    requires !s.pc.Idle? && s.pending.None?
    ensures var t := Apply(s, EngineStep(s.pc, |s.isp|, answer));
            Rank(t.pc, |t.isp|) < Rank(s.pc, |s.isp|) && |t.isp| == |s.isp| && t.pending.None?
  {
  }

  function EngineAlone(s: State, answers: seq<Answer>): State
    decreases |answers|
  {
    if answers == [] then s else EngineAlone(Apply(s, EngineStep(s.pc, |s.isp|, answers[0])), answers[1..])
  }

  /** Whatever the ISP answers, the engine's turn ends, and with it the hold if privacy is off. */
  lemma {:induction false} TurnEnds(s: State, answers: seq<Answer>) returns (k: nat)
    requires Inv(s) && s.pending.None? && |answers| > Rank(s.pc, |s.isp|)
    ensures k <= |answers|
    ensures var t := EngineAlone(s, answers[..k]); t.pc.Idle? && (t.active == Streams.Some(false) ==> !t.on && !t.source.hold)
    decreases |answers|
  {
    hide Rank, ShotsInv;
    if s.pc.Idle? {
      k := 0;
    } else {
      StepRanks(s, answers[0]);
      StepKeeps(s, EngineStep(s.pc, |s.isp|, answers[0]));
      hide Apply, Inv, EngineStep;
      k := TurnEnds(Apply(s, EngineStep(s.pc, |s.isp|, answers[0])), answers[1..]);
      k := k + 1;
      assert answers[..k][1..] == answers[1..][..k - 1];
    }
  }

  // ----- how long the wait is

  /**
   * The wait is meant to let frames already in the pipe drain after the lenses
   * went black.  With d between the start of the covering turn and the success
   * of its last cover call, does a full second always pass from that success?
   */
  ghost predicate SettlesFully(d: nat) {
    forall clock: nat, privacy, both, isp, steps, i: nat ::
      ValidStart(clock, isp) ==>
        var shots := Run(Start(clock, privacy, both, isp), steps).shots;
        i < |shots| && shots[i].on && !shots[i].Late() && shots[i].coverEnd == shots[i].coveredAt + d ==>
          shots[i].clock >= shots[i].coverEnd + SETTLE_US
  }

  /** A run goes on with its next step. */
  lemma RunOn(s: State)
    ensures Run(s, []) == s
    ensures forall steps, step {:trigger Run(s, steps + [step])} :: Run(s, steps + [step]) == Apply(Run(s, steps), step)
  {
    forall steps, step ensures Run(s, steps + [step]) == Apply(Run(s, steps), step) {
      var longer := steps + [step];
      assert longer[..|longer| - 1] == steps;
    }
  }

  /** One lens at mid brightness, and the same lens after a turn that covered it and took d. */
  function Lit(): State {
    Start(1, false, false, [[128, 128, 128]])
  }

  function Covered(d: nat): State {
    State(1 + d, 1, Idle, Lit().source.(hold := true), true, Streams.Some(true), 1, [BLACK], Streams.None, {0}, 1 + d, 0, 1, 0, [])
  }

  lemma CoverRun(d: nat) returns (steps: seq<Step>)
    ensures Run(Lit(), steps) == Covered(d)
  {
    var s := Lit();
    hide Run;
    RunOn(s);
    steps := [] + [Begin(true, false)] + [Advance] + [Advance] + [Advance];
    assert Run(s, steps) == s.(now := 1, active := Streams.Some(true), pc := Covering(0, false, false),
                              source := s.source.(hold := true), on := true, epoch := 1);
    steps := steps + [Tick(d)] + [CoverCall(3)];
    assert Cover([[128, 128, 128]], 0, 3) == [BLACK] by { assert s.isp[0] == [128, 128, 128]; CoverFacts(s.isp, 0, 3); }
    assert Run(s, steps) == Covered(d).(pc := Covering(1, false, false), coveredAt := 0);
    steps := steps + [Advance] + [Advance] + [Advance];
  }

  /** A run in which one lens takes d to cover and a frame enters the ring as early as the engine allows. */
  lemma SlowCover(d: nat) returns (steps: seq<Step>)
    ensures var shots := Run(Lit(), steps).shots;
            && |shots| == 1 && shots[0].on && !shots[0].Late() && shots[0].coveredAt == 1 && shots[0].coverEnd == 1 + d
            && shots[0].clock == 1 + (if d > SETTLE_US then d else SETTLE_US)
  {
    var s := Lit();
    hide Run;
    RunOn(s);
    steps := CoverRun(d);
    hide Write, Cover, AllBlack;
    steps := steps + [Tick(if d > SETTLE_US then 0 else SETTLE_US - d)] + [Begin(true, false)] + [Advance];
    assert var t := Run(s, steps); !t.source.hold && t.source.alive && t.shots == [] && t.on;
    steps := steps + [Publish(Delivery.Encode(true, true))] + [Publish(Delivery.Store(true))];
  }

  /**
   * It does exactly when the covering turn takes no time: the engine counts the
   * second from the start of that turn, so whatever the turn spends before its
   * last cover succeeds is missing from the wait.
   */
  lemma FullSecondIff(d: nat)
    ensures SettlesFully(d) <==> d == 0
  {
    hide Run;
    if d == 0 {
      forall clock: nat, privacy, both, isp, steps, i: nat | ValidStart(clock, isp)
        ensures var shots := Run(Start(clock, privacy, both, isp), steps).shots;
                i < |shots| && shots[i].on && !shots[i].Late() && shots[i].coverEnd == shots[i].coveredAt + d ==>
                  shots[i].clock >= shots[i].coverEnd + SETTLE_US
      {
        RunKeeps(clock, privacy, both, isp, steps);
        var shots := Run(Start(clock, privacy, both, isp), steps).shots;
        if i < |shots| {
          assert Settled(shots[i]) || shots[i].Late();
        }
      }
    } else {
      var steps := SlowCover(d);
      assert ValidStart(1, [[128, 128, 128]]);
      assert Run(Start(1, false, false, [[128, 128, 128]]), steps).shots[0].on;
    }
  }
}
