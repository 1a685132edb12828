/**
 * The code behind the privacy steps (controls.c, media.c): the engine's turn, cut
 * at every atomic store and backend call, and the backend calls themselves.
 * Every method is proved to be the step of that name in Privacy, and so to keep
 * Privacy's invariant.
 */
module PrivacyEngine {
  import opened Privacy
  import Delivery
  import Streams

  class Engine {
    const isp: array<seq<int>>
    var hold: bool
    var on: bool
    var active: Streams.Option<bool>
    var now: nat
    var coveredAt: nat
    ghost var source: Delivery.Source
    ghost var pc: Pc
    ghost var covered: set<nat>
    ghost var coverEnd: nat
    ghost var releasedAt: nat
    ghost var epoch: nat
    ghost var tested: nat
    ghost var pending: Streams.Option<Change>
    ghost var shots: seq<Shot>

    ghost predicate Valid()
      reads this
    {
      source.hold == hold
    }

    ghost function View(clock: nat): State
      reads this, isp
    {
      State(clock, now, pc, source, on, active, coveredAt, isp[..], pending, covered, coverEnd, releasedAt, epoch, tested, shots)
    }

    /** jipc_controls_preload: held from the start if privacy is wanted. */
    constructor (privacy: bool, both: bool, lenses: array<seq<int>>)
      ensures Valid() && isp == lenses
      ensures forall clock :: View(clock) == Start(clock, privacy, both, lenses[..])
    {
      isp, hold, on, active, now, coveredAt := lenses, privacy, privacy, Streams.None, 0, 0;
      source, pc, covered, coverEnd, releasedAt := Delivery.Start(privacy, both).source, Idle, {}, 0, 0;
      epoch, tested, pending, shots := 0, 0, Streams.None, [];
    }

    /** The top of the engine's loop, with what it wants and whether the picture changed. */
    method BeginTurn(clock: nat, privacy: bool, picture: bool) returns (change: bool)
      requires Valid() && pc.Idle?
      modifies this
      ensures Valid() && View(clock) == Apply(old(View(clock)), Begin(privacy, picture))
      ensures Inv(old(View(clock))) ==> Inv(View(clock))
    {
      hide Inv;
      Keeps(View(clock), Begin(privacy, picture));
      now := clock;
      change := active != Streams.Some(privacy);
      active := Streams.Some(privacy);
      pc := if change then AtHold(privacy, picture) else AtCover(privacy, picture);
    }

    method SetHold(value: bool)
      requires Valid()
      modifies this`hold, this`source
      ensures Valid() && source == old(source).(hold := value)
    {
      hold, source := value, source.(hold := value);
    }

    method StoreHold(clock: nat, privacy: bool, picture: bool)
      requires Valid() && pc == AtHold(privacy, picture)
      modifies this
      ensures Valid() && View(clock) == AdvanceEngine(old(View(clock)))
      ensures Inv(old(View(clock))) ==> Inv(View(clock))
    {
      hide Inv;
      Keeps(View(clock), Advance);
      if privacy {
        SetHold(true);
        coveredAt, covered, epoch := 0, {}, epoch + 1;
      }
      pc := AtOn(privacy, picture);
    }

    method StoreOn(clock: nat, privacy: bool, picture: bool)
      requires Valid() && pc == AtOn(privacy, picture)
      modifies this
      ensures Valid() && View(clock) == AdvanceEngine(old(View(clock)))
      ensures Inv(old(View(clock))) ==> Inv(View(clock))
    {
      hide Inv;
      Keeps(View(clock), Advance);
      on := privacy;
      pc := AtCover(privacy, picture || !privacy);
    }

    /** Cover the lenses, release the frames, or neither. */
    method Decide(clock: nat, privacy: bool, picture: bool)
      requires Valid() && pc == AtCover(privacy, picture)
      modifies this
      ensures Valid() && View(clock) == AdvanceEngine(old(View(clock)))
      ensures Inv(old(View(clock))) ==> Inv(View(clock))
    {
      hide Inv;
      Keeps(View(clock), Advance);
      if privacy && coveredAt == 0 {
        pc := Covering(0, false, picture);
        return;
      }
      if privacy && hold && now - coveredAt >= SETTLE_US {
        SetHold(false);
        releasedAt := now;
      }
      pc := AtPicture(privacy, picture, 0, 0);
    }

    /** privacy_cover on one lens: three settings to 0, until the ISP refuses one. */
    method PrivacyCover(lens: nat, accepted: nat) returns (ok: bool)
      requires lens < isp.Length && |isp[lens]| == 3
      modifies isp
      ensures ok == (accepted >= 3) && isp[..] == Cover(old(isp[..]), lens, accepted)
    {
      ghost var before := isp[..];
      var i := 0;
      while i < 3 && i < accepted
        invariant 0 <= i <= 3 && i <= accepted && |isp[lens]| == 3
        invariant isp[..] == Cover(before, lens, i)
      {
        isp[lens] := isp[lens][i := 0];
        i := i + 1;
      }
      ok := i == 3;
      assert isp[..] == Cover(before, lens, accepted);
    }

    /** One call of apply_cover's loop. */
    method CoverLens(clock: nat, lens: nat, failed: bool, picture: bool, accepted: nat) returns (nowFailed: bool)
      requires Valid() && pc == Covering(lens, failed, picture) && pending.None? && lens < isp.Length && |isp[lens]| == 3
      modifies this, isp
      ensures Valid() && View(clock) == Apply(old(View(clock)), CoverCall(accepted))
      ensures Inv(old(View(clock))) ==> Inv(View(clock))
      ensures pc == Covering(lens + 1, nowFailed, picture)
    {
      hide Inv;
      Keeps(View(clock), CoverCall(accepted));
      hide Cover;
      var ok := PrivacyCover(lens, accepted);
      if ok {
        covered, coverEnd := covered + {lens}, clock;
      }
      nowFailed := failed || !ok;
      pc := Covering(lens + 1, nowFailed, picture);
    }

    /** The end of apply_cover: on record only if no lens refused. */
    method CoverDone(clock: nat, lens: nat, failed: bool, picture: bool)
      requires Valid() && pc == Covering(lens, failed, picture) && lens >= isp.Length
      modifies this
      ensures Valid() && View(clock) == AdvanceEngine(old(View(clock)))
      ensures Inv(old(View(clock))) ==> Inv(View(clock))
    {
      hide Inv;
      Keeps(View(clock), Advance);
      coveredAt := if failed then 0 else now;
      pc := AtPicture(true, picture, 0, 0);
    }

    /** brightness, contrast or saturation by hand: with the control lock taken, privacy_on is looked at ... */
    method ControlTest(clock: nat, lens: nat, field: nat, value: int) returns (goes: bool)
      requires Valid() && pending.None?
      modifies this`pending
      ensures Valid() && View(clock) == Apply(old(View(clock)), ManualTest(lens, field, value))
      ensures Inv(old(View(clock))) ==> Inv(View(clock))
      ensures goes == pending.Some?
    {
      hide Inv;
      Keeps(View(clock), ManualTest(lens, field, value));
      goes := !on;
      pending := if goes then Streams.Some(Change(lens, field, value)) else Streams.None;
    }

    /** ... and the setting reaches the ISP. */
    method ControlWrite(clock: nat, lens: nat, field: nat, value: int, accepted: bool)
      requires Valid() && pending == Streams.Some(Change(lens, field, value))
      modifies this`pending, isp
      ensures Valid() && View(clock) == Apply(old(View(clock)), ManualWrite(accepted))
      ensures Inv(old(View(clock))) ==> Inv(View(clock))
    {
      hide Inv;
      Keeps(View(clock), ManualWrite(accepted));
      if accepted {
        SetPicture(lens, field, value);
      }
      pending := Streams.None;
    }

    method SetPicture(lens: nat, field: nat, value: int)
      modifies isp
      ensures isp[..] == Write(old(isp[..]), lens, field, value)
    {
      if lens < isp.Length && field < |isp[lens]| {
        isp[lens] := isp[lens][field := value];
      }
    }

    /** One setting of apply_picture, through the same control, which leaves it out while privacy_on is set. */
    method PictureSetting(clock: nat, lens: nat, field: nat, value: int, accepted: bool)
      requires Valid() && pc == AtPicture(false, true, lens, field) && pending.None? && lens < isp.Length
      modifies this`pc, isp
      ensures Valid() && View(clock) == Apply(old(View(clock)), PictureCall(value, accepted))
      ensures Inv(old(View(clock))) ==> Inv(View(clock))
    {
      hide Inv;
      Keeps(View(clock), PictureCall(value, accepted));
      if !on && accepted {
        SetPicture(lens, field, value);
      }
      pc := if field < 2 then AtPicture(false, true, lens, field + 1) else AtPicture(false, true, lens + 1, 0);
    }

    /** The end of the engine's turn. */
    method EndTurn(clock: nat, privacy: bool)
      requires Valid() && pc == AtEnd(privacy)
      modifies this
      ensures Valid() && View(clock) == AdvanceEngine(old(View(clock)))
      ensures Inv(old(View(clock))) ==> Inv(View(clock))
    {
      hide Inv;
      Keeps(View(clock), Advance);
      if !privacy {
        SetHold(false);
      }
      pc := Idle;
    }
  }

  lemma Keeps(s: State, step: Step)
    ensures Inv(s) ==> Inv(Apply(s, step))
  {
    hide Inv, Apply;
    if Inv(s) {
      StepKeeps(s, step);
    }
  }
}
