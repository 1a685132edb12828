/**
 * The code behind the motor's steps (platform.c): the fields of platform_state,
 * changed in place under its lock.  Every method is proved to be the step of
 * that name in Motor; d holds what the driver answers while the lock is held.
 */
module MotorService {
  import opened Streams
  import opened Motor

  class Platform {
    var manual: Manual
    var goto: Goto
    var homing: Homing
    var device: Device
    var generation: nat
    var faulted: bool
    var privacy: bool
    var quitting: bool
    ghost var pc: Pc
    ghost var log: seq<Sent>
    ghost var driven: bool

    ghost function View(clock: nat): State
      reads this
    {
      State(clock, pc, manual, goto, homing, device, generation, faulted, privacy, quitting, log, driven)
    }

    constructor ()
      ensures forall clock :: View(clock) == Start(clock)
    {
      manual, goto, homing := Manual(0, 0, false, 0, 0, false), Goto(false, 0, 0, 0, 0), Homing(0, 0, 0);
      device, generation := Device(false, 0, 0, false, false, 4080, 1230), 0;
      faulted, privacy, quitting, pc, log, driven := false, false, false, Sleeping, [], false;
    }

    /** An ioctl that commands the driver. */
    method Command(now: nat, kind: Kind, issuer: Issuer, ok: bool)
      modifies this`log, this`driven
      ensures View(now) == Send(old(View(now)), kind, issuer, ok)
    {
      log := log + [Sent(kind, issuer, homing.stage != 0)];
      driven := if !ok || kind.Speed? then driven else !kind.Halt?;
    }

    /** motor_read */
    method MotorRead(r: Option<Reading>) returns (ok: bool)
      modifies this`device
      ensures ok == ReadOk(old(device), r) && device == Read(old(device), r)
      ensures !ok ==> device == old(device)
    {
      ok := device.open && r.Some?;
      if ok && (r.value.x < 0 || r.value.x > device.panMax + 100 || r.value.y < 0 || r.value.y > device.tiltMax + 100 ||
        r.value.moving < 0 || r.value.moving > 1)
      {
        ok := false;
      }
      if ok {
        device := device.(x := Clamp(r.value.x, 0, device.panMax), y := Clamp(r.value.y, 0, device.tiltMax),
                          moving := r.value.moving == 1);
      }
    }

    /** motor_stop_motion */
    method StopMotion(now: nat, issuer: Issuer, d: Driver) returns (ok: bool)
      modifies this
      ensures ok == StopOk(old(View(now)), d) && View(now) == Motor.StopMotion(old(View(now)), issuer, d)
    {
      hide Read, ReadOk, Clamp, Cleared, Send;
      ClearMotion(now);
      if !device.open {
        device := device.(moving := false);
        return true;
      }
      ok := Halted(now, issuer, d);
      if ok {
        device := device.(moving := false);
      }
    }

    method ClearMotion(now: nat)
      modifies this`manual, this`goto, this`device, this`generation
      ensures View(now) == Cleared(old(View(now)))
    {
      manual := manual.(vx := 0, vy := 0, lease := 0, sent := false, nudge := false);
      goto, device := goto.(active := false), device.(chunk := false);
      generation := generation + 1;
    }

    method Halted(now: nat, issuer: Issuer, d: Driver) returns (ok: bool)
      requires device.open
      modifies this`device, this`log, this`driven
      ensures ok == (d.stop && ReadOk(old(device), d.afterStop))
      ensures View(now) == Send(old(View(now)), Halt, issuer, d.stop).(
                device := if ok then Read(old(device), d.afterStop) else old(device))
    {
      Command(now, Halt, issuer, d.stop);
      ok := d.stop;
      if ok {
        ok := MotorRead(d.afterStop);
      }
    }

    /** worker_error */
    method WorkerError(now: nat, issuer: Issuer, d: Driver)
      modifies this
      ensures View(now) == Fail(old(View(now)), issuer, d)
    {
      var _ := StopMotion(now, issuer, d);
      faulted := true;
    }

    /** motor_open_device */
    method OpenDevice(now: nat, d: Driver)
      modifies this
      ensures View(now) == Open(old(View(now)), d)
    {
      if device.open || !d.opens || !LimitsOk(d.limits) {
        return;
      }
      hide Read;
      device := device.(panMax := d.limits.value.0, tiltMax := d.limits.value.1);
      Command(now, Speed(MOTOR_RATE), Caller, d.speed);
      if d.speed {
        device := device.(open := true);
        var ok := MotorRead(d.read);
        if !ok {
          device := device.(open := false);
        }
      }
    }

    /** motor_home_begin */
    method HomeBegin(now: nat, d: Driver) returns (ok: bool)
      modifies this
      ensures ok == HomeBegins(old(View(now)), d) && View(now) == Motor.HomeBegin(old(View(now)), d)
    {
      ok := StopMotion(now, Caller, d);
      if !ok {
        return;
      }
      ok := HomeCommand(now, d);
      if ok {
        homing := Homing(1, now + HOME_STAGE_US, now + HOME_SETTLE_US);
        device := device.(moving := true);
      }
    }

    method HomeCommand(now: nat, d: Driver) returns (ok: bool)
      modifies this`log, this`driven
      ensures ok == (d.speed && d.reset && d.drive) && View(now) == HomeCommands(old(View(now)), d)
    {
      Command(now, Speed(HOME_SPEED), Caller, d.speed);
      if !d.speed {
        return false;
      }
      Command(now, Reset, Caller, d.reset);
      if !d.reset {
        return false;
      }
      Command(now, Drive(HOME_PAN_STEPS / 2, 0), Caller, d.drive);
      ok := d.drive;
    }

    method HomeError(now: nat, d: Driver)
      modifies this
      ensures View(now) == HomeFails(old(View(now)), d)
    {
      homing := homing.(stage := 0);
      WorkerError(now, HomeTick, d);
    }

    /** home_tick, up to the unlock for the driver's reset. */
    method HomeTickAt(now: nat, d: Driver, back: Option<(int, int)>)
      modifies this
      ensures View(now) == HomeTickStep(old(View(now)), d, back)
    {
      hide ReadOk, Read, HomeEnds, HomeFails;
      if now >= homing.until {
        HomeError(now, d);
        return;
      }
      if now < homing.settle {
        return;
      }
      var ok := MotorRead(d.read);
      if !ok {
        HomeError(now, d);
        return;
      }
      if device.moving || (homing.stage == 1 && device.x != HOME_PAN_STEPS) {
        return;
      }
      if homing.stage == 1 {
        homing, device := homing.(stage := 2), device.(moving := true);
        pc := Resetting(now);
        Command(now, Reset, HomeTick, true);
        return;
      }
      HomeEnd(now, d, back);
    }

    method HomeEnd(now: nat, d: Driver, back: Option<(int, int)>)
      modifies this
      ensures View(now) == HomeEnds(old(View(now)), d, back)
    {
      hide ReadOk, Read, HomeFails;
      Command(now, Halt, HomeTick, d.halt);
      if !d.halt || !LimitsOk(d.limits) {
        HomeError(now, d);
        return;
      }
      device := device.(panMax := d.limits.value.0, tiltMax := d.limits.value.1);
      var ok := MotorRead(d.again);
      if !ok {
        HomeError(now, d);
        return;
      }
      homing := homing.(stage := 0);
      if back.Some? {
        goto := Goto(true, now + PRESET_LIMIT_US, back.value.0, back.value.1, 0);
      }
    }

    /** home_tick once the reset has returned; read is the clock of the tick that began it. */
    method AfterReset(now: nat, read: nat, ok: bool, d: Driver)
      requires pc == Resetting(read)
      modifies this
      ensures View(now) == ResetDone(old(View(now)), ok, d)
      ensures Inv(old(View(now))) ==> Inv(View(now))
    {
      hide Inv;
      if Inv(View(now)) {
        ResetDoneKeeps(View(now), ok, d);
      }
      pc := Sleeping;
      if !ok {
        HomeError(now, d);
        return;
      }
      homing := homing.(until := read + HOME_STAGE_US, settle := read + HOME_SETTLE_US);
    }

    /** The end of native_tick. */
    method Begin(now: nat, kind: Kind, d: Driver)
      modifies this
      ensures View(now) == StartDrive(old(View(now)), kind, d)
    {
      hide Motor.StopMotion, Fail;
      if kind == Drive(0, 0) {
        var _ := StopMotion(now, Tick, d);
        return;
      }
      var rate := if goto.active then (if goto.rate != 0 then goto.rate else MOTOR_RATE) else manual.rate;
      Command(now, Speed(rate), Tick, d.speed);
      if !d.speed {
        WorkerError(now, Tick, d);
        return;
      }
      Command(now, kind, Tick, d.drive);
      if !d.drive {
        WorkerError(now, Tick, d);
        return;
      }
      device := device.(moving := true, chunk := true);
    }

    method ChooseDrive(now: nat, d: Driver)
      modifies this
      ensures View(now) == NextDrive(old(View(now)), d)
    {
      hide Motor.StopMotion, StartDrive;
      if goto.active {
        var dx := goto.x - device.x;
        Begin(now, Drive(dx, if dx == 0 then goto.y - device.y else 0), d);
      } else if manual.lease != 0 && !manual.sent {
        manual := manual.(sent := true);
        var kind := ManualMove(now);
        Begin(now, kind, d);
      } else {
        var _ := StopMotion(now, Tick, d);
      }
    }

    method ManualMove(now: nat) returns (kind: Kind)
      ensures kind == ManualDrive(View(now))
    {
      var budget := if manual.nudge then manual.rate * (manual.lease - now + 100_000) / 1_000_000 + 1
                    else if manual.vx != 0 then device.panMax else device.tiltMax;
      if manual.vx != 0 {
        kind := Drive(Clamp(device.x + (if manual.vx < 0 then -budget else budget), 0, device.panMax) - device.x, 0);
      } else if manual.vy != 0 {
        kind := Drive(0, Clamp(device.y + (if manual.vy < 0 then -budget else budget), 0, device.tiltMax) - device.y);
      } else {
        kind := Drive(0, 0);
      }
    }

    method Advance(now: nat, d: Driver)
      modifies this
      ensures View(now) == Progress(old(View(now)), d)
    {
      hide Fail, NextDrive, ReadOk, Read;
      if device.chunk {
        if device.moving {
          return;
        }
        Command(now, Halt, Tick, d.halt);
        var ok := false;
        if d.halt {
          ok := MotorRead(d.again);
        }
        if !ok {
          WorkerError(now, Tick, d);
          return;
        }
        device := device.(chunk := false);
      }
      ChooseDrive(now, d);
    }

    /** native_tick */
    method NativeTickAt(now: nat, d: Driver, back: Option<(int, int)>)
      requires pc.Sleeping?
      modifies this
      ensures View(now) == NativeTick(old(View(now)), d, back)
      ensures Inv(old(View(now))) ==> Inv(View(now))
    {
      hide Inv;
      TickInv(View(now), d, back);
      hide Motor.StopMotion, Fail, HomeTickStep, Progress, ReadOk, Read;
      if homing.stage != 0 && device.open {
        HomeTickAt(now, d, back);
        return;
      }
      if !device.open || faulted || (!goto.active && manual.lease == 0 && !device.chunk) {
        return;
      }
      if goto.active && now >= goto.until {
        WorkerError(now, Tick, d);
        return;
      }
      if manual.lease != 0 && now >= manual.lease {
        var ok := StopMotion(now, Tick, d);
        if !ok {
          WorkerError(now, Tick, d);
        }
        return;
      }
      var ok := MotorRead(d.read);
      if !ok {
        WorkerError(now, Tick, d);
        return;
      }
      Advance(now, d);
    }

    /** ptz and ptz_nudge, the device once opened. */
    method Move(now: nat, nudge: bool, x: int, y: int, d: Driver)
      modifies this
      ensures View(now) == Motion(old(View(now)), nudge, x, y, d)
      ensures Inv(old(View(now))) ==> Inv(View(now))
    {
      hide Inv;
      if Inv(View(now)) {
        MotionKeeps(View(now), nudge, x, y, d);
      }
      hide Motor.StopMotion, StopOk, Leased, Abs;
      if quitting || !device.open || homing.stage != 0 || privacy {
        return;
      }
      var vx, vy := if Abs(x) >= Abs(y) then x else 0, if Abs(x) >= Abs(y) then 0 else y;
      var same := manual.nudge == nudge && manual.vx == vx && manual.vy == vy && manual.lease != 0;
      if same && !nudge {
        manual := manual.(lease := now + MANUAL_LEASE_US);
      }
      if same {
        faulted := false;
      } else {
        Replace(now, nudge, vx, vy, d);
      }
    }

    /** The motion before is stopped and, if the driver agrees, a new one leased. */
    method Replace(now: nat, nudge: bool, vx: int, vy: int, d: Driver)
      modifies this
      ensures var a := Motor.StopMotion(old(View(now)), Caller, d);
              View(now) == if !StopOk(old(View(now)), d) then a else a.(manual := Leased(nudge, vx, vy, now), faulted := false)
    {
      hide Motor.StopMotion, StopOk;
      var ok := StopMotion(now, Caller, d);
      if ok {
        manual := Manual(vx, vy, nudge, if nudge then NUDGE_RATE else Clamp((Abs(vx) + Abs(vy)) * 9, 100, 900),
                         if vx != 0 || vy != 0 then now + (if nudge then NUDGE_US else MANUAL_LEASE_US) else 0, false);
        faulted := false;
      }
    }

    /** preset_set, the device once opened: ok says whether there is a position to keep. */
    method SavePreset(now: nat, d: Driver) returns (ok: bool)
      modifies this
      ensures View(now) == SaveCall(old(View(now)), d)
      ensures Inv(old(View(now))) ==> Inv(View(now))
    {
      hide Inv, Motor.StopMotion, StopOk, Read, ReadOk;
      if Inv(View(now)) {
        SaveKeeps(View(now), d);
      }
      if quitting || !device.open || homing.stage != 0 || privacy {
        return false;
      }
      ok := StopMotion(now, Caller, d);
      if ok {
        ok := MotorRead(d.again);
      }
    }

    /** The driver's side of jipc_platform_status and jipc_platform_steps. */
    method ReadStatus(now: nat, d: Driver)
      modifies this
      ensures View(now) == Status(old(View(now)), d)
      ensures Inv(old(View(now))) ==> Inv(View(now))
    {
      hide Inv, Open, Read, ReadOk;
      if Inv(View(now)) {
        StatusKeeps(View(now), d);
      }
      if homing.stage != 0 {
        return;
      }
      OpenDevice(now, d);
      var _ := MotorRead(d.again);
    }

    /** preset_goto, preset_patrol and jipc_platform_move, the device once opened. */
    method GoTo(now: nat, x: int, y: int, rate: int, limit: nat, d: Driver)
      modifies this
      ensures View(now) == GotoCall(old(View(now)), x, y, rate, limit, d)
      ensures Inv(old(View(now))) ==> Inv(View(now))
    {
      hide Inv;
      if Inv(View(now)) {
        GotoKeeps(View(now), x, y, rate, limit, d);
      }
      hide Motor.StopMotion, StopOk;
      if quitting || !device.open || homing.stage != 0 || privacy {
        return;
      }
      var ok := StopMotion(now, Caller, d);
      if ok {
        goto, faulted := Goto(true, now + limit, x, y, rate), false;
      }
    }

    /** ptz_recalibrate, the device once opened. */
    method RecalibrateHead(now: nat, d: Driver)
      modifies this
      ensures View(now) == Recalibrate(old(View(now)), d)
      ensures Inv(old(View(now))) ==> Inv(View(now))
    {
      hide Inv;
      if Inv(View(now)) {
        RecalibrateKeeps(View(now), d);
      }
      hide Motor.HomeBegin, HomeBegins, Fail, Read, ReadOk;
      if quitting || !device.open || homing.stage != 0 || privacy {
        return;
      }
      var _ := MotorRead(d.again);
      faulted := false;
      StageBegins(View(now), d);
      HomeBeginStage(View(now), d);
      var ok := HomeBegin(now, d);
      if !ok {
        WorkerError(now, Caller, d);
      }
    }

    /** jipc_platform_start, when this boot has not been homed yet. */
    method StartHoming(now: nat, d: Driver)
      modifies this
      ensures View(now) == PlatformStart(old(View(now)), d)
      ensures Inv(old(View(now))) ==> Inv(View(now))
    {
      hide Inv;
      if Inv(View(now)) {
        StepKeeps(View(now), StartStep(d));
      }
      hide Motor.HomeBegin, HomeBegins, Fail, Open;
      OpenDevice(now, d);
      var ok := false;
      if device.open {
        ok := HomeBegin(now, d);
      }
      if !ok {
        WorkerError(now, Caller, d);
      }
    }
  }

  lemma TickInv(s: State, d: Driver, back: Option<(int, int)>)
    requires s.pc.Sleeping?
    ensures Inv(s) ==> Inv(NativeTick(s, d, back))
  {
    hide StopMotion, Fail, HomeTickStep, Progress;
    if Inv(s) {
      if s.homing.stage != 0 {
        HomeTickKeeps(s, d, back);
      } else {
        MoveTickKeeps(s, d, back);
      }
    }
  }

  lemma HomeBeginStage(s: State, d: Driver)
    ensures HomeBegins(s, d) ==> HomeBegin(s, d).homing.stage != 0
  {
  }
}
