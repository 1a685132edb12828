/**
 * The pan/tilt motor (platform.c): a worker that ticks every 10 ms and callers
 * that start, stop and refuse moves, all under one lock; only the driver's long
 * reset during homing runs without it.  What the driver answers is the
 * environment's choice.
 */
module Motor {
  import opened Streams

  const NUDGE_RATE: int := 540
  const MOTOR_RATE: int := 450
  const HOME_SPEED: int := 450
  const MANUAL_LEASE_US: nat := 1_200_000
  const NUDGE_US: nat := 350_000
  const PRESET_LIMIT_US: nat := 45_000_000
  const HOME_STAGE_US: nat := 60_000_000
  const HOME_SETTLE_US: nat := 1_000_000
  const HOME_PAN_STEPS: int := 4080

  datatype Kind = Halt | Speed(rate: int) | Reset | Drive(dx: int, dy: int)

  datatype Issuer = HomeTick | Tick | Caller | Shutdown

  /** A command to the driver, who sent it, and whether homing was under way. */
  datatype Sent = Sent(kind: Kind, issuer: Issuer, homing: bool)

  datatype Manual = Manual(vx: int, vy: int, nudge: bool, rate: int, lease: nat, sent: bool)

  datatype Goto = Goto(active: bool, until: nat, x: int, y: int, rate: int)

  /** stage: 0 idle, 1 pan sweep into the end stop, 2 driver reset. */
  datatype Homing = Homing(stage: nat, until: nat, settle: nat)

  datatype Device = Device(open: bool, x: int, y: int, moving: bool, chunk: bool, panMax: int, tiltMax: int)

  /** The worker between its ticks, inside the driver's reset without the lock, or gone. */
  datatype Pc = Sleeping | Resetting(now: nat) | Exited

  /** driven is history: the driver accepted a move or a reset and no stop since. */
  datatype State = State(
    clock: nat, pc: Pc, manual: Manual, goto: Goto, homing: Homing, device: Device,
    generation: nat, faulted: bool, privacy: bool, quitting: bool, log: seq<Sent>, driven: bool)

  datatype Reading = Reading(x: int, y: int, moving: int)

  /** The driver's answers within one locked section. */
  datatype Driver = Driver(
    opens: bool, stop: bool, afterStop: Option<Reading>, read: Option<Reading>, halt: bool, again: Option<Reading>,
    speed: bool, reset: bool, drive: bool, limits: Option<(int, int)>)

  function Clamp(value: int, low: int, high: int): int {
    if value < low then low else if value > high then high else value
  }

  function Abs(n: int): nat {
    if n < 0 then -n else n
  }

  // ----- the driver

  /** motor_limits: travel the driver may report. */
  predicate LimitsOk(limits: Option<(int, int)>) {
    limits.Some? && 100 <= limits.value.0 <= 8600 && 100 <= limits.value.1 <= 2000
  }

  function Send(s: State, kind: Kind, issuer: Issuer, ok: bool): (t: State)
    ensures t.device == s.device
  {
    s.(log := s.log + [Sent(kind, issuer, s.homing.stage != 0)],
       driven := if !ok || kind.Speed? then s.driven else !kind.Halt?)
  }

  predicate ReadOk(d: Device, r: Option<Reading>) {
    && d.open && r.Some? && 0 <= r.value.x <= d.panMax + 100 && 0 <= r.value.y <= d.tiltMax + 100
    && 0 <= r.value.moving <= 1
  }

  /** motor_read: the position moves into the travel. */
  function Read(d: Device, r: Option<Reading>): Device {
    if ReadOk(d, r) then
      d.(x := Clamp(r.value.x, 0, d.panMax), y := Clamp(r.value.y, 0, d.tiltMax), moving := r.value.moving == 1)
    else d
  }

  predicate StopOk(s: State, d: Driver) {
    !s.device.open || (d.stop && ReadOk(s.device.(chunk := false), d.afterStop))
  }

  function Cleared(s: State): (t: State)
    ensures t.device == s.device.(chunk := false)
  {
    s.(manual := s.manual.(vx := 0, vy := 0, lease := 0, sent := false, nudge := false),
       goto := s.goto.(active := false), device := s.device.(chunk := false), generation := s.generation + 1)
  }

  /** motor_stop_motion */
  function StopMotion(s: State, issuer: Issuer, d: Driver): State {
    var a := Cleared(s);
    var b := if s.device.open then Send(a, Halt, issuer, d.stop) else a;
    if !StopOk(s, d) then b
    else if s.device.open then b.(device := Read(b.device, d.afterStop).(moving := false))
    else b.(device := b.device.(moving := false))
  }

  /** worker_error */
  function Fail(s: State, issuer: Issuer, d: Driver): State {
    StopMotion(s, issuer, d).(faulted := true)
  }

  /** motor_open_device: a device that refuses its speed or its position is closed again. */
  function Open(s: State, d: Driver): State {
    if s.device.open || !d.opens || !LimitsOk(d.limits) then s
    else
      var limited := s.device.(panMax := d.limits.value.0, tiltMax := d.limits.value.1);
      var ready := limited.(open := true);
      Send(s.(device := if d.speed && ReadOk(ready, d.read) then Read(ready, d.read) else limited), Speed(MOTOR_RATE), Caller, d.speed)
  }

  // ----- homing

  predicate HomeBegins(s: State, d: Driver) {
    StopOk(s, d) && d.speed && d.reset && d.drive
  }

  /** The commands that start homing, up to the first the driver refuses. */
  function HomeCommands(s: State, d: Driver): State {
    var a := Send(s, Speed(HOME_SPEED), Caller, d.speed);
    var b := Send(a, Reset, Caller, d.reset);
    var c := Send(b, Drive(HOME_PAN_STEPS / 2, 0), Caller, d.drive);
    if !d.speed then a else if !d.reset then b else c
  }

  /** motor_home_begin */
  function HomeBegin(s: State, d: Driver): State {
    var a := StopMotion(s, Caller, d);
    if !StopOk(s, d) then a
    else
      var b := HomeCommands(a, d);
      if HomeBegins(s, d) then
        b.(homing := Homing(1, s.clock + HOME_STAGE_US, s.clock + HOME_SETTLE_US), device := b.device.(moving := true))
      else b
  }

  function HomeFails(s: State, d: Driver): State {
    Fail(s.(homing := s.homing.(stage := 0)), HomeTick, d)
  }

  /** Homing is complete; back is where the head goes next, if anywhere. */
  function HomeDone(s: State, device: Device, back: Option<(int, int)>): State {
    s.(homing := s.homing.(stage := 0), device := device,
       goto := if back.None? then s.goto else Goto(true, s.clock + PRESET_LIMIT_US, back.value.0, back.value.1, 0))
  }

  function HomeEnds(s: State, d: Driver, back: Option<(int, int)>): State {
    var a := Send(s, Halt, HomeTick, d.halt);
    if !d.halt || !LimitsOk(d.limits) then HomeFails(a, d)
    else
      var limited := a.device.(panMax := d.limits.value.0, tiltMax := d.limits.value.1);
      if !ReadOk(limited, d.again) then HomeFails(a.(device := limited), d)
      else HomeDone(a, Read(limited, d.again), back)
  }

  function HomeTickStep(s: State, d: Driver, back: Option<(int, int)>): State {
    if s.clock >= s.homing.until then HomeFails(s, d)
    else if s.clock < s.homing.settle then s
    else if !ReadOk(s.device, d.read) then HomeFails(s, d)
    else
      var a := s.(device := Read(s.device, d.read));
      if a.device.moving || (s.homing.stage == 1 && a.device.x != HOME_PAN_STEPS) then a
      else if s.homing.stage == 1 then
        Send(a.(homing := a.homing.(stage := 2), device := a.device.(moving := true), pc := Resetting(s.clock)), Reset, HomeTick, true)
      else HomeEnds(a, d, back)
  }

  /** The driver's reset has returned and the worker has the lock back. */
  function ResetDone(s: State, ok: bool, d: Driver): State
    requires s.pc.Resetting?
  {
    var a := s.(pc := Sleeping);
    if !ok then HomeFails(a, d)
    else a.(homing := s.homing.(until := s.pc.now + HOME_STAGE_US, settle := s.pc.now + HOME_SETTLE_US))
  }

  // ----- the worker's other ticks

  /** How far a manual move goes: the travel, or for a nudge what its pulse can cover. */
  function Budget(s: State): int {
    if s.manual.nudge then s.manual.rate * (s.manual.lease - s.clock + 100_000) / 1_000_000 + 1
    else if s.manual.vx != 0 then s.device.panMax else s.device.tiltMax
  }

  function ManualDrive(s: State): Kind {
    var m, d, budget := s.manual, s.device, Budget(s);
    if m.vx != 0 then Drive(Clamp(d.x + (if m.vx < 0 then -budget else budget), 0, d.panMax) - d.x, 0)
    else if m.vy != 0 then Drive(0, Clamp(d.y + (if m.vy < 0 then -budget else budget), 0, d.tiltMax) - d.y)
    else Drive(0, 0)
  }

  function GotoDrive(s: State): Kind {
    var dx := s.goto.x - s.device.x;
    Drive(dx, if dx == 0 then s.goto.y - s.device.y else 0)
  }

  /** The speed of the next displacement: the goto's own or the usual one, or the lease's. */
  function TickRate(s: State): int {
    if !s.goto.active then s.manual.rate else if s.goto.rate != 0 then s.goto.rate else MOTOR_RATE
  }

  function StartDrive(s: State, kind: Kind, d: Driver): State {
    if kind == Drive(0, 0) then StopMotion(s, Tick, d)
    else
      var a := Send(s, Speed(TickRate(s)), Tick, d.speed);
      if !d.speed then Fail(a, Tick, d)
      else
        var b := Send(a, kind, Tick, d.drive);
        if !d.drive then Fail(b, Tick, d) else b.(device := b.device.(moving := true, chunk := true))
  }

  function NextDrive(s: State, d: Driver): State {
    if s.goto.active then StartDrive(s, GotoDrive(s), d)
    else if s.manual.lease != 0 && !s.manual.sent then
      StartDrive(s.(manual := s.manual.(sent := true)), ManualDrive(s), d)
    else StopMotion(s, Tick, d)
  }

  /** A displacement is under way, or has ended and is normalised, before the next starts. */
  function Progress(s: State, d: Driver): State {
    if !s.device.chunk then NextDrive(s, d)
    else if s.device.moving then s
    else
      var a := Send(s, Halt, Tick, d.halt);
      if !d.halt || !ReadOk(a.device, d.again) then Fail(a, Tick, d)
      else NextDrive(a.(device := Read(a.device, d.again).(chunk := false)), d)
  }

  function NativeTick(s: State, d: Driver, back: Option<(int, int)>): State {
    if s.homing.stage != 0 && s.device.open then HomeTickStep(s, d, back)
    else if !s.device.open || s.faulted || (!s.goto.active && s.manual.lease == 0 && !s.device.chunk) then s
    else if s.goto.active && s.clock >= s.goto.until then Fail(s, Tick, d)
    else if s.manual.lease != 0 && s.clock >= s.manual.lease then
      var a := StopMotion(s, Tick, d);
      if StopOk(s, d) then a else Fail(a, Tick, d)
    else if !ReadOk(s.device, d.read) then Fail(s, Tick, d)
    else Progress(s.(device := Read(s.device, d.read)), d)
  }

  function Worker(s: State, d: Driver, back: Option<(int, int)>): State {
    if s.quitting then StopMotion(s, Shutdown, d).(pc := Exited) else NativeTick(s, d, back)
  }

  // ----- callers

  /** Whether a request to move must be turned down, once it has tried to open the device. */
  predicate Refused(s: State) {
    s.quitting || !s.device.open || s.homing.stage != 0
  }

  function Bigger(x: int, y: int): (int, int) {
    if Abs(x) >= Abs(y) then (x, 0) else (0, y)
  }

  predicate SameMotion(s: State, nudge: bool, v: (int, int)) {
    s.manual.nudge == nudge && s.manual.vx == v.0 && s.manual.vy == v.1 && s.manual.lease != 0
  }

  function Leased(nudge: bool, vx: int, vy: int, now: nat): Manual {
    Manual(vx, vy, nudge, if nudge then NUDGE_RATE else Clamp((Abs(vx) + Abs(vy)) * 9, 100, 900),
           if vx == 0 && vy == 0 then 0 else now + (if nudge then NUDGE_US else MANUAL_LEASE_US), false)
  }

  /** ptz and ptz_nudge */
  function Motion(s: State, nudge: bool, x: int, y: int, d: Driver): State {
    if Refused(s) || s.privacy then s
    else
      var v := Bigger(x, y);
      if SameMotion(s, nudge, v) then
        s.(manual := if nudge then s.manual else s.manual.(lease := s.clock + MANUAL_LEASE_US), faulted := false)
      else
        var a := StopMotion(s, Caller, d);
        if !StopOk(s, d) then a
        else a.(manual := Leased(nudge, v.0, v.1, s.clock), faulted := false)
  }

  /** ptz_stop and preset_remove stop the head. */
  function StopCall(s: State, d: Driver): State {
    if s.quitting || s.homing.stage != 0 then s else StopMotion(s, Caller, d)
  }

  /** preset_set stops the head and reads where it is. */
  function SaveCall(s: State, d: Driver): State {
    if Refused(s) || s.privacy then s
    else
      var a := StopMotion(s, Caller, d);
      if StopOk(s, d) then a.(device := Read(a.device, d.again)) else a
  }

  /** jipc_platform_status and jipc_platform_steps read the driver, but not while it homes. */
  function Status(s: State, d: Driver): State {
    if s.homing.stage != 0 then s
    else
      var a := Open(s, d);
      a.(device := Read(a.device, d.again))
  }

  /** preset_goto, preset_patrol and jipc_platform_move: a target, and how long it may take. */
  function GotoCall(s: State, x: int, y: int, rate: int, limit: nat, d: Driver): State {
    if Refused(s) || s.privacy then s
    else
      var a := StopMotion(s, Caller, d);
      if StopOk(s, d) then a.(goto := Goto(true, s.clock + limit, x, y, rate), faulted := false) else a
  }

  /** ptz_recalibrate */
  function Recalibrate(s: State, d: Driver): State {
    if Refused(s) || s.privacy then s
    else
      var a := HomeBegin(s.(device := Read(s.device, d.again), faulted := false), d);
      if a.homing.stage != 0 then a else Fail(a, Caller, d)
  }

  /** jipc_platform_privacy; to is where the head goes, if anywhere. */
  function Privacy(s: State, to: Option<(int, int)>, d: Driver): State {
    if s.homing.stage != 0 || !s.device.open then s
    else
      var a := StopMotion(s, Caller, d);
      if !StopOk(s, d) || to.None? then a
      else a.(goto := Goto(true, s.clock + PRESET_LIMIT_US, to.value.0, to.value.1, 0), faulted := false)
  }

  /** jipc_platform_start, when this boot has not been homed yet. */
  function PlatformStart(s0: State, d: Driver): State {
    var s := Open(s0, d);
    if !s.device.open then Fail(s, Caller, d)
    else
      var a := HomeBegin(s, d);
      if HomeBegins(s, d) then a else Fail(a, Caller, d)
  }

  /** A request opens the device first, unless the service is stopping. */
  function Opened(s: State, d: Driver): State {
    if s.quitting then s else Open(s, d)
  }

  function Quit(s: State, d: Driver): State {
    StopMotion(s.(quitting := true), Shutdown, d)
  }

  datatype Step =
    | Wait(us: nat)
    | TickStep(d: Driver, back: Option<(int, int)>)
    | ResetStep(ok: bool, d: Driver)
    | MotionStep(nudge: bool, x: int, y: int, d: Driver)
    | StopStep(d: Driver)
    | SaveStep(d: Driver)
    | StatusStep(d: Driver)
    | GotoStep(x: int, y: int, rate: int, limit: nat, d: Driver)
    | RecalibrateStep(d: Driver)
    | PrivacyStep(on: bool, to: Option<(int, int)>, d: Driver)
    | StartStep(d: Driver)
    | QuitStep(d: Driver)

  function Apply(s: State, step: Step): State {
    match step
    case Wait(us) => s.(clock := s.clock + us)
    case TickStep(d, back) => if s.pc.Sleeping? then Worker(s, d, back) else s
    case ResetStep(ok, d) => if s.pc.Resetting? then ResetDone(s, ok, d) else s
    case MotionStep(nudge, x, y, d) => Motion(Opened(s, d), nudge, x, y, d)
    case StopStep(d) => StopCall(s, d)
    case SaveStep(d) => SaveCall(Opened(s, d), d)
    case StatusStep(d) => Status(s, d)
    case GotoStep(x, y, rate, limit, d) => GotoCall(Opened(s, d), x, y, rate, limit, d)
    case RecalibrateStep(d) => Recalibrate(Opened(s, d), d)
    case PrivacyStep(on, to, d) =>
      var a := s.(privacy := on);
      Privacy(if s.homing.stage != 0 then a else Open(a, d), to, d)
    case StartStep(d) => PlatformStart(s, d)
    case QuitStep(d) => Quit(s, d)
  }

  function Start(clock: nat): State {
    State(clock, Sleeping, Manual(0, 0, false, 0, 0, false), Goto(false, 0, 0, 0, 0), Homing(0, 0, 0),
          Device(false, 0, 0, false, false, 4080, 1230), 0, false, false, false, [], false)
  }

  // ----- at most one thing moves the head

  ghost predicate Inv(s: State) {
    && s.clock > 0
    && !(s.homing.stage != 0 && s.goto.active) && !(s.homing.stage != 0 && s.manual.lease != 0)
    && !(s.goto.active && s.manual.lease != 0)
    && (s.homing.stage != 0 || s.goto.active || s.manual.lease != 0 ==> s.device.open)
    && (s.manual.lease != 0 ==> !s.faulted)
    && (s.device.chunk ==> s.goto.active || s.manual.lease != 0)
    && (s.manual.lease != 0 <==> s.manual.vx != 0 || s.manual.vy != 0) && (s.manual.vx == 0 || s.manual.vy == 0)
    && s.manual.lease <= s.clock + (if s.manual.nudge then NUDGE_US else MANUAL_LEASE_US)
    && (s.manual.lease != 0 ==> if s.manual.nudge then s.manual.rate == NUDGE_RATE else 100 <= s.manual.rate <= 900)
    && (s.pc.Resetting? ==> s.homing.stage != 0 && s.pc.now <= s.clock)
    && (s.homing.stage != 0 ==> s.homing.until <= s.clock + HOME_STAGE_US)
    && s.device.panMax >= 100 && s.device.tiltMax >= 100
  }

  /** While homing was under way, only home_tick or a shutdown sent the driver anything. */
  ghost predicate HomedAlone(log: seq<Sent>) {
    forall i :: 0 <= i < |log| && log[i].homing ==> log[i].issuer.HomeTick? || log[i].issuer.Shutdown?
  }

  /** What motor_stop_motion always does, whatever the driver says. */
  ghost predicate Halted(s: State, t: State, issuer: Issuer) {
    && t.manual == s.manual.(vx := 0, vy := 0, lease := 0, sent := false, nudge := false)
    && t.goto == s.goto.(active := false)
    && t.device.open == s.device.open && !t.device.chunk
    && t.device.panMax == s.device.panMax && t.device.tiltMax == s.device.tiltMax
    && t.generation == s.generation + 1
    && t.log == (if s.device.open then s.log + [Sent(Halt, issuer, s.homing.stage != 0)] else s.log)
    && t.(manual := s.manual, goto := s.goto, device := s.device, generation := s.generation, log := s.log, driven := s.driven) == s
  }

  lemma StopHalts(s: State, issuer: Issuer, d: Driver)
    ensures Halted(s, StopMotion(s, issuer, d), issuer)
  {
    hide Read, ReadOk;
    ReadMoves(if s.device.open then Send(Cleared(s), Halt, issuer, d.stop).device else s.device, d.afterStop);
  }

  /** Nothing but allowed commands was added. */
  ghost predicate Grew(log: seq<Sent>, longer: seq<Sent>) {
    && log <= longer
    && forall i :: |log| <= i < |longer| && longer[i].homing ==> longer[i].issuer.HomeTick? || longer[i].issuer.Shutdown?
  }

  ghost predicate Keeps(s: State, t: State) {
    Inv(t) && Grew(s.log, t.log)
  }

  lemma GrewAlone(log: seq<Sent>, longer: seq<Sent>)
    requires Grew(log, longer)
    ensures HomedAlone(longer) <==> HomedAlone(log)
  {
    assert forall i :: 0 <= i < |log| ==> longer[i] == log[i];
  }

  lemma FailKeeps(s: State, issuer: Issuer, d: Driver)
    requires Inv(s)
    requires s.homing.stage == 0 || issuer.HomeTick? || issuer.Shutdown?
    ensures Keeps(s, Fail(s, issuer, d)) && Keeps(s, StopMotion(s, issuer, d))
  {
    StopHalts(s, issuer, d);
    hide StopMotion;
  }

  lemma HomeFailsKeeps(s: State, d: Driver)
    requires Inv(s) && s.pc.Sleeping?
    ensures Keeps(s, HomeFails(s, d))
  {
    FailKeeps(s.(homing := s.homing.(stage := 0)), HomeTick, d);
    hide Fail;
  }

  lemma HomeDoneKeeps(s: State, device: Device, back: Option<(int, int)>)
    requires Inv(s) && s.pc.Sleeping? && s.homing.stage != 0
    requires device.open && device.chunk == s.device.chunk && device.panMax >= 100 && device.tiltMax >= 100
    ensures Keeps(s, HomeDone(s, device, back))
  {
  }

  lemma ReadMoves(d: Device, r: Option<Reading>)
    ensures Read(d, r).(x := d.x, y := d.y, moving := d.moving) == d
  {
  }

  lemma HaltKeeps(s: State, ok: bool)
    requires Inv(s)
    ensures var t := Send(s, Halt, HomeTick, ok); Keeps(s, t) && t.(log := s.log, driven := s.driven) == s
  {
  }

  lemma LimitsKeep(s: State, pan: int, tilt: int)
    requires Inv(s) && pan >= 100 && tilt >= 100
    ensures Inv(s.(device := s.device.(panMax := pan, tiltMax := tilt)))
  {
  }

  lemma HomeEndsKeeps(s: State, d: Driver, back: Option<(int, int)>)
    requires Inv(s) && s.homing.stage != 0 && s.pc.Sleeping?
    requires s.device.open
    ensures Keeps(s, HomeEnds(s, d, back))
  {
    hide HomeFails, HomeDone, Read, ReadOk, Send, Inv;
    var a := Send(s, Halt, HomeTick, d.halt);
    HaltKeeps(s, d.halt);
    HomeFailsKeeps(a, d);
    if LimitsOk(d.limits) {
      var limited := a.device.(panMax := d.limits.value.0, tiltMax := d.limits.value.1);
      LimitsKeep(a, d.limits.value.0, d.limits.value.1);
      HomeFailsKeeps(a.(device := limited), d);
      ReadMoves(limited, d.again);
      HomeDoneKeeps(a, Read(limited, d.again), back);
    }
  }

  lemma HomeTickKeeps(s: State, d: Driver, back: Option<(int, int)>)
    requires Inv(s) && s.homing.stage != 0 && s.pc.Sleeping?
    ensures Keeps(s, HomeTickStep(s, d, back))
  {
    hide HomeFails, HomeEnds, Read, ReadOk, Send, Inv;
    var a := s.(device := Read(s.device, d.read));
    HomeFailsKeeps(s, d);
    ReadKeeps(s, d.read);
    if s.device.open {
      HomeEndsKeeps(a, d, back);
    }
    if a.homing.stage == 1 {
      SecondResetKeeps(a);
    }
    HomingIsOpen(s);
  }

  lemma ReadKeeps(s: State, r: Option<Reading>)
    requires Inv(s)
    ensures Inv(s.(device := Read(s.device, r))) && Read(s.device, r).open == s.device.open
  {
    ReadMoves(s.device, r);
    hide Read;
  }

  lemma SecondResetKeeps(s: State)
    requires Inv(s) && s.homing.stage == 1 && s.pc.Sleeping?
    ensures var a := s.(homing := s.homing.(stage := 2), device := s.device.(moving := true), pc := Resetting(s.clock));
            Keeps(s, Send(a, Reset, HomeTick, true))
  {
  }

  lemma ResetDoneKeeps(s: State, ok: bool, d: Driver)
    requires Inv(s) && s.pc.Resetting?
    ensures Keeps(s, ResetDone(s, ok, d))
  {
    FailKeeps(s.(pc := Sleeping, homing := s.homing.(stage := 0)), HomeTick, d);
    hide Fail;
  }

  lemma SendKeeps(s: State, kind: Kind, issuer: Issuer, ok: bool)
    requires Inv(s) && s.homing.stage == 0
    ensures Keeps(s, Send(s, kind, issuer, ok)) && Send(s, kind, issuer, ok).(log := s.log, driven := s.driven) == s
  {
  }

  lemma DrivingKeeps(s: State)
    requires Inv(s) && (s.goto.active || s.manual.lease != 0)
    ensures Keeps(s, s.(device := s.device.(moving := true, chunk := true)))
  {
  }

  lemma StartDriveKeeps(s: State, kind: Kind, d: Driver)
    requires Inv(s) && s.homing.stage == 0 && (s.goto.active || s.manual.lease != 0)
    ensures Keeps(s, StartDrive(s, kind, d))
  {
    hide Fail, StopMotion, Send, Inv;
    FailKeeps(s, Tick, d);
    var a := Send(s, Speed(TickRate(s)), Tick, d.speed);
    SendKeeps(s, Speed(TickRate(s)), Tick, d.speed);
    FailKeeps(a, Tick, d);
    var b := Send(a, kind, Tick, d.drive);
    SendKeeps(a, kind, Tick, d.drive);
    FailKeeps(b, Tick, d);
    DrivingKeeps(b);
  }

  lemma NextDriveKeeps(s: State, d: Driver)
    requires Inv(s) && s.homing.stage == 0
    ensures Keeps(s, NextDrive(s, d))
  {
    FailKeeps(s, Tick, d);
    if s.goto.active {
      StartDriveKeeps(s, GotoDrive(s), d);
    } else if s.manual.lease != 0 {
      StartDriveKeeps(s.(manual := s.manual.(sent := true)), ManualDrive(s), d);
    }
    hide Fail, StopMotion, StartDrive, GotoDrive, ManualDrive;
  }

  lemma ProgressKeeps(s: State, d: Driver)
    requires Inv(s) && s.homing.stage == 0
    ensures Keeps(s, Progress(s, d))
  {
    NextDriveKeeps(s, d);
    var a := Send(s, Halt, Tick, d.halt);
    FailKeeps(a, Tick, d);
    NextDriveKeeps(a.(device := Read(a.device, d.again).(chunk := false)), d);
    hide Fail, NextDrive;
  }

  /** A tick outside homing. */
  lemma MoveTickKeeps(s: State, d: Driver, back: Option<(int, int)>)
    requires Inv(s) && s.homing.stage == 0
    ensures Keeps(s, NativeTick(s, d, back))
  {
    hide StopMotion, Fail, Progress, Read, ReadOk, StopOk;
    var ended := StopMotion(s, Tick, d);
    StopHalts(s, Tick, d);
    FailKeeps(s, Tick, d);
    FailKeeps(ended, Tick, d);
    ReadMoves(s.device, d.read);
    ProgressKeeps(s.(device := Read(s.device, d.read)), d);
  }

  lemma WorkerKeeps(s: State, d: Driver, back: Option<(int, int)>)
    requires Inv(s) && s.pc.Sleeping?
    ensures Keeps(s, Worker(s, d, back))
  {
    hide StopMotion, Fail, HomeTickStep, Progress;
    if s.quitting {
      FailKeeps(s, Shutdown, d);
    } else if s.homing.stage != 0 {
      HomeTickKeeps(s, d, back);
    } else {
      MoveTickKeeps(s, d, back);
    }
  }

  lemma OpenKeeps(s: State, d: Driver)
    requires Inv(s)
    ensures Keeps(s, Open(s, d)) && (Open(s, d) == s || (s.homing.stage == 0 && Open(s, d).homing == s.homing && Open(s, d).pc == s.pc))
  {
  }

  lemma MotionKeeps(s: State, nudge: bool, x: int, y: int, d: Driver)
    requires Inv(s)
    ensures Keeps(s, Motion(s, nudge, x, y, d))
  {
    if s.homing.stage == 0 {
      FailKeeps(s, Caller, d);
      StopHalts(s, Caller, d);
    }
    hide StopMotion;
  }

  lemma GotoKeeps(s: State, x: int, y: int, rate: int, limit: nat, d: Driver)
    requires Inv(s)
    ensures Keeps(s, GotoCall(s, x, y, rate, limit, d))
  {
    if s.homing.stage == 0 {
      FailKeeps(s, Caller, d);
      StopHalts(s, Caller, d);
    }
    hide StopMotion;
  }

  lemma SaveKeeps(s: State, d: Driver)
    requires Inv(s)
    ensures Keeps(s, SaveCall(s, d))
  {
    hide StopMotion, Read;
    if s.homing.stage == 0 {
      FailKeeps(s, Caller, d);
      StopHalts(s, Caller, d);
    }
    ReadMoves(StopMotion(s, Caller, d).device, d.again);
  }

  lemma StatusKeeps(s: State, d: Driver)
    requires Inv(s)
    ensures Keeps(s, Status(s, d))
  {
    OpenKeeps(s, d);
    ReadMoves(Open(s, d).device, d.again);
    hide Open, Read;
  }

  lemma HomeCommandsKeep(s: State, d: Driver)
    requires Inv(s) && s.homing.stage == 0
    ensures var t := HomeCommands(s, d); Keeps(s, t) && t.(log := s.log, driven := s.driven) == s
  {
    var a := Send(s, Speed(HOME_SPEED), Caller, d.speed);
    SendKeeps(s, Speed(HOME_SPEED), Caller, d.speed);
    SendKeeps(a, Reset, Caller, d.reset);
    SendKeeps(Send(a, Reset, Caller, d.reset), Drive(HOME_PAN_STEPS / 2, 0), Caller, d.drive);
    hide Send, Inv;
  }

  lemma HomeBeginKeeps(s: State, d: Driver)
    requires Inv(s) && s.device.open && s.homing.stage == 0
    ensures Keeps(s, HomeBegin(s, d))
    ensures HomeBegin(s, d).homing.stage != 0 <==> HomeBegins(s, d)
    ensures !HomeBegins(s, d) ==> Keeps(s, Fail(HomeBegin(s, d), Caller, d))
  {
    FailKeeps(s, Caller, d);
    StopHalts(s, Caller, d);
    var a := StopMotion(s, Caller, d);
    HomeCommandsKeep(a, d);
    hide StopMotion, Fail, HomeCommands;
    if !HomeBegins(s, d) {
      FailKeeps(HomeBegin(s, d), Caller, d);
    }
  }

  lemma RecalibrateKeeps(s: State, d: Driver)
    requires Inv(s)
    ensures Keeps(s, Recalibrate(s, d))
  {
    var a := s.(device := Read(s.device, d.again), faulted := false);
    if a.device.open && a.homing.stage == 0 {
      HomeBeginKeeps(a, d);
    }
    hide HomeBegin, Fail, HomeBegins;
  }

  lemma PrivacyKeeps(s: State, to: Option<(int, int)>, d: Driver)
    requires Inv(s)
    ensures Keeps(s, Privacy(s, to, d))
  {
    if s.homing.stage == 0 {
      FailKeeps(s, Caller, d);
      StopHalts(s, Caller, d);
    }
    hide StopMotion;
  }

  lemma StartKeeps(s: State, d: Driver)
    requires Inv(s) && s.homing.stage == 0
    ensures Keeps(s, PlatformStart(s, d))
  {
    hide Open, HomeBegin, Fail, HomeBegins, Inv;
    OpenKeeps(s, d);
    OpenUnfaulted(s, d);
    var a := Open(s, d);
    FailKeeps(a, Caller, d);
    if a.device.open {
      HomeBeginKeeps(a, d);
    }
  }

  lemma SwitchPrivacy(s: State, on: bool)
    requires Inv(s)
    ensures Inv(s.(privacy := on))
  {
  }

  lemma CallerKeeps(s: State, step: Step)
    requires Inv(s) && (step.MotionStep? || step.SaveStep? || step.GotoStep? || step.RecalibrateStep? || step.PrivacyStep?)
    ensures Keeps(s, Apply(s, step))
  {
    hide Open, Motion, SaveCall, GotoCall, Recalibrate, Privacy, Inv;
    var a := if step.PrivacyStep? then s.(privacy := step.on) else s;
    SwitchPrivacy(s, a.privacy);
    OpenKeeps(a, step.d);
    var b := if (if step.PrivacyStep? then s.homing.stage != 0 else s.quitting) then a else Open(a, step.d);
    assert Inv(b) && Grew(s.log, b.log);
    match step {
      case MotionStep(nudge, x, y, d) => MotionKeeps(b, nudge, x, y, d);
      case SaveStep(d) => SaveKeeps(b, d);
      case GotoStep(x, y, rate, limit, d) => GotoKeeps(b, x, y, rate, limit, d);
      case RecalibrateStep(d) => RecalibrateKeeps(b, d);
      case PrivacyStep(on, to, d) => PrivacyKeeps(b, to, d);
    }
  }

  // ----- runs

  /** Every step keeps one mover at most, and only a start during homing lets a stranger command the driver. */
  lemma StepKeeps(s: State, step: Step)
    requires Inv(s)
    ensures Inv(Apply(s, step))
    ensures HomedAlone(Apply(s, step).log) <==> HomedAlone(s.log) && !(step.StartStep? && s.homing.stage != 0)
  {
    match step {
      case Wait(us) =>
      case TickStep(d, back) =>
        if s.pc.Sleeping? {
          WorkerKeeps(s, d, back);
        }
      case ResetStep(ok, d) =>
        if s.pc.Resetting? {
          ResetDoneKeeps(s, ok, d);
        }
      case StopStep(d) =>
        if s.homing.stage == 0 {
          FailKeeps(s, Caller, d);
        }
      case StatusStep(d) => StatusKeeps(s, d);
      case QuitStep(d) => FailKeeps(s.(quitting := true), Shutdown, d);
      case StartStep(d) =>
        if s.homing.stage == 0 {
          StartKeeps(s, d);
        } else {
          StartIntrudes(s, d);
        }
      case _ => CallerKeeps(s, step);
    }
    hide Worker, ResetDone, StopMotion, PlatformStart, Inv, Motion, SaveCall, Status, GotoCall, Recalibrate, Privacy, Open;
    if !(step.StartStep? && s.homing.stage != 0) {
      GrewAlone(s.log, Apply(s, step).log);
    }
  }

  lemma CommandsSend(s: State, d: Driver)
    ensures var t := HomeCommands(s, d); s.log <= t.log && t.(log := s.log, driven := s.driven) == s
  {
  }

  lemma HomeBeginIntrudes(s: State, d: Driver)
    requires Inv(s) && s.homing.stage != 0
    ensures var t := HomeBegin(s, d); Inv(t) && t.device.open && s.log + [Sent(Halt, Caller, true)] <= t.log
  {
    StopHalts(s, Caller, d);
    CommandsSend(StopMotion(s, Caller, d), d);
    hide StopMotion, HomeCommands;
  }

  /** A platform start during homing: still one mover, but its first command is a stranger's. */
  lemma StartIntrudes(s: State, d: Driver)
    requires Inv(s) && s.homing.stage != 0
    ensures Inv(PlatformStart(s, d)) && !HomedAlone(PlatformStart(s, d).log)
  {
    hide StopMotion, HomeBegin, HomeBegins, Open, Fail, Inv;
    HomingIsOpen(s);
    AlreadyOpen(s, d);
    HomeBeginIntrudes(s, d);
    FailIntrudes(HomeBegin(s, d), d);
    assert (s.log + [Sent(Halt, Caller, true)])[|s.log|] == PlatformStart(s, d).log[|s.log|];
  }

  lemma HomingIsOpen(s: State)
    requires Inv(s) && s.homing.stage != 0
    ensures s.device.open
  {
  }

  lemma FailIntrudes(s: State, d: Driver)
    requires Inv(s) && s.device.open
    ensures Inv(Fail(s, Caller, d)) && s.log <= Fail(s, Caller, d).log
  {
    hide StopMotion;
    StopHalts(s, Caller, d);
  }

  function Run(s: State, steps: seq<Step>): State
    decreases |steps|
  {
    if steps == [] then s else Apply(Run(s, steps[..|steps| - 1]), steps[|steps| - 1])
  }

  /** Some platform start of the run came while homing was under way. */
  ghost predicate StartedDuringHoming(clock: nat, steps: seq<Step>) {
    exists n {:trigger steps[n]} :: 0 <= n < |steps| && steps[n].StartStep? && Run(Start(clock), steps[..n]).homing.stage != 0
  }

  /**
   * In every run at most one of homing, a goto and a manual lease moves the
   * head.  And while homing was under way nobody but home_tick (or a shutdown)
   * commanded the driver, exactly when no platform start came during homing:
   * unlike every other entry point, it does not look.
   */
  lemma {:induction false} OneMover(clock: nat, steps: seq<Step>)
    requires clock > 0
    ensures var s := Run(Start(clock), steps);
            && Inv(s)
            && (HomedAlone(s.log) <==> !StartedDuringHoming(clock, steps))
            && !(s.homing.stage != 0 && (s.goto.active || s.manual.lease != 0))
            && !(s.goto.active && s.manual.lease != 0)
    decreases |steps|
  {
    if steps != [] {
      var n := |steps| - 1;
      OneMover(clock, steps[..n]);
      StepKeeps(Run(Start(clock), steps[..n]), steps[n]);
      StartedLast(clock, steps);
      hide Apply, HomedAlone, StartedDuringHoming;
    }
  }

  lemma StartedLast(clock: nat, steps: seq<Step>)
    requires steps != []
    ensures var n := |steps| - 1;
            StartedDuringHoming(clock, steps) <==>
              || StartedDuringHoming(clock, steps[..n])
              || (steps[n].StartStep? && Run(Start(clock), steps[..n]).homing.stage != 0)
  {
    hide Run;
    var n := |steps| - 1;
    assert forall k {:trigger steps[k]} :: 0 <= k < n ==> steps[..n][k] == steps[k] && steps[..n][..k] == steps[..k];
    if StartedDuringHoming(clock, steps[..n]) {
      var k :| 0 <= k < n && steps[..n][k].StartStep? && Run(Start(clock), steps[..n][..k]).homing.stage != 0;
      assert steps[k].StartStep?;
    }
  }

  /** A camera whose web interface recalibrates the head just before the platform starts. */
  lemma StartDuringHoming()
    ensures exists steps :: !HomedAlone(Run(Start(1), steps).log)
  {
    var d := Willing(0);
    var steps := [RecalibrateStep(d), StartStep(d)];
    OneMover(1, steps);
    assert steps[..1] == [RecalibrateStep(d)] && steps[..1][..0] == [];
    assert Run(Start(1), steps[..1]) == Apply(Start(1), steps[0]) by {
      assert Run(Start(1), steps[..0]) == Start(1);
    }
    hide Run, Apply;
    RecalibrateHomes(d);
    assert steps[1].StartStep?;
  }

  lemma RecalibrateHomes(d: Driver)
    requires d == Willing(0)
    ensures Apply(Start(1), RecalibrateStep(d)).homing.stage != 0
  {
    var s := Open(Start(1), d);
    assert s.device == Device(true, 0, 0, false, false, 4080, 1230);
    hide Open, HomeBegin, HomeBegins;
    StartInv();
    OpenKeeps(Start(1), d);
    OpenUnfaulted(Start(1), d);
    var a := s.(device := Read(s.device, d.again), faulted := false);
    BeginsHoming(a, d);
  }

  lemma StartInv()
    ensures Inv(Start(1))
  {
  }

  lemma BeginsHoming(s: State, d: Driver)
    requires d == Willing(0) && s.device == Device(true, 0, 0, false, false, 4080, 1230) && s.homing.stage == 0
    ensures HomeBegin(s, d).homing.stage != 0
  {
    StopHalts(s, Caller, d);
    CommandsSend(StopMotion(s, Caller, d), d);
    assert HomeBegins(s, d);
    hide StopMotion, HomeCommands;
  }

  // ----- every move ends

  /** The time of homing, goto or lease is up. */
  predicate Due(s: State) {
    || (s.homing.stage != 0 && s.clock >= s.homing.until)
    || (s.goto.active && s.clock >= s.goto.until)
    || (s.manual.lease != 0 && s.clock >= s.manual.lease)
  }

  /** Nothing moves the head, by a stop sent since s whatever the driver answered. */
  ghost predicate Ended(s: State, t: State) {
    && t.homing.stage == 0 && !t.goto.active && t.manual.lease == 0 && t.manual.vx == 0 && t.manual.vy == 0
    && !t.device.chunk && t.generation > s.generation
    && s.log < t.log && t.log[|s.log|].kind == Halt && !t.log[|s.log|].homing
  }

  /**
   * The first tick at or after its deadline ends a move, homing included: the
   * state is cleared, a stop has been sent, and if the driver accepts it nothing
   * drives the head any more.  It does so exactly when the move is not a goto of
   * a faulted motor; that one the tick leaves as it is.
   */
  lemma DeadlineStops(s: State, d: Driver, back: Option<(int, int)>)
    requires Inv(s) && s.pc.Sleeping? && !s.quitting && Due(s)
    ensures var t := Apply(s, TickStep(d, back));
            && (Ended(s, t) <==> !(s.goto.active && s.faulted))
            && (s.goto.active && s.faulted ==> t == s)
            && (Ended(s, t) && d.stop ==> !t.driven)
  {
    hide Read, ReadOk;
    FailEnds(s.(homing := s.homing.(stage := 0)), HomeTick, d);
    FailEnds(s, Tick, d);
    FailEnds(StopMotion(s, Tick, d), Tick, d);
    StopHalts(s, Tick, d);
    hide StopMotion, Fail, Progress, HomeEnds;
  }

  lemma FailEnds(s: State, issuer: Issuer, d: Driver)
    ensures var t := Fail(s, issuer, d);
            && Halted(s, t.(faulted := s.faulted), issuer) && t.faulted
            && (s.device.open && d.stop ==> !t.driven && !StopMotion(s, issuer, d).driven)
  {
    StopHalts(s, issuer, d);
    hide Read, ReadOk, Clamp;
  }

  // ----- a platform start and an earlier fault

  /** Neither a goto nor homing goes on in a faulted motor. */
  ghost predicate Unfaulted(s: State) {
    s.goto.active || s.homing.stage != 0 ==> !s.faulted
  }

  lemma StartDriveUnfaulted(s: State, kind: Kind, d: Driver)
    requires !s.faulted && s.homing.stage == 0
    ensures Unfaulted(StartDrive(s, kind, d))
  {
    FailClears(d);
    hide StopMotion;
  }

  lemma ProgressUnfaulted(s: State, d: Driver)
    requires !s.faulted && s.homing.stage == 0
    ensures Unfaulted(Progress(s, d))
  {
    FailClears(d);
    hide StopMotion, StartDrive, Read, ReadOk, ManualDrive, GotoDrive;
    forall t: State, kind | !t.faulted && t.homing.stage == 0 ensures Unfaulted(StartDrive(t, kind, d)) {
      StartDriveUnfaulted(t, kind, d);
    }
  }

  lemma HomeTickUnfaulted(s: State, d: Driver, back: Option<(int, int)>)
    requires s.homing.stage != 0 && !s.faulted && !s.goto.active
    ensures Unfaulted(HomeTickStep(s, d, back))
  {
    FailClears(d);
    hide StopMotion, Read, ReadOk;
  }

  lemma TickUnfaulted(s: State, d: Driver, back: Option<(int, int)>)
    requires Inv(s) && Unfaulted(s)
    ensures Unfaulted(Worker(s, d, back))
  {
    FailClears(d);
    hide StopMotion, Read, ReadOk, StopOk, Progress, HomeTickStep;
    if s.homing.stage != 0 {
      HomeTickUnfaulted(s, d, back);
    } else if !s.faulted {
      ProgressUnfaulted(s.(device := Read(s.device, d.read)), d);
    }
  }

  lemma FailClears(d: Driver)
    ensures forall s: State, issuer ::
              var t := StopMotion(s, issuer, d); !t.goto.active && t.homing == s.homing && t.faulted == s.faulted
  {
    forall s: State, issuer
      ensures var t := StopMotion(s, issuer, d); !t.goto.active && t.homing == s.homing && t.faulted == s.faulted
    {
      StopHalts(s, issuer, d);
    }
  }

  lemma OpenUnfaulted(s: State, d: Driver)
    ensures var t := Open(s, d); t.goto == s.goto && t.homing == s.homing && t.faulted == s.faulted
  {
  }

  lemma HomingUnfaulted(s: State, d: Driver)
    requires !s.faulted && s.homing.stage == 0
    ensures var t := HomeBegin(s, d); !t.faulted && !t.goto.active && (t.homing.stage != 0 <==> HomeBegins(s, d))
    ensures !HomeBegins(s, d) ==> Unfaulted(Fail(HomeBegin(s, d), Caller, d))
  {
    StopHalts(s, Caller, d);
    CommandsSend(StopMotion(s, Caller, d), d);
    hide StopMotion, HomeCommands;
    StopHalts(HomeBegin(s, d), Caller, d);
  }

  lemma RequestUnfaulted(s: State, step: Step)
    requires Unfaulted(s) && (step.MotionStep? || step.SaveStep? || step.StatusStep? || step.GotoStep? || step.PrivacyStep?)
    ensures Unfaulted(Apply(s, step))
  {
    hide Read, StopOk, Bigger, Open, StopMotion;
    var a := if step.PrivacyStep? then s.(privacy := step.on) else s;
    OpenUnfaulted(a, step.d);
    FailClears(step.d);
  }

  lemma BeginUnfaulted(s: State, step: Step)
    requires Unfaulted(s) && (step.RecalibrateStep? || (step.StartStep? && !s.faulted && s.homing.stage == 0))
    ensures Unfaulted(Apply(s, step))
  {
    hide Read, StopOk, Open, StopMotion, HomeBegin, HomeBegins;
    var d := step.d;
    OpenUnfaulted(s, d);
    FailClears(d);
    var b := if step.StartStep? then Open(s, d) else Opened(s, d).(device := Read(Opened(s, d).device, d.again), faulted := false);
    if b.homing.stage == 0 {
      HomingUnfaulted(b, d);
    }
  }

  lemma CallUnfaulted(s: State, step: Step)
    requires Unfaulted(s) && !step.TickStep? && !step.ResetStep? && !step.Wait?
    requires !(step.StartStep? && (s.faulted || s.homing.stage != 0))
    ensures Unfaulted(Apply(s, step))
  {
    hide StopMotion, Open, Opened, Motion, SaveCall, Status, GotoCall, Privacy, Recalibrate, PlatformStart;
    match step {
      case StopStep(d) => FailClears(d);
      case QuitStep(d) => FailClears(d);
      case RecalibrateStep(_) => BeginUnfaulted(s, step);
      case StartStep(_) => BeginUnfaulted(s, step);
      case _ => RequestUnfaulted(s, step);
    }
  }

  lemma WaitUnfaulted(s: State, us: nat)
    requires Unfaulted(s)
    ensures Unfaulted(Apply(s, Wait(us)))
  {
  }

  lemma ResetUnfaulted(s: State, ok: bool, d: Driver)
    requires s.pc.Resetting? && Unfaulted(s)
    ensures Unfaulted(ResetDone(s, ok, d))
  {
    StopHalts(s.(pc := Sleeping, homing := s.homing.(stage := 0)), HomeTick, d);
    hide StopMotion;
  }

  /** Some platform start of the run found the motor faulted, or homing. */
  ghost predicate StartedAmiss(clock: nat, steps: seq<Step>) {
    exists n {:trigger steps[n]} :: 0 <= n < |steps| && steps[n].StartStep? &&
      var s := Run(Start(clock), steps[..n]); s.faulted || s.homing.stage != 0
  }

  /**
   * Unless a platform start found the motor faulted or homing, no goto is ever
   * left standing: by DeadlineStops every tick at or after its limit ends it.
   */
  lemma {:induction false} GotoServed(clock: nat, steps: seq<Step>)
    requires clock > 0 && !StartedAmiss(clock, steps)
    ensures Unfaulted(Run(Start(clock), steps))
    decreases |steps|
  {
    if steps != [] {
      var n := |steps| - 1;
      forall k {:trigger steps[..n][k]} | 0 <= k < n && steps[..n][k].StartStep?
        ensures var s := Run(Start(clock), steps[..n][..k]); !s.faulted && s.homing.stage == 0
      {
        assert steps[..n][..k] == steps[..k] && steps[k].StartStep?;
      }
      GotoServed(clock, steps[..n]);
      OneMover(clock, steps[..n]);
      var before := Run(Start(clock), steps[..n]);
      assert steps[n].StartStep? ==> !before.faulted && before.homing.stage == 0;
      hide Run, Unfaulted;
      match steps[n] {
        case Wait(us) => WaitUnfaulted(before, us);
        case TickStep(d, back) => TickUnfaulted(before, d, back);
        case ResetStep(ok, d) =>
          if before.pc.Resetting? {
            ResetUnfaulted(before, ok, d);
          }
        case _ => CallUnfaulted(before, steps[n]);
      }
    }
  }

  lemma Extend(s: State, steps: seq<Step>, step: Step) returns (longer: seq<Step>)
    ensures longer == steps + [step] && Run(s, longer) == Apply(Run(s, steps), step)
  {
    longer := steps + [step];
    assert longer[..|longer| - 1] == steps;
  }

  /** A driver that does as it is told, the head standing at x. */
  function Willing(x: int): Driver {
    var reading := Some(Reading(x, 0, 0));
    Driver(true, true, reading, reading, true, reading, true, true, true, Some((4080, 1230)))
  }

  predicate FaultedAt(s: State, clock: nat) {
    s.clock == clock && s.faulted && s.device.open && s.pc.Sleeping? && !s.quitting && s.device.panMax == 4080 && s.device.tiltMax == 1230
  }

  lemma FaultByUnreadable(s: State)
    requires s == Start(1)
    ensures var a := Apply(s, MotionStep(false, 50, 0, Willing(0)));
            FaultedAt(Apply(a, TickStep(Willing(0).(read := None), None)), 1)
            && Apply(a, TickStep(Willing(0).(read := None), None)).homing.stage == 0
  {
    assert var d := Willing(0); Open(s, d).device == Device(true, 0, 0, false, false, 4080, 1230);
    var a := Apply(s, MotionStep(false, 50, 0, Willing(0)));
    assert a.device.open && a.manual.lease != 0 && a.pc.Sleeping?;
  }

  lemma StartFaulted(s: State)
    requires FaultedAt(s, 1) && s.homing.stage == 0
    ensures var t := Apply(s, StartStep(Willing(0)));
            FaultedAt(t, 1) && t.homing == Homing(1, 1 + HOME_STAGE_US, 1 + HOME_SETTLE_US)
  {
    var d := Willing(0);
    StopHalts(s, Caller, d);
    CommandsSend(StopMotion(s, Caller, d), d);
    hide StopMotion, HomeCommands;
  }

  lemma SweepEnds(s: State, clock: nat)
    requires FaultedAt(s, clock) && s.homing.stage == 1 && s.homing.settle <= clock < s.homing.until
    ensures var t := Apply(Apply(s, TickStep(Willing(HOME_PAN_STEPS), None)), ResetStep(true, Willing(0)));
            FaultedAt(t, clock) && t.homing == Homing(2, clock + HOME_STAGE_US, clock + HOME_SETTLE_US)
  {
  }

  lemma HomingEnds(s: State, clock: nat)
    requires FaultedAt(s, clock) && s.homing.stage == 2 && s.homing.settle <= clock < s.homing.until
    ensures var t := Apply(s, TickStep(Willing(HOME_PAN_STEPS), Some((0, 0))));
            FaultedAt(t, clock) && t.goto == Goto(true, clock + PRESET_LIMIT_US, 0, 0, 0) && t.homing.stage == 0
  {
  }

  /**
   * A motor that faulted before the platform starts is homed but stays faulted,
   * unlike with every other way to move the head.  The return move after that
   * homing is then past its limit and still standing, and DeadlineStops says
   * that no tick ends it.
   */
  lemma FaultSurvivesHoming() returns (steps: seq<Step>)
    ensures var s := Run(Start(1), steps);
            && s.goto.active && s.faulted && s.clock >= s.goto.until
            && forall d, back :: Apply(s, TickStep(d, back)) == s
  {
    var s := Start(1);
    steps := [];
    FaultByUnreadable(s);
    steps := Extend(s, steps, MotionStep(false, 50, 0, Willing(0)));
    hide Run, Apply, Willing, Start;
    assert Run(s, []) == s by { RunNothing(s); }
    steps := Extend(s, steps, TickStep(Willing(0).(read := None), None));
    StartFaulted(Run(s, steps));
    steps := Extend(s, steps, StartStep(Willing(0)));
    steps := Later(s, steps, HOME_SETTLE_US);
    SweepEnds(Run(s, steps), 1_000_001);
    steps := Extend(s, steps, TickStep(Willing(HOME_PAN_STEPS), None));
    steps := Extend(s, steps, ResetStep(true, Willing(0)));
    steps := Later(s, steps, HOME_SETTLE_US);
    HomingEnds(Run(s, steps), 2_000_001);
    steps := Extend(s, steps, TickStep(Willing(HOME_PAN_STEPS), Some((0, 0))));
    steps := Later(s, steps, PRESET_LIMIT_US);
    OneMover(1, steps);
    forall d, back ensures Apply(Run(s, steps), TickStep(d, back)) == Run(s, steps) {
      DeadlineStops(Run(s, steps), d, back);
    }
  }

  lemma RunNothing(s: State)
    ensures Run(s, []) == s
  {
  }

  lemma Later(s: State, steps: seq<Step>, us: nat) returns (longer: seq<Step>)
    ensures Run(s, longer) == Run(s, steps).(clock := Run(s, steps).clock + us)
  {
    longer := Extend(s, steps, Wait(us));
  }

  // ----- leases

  /** The same motion with the same deadline, or a new generation. */
  ghost predicate SameLease(s: State, t: State) {
    || t.generation > s.generation
    || (t.generation == s.generation && t.manual.nudge == s.manual.nudge && t.manual.lease == s.manual.lease)
  }

  lemma TickLease(s: State, d: Driver, back: Option<(int, int)>)
    requires Inv(s) && s.manual.lease != 0
    ensures SameLease(s, Worker(s, d, back))
  {
    ProgressLease(s.(device := Read(s.device, d.read)), d);
    FailLease(s, Tick, d);
    FailLease(s, Shutdown, d);
    FailLease(StopMotion(s, Tick, d), Tick, d);
    hide ReadOk, StopOk, StopMotion, Fail, Progress;
  }

  lemma FailLease(s: State, issuer: Issuer, d: Driver)
    ensures StopMotion(s, issuer, d).generation > s.generation && Fail(s, issuer, d).generation > s.generation
  {
    StopHalts(s, issuer, d);
    hide StopMotion;
  }

  lemma ProgressLease(s: State, d: Driver)
    ensures SameLease(s, Progress(s, d))
  {
    NextDriveLease(s, d);
    var a := Send(s, Halt, Tick, d.halt);
    FailLease(a, Tick, d);
    NextDriveLease(a.(device := Read(a.device, d.again).(chunk := false)), d);
    hide ReadOk, Read, Fail, NextDrive;
  }

  lemma NextDriveLease(s: State, d: Driver)
    ensures SameLease(s, NextDrive(s, d))
  {
    FailLease(s, Tick, d);
    StartDriveLease(s, GotoDrive(s), d);
    StartDriveLease(s.(manual := s.manual.(sent := true)), ManualDrive(s), d);
    hide Fail, StopMotion, StartDrive, GotoDrive, ManualDrive;
  }

  lemma StartDriveLease(s: State, kind: Kind, d: Driver)
    ensures SameLease(s, StartDrive(s, kind, d))
  {
    FailLease(s, Tick, d);
    var a := Send(s, Speed(TickRate(s)), Tick, d.speed);
    FailLease(a, Tick, d);
    FailLease(Send(a, kind, Tick, d.drive), Tick, d);
    hide Fail, StopMotion;
  }

  lemma HomeBeginLease(s: State, d: Driver)
    ensures HomeBegin(s, d).generation > s.generation
  {
    StopHalts(s, Caller, d);
    CommandsSend(StopMotion(s, Caller, d), d);
    hide StopMotion, HomeCommands, StopOk, HomeBegins;
  }

  lemma AlreadyOpen(s: State, d: Driver)
    requires s.device.open
    ensures Open(s, d) == s && Opened(s, d) == s
  {
  }

  lemma RequestLease(s: State, step: Step)
    requires s.device.open && s.manual.nudge && (step.MotionStep? || step.SaveStep? || step.GotoStep? || step.PrivacyStep?)
    ensures SameLease(s, Apply(s, step))
  {
    hide StopMotion, Open, Opened, StopOk, Read, Bigger;
    var a := if step.PrivacyStep? then s.(privacy := step.on) else s;
    AlreadyOpen(a, step.d);
    FailLease(a, Caller, step.d);
  }

  lemma BeginLease(s: State, step: Step)
    requires s.device.open && (step.RecalibrateStep? || step.StartStep?)
    ensures SameLease(s, Apply(s, step))
  {
    hide StopMotion, HomeBegin, HomeBegins, Open, Opened, StopOk, Read;
    var d := step.d;
    var a := if step.RecalibrateStep? then s.(device := Read(s.device, d.again), faulted := false) else s;
    AlreadyOpen(s, d);
    HomeBeginLease(a, d);
    FailLease(HomeBegin(a, d), Caller, d);
  }

  lemma CallerLease(s: State, step: Step)
    requires Inv(s) && s.manual.nudge && s.manual.lease != 0 && !step.TickStep? && !step.ResetStep?
    ensures SameLease(s, Apply(s, step))
  {
    hide StopMotion, Open, Opened, Motion, SaveCall, GotoCall, Privacy, Recalibrate, PlatformStart, Read;
    match step {
      case Wait(us) =>
      case StopStep(d) => FailLease(s, Caller, d);
      case QuitStep(d) => FailLease(s.(quitting := true), Shutdown, d);
      case StatusStep(d) => AlreadyOpen(s, d);
      case RecalibrateStep(_) => BeginLease(s, step);
      case StartStep(_) => BeginLease(s, step);
      case _ => RequestLease(s, step);
    }
  }

  /** A nudge ends within its 350 ms: no step extends its lease, only replaces or ends the motion. */
  lemma NudgeNotExtended(s: State, step: Step)
    requires Inv(s) && s.manual.nudge && s.manual.lease != 0
    ensures s.manual.lease <= s.clock + NUDGE_US && SameLease(s, Apply(s, step))
  {
    if step.TickStep? {
      TickLease(s, step.d, step.back);
    } else if !step.ResetStep? {
      CallerLease(s, step);
    }
    hide Worker, Opened, StopMotion, HomeBegin;
  }

  /**
   * A request to move starts a lease of its own length on the larger of its two
   * axes, in place of whatever moved before; one for the motion already under
   * way keeps it, and unless it is a nudge renews its lease.
   */
  lemma MotionStarts(s: State, nudge: bool, x: int, y: int, d: Driver)
    requires Inv(s) && !Refused(s) && !s.privacy && StopOk(s, d) && (x, y) != (0, 0)
    ensures var t := Motion(s, nudge, x, y, d);
            && !t.goto.active && !t.faulted && t.manual.nudge == nudge
            && (t.manual.vx == 0 || t.manual.vy == 0)
            && Abs(t.manual.vx) + Abs(t.manual.vy) == (if Abs(x) >= Abs(y) then Abs(x) else Abs(y))
            && (t.manual.vx == x || t.manual.vy == y)
            && (if t.generation == s.generation then
                  t.manual.lease == (if nudge then s.manual.lease else s.clock + MANUAL_LEASE_US)
                else t.manual.lease == s.clock + (if nudge then NUDGE_US else MANUAL_LEASE_US))
  {
    StopHalts(s, Caller, d);
    hide StopMotion;
  }

  /** A manual move goes one axis, its own way, and stays in the travel; a nudge goes at most 244 steps. */
  ghost predicate Bounded(vx: int, vy: int, nudge: bool, x: int, y: int, panMax: int, tiltMax: int, k: Kind) {
    && k.Drive? && (k.dx == 0 || k.dy == 0)
    && 0 <= x + k.dx <= panMax && 0 <= y + k.dy <= tiltMax
    && (nudge ==> Abs(k.dx) <= 244 && Abs(k.dy) <= 244)
    && (vx <= 0 ==> k.dx <= 0) && (vx >= 0 ==> k.dx >= 0) && (vy <= 0 ==> k.dy <= 0) && (vy >= 0 ==> k.dy >= 0)
  }

  ghost predicate BoundedMove(m: Manual, at: Device, k: Kind) {
    Bounded(m.vx, m.vy, m.nudge, at.x, at.y, at.panMax, at.tiltMax, k)
  }

  lemma ManualDriveBounded(s: State)
    requires Inv(s) && s.manual.lease != 0 && s.clock < s.manual.lease
    requires 0 <= s.device.x <= s.device.panMax && 0 <= s.device.y <= s.device.tiltMax
    ensures BoundedMove(s.manual, s.device, ManualDrive(s))
  {
  }

  /** Where a tick finds the head before it starts a displacement. */
  function Located(s: State, d: Driver): Device {
    var at := Read(s.device, d.read);
    if s.device.chunk then Read(at, d.again) else at
  }

  ghost predicate NewDrivesBounded(s: State, at: Device, log: seq<Sent>) {
    s.log <= log && forall i :: |s.log| <= i < |log| && log[i].kind.Drive? ==> BoundedMove(s.manual, at, log[i].kind)
  }

  lemma StartDriveBounded(s: State, kind: Kind, at: Device, d: Driver)
    requires BoundedMove(s.manual, at, kind)
    ensures NewDrivesBounded(s, at, StartDrive(s, kind, d).log)
  {
    hide StopMotion, BoundedMove;
    StopHalts(s, Tick, d);
    var a := Send(s, Speed(TickRate(s)), Tick, d.speed);
    StopHalts(a, Tick, d);
    StopHalts(Send(a, kind, Tick, d.drive), Tick, d);
  }

  lemma NextDriveBounded(s: State, d: Driver)
    requires Inv(s) && !s.goto.active && (s.manual.lease != 0 ==> s.clock < s.manual.lease)
    requires 0 <= s.device.x <= s.device.panMax && 0 <= s.device.y <= s.device.tiltMax
    ensures NewDrivesBounded(s, s.device, NextDrive(s, d).log)
  {
    hide StopMotion, StartDrive, ManualDrive, Bounded, Read, ReadOk, StopOk;
    StopHalts(s, Tick, d);
    if s.manual.lease != 0 && !s.manual.sent {
      var a := s.(manual := s.manual.(sent := true));
      ManualDriveBounded(s);
      StartDriveBounded(a, ManualDrive(s), a.device, d);
      assert forall k :: BoundedMove(a.manual, a.device, k) <==> BoundedMove(s.manual, s.device, k);
    }
  }

  lemma ProgressBounded(s: State, d: Driver)
    requires Inv(s) && !s.goto.active && (s.manual.lease != 0 ==> s.clock < s.manual.lease)
    requires 0 <= s.device.x <= s.device.panMax && 0 <= s.device.y <= s.device.tiltMax
    ensures NewDrivesBounded(s, if s.device.chunk then Read(s.device, d.again) else s.device, Progress(s, d).log)
  {
    hide Bounded, NextDrive;
    if !s.device.chunk {
      NextDriveBounded(s, d);
    } else {
      var a := Send(s, Halt, Tick, d.halt);
      StopHalts(a, Tick, d);
      hide StopMotion;
      if d.halt && ReadOk(a.device, d.again) {
        var b := a.(device := Read(a.device, d.again).(chunk := false));
        NextDriveBounded(b, d);
      }
    }
  }

  lemma TickBounded(s: State, d: Driver, back: Option<(int, int)>)
    requires Inv(s) && !s.goto.active && s.homing.stage == 0
    ensures NewDrivesBounded(s, Located(s, d), Worker(s, d, back).log)
  {
    hide StopMotion, Progress, Bounded;
    StopHalts(s, Shutdown, d);
    StopHalts(s, Tick, d);
    StopHalts(StopMotion(s, Tick, d), Tick, d);
    if ReadOk(s.device, d.read) && (s.manual.lease != 0 ==> s.clock < s.manual.lease) {
      ProgressBounded(s.(device := Read(s.device, d.read)), d);
    }
  }

  /**
   * In every run, whatever displacement a tick starts while no goto is active
   * and the head is not homing is a manual move inside the travel.
   */
  lemma ManualWithinTravel(clock: nat, steps: seq<Step>, d: Driver, back: Option<(int, int)>)
    requires clock > 0
    requires var s := Run(Start(clock), steps); !s.goto.active && s.homing.stage == 0
    ensures var s := Run(Start(clock), steps);
            NewDrivesBounded(s, Located(s, d), Apply(s, TickStep(d, back)).log)
  {
    OneMover(clock, steps);
    TickBounded(Run(Start(clock), steps), d, back);
    hide Run, Worker, Located, Inv;
  }

  // ----- where a move leads

  /** One axis at a time, pan first, and exactly to the target. */
  ghost predicate LeadsTo(goto: Goto, at: Device, k: Kind) {
    && k.Drive? && k != Drive(0, 0) && (k.dx == 0 || k.dy == 0)
    && at.x + k.dx == goto.x && (k.dx == 0 ==> at.y + k.dy == goto.y)
  }

  function GotoRate(goto: Goto): int {
    if goto.rate == 0 then 450 else goto.rate
  }

  /** A tick may start a displacement: no deadline has come, the driver answers, and none is under way. */
  predicate Free(s: State, d: Driver) {
    && s.pc.Sleeping? && !s.quitting && s.homing.stage == 0 && !s.faulted && !Due(s) && ReadOk(s.device, d.read)
    && (s.device.chunk ==> !Read(s.device, d.read).moving && d.halt && ReadOk(Read(s.device, d.read), d.again))
  }

  /** The log ends with the displacement, accepted: it is under way. */
  ghost predicate UnderWay(s: State, t: State) {
    t.device.chunk && t.device.moving && t.driven && !t.faulted && |t.log| > |s.log| && t.log[|t.log| - 1].kind.Drive?
  }

  /**
   * A free tick on an active goto: on target it ends the goto; else it starts the
   * displacement that leads there, with a driver that takes it; any other tick
   * starts none.  Its speed is the goto's own, or 450 steps a second.
   */
  lemma GotoSteers(s: State, d: Driver, back: Option<(int, int)>)
    requires Inv(s) && s.goto.active
    ensures var t, at := Apply(s, TickStep(d, back)), Located(s, d);
            && s.log <= t.log
            && (forall i :: |s.log| <= i < |t.log| && t.log[i].kind.Drive? ==> Free(s, d) && LeadsTo(s.goto, at, t.log[i].kind))
            && (forall i :: |s.log| <= i < |t.log| && t.log[i].kind.Speed? ==> t.log[i].kind.rate == GotoRate(s.goto))
            && (Free(s, d) && (at.x, at.y) == (s.goto.x, s.goto.y) ==> !t.goto.active && !t.device.chunk && t.generation > s.generation)
            && (Free(s, d) && (at.x, at.y) != (s.goto.x, s.goto.y) && d.speed && d.drive ==>
                  UnderWay(s, t) && t.goto == s.goto && t.device.x == at.x && t.device.y == at.y)
  {
    hide Read, ReadOk, StopOk;
    StopHalts(s, Tick, d);
    StopHalts(s, Shutdown, d);
    StopHalts(StopMotion(s, Tick, d), Tick, d);
    if s.pc.Sleeping? && !s.quitting && s.device.open && !s.faulted && s.clock < s.goto.until && ReadOk(s.device, d.read) {
      var a := s.(device := Read(s.device, d.read));
      ReadMoves(s.device, d.read);
      ProgressSteers(a, d);
    }
    hide StopMotion, Progress, LeadsTo;
  }

  lemma ProgressSteers(s: State, d: Driver)
    requires s.goto.active && s.device.open
    ensures var t, at := Progress(s, d), if s.device.chunk then Read(s.device, d.again) else s.device;
            var free := s.device.chunk ==> !s.device.moving && d.halt && ReadOk(s.device, d.again);
            && s.log <= t.log && t.pc == s.pc
            && (forall i :: |s.log| <= i < |t.log| && t.log[i].kind.Drive? ==> free && LeadsTo(s.goto, at, t.log[i].kind))
            && (forall i :: |s.log| <= i < |t.log| && t.log[i].kind.Speed? ==> t.log[i].kind.rate == GotoRate(s.goto))
            && (free && (at.x, at.y) == (s.goto.x, s.goto.y) ==> !t.goto.active && !t.device.chunk && t.generation > s.generation)
            && (free && (at.x, at.y) != (s.goto.x, s.goto.y) && d.speed && d.drive ==>
                  t.device.chunk && t.device.moving && t.driven && t.faulted == s.faulted && |t.log| > |s.log|
                  && t.log[|t.log| - 1].kind.Drive? && t.goto == s.goto && t.device.x == at.x && t.device.y == at.y)
  {
    hide Read, ReadOk, StopOk, StopMotion, LeadsTo, NextDrive;
    if !s.device.chunk {
      NextSteers(s, d);
    } else if !s.device.moving {
      var a := Send(s, Halt, Tick, d.halt);
      StopHalts(a, Tick, d);
      ReadMoves(a.device, d.again);
      NextSteers(a.(device := Read(a.device, d.again).(chunk := false)), d);
      SameLead(s.goto, Read(s.device, d.again), Read(s.device, d.again).(chunk := false));
    }
  }

  lemma SameLead(goto: Goto, at: Device, here: Device)
    requires at.x == here.x && at.y == here.y
    ensures forall k :: LeadsTo(goto, at, k) <==> LeadsTo(goto, here, k)
  {
  }

  lemma NextSteers(s: State, d: Driver)
    requires s.goto.active && s.device.open
    ensures var t := NextDrive(s, d);
            && s.log <= t.log && t.pc == s.pc
            && (forall i :: |s.log| <= i < |t.log| && t.log[i].kind.Drive? ==> LeadsTo(s.goto, s.device, t.log[i].kind))
            && (forall i :: |s.log| <= i < |t.log| && t.log[i].kind.Speed? ==> t.log[i].kind.rate == GotoRate(s.goto))
            && ((s.device.x, s.device.y) == (s.goto.x, s.goto.y) ==> !t.goto.active && !t.device.chunk && t.generation > s.generation)
            && ((s.device.x, s.device.y) != (s.goto.x, s.goto.y) && d.speed && d.drive ==>
                  t.device.chunk && t.device.moving && t.driven && t.faulted == s.faulted && |t.log| > |s.log|
                  && t.log[|t.log| - 1].kind.Drive? && t.goto == s.goto && t.device.x == s.device.x && t.device.y == s.device.y)
  {
    hide Read, ReadOk, StopOk, StopMotion;
    StopHalts(s, Tick, d);
    var a := Send(s, Speed(TickRate(s)), Tick, d.speed);
    StopHalts(a, Tick, d);
    StopHalts(Send(a, GotoDrive(s), Tick, d.drive), Tick, d);
  }

  /** A driver that does as it is told, the head at rest at x, y. */
  function AtRest(x: int, y: int): Driver {
    var reading := Some(Reading(x, y, 0));
    Driver(true, true, reading, reading, true, reading, true, true, true, Some((4080, 1230)))
  }

  /** The displacements of a log. */
  function Drives(log: seq<Sent>): seq<Kind> {
    if log == [] then []
    else
      var n := |log| - 1;
      Drives(log[..n]) + if log[n].kind.Drive? then [log[n].kind] else []
  }

  /** A free tick with a willing driver adds what leads to the target from there, or ends the goto there. */
  lemma RestTick(s: State, x: int, y: int)
    requires Inv(s) && s.goto.active && s.pc.Sleeping? && !s.quitting && !s.faulted && s.clock < s.goto.until
    requires 0 <= x <= s.device.panMax && 0 <= y <= s.device.tiltMax
    ensures var t, dx := Apply(s, TickStep(AtRest(x, y), None)), s.goto.x - x;
            var dy := if dx == 0 then s.goto.y - y else 0;
            && Inv(t) && t.device.x == x && t.device.y == y && t.clock == s.clock && !t.faulted && t.pc.Sleeping? && !t.quitting && t.homing == s.homing
            && t.device.panMax == s.device.panMax && t.device.tiltMax == s.device.tiltMax
            && Drives(t.log) == Drives(s.log) + (if (dx, dy) == (0, 0) then [] else [Drive(dx, dy)])
            && (if (dx, dy) == (0, 0) then !t.goto.active && t.manual.lease == 0 && !t.device.chunk else t.goto == s.goto)
  {
    hide StopMotion, Inv;
    var d := AtRest(x, y);
    WorkerKeeps(s, d, None);
    GotoIsOpen(s);
    var a := s.(device := Read(s.device, d.read));
    RestProgress(a, x, y);
  }

  lemma GotoIsOpen(s: State)
    requires Inv(s) && s.goto.active
    ensures s.device.open && s.homing.stage == 0 && s.manual.lease == 0
  {
  }

  lemma RestProgress(s: State, x: int, y: int)
    requires s.goto.active && s.device.open && !s.faulted && s.manual.lease == 0
    requires 0 <= x <= s.device.panMax && 0 <= y <= s.device.tiltMax && s.device.x == x && s.device.y == y && !s.device.moving
    ensures var t, dx := Progress(s, AtRest(x, y)), s.goto.x - x;
            var dy := if dx == 0 then s.goto.y - y else 0;
            && t.device.x == x && t.device.y == y && t.clock == s.clock && !t.faulted && t.pc == s.pc && t.quitting == s.quitting && t.homing == s.homing
            && t.device.panMax == s.device.panMax && t.device.tiltMax == s.device.tiltMax
            && Drives(t.log) == Drives(s.log) + (if (dx, dy) == (0, 0) then [] else [Drive(dx, dy)])
            && (if (dx, dy) == (0, 0) then !t.goto.active && t.manual.lease == 0 && !t.device.chunk else t.goto == s.goto)
  {
    hide Drives, StopMotion;
    var d := AtRest(x, y);
    if s.device.chunk {
      var a := Send(s, Halt, Tick, true);
      OneMoreSent(s.log, Sent(Halt, Tick, s.homing.stage != 0));
      RestNext(a.(device := Read(a.device, d.again).(chunk := false)), x, y);
    } else {
      RestNext(s, x, y);
    }
  }

  lemma OneMoreSent(log: seq<Sent>, sent: Sent)
    ensures Drives(log + [sent]) == Drives(log) + if sent.kind.Drive? then [sent.kind] else []
  {
    assert (log + [sent])[..|log|] == log;
  }

  lemma RestNext(s: State, x: int, y: int)
    requires s.goto.active && s.device.open && !s.faulted && s.manual.lease == 0 && !s.device.chunk
    requires 0 <= x <= s.device.panMax && 0 <= y <= s.device.tiltMax && s.device.x == x && s.device.y == y && !s.device.moving
    ensures var t, dx := NextDrive(s, AtRest(x, y)), s.goto.x - x;
            var dy := if dx == 0 then s.goto.y - y else 0;
            && t.device.x == x && t.device.y == y && t.clock == s.clock && !t.faulted && t.pc == s.pc && t.quitting == s.quitting && t.homing == s.homing
            && t.device.panMax == s.device.panMax && t.device.tiltMax == s.device.tiltMax
            && Drives(t.log) == Drives(s.log) + (if (dx, dy) == (0, 0) then [] else [Drive(dx, dy)])
            && (if (dx, dy) == (0, 0) then !t.goto.active && t.manual.lease == 0 && !t.device.chunk else t.goto == s.goto)
  {
    hide Drives;
    var homing := s.homing.stage != 0;
    OneMoreSent(s.log, Sent(Halt, Tick, homing));
    OneMoreSent(s.log, Sent(Speed(TickRate(s)), Tick, homing));
    OneMoreSent(s.log + [Sent(Speed(TickRate(s)), Tick, homing)], Sent(GotoDrive(s), Tick, homing));
  }

  /**
   * With a driver that completes each displacement before the next tick, a goto
   * reaches its target by at most two of them, pan and then tilt, and ends there.
   */
  lemma GotoArrives(s: State, x: int, y: int)
    requires Inv(s) && s.goto.active && s.pc.Sleeping? && !s.quitting && !s.faulted && s.clock < s.goto.until
    requires 0 <= x <= s.device.panMax && 0 <= y <= s.device.tiltMax
    requires 0 <= s.goto.x <= s.device.panMax && 0 <= s.goto.y <= s.device.tiltMax
    ensures var goal, y1 := s.goto, if s.goto.x != x then y else s.goto.y;
            var a := Apply(s, TickStep(AtRest(x, y), None));
            var b := Apply(a, TickStep(AtRest(goal.x, y1), None));
            var c := Apply(b, TickStep(AtRest(goal.x, goal.y), None));
            && !c.goto.active && !c.faulted && !c.device.chunk && c.device.x == goal.x && c.device.y == goal.y
            && Drives(c.log) == Drives(s.log) + (if goal.x != x then [Drive(goal.x - x, 0)] else [])
                                              + (if goal.y != y then [Drive(0, goal.y - y)] else [])
  {
    hide Apply, Inv, Drives, AtRest;
    var goal, y1 := s.goto, if s.goto.x != x then y else s.goto.y;
    GotoIsOpen(s);
    RestTick(s, x, y);
    var a := Apply(s, TickStep(AtRest(x, y), None));
    var d1, d2 := AtRest(goal.x, y1), AtRest(goal.x, goal.y);
    if a.goto.active {
      RestTick(a, goal.x, y1);
      var b := Apply(a, TickStep(d1, None));
      if b.goto.active {
        RestTick(b, goal.x, goal.y);
      } else {
        NothingToDo(b, d2);
      }
    } else {
      NothingToDo(a, d1);
      NothingToDo(a, d2);
    }
  }

  lemma NothingToDo(s: State, d: Driver)
    requires !s.goto.active && s.manual.lease == 0 && !s.device.chunk && !s.faulted && !s.quitting && s.homing.stage == 0
    ensures Apply(s, TickStep(d, None)) == s
  {
  }

  /** Who sets a target: an accepted request, privacy mode, and the end of homing. */
  lemma TargetsTaken(s: State, x: int, y: int, rate: int, limit: nat, d: Driver)
    requires Inv(s) && s.device.open && s.homing.stage == 0 && StopOk(s, d)
    ensures var t := Apply(s, GotoStep(x, y, rate, limit, d));
            if s.quitting || s.privacy then t == s
            else t.goto == Goto(true, s.clock + limit, x, y, rate) && !t.faulted && t.manual.lease == 0 && !t.device.chunk
    ensures var t := Apply(s, PrivacyStep(true, Some((x, y)), d));
            t.privacy && t.goto == Goto(true, s.clock + PRESET_LIMIT_US, x, y, 0) && !t.faulted && t.manual.lease == 0
  {
    hide StopMotion, Read, ReadOk, Open, Opened;
    AlreadyOpen(s, d);
    AlreadyOpen(s.(privacy := true), d);
    StopHalts(s, Caller, d);
    StopHalts(s.(privacy := true), Caller, d);
  }

  /** Homing begins with a stop, a slow speed, a reset of the driver's position and the sweep; a refusal ends it there. */
  lemma HomingBegins(s: State, d: Driver)
    requires Inv(s) && s.device.open && s.homing.stage == 0 && StopOk(s, d)
    ensures var t := HomeBegin(s, d);
            var sent := [Halt, Speed(450)] + (if d.speed then [Reset] + (if d.reset then [Drive(HOME_PAN_STEPS / 2, 0)] else []) else []);
            && Kinds(t.log) == Kinds(s.log) + sent
            && (if d.speed && d.reset && d.drive then
                  t.homing == Homing(1, s.clock + HOME_STAGE_US, s.clock + HOME_SETTLE_US) && t.device.moving && t.driven
                else t.homing == s.homing)
  {
    StopHalts(s, Caller, d);
    var a := StopMotion(s, Caller, d);
    var b := Send(a, Speed(HOME_SPEED), Caller, d.speed);
    var c := Send(b, Reset, Caller, d.reset);
    hide StopMotion, Read, ReadOk, StopOk, Kinds;
    KindsOf(s.log, Sent(Halt, Caller, false));
    KindsOf(a.log, Sent(Speed(HOME_SPEED), Caller, false));
    KindsOf(b.log, Sent(Reset, Caller, false));
    KindsOf(c.log, Sent(Drive(HOME_PAN_STEPS / 2, 0), Caller, false));
  }

  function Kinds(log: seq<Sent>): seq<Kind> {
    if log == [] then [] else Kinds(log[..|log| - 1]) + [log[|log| - 1].kind]
  }

  lemma KindsOf(log: seq<Sent>, sent: Sent)
    ensures Kinds(log + [sent]) == Kinds(log) + [sent.kind]
  {
    assert (log + [sent])[..|log|] == log;
  }

  /** What a tick of homing finds. */
  datatype Finding = TooLate | Settling | Unreadable | OnTheMove | AtStop | AtReference

  function Found(s: State, d: Driver): Finding {
    if s.clock >= s.homing.until then TooLate
    else if s.clock < s.homing.settle then Settling
    else if !ReadOk(s.device, d.read) then Unreadable
    else
      var at := Read(s.device, d.read);
      if at.moving then OnTheMove
      else if s.homing.stage != 1 then AtReference
      else if at.x == HOME_PAN_STEPS then AtStop
      else OnTheMove
  }

  /**
   * Homing waits for the head to settle and to come to rest, the sweep at its end
   * stop; then resets the driver, without the lock; and at rest again stops it,
   * asks its limits and position, and returns the head if it is to go anywhere.
   */
  lemma HomingAdvances(s: State, d: Driver, back: Option<(int, int)>)
    requires Inv(s) && s.pc.Sleeping? && !s.quitting && s.homing.stage != 0
    ensures var t, at := Apply(s, TickStep(d, back)), Read(s.device, d.read);
            match Found(s, d)
            case Settling => t == s
            case OnTheMove => t == s.(device := at)
            case AtStop =>
              && t.pc == Resetting(s.clock) && t.homing == s.homing.(stage := 2) && t.device == at.(moving := true)
              && t.log == s.log + [Sent(Reset, HomeTick, true)]
              && t.(pc := s.pc, homing := s.homing, device := s.device, log := s.log, driven := s.driven) == s
            case AtReference =>
              var limited := if LimitsOk(d.limits) then at.(panMax := d.limits.value.0, tiltMax := d.limits.value.1) else at;
              && s.log + [Sent(Halt, HomeTick, true)] <= t.log && t.homing.stage == 0 && t.pc == s.pc
              && if d.halt && LimitsOk(d.limits) && ReadOk(limited, d.again) then
                   && t.log == s.log + [Sent(Halt, HomeTick, true)] && t.faulted == s.faulted && t.device == Read(limited, d.again)
                   && t.goto == if back.Some? then Goto(true, s.clock + PRESET_LIMIT_US, back.value.0, back.value.1, 0) else s.goto
                 else t.faulted && !t.goto.active
            case _ => t.homing.stage == 0 && t.faulted && !t.goto.active && t.log == s.log + [Sent(Halt, HomeTick, false)]
  {
    hide Read, ReadOk, StopMotion;
    HomingIsOpen(s);
    HomingFails(s, d);
    var a := Send(s.(device := Read(s.device, d.read)), Halt, HomeTick, d.halt);
    ReadMoves(s.device, d.read);
    HomingFails(a, d);
    if LimitsOk(d.limits) {
      HomingFails(a.(device := a.device.(panMax := d.limits.value.0, tiltMax := d.limits.value.1)), d);
    }
    hide HomeFails;
  }

  lemma HomingFails(s: State, d: Driver)
    requires s.device.open
    ensures var t := HomeFails(s, d);
            && t.homing == s.homing.(stage := 0) && t.faulted && !t.goto.active && t.pc == s.pc
            && t.log == s.log + [Sent(Halt, HomeTick, false)]
  {
    hide StopMotion;
    StopHalts(s.(homing := s.homing.(stage := 0)), HomeTick, d);
  }

  /** The reset done, homing goes on with the deadlines of the tick that began it, or fails. */
  lemma ResetAdvances(s: State, ok: bool, d: Driver)
    requires Inv(s) && s.pc.Resetting?
    ensures var t := Apply(s, ResetStep(ok, d));
            && t.pc.Sleeping?
            && if ok then t == s.(pc := Sleeping, homing := Homing(s.homing.stage, s.pc.now + HOME_STAGE_US, s.pc.now + HOME_SETTLE_US))
               else t.homing.stage == 0 && t.faulted && !t.goto.active && t.log == s.log + [Sent(Halt, HomeTick, false)]
  {
    hide StopMotion;
    HomingIsOpen(s);
    HomingFails(s.(pc := Sleeping), d);
    hide HomeFails;
  }

  // ----- what the driver is asked, and what is made of its answers

  /** A command moves or halts the head exactly if the driver accepts it; the speed alone does neither. */
  lemma SentDrives(s: State, kind: Kind, issuer: Issuer, ok: bool)
    ensures var t := Send(s, kind, issuer, ok);
            && t.log == s.log + [Sent(kind, issuer, s.homing.stage != 0)]
            && t.driven == (if ok && kind == Halt then false else if ok && (kind.Drive? || kind == Reset) then true else s.driven)
  {
  }

  /** A reading counts if it lies in the travel or at most 100 steps beyond, and is cut to the travel; any other changes nothing. */
  lemma ReadTakes(d: Device, r: Option<Reading>)
    ensures var ok := d.open && r.Some? && 0 <= r.value.x <= d.panMax + 100 && 0 <= r.value.y <= d.tiltMax + 100
                      && r.value.moving in {0, 1};
            && (ReadOk(d, r) <==> ok)
            && (d.panMax >= 0 && d.tiltMax >= 0 ==>
                  Read(d, r) == if !ok then d else
                    d.(x := if r.value.x > d.panMax then d.panMax else r.value.x,
                       y := if r.value.y > d.tiltMax then d.tiltMax else r.value.y, moving := r.value.moving == 1))
  {
  }

  /** A stop succeeds without a driver, or if the driver takes it and is read; then nothing is taken to move. */
  lemma StopAsks(s: State, issuer: Issuer, d: Driver)
    ensures var t, still := StopMotion(s, issuer, d), s.device.(chunk := false);
            var ok := s.device.open ==> d.stop && ReadOk(still, d.afterStop);
            && (StopOk(s, d) <==> ok)
            && t.device == (if !ok then still else (if s.device.open then Read(still, d.afterStop) else still).(moving := false))
            && t.driven == if s.device.open && d.stop then false else s.driven
  {
    hide Read, ReadOk;
  }

  /** The device opens once, and only with believable limits, its speed taken and a position to read. */
  lemma OpensWith(s: State, d: Driver)
    ensures var t := Open(s, d);
            if s.device.open || !d.opens || !LimitsOk(d.limits) then t == s
            else
              var limited := s.device.(panMax := d.limits.value.0, tiltMax := d.limits.value.1);
              && t.log == s.log + [Sent(Speed(450), Caller, s.homing.stage != 0)]
              && t.device == (if d.speed && ReadOk(limited.(open := true), d.read) then Read(limited.(open := true), d.read) else limited)
              && t.(device := s.device, log := s.log, driven := s.driven) == s
    ensures LimitsOk(d.limits) <==> d.limits.Some? && 100 <= d.limits.value.0 <= 8600 && 100 <= d.limits.value.1 <= 2000
  {
    hide Read, ReadOk;
  }

  // ----- what a request does

  /** While homing, in privacy mode, at shutdown or without a device a request to move does nothing but try to open it. */
  lemma RefusalsStand(s: State, step: Step)
    requires step.MotionStep? || step.SaveStep? || step.GotoStep? || step.RecalibrateStep?
    requires var a := Opened(s, step.d); a.quitting || !a.device.open || a.homing.stage != 0 || a.privacy
    ensures Apply(s, step) == Opened(s, step.d)
  {
  }

  /** A stop that fails leaves every request without its motion. */
  lemma NoStopNoMotion(s: State, nudge: bool, x: int, y: int, d: Driver)
    requires Inv(s) && !StopOk(s, d) && !SameMotion(s, nudge, Bigger(x, y))
    ensures Motion(s, nudge, x, y, d) in {s, StopMotion(s, Caller, d)}
    ensures forall limit: nat, rate :: GotoCall(s, x, y, rate, limit, d) in {s, StopMotion(s, Caller, d)}
    ensures SaveCall(s, d) in {s, StopMotion(s, Caller, d)}
    ensures forall to :: Privacy(s, to, d) in {s, StopMotion(s, Caller, d)}
    ensures HomeBegin(s, d) == StopMotion(s, Caller, d)
  {
    hide StopMotion;
  }

  /** The same motion again only renews its lease, and a nudge not even that. */
  lemma SameMotionRenews(s: State, nudge: bool, x: int, y: int, d: Driver)
    requires Inv(s) && !Refused(s) && !s.privacy && SameMotion(s, nudge, Bigger(x, y))
    ensures Motion(s, nudge, x, y, d) == if nudge then s else s.(manual := s.manual.(lease := s.clock + 1_200_000))
  {
  }

  /** A new motion has the speed asked for, a nudge its own, and has not been sent. */
  lemma NewMotionIsFresh(s: State, nudge: bool, x: int, y: int, d: Driver)
    requires Inv(s) && !Refused(s) && !s.privacy && StopOk(s, d) && !SameMotion(s, nudge, Bigger(x, y))
    ensures var t := Motion(s, nudge, x, y, d);
            var speed := 9 * (if Abs(x) >= Abs(y) then Abs(x) else Abs(y));
            && !t.manual.sent && !t.faulted && t.manual.nudge == nudge && t.generation == s.generation + 1
            && (t.manual.vx, t.manual.vy) == (if Abs(x) >= Abs(y) then (x, 0) else (0, y))
            && t.manual.rate == (if nudge then NUDGE_RATE else if speed < 100 then 100 else if speed > 900 then 900 else speed)
            && t.manual.lease == (if (x, y) == (0, 0) then 0 else s.clock + (if nudge then 350_000 else 1_200_000))
  {
    hide StopMotion;
    StopHalts(s, Caller, d);
  }

  /** A stop request stops whatever moves, but for homing. */
  lemma StopRequestStops(s: State, d: Driver)
    ensures Apply(s, StopStep(d)) == if s.quitting || s.homing.stage != 0 then s else StopMotion(s, Caller, d)
  {
  }

  /** Saving a preset stops the head and knows where it stands; a status only reads, and not while homing. */
  lemma PositionIsRead(s: State, d: Driver)
    requires Inv(s) && s.device.open && s.homing.stage == 0
    ensures !s.quitting && !s.privacy && StopOk(s, d) ==>
              var a := StopMotion(s, Caller, d); Apply(s, SaveStep(d)) == a.(device := Read(a.device, d.again))
    ensures Apply(s, StatusStep(d)) == s.(device := Read(s.device, d.again))
    ensures forall homing: Homing :: homing.stage != 0 ==> Status(s.(homing := homing), d) == s.(homing := homing)
  {
    hide StopMotion, Read, ReadOk, Open, StopOk;
    AlreadyOpen(s, d);
  }

  /** Recalibrating and the platform's start home the head, or fault. */
  lemma HomesOrFaults(s: State, d: Driver)
    requires Inv(s) && s.device.open && s.homing.stage == 0
    ensures !s.quitting && !s.privacy ==>
              var a, t := s.(device := Read(s.device, d.again), faulted := false), Apply(s, RecalibrateStep(d));
              if HomeBegins(a, d) then t == HomeBegin(a, d) && t.homing.stage == 1 && !t.faulted else t.faulted && t.homing.stage == 0 && !t.goto.active
    ensures var t := Apply(s, StartStep(d));
            if HomeBegins(s, d) then t == HomeBegin(s, d) && t.homing.stage == 1 else t.faulted && t.homing.stage == 0 && !t.goto.active
  {
    hide StopMotion, Read, ReadOk, Open, Opened, StopOk, HomeBegins, HomeBegin;
    AlreadyOpen(s, d);
    var a := s.(device := Read(s.device, d.again), faulted := false);
    HomeStarts(s, d);
    HomeStarts(a, d);
    FailEnds(HomeBegin(s, d), Caller, d);
    FailEnds(HomeBegin(a, d), Caller, d);
  }

  lemma HomeStarts(s: State, d: Driver)
    requires s.homing.stage == 0
    ensures var t := HomeBegin(s, d);
            && t.homing.stage == (if HomeBegins(s, d) then 1 else 0) && t.faulted == s.faulted
    ensures HomeBegins(s, d) <==> StopOk(s, d) && d.speed && d.reset && d.drive
  {
    hide StopMotion, StopOk, HomeCommands;
    StopHalts(s, Caller, d);
    CommandsSend(StopMotion(s, Caller, d), d);
  }

  /** Privacy mode stops the head, unless it homes, and sends it away only if there is somewhere to go. */
  lemma PrivacyStops(s: State, on: bool, to: Option<(int, int)>, d: Driver)
    requires Inv(s)
    ensures var t := Apply(s, PrivacyStep(on, to, d));
            && t.privacy == on
            && (s.homing.stage != 0 ==> t == s.(privacy := on))
            && (s.homing.stage == 0 && s.device.open && (to.None? || !StopOk(s, d)) ==>
                  t == StopMotion(s.(privacy := on), Caller, d) && !t.goto.active && t.manual.lease == 0)
  {
    hide StopMotion, Read, ReadOk, Open;
    var a := s.(privacy := on);
    if s.device.open {
      AlreadyOpen(a, d);
    }
    StopHalts(a, Caller, d);
    OpenedPrivacy(a, d);
    StopHalts(Open(a, d), Caller, d);
  }

  lemma OpenedPrivacy(s: State, d: Driver)
    ensures Open(s, d).privacy == s.privacy && Open(s, d).homing == s.homing
  {
  }

  /** A lease that ends is no fault unless the stop fails; a goto or homing that is too late is one. */
  lemma DeadlineFaults(s: State, d: Driver, back: Option<(int, int)>)
    requires Inv(s) && s.pc.Sleeping? && !s.quitting && Due(s) && !(s.goto.active && s.faulted)
    ensures Apply(s, TickStep(d, back)).faulted <==> (s.manual.lease != 0 ==> !StopOk(s, d))
  {
    hide StopMotion, Read, ReadOk, StopOk;
    StopHalts(s, Tick, d);
  }

  /** At shutdown the next tick stops the head and is the worker's last. */
  lemma ShutdownEnds(s: State, d: Driver, back: Option<(int, int)>, late: Driver)
    requires s.pc.Sleeping?
    ensures var q := Apply(s, QuitStep(d));
            var t := Apply(q, TickStep(late, back));
            && q.quitting && t.pc.Exited? && !t.goto.active && t.manual.lease == 0 && !t.device.chunk
            && forall other, elsewhere :: Apply(t, TickStep(other, elsewhere)) == t
  {
    hide StopMotion;
    StopHalts(s.(quitting := true), Shutdown, d);
    StopHalts(Apply(s, QuitStep(d)), Shutdown, late);
  }

  /** How far it is to the end of the travel, in the direction asked for. */
  function Reach(m: Manual, at: Device): int {
    if m.vx < 0 then at.x else if m.vx > 0 then at.panMax - at.x
    else if m.vy < 0 then at.y else at.tiltMax - at.y
  }

  /** The steps of a nudge in its remaining time and 100 ms. */
  function NudgeSteps(m: Manual, clock: nat): int {
    m.rate * (m.lease - clock + 100_000) / 1_000_000 + 1
  }

  /** A manual move goes all the way, a nudge as far as its remaining time and 100 ms can take it. */
  ghost predicate GoesFor(m: Manual, at: Device, clock: nat, k: Kind) {
    var far := Reach(m, at);
    var n := if m.nudge && NudgeSteps(m, clock) < far then NudgeSteps(m, clock) else far;
    k == if m.vx < 0 then Drive(-n, 0) else if m.vx > 0 then Drive(n, 0) else if m.vy < 0 then Drive(0, -n) else Drive(0, n)
  }

  lemma ManualGoes(s: State)
    requires Inv(s) && s.manual.lease != 0 && s.clock < s.manual.lease
    requires 0 <= s.device.x <= s.device.panMax && 0 <= s.device.y <= s.device.tiltMax
    ensures GoesFor(s.manual, s.device, s.clock, ManualDrive(s))
  {
    LeaseSpeed(s);
    LeaseGoes(s.manual, s);
  }

  /**
   * A free tick on a lease: a move that was not sent yet is, unless the head is at
   * the end of its travel already; one that was sent has ended, and so does the lease.
   */
  lemma LeaseMoves(s: State, d: Driver, back: Option<(int, int)>)
    requires Inv(s) && s.manual.lease != 0 && Free(s, d)
    ensures var t, at := Apply(s, TickStep(d, back)), Located(s, d);
            if s.manual.sent || Reach(s.manual, at) == 0 then
              t.manual.lease == 0 && !t.device.chunk && t.generation > s.generation && Drives(t.log) == Drives(s.log)
            else if d.speed && d.drive then
              && UnderWay(s, t) && t.manual == s.manual.(sent := true)
              && |t.log| > |s.log| + 1 && t.log[|t.log| - 2].kind == Speed(s.manual.rate)
              && GoesFor(s.manual, at, s.clock, t.log[|t.log| - 1].kind)
            else t.faulted && t.manual.lease == 0
  {
    hide Read, ReadOk, StopOk, StopMotion, Drives, ManualDrive, GoesFor;
    ReadInTravel(s.device, d.read);
    var a := s.(device := Read(s.device, d.read));
    ReadMoves(s.device, d.read);
    LeaseIsOpen(s);
    if a.device.chunk {
      var b := Send(a, Halt, Tick, d.halt);
      OneMoreSent(a.log, Sent(Halt, Tick, false));
      ReadMoves(b.device, d.again);
      ReadInTravel(b.device, d.again);
      LeaseNext(s, b.(device := Read(b.device, d.again).(chunk := false)), d);
      ChunkAside(s.manual, Read(b.device, d.again), s.clock);
    } else {
      LeaseNext(s, a, d);
    }
  }

  lemma ChunkAside(m: Manual, at: Device, clock: nat)
    ensures forall k :: GoesFor(m, at, clock, k) <==> GoesFor(m, at.(chunk := false), clock, k)
  {
  }

  lemma LeaseIsOpen(s: State)
    requires Inv(s) && s.manual.lease != 0
    ensures s.device.open && !s.goto.active && s.homing.stage == 0 && !s.faulted
  {
  }

  lemma ReadInTravel(d: Device, r: Option<Reading>)
    requires ReadOk(d, r) && d.panMax >= 0 && d.tiltMax >= 0
    ensures 0 <= Read(d, r).x <= d.panMax && 0 <= Read(d, r).y <= d.tiltMax
  {
  }

  lemma LeaseNext(s: State, a: State, d: Driver)
    requires Inv(s) && s.manual.lease != 0 && s.clock < s.manual.lease && !s.faulted
    requires a.(device := s.device, log := s.log, driven := s.driven) == s && a.device.open && !a.device.chunk
    requires s.log <= a.log && Drives(a.log) == Drives(s.log)
    requires a.device.panMax == s.device.panMax && a.device.tiltMax == s.device.tiltMax
    requires 0 <= a.device.x <= a.device.panMax && 0 <= a.device.y <= a.device.tiltMax
    ensures var t := NextDrive(a, d);
            if s.manual.sent || Reach(s.manual, a.device) == 0 then
              t.manual.lease == 0 && !t.device.chunk && t.generation > s.generation && Drives(t.log) == Drives(s.log)
            else if d.speed && d.drive then
              && UnderWay(s, t) && t.manual == s.manual.(sent := true)
              && |t.log| > |s.log| + 1 && t.log[|t.log| - 2].kind == Speed(s.manual.rate)
              && GoesFor(s.manual, a.device, s.clock, t.log[|t.log| - 1].kind)
            else t.faulted && t.manual.lease == 0
  {
    hide StopMotion, Drives, ManualDrive;
    var b := a.(manual := a.manual.(sent := true));
    StopHalts(a, Tick, d);
    StopHalts(b, Tick, d);
    OneMoreSent(a.log, Sent(Halt, Tick, false));
    LeaseDrive(s, a, d);
    var c := Send(b, Speed(TickRate(b)), Tick, d.speed);
    StopHalts(c, Tick, d);
    StopHalts(Send(c, ManualDrive(b), Tick, d.drive), Tick, d);
  }

  lemma LeaseDrive(s: State, a: State, d: Driver)
    requires Inv(s) && s.manual.lease != 0 && s.clock < s.manual.lease
    requires a.manual == s.manual && a.clock == s.clock
    requires a.device.panMax == s.device.panMax && a.device.tiltMax == s.device.tiltMax
    requires 0 <= a.device.x <= a.device.panMax && 0 <= a.device.y <= a.device.tiltMax
    ensures GoesFor(s.manual, a.device, s.clock, ManualDrive(a))
    ensures ManualDrive(a) == ManualDrive(a.(manual := a.manual.(sent := true)))
    ensures ManualDrive(a) == Drive(0, 0) <==> Reach(s.manual, a.device) == 0
  {
    hide ManualDrive, Inv;
    LeaseSpeed(s);
    LeaseGoes(s.manual, a);
    LeaseSent(a);
    GoesSomewhere(s.manual, a.device, s.clock, ManualDrive(a));
  }

  lemma LeaseSpeed(s: State)
    requires Inv(s) && s.manual.lease != 0
    ensures s.manual.rate >= 100 && (s.manual.vx != 0 || s.manual.vy != 0) && (s.manual.vx == 0 || s.manual.vy == 0)
  {
  }

  lemma LeaseGoes(m: Manual, a: State)
    requires a.manual == m && m.rate >= 100 && a.clock < m.lease && (m.vx != 0 || m.vy != 0)
    requires 0 <= a.device.x <= a.device.panMax && 0 <= a.device.y <= a.device.tiltMax
    ensures GoesFor(m, a.device, a.clock, ManualDrive(a))
  {
    hide Budget, NudgeSteps;
    BudgetIs(a);
  }

  lemma BudgetIs(s: State)
    requires s.manual.rate >= 100 && s.clock < s.manual.lease
    ensures Budget(s) == if s.manual.nudge then NudgeSteps(s.manual, s.clock)
                         else if s.manual.vx != 0 then s.device.panMax else s.device.tiltMax
    ensures NudgeSteps(s.manual, s.clock) > 0
  {
    var b := s.manual.rate * (s.manual.lease - s.clock + 100_000);
    assert b >= 0;
  }

  lemma LeaseSent(a: State)
    ensures ManualDrive(a) == ManualDrive(a.(manual := a.manual.(sent := true)))
  {
  }

  lemma GoesSomewhere(m: Manual, at: Device, clock: nat, k: Kind)
    requires m.rate >= 100 && clock < m.lease && (m.vx != 0 || m.vy != 0) && GoesFor(m, at, clock, k)
    requires 0 <= at.x <= at.panMax && 0 <= at.y <= at.tiltMax
    ensures k == Drive(0, 0) <==> Reach(m, at) == 0
  {
    var b := m.rate * (m.lease - clock + 100_000);
    assert b >= 0 && NudgeSteps(m, clock) > 0;
    hide NudgeSteps;
  }

  /** Whatever drives the head is homing, or a goto or a lease of an unfaulted motor: each has a deadline. */
  ghost predicate Attended(s: State) {
    s.driven ==> s.device.open && (s.homing.stage != 0 || (!s.faulted && (s.goto.active || s.manual.lease != 0)))
  }

  /** The driver accepts every stop. */
  predicate Stops(d: Driver) {
    d.stop && d.halt
  }

  predicate StepStops(step: Step) {
    match step
    case Wait(_) => true
    case TickStep(d, _) => Stops(d)
    case ResetStep(_, d) => Stops(d)
    case MotionStep(_, _, _, d) => Stops(d)
    case StopStep(d) => Stops(d)
    case SaveStep(d) => Stops(d)
    case StatusStep(_) => true
    case GotoStep(_, _, _, _, d) => Stops(d)
    case RecalibrateStep(d) => Stops(d)
    case PrivacyStep(_, _, d) => Stops(d)
    case StartStep(d) => Stops(d)
    case QuitStep(d) => Stops(d)
  }

  lemma StopsDriven(s: State, issuer: Issuer, d: Driver)
    requires d.stop && (s.driven ==> s.device.open)
    ensures !StopMotion(s, issuer, d).driven && !Fail(s, issuer, d).driven
  {
  }

  lemma StartDriveAttended(s: State, kind: Kind, d: Driver)
    requires Stops(d) && s.device.open && !s.faulted && (s.goto.active || s.manual.lease != 0)
    ensures Attended(StartDrive(s, kind, d))
  {
    StopsDriven(s, Tick, d);
    var a := Send(s, Speed(TickRate(s)), Tick, d.speed);
    StopsDriven(a, Tick, d);
    StopsDriven(Send(a, kind, Tick, d.drive), Tick, d);
    hide Fail, StopMotion;
  }

  lemma ProgressAttended(s: State, d: Driver)
    requires Stops(d) && Attended(s) && s.device.open && Inv(s) && s.homing.stage == 0 && !s.faulted
    ensures Attended(Progress(s, d))
  {
    NextDriveAttended(s, d);
    var a := Send(s, Halt, Tick, d.halt);
    StopsDriven(a, Tick, d);
    NextDriveAttended(a.(device := Read(a.device, d.again).(chunk := false)), d);
    hide Fail, NextDrive;
  }

  lemma NextDriveAttended(s: State, d: Driver)
    requires Stops(d) && Attended(s) && s.device.open && !s.faulted
    ensures Attended(NextDrive(s, d))
  {
    StopsDriven(s, Tick, d);
    if s.goto.active {
      StartDriveAttended(s, GotoDrive(s), d);
    } else if s.manual.lease != 0 {
      StartDriveAttended(s.(manual := s.manual.(sent := true)), ManualDrive(s), d);
    }
    hide Fail, StopMotion, StartDrive, GotoDrive, ManualDrive;
  }

  lemma HomeEndsAttended(s: State, d: Driver, back: Option<(int, int)>)
    requires Stops(d) && Attended(s) && s.homing.stage != 0 && s.device.open
    ensures Attended(HomeEnds(s, d, back))
  {
    var a := Send(s, Halt, HomeTick, d.halt).(homing := s.homing.(stage := 0));
    StopsDriven(a, HomeTick, d);
    if LimitsOk(d.limits) {
      StopsDriven(a.(device := a.device.(panMax := d.limits.value.0, tiltMax := d.limits.value.1)), HomeTick, d);
    }
    hide Fail;
  }

  lemma HomeTickAttended(s: State, d: Driver, back: Option<(int, int)>)
    requires Stops(d) && Attended(s) && s.homing.stage != 0 && s.device.open
    ensures Attended(HomeTickStep(s, d, back))
  {
    StopsDriven(s.(homing := s.homing.(stage := 0)), HomeTick, d);
    HomeEndsAttended(s.(device := Read(s.device, d.read)), d, back);
    hide Fail, HomeEnds;
  }

  lemma WorkerAttended(s: State, d: Driver, back: Option<(int, int)>)
    requires Stops(d) && Attended(s) && Inv(s) && s.pc.Sleeping?
    ensures Attended(Worker(s, d, back))
  {
    StopsDriven(s, Shutdown, d);
    StopsDriven(s, Tick, d);
    StopsDriven(StopMotion(s, Tick, d), Tick, d);
    if s.homing.stage != 0 {
      HomeTickAttended(s, d, back);
    } else if s.device.open && !s.faulted {
      ProgressAttended(s.(device := Read(s.device, d.read)), d);
    }
    hide Fail, StopMotion, HomeTickStep, Progress;
  }

  lemma HomeBeginAttended(s: State, d: Driver)
    requires Stops(d) && (s.driven ==> s.device.open) && s.device.open
    ensures var t := HomeBegin(s, d);
            t.device.open && (HomeBegins(s, d) ==> Attended(t)) && !Fail(t, Caller, d).driven
  {
    StopHalts(s, Caller, d);
    CommandsSend(StopMotion(s, Caller, d), d);
    hide StopMotion, HomeCommands;
    StopsDriven(HomeBegin(s, d), Caller, d);
    hide Fail;
  }

  lemma CallerAttended(s: State, step: Step)
    requires StepStops(step) && Attended(s) && Inv(s) && (step.MotionStep? || step.SaveStep? || step.GotoStep? || step.PrivacyStep?)
    ensures Attended(Apply(s, step))
  {
    hide StopMotion, Open, Inv;
    var a := if step.PrivacyStep? then s.(privacy := step.on) else s;
    SwitchPrivacy(s, a.privacy);
    OpenAttended(a, step.d);
    StopsDriven(Open(a, step.d), Caller, step.d);
    StopsDriven(a, Caller, step.d);
    StopHalts(Open(a, step.d), Caller, step.d);
    StopHalts(a, Caller, step.d);
  }

  lemma OpenAttended(s: State, d: Driver)
    requires Attended(s) && Inv(s)
    ensures Attended(Open(s, d)) && Open(s, d).homing == s.homing && (s.device.open ==> Open(s, d) == s)
  {
  }

  lemma RecalibrateAttended(s: State, d: Driver)
    requires Stops(d) && Attended(s) && Inv(s)
    ensures Attended(Recalibrate(s, d))
  {
    if s.device.open && s.homing.stage == 0 {
      var a := s.(device := Read(s.device, d.again), faulted := false);
      HomeBeginAttended(a, d);
      StageBegins(a, d);
    }
    hide HomeBegin, HomeBegins, Fail;
  }

  lemma StartAttended(s: State, d: Driver)
    requires Stops(d) && Attended(s) && Inv(s)
    ensures Attended(PlatformStart(s, d))
  {
    OpenAttended(s, d);
    var a := Open(s, d);
    StopsDriven(a, Caller, d);
    if a.device.open {
      HomeBeginAttended(a, d);
    }
    hide Open, HomeBegin, HomeBegins, Fail;
  }

  lemma StageBegins(s: State, d: Driver)
    requires s.homing.stage == 0
    ensures HomeBegin(s, d).homing.stage != 0 ==> HomeBegins(s, d)
  {
    StopHalts(s, Caller, d);
    CommandsSend(StopMotion(s, Caller, d), d);
    hide StopMotion, HomeCommands;
  }

  /**
   * With a driver that accepts every stop, in every run, whatever drives the
   * head is homing, or a goto or a lease of an unfaulted motor.
   */
  lemma {:induction false} NeverUnattended(clock: nat, steps: seq<Step>)
    requires clock > 0 && forall i :: 0 <= i < |steps| ==> StepStops(steps[i])
    ensures Attended(Run(Start(clock), steps))
    decreases |steps|
  {
    if steps != [] {
      var n := |steps| - 1;
      var before := Run(Start(clock), steps[..n]);
      NeverUnattended(clock, steps[..n]);
      OneMover(clock, steps[..n]);
      StepAttended(before, steps[n]);
      hide Apply, Attended;
    }
  }

  /**
   * Each of these a later tick ends: in every such run the first tick at or
   * after the deadline leaves nothing driving the head.
   */
  lemma LaterTickEnds(clock: nat, steps: seq<Step>, d: Driver, back: Option<(int, int)>)
    requires clock > 0 && Stops(d) && forall i :: 0 <= i < |steps| ==> StepStops(steps[i])
    requires var s := Run(Start(clock), steps); s.pc.Sleeping? && !s.quitting && s.driven && Due(s)
    ensures var s := Run(Start(clock), steps);
            Ended(s, Apply(s, TickStep(d, back))) && !Apply(s, TickStep(d, back)).driven
  {
    NeverUnattended(clock, steps);
    OneMover(clock, steps);
    hide Run, Apply;
    DeadlineStops(Run(Start(clock), steps), d, back);
  }

  lemma StepAttended(s: State, step: Step)
    requires StepStops(step) && Attended(s) && Inv(s)
    ensures Attended(Apply(s, step))
  {
    match step {
      case Wait(us) =>
      case TickStep(d, back) =>
        if s.pc.Sleeping? {
          WorkerAttended(s, d, back);
        }
      case ResetStep(ok, d) => StopsDriven(s.(pc := Sleeping, homing := s.homing.(stage := 0)), HomeTick, d);
      case StopStep(d) => StopsDriven(s, Caller, d);
      case StatusStep(d) => OpenAttended(s, d);
      case SaveStep(_) => CallerAttended(s, step);
      case QuitStep(d) => StopsDriven(s.(quitting := true), Shutdown, d);
      case MotionStep(_, _, _, _) => CallerAttended(s, step);
      case GotoStep(_, _, _, _, _) => CallerAttended(s, step);
      case PrivacyStep(_, _, _) => CallerAttended(s, step);
      case RecalibrateStep(d) =>
        OpenAttended(s, d);
        OpenKeeps(s, d);
        RecalibrateAttended(Opened(s, d), d);
      case StartStep(d) => StartAttended(s, d);
    }
    hide Worker, StopMotion, Fail, PlatformStart, Motion, SaveCall, GotoCall, Recalibrate, Privacy, Open;
  }
}
