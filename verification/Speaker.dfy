/**
 * The speaker service (speaker.c).  Talkers and the siren only change the state
 * under its lock; one thread owns the output and drops the lock around every
 * device call.  A run interleaves their calls, the thread's locked sections and
 * the clock in any order.
 */
module Speaker {
  import opened Bytes
  import opened Streams

  const QUEUE_BYTES: nat := 16000
  const TRIM_ABOVE: nat := 4800
  const TRIM_TO: nat := 2400
  const RELEASE_TAIL: nat := 1600
  const DEADMAN_US: nat := 500_000
  const HALF_DUPLEX_TAIL_US: nat := 300_000
  const IDLE_CLOSE_US: nat := 10_000_000
  const RETRY_UNIT_US: nat := 1_000_000
  const MUTE_ATTEMPTS: nat := 100
  const SUBMIT_MAX: nat := 8000
  const FRAME_BYTES: nat := 320
  const SIREN_SOUNDS: nat := 4
  const SIREN_MAX_SECONDS: nat := 300
  const SILENCE: byte := 0xd5

  datatype Talker = Talker(owner: nat, ssrc: nat)

  /** One accepted A-law byte: its value, its place among all accepted bytes, and who sent it. */
  datatype Cell = Cell(value: byte, id: nat, talker: Talker)

  datatype Frame = Talk(cells: seq<Cell>) | Siren | Quiet

  /** Where the thread is while it does not hold the lock: one place per unlock, with the locals that survive it. */
  datatype Pc =
    | Top
    | Muting(now: nat)
    | Closing
    | Opening(needed: bool)
    | Settling
    | Gain
    | Starved
    | Writing(frame: Frame)
    | Stopping(close: bool, wasOpen: bool)

  /** A frame handed to the output, and what held when it was. */
  datatype Write = Write(frame: Frame, session: bool, open: bool, output: bool, amplified: bool)

  /** The queue, and where every accepted byte went. */
  datatype Audio = Audio(queue: seq<Cell>, accepted: seq<Cell>, taken: seq<Cell>, discarded: seq<Cell>)

  datatype Lease = Lease(holder: Option<Talker>, session: bool, released: bool, lastSubmit: nat, sessionEnd: nat)

  datatype SirenState = SirenState(on: bool, volume: nat, applied: nat, until: nat)

  datatype FaultState = FaultState(faulted: bool, retry: nat, backoff: nat, writeErrors: nat)

  datatype Device = Device(open: bool, mutePending: bool, muteAttempts: nat)

  /**
   * The hardware itself.  open: the output device.  amplified: the last
   * amplifier command was an on that succeeded.  maybeOn: no off has succeeded
   * since the amplifier could last have been on.
   */
  datatype Hardware = Hardware(open: bool, amplified: bool, maybeOn: bool)

  datatype State = State(
    clock: nat, gate: bool, pc: Pc, audio: Audio, talk: Lease, siren: SirenState, fault: FaultState, device: Device,
    hardware: Hardware, writes: seq<Write>)

  datatype Reply = Accepted | Invalid | Unavailable | Busy

  // ----- callers

  function Cells(bytes: seq<byte>, from: nat, talker: Talker): (cells: seq<Cell>)
    ensures |cells| == |bytes|
    ensures forall i :: 0 <= i < |cells| ==> cells[i] == Cell(bytes[i], from + i, talker)
  {
    seq(|bytes|, i requires 0 <= i < |bytes| => Cell(bytes[i], from + i, talker))
  }

  /** What jipc_talk_submit answers, in the order it asks. */
  function SubmitReply(s: State, talker: Talker, http: bool, size: nat): Reply {
    if size == 0 || size > SUBMIT_MAX then Invalid
    else if !s.gate then Unavailable
    else if s.fault.faulted && s.clock < s.fault.retry then Unavailable
    else if s.siren.on then Busy
    else if s.talk.holder.Some? && s.talk.holder.value != talker then Busy
    else if http && |s.audio.queue| + size > QUEUE_BYTES then Busy
    else Accepted
  }

  /** How many bytes an accepted submit leaves queued, out of the queue and the new bytes together. */
  function Kept(http: bool, total: nat): (kept: nat)
    ensures kept <= total && kept <= QUEUE_BYTES
    ensures total > 0 ==> kept > 0
    ensures !http ==> kept <= TRIM_ABOVE
  {
    var fits := if total > QUEUE_BYTES then QUEUE_BYTES else total;
    if !http && fits > TRIM_ABOVE then TRIM_TO else fits
  }

  function Enqueue(a: Audio, http: bool, added: seq<Cell>): Audio {
    var all := a.queue + added;
    var drop := |all| - Kept(http, |all|);
    Audio(all[drop..], a.accepted + added, a.taken, a.discarded + all[..drop])
  }

  /** Keep the oldest bytes, drop the rest. */
  function Truncate(a: Audio, keep: nat): Audio {
    var n := if |a.queue| > keep then keep else |a.queue|;
    a.(queue := a.queue[..n], discarded := a.discarded + a.queue[n..])
  }

  function Take(a: Audio, most: nat): Audio {
    var n := if |a.queue| < most then |a.queue| else most;
    a.(queue := a.queue[n..], taken := a.taken + a.queue[..n])
  }

  function Submit(s: State, talker: Talker, http: bool, bytes: seq<byte>): State {
    if SubmitReply(s, talker, http, |bytes|) != Accepted then s
    else
      s.(audio := Enqueue(s.audio, http, Cells(bytes, |s.audio.accepted|, talker)),
         talk := s.talk.(holder := Some(talker), released := false, lastSubmit := s.clock))
  }

  function Release(s: State, owner: nat): State {
    if s.talk.holder.Some? && s.talk.holder.value.owner == owner then
      s.(audio := Truncate(s.audio, RELEASE_TAIL), talk := s.talk.(released := true))
    else s
  }

  /** Whoever was talking stops here. */
  function Flush(s: State): State {
    s.(audio := Truncate(s.audio, 0), talk := s.talk.(holder := None, released := false))
  }

  predicate SirenAllowed(s: State, sound: nat, seconds: nat, percent: nat) {
    && sound < SIREN_SOUNDS && 1 <= seconds <= SIREN_MAX_SECONDS && 1 <= percent <= 100
    && s.gate && !(s.fault.faulted && s.clock < s.fault.retry)
  }

  function SirenStart(s: State, sound: nat, seconds: nat, percent: nat): State {
    if SirenAllowed(s, sound, seconds, percent) then
      Flush(s).(siren := SirenState(true, percent, 0, s.clock + seconds * 1_000_000))
    else s
  }

  function SirenStop(s: State): State {
    if s.siren.on then s.(siren := s.siren.(on := false), talk := s.talk.(released := true)) else s
  }

  /** Whether a camera in half duplex keeps its microphone muted. */
  predicate TalkActive(s: State, fullDuplex: bool) {
    !fullDuplex && (s.talk.session || (s.talk.sessionEnd != 0 && s.clock - s.talk.sessionEnd < HALF_DUPLEX_TAIL_US))
  }

  // ----- the thread

  function EndSession(s: State, close: bool): State {
    Flush(s).(talk := Lease(None, false, false, s.talk.lastSubmit, s.clock), siren := s.siren.(on := false),
              device := s.device.(open := s.device.open && !close), pc := Stopping(close, s.device.open))
  }

  function NextBackoff(backoff: nat): nat {
    if backoff == 0 then 5 else if backoff >= 30 then 60 else backoff * 2
  }

  function Fault(s: State): State {
    var backoff := NextBackoff(s.fault.backoff);
    EndSession(s, true).(fault := FaultState(true, s.clock + backoff * RETRY_UNIT_US, backoff, 0))
  }

  /** The amplifier was told to switch off. */
  function SwitchedOff(h: Hardware, ok: bool): Hardware {
    h.(amplified := false, maybeOn := !ok)
  }

  function AfterStop(s: State, muted: bool): State
    requires s.pc.Stopping?
  {
    s.(pc := Top,
       hardware := SwitchedOff(s.hardware, muted).(open := s.hardware.open && !(s.pc.close && s.pc.wasOpen)),
       device := if muted then s.device else s.device.(mutePending := true, muteAttempts := 0))
  }

  /** A talker or the siren that arrived while the output may not play. */
  function Refuse(s: State): State {
    var refused := s.fault.faulted || !s.gate;
    var a := if s.audio.queue != [] && refused then Flush(s) else s;
    if refused then a.(siren := a.siren.(on := false)) else a
  }

  function WaitOrStart(s: State): State {
    if s.audio.queue == [] && !s.siren.on then s.(pc := Top)
    else s.(talk := s.talk.(session := true), pc := Opening(!s.device.open),
            siren := if s.siren.on && !s.device.open then s.siren.(applied := s.siren.volume) else s.siren)
  }

  /** Without a session, after any mute retry: close when long idle, drop what cannot play, wait, or start a session. */
  function Idle(s: State, now: nat): State {
    if s.device.open && now - s.talk.sessionEnd > IDLE_CLOSE_US then
      s.(device := s.device.(open := false), pc := Closing)
    else
      WaitOrStart(Refuse(s.(fault := s.fault.(faulted := s.fault.faulted && now < s.fault.retry))))
  }

  function AfterMute(s: State, muted: bool): State
    requires s.pc.Muting?
  {
    Idle(s.(hardware := SwitchedOff(s.hardware, muted),
            device := s.device.(mutePending := s.device.mutePending && !muted)), s.pc.now)
  }

  function AfterOpen(s: State, ready: bool, switched: bool): State
    requires s.pc.Opening?
  {
    if s.pc.needed && !ready then Fault(s)
    else
      var on := s.(device := s.device.(open := true), hardware := Hardware(true, switched, true));
      if switched then on.(pc := Settling) else Fault(on)
  }

  function ExpireSiren(s: State): State {
    if s.clock >= s.siren.until then SirenStop(s) else s
  }

  predicate Finished(s: State) {
    !s.siren.on && s.audio.queue == [] && (s.talk.released || s.clock - s.talk.lastSubmit > DEADMAN_US)
  }

  function NextFrame(s: State): State {
    if s.siren.on && s.siren.applied != s.siren.volume then
      s.(siren := s.siren.(applied := s.siren.volume), pc := Gain)
    else if s.siren.on then s.(pc := Writing(Siren))
    else if s.audio.queue == [] then s.(pc := Starved)
    else
      var after := Take(s.audio, FRAME_BYTES);
      s.(audio := after, pc := Writing(Talk(after.taken[|s.audio.taken|..])))
  }

  function InSession(s: State): State {
    var a := ExpireSiren(s);
    if Finished(a) then EndSession(a, false) else NextFrame(a)
  }

  function Iterate(s: State): State {
    if s.talk.session then InSession(s)
    else if s.device.mutePending && s.device.muteAttempts < MUTE_ATTEMPTS then
      s.(device := s.device.(muteAttempts := s.device.muteAttempts + 1), pc := Muting(s.clock))
    else Idle(s, s.clock)
  }

  function AfterWrite(s: State, written: bool): State
    requires s.pc.Writing?
  {
    var a := s.(writes := s.writes + [Write(s.pc.frame, s.talk.session, s.device.open, s.hardware.open, s.hardware.amplified)]);
    if written then a.(fault := a.fault.(writeErrors := 0, backoff := 0), pc := Top)
    else if a.fault.writeErrors + 1 >= 3 then Fault(a)
    else a.(fault := a.fault.(writeErrors := a.fault.writeErrors + 1), pc := Top)
  }

  /** The thread's next locked section; first and second are what the device calls before it returned. */
  function Thread(s: State, first: bool, second: bool): State {
    match s.pc
    case Top => Iterate(s)
    case Muting(_) => AfterMute(s, first)
    case Closing => s.(pc := Top, hardware := s.hardware.(open := false))
    case Opening(_) => AfterOpen(s, first, second)
    case Settling => s.(pc := Top)
    case Gain => s.(pc := Writing(Siren))
    case Starved => if s.audio.queue != [] then s.(pc := Top) else s.(pc := Writing(Quiet))
    case Writing(_) => AfterWrite(s, first)
    case Stopping(_, _) => AfterStop(s, first)
  }

  datatype Step =
    | Tick(us: nat)
    | GateOpens
    | SubmitCall(talker: Talker, http: bool, bytes: seq<byte>)
    | ReleaseCall(owner: nat)
    | SirenStartCall(sound: nat, seconds: nat, percent: nat)
    | SirenStopCall
    | ThreadStep(first: bool, second: bool)

  function Apply(s: State, step: Step): State {
    match step
    case Tick(us) => s.(clock := s.clock + us)
    case GateOpens => s.(gate := true)
    case SubmitCall(talker, http, bytes) => Submit(s, talker, http, bytes)
    case ReleaseCall(owner) => Release(s, owner)
    case SirenStartCall(sound, seconds, percent) => SirenStart(s, sound, seconds, percent)
    case SirenStopCall => SirenStop(s)
    case ThreadStep(first, second) => Thread(s, first, second)
  }

  /** jipc_speaker_start: once the boot hook has let go, a crash may have left the amplifier on. */
  function Start(clock: nat, gate: bool): State {
    State(clock, gate, Top, Audio([], [], [], []), Lease(None, false, false, 0, 0), SirenState(false, 0, 0, 0),
          FaultState(false, 0, 0, 0), Device(false, gate, 0), Hardware(false, false, gate), [])
  }

  function Run(s: State, steps: seq<Step>): State
    decreases |steps|
  {
    if steps == [] then s else Apply(Run(s, steps[..|steps| - 1]), steps[|steps| - 1])
  }

  // ----- the output, the amplifier and the thread

  ghost predicate WriteOk(w: Write) {
    w.session && w.open && w.output && w.amplified
  }

  ghost predicate Controlled(s: State) {
    && s.talk.sessionEnd <= s.clock && s.talk.lastSubmit <= s.clock
    && s.fault.writeErrors < 3
    && (s.talk.session ==> !s.fault.faulted)
    && DeviceOk(s.pc, s.talk.session, s.device, s.hardware)
    && (s.pc.Muting? ==> s.talk.sessionEnd <= s.pc.now <= s.clock)
  }

  ghost predicate DeviceOk(pc: Pc, session: bool, d: Device, h: Hardware) {
    && (h.maybeOn ==> session || pc.Stopping? || d.mutePending)
    && (session && !pc.Opening? ==> d.open && h.amplified)
    && (pc.Stopping? || pc.Closing? || h.open == d.open)
    && match pc
       case Top => true
       case Muting(now) => !session && d.mutePending
       case Closing => !session && h.open && !d.open
       case Opening(needed) => session && needed == !d.open
       case Stopping(close, wasOpen) => !session && h.open == wasOpen && d.open == (wasOpen && !close)
       case _ => session
  }

  ghost predicate WritesOk(s: State) {
    forall i :: 0 <= i < |s.writes| ==> WriteOk(s.writes[i])
  }

  lemma IdleControlled(s: State, now: nat)
    requires Controlled(s.(pc := Top)) && !s.talk.session && s.talk.sessionEnd <= now <= s.clock
    ensures Controlled(Idle(s, now)) && Idle(s, now).writes == s.writes
  {
  }

  lemma InSessionControlled(s: State)
    requires Controlled(s) && s.talk.session && s.pc.Top?
    ensures Controlled(InSession(s)) && InSession(s).writes == s.writes
  {
    hide Truncate, Take;
  }

  lemma ThreadControlled(s: State, first: bool, second: bool)
    requires Controlled(s)
    ensures Controlled(Thread(s, first, second))
    ensures WritesOk(s) ==> WritesOk(Thread(s, first, second))
  {
    hide Idle, InSession, Truncate;
    match s.pc
    case Top =>
      if s.talk.session {
        InSessionControlled(s);
      } else {
        IdleControlled(s, s.clock);
      }
    case Muting(now) => IdleControlled(s.(hardware := SwitchedOff(s.hardware, first), device := s.device.(mutePending := !first)), now);
    case _ =>
  }

  lemma StepControlled(s: State, step: Step)
    requires Controlled(s)
    ensures Controlled(Apply(s, step))
    ensures WritesOk(s) ==> WritesOk(Apply(s, step))
  {
    hide Thread, Truncate, Enqueue;
    match step
    case ThreadStep(first, second) => ThreadControlled(s, first, second);
    case _ =>
  }

  // ----- nobody is orphaned, nobody shares

  ghost predicate Owned(s: State) {
    && |s.audio.queue| <= QUEUE_BYTES
    && (s.audio.queue != [] ==> s.talk.holder.Some?)
    && (forall i :: 0 <= i < |s.audio.queue| ==> s.talk.holder == Some(s.audio.queue[i].talker))
    && (s.siren.on ==> s.audio.queue == [] && s.talk.holder.None? && !s.talk.released)
    && (s.talk.holder.Some? && !s.talk.session ==> s.audio.queue != [])
    && (s.talk.session && s.talk.holder.None? && !s.siren.on ==> s.talk.released)
    && (s.audio.queue != [] || s.siren.on ==> s.gate)
  }

  lemma IdleOwned(s: State, now: nat)
    requires Owned(s) && !s.talk.session
    ensures Owned(Idle(s, now))
  {
  }

  lemma InSessionOwned(s: State)
    requires Owned(s) && s.talk.session
    ensures Owned(InSession(s))
  {
  }

  lemma AfterCallOwned(s: State, first: bool, second: bool)
    requires Owned(s) && (s.pc.Opening? || s.pc.Writing?) && s.talk.session
    ensures Owned(Thread(s, first, second))
  {
  }

  lemma ThreadOwned(s: State, first: bool, second: bool)
    requires Owned(s) && Controlled(s)
    ensures Owned(Thread(s, first, second))
  {
    hide Idle, InSession, AfterOpen, AfterWrite;
    match s.pc
    case Top =>
      if s.talk.session {
        InSessionOwned(s);
      } else {
        IdleOwned(s, s.clock);
      }
    case Muting(now) => IdleOwned(s.(hardware := SwitchedOff(s.hardware, first), device := s.device.(mutePending := !first)), now);
    case Opening(_) => AfterCallOwned(s, first, second);
    case Writing(_) => AfterCallOwned(s, first, second);
    case _ =>
  }

  lemma SubmitOwned(s: State, talker: Talker, http: bool, bytes: seq<byte>)
    requires Owned(s) && Controlled(s)
    ensures Owned(Submit(s, talker, http, bytes))
  {
    if SubmitReply(s, talker, http, |bytes|) == Accepted {
      var all := s.audio.queue + Cells(bytes, |s.audio.accepted|, talker);
      assert forall i :: 0 <= i < |all| ==> all[i].talker == talker;
    }
  }

  lemma StepOwned(s: State, step: Step)
    requires Owned(s) && Controlled(s)
    ensures Owned(Apply(s, step))
  {
    hide Thread, Submit, SubmitReply, Controlled;
    match step
    case SubmitCall(talker, http, bytes) => SubmitOwned(s, talker, http, bytes);
    case ThreadStep(first, second) => ThreadOwned(s, first, second);
    case _ =>
  }

  // ----- every accepted byte is queued, played or dropped, once, and in order

  /** cells are some of the accepted bytes, in the order they were accepted. */
  ghost predicate Ordered(cells: seq<Cell>, accepted: seq<Cell>) {
    && (forall i :: 0 <= i < |cells| ==> cells[i].id < |accepted| && accepted[cells[i].id] == cells[i])
    && (forall i, j :: 0 <= i < j < |cells| ==> cells[i].id < cells[j].id)
  }

  ghost predicate Accounted(a: Audio) {
    && (forall i :: 0 <= i < |a.accepted| ==> a.accepted[i].id == i)
    && Ordered(a.taken + a.queue, a.accepted)
    && multiset(a.accepted) == multiset(a.queue) + multiset(a.taken) + multiset(a.discarded)
  }

  lemma CutBag(cells: seq<Cell>, n: nat)
    requires n <= |cells|
    ensures multiset(cells) == multiset(cells[..n]) + multiset(cells[n..])
  {
    assert cells == cells[..n] + cells[n..];
  }

  lemma TakeAccounted(a: Audio, most: nat)
    requires Accounted(a)
    ensures Accounted(Take(a, most))
  {
    var n := if |a.queue| < most then |a.queue| else most;
    CutBag(a.queue, n);
    assert (a.taken + a.queue[..n]) + a.queue[n..] == a.taken + a.queue;
  }

  lemma OrderedParts(front: seq<Cell>, drop: seq<Cell>, back: seq<Cell>, accepted: seq<Cell>)
    requires Ordered(front + (drop + back), accepted)
    ensures Ordered(front + back, accepted) && Ordered(front + drop, accepted)
  {
    var all, cut := front + (drop + back), front + back;
    assert forall i :: 0 <= i < |cut| ==> cut[i] == all[if i < |front| then i else i + |drop|];
    assert forall i :: 0 <= i < |front + drop| ==> (front + drop)[i] == all[i];
  }

  lemma TruncateAccounted(a: Audio, keep: nat)
    requires Accounted(a)
    ensures Accounted(Truncate(a, keep))
  {
    var n := if |a.queue| > keep then keep else |a.queue|;
    CutBag(a.queue, n);
    assert a.queue == a.queue[..n] + a.queue[n..];
    OrderedParts(a.taken, a.queue[..n], a.queue[n..], a.accepted);
  }

  lemma EnqueueAccounted(a: Audio, http: bool, bytes: seq<byte>, talker: Talker)
    requires Accounted(a)
    ensures Accounted(Enqueue(a, http, Cells(bytes, |a.accepted|, talker)))
  {
    hide Kept;
    var added := Cells(bytes, |a.accepted|, talker);
    var all, longer := a.queue + added, a.accepted + added;
    var drop := |all| - Kept(http, |all|);
    var whole := a.taken + all;
    assert forall i :: 0 <= i < |whole| ==>
        whole[i] == if i < |a.taken + a.queue| then (a.taken + a.queue)[i] else added[i - |a.taken + a.queue|];
    assert Ordered(whole, longer);
    assert all == all[..drop] + all[drop..];
    OrderedParts(a.taken, all[..drop], all[drop..], longer);
    CutBag(all, drop);
    var e := Enqueue(a, http, added);
    assert multiset(all) == multiset(a.queue) + multiset(added);
    Regroup(multiset(a.queue), multiset(a.taken), multiset(a.discarded), multiset(added),
            multiset(all[..drop]), multiset(all[drop..]));
    assert multiset(e.discarded) == multiset(a.discarded) + multiset(all[..drop]);
  }

  lemma Regroup(queue: multiset<Cell>, taken: multiset<Cell>, discarded: multiset<Cell>, added: multiset<Cell>,
                dropped: multiset<Cell>, kept: multiset<Cell>)
    requires queue + added == dropped + kept
    ensures queue + taken + discarded + added == kept + taken + (discarded + dropped)
  {
    assert (queue + added) + (taken + discarded) == queue + taken + discarded + added;
    assert (dropped + kept) + (taken + discarded) == kept + taken + (discarded + dropped);
  }

  /**
   * What an accepted submit loses: POST /api/v1/talk nothing; a backchannel
   * nothing while at most 600 ms are queued, else all but the newest 300 ms.
   */
  lemma SubmitLoses(s: State, talker: Talker, http: bool, bytes: seq<byte>)
    requires SubmitReply(s, talker, http, |bytes|) == Accepted
    ensures var all := s.audio.queue + Cells(bytes, |s.audio.accepted|, talker);
            var t := Submit(s, talker, http, bytes);
            var keep := if http || |all| <= TRIM_ABOVE then |all| else TRIM_TO;
            && t.audio.queue == all[|all| - keep..]
            && t.audio.discarded == s.audio.discarded + all[..|all| - keep]
            && t.talk.holder == Some(talker) && t.audio.queue != []
            && |t.audio.queue| <= (if http then QUEUE_BYTES else TRIM_ABOVE)
  {
  }

  /** A release is the lease holder's only, marks the session, and keeps the oldest 200 ms of what is queued. */
  lemma ReleaseKeepsOldest(s: State, owner: nat)
    ensures var t := Release(s, owner);
            if s.talk.holder.Some? && s.talk.holder.value.owner == owner then
              && t.talk == s.talk.(released := true) && t.audio.queue <= s.audio.queue
              && (|s.audio.queue| <= RELEASE_TAIL ==> t.audio == s.audio)
              && (|s.audio.queue| > RELEASE_TAIL ==> |t.audio.queue| == RELEASE_TAIL)
              && exists newest :: s.audio.queue == t.audio.queue + newest && t.audio.discarded == s.audio.discarded + newest
            else t == s
  {
    var n := if |s.audio.queue| > RELEASE_TAIL then RELEASE_TAIL else |s.audio.queue|;
    assert s.audio.queue == s.audio.queue[..n] + s.audio.queue[n..];
  }

  /** What one locked section of the thread may do to the bytes: nothing, drop the queue, or take a frame. */
  ghost predicate AudioStep(a: Audio, b: Audio) {
    b == a || b == Truncate(a, 0) || b == Take(a, FRAME_BYTES)
  }

  lemma IdleAudio(s: State, now: nat)
    ensures AudioStep(s.audio, Idle(s, now).audio)
  {
    hide Truncate, Take;
  }

  lemma InSessionAudio(s: State)
    ensures AudioStep(s.audio, InSession(s).audio)
  {
    hide Truncate, Take, Finished;
  }

  lemma ThreadAudio(s: State, first: bool, second: bool)
    ensures AudioStep(s.audio, Thread(s, first, second).audio)
  {
    hide Truncate, Take, Idle, InSession, NextBackoff, SwitchedOff;
    match s.pc
    case Top =>
      if s.talk.session {
        InSessionAudio(s);
      } else {
        IdleAudio(s, s.clock);
      }
    case Muting(now) =>
      IdleAudio(s.(hardware := SwitchedOff(s.hardware, first), device := s.device.(mutePending := s.device.mutePending && !first)), now);
    case _ =>
  }

  lemma StepAccounted(s: State, step: Step)
    requires Accounted(s.audio)
    ensures Accounted(Apply(s, step).audio)
  {
    hide Thread, Truncate, Enqueue, Take, Accounted;
    TruncateAccounted(s.audio, 0);
    match step
    case ThreadStep(first, second) =>
      ThreadAudio(s, first, second);
      TakeAccounted(s.audio, FRAME_BYTES);
    case SubmitCall(talker, http, bytes) => EnqueueAccounted(s.audio, http, bytes, talker);
    case ReleaseCall(owner) => TruncateAccounted(s.audio, RELEASE_TAIL);
    case _ =>
  }

  // ----- what is taken is what is written

  function CellsOf(frame: Frame): seq<Cell> {
    if frame.Talk? then frame.cells else []
  }

  /** The talkers' bytes in the frames written, in order. */
  function TalkCells(writes: seq<Write>): seq<Cell> {
    if writes == [] then []
    else
      var n := |writes| - 1;
      TalkCells(writes[..n]) + CellsOf(writes[n].frame)
  }

  /** Those of the frame being written. */
  function OnItsWay(pc: Pc): seq<Cell> {
    if pc.Writing? then CellsOf(pc.frame) else []
  }

  ghost predicate Heard(s: State) {
    TalkCells(s.writes) + OnItsWay(s.pc) == s.audio.taken
  }

  lemma OneMoreWrite(writes: seq<Write>, w: Write)
    ensures TalkCells(writes + [w]) == TalkCells(writes) + CellsOf(w.frame)
  {
    assert (writes + [w])[..|writes|] == writes;
  }

  lemma TakeTakes(a: Audio, most: nat)
    ensures var n, t := if |a.queue| < most then |a.queue| else most, Take(a, most);
            t.taken == a.taken + t.taken[|a.taken|..] && t.taken[|a.taken|..] == a.queue[..n]
  {
  }

  lemma StepHeard(s: State, step: Step)
    requires Heard(s)
    ensures Heard(Apply(s, step))
  {
    hide Thread, Truncate, Enqueue, TalkCells, SubmitReply;
    match step
    case ThreadStep(first, second) => ThreadHeard(s, first, second);
    case SubmitCall(talker, http, bytes) => SubmitTakesNothing(s, talker, http, bytes);
    case SirenStartCall(_, _, _) => FlushTakesNothing(s.audio);
    case ReleaseCall(_) => TruncateTakesNothing(s.audio);
    case _ =>
  }

  lemma ThreadHeard(s: State, first: bool, second: bool)
    requires Heard(s)
    ensures Heard(Thread(s, first, second))
  {
    hide Idle, InSession, AfterWrite, Truncate, TalkCells, NextBackoff;
    FlushTakesNothing(s.audio);
    match s.pc
    case Top =>
      if s.talk.session {
        SessionHeard(s);
      } else {
        IdleTakesNothing(s, s.clock);
      }
    case Muting(now) =>
      IdleTakesNothing(s.(hardware := SwitchedOff(s.hardware, first),
                          device := s.device.(mutePending := s.device.mutePending && !first)), now);
    case Writing(_) => WriteHeard(s, first);
    case _ =>
  }

  lemma SessionHeard(s: State)
    requires Heard(s) && s.pc.Top?
    ensures Heard(InSession(s))
  {
    hide Truncate, TalkCells, Take;
    FlushTakesNothing(s.audio);
    TakeTakes(s.audio, FRAME_BYTES);
  }

  lemma WriteHeard(s: State, written: bool)
    requires Heard(s) && s.pc.Writing?
    ensures Heard(AfterWrite(s, written))
  {
    hide Truncate, TalkCells, NextBackoff;
    OneMoreWrite(s.writes, Write(s.pc.frame, s.talk.session, s.device.open, s.hardware.open, s.hardware.amplified));
    FlushTakesNothing(s.audio);
  }

  lemma FlushEmpties(a: Audio)
    ensures Truncate(a, 0).queue == []
  {
  }

  lemma FlushTakesNothing(a: Audio)
    ensures Truncate(a, 0).taken == a.taken
  {
  }

  lemma TruncateTakesNothing(a: Audio)
    ensures Truncate(a, RELEASE_TAIL).taken == a.taken
  {
  }

  lemma SubmitTakesNothing(s: State, talker: Talker, http: bool, bytes: seq<byte>)
    ensures var t := Submit(s, talker, http, bytes); t.audio.taken == s.audio.taken && t.writes == s.writes && t.pc == s.pc
  {
  }

  lemma IdleTakesNothing(s: State, now: nat)
    ensures var t := Idle(s, now); t.audio.taken == s.audio.taken && t.writes == s.writes && !t.pc.Writing?
  {
  }

  // ----- every run

  ghost predicate Inv(s: State) {
    Controlled(s) && Owned(s) && Accounted(s.audio) && WritesOk(s) && Heard(s)
  }

  lemma StepKeeps(s: State, step: Step)
    requires Inv(s)
    ensures Inv(Apply(s, step))
  {
    hide Controlled, Owned, Accounted, WritesOk, Heard, Apply;
    StepControlled(s, step);
    StepOwned(s, step);
    StepAccounted(s, step);
    StepHeard(s, step);
  }

  lemma {:induction false} RunKeeps(clock: nat, gate: bool, steps: seq<Step>)
    ensures Inv(Run(Start(clock, gate), steps))
    decreases |steps|
  {
    if steps != [] {
      var before := steps[..|steps| - 1];
      RunKeeps(clock, gate, before);
      StepKeeps(Run(Start(clock, gate), before), steps[|steps| - 1]);
    }
  }

  /**
   * One owner at a time, and none forgotten: everything queued was sent by the
   * lease holder; a sounding siren has nobody queued or leased beside it; a
   * lease outside a session still has audio to start one; and a session that
   * neither a talker nor the siren holds is already on its way out.
   */
  lemma NobodyOrphaned(clock: nat, gate: bool, steps: seq<Step>)
    ensures var s := Run(Start(clock, gate), steps);
            && (forall cell :: cell in s.audio.queue ==> s.talk.holder == Some(cell.talker))
            && (s.siren.on ==> s.audio.queue == [] && s.talk.holder.None?)
            && (s.talk.holder.Some? && !s.talk.session ==> s.audio.queue != [])
            && (s.talk.session && s.talk.holder.None? && !s.siren.on ==> s.talk.released)
  {
    RunKeeps(clock, gate, steps);
  }

  /**
   * Whatever was written went to an open output inside a session whose
   * amplifier-on command had succeeded; and once no session is left to stop,
   * the amplifier is off or a mute is still pending.
   */
  lemma AmplifierSafe(clock: nat, gate: bool, steps: seq<Step>)
    ensures var s := Run(Start(clock, gate), steps);
            && (forall w :: w in s.writes ==> w.session && w.open && w.output && w.amplified)
            && (!s.talk.session && !s.pc.Stopping? ==> !s.hardware.maybeOn || s.device.mutePending)
            && (s.pc.Writing? ==> TalkActive(s, false))
  {
    RunKeeps(clock, gate, steps);
  }

  lemma AccountedParts(a: Audio)
    requires Accounted(a)
    ensures |a.accepted| == |a.queue| + |a.taken| + |a.discarded|
    ensures forall i :: 0 <= i < |a.taken| ==> a.taken[i].id < |a.accepted| && a.accepted[a.taken[i].id] == a.taken[i]
    ensures forall i, j :: 0 <= i < j < |a.taken| ==> a.taken[i].id < a.taken[j].id
    ensures forall i, j :: 0 <= i < |a.taken| && 0 <= j < |a.queue| ==> a.taken[i].id < a.queue[j].id
  {
    var both := a.taken + a.queue;
    assert forall i :: 0 <= i < |a.taken| ==> both[i] == a.taken[i];
    assert forall i :: 0 <= i < |a.queue| ==> both[|a.taken| + i] == a.queue[i];
    assert |multiset(a.accepted)| == |multiset(a.queue) + multiset(a.taken) + multiset(a.discarded)|;
  }

  /** In every run the bytes taken for playing are those of the frames written, in order, and of the one being written. */
  lemma TakenIsHeard(clock: nat, gate: bool, steps: seq<Step>)
    ensures var s := Run(Start(clock, gate), steps);
            s.audio.taken == TalkCells(s.writes) + OnItsWay(s.pc)
  {
    RunKeeps(clock, gate, steps);
  }

  /** The played bytes of a run are accepted bytes in the order of acceptance, and no accepted byte is lost or doubled. */
  lemma PlayedInOrder(clock: nat, gate: bool, steps: seq<Step>)
    ensures var a := Run(Start(clock, gate), steps).audio;
            && |a.accepted| == |a.queue| + |a.taken| + |a.discarded|
            && (forall i :: 0 <= i < |a.taken| ==> a.taken[i].id < |a.accepted| && a.accepted[a.taken[i].id] == a.taken[i])
            && (forall i, j :: 0 <= i < j < |a.taken| ==> a.taken[i].id < a.taken[j].id)
            && (forall i, j :: 0 <= i < |a.taken| && 0 <= j < |a.queue| ==> a.taken[i].id < a.queue[j].id)
            && (forall cell :: cell in a.accepted ==>
                  multiset(a.queue)[cell] + multiset(a.taken)[cell] + multiset(a.discarded)[cell] == 1)
  {
    RunKeeps(clock, gate, steps);
    var a := Run(Start(clock, gate), steps).audio;
    hide Run, Ordered;
    AccountedParts(a);
    Singles(a.accepted);
  }

  lemma {:induction false} Singles(cells: seq<Cell>)
    requires forall i :: 0 <= i < |cells| ==> cells[i].id == i
    ensures forall cell :: cell in cells ==> multiset(cells)[cell] == 1
  {
    if cells != [] {
      var n := |cells| - 1;
      Singles(cells[..n]);
      assert cells == cells[..n] + [cells[n]];
      assert cells[n] !in cells[..n];
    }
  }

  // ----- what a locked section chooses

  /**
   * In a session the siren sounds until its deadline, at its own volume; else the
   * oldest bytes go out, at most a frame of them; and without any the session
   * ends once released or after the deadman's time, and starves until then.
   */
  lemma SessionChooses(s: State, first: bool, second: bool)
    requires Inv(s) && s.talk.session && s.pc.Top?
    ensures var t := Thread(s, first, second);
            var sounding, n := s.siren.on && s.clock < s.siren.until, if |s.audio.queue| < FRAME_BYTES then |s.audio.queue| else FRAME_BYTES;
            if sounding then
              && t.audio == s.audio && t.siren == s.siren.(applied := s.siren.volume)
              && t.pc == if s.siren.applied == s.siren.volume then Writing(Siren) else Gain
            else if s.audio.queue != [] then
              && t.pc == Writing(Talk(s.audio.queue[..n])) && t.audio.queue == s.audio.queue[n..] && t.talk == s.talk
            else
              && (t.pc.Stopping? <==> s.siren.on || s.talk.released || s.clock - s.talk.lastSubmit > DEADMAN_US)
              && (if t.pc.Stopping? then
                    && t.pc == Stopping(false, s.device.open) && t.device == s.device && !t.siren.on && t.audio.queue == []
                    && t.talk == Lease(None, false, false, s.talk.lastSubmit, s.clock)
                  else t.pc.Starved? && t.talk == s.talk)
  {
    hide Accounted, WritesOk, Heard, Truncate;
    FlushEmpties(s.audio);
    assert s.audio.taken + s.audio.queue[..if |s.audio.queue| < FRAME_BYTES then |s.audio.queue| else FRAME_BYTES]
        == Take(s.audio, FRAME_BYTES).taken;
  }

  /** Silence is written only to a starved session that nothing reached within its wait. */
  lemma QuietOnlyStarved(s: State, first: bool, second: bool)
    requires Inv(s)
    ensures var t := Thread(s, first, second);
            && (t.pc == Writing(Quiet) ==> s.pc.Starved? && s.audio.queue == [])
            && (s.pc.Starved? ==> t.audio == s.audio && t.pc == if s.audio.queue == [] then Writing(Quiet) else Top)
            && (t.pc.Starved? ==> s.pc.Top? && s.talk.session && s.audio.queue == [] && !(s.siren.on && s.clock < s.siren.until))
  {
    hide Accounted, WritesOk, Heard, Truncate, Idle;
    IdleTakesNothing(s, s.clock);
    IdleStarvesNobody(s, s.clock);
    if s.pc.Muting? {
      var a := s.(hardware := SwitchedOff(s.hardware, first), device := s.device.(mutePending := s.device.mutePending && !first));
      IdleTakesNothing(a, s.pc.now);
      IdleStarvesNobody(a, s.pc.now);
    }
  }

  lemma IdleStarvesNobody(s: State, now: nat)
    ensures !Idle(s, now).pc.Starved?
  {
  }

  /**
   * Outside a session, by the clock at the top of the loop: an output idle for ten
   * seconds is closed; a fault or a closed gate drops queue and siren; else what
   * is queued or sounds gets its session.
   */
  lemma IdleChooses(s: State)
    requires Inv(s) && !s.talk.session && s.pc.Top? && !(s.device.mutePending && s.device.muteAttempts < MUTE_ATTEMPTS)
    ensures var t := Thread(s, true, true);
            var waits, faulted := s.audio.queue != [] || s.siren.on, s.fault.faulted && s.clock < s.fault.retry;
            if s.device.open && s.clock - s.talk.sessionEnd > IDLE_CLOSE_US then
              t == s.(pc := Closing, device := s.device.(open := false))
            else
              && t.fault == s.fault.(faulted := faulted) && t.device == s.device
              && (if faulted || !s.gate then t.audio.queue == [] && t.talk.holder.None? && !t.siren.on && t.pc.Top? && !t.talk.session
                  else
                    && t.audio == s.audio
                    && t.siren == (if s.siren.on && !s.device.open then s.siren.(applied := s.siren.volume) else s.siren)
                    && t.pc == (if waits then Opening(!s.device.open) else Top) && t.talk == s.talk.(session := waits))
  {
    hide Accounted, WritesOk, Heard;
  }

  /** A mute that failed is tried again, up to a hundred times, before anything else. */
  lemma MuteIsRetried(s: State, muted: bool)
    requires Inv(s) && !s.talk.session && s.pc.Top? && s.device.mutePending && s.device.muteAttempts < MUTE_ATTEMPTS
    ensures var t := Thread(s, true, true);
            && t == s.(pc := Muting(s.clock), device := s.device.(muteAttempts := s.device.muteAttempts + 1))
            && var u := Thread(t, muted, true);
               && u.hardware.amplified == false && u.hardware.maybeOn == !muted && u.device.mutePending == !muted
               && u.device.muteAttempts == s.device.muteAttempts + 1
  {
    hide Accounted, WritesOk, Heard, Truncate;
  }

  /** A stop with the amplifier off leaves nothing to mute, one without leaves it for another hundred attempts. */
  lemma StopMutes(s: State, muted: bool)
    requires Inv(s) && s.pc.Stopping?
    ensures var t := Thread(s, muted, true);
            && t.pc.Top? && t.hardware.amplified == false && t.hardware.open == t.device.open
            && t.hardware.maybeOn == !muted && t.device.open == s.device.open
            && (if muted then t.device == s.device else t.device.mutePending && t.device.muteAttempts == 0)
  {
    hide Accounted, WritesOk, Heard;
  }

  function Faults(n: nat): nat {
    if n == 0 then 0 else NextBackoff(Faults(n - 1))
  }

  /** Faults in a row back off 5, 10, 20, 40 and then 60 seconds; a frame that is written starts over. */
  lemma BackoffDoubles(n: nat)
    ensures Faults(n) == if n == 0 then 0 else if n == 1 then 5 else if n == 2 then 10 else if n == 3 then 20 else if n == 4 then 40 else 60
  {
    if n > 5 {
      BackoffDoubles(n - 1);
    }
  }

  lemma FaultBacksOff(s: State, ready: bool, switched: bool)
    requires Inv(s) && s.pc.Opening?
    ensures var t := Thread(s, ready, switched);
            if (s.pc.needed && !ready) || !switched then
              && t.fault.faulted && t.fault.backoff == NextBackoff(s.fault.backoff)
              && t.fault.retry == s.clock + t.fault.backoff * RETRY_UNIT_US && t.fault.writeErrors == 0
              && t.pc.Stopping? && t.pc.close && !t.device.open && t.audio.queue == [] && !t.siren.on && !t.talk.session
            else t.fault == s.fault && t.pc.Settling? && t.device.open && t.audio == s.audio && t.talk == s.talk
    ensures !(s.pc.needed && !ready) ==> Thread(s, ready, switched).hardware == Hardware(true, switched, true)
  {
    hide Accounted, WritesOk, Heard;
  }

  /** Two refused frames in a row are survived, the third faults; a written one is forgotten with what came before. */
  lemma WriteCounts(s: State, written: bool)
    requires Inv(s) && s.pc.Writing?
    ensures var t := Thread(s, written, true);
            && |t.writes| == |s.writes| + 1 && t.writes[..|s.writes|] == s.writes && t.writes[|s.writes|].frame == s.pc.frame
            && (if written then t.pc.Top? && t.fault == s.fault.(writeErrors := 0, backoff := 0)
                else if s.fault.writeErrors < 2 then t.pc.Top? && t.fault == s.fault.(writeErrors := s.fault.writeErrors + 1)
                else t.fault.faulted && t.fault.retry == s.clock + t.fault.backoff * RETRY_UNIT_US && t.pc.Stopping? && t.pc.close)
            && (t.pc.Top? ==> t.talk == s.talk && t.audio == s.audio)
  {
    hide Accounted, WritesOk, Heard;
  }

  /** The other device calls return to the top of the loop, a new gain to its frame. */
  lemma CallsReturn(s: State, first: bool, second: bool)
    requires Inv(s) && (s.pc.Closing? || s.pc.Settling? || s.pc.Gain?)
    ensures Thread(s, first, second)
         == s.(pc := if s.pc.Gain? then Writing(Siren) else Top,
               hardware := if s.pc.Closing? then s.hardware.(open := false) else s.hardware)
  {
  }

  // ----- what a talker can count on

  /**
   * A submit of 1 to 8000 bytes is accepted if and only if the speaker is gated
   * open, not backing off, without siren, free or the talker's own, and has room
   * for a POST; so whoever holds the lease goes on, and nobody else does.
   */
  lemma SubmitAccepts(s: State, talker: Talker, http: bool, bytes: seq<byte>)
    requires Inv(s)
    ensures var t := Submit(s, talker, http, bytes);
            (t.audio.accepted == s.audio.accepted + Cells(bytes, |s.audio.accepted|, talker) && bytes != []) <==>
              && 1 <= |bytes| <= SUBMIT_MAX && s.gate && (s.fault.faulted ==> s.clock >= s.fault.retry) && !s.siren.on
              && (s.talk.holder.None? || s.talk.holder == Some(talker))
              && (http ==> |s.audio.queue| + |bytes| <= QUEUE_BYTES)
    ensures var t := Submit(s, talker, http, bytes);
            if t.audio.accepted == s.audio.accepted then t == s
            else
              && t.talk == s.talk.(holder := Some(talker), released := false, lastSubmit := s.clock)
              && t.(audio := s.audio, talk := s.talk) == s
  {
    hide Controlled, Owned, Accounted, WritesOk, Heard, Kept;
  }

  lemma HolderGoesOn(s: State, talker: Talker, bytes: seq<byte>, next: seq<byte>)
    requires Inv(s) && SubmitReply(s, talker, false, |bytes|) == Accepted && 1 <= |next| <= SUBMIT_MAX
    ensures SubmitReply(Submit(s, talker, false, bytes), talker, false, |next|) == Accepted
    ensures forall other: Talker, http :: other != talker ==>
              SubmitReply(Submit(s, talker, false, bytes), other, http, |next|) == Busy
  {
    hide Controlled, Owned, Accounted, WritesOk, Heard, Kept, Enqueue;
  }

  /** An accepted siren takes over from whoever talks, at its volume and to its deadline. */
  lemma SirenTakesOver(s: State, sound: nat, seconds: nat, percent: nat)
    requires Inv(s)
    ensures var t := SirenStart(s, sound, seconds, percent);
            var allowed := sound < SIREN_SOUNDS && 1 <= seconds <= SIREN_MAX_SECONDS && 1 <= percent <= 100 &&
                           s.gate && (s.fault.faulted ==> s.clock >= s.fault.retry);
            if !allowed then t == s
            else
              && t.siren.on && t.siren.volume == percent && t.siren.applied != percent
              && t.siren.until == s.clock + seconds * 1_000_000
              && t.audio.queue == [] && t.talk.holder.None? && !t.talk.released && t.talk.session == s.talk.session
              && t.talk.lastSubmit == s.talk.lastSubmit && t.talk.sessionEnd == s.talk.sessionEnd
  {
    hide Accounted, WritesOk, Heard;
  }

  /** The microphone is muted in half duplex during a session and for 300 ms after it, and at no other time. */
  lemma MutedWhile(clock: nat, gate: bool, steps: seq<Step>)
    ensures var s := Run(Start(clock, gate), steps);
            && !TalkActive(s, true)
            && (TalkActive(s, false) <==>
                  s.talk.session || (s.talk.sessionEnd > 0 && s.clock < s.talk.sessionEnd + HALF_DUPLEX_TAIL_US))
  {
    RunKeeps(clock, gate, steps);
  }

  // ----- every session ends, and every accepted byte gets its session

  /** One locked section of the thread, its device calls answering first and second, then us of time. */
  datatype Move = Move(first: bool, second: bool, us: nat)

  function Turn(s: State, move: Move): State {
    Apply(Apply(s, ThreadStep(move.first, move.second)), Tick(move.us))
  }

  /** The thread left alone: nobody calls. */
  function Alone(s: State, moves: seq<Move>): State
    decreases |moves|
  {
    if moves == [] then s else Alone(Turn(s, moves[0]), moves[1..])
  }

  function Left(deadline: nat, clock: nat): nat {
    if deadline > clock then deadline - clock else 0
  }

  function PlaceRank(pc: Pc): nat {
    match pc
    case Top => 0
    case Settling => 1
    case Writing(_) => 1
    case _ => 2
  }

  /** A bound on the locked sections a session still needs: bytes to drain, siren time, deadman time. */
  function Rank(s: State): nat {
    3 * (|s.audio.queue| + (if s.siren.on then Left(s.siren.until, s.clock) else 0)
         + Left(s.talk.lastSubmit + DEADMAN_US + 1, s.clock)) + PlaceRank(s.pc)
  }

  /** A session ends for one of five reasons and no other: siren deadline, drained release, deadman, no output, third refused frame. */
  lemma EndsExactlyWhen(s: State, first: bool, second: bool)
    requires Inv(s) && s.talk.session
    ensures !Thread(s, first, second).talk.session <==>
            match s.pc
            case Top =>
              s.audio.queue == [] &&
              (if s.siren.on then s.clock >= s.siren.until
               else s.talk.released || s.clock - s.talk.lastSubmit > DEADMAN_US)
            case Opening(needed) => (needed && !first) || !second
            case Writing(_) => !first && s.fault.writeErrors == 2
            case _ => false
  {
    hide Accounted, WritesOk, Heard, Truncate, Take;
  }

  /** A section in a session drains bytes, or the clock drains the siren or the deadman ... */
  lemma TopRanks(s: State, move: Move)
    requires Inv(s) && s.pc.Top? && s.talk.session && move.us > 0 && Turn(s, move).talk.session
    ensures Rank(Turn(s, move)) < Rank(s)
  {
    hide Accounted, WritesOk, Heard, Truncate, Kept, SubmitReply;
    EndsExactlyWhen(s, move.first, move.second);
  }

  /** ... or leads to one that does. */
  lemma CallRanks(s: State, move: Move)
    requires Inv(s) && !s.pc.Top? && s.talk.session && move.us > 0 && Turn(s, move).talk.session
    ensures Rank(Turn(s, move)) < Rank(s)
  {
    hide Accounted, WritesOk, Heard, Truncate, Kept, SubmitReply;
    EndsExactlyWhen(s, move.first, move.second);
  }

  lemma TurnRanks(s: State, move: Move)
    requires Inv(s) && s.talk.session && move.us > 0 && Turn(s, move).talk.session
    ensures Rank(Turn(s, move)) < Rank(s)
  {
    hide Inv, Turn, Rank;
    if s.pc.Top? {
      TopRanks(s, move);
    } else {
      CallRanks(s, move);
    }
  }

  lemma TurnKeeps(s: State, move: Move)
    requires Inv(s)
    ensures Inv(Turn(s, move))
  {
    hide Inv, Apply;
    var step, tick := ThreadStep(move.first, move.second), Tick(move.us);
    StepKeeps(s, step);
    StepKeeps(Apply(s, step), tick);
  }

  /** Left alone while the clock advances, every session ends, whatever the devices answer. */
  lemma {:induction false} SessionEnds(s: State, moves: seq<Move>) returns (k: nat)
    requires Inv(s) && |moves| > Rank(s)
    requires forall i :: 0 <= i < |moves| ==> moves[i].us > 0
    ensures k <= |moves| && !Alone(s, moves[..k]).talk.session
    decreases |moves|
  {
    hide Inv, Rank, Turn;
    if !s.talk.session {
      k := 0;
    } else {
      var next, rest := Turn(s, moves[0]), moves[1..];
      TurnKeeps(s, moves[0]);
      if next.talk.session {
        TurnRanks(s, moves[0]);
        k := SessionEnds(next, rest);
        k := k + 1;
        assert moves[..k][1..] == rest[..k - 1];
      } else {
        k := 1;
        assert moves[..1][1..] == [];
      }
    }
  }

  /** How far the thread is from serving a queue outside a session. */
  function Distance(s: State): nat {
    match s.pc
    case Stopping(_, _) => 6
    case Top => if s.device.open then 5 else 2
    case Muting(_) => if s.device.open then 4 else 1
    case _ => 3
  }

  /** What is left of queue and siren outside a session: all of it, or nothing because the output is faulted. */
  ghost predicate Waits(s: State, t: State) {
    if t.audio.queue == [] && !t.siren.on then s.fault.faulted else t.audio == s.audio && t.siren.on == s.siren.on
  }

  lemma IdleNears(s: State, now: nat)
    requires (s.audio.queue != [] || s.siren.on) && !s.talk.session && s.gate && s.talk.sessionEnd <= now
    ensures var t := Idle(s, now);
            && Waits(s, t)
            && (t.audio.queue != [] || t.siren.on ==>
                  if s.device.open && now - s.talk.sessionEnd > IDLE_CLOSE_US then
                    t.pc.Closing? && !t.talk.session && t.fault == s.fault
                  else t.talk.session)
  {
    hide Take;
  }

  lemma TurnNears(s: State, move: Move)
    requires Inv(s) && !s.talk.session && (s.audio.queue != [] || s.siren.on)
    ensures var t := Turn(s, move);
            && Waits(s, t)
            && (t.audio.queue != [] || t.siren.on ==> t.talk.session || (Distance(t) < Distance(s) && t.fault == s.fault))
  {
    hide Accounted, WritesOk, Heard, Take, Idle, InSession;
    if s.pc.Top? {
      IdleNears(s, s.clock);
    } else if s.pc.Muting? {
      IdleNears(s.(hardware := SwitchedOff(s.hardware, move.first),
                   device := s.device.(mutePending := s.device.mutePending && !move.first)), s.pc.now);
    }
  }

  /**
   * Queued audio, or the siren, waits for at most seven locked sections: then its
   * session has started with all of it, or the output is faulted and it was dropped.
   */
  lemma AudioStarts(s: State, moves: seq<Move>) returns (k: nat)
    requires Inv(s) && (s.audio.queue != [] || s.siren.on) && |moves| > Distance(s)
    ensures k <= |moves| && k <= 7
    ensures var t := Alone(s, moves[..k]);
            Inv(t) && if t.audio.queue == [] && !t.siren.on then s.fault.faulted
                      else t.talk.session && t.audio == s.audio && t.siren.on == s.siren.on
  {
    hide Inv, Turn;
    k := StartsWithin(s, moves);
  }

  lemma {:induction false} StartsWithin(s: State, moves: seq<Move>) returns (k: nat)
    requires Inv(s) && (s.audio.queue != [] || s.siren.on) && |moves| > Distance(s)
    ensures k <= |moves| && k <= Distance(s) + 1
    ensures var t := Alone(s, moves[..k]);
            Inv(t) && if t.audio.queue == [] && !t.siren.on then s.fault.faulted
                      else t.talk.session && t.audio == s.audio && t.siren.on == s.siren.on
    decreases |moves|
  {
    hide Inv, Turn, Distance;
    if s.talk.session {
      k := 0;
    } else {
      var next, rest := Turn(s, moves[0]), moves[1..];
      TurnKeeps(s, moves[0]);
      TurnNears(s, moves[0]);
      if next.talk.session || (next.audio.queue == [] && !next.siren.on) {
        k := 1;
        assert moves[..1][1..] == [];
      } else {
        k := StartsWithin(next, rest);
        k := k + 1;
        assert moves[..k][1..] == rest[..k - 1];
      }
    }
  }

  // ----- and every queued byte is heard

  /** A section whose calls succeed loses nothing, and ends a talker's session only with nothing left to play. */
  lemma TurnPlays(s: State, move: Move)
    requires Inv(s) && s.talk.session && !s.siren.on && move.first && move.second
    ensures var t := Turn(s, move);
            && !t.siren.on && t.audio.taken + t.audio.queue == s.audio.taken + s.audio.queue
            && (t.talk.session || (t.audio.queue == [] && t.pc.Stopping?))
  {
    hide Accounted, WritesOk, Heard, Idle, InSession;
    if s.pc.Top? {
      SessionPlays(s);
    }
  }

  lemma SessionPlays(s: State)
    requires !s.siren.on
    ensures var t := InSession(s);
            && !t.siren.on && t.audio.taken + t.audio.queue == s.audio.taken + s.audio.queue
            && (t.talk.session == s.talk.session || (t.audio.queue == [] && t.pc.Stopping?))
            && (!t.talk.session && s.talk.session ==> t.audio.queue == [] && t.pc.Stopping?)
  {
  }

  /** Left alone with a device that works, a session plays all that is queued, in order, before it ends. */
  lemma {:induction false} AllHeard(s: State, moves: seq<Move>) returns (k: nat)
    requires Inv(s) && s.talk.session && !s.siren.on && |moves| > Rank(s)
    requires forall i :: 0 <= i < |moves| ==> moves[i].us > 0 && moves[i].first && moves[i].second
    ensures k <= |moves|
    ensures var t := Alone(s, moves[..k]); !t.talk.session && TalkCells(t.writes) == s.audio.taken + s.audio.queue
    decreases |moves|
  {
    hide Inv, Rank, Turn;
    var next, rest := Turn(s, moves[0]), moves[1..];
    TurnKeeps(s, moves[0]);
    TurnPlays(s, moves[0]);
    if next.talk.session {
      TurnRanks(s, moves[0]);
      k := AllHeard(next, rest);
      k := k + 1;
      assert moves[..k][1..] == rest[..k - 1];
    } else {
      k := 1;
      assert moves[..1][1..] == [];
      StoppedIsHeard(next);
    }
  }

  lemma StoppedIsHeard(s: State)
    requires Inv(s) && s.pc.Stopping? && s.audio.queue == []
    ensures TalkCells(s.writes) == s.audio.taken + s.audio.queue
  {
    assert TalkCells(s.writes) + [] == TalkCells(s.writes);
  }

  /** End to end: audio queued for an output that is not faulted is played, all of it and in order. */
  lemma QueuedIsHeard(s: State, moves: seq<Move>) returns (k: nat)
    requires Inv(s) && s.audio.queue != [] && !s.siren.on && !s.fault.faulted
    requires |moves| > 7 + 3 * (|s.audio.queue| + DEADMAN_US + 1) + 2
    requires forall i :: 0 <= i < |moves| ==> moves[i].us > 0 && moves[i].first && moves[i].second
    ensures k <= |moves| && TalkCells(Alone(s, moves[..k]).writes) == s.audio.taken + s.audio.queue
  {
    hide Inv, Alone;
    assert Distance(s) <= 6;
    var j := AudioStarts(s, moves);
    var t := Alone(s, moves[..j]);
    RankBound(t);
    k := AllHeard(t, moves[j..]);
    AloneConcat(s, moves[..j], moves[j..][..k]);
    k := j + k;
    assert moves[..k] == moves[..j] + moves[j..][..k - j];
  }

  lemma RankBound(s: State)
    requires Inv(s) && !s.siren.on
    ensures Rank(s) <= 3 * (|s.audio.queue| + DEADMAN_US + 1) + 2
  {
  }

  lemma {:induction false} AloneConcat(s: State, a: seq<Move>, b: seq<Move>)
    ensures Alone(s, a + b) == Alone(Alone(s, a), b)
    decreases |a|
  {
    if a == [] {
      assert a + b == b;
    } else {
      assert (a + b)[1..] == a[1..] + b;
      AloneConcat(Turn(s, a[0]), a[1..], b);
    }
  }
}
