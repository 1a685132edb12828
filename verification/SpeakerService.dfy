/**
 * The code behind the speaker's steps (speaker.c): the queue in a fixed buffer
 * and the fields of speaker_state, changed in place.  Every method is one locked
 * section and is proved to be the step of that name in Speaker; what the thread
 * carries across an unlock comes back as the device call it makes.
 */
module SpeakerService {
  import opened Bytes
  import opened Streams
  import opened Speaker

  const QUIET: byte := 0xd5

  /** Where the i-th queued byte lies. */
  function Slot(head: nat, i: nat): (slot: nat)
    ensures slot < QUEUE_BYTES
  {
    (head + i) % QUEUE_BYTES
  }

  lemma SlotApart(head: nat, i: nat, j: nat)
    requires i < j < i + QUEUE_BYTES
    ensures Slot(head, i) != Slot(head, j)
  {
  }

  lemma SlotShift(head: nat, n: nat, i: nat)
    ensures Slot(Slot(head, n), i) == Slot(head, n + i)
  {
  }

  /** queue, head and count. */
  class Ring {
    const data: array<byte>
    var head: nat
    var count: nat
    ghost var cells: seq<Cell>

    ghost predicate Valid()
      reads this, data
    {
      && data.Length == QUEUE_BYTES && head < QUEUE_BYTES && count == |cells| <= QUEUE_BYTES
      && forall i :: 0 <= i < count ==> data[Slot(head, i)] == cells[i].value
    }

    constructor ()
      ensures Valid() && fresh(data) && cells == []
    {
      data := new byte[QUEUE_BYTES];
      head, count, cells := 0, 0, [];
    }

    /** drop_oldest */
    method DropOldest(bytes: nat)
      requires Valid()
      modifies this
      ensures Valid() && cells == old(cells)[if bytes > |old(cells)| then |old(cells)| else bytes..]
    {
      var n := if bytes > count then count else bytes;
      forall i | 0 <= i ensures Slot(Slot(head, n), i) == Slot(head, n + i) {
        SlotShift(head, n, i);
      }
      hide Slot;
      head, count, cells := Slot(head, n), count - n, cells[n..];
    }

    method Truncate(keep: nat)
      requires Valid()
      modifies this
      ensures Valid() && cells == old(cells)[..if |old(cells)| > keep then keep else |old(cells)|]
    {
      if count > keep {
        count, cells := keep, cells[..keep];
      }
    }

    method Clear()
      requires Valid()
      modifies this
      ensures Valid() && cells == []
    {
      head, count, cells := 0, 0, [];
    }

    method Append(pcma: seq<byte>, ghost added: seq<Cell>)
      requires Valid() && |cells| + |pcma| <= QUEUE_BYTES
      requires |added| == |pcma| && forall i :: 0 <= i < |pcma| ==> added[i].value == pcma[i]
      modifies this, data
      ensures Valid() && cells == old(cells) + added
    {
      hide Slot;
      var i := 0;
      ghost var all := cells + added;
      while i < |pcma|
        invariant 0 <= i <= |pcma|
        invariant forall k :: 0 <= k < count + i ==> data[Slot(head, k)] == all[k].value
        modifies data
      {
        forall k | 0 <= k < count + i ensures Slot(head, k) != Slot(head, count + i) {
          SlotApart(head, k, count + i);
        }
        data[Slot(head, count + i)] := pcma[i];
        i := i + 1;
      }
      count, cells := count + |pcma|, all;
    }

    /** The oldest bytes, at most a frame of them, padded with silence. */
    method Take() returns (frame: array<byte>)
      requires Valid()
      modifies this
      ensures Valid() && fresh(frame)
      ensures var n := if |old(cells)| < FRAME_BYTES then |old(cells)| else FRAME_BYTES;
              cells == old(cells)[n..] && frame[..] == FrameBytes(old(cells)[..n])
    {
      frame := new byte[FRAME_BYTES];
      var n := if count < FRAME_BYTES then count else FRAME_BYTES;
      var i := 0;
      while i < n
        invariant 0 <= i <= n
        modifies frame
        invariant forall k :: 0 <= k < i ==> frame[k] == cells[k].value
      {
        frame[i] := data[Slot(head, i)];
        i := i + 1;
      }
      while i < FRAME_BYTES
        invariant n <= i <= FRAME_BYTES
        modifies frame
        invariant forall k :: 0 <= k < i ==> frame[k] == if k < n then cells[k].value else QUIET
      {
        frame[i] := QUIET;
        i := i + 1;
      }
      DropOldest(n);
    }
  }

  lemma DropDrop<T>(s: seq<T>, n: nat, m: nat)
    requires n <= |s| && m <= |s| - n
    ensures s[n..][m..] == s[n + m..]
  {
  }

  lemma EnqueueLeaves(a: Audio, http: bool, added: seq<Cell>, over: nat, more: nat)
    requires var total := |a.queue| + |added|;
             && over == (if total > QUEUE_BYTES then total - QUEUE_BYTES else 0)
             && more == (if !http && total - over > TRIM_ABOVE then total - over - TRIM_TO else 0)
    ensures over + more <= |a.queue + added| && Enqueue(a, http, added).queue == (a.queue + added)[over + more..]
  {
  }

  /** What a frame of these bytes sounds like on the wire to the driver. */
  function FrameBytes(cells: seq<Cell>): (bytes: seq<byte>)
    requires |cells| <= FRAME_BYTES
    ensures |bytes| == FRAME_BYTES
  {
    seq(FRAME_BYTES, i requires 0 <= i < FRAME_BYTES => if i < |cells| then cells[i].value else QUIET)
  }

  /** The device call, or the wait, that the thread leaves a locked section for. */
  datatype Call =
    | Wait(ms: nat)
    | SwitchOff
    | CloseOutput
    | OpenAndSwitchOn(needOpen: bool)
    | SetGain(gain: nat)
    | WriteFrame(bytes: seq<byte>)
    | StopOutput(close: bool, wasOpen: bool)

  /** Whether call is the one that the place pc stands for; the siren's own bytes come from its tone generator. */
  ghost predicate Asks(call: Call, pc: Pc) {
    match pc
    case Top => call == Wait(100)
    case Muting(_) => call == SwitchOff
    case Closing => call == CloseOutput
    case Opening(needed) => call == OpenAndSwitchOn(needed)
    case Settling => call == Wait(200)
    case Gain => call.SetGain?
    case Starved => call == Wait(40)
    case Writing(Talk(cells)) => |cells| <= FRAME_BYTES && call == WriteFrame(FrameBytes(cells))
    case Writing(Siren) => call.WriteFrame? && |call.bytes| == FRAME_BYTES
    case Writing(Quiet) => call == WriteFrame(FrameBytes([]))
    case Stopping(close, wasOpen) => call == StopOutput(close, wasOpen)
  }

  /** speaker_state. */
  class Service {
    const ring: Ring
    var gateReleased: bool
    var talk: Lease
    var siren: SirenState
    var fault: FaultState
    var device: Device
    ghost var pc: Pc
    ghost var audio: Audio
    ghost var hardware: Hardware
    ghost var writes: seq<Write>

    ghost predicate Valid()
      reads this, ring, ring.data
    {
      ring.Valid() && audio.queue == ring.cells
    }

    ghost function View(clock: nat): State
      reads this
    {
      State(clock, gateReleased, pc, audio, talk, siren, fault, device, hardware, writes)
    }

    constructor (gate: bool)
      ensures Valid() && fresh(ring) && fresh(ring.data)
      ensures forall clock :: View(clock) == Start(clock, gate)
    {
      ring := new Ring();
      gateReleased, talk, siren := gate, Lease(None, false, false, 0, 0), SirenState(false, 0, 0, 0);
      fault, device := FaultState(false, 0, 0, 0), Device(false, gate, 0);
      pc, audio, hardware, writes := Top, Audio([], [], [], []), Hardware(false, false, gate), [];
    }

    method TalkSubmit(now: nat, who: nat, source: nat, http: bool, pcma: seq<byte>) returns (reply: Reply)
      requires Valid()
      modifies this, ring, ring.data
      ensures Valid()
      ensures reply == SubmitReply(old(View(now)), Talker(who, source), http, |pcma|)
      ensures View(now) == Submit(old(View(now)), Talker(who, source), http, pcma)
    {
      if |pcma| == 0 || |pcma| > SUBMIT_MAX {
        return Invalid;
      }
      if !gateReleased {
        return Unavailable;
      }
      if fault.faulted && now < fault.retry {
        return Unavailable;
      }
      if siren.on {
        return Busy;
      }
      var talker := Talker(who, source);
      if talk.holder.Some? && talk.holder.value != talker {
        return Busy;
      }
      if http && ring.count + |pcma| > QUEUE_BYTES {
        return Busy;
      }
      talk := talk.(holder := Some(talker), released := false, lastSubmit := now);
      Append(pcma, http, talker);
      reply := Accepted;
    }

    /** Make room, copy the bytes in, and cut a backchannel that ran ahead. */
    method Append(pcma: seq<byte>, http: bool, talker: Talker)
      requires Valid() && |pcma| <= SUBMIT_MAX
      modifies this`audio, ring, ring.data
      ensures Valid()
      ensures audio == Enqueue(old(audio), http, Cells(pcma, |old(audio).accepted|, talker))
    {
      hide Slot, SubmitReply, Enqueue, Kept;
      ghost var queue, added := ring.cells, Cells(pcma, |audio.accepted|, talker);
      ghost var over := MakeRoom(|pcma|);
      ring.Append(pcma, added);
      assert ring.cells == (queue + added)[over..];
      ghost var more := Trim(http);
      DropDrop(queue + added, over, more);
      EnqueueLeaves(audio, http, added, over, more);
      audio := Enqueue(audio, http, added);
    }

    /** Drop what a submit of that size pushes out. */
    method MakeRoom(size: nat) returns (ghost over: nat)
      requires ring.Valid() && size <= QUEUE_BYTES
      modifies ring
      ensures ring.Valid() && over == (if |old(ring.cells)| + size > QUEUE_BYTES then |old(ring.cells)| + size - QUEUE_BYTES else 0)
      ensures over <= |old(ring.cells)| && ring.cells == old(ring.cells)[over..]
    {
      over := 0;
      if ring.count + size > QUEUE_BYTES {
        over := ring.count + size - QUEUE_BYTES;
        ring.DropOldest(ring.count + size - QUEUE_BYTES);
      }
    }

    method Trim(http: bool) returns (ghost more: nat)
      requires ring.Valid()
      modifies ring
      ensures ring.Valid() && more == (if !http && |old(ring.cells)| > TRIM_ABOVE then |old(ring.cells)| - TRIM_TO else 0)
      ensures more <= |old(ring.cells)| && ring.cells == old(ring.cells)[more..]
    {
      more := 0;
      if !http && ring.count > TRIM_ABOVE {
        more := ring.count - TRIM_TO;
        ring.DropOldest(ring.count - TRIM_TO);
      }
    }

    method TalkRelease(now: nat, who: nat)
      requires Valid()
      modifies this, ring
      ensures Valid() && View(now) == Release(old(View(now)), who)
    {
      if talk.holder.Some? && talk.holder.value.owner == who {
        talk := talk.(released := true);
        ring.Truncate(RELEASE_TAIL);
        audio := Truncate(audio, RELEASE_TAIL);
      }
    }

    method SirenStart(now: nat, sound: nat, seconds: nat, percent: nat) returns (ok: bool)
      requires Valid()
      modifies this, ring
      ensures Valid() && ok == SirenAllowed(old(View(now)), sound, seconds, percent)
      ensures View(now) == Speaker.SirenStart(old(View(now)), sound, seconds, percent)
    {
      if sound >= SIREN_SOUNDS || seconds == 0 || seconds > SIREN_MAX_SECONDS || percent < 1 || percent > 100 {
        return false;
      }
      if !gateReleased || (fault.faulted && now < fault.retry) {
        return false;
      }
      FlushQueue();
      siren := SirenState(true, percent, 0, now + seconds * 1_000_000);
      ok := true;
    }

    method SirenStop(now: nat)
      requires Valid()
      modifies this
      ensures Valid() && View(now) == Speaker.SirenStop(old(View(now)))
    {
      if siren.on {
        siren, talk := siren.(on := false), talk.(released := true);
      }
    }

    method TalkIsActive(now: nat, fullDuplex: bool) returns (active: bool)
      requires Valid()
      ensures active == TalkActive(View(now), fullDuplex)
    {
      active := !fullDuplex && (talk.session || (talk.sessionEnd != 0 && now - talk.sessionEnd < HALF_DUPLEX_TAIL_US));
    }

    method FlushQueue()
      requires Valid()
      modifies this`talk, this`audio, ring
      ensures Valid() && audio == Truncate(old(audio), 0) && talk == old(talk).(holder := None, released := false)
    {
      ring.Clear();
      audio := Truncate(audio, 0);
      talk := talk.(holder := None, released := false);
    }

    method EndSession(now: nat, close: bool) returns (call: Call)
      requires Valid()
      modifies this, ring
      ensures Valid() && View(now) == Speaker.EndSession(old(View(now)), close) && Asks(call, pc)
    {
      hide Truncate, Slot;
      FlushQueue();
      talk, siren := talk.(session := false, sessionEnd := now), siren.(on := false);
      var wasOpen := device.open;
      if close {
        device := device.(open := false);
      }
      pc := Stopping(close, wasOpen);
      call := StopOutput(close, wasOpen);
    }

    /** stop_output after its device calls: the amplifier answered muted. */
    method AfterStop(now: nat, muted: bool)
      requires Valid() && pc.Stopping?
      modifies this
      ensures Valid() && View(now) == Speaker.AfterStop(old(View(now)), muted)
    {
      hardware := SwitchedOff(hardware, muted).(open := hardware.open && !(pc.close && pc.wasOpen));
      if !muted {
        device := device.(mutePending := true, muteAttempts := 0);
      }
      pc := Top;
    }

    method Fault(now: nat) returns (call: Call)
      requires Valid()
      modifies this, ring
      ensures Valid() && View(now) == Speaker.Fault(old(View(now))) && Asks(call, pc)
    {
      var backoff := if fault.backoff != 0 then if fault.backoff >= 30 then 60 else fault.backoff * 2 else 5;
      fault := FaultState(true, now + backoff * RETRY_UNIT_US, backoff, 0);
      call := EndSession(now, true);
    }

    /** The top of the thread's loop. */
    method Iterate(now: nat, tone: seq<byte>) returns (call: Call)
      requires Valid() && pc.Top? && |tone| == FRAME_BYTES
      modifies this, ring
      ensures Valid() && View(now) == Speaker.Iterate(old(View(now))) && Asks(call, pc)
    {
      if !talk.session {
        if device.mutePending && device.muteAttempts < MUTE_ATTEMPTS {
          device := device.(muteAttempts := device.muteAttempts + 1);
          pc := Muting(now);
          return SwitchOff;
        }
        call := Idle(now, now);
      } else {
        call := InSession(now, tone);
      }
    }

    method AfterMute(now: nat, read: nat, muted: bool) returns (call: Call)
      requires Valid() && pc == Muting(read)
      modifies this, ring
      ensures Valid() && View(now) == Speaker.AfterMute(old(View(now)), muted) && Asks(call, pc)
    {
      hardware := SwitchedOff(hardware, muted);
      if muted {
        device := device.(mutePending := false);
      }
      call := Idle(now, read);
    }

    method Refuse(now: nat)
      requires Valid()
      modifies this`talk, this`audio, this`siren, ring
      ensures Valid() && View(now) == Speaker.Refuse(old(View(now)))
    {
      if ring.count > 0 && (fault.faulted || !gateReleased) {
        FlushQueue();
      }
      if siren.on && (fault.faulted || !gateReleased) {
        siren := siren.(on := false);
      }
    }

    /** No session; read is the clock at the top of the loop. */
    method Idle(now: nat, read: nat) returns (call: Call)
      requires Valid()
      modifies this, ring
      ensures Valid() && View(now) == Speaker.Idle(old(View(now)), read) && Asks(call, pc)
    {
      hide Speaker.Refuse, Speaker.WaitOrStart;
      if device.open && read - talk.sessionEnd > IDLE_CLOSE_US {
        device, pc := device.(open := false), Closing;
        return CloseOutput;
      }
      if fault.faulted && read >= fault.retry {
        fault := fault.(faulted := false);
      }
      Refuse(now);
      call := WaitOrStart(now);
    }

    method WaitOrStart(now: nat) returns (call: Call)
      requires Valid()
      modifies this`talk, this`siren, this`pc
      ensures Valid() && View(now) == Speaker.WaitOrStart(old(View(now))) && Asks(call, pc)
    {
      if ring.count == 0 && !siren.on {
        pc := Top;
        return Wait(100);
      }
      talk := talk.(session := true);
      var needOpen := !device.open;
      if siren.on && needOpen {
        siren := siren.(applied := siren.volume);
      }
      pc := Opening(needOpen);
      call := OpenAndSwitchOn(needOpen);
    }

    method AfterOpen(now: nat, needOpen: bool, ready: bool, switched: bool) returns (call: Call)
      requires Valid() && pc == Opening(needOpen)
      modifies this, ring
      ensures Valid() && View(now) == Speaker.AfterOpen(old(View(now)), ready, switched) && Asks(call, pc)
    {
      if needOpen && !ready {
        call := Fault(now);
      } else {
        device, hardware := device.(open := true), Hardware(true, switched, true);
        if switched {
          pc := Settling;
          call := Wait(200);
        } else {
          call := Fault(now);
        }
      }
    }

    method InSession(now: nat, tone: seq<byte>) returns (call: Call)
      requires Valid() && |tone| == FRAME_BYTES
      modifies this, ring
      ensures Valid() && View(now) == Speaker.InSession(old(View(now))) && Asks(call, pc)
    {
      if siren.on && now >= siren.until {
        siren, talk := siren.(on := false), talk.(released := true);
      }
      var finished := !siren.on && ring.count == 0 && (talk.released || now - talk.lastSubmit > DEADMAN_US);
      if finished {
        call := EndSession(now, false);
      } else {
        call := NextFrame(now, tone);
      }
    }

    method NextFrame(now: nat, tone: seq<byte>) returns (call: Call)
      requires Valid() && |tone| == FRAME_BYTES
      modifies this, ring
      ensures Valid() && Asks(call, pc) && View(now) == Speaker.NextFrame(old(View(now)))
    {
      if siren.on && siren.applied != siren.volume {
        siren := siren.(applied := siren.volume);
        pc := Gain;
        call := SetGain(60 * siren.volume / 100);
      } else if siren.on {
        pc := Writing(Siren);
        call := WriteFrame(tone);
      } else if ring.count == 0 {
        pc := Starved;
        call := Wait(40);
      } else {
        ghost var after := Take(audio, FRAME_BYTES);
        ghost var next := after.taken[|audio.taken|..];
        var frame := ring.Take();
        audio, pc := after, Writing(Talk(next));
        call := WriteFrame(frame[..]);
      }
    }

    method AfterGain(now: nat, tone: seq<byte>) returns (call: Call)
      requires Valid() && pc.Gain? && |tone| == FRAME_BYTES
      modifies this`pc
      ensures Valid() && View(now) == Thread(old(View(now)), true, true) && Asks(call, pc)
    {
      pc, call := Writing(Siren), WriteFrame(tone);
    }

    /** An underrun gave the talker 40 ms: keep the driver fed if nothing came. */
    method AfterStarved(now: nat) returns (call: Call)
      requires Valid() && pc.Starved?
      modifies this`pc
      ensures Valid() && View(now) == Thread(old(View(now)), true, true)
      ensures !pc.Top? ==> Asks(call, pc)
    {
      if ring.count > 0 {
        pc, call := Top, Wait(0);
      } else {
        pc, call := Writing(Quiet), WriteFrame(FrameBytes([]));
      }
    }

    method AfterWrite(now: nat, written: bool) returns (call: Call)
      requires Valid() && pc.Writing?
      modifies this, ring
      ensures Valid() && View(now) == Speaker.AfterWrite(old(View(now)), written)
      ensures !pc.Top? ==> Asks(call, pc)
    {
      writes := writes + [Write(pc.frame, talk.session, device.open, hardware.open, hardware.amplified)];
      pc, call := Top, Wait(0);
      if !written {
        if fault.writeErrors + 1 >= 3 {
          call := Fault(now);
        } else {
          fault := fault.(writeErrors := fault.writeErrors + 1);
        }
      } else {
        fault := fault.(writeErrors := 0, backoff := 0);
      }
    }
  }
}
