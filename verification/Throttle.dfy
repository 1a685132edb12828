/**
 * The failed-login throttle (authlimit.c): 32 slots that stand in for a map with
 * one entry per peer.  A peer is refused once it has failed ten times within a
 * minute of its first failure, until that minute ends.
 */
module Throttle {
  const SLOTS: nat := 32
  const FAILURES: nat := 10
  const WINDOW_US: nat := 60_000_000

  const TWO64: nat := 0x1_0000_0000_0000_0000

  type Time = t: nat | t < 0x1_0000_0000_0000_0000

  /** The unsigned difference, which wraps when the time lies before since. */
  function Elapsed(now: Time, since: Time): (us: nat)
    ensures since <= now ==> us == now - since
    ensures now < since ==> us == TWO64 - (since - now)
  {
    (now - since) % TWO64
  }

  datatype Slot = Free | Used(peer: string, since: Time, failures: nat)

  /** A slot whose minute is over is cleared when it is passed. */
  function Swept(s: Slot, now: Time): Slot {
    if s.Used? && Elapsed(now, s.since) >= WINDOW_US then Free else s
  }

  predicate Names(s: Slot, peer: string) {
    s.Used? && s.peer == peer
  }

  /** The first slot that holds a live window of peer, or |slots|. */
  function Position(slots: seq<Slot>, peer: string, now: Time): (p: nat)
    ensures p <= |slots|
    ensures p < |slots| ==> Names(Swept(slots[p], now), peer)
    ensures forall k :: 0 <= k < p ==> !Names(Swept(slots[k], now), peer)
  {
    if slots == [] || Names(Swept(slots[0], now), peer) then 0 else 1 + Position(slots[1..], peer, now)
  }

  /** The slots once the first n have been passed. */
  function Passed(slots: seq<Slot>, n: nat, now: Time): (t: seq<Slot>)
    ensures |t| == |slots|
  {
    seq(|slots|, k requires 0 <= k < |slots| => if k < n then Swept(slots[k], now) else slots[k])
  }

  /** The search clears what it passes, and stops where it finds the peer. */
  function Searched(slots: seq<Slot>, peer: string, now: Time): (t: seq<Slot>)
    ensures |t| == |slots|
  {
    Passed(slots, Position(slots, peer, now) + 1, now)
  }

  /** The slot a new peer gets: a free one, or else the oldest window. */
  function Victim(t: seq<Slot>): (v: nat)
    requires t != []
    ensures v < |t|
    ensures t[v].Used? ==> forall k :: 0 <= k < |t| ==> t[k].Used? && t[v].since <= t[k].since
  {
    var n := |t| - 1;
    if n == 0 then 0
    else
      var v := Victim(t[..n]);
      if t[n].Free? || (t[v].Used? && t[n].since < t[v].since) then n else v
  }

  predicate Blocked(slots: seq<Slot>, peer: string, now: Time) {
    var p := Position(slots, peer, now);
    p < |slots| && slots[p].failures >= FAILURES
  }

  /** The slots after a login of peer succeeded or failed. */
  function Result(slots: seq<Slot>, peer: string, now: Time, ok: bool): seq<Slot>
    requires slots != []
  {
    var p, t := Position(slots, peer, now), Searched(slots, peer, now);
    if p < |slots| then
      if t[p].failures >= FAILURES then t
      else t[p := if ok then Free else t[p].(failures := t[p].failures + 1)]
    else if ok then t
    else t[Victim(t) := Used(peer, now, 1)]
  }

  // ----- the unbounded map

  datatype Window = Window(since: Time, failures: nat)

  type Peers = map<string, Window>

  predicate Live(m: Peers, peer: string, now: Time) {
    peer in m && now - m[peer].since < WINDOW_US
  }

  predicate MapBlocked(m: Peers, peer: string, now: Time) {
    Live(m, peer, now) && m[peer].failures >= FAILURES
  }

  function MapResult(m: Peers, peer: string, now: Time, ok: bool): Peers {
    if Live(m, peer, now) then
      if m[peer].failures >= FAILURES then m
      else if ok then m - {peer}
      else m[peer := Window(m[peer].since, m[peer].failures + 1)]
    else if ok then m
    else m[peer := Window(now, 1)]
  }

  ghost predicate NoTwice(slots: seq<Slot>) {
    forall i, j :: 0 <= i < j < |slots| && slots[i].Used? && slots[j].Used? ==> slots[i].peer != slots[j].peer
  }

  /** No peer twice, nothing from the future. */
  ghost predicate Valid(slots: seq<Slot>, now: Time) {
    && NoTwice(slots)
    && (forall i :: 0 <= i < |slots| && slots[i].Used? ==> slots[i].since <= now)
  }

  ghost predicate Holds(slots: seq<Slot>, peer: string, w: Window) {
    Used(peer, w.since, w.failures) in slots
  }

  /** The table and the map hold the same live windows. */
  ghost predicate Same(slots: seq<Slot>, m: Peers, now: Time) {
    forall peer, w: Window :: now - w.since < WINDOW_US ==> (Holds(slots, peer, w) <==> peer in m && m[peer] == w)
  }

  lemma PositionLive(slots: seq<Slot>, m: Peers, peer: string, now: Time)
    requires Valid(slots, now) && Same(slots, m, now)
    ensures var p := Position(slots, peer, now);
            && (p < |slots| <==> Live(m, peer, now))
            && (p < |slots| ==> slots[p] == Used(peer, m[peer].since, m[peer].failures))
  {
    var p := Position(slots, peer, now);
    if p < |slots| {
      assert Holds(slots, peer, Window(slots[p].since, slots[p].failures));
    }
    if Live(m, peer, now) {
      assert Holds(slots, peer, m[peer]);
    }
  }

  /** The table answers as the map does. */
  lemma AnswersAgree(slots: seq<Slot>, m: Peers, peer: string, now: Time)
    requires Valid(slots, now) && Same(slots, m, now)
    ensures Blocked(slots, peer, now) <==> MapBlocked(m, peer, now)
  {
    PositionLive(slots, m, peer, now);
  }

  lemma SearchedHolds(slots: seq<Slot>, peer: string, now: Time)
    requires Valid(slots, now)
    ensures Valid(Searched(slots, peer, now), now)
    ensures forall other, w: Window :: now - w.since < WINDOW_US ==>
              (Holds(Searched(slots, peer, now), other, w) <==> Holds(slots, other, w))
    ensures var p, t := Position(slots, peer, now), Searched(slots, peer, now);
            if p < |slots| then t[p] == slots[p] else forall k :: 0 <= k < |t| ==> !Names(t[k], peer)
  {
    var t := Searched(slots, peer, now);
    forall other, w: Window | now - w.since < WINDOW_US
      ensures Holds(t, other, w) <==> Holds(slots, other, w)
    {
      var u := Used(other, w.since, w.failures);
      if Holds(slots, other, w) {
        var k :| 0 <= k < |slots| && slots[k] == u;
        assert t[k] == u;
      }
    }
  }

  /** Who loses a live window to make room: only a failure of a new peer against 32 live windows takes one. */
  function Evicted(slots: seq<Slot>, peer: string, now: Time, ok: bool): set<string>
    requires slots != []
  {
    var t := Searched(slots, peer, now);
    var v := t[Victim(t)];
    if !ok && Position(slots, peer, now) == |slots| && v.Used? then {v.peer} else {}
  }

  /** A forced eviction takes a window that ends no later than any other, and all 32 are live. */
  lemma EvictsSoonest(slots: seq<Slot>, peer: string, now: Time, gone: string)
    requires slots != [] && gone in Evicted(slots, peer, now, false)
    ensures forall k :: 0 <= k < |slots| ==> slots[k].Used? && now - slots[k].since < WINDOW_US && slots[k].peer != peer
    ensures exists v :: 0 <= v < |slots| && Names(slots[v], gone) &&
                        forall k :: 0 <= k < |slots| ==> slots[v].since + WINDOW_US <= slots[k].since + WINDOW_US
  {
    var t := Searched(slots, peer, now);
    assert forall k :: 0 <= k < |t| ==> t[k] == Swept(slots[k], now) && t[k].Used?;
    assert Names(slots[Victim(t)], gone);
  }

  /** Rewriting one slot changes what is held about the peers it names, and nothing else. */
  lemma RewriteHolds(t: seq<Slot>, i: nat, s: Slot, now: Time)
    requires i < |t| && Valid(t, now)
    requires s.Used? ==> s.since <= now && forall k :: 0 <= k < |t| && k != i ==> !Names(t[k], s.peer)
    ensures Valid(t[i := s], now)
    ensures forall other, w: Window :: Holds(t[i := s], other, w) <==>
              s == Used(other, w.since, w.failures) ||
              (Holds(t, other, w) && t[i] != Used(other, w.since, w.failures))
  {
    var n := t[i := s];
    forall other, w: Window
      ensures Holds(n, other, w) <==>
              s == Used(other, w.since, w.failures) ||
              (Holds(t, other, w) && t[i] != Used(other, w.since, w.failures))
    {
      var u := Used(other, w.since, w.failures);
      if Holds(t, other, w) && t[i] != u {
        var k :| 0 <= k < |t| && t[k] == u;
        assert n[k] == u;
      }
      if s == u {
        assert n[i] == u;
      }
    }
  }

  lemma CountAgrees(t: seq<Slot>, m: Peers, p: nat, now: Time, ok: bool)
    requires Valid(t, now) && Same(t, m, now) && p < |t| && t[p].Used? && t[p].failures < FAILURES
    requires Live(m, t[p].peer, now) && t[p] == Used(t[p].peer, m[t[p].peer].since, m[t[p].peer].failures)
    ensures var n := t[p := if ok then Free else t[p].(failures := t[p].failures + 1)];
            Valid(n, now) && Same(n, MapResult(m, t[p].peer, now, ok), now)
  {
    hide Holds;
    RewriteHolds(t, p, if ok then Free else t[p].(failures := t[p].failures + 1), now);
    assert forall k :: 0 <= k < |t| && k != p && t[k].Used? ==> t[k].peer != t[p].peer;
  }

  /** After the search the table still agrees with the map. */
  lemma SearchedSame(slots: seq<Slot>, m: Peers, peer: string, now: Time)
    requires Valid(slots, now) && Same(slots, m, now)
    ensures Valid(Searched(slots, peer, now), now) && Same(Searched(slots, peer, now), m, now)
  {
    SearchedHolds(slots, peer, now);
    hide Searched, Position, Holds;
  }

  lemma FoundAgrees(slots: seq<Slot>, m: Peers, peer: string, now: Time, ok: bool)
    requires Valid(slots, now) && Same(slots, m, now) && Position(slots, peer, now) < |slots|
    ensures Valid(Result(slots, peer, now, ok), now)
    ensures Same(Result(slots, peer, now, ok), MapResult(m, peer, now, ok), now)
  {
    hide Searched, Position, Holds, Valid, Same;
    var p, t := Position(slots, peer, now), Searched(slots, peer, now);
    PositionLive(slots, m, peer, now);
    SearchedHolds(slots, peer, now);
    SearchedSame(slots, m, peer, now);
    if t[p].failures < FAILURES {
      CountAgrees(t, m, p, now, ok);
    }
  }

  /** A peer has one window at most. */
  lemma OneHeld(t: seq<Slot>, v: nat, other: string, w: Window, now: Time)
    requires Valid(t, now) && v < |t| && Names(t[v], other) && Holds(t, other, w)
    ensures t[v] == Used(other, w.since, w.failures)
  {
  }

  /** A new peer takes over one slot, and so the map's window of whoever had it. */
  lemma TakeSlot(t: seq<Slot>, m: Peers, v: nat, peer: string, now: Time)
    requires v < |t| && Valid(t, now) && Same(t, m, now) && !Live(m, peer, now)
    requires forall k :: 0 <= k < |t| ==> !Names(t[k], peer)
    ensures Valid(t[v := Used(peer, now, 1)], now)
    ensures var gone := if t[v].Used? then {t[v].peer} else {};
            Same(t[v := Used(peer, now, 1)], MapResult(m - gone, peer, now, false), now)
  {
    var n, gone := t[v := Used(peer, now, 1)], if t[v].Used? then {t[v].peer} else {};
    RewriteHolds(t, v, Used(peer, now, 1), now);
    hide Valid, Holds;
    var after := (m - gone)[peer := Window(now, 1)];
    assert MapResult(m - gone, peer, now, false) == after;
    forall other, w: Window | now - w.since < WINDOW_US
      ensures Holds(n, other, w) <==> other in after && after[other] == w
    {
      assert Holds(t, other, w) <==> other in m && m[other] == w;
      if Holds(t, other, w) && Names(t[v], other) {
        OneHeld(t, v, other, w, now);
      }
      if other == peer && Holds(t, other, w) {
        HeldIsNamed(t, other, w);
        assert false;
      }
    }
  }

  lemma HeldIsNamed(t: seq<Slot>, other: string, w: Window)
    requires Holds(t, other, w)
    ensures exists k :: 0 <= k < |t| && Names(t[k], other)
  {
  }

  lemma NewAgrees(slots: seq<Slot>, m: Peers, peer: string, now: Time)
    requires slots != [] && Valid(slots, now) && Same(slots, m, now) && Position(slots, peer, now) == |slots|
    ensures Valid(Result(slots, peer, now, false), now)
    ensures Same(Result(slots, peer, now, false), MapResult(m - Evicted(slots, peer, now, false), peer, now, false), now)
  {
    hide Searched, Position, Holds, Valid, Same, MapResult;
    var t := Searched(slots, peer, now);
    PositionLive(slots, m, peer, now);
    SearchedHolds(slots, peer, now);
    SearchedSame(slots, m, peer, now);
    TakeSlot(t, m, Victim(t), peer, now);
  }

  /** Whatever happens, the table holds what the map holds once it too lets go of the evicted. */
  lemma ResultAgrees(slots: seq<Slot>, m: Peers, peer: string, now: Time, ok: bool)
    requires slots != [] && Valid(slots, now) && Same(slots, m, now)
    ensures Valid(Result(slots, peer, now, ok), now)
    ensures Same(Result(slots, peer, now, ok), MapResult(m - Evicted(slots, peer, now, ok), peer, now, ok), now)
  {
    assert m - {} == m;
    if Position(slots, peer, now) < |slots| {
      FoundAgrees(slots, m, peer, now, ok);
    } else if ok {
      PositionLive(slots, m, peer, now);
      SearchedHolds(slots, peer, now);
    } else {
      NewAgrees(slots, m, peer, now);
    }
  }

  // ----- every run

  datatype Call = Ask(peer: string, now: Time) | Login(peer: string, now: Time, ok: bool)

  function Empty(): seq<Slot> {
    seq(SLOTS, _ => Free)
  }

  function Step(slots: seq<Slot>, call: Call): (t: seq<Slot>)
    requires slots != []
    ensures |t| == |slots|
  {
    match call
    case Ask(peer, now) => Searched(slots, peer, now)
    case Login(peer, now, ok) => Result(slots, peer, now, ok)
  }

  function After(calls: seq<Call>): (slots: seq<Slot>)
    ensures |slots| == SLOTS
    decreases |calls|
  {
    if calls == [] then Empty() else Step(After(calls[..|calls| - 1]), calls[|calls| - 1])
  }

  function StepEvicted(slots: seq<Slot>, call: Call): set<string>
    requires slots != []
  {
    if call.Login? then Evicted(slots, call.peer, call.now, call.ok) else {}
  }

  /** The unbounded map; forgetful, it lets go of a peer whenever the table is forced to. */
  function MapAfter(calls: seq<Call>, forgetful: bool): Peers
    decreases |calls|
  {
    if calls == [] then map[]
    else
      var before, call := calls[..|calls| - 1], calls[|calls| - 1];
      var m := MapAfter(before, forgetful) - (if forgetful then StepEvicted(After(before), call) else {});
      if call.Login? then MapResult(m, call.peer, call.now, call.ok) else m
  }

  /** Every creation found a slot that was free or whose minute was over. */
  ghost predicate NeverForced(calls: seq<Call>) {
    forall n {:trigger calls[n]} :: 0 <= n < |calls| ==> StepEvicted(After(calls[..n]), calls[n]) == {}
  }

  ghost predicate Forward(calls: seq<Call>) {
    forall i, j :: 0 <= i < j < |calls| ==> calls[i].now <= calls[j].now
  }

  lemma {:induction false} RunAgrees(calls: seq<Call>, now: Time)
    requires Forward(calls) && (calls != [] ==> calls[|calls| - 1].now <= now)
    ensures Valid(After(calls), now) && Same(After(calls), MapAfter(calls, true), now)
    decreases |calls|
  {
    if calls != [] {
      hide Step, MapResult, Same, Valid, StepEvicted;
      var before, call := calls[..|calls| - 1], calls[|calls| - 1];
      assert forall i :: 0 <= i < |before| ==> before[i] == calls[i];
      assert before != [] ==> calls[|calls| - 2].now <= calls[|calls| - 1].now;
      RunAgrees(before, call.now);
      StepAgrees(After(before), MapAfter(before, true), call, now);
    }
  }

  lemma StepAgrees(slots: seq<Slot>, m: Peers, call: Call, now: Time)
    requires slots != [] && Valid(slots, call.now) && Same(slots, m, call.now) && call.now <= now
    ensures var left := m - StepEvicted(slots, call);
            var after := if call.Login? then MapResult(left, call.peer, call.now, call.ok) else left;
            Valid(Step(slots, call), now) && Same(Step(slots, call), after, now)
  {
    hide Searched, Result, MapResult, Evicted, Holds;
    assert m - {} == m;
    match call
    case Ask(peer, at) => SearchedHolds(slots, peer, at);
    case Login(peer, at, ok) => ResultAgrees(slots, m, peer, at, ok);
  }

  lemma {:induction false} ForgetsNothing(calls: seq<Call>)
    requires NeverForced(calls)
    ensures MapAfter(calls, true) == MapAfter(calls, false)
    decreases |calls|
  {
    if calls != [] {
      var before := calls[..|calls| - 1];
      forall n {:trigger before[n]} | 0 <= n < |before| ensures StepEvicted(After(before[..n]), before[n]) == {} {
        assert before[..n] == calls[..n] && before[n] == calls[n];
      }
      ForgetsNothing(before);
      assert calls[..|calls| - 1] == before;
      assert StepEvicted(After(calls[..|calls| - 1]), calls[|calls| - 1]) == {};
    }
  }

  /**
   * In every run with a clock that does not step back, no peer has two slots,
   * and as long as no eviction was forced a peer is blocked exactly when the
   * unbounded map blocks it.
   */
  lemma BlocksExactly(calls: seq<Call>, peer: string, now: Time)
    requires Forward(calls) && (calls != [] ==> calls[|calls| - 1].now <= now)
    ensures forall i, j :: 0 <= i < j < SLOTS && After(calls)[i].Used? && After(calls)[j].Used? ==>
              After(calls)[i].peer != After(calls)[j].peer
    ensures Blocked(After(calls), peer, now) <==> MapBlocked(MapAfter(calls, true), peer, now)
    ensures NeverForced(calls) ==> (Blocked(After(calls), peer, now) <==> MapBlocked(MapAfter(calls, false), peer, now))
  {
    RunAgrees(calls, now);
    AnswersAgree(After(calls), MapAfter(calls, true), peer, now);
    if NeverForced(calls) {
      ForgetsNothing(calls);
    }
  }

  // ----- how long a refused peer stays refused

  /** The call takes the window at p for over, or gives its slot to a new peer. */
  predicate Drops(slots: seq<Slot>, call: Call, p: nat)
    requires slots != []
  {
    && p < |slots| && slots[p].Used?
    && ((p <= Position(slots, call.peer, call.now) && Elapsed(call.now, slots[p].since) >= WINDOW_US) ||
        slots[p].peer in StepEvicted(slots, call))
  }

  lemma NamedOnce(slots: seq<Slot>, other: string, now: Time, p: nat)
    requires NoTwice(slots) && p < |slots| && Names(slots[p], other)
    ensures Position(slots, other, now) == if Elapsed(now, slots[p].since) < WINDOW_US then p else |slots|
  {
    var q := Position(slots, other, now);
    assert q < |slots| ==> Names(slots[q], other);
    assert forall k :: 0 <= k < |slots| && Names(slots[k], other) ==> k == p;
  }

  lemma NobodyBlocked(slots: seq<Slot>, other: string, now: Time)
    requires forall k :: 0 <= k < |slots| && Names(slots[k], other) ==> slots[k].failures < FAILURES
    ensures !Blocked(slots, other, now)
  {
    var q := Position(slots, other, now);
    assert q < |slots| ==> Names(slots[q], other);
  }

  /** A refusal lasts while the window does, whenever it is asked about. */
  lemma BlockedWhile(slots: seq<Slot>, other: string, now: Time, later: Time)
    requires NoTwice(slots) && Blocked(slots, other, now)
    ensures Blocked(slots, other, later) <==> Elapsed(later, slots[Position(slots, other, now)].since) < WINDOW_US
  {
    NamedOnce(slots, other, later, Position(slots, other, now));
  }

  lemma SearchedNames(slots: seq<Slot>, peer: string, at: Time)
    requires NoTwice(slots)
    ensures NoTwice(Searched(slots, peer, at))
    ensures Position(slots, peer, at) == |slots| ==> forall k :: 0 <= k < |slots| ==> !Names(Searched(slots, peer, at)[k], peer)
  {
  }

  /** Whatever the order of call times, no peer has two slots. */
  lemma StepNoTwice(slots: seq<Slot>, call: Call)
    requires slots != [] && NoTwice(slots)
    ensures NoTwice(Step(slots, call))
  {
    SearchedNames(slots, call.peer, call.now);
    hide Searched, Position;
  }

  /** A slot that blocks its peer is left as it is unless the call drops it; then its peer has ten failures nowhere. */
  lemma SlotFate(slots: seq<Slot>, call: Call, p: nat)
    requires slots != [] && NoTwice(slots) && p < |slots| && slots[p].Used? && slots[p].failures >= FAILURES
    ensures var t := Step(slots, call);
            if !Drops(slots, call, p) then t[p] == slots[p]
            else forall k :: 0 <= k < |t| && Names(t[k], slots[p].peer) ==> t[k].failures < FAILURES
  {
    var q, t := Position(slots, call.peer, call.now), Searched(slots, call.peer, call.now);
    assert t[p] == if p <= q then Swept(slots[p], call.now) else slots[p];
    assert q < |slots| ==> t[q] == slots[q];
    assert forall k :: 0 <= k < |t| && t[k].Used? ==> t[k] == slots[k];
    SearchedNames(slots, call.peer, call.now);
    hide Searched, Position;
  }

  /**
   * A refused peer stays refused through a call, of whoever and whenever, if and
   * only if the call neither takes its window for over nor evicts it.
   */
  lemma StaysBlockedIff(slots: seq<Slot>, call: Call, other: string, now: Time)
    requires slots != [] && NoTwice(slots) && Blocked(slots, other, now)
    ensures Blocked(Step(slots, call), other, now) <==> !Drops(slots, call, Position(slots, other, now))
    ensures !Drops(slots, call, Position(slots, other, now)) ==>
              Position(Step(slots, call), other, now) == Position(slots, other, now)
  {
    var p := Position(slots, other, now);
    assert Names(slots[p], other);
    SlotFate(slots, call, p);
    StepNoTwice(slots, call);
    if Drops(slots, call, p) {
      NobodyBlocked(Step(slots, call), other, now);
    } else {
      NamedOnce(Step(slots, call), other, now, p);
    }
  }

  /** Calls whose times lie between the window's start and now never take it for over. */
  lemma DropsInOrder(slots: seq<Slot>, call: Call, other: string, now: Time)
    requires slots != [] && Blocked(slots, other, now)
    requires var since := slots[Position(slots, other, now)].since; since <= call.now <= now
    ensures Drops(slots, call, Position(slots, other, now)) <==> other in StepEvicted(slots, call)
  {
  }

  /** So a success, of whatever peer, frees no blocked peer. */
  lemma SuccessFreesNobody(slots: seq<Slot>, peer: string, now: Time, other: string)
    requires slots != [] && Valid(slots, now) && Blocked(slots, other, now)
    ensures Blocked(Result(slots, peer, now, true), other, now)
  {
    var call := Login(peer, now, true);
    StaysBlockedIff(slots, call, other, now);
    DropsInOrder(slots, call, other, now);
    assert Step(slots, call) == Result(slots, peer, now, true);
  }

  lemma {:induction false} RunNoTwice(calls: seq<Call>)
    ensures NoTwice(After(calls))
    decreases |calls|
  {
    if calls != [] {
      RunNoTwice(calls[..|calls| - 1]);
      StepNoTwice(After(calls[..|calls| - 1]), calls[|calls| - 1]);
    }
  }

  lemma AfterLast(calls: seq<Call>)
    requires calls != []
    ensures After(calls) == Step(After(calls[..|calls| - 1]), calls[|calls| - 1])
  {
  }

  /**
   * Refused until its window ends: in every run of calls at whatever times, a
   * peer refused after before is refused after each of the calls that follow,
   * asked about at a time now within its window, exactly when none of them drops
   * its slot.
   */
  lemma RefusedUntil(before: seq<Call>, calls: seq<Call>, other: string, now: Time)
    requires Blocked(After(before), other, now)
    ensures var p := Position(After(before), other, now);
            (forall n :: 0 <= n <= |calls| ==> Blocked(After(before + calls[..n]), other, now)) <==>
            (forall n {:trigger calls[n]} :: 0 <= n < |calls| ==> !Drops(After(before + calls[..n]), calls[n], p))
  {
    hide Blocked, Drops, After, Position;
    var p := Position(After(before), other, now);
    forall n {:trigger calls[n]} | 0 <= n < |calls|
      ensures (forall k :: 0 <= k <= |calls| ==> Blocked(After(before + calls[..k]), other, now)) ==>
                !Drops(After(before + calls[..n]), calls[n], p)
    {
      if forall k :: 0 <= k <= |calls| ==> Blocked(After(before + calls[..k]), other, now) {
        SamePlace(before, calls, other, now, n);
        NextCall(before, calls, other, now, n);
        assert Blocked(After(before + calls[..n + 1]), other, now);
      }
    }
    forall n | 0 <= n <= |calls|
      ensures (forall k {:trigger calls[k]} :: 0 <= k < |calls| ==> !Drops(After(before + calls[..k]), calls[k], p)) ==>
                Blocked(After(before + calls[..n]), other, now)
    {
      if forall k {:trigger calls[k]} :: 0 <= k < |calls| ==> !Drops(After(before + calls[..k]), calls[k], p) {
        SamePlace(before, calls, other, now, n);
      }
    }
  }

  /** As long as nothing drops its slot, or as long as it is refused, the peer's slot stays where it is. */
  lemma {:induction false} SamePlace(before: seq<Call>, calls: seq<Call>, other: string, now: Time, n: nat)
    requires n <= |calls| && Blocked(After(before), other, now)
    requires
      || (forall k {:trigger calls[k]} :: 0 <= k < n ==>
            !Drops(After(before + calls[..k]), calls[k], Position(After(before), other, now)))
      || (forall k :: 0 <= k <= n ==> Blocked(After(before + calls[..k]), other, now))
    ensures Blocked(After(before + calls[..n]), other, now)
    ensures Position(After(before + calls[..n]), other, now) == Position(After(before), other, now)
  {
    hide Blocked, Drops, After, Position;
    if n == 0 {
      assert before + calls[..0] == before;
    } else {
      SamePlace(before, calls, other, now, n - 1);
      NextCall(before, calls, other, now, n - 1);
    }
  }

  lemma NextCall(before: seq<Call>, calls: seq<Call>, other: string, now: Time, n: nat)
    requires n < |calls| && Blocked(After(before + calls[..n]), other, now)
    ensures var slots, next := After(before + calls[..n]), After(before + calls[..n + 1]);
            && (Blocked(next, other, now) <==> !Drops(slots, calls[n], Position(slots, other, now)))
            && (Blocked(next, other, now) ==> Position(next, other, now) == Position(slots, other, now))
  {
    hide Blocked, Drops, After, Position;
    var all := before + calls[..n + 1];
    assert all[..|all| - 1] == before + calls[..n] && all[|all| - 1] == calls[n];
    AfterLast(all);
    RunNoTwice(before + calls[..n]);
    StaysBlockedIff(After(before + calls[..n]), calls[n], other, now);
  }

  // ----- how a refused peer gets in early

  function Failing(peer: string, at: Time, n: nat): seq<Call> {
    seq(n, _ => Login(peer, at, false))
  }

  lemma {:induction false} VictimIsLastFree(t: seq<Slot>, v: nat)
    requires v < |t| && t[v].Free? && forall k :: v < k < |t| ==> t[k].Used?
    ensures Victim(t) == v
  {
    if v < |t| - 1 {
      VictimIsLastFree(t[..|t| - 1], v);
    }
  }

  lemma {:induction false} Failed(peer: string, at: Time, n: nat)
    requires 1 <= n <= FAILURES
    ensures After(Failing(peer, at, n)) == Empty()[SLOTS - 1 := Used(peer, at, n)]
  {
    hide Step, After, Empty;
    var calls := Failing(peer, at, n);
    assert calls[..n - 1] == Failing(peer, at, n - 1);
    AfterLast(calls);
    if n == 1 {
      AfterNothing();
      FailsFirst(peer, at);
    } else {
      Failed(peer, at, n - 1);
      FailsAgain(peer, at, n - 1);
    }
  }

  lemma AfterNothing()
    ensures After([]) == Empty() && |Empty()| == SLOTS
  {
  }

  lemma FailsFirst(peer: string, at: Time)
    ensures Step(Empty(), Login(peer, at, false)) == Empty()[SLOTS - 1 := Used(peer, at, 1)]
  {
    hide Victim;
    VictimIsLastFree(Empty(), SLOTS - 1);
    assert Position(Empty(), peer, at) == SLOTS && Searched(Empty(), peer, at) == Empty();
  }

  lemma FailsAgain(peer: string, at: Time, n: nat)
    requires n < FAILURES
    ensures var slots := Empty()[SLOTS - 1 := Used(peer, at, n)];
            Step(slots, Login(peer, at, false)) == Empty()[SLOTS - 1 := Used(peer, at, n + 1)]
  {
    var slots := Empty()[SLOTS - 1 := Used(peer, at, n)];
    NamedOnce(slots, peer, at, SLOTS - 1);
    hide Position, Victim;
    assert Searched(slots, peer, at) == slots;
  }

  /** Ten failures, and a call of anyone with a time from before them: the unsigned difference wraps. */
  lemma StaleCallFrees(peer: string, other: string, early: Time, late: Time)
    requires early < late && late - early <= TWO64 - WINDOW_US
    ensures var before := Failing(peer, late, FAILURES);
            Blocked(After(before), peer, late) && !Blocked(After(before + [Ask(other, early)]), peer, late)
  {
    var before, call := Failing(peer, late, FAILURES), Ask(other, early);
    Failed(peer, late, FAILURES);
    var slots := After(before);
    RunNoTwice(before);
    NamedOnce(slots, peer, late, SLOTS - 1);
    assert Position(slots, other, early) == SLOTS;
    var all := before + [call];
    AfterLast(all);
    assert all[..|all| - 1] == before;
    StaysBlockedIff(slots, call, peer, late);
  }

  /** Peers with names of their own. */
  function Name(i: nat): (name: string)
    ensures |name| == i + 1
  {
    seq(i + 1, _ => 'p')
  }

  /** Ten failures of one peer at 0, and k failures of as many others at 1. */
  function Crowd(k: nat): seq<Call> {
    Failing(Name(0), 0, FAILURES) + seq(k, i requires 0 <= i < k => Login(Name(i + 1), 1, false))
  }

  function Crowded(k: nat): (slots: seq<Slot>)
    requires k < SLOTS
    ensures |slots| == SLOTS
  {
    seq(SLOTS, i requires 0 <= i < SLOTS =>
      if i == SLOTS - 1 then Used(Name(0), 0, FAILURES)
      else if SLOTS - 1 - i <= k then Used(Name(SLOTS - 1 - i), 1, 1)
      else Free)
  }

  lemma NewcomerSearch(k: nat, i: nat, at: Time)
    requires k < SLOTS && i > k && at < WINDOW_US && (k > 0 ==> at >= 1)
    ensures Position(Crowded(k), Name(i), at) == SLOTS && Searched(Crowded(k), Name(i), at) == Crowded(k)
  {
    var slots := Crowded(k);
    assert forall j :: 0 <= j < SLOTS ==> Swept(slots[j], at) == slots[j] && !Names(slots[j], Name(i));
  }

  lemma NewcomerStep(k: nat)
    requires 0 < k < SLOTS
    ensures Step(Crowded(k - 1), Login(Name(k), 1, false)) == Crowded(k)
  {
    hide Position, Searched, Victim, Name;
    var slots, v := Crowded(k - 1), SLOTS - 1 - k;
    NewcomerSearch(k - 1, k, 1);
    VictimIsLastFree(slots, v);
    assert slots[v := Used(Name(k), 1, 1)] == Crowded(k);
  }

  lemma {:induction false} CrowdFills(k: nat)
    requires k < SLOTS
    ensures After(Crowd(k)) == Crowded(k)
  {
    hide Step, After, Name;
    var calls := Crowd(k);
    if k == 0 {
      Failed(Name(0), 0, FAILURES);
      assert calls == Failing(Name(0), 0, FAILURES);
      assert Empty()[SLOTS - 1 := Used(Name(0), 0, FAILURES)] == Crowded(0);
    } else {
      CrowdFills(k - 1);
      AfterLast(calls);
      assert calls[..|calls| - 1] == Crowd(k - 1);
      NewcomerStep(k);
    }
  }

  lemma OldestGoes()
    ensures var slots, call := Crowded(SLOTS - 1), Login(Name(SLOTS), 2, false);
            Blocked(slots, Name(0), 2) && Drops(slots, call, SLOTS - 1) && Position(slots, Name(0), 2) == SLOTS - 1
    ensures Name(0) in StepEvicted(Crowded(SLOTS - 1), Login(Name(SLOTS), 2, false))
  {
    hide Searched, Name, After;
    var slots := Crowded(SLOTS - 1);
    NewcomerSearch(SLOTS - 1, SLOTS, 2);
    CrowdFills(SLOTS - 1);
    RunNoTwice(Crowd(SLOTS - 1));
    NamedOnce(slots, Name(0), 2, SLOTS - 1);
    var v := Victim(slots);
    hide Victim, Position;
    assert slots[SLOTS - 1].since == 0 && slots[v].since <= 0;
  }

  /** Ten failures, 31 other peers with one each, and then a 33rd peer: in order, and the refused peer is forgotten. */
  lemma CrowdFrees()
    ensures var before, call := Crowd(SLOTS - 1), Login(Name(SLOTS), 2, false);
            && Forward(before + [call])
            && Blocked(After(before), Name(0), 2) && !Blocked(After(before + [call]), Name(0), 2)
  {
    hide Searched, Position, Name, After, Drops, Blocked, Step;
    var before, call := Crowd(SLOTS - 1), Login(Name(SLOTS), 2, false);
    CrowdFills(SLOTS - 1);
    OldestGoes();
    var all := before + [call];
    AfterLast(all);
    assert all[..|all| - 1] == before;
    RunNoTwice(before);
    StaysBlockedIff(Crowded(SLOTS - 1), call, Name(0), 2);
  }

  // ----- the code

  /** The static slot array. */
  class Table {
    const slots: array<Slot>

    constructor ()
      ensures fresh(slots) && slots[..] == Empty()
    {
      slots := new Slot[SLOTS](_ => Free);
    }

    /** Clear slot i if its minute is over. */
    method Sweep(i: nat, now: Time)
      requires i < slots.Length
      modifies slots
      ensures slots[..] == old(slots[..])[i := Swept(old(slots[i]), now)]
    {
      if slots[i].Used? && Elapsed(now, slots[i].since) >= WINDOW_US {
        slots[i] := Free;
      }
    }

    method IsPeer(i: nat, peer: string) returns (same: bool)
      requires i < slots.Length
      ensures same == Names(slots[i], peer)
    {
      same := slots[i].Used? && slots[i].peer == peer;
    }

    /** The slot a new peer would get among the first i + 1, given the one among the first i. */
    method Better(victim: int, i: nat) returns (v: int)
      requires i < slots.Length && if i == 0 then victim == -1 else victim == Victim(slots[..i])
      ensures v == Victim(slots[..i + 1])
    {
      assert slots[..i + 1][..i] == slots[..i];
      v := victim;
      if victim < 0 || slots[i].Free? || (slots[victim].Used? && slots[i].since < slots[victim].since) {
        v := i;
      }
    }

    /** The loop of find: the peer's slot, or else the victim. */
    method Search(peer: string, now: Time) returns (i: nat, victim: int)
      requires slots.Length > 0
      modifies slots
      ensures i == Position(old(slots[..]), peer, now) && slots[..] == Searched(old(slots[..]), peer, now)
      ensures i == slots.Length ==> victim == Victim(slots[..])
    {
      hide Position, Names;
      ghost var before := slots[..];
      victim, i := -1, 0;
      while i < slots.Length
        invariant 0 <= i <= slots.Length
        invariant slots[..] == Passed(before, i, now)
        invariant forall k :: 0 <= k < i ==> !Names(Swept(before[k], now), peer)
        invariant if i == 0 then victim == -1 else victim == Victim(slots[..i])
      {
        hide Victim, Passed;
        PassedNext(before, i, now);
        Sweep(i, now);
        var same := IsPeer(i, peer);
        if same {
          PositionIs(before, peer, now, i);
          return;
        }
        victim := Better(victim, i);
        i := i + 1;
      }
      assert slots[..i] == slots[..];
      PassedNext(before, i, now);
      PositionIs(before, peer, now, i);
    }

    /** find: the peer's slot; or else none, or the slot of a new peer. */
    method Find(peer: string, now: Time, create: bool) returns (found: int)
      requires slots.Length > 0
      modifies slots
      ensures found < slots.Length
      ensures var before := old(slots[..]);
              var p, t := Position(before, peer, now), Searched(before, peer, now);
              if p < |before| then found == p && slots[..] == t
              else if !create then found < 0 && slots[..] == t
              else found == Victim(t) && slots[..] == t[found := Used(peer, now, 0)]
    {
      var i, victim := Search(peer, now);
      if i < slots.Length {
        return i;
      }
      if !create {
        return -1;
      }
      slots[victim] := Used(peer, now, 0);
      found := victim;
    }

    /** jipc_auth_blocked_at */
    method BlockedAt(peer: string, now: Time) returns (blocked: bool)
      requires slots.Length > 0
      modifies slots
      ensures blocked == Blocked(old(slots[..]), peer, now) && slots[..] == Searched(old(slots[..]), peer, now)
    {
      var s := Find(peer, now, false);
      blocked := s >= 0 && slots[s].failures >= FAILURES;
    }

    /** jipc_auth_result_at */
    method ResultAt(peer: string, now: Time, ok: bool)
      requires slots.Length > 0
      modifies slots
      ensures slots[..] == Result(old(slots[..]), peer, now, ok)
    {
      var s := Find(peer, now, !ok);
      if s >= 0 && !ok && slots[s].failures < FAILURES {
        slots[s] := slots[s].(failures := slots[s].failures + 1);
      } else if s >= 0 && ok && slots[s].failures < FAILURES {
        slots[s] := Free;
      }
    }
  }

  lemma PassedNext(slots: seq<Slot>, n: nat, now: Time)
    ensures n == 0 ==> Passed(slots, n, now) == slots
    ensures n < |slots| ==> Passed(slots, n, now)[n] == slots[n]
    ensures Passed(slots, n + 1, now) ==
            if n < |slots| then Passed(slots, n, now)[n := Swept(slots[n], now)] else Passed(slots, n, now)
  {
  }

  lemma PositionIs(slots: seq<Slot>, peer: string, now: Time, p: nat)
    requires p <= |slots| && (p < |slots| ==> Names(Swept(slots[p], now), peer))
    requires forall k :: 0 <= k < p ==> !Names(Swept(slots[k], now), peer)
    ensures Position(slots, peer, now) == p
  {
  }
}
