/**
 * Replay protection of ONVIF tokens (onvif.c).  A token is good for 300 s; the
 * camera remembers the last 1024 accepted ones in a ring, and a floor: the
 * newest creation time among the tokens it had to forget too early.  The ring is
 * measured against a table that never forgets.
 */
module Nonce {
  import opened Bytes

  const SLOTS: nat := 1024
  const WINDOW_S: int := 300

  /** hash is the SHA-1 of the nonce. */
  datatype Entry = Entry(hash: seq<byte>, expires: int, created: int)

  datatype Memory = Memory(entries: seq<Entry>, next: nat, floor: int)

  /** A token whose digest was right, and the clock when it arrived. */
  datatype Call = Call(hash: seq<byte>, created: int, now: int)

  predicate InWindow(call: Call) {
    call.now - WINDOW_S <= call.created <= call.now + WINDOW_S
  }

  /** A floor ahead of the clock is lowered: the clock stepped back. */
  function FloorAt(floor: int, now: int): int {
    if floor > now then now - 1 else floor
  }

  predicate Remembered(entries: seq<Entry>, hash: seq<byte>, now: int) {
    exists i :: 0 <= i < |entries| && entries[i].expires >= now && entries[i].hash == hash
  }

  predicate Accepts(m: Memory, call: Call) {
    && InWindow(call)
    && call.created > FloorAt(m.floor, call.now)
    && !Remembered(m.entries, call.hash, call.now)
  }

  function Remember(m: Memory, call: Call): Memory
    requires m.next < |m.entries|
  {
    var slot, floor := m.entries[m.next], FloorAt(m.floor, call.now);
    if Accepts(m, call) then
      Memory(m.entries[m.next := Entry(call.hash, call.created + 301, call.created)], (m.next + 1) % |m.entries|,
             if slot.expires >= call.now && slot.created > floor then slot.created else floor)
    else if InWindow(call) then m.(floor := floor)
    else m
  }

  // ----- every run, beside its history

  /** accepted is every call the ring has let through. */
  datatype Run = Run(memory: Memory, accepted: seq<Call>, clock: int)

  function Empty(): Run {
    Run(Memory(seq(SLOTS, i => Entry([], 0, 0)), 0, 0), [], 1)
  }

  function Next(r: Run, call: Call): Run
    requires r.memory.next < |r.memory.entries|
  {
    Run(Remember(r.memory, call), if Accepts(r.memory, call) then r.accepted + [call] else r.accepted, call.now)
  }

  function After(calls: seq<Call>): (run: Run)
    ensures |run.memory.entries| == SLOTS && run.memory.next < SLOTS
    decreases |calls|
  {
    if calls == [] then Empty()
    else
      Next(After(calls[..|calls| - 1]), calls[|calls| - 1])
  }

  /** The clock is past 1970 and never steps back. */
  ghost predicate Forward(calls: seq<Call>) {
    && (forall i :: 0 <= i < |calls| ==> calls[i].now > 0)
    && (forall i, j :: 0 <= i < j < |calls| ==> calls[i].now <= calls[j].now)
  }

  /** What was accepted had been created after 1970, and not in the future. */
  ghost predicate Honest(accepted: seq<Call>) {
    forall i :: 0 <= i < |accepted| ==> 0 < accepted[i].created <= accepted[i].now
  }

  /** The table that never forgets: refuse a nonce while any token accepted with it has not expired. */
  predicate TableAccepts(accepted: seq<Call>, call: Call) {
    InWindow(call) && forall i :: 0 <= i < |accepted| && accepted[i].hash == call.hash ==> accepted[i].created + 301 < call.now
  }

  function EntryOf(call: Call): Entry {
    Entry(call.hash, call.created + 301, call.created)
  }

  /** A token is forgotten early when another 1024 were accepted before it expired. */
  predicate ForgottenEarly(accepted: seq<Call>, i: nat) {
    i + SLOTS < |accepted| && accepted[i + SLOTS].now <= accepted[i].created + 301
  }

  /**
   * What the ring decides, told from the accepted tokens alone: pass whatever is
   * in the window, was created after every token forgotten early, and is not
   * among the last 1024 unless expired.
   */
  ghost predicate Passes(accepted: seq<Call>, call: Call) {
    && InWindow(call) && call.created > 0
    && (forall i: nat :: ForgottenEarly(accepted, i) ==> accepted[i].created < call.created)
    && (forall i: nat :: |accepted| - SLOTS <= i < |accepted| && accepted[i].hash == call.hash ==>
          accepted[i].created + 301 < call.now)
  }

  /** The accepted tokens are honest and in order. */
  ghost predicate Ordered(r: Run) {
    && (forall i :: 0 <= i < |r.accepted| ==> 0 < r.accepted[i].created <= r.accepted[i].now <= r.clock)
    && (forall i, j :: 0 <= i < j < |r.accepted| ==> r.accepted[i].now <= r.accepted[j].now)
  }

  /** The ring holds the last 1024 of them, each in its place. */
  ghost predicate Stored(entries: seq<Entry>, accepted: seq<Call>) {
    && |entries| == SLOTS
    && (forall k :: |accepted| <= k < SLOTS ==> entries[k] == Entry([], 0, 0))
    && (forall i: nat :: |accepted| - SLOTS <= i < |accepted| ==> entries[i % SLOTS] == EntryOf(accepted[i]))
  }

  /** The floor is the newest creation time forgotten early. */
  ghost predicate Floored(floor: int, accepted: seq<Call>) {
    && (forall i: nat :: ForgottenEarly(accepted, i) ==> accepted[i].created <= floor)
    && (floor == 0 || exists i: nat :: ForgottenEarly(accepted, i) && accepted[i].created == floor)
  }

  ghost predicate Exact(r: Run) {
    && r.clock > 0 && 0 <= r.memory.floor <= r.clock && r.memory.next == |r.accepted| % SLOTS
    && Ordered(r) && Stored(r.memory.entries, r.accepted) && Floored(r.memory.floor, r.accepted)
  }

  lemma PlaceOf(n: nat, k: nat) returns (i: nat)
    requires k < SLOTS && k < n
    ensures n - SLOTS <= i < n && i % SLOTS == k
  {
    i := n - 1 - (n - 1 - k) % SLOTS;
    assert (n - 1 - k) == (n - 1 - k) / SLOTS * SLOTS + (n - 1 - k) % SLOTS;
    assert i == k + (n - 1 - k) / SLOTS * SLOTS;
  }

  lemma RememberedIff(entries: seq<Entry>, accepted: seq<Call>, hash: seq<byte>, now: int)
    requires Stored(entries, accepted) && now > 0
    ensures Remembered(entries, hash, now) <==>
            exists i: nat :: |accepted| - SLOTS <= i < |accepted| && accepted[i].hash == hash && accepted[i].created + 301 >= now
  {
    if Remembered(entries, hash, now) {
      var k :| 0 <= k < SLOTS && entries[k].expires >= now && entries[k].hash == hash;
      var i := PlaceOf(|accepted|, k);
      assert entries[i % SLOTS] == EntryOf(accepted[i]);
    }
    forall i: nat | |accepted| - SLOTS <= i < |accepted| && accepted[i].hash == hash && accepted[i].created + 301 >= now
      ensures Remembered(entries, hash, now)
    {
      assert entries[i % SLOTS] == EntryOf(accepted[i]);
    }
  }

  lemma AcceptsIff(r: Run, call: Call)
    requires Exact(r) && call.now >= r.clock
    ensures Accepts(r.memory, call) <==> Passes(r.accepted, call)
  {
    RememberedIff(r.memory.entries, r.accepted, call.hash, call.now);
    hide Remembered, ForgottenEarly, Stored;
  }

  lemma StoredNext(entries: seq<Entry>, accepted: seq<Call>, call: Call)
    requires Stored(entries, accepted)
    ensures Stored(entries[|accepted| % SLOTS := EntryOf(call)], accepted + [call])
    ensures (|accepted| + 1) % SLOTS == (|accepted| % SLOTS + 1) % SLOTS
  {
    var n := |accepted|;
    var next, longer := entries[n % SLOTS := EntryOf(call)], accepted + [call];
    forall i: nat | n + 1 - SLOTS <= i < n + 1 ensures next[i % SLOTS] == EntryOf(longer[i]) {
      assert i < n ==> i % SLOTS != n % SLOTS && entries[i % SLOTS] == EntryOf(accepted[i]);
    }
  }

  /** What the next token overwrites. */
  lemma SlotHolds(entries: seq<Entry>, accepted: seq<Call>)
    requires Stored(entries, accepted)
    ensures var n := |accepted|;
            entries[n % SLOTS] == if n < SLOTS then Entry([], 0, 0) else EntryOf(accepted[n - SLOTS])
  {
    var n := |accepted|;
    assert n >= SLOTS ==> (n - SLOTS) % SLOTS == n % SLOTS;
  }

  lemma FlooredNext(floor: int, accepted: seq<Call>, call: Call)
    requires Floored(floor, accepted) && floor >= 0
    ensures var n, longer := |accepted|, accepted + [call];
            var raised := n >= SLOTS && accepted[n - SLOTS].created + 301 >= call.now && accepted[n - SLOTS].created > floor;
            Floored(if raised then accepted[n - SLOTS].created else floor, longer)
  {
    var n, longer := |accepted|, accepted + [call];
    assert forall i: nat :: i + SLOTS < n ==> ForgottenEarly(longer, i) == ForgottenEarly(accepted, i);
    assert n >= SLOTS ==> ForgottenEarly(longer, n - SLOTS) == (call.now <= accepted[n - SLOTS].created + 301);
    assert forall i: nat :: ForgottenEarly(longer, i) ==> i == n - SLOTS || ForgottenEarly(accepted, i);
    if floor != 0 {
      var i: nat :| ForgottenEarly(accepted, i) && accepted[i].created == floor;
      assert ForgottenEarly(longer, i);
    }
  }

  lemma NextExact(r: Run, call: Call)
    requires Exact(r) && call.now >= r.clock
    requires Accepts(r.memory, call) ==> 0 < call.created <= call.now
    ensures Exact(Next(r, call))
  {
    hide Accepts, Stored, Floored;
    if Accepts(r.memory, call) {
      StoredSize(r.memory.entries, r.accepted);
      StoredNext(r.memory.entries, r.accepted, call);
      SlotHolds(r.memory.entries, r.accepted);
      FlooredNext(r.memory.floor, r.accepted, call);
    }
  }

  lemma StoredSize(entries: seq<Entry>, accepted: seq<Call>)
    requires Stored(entries, accepted)
    ensures |entries| == SLOTS
  {
  }

  lemma {:induction false} RunExact(calls: seq<Call>)
    requires Forward(calls) && Honest(After(calls).accepted)
    ensures Exact(After(calls)) && After(calls).clock == if calls == [] then 1 else calls[|calls| - 1].now
    decreases |calls|
  {
    if calls == [] {
      assert forall i: nat :: !ForgottenEarly([], i);
    } else {
      var before, call := calls[..|calls| - 1], calls[|calls| - 1];
      HonestBefore(calls);
      RunExact(before);
      NextExact(After(before), call);
    }
  }

  // ----- what it is for

  /**
   * With a clock that runs forward and tokens that are not ahead of it, every
   * token is decided by the history of the accepted ones.
   */
  lemma DecidesExactly(calls: seq<Call>, call: Call)
    requires Forward(calls + [call]) && Honest(After(calls).accepted)
    ensures var accepted := After(calls).accepted;
            After(calls + [call]).accepted == if Passes(accepted, call) then accepted + [call] else accepted
  {
    hide Passes, Accepts, Exact;
    Prefix(calls, call);
    RunExact(calls);
    AcceptsIff(After(calls), call);
  }

  lemma Prefix(calls: seq<Call>, call: Call)
    requires Forward(calls + [call])
    ensures Forward(calls) && (calls + [call])[..|calls|] == calls && After(calls + [call]) == Next(After(calls), call)
    ensures call.now > 0 && (calls != [] ==> calls[|calls| - 1].now <= call.now)
  {
    assert forall i :: 0 <= i < |calls| ==> calls[i] == (calls + [call])[i];
    assert (calls + [call])[|calls|] == call;
    assert (calls + [call])[..|calls|] == calls;
  }

  /** While the clock runs forward, the ring never accepts the same nonce and creation time twice. */
  lemma {:induction false} NoReplay(calls: seq<Call>)
    requires Forward(calls) && Honest(After(calls).accepted)
    ensures var accepted := After(calls).accepted;
            forall i, j :: 0 <= i < j < |accepted| && accepted[i].hash == accepted[j].hash ==>
              accepted[i].created != accepted[j].created
    decreases |calls|
  {
    if calls != [] {
      var before, call := calls[..|calls| - 1], calls[|calls| - 1];
      HonestBefore(calls);
      RunExact(before);
      NoReplay(before);
      var r := After(before);
      AcceptsIff(r, call);
      if Accepts(r.memory, call) {
        NeverAgain(r, call);
      }
    }
  }

  lemma NeverAgain(r: Run, call: Call)
    requires Ordered(r) && Passes(r.accepted, call) && call.now >= r.clock
    ensures forall i :: 0 <= i < |r.accepted| && r.accepted[i].hash == call.hash ==> r.accepted[i].created != call.created
  {
    forall i: nat | i < |r.accepted| && r.accepted[i].hash == call.hash ensures r.accepted[i].created != call.created {
      if i < |r.accepted| - SLOTS && !ForgottenEarly(r.accepted, i) {
        assert r.accepted[i + SLOTS].now <= r.clock;
      }
    }
  }

  lemma HonestBefore(calls: seq<Call>)
    requires calls != [] && Forward(calls) && Honest(After(calls).accepted)
    ensures var before, call := calls[..|calls| - 1], calls[|calls| - 1];
            && Forward(before) && Honest(After(before).accepted)
            && After(calls) == Next(After(before), call)
            && call.now > 0 && (before != [] ==> before[|before| - 1].now <= call.now)
            && (Accepts(After(before).memory, call) ==> 0 < call.created <= call.now)
  {
    var before, call := calls[..|calls| - 1], calls[|calls| - 1];
    var r := After(before);
    assert forall i :: 0 <= i < |r.accepted| ==> After(calls).accepted[i] == r.accepted[i];
    assert forall i :: 0 <= i < |before| ==> before[i] == calls[i];
    assert Accepts(r.memory, call) ==> After(calls).accepted[|r.accepted|] == call;
  }

  /**
   * As long as no token was forgotten early, the ring decides every call exactly
   * as the table that never forgets would.
   */
  lemma ExactUntilForced(calls: seq<Call>, call: Call)
    requires Forward(calls + [call]) && Honest(After(calls).accepted) && call.created > 0
    requires forall i: nat :: !ForgottenEarly(After(calls).accepted, i)
    ensures var accepted := After(calls).accepted;
            After(calls + [call]).accepted == if TableAccepts(accepted, call) then accepted + [call] else accepted
  {
    DecidesExactly(calls, call);
    Prefix(calls, call);
    RunExact(calls);
    var accepted := After(calls).accepted;
    forall i: nat | i < |accepted| - SLOTS ensures accepted[i].created + 301 < call.now {
      assert !ForgottenEarly(accepted, i) && accepted[i + SLOTS].now <= After(calls).clock;
    }
  }

  /**
   * However full the ring, a token of the window with a nonce of its own passes
   * if and only if it was created after every token forgotten early.
   */
  lemma FreshPasses(calls: seq<Call>, call: Call)
    requires Forward(calls + [call]) && Honest(After(calls).accepted) && InWindow(call) && call.created > 0
    requires forall other :: other in After(calls).accepted ==> other.hash != call.hash
    ensures var accepted := After(calls).accepted;
            After(calls + [call]).accepted == accepted + [call] <==>
            forall i: nat :: ForgottenEarly(accepted, i) ==> accepted[i].created < call.created
  {
    DecidesExactly(calls, call);
    var accepted := After(calls).accepted;
    assert forall i :: 0 <= i < |accepted| ==> accepted[i] in accepted;
  }

  // ----- why the clock matters

  /** Nonce hashes of their own, 20 bytes each. */
  function Tag(i: nat): (hash: seq<byte>)
    ensures |hash| == 20
  {
    [i / 256 % 256, i % 256] + Zeros(18)
  }

  lemma TagsDiffer(i: nat, j: nat)
    requires i < j <= SLOTS
    ensures Tag(i) != Tag(j)
  {
    assert Tag(i)[0] == i / 256 % 256 && Tag(j)[0] == j / 256 % 256;
    assert Tag(i)[1] == i % 256 && Tag(j)[1] == j % 256;
  }

  /** Tokens created and arriving at one time. */
  function Flood(k: nat, created: int, now: int): seq<Call> {
    seq(k, i requires 0 <= i < k => Call(Tag(i), created, now))
  }

  function Flooded(k: nat, created: int): (entries: seq<Entry>)
    ensures |entries| == SLOTS
  {
    seq(SLOTS, i requires 0 <= i < SLOTS => if i < k then Entry(Tag(i), created + 301, created) else Entry([], 0, 0))
  }

  lemma NotYetRemembered(k: nat, created: int, now: int)
    requires k <= SLOTS
    ensures !Remembered(Flooded(k, created), Tag(k), now)
  {
    hide Tag;
    forall i: nat | i < k ensures Tag(i) != Tag(k) {
      TagsDiffer(i, k);
    }
  }

  lemma {:induction false} FloodFills(k: nat, created: int, now: int)
    requires k <= SLOTS && 0 < created && 0 < now && now - WINDOW_S <= created <= now + WINDOW_S
    ensures var r := After(Flood(k, created, now));
            r.memory == Memory(Flooded(k, created), k % SLOTS, 0) && r.accepted == Flood(k, created, now)
  {
    hide Tag, After, Next;
    var calls := Flood(k, created, now);
    if k == 0 {
      assert After([]) == Empty() by { AfterLast([]); }
      assert Flooded(0, created) == Empty().memory.entries;
    } else {
      FloodFills(k - 1, created, now);
      AfterLast(calls);
      assert calls[..k - 1] == Flood(k - 1, created, now);
      FloodNext(After(calls[..k - 1]), k, created, now);
    }
  }

  lemma AfterLast(calls: seq<Call>)
    ensures After(calls) == if calls == [] then Empty() else Next(After(calls[..|calls| - 1]), calls[|calls| - 1])
  {
  }

  lemma FloodNext(r: Run, k: nat, created: int, now: int)
    requires 0 < k <= SLOTS && 0 < created && 0 < now && now - WINDOW_S <= created <= now + WINDOW_S
    requires r.memory == Memory(Flooded(k - 1, created), k - 1, 0) && r.accepted == Flood(k - 1, created, now)
    ensures var n := Next(r, Call(Tag(k - 1), created, now));
            n.memory == Memory(Flooded(k, created), k % SLOTS, 0) && n.accepted == Flood(k, created, now)
  {
    hide Tag, Remembered;
    NotYetRemembered(k - 1, created, now);
    assert Flooded(k - 1, created)[k - 1 := Entry(Tag(k - 1), created + 301, created)] == Flooded(k, created);
  }

  /**
   * When the clock, at later, lies behind a token's creation time, be it that the
   * token was created in the future or that the clock stepped back: 1025 tokens
   * accepted, a request that lowers the floor, and the first of them passes again.
   */
  lemma AheadOfTheClock(created: int, now: int, later: int, last: int) returns (calls: seq<Call>)
    requires 0 < later < created && 0 < now && later <= last
    requires now - WINDOW_S <= created <= now + WINDOW_S && last - WINDOW_S <= created <= last + WINDOW_S
    ensures var flood, again := Flood(SLOTS + 1, created, now), Call(Tag(0), created, last);
            calls == flood + [Call([], later - 1, later)] + [again] && After(calls).accepted == flood + [again]
  {
    hide Tag, Remembered, After;
    var flood, again := Flood(SLOTS + 1, created, now), Call(Tag(0), created, last);
    FloodFills(SLOTS, created, now);
    AfterLast(flood);
    assert flood[..SLOTS] == Flood(SLOTS, created, now);
    NotYetRemembered(SLOTS, created, now);
    var entries := Flooded(SLOTS, created)[0 := Entry(Tag(SLOTS), created + 301, created)];
    assert After(flood).memory == Memory(entries, 1, created) && After(flood).accepted == flood;
    var lowered := flood + [Call([], later - 1, later)];
    AfterLast(lowered);
    assert lowered[..|flood|] == flood;
    assert After(lowered).memory == Memory(entries, 1, later - 1);
    calls := lowered + [again];
    AfterLast(calls);
    assert calls[..|lowered|] == lowered;
    FirstIsForgotten(entries, created, last);
  }

  lemma FirstIsForgotten(entries: seq<Entry>, created: int, now: int)
    requires entries == Flooded(SLOTS, created)[0 := Entry(Tag(SLOTS), created + 301, created)]
    ensures !Remembered(entries, Tag(0), now)
  {
    hide Tag;
    forall i: nat | 0 < i <= SLOTS ensures Tag(0) != Tag(i) {
      TagsDiffer(0, i);
    }
  }

  /** The clock, past 1970, is never more than back behind an earlier reading. */
  ghost predicate Backward(calls: seq<Call>, back: nat) {
    && (forall i :: 0 <= i < |calls| ==> calls[i].now > 0)
    && (forall i, j :: 0 <= i < j < |calls| ==> calls[i].now <= calls[j].now + back)
  }

  /** What was accepted had been created after 1970, and no more than lead ahead of the clock. */
  ghost predicate Leading(accepted: seq<Call>, lead: nat) {
    forall i :: 0 <= i < |accepted| ==> 0 < accepted[i].created <= accepted[i].now + lead
  }

  ghost predicate Distinct(accepted: seq<Call>) {
    forall i, j :: 0 <= i < j < |accepted| && accepted[i].hash == accepted[j].hash ==>
      accepted[i].created != accepted[j].created
  }

  ghost predicate NeverReplays(lead: nat, back: nat) {
    forall calls :: Backward(calls, back) && Leading(After(calls).accepted, lead) ==> Distinct(After(calls).accepted)
  }

  /** No replay in any run, if and only if no token is ahead of the clock and the clock does not step back. */
  lemma NoReplayIff(lead: nat, back: nat)
    ensures NeverReplays(lead, back) <==> lead == 0 && back == 0
  {
    if lead == 0 && back == 0 {
      forall calls | Backward(calls, 0) && Leading(After(calls).accepted, 0) ensures Distinct(After(calls).accepted) {
        NoReplay(calls);
      }
    } else {
      hide Tag, After;
      var created := if lead > 0 then 3 else 2;
      var calls := AheadOfTheClock(created, 2, created - 1, 2);
      var accepted := After(calls).accepted;
      assert Backward(calls, back);
      assert forall i :: 0 <= i < |accepted| ==> accepted[i].created == created && accepted[i].now == 2;
      assert accepted[0].hash == accepted[SLOTS + 1].hash;
      assert Leading(accepted, lead) && !Distinct(accepted);
    }
  }

  // ----- the code

  /** nonces, nonce_next and nonce_floor. */
  class NonceRing {
    const nonces: array<Entry>
    var next: nat
    var floor: int

    ghost predicate Valid()
      reads this, nonces
    {
      nonces.Length == SLOTS && next < SLOTS
    }

    ghost function View(): Memory
      reads this, nonces
    {
      Memory(nonces[..], next, floor)
    }

    constructor ()
      ensures Valid() && fresh(nonces) && View() == Empty().memory
    {
      nonces := new Entry[SLOTS](i => Entry([], 0, 0));
      next, floor := 0, 0;
    }

    /** The end of jipc_onvif_authorize, for a token whose digest was right. */
    method Authorize(call: Call) returns (ok: bool)
      requires Valid()
      modifies this, nonces
      ensures Valid() && ok == Accepts(old(View()), call) && View() == Remember(old(View()), call)
    {
      if call.created < call.now - WINDOW_S || call.created > call.now + WINDOW_S {
        return false;
      }
      if floor > call.now {
        floor := call.now - 1;
      }
      if call.created <= floor {
        return false;
      }
      var i := 0;
      while i < SLOTS
        invariant 0 <= i <= SLOTS
        invariant forall k :: 0 <= k < i ==> !(nonces[k].expires >= call.now && nonces[k].hash == call.hash)
      {
        if nonces[i].expires >= call.now && nonces[i].hash == call.hash {
          assert nonces[..][i] == nonces[i];
          return false;
        }
        i := i + 1;
      }
      var slot := next;
      next := (next + 1) % SLOTS;
      if nonces[slot].expires >= call.now && nonces[slot].created > floor {
        floor := nonces[slot].created;
      }
      nonces[slot] := Entry(call.hash, call.created + 301, call.created);
      ok := true;
    }
  }
}
