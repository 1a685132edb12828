/**
 * Who owns an HTTP connection (http.c): a queue of 8, an idle list of 8, four
 * workers, the acceptor, and the call that stops the server hand connections to
 * each other under one lock.  Every locked section is a step; so is every close
 * outside the lock.  What sockets and requests do is the environment's choice.
 */
module HttpServer {
  import opened Streams

  const QUEUE: nat := 8
  const IDLE: nat := 8
  const WORKERS: nat := 4

  /** An accepted connection: its place among all accepted ones, and its descriptor, which the kernel reuses after a close. */
  datatype Conn = Conn(id: nat, fd: nat)

  datatype WorkerPc = Waiting | Handling | Closing | Exited

  /**
   * What the acceptor holds outside the lock.  fds is the poll set it built, -1
   * for a slot it does not watch; seen, the idle list it built it from.
   */
  datatype Acceptor =
    | Looping
    | Polling(fds: seq<int>, seen: seq<Option<Conn>>)
    | Accepting
    | Placing(conn: Conn)
    | Ended

  /** What poll and the clock say of an idle connection: nothing, a request, or time up or an error. */
  datatype Signal = Quiet | Ready | Gone

  /**
   * held is the connection a worker works on, active the descriptor it shows to
   * the stop call.  accepted, closed and shutdowns are history.
   */
  datatype State = State(
    queue: seq<Conn>, idle: seq<Option<Conn>>, at: seq<WorkerPc>, held: seq<Option<Conn>>, active: seq<int>,
    acceptor: Acceptor, stopping: bool, appStop: bool,
    accepted: seq<Conn>, closed: seq<Conn>, shutdowns: seq<int>)

  function Start(workers: nat): State {
    State([], seq(IDLE, _ => None), seq(workers, _ => Waiting), seq(workers, _ => None), seq(workers, _ => -1),
          Looping, false, false, [], [], [])
  }

  // ----- workers

  function Take(s: State, w: nat): State
    requires w < |s.at| == |s.held| == |s.active| && s.at[w].Waiting?
  {
    if s.stopping then s.(at := s.at[w := Exited])
    else if s.queue == [] then s
    else
      var c := s.queue[0];
      s.(queue := s.queue[1..], at := s.at[w := Handling], held := s.held[w := Some(c)], active := s.active[w := c.fd])
  }

  /** The first empty place of the idle list, or its length. */
  function Room(idle: seq<Option<Conn>>): (i: nat)
    ensures i <= |idle|
    ensures i < |idle| ==> idle[i].None?
    ensures forall k :: 0 <= k < i ==> idle[k].Some?
  {
    if idle == [] || idle[0].None? then 0 else 1 + Room(idle[1..])
  }

  /** The request is done: park a connection that may be used again, or close it. */
  function Done(s: State, w: nat, keepalive: bool): State
    requires w < |s.at| == |s.held| == |s.active| && s.at[w].Handling?
  {
    var room, t := Room(s.idle), s.(active := s.active[w := -1]);
    if keepalive && !s.stopping && !s.appStop && room < |s.idle| then
      t.(idle := s.idle[room := s.held[w]], at := s.at[w := Waiting], held := s.held[w := None])
    else t.(at := s.at[w := Closing])
  }

  function Close(s: State, c: Option<Conn>): State {
    s.(closed := s.closed + if c.Some? then [c.value] else [])
  }

  function CloseHeld(s: State, w: nat): State
    requires w < |s.at| == |s.held| && s.at[w].Closing?
  {
    Close(s, s.held[w]).(at := s.at[w := Waiting], held := s.held[w := None])
  }

  // ----- the acceptor

  function PollSet(s: State): (fds: seq<int>)
    ensures |fds| == |s.idle|
  {
    seq(|s.idle|, i requires 0 <= i < |s.idle| =>
      if |s.queue| < QUEUE && s.idle[i].Some? then s.idle[i].value.fd else -1)
  }

  function Loop(s: State): State {
    if s.stopping || s.appStop then s.(acceptor := Ended) else s.(acceptor := Polling(PollSet(s), s.idle))
  }

  /** One place of the idle list after poll. */
  function Settle(s: State, i: nat, fd: int, signal: Signal): (t: State)
    requires i < |s.idle|
    ensures |t.idle| == |s.idle|
  {
    var slot := s.idle[i];
    if slot.None? || slot.value.fd != fd || signal.Quiet? then s
    else if signal.Gone? then Close(s, slot).(idle := s.idle[i := None])
    else if |s.queue| < QUEUE then s.(idle := s.idle[i := None], queue := s.queue + [slot.value])
    else s
  }

  function SettleFrom(s: State, i: nat, fds: seq<int>, signals: seq<Signal>): (t: State)
    requires i <= |s.idle| == |fds| == |signals|
    ensures |t.idle| == |s.idle|
    decreases |s.idle| - i
  {
    if i == |s.idle| then s else SettleFrom(Settle(s, i, fds[i], signals[i]), i + 1, fds, signals)
  }

  /** poll has returned. */
  function Polled(s: State, signals: seq<Signal>, connecting: bool): State
    requires s.acceptor.Polling? && |s.idle| == |s.acceptor.fds| == |signals|
  {
    if s.stopping || s.appStop then s.(acceptor := Ended)
    else SettleFrom(s, 0, s.acceptor.fds, signals).(acceptor := if connecting then Accepting else Looping)
  }

  /** Queue a new connection, or close it when there is no room or the server is stopping. */
  function Place(s: State): State
    requires s.acceptor.Placing?
  {
    var c, t := s.acceptor.conn, s.(acceptor := Looping);
    if s.stopping || |s.queue| == QUEUE then Close(t, Some(c)) else t.(queue := s.queue + [c])
  }

  // ----- jipc_http_stop

  function Values(slots: seq<Option<Conn>>): seq<Conn> {
    if slots == [] then []
    else (if slots[0].Some? then [slots[0].value] else []) + Values(slots[1..])
  }

  function Shown(active: seq<int>): seq<int> {
    if active == [] then [] else (if active[0] >= 0 then [active[0]] else []) + Shown(active[1..])
  }

  function Stop(s: State): State {
    s.(stopping := true, queue := [], idle := seq(|s.idle|, _ => None),
       closed := s.closed + s.queue + Values(s.idle), shutdowns := s.shutdowns + Shown(s.active))
  }

  // ----- runs

  datatype Step =
    | TakeStep(w: nat)
    | DoneStep(w: nat, keepalive: bool)
    | CloseStep(w: nat)
    | LoopStep
    | PollFails(interrupted: bool)
    | PollReturns(signals: seq<Signal>, connecting: bool)
    | AcceptStep(fd: nat, ok: bool)
    | PlaceStep
    | StopStep
    | AppStops

  /** How many of these places hold c. */
  function Places(slots: seq<Option<Conn>>, c: Conn): nat {
    if slots == [] then 0 else (if slots[0] == Some(c) then 1 else 0) + Places(slots[1..], c)
  }

  /** How many owners c has: queue, idle list, workers, acceptor. */
  function Owners(s: State, c: Conn): nat {
    multiset(s.queue)[c] + Places(s.idle, c) + Places(s.held, c) + if s.acceptor == Placing(c) then 1 else 0
  }

  /** Whether step can happen in s; accept returns a descriptor that no open connection has. */
  ghost predicate Enabled(s: State, step: Step) {
    match step
    case TakeStep(w) => w < |s.at| && s.at[w].Waiting?
    case DoneStep(w, _) => w < |s.at| && s.at[w].Handling?
    case CloseStep(w) => w < |s.at| && s.at[w].Closing?
    case LoopStep => s.acceptor.Looping?
    case PollFails(_) => s.acceptor.Polling?
    case PollReturns(signals, _) => s.acceptor.Polling? && |signals| == IDLE
    case AcceptStep(fd, _) => s.acceptor.Accepting? && forall c :: Owners(s, c) > 0 ==> c.fd != fd
    case PlaceStep => s.acceptor.Placing?
    case StopStep => !s.stopping
    case AppStops => true
  }

  ghost predicate Shaped(s: State) {
    && |s.at| == |s.held| == |s.active| && |s.idle| == IDLE
    && (s.acceptor.Polling? ==> |s.acceptor.fds| == |s.acceptor.seen| == IDLE)
  }

  function Apply(s: State, step: Step): State
    requires Shaped(s) && Enabled(s, step)
  {
    match step
    case TakeStep(w) => Take(s, w)
    case DoneStep(w, keepalive) => Done(s, w, keepalive)
    case CloseStep(w) => CloseHeld(s, w)
    case LoopStep => Loop(s)
    case PollFails(interrupted) => s.(acceptor := if interrupted then Looping else Ended)
    case PollReturns(signals, connecting) => Polled(s, signals, connecting)
    case AcceptStep(fd, ok) =>
      var c := Conn(|s.accepted|, fd);
      if ok then s.(acceptor := Placing(c), accepted := s.accepted + [c]) else s.(acceptor := Looping)
    case PlaceStep => Place(s)
    case StopStep => Stop(s)
    case AppStops => s.(appStop := true)
  }

  // ----- one owner

  ghost predicate Partition(s: State) {
    && (forall c :: multiset(s.accepted)[c] == Owners(s, c) + multiset(s.closed)[c])
    && (forall i :: 0 <= i < |s.accepted| ==> s.accepted[i].id == i)
  }

  /** No two owned connections share a descriptor. */
  ghost predicate DistinctFds(s: State) {
    forall c, d :: Owners(s, c) > 0 && Owners(s, d) > 0 && c.fd == d.fd ==> c == d
  }

  ghost predicate Control(s: State)
    requires Shaped(s)
  {
    && |s.queue| <= QUEUE && (!s.stopping ==> s.shutdowns == [])
    && (forall w :: 0 <= w < |s.at| ==>
          && (s.at[w].Exited? ==> s.stopping)
          && (s.held[w].Some? <==> s.at[w].Handling? || s.at[w].Closing?)
          && s.active[w] == (if s.at[w].Handling? then s.held[w].value.fd else -1))
    && (s.stopping ==> s.queue == [] && forall i :: 0 <= i < |s.idle| ==> s.idle[i].None?)
  }

  /** A watched place of the poll set still holds the connection it was built for. */
  ghost predicate Watching(s: State)
    requires Shaped(s)
  {
    s.acceptor.Polling? && !s.stopping ==>
      forall i :: 0 <= i < |s.idle| && s.acceptor.fds[i] >= 0 ==>
        && s.acceptor.seen[i].Some? && s.acceptor.seen[i].value.fd == s.acceptor.fds[i]
        && s.idle[i] == s.acceptor.seen[i]
  }

  // ----- counting

  lemma {:induction false} PlacesUpdate(slots: seq<Option<Conn>>, i: nat, x: Option<Conn>, c: Conn)
    requires i < |slots|
    ensures Places(slots[i := x], c) + (if slots[i] == Some(c) then 1 else 0) == Places(slots, c) + (if x == Some(c) then 1 else 0)
  {
    if i > 0 {
      PlacesUpdate(slots[1..], i - 1, x, c);
      assert slots[i := x][1..] == slots[1..][i - 1 := x];
    } else {
      assert slots[0 := x][1..] == slots[1..];
    }
  }

  lemma {:induction false} ValuesCount(slots: seq<Option<Conn>>, c: Conn)
    ensures multiset(Values(slots))[c] == Places(slots, c)
  {
    if slots != [] {
      ValuesCount(slots[1..], c);
      var first := if slots[0].Some? then [slots[0].value] else [];
      assert Values(slots) == first + Values(slots[1..]);
    }
  }

  lemma {:induction false} PlacesZero(slots: seq<Option<Conn>>, c: Conn)
    ensures (forall i :: 0 <= i < |slots| ==> slots[i] != Some(c)) <==> Places(slots, c) == 0
  {
    if slots != [] {
      PlacesZero(slots[1..], c);
      assert forall i :: 1 <= i < |slots| ==> slots[i] == slots[1..][i - 1];
    }
  }

  lemma PlacesOf(slots: seq<Option<Conn>>, c: Conn)
    ensures multiset(Values(slots))[c] == Places(slots, c)
    ensures (forall i :: 0 <= i < |slots| ==> slots[i] != Some(c)) <==> Places(slots, c) == 0
  {
    ValuesCount(slots, c);
    PlacesZero(slots, c);
  }

  // ----- steps

  /** c went from owner to owner, or from its owner to the closed. */
  ghost predicate Moved(s: State, t: State, c: Conn) {
    && Owners(t, c) + multiset(t.closed)[c] == Owners(s, c) + multiset(s.closed)[c]
    && multiset(s.closed)[c] <= multiset(t.closed)[c]
    && t.accepted == s.accepted
  }

  lemma TakeMoves(s: State, w: nat, c: Conn)
    requires Shaped(s) && Control(s) && Enabled(s, TakeStep(w))
    ensures Moved(s, Take(s, w), c)
  {
    if !s.stopping && s.queue != [] {
      PlacesUpdate(s.held, w, Some(s.queue[0]), c);
      assert s.queue == [s.queue[0]] + s.queue[1..];
    }
  }

  lemma DoneMoves(s: State, w: nat, keepalive: bool, c: Conn)
    requires Shaped(s) && Control(s) && Enabled(s, DoneStep(w, keepalive))
    ensures Moved(s, Done(s, w, keepalive), c)
  {
    var room := Room(s.idle);
    PlacesUpdate(s.held, w, None, c);
    if room < |s.idle| {
      PlacesUpdate(s.idle, room, s.held[w], c);
    }
  }

  lemma CloseMoves(s: State, w: nat, c: Conn)
    requires Shaped(s) && Control(s) && Enabled(s, CloseStep(w))
    ensures Moved(s, CloseHeld(s, w), c)
  {
    PlacesUpdate(s.held, w, None, c);
  }

  lemma SettleMoves(s: State, i: nat, fd: int, signal: Signal, c: Conn)
    requires i < |s.idle|
    ensures Moved(s, Settle(s, i, fd, signal), c)
  {
    hide Places;
    PlacesUpdate(s.idle, i, None, c);
  }

  lemma {:induction false} SettleAllMoves(s: State, i: nat, fds: seq<int>, signals: seq<Signal>, c: Conn)
    requires i <= |s.idle| == |fds| == |signals|
    ensures Moved(s, SettleFrom(s, i, fds, signals), c)
    decreases |s.idle| - i
  {
    hide Owners;
    if i < |s.idle| {
      SettleMoves(s, i, fds[i], signals[i], c);
      SettleAllMoves(Settle(s, i, fds[i], signals[i]), i + 1, fds, signals, c);
    }
  }

  lemma PlaceMoves(s: State, c: Conn)
    requires s.acceptor.Placing?
    ensures Moved(s, Place(s), c)
  {
  }

  lemma StopMoves(s: State, c: Conn)
    requires Shaped(s)
    ensures Moved(s, Stop(s), c)
  {
    PlacesOf(s.idle, c);
    PlacesOf(Stop(s).idle, c);
  }

  /** What settling the idle list leaves alone, and which places it may empty. */
  ghost predicate Settled(s: State, t: State, fds: seq<int>)
    requires |s.idle| == |fds|
  {
    && t.at == s.at && t.held == s.held && t.active == s.active && t.acceptor == s.acceptor
    && t.stopping == s.stopping && t.shutdowns == s.shutdowns && |t.idle| == |s.idle|
    && (|s.queue| <= QUEUE ==> |t.queue| <= QUEUE)
    && (forall j :: 0 <= j < |s.idle| && t.idle[j] != s.idle[j] ==>
          s.idle[j].Some? && s.idle[j].value.fd == fds[j] && t.idle[j].None?)
  }

  lemma {:induction false} SettleFrame(s: State, i: nat, fds: seq<int>, signals: seq<Signal>)
    requires i <= |s.idle| == |fds| == |signals|
    ensures Settled(s, SettleFrom(s, i, fds, signals), fds)
    decreases |s.idle| - i
  {
    if i < |s.idle| {
      assert Settled(s, Settle(s, i, fds[i], signals[i]), fds);
      SettleFrame(Settle(s, i, fds[i], signals[i]), i + 1, fds, signals);
    }
  }

  lemma WorkerControl(s: State, step: Step)
    requires Shaped(s) && Control(s) && Watching(s) && Enabled(s, step) && (step.TakeStep? || step.DoneStep? || step.CloseStep?)
    ensures Shaped(Apply(s, step)) && Control(Apply(s, step)) && Watching(Apply(s, step))
  {
  }

  lemma AcceptorControl(s: State, step: Step)
    requires Shaped(s) && Control(s) && Watching(s) && Enabled(s, step) && !(step.TakeStep? || step.DoneStep? || step.CloseStep?)
    ensures Shaped(Apply(s, step)) && Control(Apply(s, step)) && Watching(Apply(s, step))
  {
    if step.PollReturns? {
      SettleFrame(s, 0, s.acceptor.fds, step.signals);
    }
    hide SettleFrom, Owners, Values, Shown;
  }

  lemma StepMoves(s: State, step: Step, c: Conn)
    requires Shaped(s) && Control(s) && Enabled(s, step)
    ensures step.AcceptStep? || Moved(s, Apply(s, step), c)
  {
    hide Control, Take, Done, CloseHeld, SettleFrom, Stop, Place;
    match step
    case TakeStep(w) => TakeMoves(s, w, c);
    case DoneStep(w, keepalive) => DoneMoves(s, w, keepalive, c);
    case CloseStep(w) => CloseMoves(s, w, c);
    case PollReturns(signals, _) =>
      SettleAllMoves(s, 0, s.acceptor.fds, signals, c);
      SettleFrame(s, 0, s.acceptor.fds, signals);
    case PlaceStep => PlaceMoves(s, c);
    case StopStep => StopMoves(s, c);
    case _ =>
  }

  ghost predicate Inv(s: State) {
    Shaped(s) && Control(s) && Watching(s) && Partition(s) && DistinctFds(s)
  }

  lemma AcceptKeeps(s: State, fd: nat, ok: bool)
    requires Shaped(s) && Partition(s) && DistinctFds(s) && Enabled(s, AcceptStep(fd, ok))
    ensures Partition(Apply(s, AcceptStep(fd, ok))) && DistinctFds(Apply(s, AcceptStep(fd, ok)))
  {
    var t, arrived := Apply(s, AcceptStep(fd, ok)), Conn(|s.accepted|, fd);
    assert forall c :: Owners(t, c) == Owners(s, c) + if ok && c == arrived then 1 else 0;
  }

  lemma MovesKeep(s: State, t: State)
    requires Partition(s) && DistinctFds(s) && forall c :: Moved(s, t, c)
    ensures Partition(t) && DistinctFds(t)
  {
    hide Owners;
    forall c
      ensures multiset(t.accepted)[c] == Owners(t, c) + multiset(t.closed)[c]
      ensures Owners(t, c) <= Owners(s, c)
    {
      assert Moved(s, t, c);
    }
    assert Moved(s, t, Conn(0, 0));
  }

  lemma StepKeeps(s: State, step: Step)
    requires Inv(s) && Enabled(s, step)
    ensures Inv(Apply(s, step))
  {
    hide Control, Watching, Apply, Owners;
    if step.TakeStep? || step.DoneStep? || step.CloseStep? {
      WorkerControl(s, step);
    } else {
      AcceptorControl(s, step);
    }
    if step.AcceptStep? {
      AcceptKeeps(s, step.fd, step.ok);
    } else {
      forall c ensures Moved(s, Apply(s, step), c) {
        StepMoves(s, step, c);
      }
      MovesKeep(s, Apply(s, step));
    }
  }

  // ----- who gets a connection next

  ghost predicate HasRoom(s: State) {
    exists i :: 0 <= i < |s.idle| && s.idle[i].None?
  }

  /** After a request the connection is kept if and only if it may be used again, nothing stops and the idle list has room; else it is closed. */
  lemma DoneKeeps(s: State, w: nat, keepalive: bool)
    requires Shaped(s) && Control(s) && Enabled(s, DoneStep(w, keepalive))
    ensures var t := Apply(s, DoneStep(w, keepalive));
            && t.queue == s.queue && t.closed == s.closed && t.active[w] == -1
            && (forall v :: 0 <= v < |s.at| && v != w ==> t.at[v] == s.at[v] && t.held[v] == s.held[v] && t.active[v] == s.active[v])
            && if keepalive && !s.stopping && !s.appStop && HasRoom(s) then
                 t.at[w].Waiting? && t.held[w].None? && exists i :: 0 <= i < |s.idle| && s.idle[i].None? && t.idle == s.idle[i := s.held[w]]
               else
                 && t.at[w].Closing? && t.idle == s.idle
                 && Apply(t, CloseStep(w)).closed == s.closed + [s.held[w].value] && Apply(t, CloseStep(w)).at[w].Waiting?
                 && Apply(t, CloseStep(w)).held[w].None?
  {
    var i := Room(s.idle);
  }

  /** Of a watched connection: one that is over is closed, one with a request joins the queue if there is room, any other stays. */
  lemma SettleDecides(s: State, i: nat, signal: Signal)
    requires i < |s.idle| && s.idle[i].Some?
    ensures var c, t := s.idle[i].value, Settle(s, i, s.idle[i].value.fd, signal);
            if signal.Gone? then t == s.(idle := s.idle[i := None], closed := s.closed + [c])
            else if signal.Ready? && |s.queue| < QUEUE then t == s.(idle := s.idle[i := None], queue := s.queue + [c])
            else t == s
  {
  }

  /** One that is not watched stays. */
  lemma UnwatchedStays(s: State, i: nat, fd: int, signal: Signal)
    requires i < |s.idle| && (s.idle[i].Some? ==> s.idle[i].value.fd != fd)
    ensures Settle(s, i, fd, signal) == s
  {
  }

  /** The poll watches every idle connection while a request could be queued, and none otherwise. */
  lemma PollWatches(s: State, i: nat)
    requires i < |s.idle| && s.acceptor.Looping?
    ensures var t := Loop(s);
            if s.stopping || s.appStop then t.acceptor.Ended?
            else t.acceptor.Polling? && t.acceptor.seen == s.idle && |t.acceptor.fds| == |s.idle| &&
                 t.acceptor.fds[i] == if s.idle[i].Some? && |s.queue| < QUEUE then s.idle[i].value.fd else -1
  {
  }

  /** Every watched connection is looked at once, in its place and in order, and a new one is accepted only if one is there. */
  lemma {:induction false} PollSettlesAll(s: State, i: nat, fds: seq<int>, signals: seq<Signal>, j: nat)
    requires i <= j < |s.idle| == |fds| == |signals|
    ensures exists u: State :: |u.idle| == |s.idle| && u.idle[j..] == s.idle[j..] &&
                        SettleFrom(Settle(u, j, fds[j], signals[j]), j + 1, fds, signals) == SettleFrom(s, i, fds, signals)
    decreases j - i
  {
    hide Settle, SettleFrom;
    SettleNext(s, i, fds, signals);
    if i < j {
      SettleIsLocal(s, i, fds[i], signals[i], j);
      PollSettlesAll(Settle(s, i, fds[i], signals[i]), i + 1, fds, signals, j);
    }
  }

  lemma SettleNext(s: State, i: nat, fds: seq<int>, signals: seq<Signal>)
    requires i < |s.idle| == |fds| == |signals|
    ensures SettleFrom(s, i, fds, signals) == SettleFrom(Settle(s, i, fds[i], signals[i]), i + 1, fds, signals)
  {
  }

  lemma SettleIsLocal(s: State, i: nat, fd: int, signal: Signal, j: nat)
    requires i < j < |s.idle|
    ensures Settle(s, i, fd, signal).idle[j..] == s.idle[j..]
  {
  }

  lemma PolledEnds(s: State, signals: seq<Signal>, connecting: bool)
    requires s.acceptor.Polling? && |s.idle| == |s.acceptor.fds| == |signals|
    ensures var t := Polled(s, signals, connecting);
            if s.stopping || s.appStop then t == s.(acceptor := Ended)
            else t == SettleFrom(s, 0, s.acceptor.fds, signals).(acceptor := if connecting then Accepting else Looping)
  {
  }

  /** A poll that fails is repeated if a signal interrupted it and ends the acceptor otherwise; an accept that fails is forgotten. */
  lemma FailuresDecide(s: State, fd: nat)
    requires Shaped(s)
    ensures s.acceptor.Polling? ==>
              && Apply(s, PollFails(true)) == s.(acceptor := Looping) && Apply(s, PollFails(false)) == s.(acceptor := Ended)
    ensures Enabled(s, AcceptStep(fd, false)) ==> Apply(s, AcceptStep(fd, false)) == s.(acceptor := Looping)
    ensures Apply(s, AppStops) == s.(appStop := true)
  {
  }

  /** A new connection is queued unless the queue is full or the server stops, and closed then. */
  lemma PlaceDecides(s: State, c: Conn)
    requires s.acceptor == Placing(c) && |s.queue| <= QUEUE
    ensures var t := Place(s);
            && t.acceptor.Looping? && t.idle == s.idle
            && (if |s.queue| < QUEUE && !s.stopping then t.queue == s.queue + [c] && t.closed == s.closed
                else t.queue == s.queue && t.closed == s.closed + [c])
  {
  }

  /** A waiting worker gets the oldest of the queue, unless the server stops. */
  lemma TakeServesOldest(s: State, w: nat)
    requires Shaped(s) && Control(s) && Enabled(s, TakeStep(w))
    ensures var t := Apply(s, TakeStep(w));
            if s.stopping then t == s.(at := s.at[w := Exited])
            else if s.queue == [] then t == s
            else
              && s.queue == [t.held[w].value] + t.queue && t.held[w].Some? && t.at[w].Handling? && t.active[w] == t.held[w].value.fd
              && t == s.(queue := t.queue, at := s.at[w := Handling], held := s.held[w := t.held[w]], active := s.active[w := t.active[w]])
  {
  }

  // ----- every run

  /** The state after these steps, if each could happen when its turn came. */
  ghost function Run(workers: nat, steps: seq<Step>): Option<State>
    decreases |steps|
  {
    if steps == [] then Some(Start(workers))
    else
      var n := |steps| - 1;
      var before := Run(workers, steps[..n]);
      if before.Some? && Shaped(before.value) && Enabled(before.value, steps[n]) then
        Some(Apply(before.value, steps[n]))
      else None
  }

  lemma StartInv(workers: nat)
    ensures Inv(Start(workers))
  {
    forall c ensures Owners(Start(workers), c) == 0 {
      PlacesOf(Start(workers).idle, c);
      PlacesOf(Start(workers).held, c);
    }
  }

  lemma {:induction false} RunKeeps(workers: nat, steps: seq<Step>)
    requires Run(workers, steps).Some?
    ensures Inv(Run(workers, steps).value)
    decreases |steps|
  {
    hide Inv, Start;
    if steps == [] {
      StartInv(workers);
    } else {
      var n := |steps| - 1;
      RunKeeps(workers, steps[..n]);
      StepKeeps(Run(workers, steps[..n]).value, steps[n]);
    }
  }

  /**
   * Every accepted connection is in exactly one place: queued, idle, with one
   * worker, with the acceptor, or closed.  So none is closed twice, and once the
   * threads a stop has to join are gone, every one has been closed.
   */
  lemma OneOwner(workers: nat, steps: seq<Step>, c: Conn)
    requires Run(workers, steps).Some? && c in Run(workers, steps).value.accepted
    ensures var s := Run(workers, steps).value;
            && Owners(s, c) + multiset(s.closed)[c] == 1
            && (s.stopping && s.acceptor.Ended? && (forall w :: 0 <= w < |s.at| ==> s.at[w].Exited?) ==> c in s.closed)
  {
    RunKeeps(workers, steps);
    var s := Run(workers, steps).value;
    hide Run;
    Single(s.accepted, c);
    if s.stopping && s.acceptor.Ended? && (forall w :: 0 <= w < |s.at| ==> s.at[w].Exited?) {
      PlacesOf(s.idle, c);
      PlacesOf(s.held, c);
      assert Owners(s, c) == 0;
    }
  }

  lemma {:induction false} Single(conns: seq<Conn>, c: Conn)
    requires forall i :: 0 <= i < |conns| ==> conns[i].id == i
    ensures multiset(conns)[c] == if c in conns then 1 else 0
  {
    if conns != [] {
      var n := |conns| - 1;
      Single(conns[..n], c);
      assert conns == conns[..n] + [conns[n]];
      assert conns[n] !in conns[..n];
    }
  }

  lemma {:induction false} ShownAre(active: seq<int>, fd: int)
    ensures fd in Shown(active) <==> fd >= 0 && fd in active
  {
    if active != [] {
      ShownAre(active[1..], fd);
      assert active == [active[0]] + active[1..];
    }
  }

  /** Worker w handles a connection with this descriptor, and no other open connection has it. */
  ghost predicate Handles(s: State, w: nat, fd: int) {
    && w < |s.at| && w < |s.held| && s.at[w].Handling? && s.held[w].Some? && s.held[w].value.fd == fd
    && forall c :: Owners(s, c) > 0 && c.fd == fd ==> c == s.held[w].value
  }

  /**
   * The stop call, in whatever run it comes, shuts down exactly the descriptors
   * of the connections that workers handle, each of which is nobody else's, and
   * nothing was shut down before.
   */
  lemma ShutsDownOwned(workers: nat, steps: seq<Step>, fd: int)
    requires Run(workers, steps).Some? && !Run(workers, steps).value.stopping
    ensures var s := Run(workers, steps).value;
            && s.shutdowns == [] && Shaped(s) && Enabled(s, StopStep)
            && (fd in Apply(s, StopStep).shutdowns <==> exists w: nat :: Handles(s, w, fd))
  {
    RunKeeps(workers, steps);
    var s := Run(workers, steps).value;
    hide Run, Inv, Handles;
    ShownAre(s.active, fd);
    StopControl(s);
    forall w: nat ensures Handles(s, w, fd) <==> w < |s.active| && fd >= 0 && s.active[w] == fd {
      ShowsHandled(s, w, fd);
    }
  }

  lemma StopControl(s: State)
    requires Inv(s)
    ensures Shaped(s) && (!s.stopping ==> s.shutdowns == [])
  {
  }

  lemma ShowsHandled(s: State, w: nat, fd: int)
    requires Inv(s)
    ensures Handles(s, w, fd) <==> w < |s.active| && fd >= 0 && s.active[w] == fd
  {
    hide Watching, Partition, Owners;
    if w < |s.held| && s.held[w].Some? {
      HeldIsOwned(s, w);
    }
  }

  lemma HeldIsOwned(s: State, w: nat)
    requires w < |s.held| && s.held[w].Some?
    ensures Owners(s, s.held[w].value) > 0
  {
    PlacesOf(s.held, s.held[w].value);
  }

  /**
   * A poll answers for the connections it was asked about: whatever the acceptor
   * then moves or closes was in that place when the poll set was built, never a
   * connection a worker parked while it waited.
   */
  lemma PollMovesOnlySeen(workers: nat, steps: seq<Step>, signals: seq<Signal>, connecting: bool, i: nat)
    requires Run(workers, steps).Some? && i < IDLE
    requires Enabled(Run(workers, steps).value, PollReturns(signals, connecting))
    ensures var s := Run(workers, steps).value;
            && |s.idle| == |s.acceptor.fds| == |s.acceptor.seen| == IDLE
            && (Polled(s, signals, connecting).idle[i] != s.idle[i] ==> s.idle[i] == s.acceptor.seen[i])
  {
    RunKeeps(workers, steps);
    var s := Run(workers, steps).value;
    SettleFrame(s, 0, s.acceptor.fds, signals);
  }
}
