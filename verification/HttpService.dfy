/**
 * The code behind the connection hand-overs (http.c): a queue in a fixed array,
 * the idle list and the active table, changed in place by the workers, the
 * acceptor and the stop call.  Every method is one locked section and is proved
 * to be the step of that name in HttpServer.
 */
module HttpService {
  import opened Streams
  import opened HttpServer
  import opened Bytes

  function Place8(head: nat, i: nat): (p: nat)
    ensures p < QUEUE
  {
    (head + i) % QUEUE
  }

  lemma PlacesApart(head: nat)
    ensures forall i, j :: 0 <= i < j < QUEUE ==> Place8(head, i) != Place8(head, j)
  {
  }

  lemma PlacesShift(head: nat)
    ensures forall i :: 0 <= i < QUEUE ==> Place8(Place8(head, 1), i) == Place8(head, i + 1)
  {
    forall i | 0 <= i < QUEUE ensures Place8(Place8(head, 1), i) == Place8(head, i + 1) {
      StartsLater(head, i + 1);
    }
  }

  class Server {
    const queue: array<Conn>
    const idle: array<Option<Conn>>
    const active: array<int>
    var head: nat
    var tail: nat
    var count: nat
    var stopping: bool
    var appStop: bool
    ghost var waiting: seq<Conn>
    ghost var at: seq<WorkerPc>
    ghost var held: seq<Option<Conn>>
    ghost var acceptor: Acceptor
    ghost var accepted: seq<Conn>
    ghost var closed: seq<Conn>
    ghost var shutdowns: seq<int>

    ghost predicate Valid()
      reads this, queue, idle, active
    {
      && queue.Length == QUEUE && idle.Length == IDLE && active.Length == |at| == |held|
      && (acceptor.Polling? ==> |acceptor.fds| == |acceptor.seen| == IDLE)
      && head < QUEUE && tail == Place8(head, count) && count == |waiting| <= QUEUE
      && forall i :: 0 <= i < count ==> queue[Place8(head, i)] == waiting[i]
    }

    ghost function View(): State
      reads this, idle, active
    {
      State(waiting, idle[..], at, held, active[..], acceptor, stopping, appStop, accepted, closed, shutdowns)
    }

    constructor (workers: nat)
      ensures Valid() && View() == Start(workers)
      ensures fresh(queue) && fresh(idle) && fresh(active)
    {
      queue := new Conn[QUEUE];
      idle := new Option<Conn>[IDLE](_ => None);
      active := new int[workers](_ => -1);
      head, tail, count, stopping, appStop := 0, 0, 0, false, false;
      waiting, accepted, closed, shutdowns, acceptor := [], [], [], [], Looping;
      at, held := seq(workers, _ => Waiting), seq(workers, _ => None);
    }

    method Enqueue(c: Conn)
      requires Valid() && count < QUEUE
      modifies queue, this`tail, this`count, this`waiting
      ensures Valid() && waiting == old(waiting) + [c]
    {
      PlacesApart(head);
      hide Place8;
      queue[tail] := c;
      waiting, count := waiting + [c], count + 1;
      tail := (tail + 1) % QUEUE;
      assert tail == Place8(head, count) by { Wraps(head, count - 1); }
    }

    method Dequeue() returns (c: Conn)
      requires Valid() && count > 0
      modifies this`head, this`count, this`waiting
      ensures Valid() && old(waiting) == [c] + waiting
    {
      PlacesShift(head);
      Wraps(head, 0);
      StartsLater(head, count);
      hide Place8;
      c := queue[head];
      head := (head + 1) % QUEUE;
      count, waiting := count - 1, waiting[1..];
    }

    /** A worker that waits: its next connection, or the end of the thread. */
    method TakeWork(w: nat) returns (c: Option<Conn>)
      requires Valid() && w < active.Length && at[w].Waiting?
      modifies this, active
      ensures Valid() && View() == Take(old(View()), w)
      ensures c == if old(stopping) || old(waiting) == [] then None else Some(old(waiting)[0])
    {
      if stopping {
        at := at[w := Exited];
        return None;
      }
      if count == 0 {
        return None;
      }
      var next := Dequeue();
      active[w] := next.fd;
      at, held := at[w := Handling], held[w := Some(next)];
      c := Some(next);
    }

    /** A worker after a request; close says whether it must close the connection itself. */
    method Finish(w: nat, c: Conn, keepalive: bool) returns (close: bool)
      requires Valid() && w < active.Length && at[w].Handling? && held[w] == Some(c)
      modifies this, active, idle
      ensures Valid() && View() == Done(old(View()), w, keepalive)
      ensures close == at[w].Closing?
    {
      ghost var before := idle[..];
      active[w] := -1;
      close := true;
      if keepalive && !stopping && !appStop {
        var i := 0;
        while i < IDLE
          invariant 0 <= i <= IDLE && idle[..] == before
          invariant forall k :: 0 <= k < i ==> idle[k].Some?
          modifies {}
        {
          if idle[i].None? {
            break;
          }
          i := i + 1;
        }
        RoomIs(before, i);
        if i < IDLE {
          idle[i] := Some(c);
          at, held := at[w := Waiting], held[w := None];
          return false;
        }
      }
      at := at[w := Closing];
    }

    /** connection_close */
    method CloseConnection(c: Conn)
      requires Valid()
      modifies this`closed
      ensures Valid() && closed == old(closed) + [c]
    {
      closed := closed + [c];
    }

    /** The top of the acceptor's loop: the descriptors of the idle list, if a request could be queued. */
    method BuildPollSet() returns (fds: array<int>, ended: bool)
      requires Valid() && acceptor.Looping?
      modifies this`acceptor
      ensures Valid() && fresh(fds) && View() == Loop(old(View()))
      ensures ended == acceptor.Ended? && (!ended ==> fds[..] == acceptor.fds)
    {
      fds := new int[IDLE](_ => -1);
      ended := stopping || appStop;
      if ended {
        acceptor := Ended;
        return;
      }
      var i := 0;
      while i < IDLE
        invariant 0 <= i <= IDLE
        invariant fds[..i] == PollSet(View())[..i]
        modifies fds
      {
        fds[i] := if count < QUEUE && idle[i].Some? then idle[i].value.fd else -1;
        i := i + 1;
      }
      assert fds[..] == fds[..i] && PollSet(View())[..i] == PollSet(View());
      acceptor := Polling(fds[..], idle[..]);
    }

    /** poll has answered for the set: close what is over, queue what has a request. */
    method SettleIdle(fds: seq<int>, signals: seq<Signal>, connecting: bool)
      requires Valid() && |signals| == IDLE && acceptor.Polling? && acceptor.fds == fds
      modifies this, queue, idle
      ensures Valid() && View() == Polled(old(View()), signals, connecting)
    {
      if stopping || appStop {
        acceptor := Ended;
        return;
      }
      ghost var whole := SettleFrom(View(), 0, fds, signals);
      var i := 0;
      while i < IDLE
        invariant 0 <= i <= IDLE && |fds| == |signals| == IDLE && Valid() && |View().idle| == IDLE
        invariant SettleFrom(View(), i, fds, signals) == whole
      {
        hide SettleFrom;
        SettleNext(View(), i, fds, signals);
        SettleOne(i, fds[i], signals[i]);
        i := i + 1;
      }
      assert View() == whole;
      acceptor := if connecting then Accepting else Looping;
    }

    method SettleOne(i: nat, fd: int, signal: Signal)
      requires Valid() && i < IDLE
      modifies this`closed, this`tail, this`count, this`waiting, queue, idle
      ensures Valid() && View() == Settle(old(View()), i, fd, signal)
    {
      var slot := idle[i];
      if slot.None? || slot.value.fd != fd || signal.Quiet? {
        return;
      }
      if signal.Gone? {
        idle[i] := None;
        CloseConnection(slot.value);
      } else if count < QUEUE {
        idle[i] := None;
        Enqueue(slot.value);
      }
    }

    /** The end of the acceptor's loop, with a new connection. */
    method PlaceNew(c: Conn)
      requires Valid() && acceptor == Placing(c)
      modifies this, queue
      ensures Valid() && View() == Place(old(View()))
    {
      if stopping || count == QUEUE {
        CloseConnection(c);
      } else {
        Enqueue(c);
      }
      acceptor := Looping;
    }

    /** jipc_http_stop, up to the joins. */
    method StopAll()
      requires Valid()
      modifies this, idle
      ensures Valid() && View() == Stop(old(View()))
    {
      hide Values, Shown, Place8;
      stopping := true;
      CloseQueue();
      CloseIdle();
      ShutdownActive();
    }

    method ShutdownActive()
      modifies this`shutdowns
      ensures shutdowns == old(shutdowns) + Shown(active[..])
    {
      var w := 0;
      while w < active.Length
        invariant 0 <= w <= active.Length
        invariant shutdowns + Shown(active[w..]) == old(shutdowns) + Shown(active[..])
      {
        if active[w] >= 0 {
          Shift(shutdowns, active[w], Shown(active[w + 1..]));
          Shutdown(active[w]);
        }
        w := w + 1;
      }
    }

    /** shutdown on a worker's socket. */
    method Shutdown(fd: int)
      modifies this`shutdowns
      ensures shutdowns == old(shutdowns) + [fd]
    {
      shutdowns := shutdowns + [fd];
    }

    method CloseQueue()
      requires Valid()
      modifies this`closed, this`head, this`count, this`waiting
      ensures Valid() && waiting == [] && closed == old(closed) + old(waiting)
    {
      while count > 0
        invariant Valid() && closed + waiting == old(closed) + old(waiting)
      {
        var c := Dequeue();
        CloseConnection(c);
      }
    }

    method CloseIdle()
      requires Valid()
      modifies this`closed, idle
      ensures Valid() && idle[..] == seq(IDLE, _ => None) && closed == old(closed) + Values(old(idle[..]))
    {
      ghost var before := idle[..];
      var i := 0;
      while i < IDLE
        invariant 0 <= i <= IDLE && Valid()
        invariant forall k :: 0 <= k < i ==> idle[k] == None
        invariant forall k :: i <= k < IDLE ==> idle[k] == before[k]
        invariant closed + Values(before[i..]) == old(closed) + Values(before)
      {
        if idle[i].Some? {
          CloseConnection(idle[i].value);
        }
        idle[i] := None;
        i := i + 1;
      }
    }
  }

  lemma Wraps(head: nat, n: nat)
    ensures Place8(head, n + 1) == (Place8(head, n) + 1) % QUEUE
    ensures head < QUEUE ==> Place8(head, 0) == head
  {
  }

  lemma StartsLater(head: nat, n: nat)
    requires n > 0
    ensures Place8(Place8(head, 1), n - 1) == Place8(head, n)
  {
    var q := (head + 1) / QUEUE;
    assert Place8(head, 1) + (n - 1) == head + n - q * QUEUE;
  }

  lemma {:induction false} RoomIs(slots: seq<Option<Conn>>, i: nat)
    requires i <= |slots| && (i < |slots| ==> slots[i].None?) && forall k :: 0 <= k < i ==> slots[k].Some?
    ensures Room(slots) == i
  {
  }
}
