/**
 * RTSP over TCP (rtsp.c): how a connection's byte stream is cut into requests
 * and interleaved frames (section 10.12 of RFC 2326).  The messages handled do
 * not depend on how TCP divided the stream.
 */
module RtspFraming {
  import opened Bytes

  const HEADER_MAX: nat := 16384
  const BUFFER_SIZE: nat := 32768
  const DOLLAR: byte := 0x24

  datatype Message =
    | Interleaved(channel: byte, data: seq<byte>)
    | Request(header: seq<byte>, body: seq<byte>)

  /** parse_request as the content length it reports; more than HEADER_MAX stands for a bad request. */
  type Parser = seq<byte> -> nat

  /** handle, given every message so far: whether the connection stays open. */
  type Handler = seq<Message> -> bool

  // ----- cutting one message off

  /** CR LF CR LF at index i. */
  predicate EmptyLineAt(b: seq<byte>, i: nat) {
    i + 4 <= |b| && b[i] == 13 && b[i + 1] == 10 && b[i + 2] == 13 && b[i + 3] == 10
  }

  lemma EmptyLineIs(b: seq<byte>, i: nat)
    ensures EmptyLineAt(b, i) <==> i + 4 <= |b| && b[i..i + 4] == [13, 10, 13, 10]
  {
    if i + 4 <= |b| {
      var four := b[i..i + 4];
      assert four == [b[i], b[i + 1], b[i + 2], b[i + 3]];
    }
  }

  /** h is the length of the header at the head of b, its empty line included; 0 when it is not complete. */
  ghost predicate IsHeaderEnd(b: seq<byte>, h: nat) {
    && (h == 0 || (h >= 4 && EmptyLineAt(b, h - 4)))
    && forall i :: 0 <= i < (if h == 0 then |b| else h - 4) ==> !EmptyLineAt(b, i)
  }

  function FindHeaderEnd(b: seq<byte>, from: nat): (h: nat)
    requires forall i :: 0 <= i < from ==> !EmptyLineAt(b, i)
    ensures IsHeaderEnd(b, h)
    decreases |b| - from
  {
    if from >= |b| then 0
    else if EmptyLineAt(b, from) then from + 4
    else FindHeaderEnd(b, from + 1)
  }

  function HeaderEnd(b: seq<byte>): (h: nat)
    ensures IsHeaderEnd(b, h)
  {
    FindHeaderEnd(b, 0)
  }

  lemma HeaderEndIsUnique(b: seq<byte>, h: nat, k: nat)
    requires IsHeaderEnd(b, h) && IsHeaderEnd(b, k)
    ensures h == k
  {
  }

  datatype Next = Wait | Reject | Take(message: Message, consumed: nat)

  function NextMessage(parse: Parser, b: seq<byte>): (n: Next)
    requires b != []
    ensures n.Take? ==> 0 < n.consumed <= |b|
    ensures n.Wait? ==> |b| < BUFFER_SIZE
  {
    if b[0] == DOLLAR then
      if |b| < 4 then Wait
      else
        var length := (b[2] as int) * 256 + b[3];
        if length + 4 > BUFFER_SIZE then Reject
        else if |b| < length + 4 then Wait
        else Take(Interleaved(b[1], b[4..length + 4]), length + 4)
    else
      var h := HeaderEnd(b);
      if h == 0 then if |b| >= HEADER_MAX then Reject else Wait
      else if h > HEADER_MAX || 0 in b[..h] || parse(b[..h]) > HEADER_MAX then Reject
      else
        var consumed := h + parse(b[..h]);
        if |b| < consumed then Wait else Take(Request(b[..h], b[h..consumed]), consumed)
  }

  // ----- a buffer, and a stream of chunks

  datatype Connection = Connection(log: seq<Message>, rest: seq<byte>, open: bool)

  /** process_input on a buffer's contents: handle every complete message, keep what is left. */
  function Process(parse: Parser, handle: Handler, log: seq<Message>, b: seq<byte>): (c: Connection)
    ensures log <= c.log
    ensures c.open ==> |c.rest| < BUFFER_SIZE
    decreases |b|
  {
    if b == [] then Connection(log, b, true)
    else
      match NextMessage(parse, b)
      case Wait => Connection(log, b, true)
      case Reject => Connection(log, b, false)
      case Take(m, n) =>
        if m.Request? && !handle(log + [m]) then Connection(log + [m], b, false)
        else Process(parse, handle, log + [m], b[n..])
  }

  /** One recv and the processing after it; a closed connection reads no more. */
  function Feed(parse: Parser, handle: Handler, c: Connection, chunk: seq<byte>): Connection {
    if !c.open then c.(rest := c.rest + chunk) else Process(parse, handle, c.log, c.rest + chunk)
  }

  function FeedAll(parse: Parser, handle: Handler, c: Connection, chunks: seq<seq<byte>>): Connection
    decreases |chunks|
  {
    if chunks == [] then c else FeedAll(parse, handle, Feed(parse, handle, c, chunks[0]), chunks[1..])
  }

  function Concat(chunks: seq<seq<byte>>): seq<byte> {
    if chunks == [] then [] else chunks[0] + Concat(chunks[1..])
  }

  lemma HeaderEndStands(b: seq<byte>, more: seq<byte>)
    ensures var h, k := HeaderEnd(b), HeaderEnd(b + more);
            if h > 0 then k == h else k == 0 || k > |b|
  {
    var h, k, d := HeaderEnd(b), HeaderEnd(b + more), b + more;
    if h > 0 {
      assert EmptyLineAt(d, h - 4);
      assert forall i :: 0 <= i < h - 4 ==> EmptyLineAt(d, i) == EmptyLineAt(b, i);
      HeaderEndIsUnique(d, h, k);
    } else {
      assert forall i :: 0 <= i && i + 4 <= |b| ==> EmptyLineAt(d, i) == EmptyLineAt(b, i);
    }
  }

  /** More bytes never change a decision that was already made. */
  lemma DecisionStands(parse: Parser, b: seq<byte>, more: seq<byte>)
    requires b != [] && !NextMessage(parse, b).Wait?
    ensures NextMessage(parse, b + more) == NextMessage(parse, b)
  {
    hide HeaderEnd;
    var d := b + more;
    assert d[0] == b[0];
    if b[0] == DOLLAR {
      var length := (b[2] as int) * 256 + b[3];
      if length + 4 <= |b| {
        assert d[4..length + 4] == b[4..length + 4];
      }
    } else {
      HeaderEndStands(b, more);
      var h := HeaderEnd(b);
      if h > 0 {
        assert d[..h] == b[..h];
        var end := h + parse(b[..h]);
        if end <= |b| {
          assert d[h..end] == b[h..end];
        }
      }
    }
  }

  /** Processing a stream in two parts is processing it at once. */
  lemma {:induction false} ProcessInParts(parse: Parser, handle: Handler, log: seq<Message>, a: seq<byte>, b: seq<byte>)
    ensures Feed(parse, handle, Process(parse, handle, log, a), b) == Process(parse, handle, log, a + b)
    decreases |a|
  {
    hide NextMessage;
    if a == [] {
      assert a + b == b;
    } else if !NextMessage(parse, a).Wait? {
      DecisionStands(parse, a, b);
      var next := NextMessage(parse, a);
      if next.Take? {
        assert (a + b)[next.consumed..] == a[next.consumed..] + b;
        ProcessInParts(parse, handle, log + [next.message], a[next.consumed..], b);
      }
    }
  }

  /** However a stream is cut into chunks, the same messages are handled and the connection ends the same way. */
  lemma {:induction false} ChunksDoNotMatter(parse: Parser, handle: Handler, log: seq<Message>, a: seq<byte>, chunks: seq<seq<byte>>)
    ensures FeedAll(parse, handle, Process(parse, handle, log, a), chunks)
         == Process(parse, handle, log, a + Concat(chunks))
    decreases |chunks|
  {
    if chunks == [] {
      assert a + Concat(chunks) == a;
    } else {
      hide Process, Feed;
      ProcessInParts(parse, handle, log, a, chunks[0]);
      ChunksDoNotMatter(parse, handle, log, a + chunks[0], chunks[1..]);
      assert a + chunks[0] + Concat(chunks[1..]) == a + Concat(chunks);
    }
  }

  // ----- printing messages, and its inverse

  function PrintMessage(m: Message): seq<byte>
    requires m.Interleaved? ==> |m.data| + 4 <= BUFFER_SIZE
  {
    match m
    case Interleaved(channel, data) => [DOLLAR, channel, |data| / 256, |data| % 256] + data
    case Request(header, body) => header + body
  }

  /** A message a client may send: within the limits, and a header that ends where its empty line does. */
  ghost predicate WellFormed(parse: Parser, m: Message) {
    match m
    case Interleaved(channel, data) => |data| + 4 <= BUFFER_SIZE
    case Request(header, body) =>
      && header != [] && header[0] != DOLLAR && HeaderEnd(header) == |header| <= HEADER_MAX
      && 0 !in header && parse(header) == |body| <= HEADER_MAX
  }

  ghost predicate AllWellFormed(parse: Parser, ms: seq<Message>) {
    forall i :: 0 <= i < |ms| ==> WellFormed(parse, ms[i])
  }

  ghost function PrintAll(parse: Parser, ms: seq<Message>): seq<byte>
    requires AllWellFormed(parse, ms)
  {
    if ms == [] then []
    else assert AllWellFormed(parse, ms[1..]); PrintMessage(ms[0]) + PrintAll(parse, ms[1..])
  }

  lemma TakePrinted(parse: Parser, m: Message, rest: seq<byte>)
    requires WellFormed(parse, m)
    ensures var p := PrintMessage(m);
            p != [] && NextMessage(parse, p + rest) == Take(m, |p|)
  {
    hide HeaderEnd;
    var p := PrintMessage(m);
    match m
    case Interleaved(channel, data) =>
      assert p[4..|data| + 4] == data;
      assert NextMessage(parse, p) == Take(m, |p|);
      DecisionStands(parse, p, rest);
    case Request(header, body) =>
      HeaderEndStands(header, body);
      assert p[..|header|] == header && p[|header|..|header| + |body|] == body;
      assert NextMessage(parse, p) == Take(m, |p|);
      DecisionStands(parse, p, rest);
  }

  /** And whatever is taken is such a message, printed at the head of the buffer: nothing else ever is. */
  lemma TakenIsPrinted(parse: Parser, b: seq<byte>)
    requires b != [] && NextMessage(parse, b).Take?
    ensures var m, n := NextMessage(parse, b).message, NextMessage(parse, b).consumed;
            WellFormed(parse, m) && (m.Interleaved? ==> |m.data| + 4 <= BUFFER_SIZE) && PrintMessage(m) == b[..n]
  {
    hide FindHeaderEnd;
    if b[0] == DOLLAR {
      var length := (b[2] as int) * 256 + b[3];
      assert b[..length + 4] == [b[0], b[1], b[2], b[3]] + b[4..length + 4];
    } else {
      var h := HeaderEnd(b);
      assert b[..h] + b[h..] == b;
      HeaderOfHeader(b);
    }
  }

  lemma HeaderOfHeader(b: seq<byte>)
    requires HeaderEnd(b) > 0
    ensures HeaderEnd(b[..HeaderEnd(b)]) == HeaderEnd(b)
  {
    var h := HeaderEnd(b);
    assert EmptyLineAt(b[..h], h - 4);
    assert forall i :: 0 <= i < h - 4 ==> EmptyLineAt(b[..h], i) == EmptyLineAt(b, i);
    HeaderEndIsUnique(b[..h], h, HeaderEnd(b[..h]));
  }

  /** A buffer is refused only when no bytes behind it could make a message of its beginning. */
  lemma RefusedIsHopeless(parse: Parser, b: seq<byte>, more: seq<byte>, m: Message, rest: seq<byte>)
    requires b != [] && NextMessage(parse, b).Reject? && WellFormed(parse, m)
    ensures b + more != PrintMessage(m) + rest
  {
    hide NextMessage, WellFormed, PrintMessage;
    DecisionStands(parse, b, more);
    TakePrinted(parse, m, rest);
  }

  /**
   * And waited on only while some could: a frame's missing bytes, a request's
   * missing body, or a header that has room to end; but for a frame of which
   * the first three bytes already announce too much.
   */
  lemma WaitIsHopeful(parse: Parser, b: seq<byte>)
    requires b != [] && NextMessage(parse, b).Wait?
    ensures
      || (b[0] != DOLLAR && HeaderEnd(b) == 0 && |b| < HEADER_MAX)
      || (b[0] == DOLLAR && |b| == 3 && b[2] >= 128)
      || exists more :: NextMessage(parse, b + more).Take?
  {
    hide FindHeaderEnd;
    if b[0] == DOLLAR && |b| == 3 && b[2] >= 128 {
    } else if b[0] == DOLLAR {
      var head := b + if |b| < 4 then Zeros(4 - |b|) else [];
      var length := (head[2] as int) * 256 + head[3];
      var more := (if |b| < 4 then Zeros(4 - |b|) else []) + Zeros(length);
      assert (b + more)[0] == DOLLAR && (b + more)[2] == head[2] && (b + more)[3] == head[3];
      assert |b| < 4 ==> length < 256 * 256;
      assert NextMessage(parse, b + more).Take?;
    } else if HeaderEnd(b) > 0 {
      var h := HeaderEnd(b);
      var more := Zeros(parse(b[..h]));
      HeaderEndStands(b, more);
      assert (b + more)[..h] == b[..h];
      assert NextMessage(parse, b + more).Take?;
    }
  }

  /** The handler keeps the connection open through all of these requests. */
  predicate KeptOpen(handle: Handler, log: seq<Message>, ms: seq<Message>)
    decreases |ms|
  {
    ms == [] || ((ms[0].Request? ==> handle(log + [ms[0]])) && KeptOpen(handle, log + [ms[0]], ms[1..]))
  }

  /**
   * Whatever the stream: every message handled stood in it, one behind the other,
   * and what is left follows; the requests before the last were not refused; and
   * processing stops only for a refused request, which stays in the buffer, for a
   * buffer that is refused, or where more bytes are needed.
   */
  lemma {:induction false} HandledStoodThere(parse: Parser, handle: Handler, log: seq<Message>, b: seq<byte>)
    ensures var c := Process(parse, handle, log, b);
            Outcome(parse, handle, log, c.log[|log|..], c, b)
    decreases |b|
  {
    hide NextMessage, WellFormed, PrintMessage, Outcome;
    var c := Process(parse, handle, log, b);
    var handled := c.log[|log|..];
    if b == [] || !NextMessage(parse, b).Take? {
      assert handled == [];
      NothingHandled(parse, handle, log, c, b);
    } else {
      var m, n := NextMessage(parse, b).message, NextMessage(parse, b).consumed;
      TakenIsPrinted(parse, b);
      if m.Request? && !handle(log + [m]) {
        assert handled == [m];
        RefusedAtOnce(parse, handle, log, m, c, b);
      } else {
        HandledStoodThere(parse, handle, log + [m], b[n..]);
        var later := c.log[|log + [m]|..];
        assert handled == [m] + later && b == PrintMessage(m) + b[n..];
        OutcomeNext(parse, handle, log, m, later, c, b[n..]);
      }
    }
  }

  /** What processing b came to: the messages handled since log, and the connection after them. */
  ghost predicate Outcome(parse: Parser, handle: Handler, log: seq<Message>, handled: seq<Message>, c: Connection, b: seq<byte>) {
    && AllWellFormed(parse, handled)
    && if c.open then
         Whole(parse, handle, log, handled, c.rest, b) && (c.rest == [] || NextMessage(parse, c.rest).Wait?)
       else
         || (Whole(parse, handle, log, handled, c.rest, b) && c.rest != [] && NextMessage(parse, c.rest).Reject?)
         || (handled != [] && Refused(parse, handle, log, handled, c.rest, b))
  }

  /** The handler kept the connection open through these, and behind them is the rest. */
  ghost predicate Whole(parse: Parser, handle: Handler, log: seq<Message>, handled: seq<Message>, rest: seq<byte>, b: seq<byte>) {
    AllWellFormed(parse, handled) && PrintAll(parse, handled) + rest == b && KeptOpen(handle, log, handled)
  }

  lemma NothingHandled(parse: Parser, handle: Handler, log: seq<Message>, c: Connection, b: seq<byte>)
    requires c.rest == b && c.open == (b == [] || NextMessage(parse, b).Wait?) && (b != [] ==> !NextMessage(parse, b).Take?)
    ensures Outcome(parse, handle, log, [], c, b)
  {
    hide NextMessage;
    assert [] + b == b;
  }

  lemma RefusedAtOnce(parse: Parser, handle: Handler, log: seq<Message>, m: Message, c: Connection, b: seq<byte>)
    requires WellFormed(parse, m) && m.Request? && !handle(log + [m]) && !c.open && c.rest == b
    ensures Outcome(parse, handle, log, [m], c, b)
  {
    hide WellFormed;
    assert [m][..0] == [] && [] + b == b;
  }

  lemma WholeNext(parse: Parser, handle: Handler, log: seq<Message>, m: Message, later: seq<Message>, rest: seq<byte>, b: seq<byte>)
    requires WellFormed(parse, m) && (m.Request? ==> handle(log + [m])) && Whole(parse, handle, log + [m], later, rest, b)
    ensures Whole(parse, handle, log, [m] + later, rest, PrintMessage(m) + b)
  {
    hide WellFormed, PrintMessage, KeptOpen;
    PrintNext(parse, m, later);
    KeptNext(handle, log, m, later);
  }

  lemma OutcomeNext(parse: Parser, handle: Handler, log: seq<Message>, m: Message, later: seq<Message>, c: Connection, b: seq<byte>)
    requires WellFormed(parse, m) && (m.Request? ==> handle(log + [m])) && Outcome(parse, handle, log + [m], later, c, b)
    ensures Outcome(parse, handle, log, [m] + later, c, PrintMessage(m) + b)
  {
    hide WellFormed, PrintMessage, Whole, NextMessage;
    PrintNext(parse, m, later);
    if Whole(parse, handle, log + [m], later, c.rest, b) {
      WholeNext(parse, handle, log, m, later, c.rest, b);
    }
    if later != [] && Refused(parse, handle, log + [m], later, c.rest, b) {
      var n := |later| - 1;
      WholeNext(parse, handle, log, m, later[..n], c.rest, b);
      assert ([m] + later)[..n + 1] == [m] + later[..n] && log + ([m] + later) == log + [m] + later;
    }
  }

  /** The last request handled was refused, and is left in the buffer. */
  ghost predicate Refused(parse: Parser, handle: Handler, log: seq<Message>, handled: seq<Message>, rest: seq<byte>, b: seq<byte>)
    requires handled != []
  {
    var n := |handled| - 1;
    Whole(parse, handle, log, handled[..n], rest, b) && handled[n].Request? && !handle(log + handled)
  }

  lemma PrintNext(parse: Parser, m: Message, later: seq<Message>)
    requires WellFormed(parse, m) && AllWellFormed(parse, later)
    ensures AllWellFormed(parse, [m] + later) && PrintAll(parse, [m] + later) == PrintMessage(m) + PrintAll(parse, later)
  {
    assert ([m] + later)[1..] == later;
  }

  lemma KeptNext(handle: Handler, log: seq<Message>, m: Message, later: seq<Message>)
    ensures KeptOpen(handle, log, [m] + later) == ((m.Request? ==> handle(log + [m])) && KeptOpen(handle, log + [m], later))
  {
    assert ([m] + later)[1..] == later;
  }

  /** A stream of well-formed messages is handled message by message, and nothing of it is left over. */
  lemma {:induction false} ProcessPrinted(parse: Parser, handle: Handler, log: seq<Message>, ms: seq<Message>)
    requires AllWellFormed(parse, ms) && KeptOpen(handle, log, ms)
    ensures Process(parse, handle, log, PrintAll(parse, ms)) == Connection(log + ms, [], true)
    decreases |ms|
  {
    if ms == [] {
      assert log + ms == log;
    } else {
      hide NextMessage, WellFormed, PrintMessage;
      var m, rest := ms[0], ms[1..];
      assert WellFormed(parse, m) && AllWellFormed(parse, rest);
      var p, tail := PrintMessage(m), PrintAll(parse, rest);
      TakePrinted(parse, m, tail);
      assert (p + tail)[|p|..] == tail;
      ProcessPrinted(parse, handle, log + [m], rest);
      Shift(log, m, rest);
      assert [m] + rest == ms;
    }
  }

  // ----- the connection's buffer

  /** The receive buffer of rtsp_client, and the messages handled so far. */
  class Client {
    const input: array<byte>
    var inputSize: nat
    var log: seq<Message>

    ghost predicate Valid()
      reads this
    {
      input.Length == BUFFER_SIZE && inputSize <= BUFFER_SIZE
    }

    constructor ()
      ensures Valid() && fresh(input) && inputSize == 0 && log == []
    {
      input := new byte[BUFFER_SIZE](_ => 0);
      inputSize, log := 0, [];
    }

    /** The search for the end of the header. */
    method FindEmptyLine() returns (h: nat)
      requires Valid()
      ensures h == HeaderEnd(input[..inputSize])
    {
      ghost var b := input[..inputSize];
      var i := 0;
      while i + 4 <= inputSize
        invariant forall j :: 0 <= j < i ==> !EmptyLineAt(b, j)
      {
        if input[i] == 13 && input[i + 1] == 10 && input[i + 2] == 13 && input[i + 3] == 10 {
          assert EmptyLineAt(b, i);
          HeaderEndIsUnique(b, i + 4, HeaderEnd(b));
          return i + 4;
        }
        i := i + 1;
      }
      HeaderEndIsUnique(b, 0, HeaderEnd(b));
      h := 0;
    }

    /** memmove of what follows a message to the front of the buffer. */
    method Consume(n: nat)
      requires Valid() && n <= inputSize
      modifies this`inputSize, input
      ensures Valid() && input[..inputSize] == old(input[n..inputSize])
    {
      var i := 0;
      inputSize := inputSize - n;
      while i < inputSize
        invariant i <= inputSize == old(inputSize) - n
        invariant forall j :: 0 <= j < i ==> input[j] == old(input[n + j])
        invariant forall j :: i <= j < input.Length ==> input[j] == old(input[j])
      {
        input[i] := input[i + n];
        i := i + 1;
      }
    }

    /** One turn of process_input's loop. */
    method Step(parse: Parser) returns (next: Next)
      requires Valid() && inputSize > 0
      ensures next == NextMessage(parse, input[..inputSize])
    {
      hide HeaderEnd;
      ghost var b := input[..inputSize];
      if input[0] == DOLLAR {
        if inputSize < 4 {
          return Wait;
        }
        var length := (input[2] as int) * 256 + input[3];
        if length + 4 > input.Length {
          return Reject;
        }
        if inputSize < length + 4 {
          return Wait;
        }
        assert b[4..length + 4] == input[4..length + 4];
        return Take(Interleaved(input[1], input[4..length + 4]), length + 4);
      }
      var h := FindEmptyLine();
      if h == 0 {
        return if inputSize >= HEADER_MAX then Reject else Wait;
      }
      var header := input[..h];
      assert header == b[..h];
      if h > HEADER_MAX || 0 in header {
        return Reject;
      }
      var length := parse(header);
      if length > HEADER_MAX || h + length > input.Length {
        return Reject;
      }
      if inputSize < h + length {
        return Wait;
      }
      assert b[h..h + length] == input[h..h + length];
      next := Take(Request(header, input[h..h + length]), h + length);
    }

    /** process_input: true while the connection stays open, and then there is room for more. */
    method ProcessInput(parse: Parser, handle: Handler) returns (open: bool)
      requires Valid()
      modifies this, input
      ensures Valid()
      ensures Connection(log, input[..inputSize], open) == Process(parse, handle, old(log), old(input[..inputSize]))
      ensures open ==> inputSize < input.Length
    {
      ghost var all := Process(parse, handle, log, input[..inputSize]);
      while inputSize > 0
        invariant Valid()
        invariant all == Process(parse, handle, log, input[..inputSize])
        decreases inputSize
      {
        hide NextMessage;
        var next := Step(parse);
        match next
        case Wait => return true;
        case Reject => return false;
        case Take(m, n) =>
          log := log + [m];
          if m.Request? && !handle(log) {
            return false;
          }
          assert input[..inputSize][n..] == input[n..inputSize];
          Consume(n);
      }
      open := true;
    }

    /** recv of a chunk that fits the free space, and the processing after it. */
    method Receive(parse: Parser, handle: Handler, chunk: seq<byte>) returns (open: bool)
      requires Valid() && inputSize + |chunk| <= BUFFER_SIZE
      modifies this, input
      ensures Valid()
      ensures Connection(log, input[..inputSize], open)
           == Feed(parse, handle, Connection(old(log), old(input[..inputSize]), true), chunk)
      ensures open ==> inputSize < input.Length
    {
      forall i | 0 <= i < |chunk| {
        input[inputSize + i] := chunk[i];
      }
      assert input[..inputSize + |chunk|] == old(input[..inputSize]) + chunk;
      inputSize := inputSize + |chunk|;
      open := ProcessInput(parse, handle);
    }
  }
}
