/**
 * RTP packetization of H.264 access units and A-law frames (rtsp.c), against a
 * receiver written from section 5.8 of RFC 6184.
 */
module Rtp {
  import opened Bytes
  import AnnexB

  const PAYLOAD_MAX: nat := 1200
  const CHUNK_MAX: nat := PAYLOAD_MAX - 2
  const VIDEO_TYPE: nat := 96
  const AUDIO_TYPE: nat := 8
  const TWO16: nat := 0x1_0000
  const TWO32: nat := 0x1_0000_0000

  datatype Packet = Packet(payloadType: nat, marker: bool, sequence: nat, timestamp: nat, payload: seq<byte>)

  /** What goes into one packet: its payload, marker bit and timestamp. */
  datatype Item = Item(marker: bool, timestamp: nat, payload: seq<byte>)

  /** A NAL unit to send, and whether it ends the access unit. */
  datatype Unit = Unit(nal: seq<byte>, last: bool)

  // ----- what is sent

  /** The header checks of h264_nal: forbidden bit clear, types 1 to 23. */
  predicate Sendable(nal: seq<byte>) {
    nal != [] && nal[0] < 128 && 1 <= nal[0] % 32 <= 23
  }

  function FragmentHeader(nal: seq<byte>, first: bool, last: bool): (h: seq<byte>)
    requires nal != []
    ensures |h| == 2
  {
    [nal[0] / 32 * 32 + 28, nal[0] % 32 + (if first then 128 else 0) + (if last then 64 else 0)]
  }

  function Fragments(nal: seq<byte>, offset: nat, last: bool, ts: nat): (items: seq<Item>)
    requires 1 <= offset < |nal|
    ensures |items| > 0
    decreases |nal| - offset
  {
    var chunk := if |nal| - offset > CHUNK_MAX then CHUNK_MAX else |nal| - offset;
    var end := offset + chunk == |nal|;
    [Item(end && last, ts, FragmentHeader(nal, offset == 1, end) + nal[offset..offset + chunk])]
    + if end then [] else Fragments(nal, offset + chunk, last, ts)
  }

  function NalItems(u: Unit, ts: nat): (items: seq<Item>) {
    if |u.nal| <= PAYLOAD_MAX then [Item(u.last, ts, u.nal)] else Fragments(u.nal, 1, u.last, ts)
  }

  function ItemsOf(us: seq<Unit>, ts: nat): seq<Item> {
    if us == [] then [] else NalItems(us[0], ts) + ItemsOf(us[1..], ts)
  }

  /** Packets number their items consecutively, modulo 65536. */
  function Packets(payloadType: nat, sequence: nat, items: seq<Item>): (ps: seq<Packet>)
    ensures |ps| == |items|
  {
    seq(|items|, i requires 0 <= i < |items| =>
      Packet(payloadType, items[i].marker, (sequence + i) % TWO16, items[i].timestamp, items[i].payload))
  }

  /** The nonempty NAL units of an access unit; the last one found carries the marker. */
  function UnitsOf(nals: seq<seq<byte>>): seq<Unit> {
    if nals == [] then []
    else (if nals[0] == [] then [] else [Unit(nals[0], |nals| == 1)]) + UnitsOf(nals[1..])
  }

  /** A frame as sent: the cached parameter sets before a keyframe, then its units, or all of it without start codes. */
  function FrameUnits(parameters: seq<seq<byte>>, data: seq<byte>): seq<Unit> {
    seq(|parameters|, i requires 0 <= i < |parameters| => Unit(parameters[i], false))
    + if AnnexB.Head(data).more then UnitsOf(AnnexB.Split(data)) else if data == [] then [] else [Unit(data, true)]
  }

  /** media_timestamp, with the C's 32-bit wrap-around. */
  function MediaTimestamp(base: nat, pts: nat, rate: nat): nat {
    (base + pts / 1_000_000 * rate + pts % 1_000_000 * rate / 1_000_000) % TWO32
  }

  /** By the header byte: the forbidden bit is clear and the type is one of 1 to 23. */
  lemma SendableByType(header: byte, payload: seq<byte>)
    ensures Sendable([header] + payload) <==> header / 128 == 0 && 1 <= header % 32 <= 23
    ensures !Sendable([])
  {
  }

  /** Pieces of audio are within 1200 bytes, full ones before the last, and carry no marker. */
  lemma {:induction false} AudioRules(data: seq<byte>, offset: nat, ts: nat)
    requires offset <= |data|
    ensures var items := AudioItems(data, offset, ts);
            && |items| == (|data| - offset + 1199) / 1200
            && forall i :: 0 <= i < |items| ==>
                 && !items[i].marker && items[i].timestamp == (ts + offset + 1200 * i) % TWO32
                 && (i < |items| - 1 ==> |items[i].payload| == 1200) && 1 <= |items[i].payload| <= 1200
    decreases |data| - offset
  {
    if offset < |data| {
      var size := if |data| - offset > 1200 then 1200 else |data| - offset;
      AudioRules(data, offset + size, ts);
      var later := AudioItems(data, offset + size, ts);
      var items := AudioItems(data, offset, ts);
      assert items[1..] == later && forall i :: 1 <= i < |items| ==> items[i] == later[i - 1];
    }
  }

  /** The split division loses nothing: the timestamp is the exact floor of the time in ticks. */
  lemma TimestampExact(base: nat, pts: nat, rate: nat)
    ensures MediaTimestamp(base, pts, rate) == (base + pts * rate / 1_000_000) % TWO32
  {
    var q, m := pts / 1_000_000, pts % 1_000_000;
    var x, y := q * rate, m * rate;
    assert pts * rate == (q * 1_000_000 + m) * rate == x * 1_000_000 + y;
    assert (x * 1_000_000 + y) / 1_000_000 == x + y / 1_000_000;
  }

  // ----- the receiver

  /** Complete units, and the one being reassembled ([] when there is none). */
  datatype Receiver = Receiving(nals: seq<seq<byte>>, partial: seq<byte>) | Broken

  /** Single NAL unit packets (section 5.6) and FU-A fragments (section 5.8); anything else breaks the stream. */
  function Receive(r: Receiver, p: seq<byte>): Receiver {
    if r.Broken? || p == [] then Broken
    else if 1 <= p[0] % 32 <= 23 then
      if r.partial == [] then Receiving(r.nals + [p], []) else Broken
    else if p[0] % 32 != 28 || |p| < 2 then Broken
    else
      var start, end := p[1] / 128 == 1, p[1] / 64 % 2 == 1;
      if (start && end) || start != (r.partial == []) then Broken
      else
        var unit := (if start then [p[0] / 32 * 32 + p[1] % 32] else r.partial) + p[2..];
        if end then Receiving(r.nals + [unit], []) else Receiving(r.nals, unit)
  }

  function ReceiveAll(r: Receiver, items: seq<Item>): Receiver
    decreases |items|
  {
    if items == [] then r else ReceiveAll(Receive(r, items[0].payload), items[1..])
  }

  lemma {:induction false} ReceiveConcat(r: Receiver, a: seq<Item>, b: seq<Item>)
    ensures ReceiveAll(r, a + b) == ReceiveAll(ReceiveAll(r, a), b)
    decreases |a|
  {
    if a == [] {
      assert a + b == b;
    } else {
      assert (a + b)[0] == a[0] && (a + b)[1..] == a[1..] + b;
      ReceiveConcat(Receive(r, a[0].payload), a[1..], b);
    }
  }

  // ----- round trip

  /** The two header bytes of a fragment carry the unit's header and say where it starts and ends. */
  lemma HeaderBits(nal: seq<byte>, first: bool, last: bool)
    requires Sendable(nal)
    ensures var h := FragmentHeader(nal, first, last);
            && h[0] % 32 == 28 && h[0] / 32 * 32 + h[1] % 32 == nal[0]
            && (h[1] / 128 == 1) == first && (h[1] / 64 % 2 == 1) == last
  {
  }

  /** One fragment, received after the bytes before it. */
  lemma ReceiveFragment(nals: seq<seq<byte>>, nal: seq<byte>, offset: nat, to: nat, last: bool)
    requires Sendable(nal) && 1 <= offset < to <= |nal| && last == (to == |nal|) && !(offset == 1 && last)
    ensures Receive(Receiving(nals, if offset == 1 then [] else nal[..offset]),
                    FragmentHeader(nal, offset == 1, last) + nal[offset..to])
         == if last then Receiving(nals + [nal], []) else Receiving(nals, nal[..to])
  {
    HeaderBits(nal, offset == 1, last);
    var p := FragmentHeader(nal, offset == 1, last) + nal[offset..to];
    assert p[2..] == nal[offset..to];
    assert nal[..1] == [nal[0]];
    assert nal[..to] == nal[..offset] + nal[offset..to];
    assert nal[..|nal|] == nal;
  }

  /** The fragments from offset on complete the unit whose first bytes have arrived. */
  lemma {:induction false} FragmentsComplete(nals: seq<seq<byte>>, nal: seq<byte>, offset: nat, last: bool, ts: nat)
    requires Sendable(nal) && |nal| > PAYLOAD_MAX && 1 <= offset < |nal|
    ensures ReceiveAll(Receiving(nals, if offset == 1 then [] else nal[..offset]), Fragments(nal, offset, last, ts))
         == Receiving(nals + [nal], [])
    decreases |nal| - offset
  {
    hide Receive, FragmentHeader;
    var to := if |nal| - offset > CHUNK_MAX then offset + CHUNK_MAX else |nal|;
    ReceiveFragment(nals, nal, offset, to, to == |nal|);
    if to < |nal| {
      FragmentsComplete(nals, nal, to, last, ts);
    }
  }

  lemma NalComplete(nals: seq<seq<byte>>, u: Unit, ts: nat)
    requires Sendable(u.nal)
    ensures ReceiveAll(Receiving(nals, []), NalItems(u, ts)) == Receiving(nals + [u.nal], [])
  {
    if |u.nal| > PAYLOAD_MAX {
      FragmentsComplete(nals, u.nal, 1, u.last, ts);
    }
  }

  ghost predicate AllSendable(us: seq<Unit>) {
    forall i :: 0 <= i < |us| ==> Sendable(us[i].nal)
  }

  function NalsOf(us: seq<Unit>): seq<seq<byte>> {
    if us == [] then [] else [us[0].nal] + NalsOf(us[1..])
  }

  /** What the packets carry is the units, in order. */
  lemma {:induction false} UnitsComplete(nals: seq<seq<byte>>, us: seq<Unit>, ts: nat)
    requires AllSendable(us)
    ensures ReceiveAll(Receiving(nals, []), ItemsOf(us, ts)) == Receiving(nals + NalsOf(us), [])
    decreases |us|
  {
    if us == [] {
      assert nals + NalsOf(us) == nals;
    } else {
      hide NalItems, Receive, Sendable, ReceiveAll;
      assert AllSendable(us[1..]);
      ReceiveConcat(Receiving(nals, []), NalItems(us[0], ts), ItemsOf(us[1..], ts));
      NalComplete(nals, us[0], ts);
      UnitsComplete(nals + [us[0].nal], us[1..], ts);
      Shift(nals, us[0].nal, NalsOf(us[1..]));
    }
  }

  lemma {:induction false} NalsOfUnits(nals: seq<seq<byte>>)
    ensures NalsOf(UnitsOf(nals)) == AnnexB.Nonempty(nals)
  {
    if nals != [] {
      NalsOfUnits(nals[1..]);
      if nals[0] != [] {
        assert UnitsOf(nals)[1..] == UnitsOf(nals[1..]);
      } else {
        assert UnitsOf(nals) == UnitsOf(nals[1..]);
      }
    }
  }

  lemma {:induction false} NalsOfConcat(a: seq<Unit>, b: seq<Unit>)
    ensures NalsOf(a + b) == NalsOf(a) + NalsOf(b)
  {
    if a == [] {
      assert a + b == b;
    } else {
      assert (a + b)[0] == a[0] && (a + b)[1..] == a[1..] + b;
      NalsOfConcat(a[1..], b);
    }
  }

  lemma {:induction false} NalsOfParameters(ps: seq<seq<byte>>)
    ensures NalsOf(seq(|ps|, i requires 0 <= i < |ps| => Unit(ps[i], false))) == ps
  {
    if ps != [] {
      var us := seq(|ps|, i requires 0 <= i < |ps| => Unit(ps[i], false));
      assert us[1..] == seq(|ps[1..]|, i requires 0 <= i < |ps[1..]| => Unit(ps[1..][i], false));
      NalsOfParameters(ps[1..]);
    }
  }

  /** The access unit a viewer is meant to get: parameter sets, then every nonempty unit. */
  function AccessUnit(parameters: seq<seq<byte>>, data: seq<byte>): seq<seq<byte>> {
    parameters + if AnnexB.Head(data).more then AnnexB.Nonempty(AnnexB.Split(data)) else if data == [] then [] else [data]
  }

  /** Depacketizing what a frame is sent as gives back its NAL units in order, after the cached parameter sets. */
  lemma FrameRoundTrip(parameters: seq<seq<byte>>, data: seq<byte>, ts: nat)
    requires AllSendable(FrameUnits(parameters, data))
    ensures ReceiveAll(Receiving([], []), ItemsOf(FrameUnits(parameters, data), ts))
         == Receiving(AccessUnit(parameters, data), [])
  {
    var us := FrameUnits(parameters, data);
    var ps := seq(|parameters|, i requires 0 <= i < |parameters| => Unit(parameters[i], false));
    var rest := us[|parameters|..];
    assert us == ps + rest;
    NalsOfConcat(ps, rest);
    NalsOfParameters(parameters);
    if AnnexB.Head(data).more {
      NalsOfUnits(AnnexB.Split(data));
    }
    UnitsComplete([], us, ts);
    assert [] + NalsOf(us) == NalsOf(us);
  }

  /** From an encoder's output to a viewer's decoder: the units written are the units received. */
  lemma PrintedRoundTrip(parameters: seq<seq<byte>>, zeros: nat, us: seq<AnnexB.Unit>, ts: nat)
    requires us != [] && AnnexB.AllValid(us)
    requires forall i :: 0 <= i < |us| ==> Sendable(us[i].nal)
    requires forall i :: 0 <= i < |parameters| ==> Sendable(parameters[i])
    ensures ReceiveAll(Receiving([], []), ItemsOf(FrameUnits(parameters, AnnexB.PrintStream(zeros, us)), ts))
         == Receiving(parameters + AnnexB.NalsOf(us), [])
  {
    hide AnnexB.Head, AnnexB.Tail, ReceiveAll, ItemsOf;
    var data := AnnexB.PrintStream(zeros, us);
    AnnexB.SplitPrint(zeros, us);
    AnnexB.NoneEmpty(us);
    SendableUnits(us);
    FrameRoundTrip(parameters, data, ts);
  }

  lemma {:induction false} SendableUnits(us: seq<AnnexB.Unit>)
    requires AnnexB.AllValid(us) && forall i :: 0 <= i < |us| ==> Sendable(us[i].nal)
    ensures AllSendable(UnitsOf(AnnexB.NalsOf(us)))
  {
    if us != [] {
      hide Sendable;
      assert AnnexB.ValidNal(us[0].nal) && AnnexB.AllValid(us[1..]);
      SendableUnits(us[1..]);
    }
  }

  // ----- packet rules

  ghost predicate IsStart(i: Item) { |i.payload| >= 2 && i.payload[0] % 32 == 28 && i.payload[1] / 128 == 1 }

  ghost predicate IsEnd(i: Item) { |i.payload| >= 2 && i.payload[0] % 32 == 28 && i.payload[1] / 64 % 2 == 1 }

  /** The S bit is on the first fragment only, the E bit on the last only, and there are at least two. */
  lemma {:induction false} FragmentRules(nal: seq<byte>, offset: nat, last: bool, ts: nat)
    requires Sendable(nal) && 1 <= offset < |nal|
    ensures var items := Fragments(nal, offset, last, ts);
            && (|nal| - offset > CHUNK_MAX ==> |items| >= 2)
            && forall i :: 0 <= i < |items| ==>
                 && |items[i].payload| <= PAYLOAD_MAX
                 && IsStart(items[i]) == (offset == 1 && i == 0)
                 && IsEnd(items[i]) == (i == |items| - 1)
                 && items[i].marker == (last && i == |items| - 1)
    decreases |nal| - offset
  {
    var items := Fragments(nal, offset, last, ts);
    var to := if |nal| - offset > CHUNK_MAX then offset + CHUNK_MAX else |nal|;
    HeaderBits(nal, offset == 1, to == |nal|);
    if to < |nal| {
      FragmentRules(nal, to, last, ts);
      assert items[1..] == Fragments(nal, to, last, ts);
      assert forall i :: 1 <= i < |items| ==> items[i] == items[1..][i - 1];
    }
  }

  lemma NalRules(u: Unit, ts: nat)
    requires Sendable(u.nal)
    ensures var items := NalItems(u, ts);
            |items| > 0 && forall i :: 0 <= i < |items| ==>
              |items[i].payload| <= PAYLOAD_MAX && items[i].marker == (u.last && i == |items| - 1)
  {
    if |u.nal| > PAYLOAD_MAX {
      FragmentRules(u.nal, 1, u.last, ts);
    }
  }

  /** Only the last unit of an access unit may be marked as its last. */
  ghost predicate LastOnly(us: seq<Unit>) {
    forall i :: 0 <= i < |us| - 1 ==> !us[i].last
  }

  /** No payload is over 1200 bytes, and the marker is on the last packet exactly when the last unit asks for it. */
  lemma {:induction false} ItemRules(us: seq<Unit>, ts: nat)
    requires AllSendable(us) && LastOnly(us)
    ensures var items := ItemsOf(us, ts);
            && (us != [] ==> items != [])
            && forall i :: 0 <= i < |items| ==>
                 && |items[i].payload| <= PAYLOAD_MAX
                 && items[i].marker == (us[|us| - 1].last && i == |items| - 1)
    decreases |us|
  {
    if us != [] {
      hide NalItems;
      var head, tail, items := NalItems(us[0], ts), ItemsOf(us[1..], ts), ItemsOf(us, ts);
      assert Sendable(us[0].nal) && AllSendable(us[1..]) && LastOnly(us[1..]);
      NalRules(us[0], ts);
      ItemRules(us[1..], ts);
      assert items == head + tail;
    }
  }

  /** Whether the last NAL unit of an access unit holds anything. */
  ghost predicate EndsNonempty(data: seq<byte>) {
    if AnnexB.Head(data).more then
      var nals := AnnexB.Split(data); nals[|nals| - 1] != []
    else data != []
  }

  lemma {:induction false} UnitsLast(nals: seq<seq<byte>>)
    requires nals != []
    ensures var us := UnitsOf(nals);
            && LastOnly(us)
            && (nals[|nals| - 1] != [] <==> us != [] && us[|us| - 1].last)
  {
    if |nals| > 1 {
      UnitsLast(nals[1..]);
    }
  }

  /** Of all the packets of a frame, the marker is on the last one, when the last NAL unit is not empty, and on no other. */
  lemma FrameMarker(parameters: seq<seq<byte>>, data: seq<byte>, ts: nat)
    requires AllSendable(FrameUnits(parameters, data))
    ensures var items := ItemsOf(FrameUnits(parameters, data), ts);
            forall i :: 0 <= i < |items| ==>
              && |items[i].payload| <= PAYLOAD_MAX
              && items[i].marker == (EndsNonempty(data) && i == |items| - 1)
  {
    var us := FrameUnits(parameters, data);
    if AnnexB.Head(data).more {
      UnitsLast(AnnexB.Split(data));
    }
    assert LastOnly(us);
    assert us != [] ==> us[|us| - 1].last == EndsNonempty(data);
    ItemRules(us, ts);
  }

  // ----- the sender

  lemma {:induction false} ItemsConcat(a: seq<Unit>, b: seq<Unit>, ts: nat)
    ensures ItemsOf(a + b, ts) == ItemsOf(a, ts) + ItemsOf(b, ts)
  {
    if a == [] {
      assert a + b == b;
    } else {
      assert (a + b)[0] == a[0] && (a + b)[1..] == a[1..] + b;
      ItemsConcat(a[1..], b, ts);
    }
  }

  /** A track's sending state: next sequence number, packets the transport will still take, packets sent. */
  datatype Sender = Sender(sequence: nat, budget: int, sent: seq<Packet>)

  function Emit(s: Sender, payloadType: nat, items: seq<Item>): Sender {
    Sender((s.sequence + |items|) % TWO16, s.budget - |items|, s.sent + Packets(payloadType, s.sequence, items))
  }

  lemma EmitConcat(s: Sender, payloadType: nat, a: seq<Item>, b: seq<Item>)
    ensures Emit(Emit(s, payloadType, a), payloadType, b) == Emit(s, payloadType, a + b)
  {
    var l, r := Emit(Emit(s, payloadType, a), payloadType, b).sent, Emit(s, payloadType, a + b).sent;
    assert |l| == |r|;
    forall i | 0 <= i < |l| ensures l[i] == r[i] {
      if |s.sent| + |a| <= i {
        var k := i - |s.sent| - |a|;
        assert (a + b)[|a| + k] == b[k];
        WrapTwice(s.sequence, |a|, k);
      }
    }
    WrapTwice(s.sequence, |a|, |b|);
  }

  lemma WrapTwice(x: nat, y: nat, z: nat)
    ensures ((x + y) % TWO16 + z) % TWO16 == (x + (y + z)) % TWO16
  {
  }

  /** The transport failed on the way: exactly as many of these items went out as it would still take. */
  ghost predicate Cut(before: Sender, after: Sender, payloadType: nat, items: seq<Item>) {
    0 <= before.budget < |items| && after.sent == Emit(before, payloadType, items[..before.budget]).sent
  }

  lemma CutExtend(before: Sender, after: Sender, payloadType: nat, a: seq<Item>, b: seq<Item>)
    requires Cut(Emit(before, payloadType, a), after, payloadType, b)
    ensures Cut(before, after, payloadType, a + b)
  {
    var n := before.budget - |a|;
    EmitConcat(before, payloadType, a, b[..n]);
    assert (a + b)[..before.budget] == a + b[..n];
  }

  /** rtsp_track, with the transport as the number of packets it will still take. */
  class Track {
    const base: nat
    var sequence: nat
    var packets: nat
    var octets: nat
    var budget: nat
    ghost var sent: seq<Packet>

    ghost predicate Valid()
      reads this
    {
      sequence < TWO16
    }

    ghost function View(): Sender
      reads this
    {
      Sender(sequence, budget, sent)
    }

    constructor (base: nat, sequence: nat, budget: nat)
      requires sequence < TWO16
      ensures Valid() && this.base == base && View() == Sender(sequence, budget, [])
    {
      this.base, this.sequence, this.budget := base, sequence, budget;
      packets, octets := 0, 0;
      sent := [];
    }

    method Rtp(payloadType: nat, item: Item) returns (ok: bool)
      requires Valid()
      modifies this
      ensures Valid()
      ensures ok == (|item.payload| <= PAYLOAD_MAX && old(budget) > 0)
      ensures if ok then View() == Emit(old(View()), payloadType, [item]) else sent == old(sent)
    {
      if |item.payload| > PAYLOAD_MAX {
        return false;
      }
      var number := sequence;
      sequence := (sequence + 1) % TWO16;
      if budget == 0 {
        return false;
      }
      budget := budget - 1;
      sent := sent + [Packet(payloadType, item.marker, number, item.timestamp, item.payload)];
      packets := (packets + 1) % TWO32;
      octets := (octets + |item.payload|) % TWO32;
      ok := true;
    }

    method H264Nal(u: Unit, ts: nat) returns (ok: bool)
      requires Valid()
      modifies this
      ensures Valid()
      ensures ok == (u.nal == [] || (Sendable(u.nal) && |NalItems(u, ts)| <= old(budget)))
      ensures ok ==> View() == Emit(old(View()), VIDEO_TYPE, if u.nal == [] then [] else NalItems(u, ts))
      ensures !ok ==> if Sendable(u.nal) then Cut(old(View()), View(), VIDEO_TYPE, NalItems(u, ts)) else View() == old(View())
    {
      var nal := u.nal;
      if nal == [] {
        return true;
      }
      if nal[0] >= 128 || nal[0] % 32 == 0 || nal[0] % 32 >= 24 {
        return false;
      }
      if |nal| <= PAYLOAD_MAX {
        ok := Rtp(VIDEO_TYPE, Item(u.last, ts, nal));
      } else {
        ok := SendFragments(u, ts);
      }
    }

    /** rtp, as one step of sending done + [item] + rest. */
    method RtpAfter(payloadType: nat, item: Item, ghost before: Sender, ghost done: seq<Item>, ghost rest: seq<Item>)
      returns (ok: bool)
      requires Valid() && View() == Emit(before, payloadType, done) && |item.payload| <= PAYLOAD_MAX
      modifies this
      ensures Valid()
      ensures ok == (|done| < before.budget)
      ensures ok ==> View() == Emit(before, payloadType, done + [item])
      ensures !ok ==> Cut(before, View(), payloadType, done + ([item] + rest))
    {
      ghost var now := View();
      ok := Rtp(payloadType, item);
      if ok {
        EmitConcat(before, payloadType, done, [item]);
      } else {
        CutNow(now, View(), payloadType, [item] + rest);
        CutExtend(before, View(), payloadType, done, [item] + rest);
      }
    }

    method SendFragments(u: Unit, ts: nat) returns (ok: bool)
      requires Valid() && Sendable(u.nal) && |u.nal| > PAYLOAD_MAX
      modifies this
      ensures Valid()
      ensures ok == (|NalItems(u, ts)| <= old(budget))
      ensures ok ==> View() == Emit(old(View()), VIDEO_TYPE, NalItems(u, ts))
      ensures !ok ==> Cut(old(View()), View(), VIDEO_TYPE, NalItems(u, ts))
    {
      var nal := u.nal;
      var offset := 1;
      ghost var items, done: seq<Item> := NalItems(u, ts), [];
      ghost var left := items;
      ok := true;
      while offset < |nal|
        invariant 1 <= offset <= |nal| && Valid() && ok
        invariant items == done + left
        invariant left == if offset < |nal| then Fragments(nal, offset, u.last, ts) else []
        invariant View() == Emit(old(View()), VIDEO_TYPE, done)
        decreases |nal| - offset
      {
        hide Emit, Packets, FragmentHeader, NalItems, Fragments, Cut;
        NextFragment(nal, offset, u.last, ts);
        var chunk := |nal| - offset;
        if chunk > CHUNK_MAX {
          chunk := CHUNK_MAX;
        }
        var last := offset + chunk == |nal|;
        var item := Item(last && u.last, ts, FragmentHeader(nal, offset == 1, last) + nal[offset..offset + chunk]);
        ghost var rest := left[1..];
        assert left == [item] + rest;
        ok := RtpAfter(VIDEO_TYPE, item, old(View()), done, rest);
        if !ok {
          return;
        }
        Shift(done, item, rest);
        done, left := done + [item], rest;
        offset := offset + chunk;
      }
      assert done == items;
    }

    /** h264_nal, as one step of sending done + [u] + rest. */
    method NalAfter(u: Unit, ts: nat, ghost before: Sender, ghost done: seq<Unit>, ghost rest: seq<Unit>)
      returns (ok: bool)
      requires Valid() && u.nal != [] && AllSendable(done) && View() == Emit(before, VIDEO_TYPE, ItemsOf(done, ts))
      modifies this
      ensures Valid()
      ensures ok ==> Sendable(u.nal) && View() == Emit(before, VIDEO_TYPE, ItemsOf(done + [u], ts))
      ensures !ok ==> Failed(before, View(), done + ([u] + rest), ts)
    {
      hide NalItems;
      ghost var now := View();
      UnitItems(done, u, [], ts);
      ok := H264Nal(u, ts);
      if ok {
        EmitConcat(before, VIDEO_TYPE, ItemsOf(done, ts), NalItems(u, ts));
      } else {
        NalFailed(before, now, View(), done, u, rest, ts);
      }
    }

    /** video_frame: the cached parameter sets if there are any, then every nonempty unit of the frame. */
    method VideoFrame(parameters: seq<seq<byte>>, data: seq<byte>, pts: nat) returns (ok: bool)
      requires Valid() && forall i :: 0 <= i < |parameters| ==> parameters[i] != []
      modifies this
      ensures Valid()
      ensures var us, ts := FrameUnits(parameters, data), MediaTimestamp(base, pts, 90_000);
              && (ok ==> AllSendable(us) && View() == Emit(old(View()), VIDEO_TYPE, ItemsOf(us, ts)))
              && (!ok ==> Failed(old(View()), View(), us, ts))
    {
      hide Emit, ItemsOf, Failed, UnitsOf, AnnexB.Head, AnnexB.Split, Sendable, MediaTimestamp;
      var ts := MediaTimestamp(base, pts, 90_000);
      ghost var us := FrameUnits(parameters, data);
      ghost var first := us[..|parameters|];
      ghost var rest := us[|parameters|..];
      assert us == first + rest;
      EmitNothing(old(View()), ts);
      ok := SendParameters(parameters, ts, old(View()), first, rest);
      if ok {
        ok := SendUnits(data, ts, old(View()), first, rest);
      }
    }

    method SendParameters(parameters: seq<seq<byte>>, ts: nat, ghost before: Sender, ghost us: seq<Unit>, ghost rest: seq<Unit>)
      returns (ok: bool)
      requires Valid() && |us| == |parameters|
      requires forall i :: 0 <= i < |us| ==> parameters[i] != [] && us[i] == Unit(parameters[i], false)
      requires View() == Emit(before, VIDEO_TYPE, ItemsOf([], ts))
      modifies this
      ensures Valid()
      ensures ok ==> AllSendable(us) && View() == Emit(before, VIDEO_TYPE, ItemsOf(us, ts))
      ensures !ok ==> Failed(before, View(), us + rest, ts)
    {
      hide Emit, ItemsOf, Failed, Sendable;
      ok := true;
      assert us[..0] == [];
      for k := 0 to |parameters|
        invariant Valid() && AllSendable(us[..k]) && ok
        invariant View() == Emit(before, VIDEO_TYPE, ItemsOf(us[..k], ts))
      {
        assert us + rest == us[..k] + ([us[k]] + (us[k + 1..] + rest));
        assert us[..k + 1] == us[..k] + [us[k]];
        ok := NalAfter(Unit(parameters[k], false), ts, before, us[..k], us[k + 1..] + rest);
        if !ok {
          return;
        }
      }
      assert us[..|us|] == us;
    }

    /** audio_frame. */
    method AudioFrame(data: seq<byte>, pts: nat) returns (ok: bool)
      requires Valid()
      modifies this
      ensures Valid()
      ensures var items := AudioItems(data, 0, MediaTimestamp(base, pts, 8_000));
              && ok == (|items| <= old(budget))
              && if ok then View() == Emit(old(View()), AUDIO_TYPE, items)
                 else Cut(old(View()), View(), AUDIO_TYPE, items)
    {
      hide Emit, Cut, MediaTimestamp;
      var ts := MediaTimestamp(base, pts, 8_000);
      var offset := 0;
      ghost var items, done: seq<Item> := AudioItems(data, 0, ts), [];
      ghost var left := items;
      AudioNothing(old(View()));
      ok := true;
      while offset < |data|
        invariant offset <= |data| && Valid() && ok
        invariant items == done + left && left == AudioItems(data, offset, ts)
        invariant View() == Emit(old(View()), AUDIO_TYPE, done) && |done| <= old(budget)
      {
        var size := if |data| - offset > PAYLOAD_MAX then PAYLOAD_MAX else |data| - offset;
        var item := Item(false, (ts + offset) % TWO32, data[offset..offset + size]);
        ghost var rest := left[1..];
        assert left == [item] + rest;
        ok := RtpAfter(AUDIO_TYPE, item, old(View()), done, rest);
        if !ok {
          return;
        }
        Shift(done, item, rest);
        done, left := done + [item], rest;
        offset := offset + size;
      }
      assert done == items;
    }

    /** The scanning half of video_frame. */
    method SendUnits(data: seq<byte>, ts: nat, ghost before: Sender, ghost sentUnits: seq<Unit>, ghost us: seq<Unit>)
      returns (ok: bool)
      requires Valid() && AllSendable(sentUnits) && View() == Emit(before, VIDEO_TYPE, ItemsOf(sentUnits, ts))
      requires us == if AnnexB.Head(data).more then UnitsOf(AnnexB.Split(data))
                     else if data == [] then [] else [Unit(data, true)]
      modifies this
      ensures Valid()
      ensures ok ==> AllSendable(sentUnits + us) && View() == Emit(before, VIDEO_TYPE, ItemsOf(sentUnits + us, ts))
      ensures !ok ==> Failed(before, View(), sentUnits + us, ts)
    {
      hide Emit, ItemsOf, Failed, Sendable, UnitsOf, AnnexB.Head, AnnexB.Tail;
      ghost var all := sentUnits + us;
      assert data[0..] == data;
      var skipped, more, begin := AnnexB.FrameUnit(data, 0);
      if !more {
        if data == [] {
          assert all == sentUnits;
          return true;
        }
        assert all == sentUnits + ([Unit(data, true)] + []) && sentUnits + [Unit(data, true)] == all;
        ok := NalAfter(Unit(data, true), ts, before, sentUnits, []);
        return;
      }
      ghost var done, left := sentUnits, us;
      while more
        invariant begin <= |data| && Valid() && all == done + left && AllSendable(done)
        invariant left == if more then UnitsOf(AnnexB.Tail(data[begin..])) else []
        invariant View() == Emit(before, VIDEO_TYPE, ItemsOf(done, ts))
        decreases |data| - begin, more
      {
        ghost var d := data[begin..];
        var nal;
        nal, more, begin := AnnexB.FrameUnit(data, begin);
        UnitsOfTail(d, data[begin..]);
        ghost var rest := if more then UnitsOf(AnnexB.Tail(data[begin..])) else [];
        if nal != [] {
          var u := Unit(nal, !more);
          ok := NalAfter(u, ts, before, done, rest);
          if !ok {
            return;
          }
          Shift(done, u, rest);
          done := done + [u];
        }
        left := rest;
      }
      assert done == all;
      ok := true;
    }
  }

  /** The packets of an A-law frame: at most 1200 bytes each, stamped by their offset. */
  function AudioItems(data: seq<byte>, offset: nat, ts: nat): seq<Item>
    requires offset <= |data|
    decreases |data| - offset
  {
    if offset == |data| then []
    else
      var size := if |data| - offset > PAYLOAD_MAX then PAYLOAD_MAX else |data| - offset;
      [Item(false, (ts + offset) % TWO32, data[offset..offset + size])] + AudioItems(data, offset + size, ts)
  }

  /** How many units come before the first that has no valid header. */
  function Good(us: seq<Unit>): (n: nat)
    ensures n <= |us|
    ensures forall i :: 0 <= i < n ==> Sendable(us[i].nal)
    ensures n < |us| ==> !Sendable(us[n].nal)
  {
    if us == [] || !Sendable(us[0].nal) then 0 else 1 + Good(us[1..])
  }

  /** Sending failed: all units before the first invalid one went out, or as many of their packets as the transport took. */
  ghost predicate Failed(before: Sender, after: Sender, us: seq<Unit>, ts: nat) {
    var items := ItemsOf(us[..Good(us)], ts);
    if |items| > before.budget then Cut(before, after, VIDEO_TYPE, items)
    else Good(us) < |us| && after.sent == Emit(before, VIDEO_TYPE, items).sent
  }

  lemma NalFailed(before: Sender, now: Sender, after: Sender, done: seq<Unit>, u: Unit, rest: seq<Unit>, ts: nat)
    requires AllSendable(done) && now == Emit(before, VIDEO_TYPE, ItemsOf(done, ts)) && now.budget >= 0
    requires if Sendable(u.nal) then Cut(now, after, VIDEO_TYPE, NalItems(u, ts)) else after == now
    ensures Failed(before, after, done + ([u] + rest), ts)
  {
    hide NalItems, Sendable, Cut, ItemsOf;
    var us := done + ([u] + rest);
    var g := Good(us);
    assert us[|done|] == u && forall i :: 0 <= i < |done| ==> us[i] == done[i];
    if Sendable(u.nal) {
      var more := us[|done| + 1..g];
      assert us[..g] == done + ([u] + more);
      UnitItems(done, u, more, ts);
      CutMore(now, after, VIDEO_TYPE, NalItems(u, ts), ItemsOf(more, ts));
      CutExtend(before, after, VIDEO_TYPE, ItemsOf(done, ts), NalItems(u, ts) + ItemsOf(more, ts));
      CutShort(before, after, VIDEO_TYPE, ItemsOf(us[..g], ts));
    } else {
      assert us[..g] == done;
    }
  }

  lemma CutShort(before: Sender, after: Sender, payloadType: nat, items: seq<Item>)
    requires Cut(before, after, payloadType, items)
    ensures |items| > before.budget
  {
  }

  lemma EmitNothing(s: Sender, ts: nat)
    requires s.sequence < TWO16
    ensures Emit(s, VIDEO_TYPE, ItemsOf([], ts)) == s
  {
  }

  lemma AudioNothing(s: Sender)
    requires s.sequence < TWO16
    ensures Emit(s, AUDIO_TYPE, []) == s
  {
  }

  lemma CutMore(before: Sender, after: Sender, payloadType: nat, a: seq<Item>, b: seq<Item>)
    requires Cut(before, after, payloadType, a)
    ensures Cut(before, after, payloadType, a + b)
  {
    assert (a + b)[..before.budget] == a[..before.budget];
  }

  lemma UnitItems(done: seq<Unit>, u: Unit, rest: seq<Unit>, ts: nat)
    ensures ItemsOf(done + [u], ts) == ItemsOf(done, ts) + NalItems(u, ts)
    ensures ItemsOf(done + ([u] + rest), ts) == ItemsOf(done, ts) + (NalItems(u, ts) + ItemsOf(rest, ts))
  {
    hide NalItems;
    ItemsConcat(done, [u], ts);
    ItemsConcat(done, [u] + rest, ts);
    assert ([u] + rest)[1..] == rest && [u][1..] == [];
    assert ItemsOf([u], ts) == NalItems(u, ts) + ItemsOf([], ts);
  }

  /** One turn of the scan, on the units still to send. */
  lemma UnitsOfTail(d: seq<byte>, rest: seq<byte>)
    requires AnnexB.Head(d).next <= |d| && rest == d[AnnexB.Head(d).next..]
    ensures var p := AnnexB.Head(d);
            UnitsOf(AnnexB.Tail(d)) == (if p.nal == [] then [] else [Unit(p.nal, !p.more)])
                                       + if p.more then UnitsOf(AnnexB.Tail(rest)) else []
  {
    hide AnnexB.Head;
    var nals := AnnexB.Tail(d);
    assert nals[1..] == if AnnexB.Head(d).more then AnnexB.Tail(rest) else [];
  }

  lemma NextFragment(nal: seq<byte>, offset: nat, last: bool, ts: nat)
    requires 1 <= offset < |nal|
    ensures var chunk := if |nal| - offset > CHUNK_MAX then CHUNK_MAX else |nal| - offset;
            var end := offset + chunk == |nal|;
            Fragments(nal, offset, last, ts)
            == [Item(end && last, ts, FragmentHeader(nal, offset == 1, end) + nal[offset..offset + chunk])]
               + if end then [] else Fragments(nal, offset + chunk, last, ts)
  {
  }

  lemma CutNow(before: Sender, after: Sender, payloadType: nat, items: seq<Item>)
    requires after.sent == before.sent && before.budget == 0 && items != []
    ensures Cut(before, after, payloadType, items)
  {
  }
}
