/**
 * The bounded frame rings of media.c: one writer, any number of readers with
 * cursors of their own, and the parameter sets a stream was last seen to carry.
 */
module Streams {
  import opened Bytes
  import AnnexB

  const PARAMETER_MAX: nat := 512

  datatype Option<+T> = None | Some(value: T)

  datatype Codec = H264 | Pcma | Jpeg
  datatype Frame = Frame(data: seq<byte>, pts: nat, sequence: nat, keyframe: bool, codec: Codec)

  // ----- what an access unit holds

  function NalType(nal: seq<byte>): nat { if nal == [] then 0 else nal[0] % 32 }

  predicate HasIdr(nals: seq<seq<byte>>) {
    exists i :: 0 <= i < |nals| && NalType(nals[i]) == 5
  }

  /** The last unit of a type that fits the stream's buffer, or what it held before. */
  function Latest(nals: seq<seq<byte>>, kind: nat, before: seq<byte>): seq<byte> {
    if nals == [] then before
    else
      var n := nals[0];
      Latest(nals[1..], kind, if NalType(n) == kind && |n| <= PARAMETER_MAX then n else before)
  }

  predicate Keeps(nal: seq<byte>, kind: nat) {
    NalType(nal) == kind && |nal| <= 512
  }

  /** What is kept is the last unit of that type of at most 512 bytes, and what was held before if there is none. */
  lemma {:induction false} LatestIsLast(nals: seq<seq<byte>>, kind: nat, before: seq<byte>)
    ensures if exists i :: 0 <= i < |nals| && Keeps(nals[i], kind) then
              exists i :: 0 <= i < |nals| && Keeps(nals[i], kind) && Latest(nals, kind, before) == nals[i] &&
                          forall j :: i < j < |nals| ==> !Keeps(nals[j], kind)
            else Latest(nals, kind, before) == before
    decreases |nals|
  {
    if nals != [] {
      var now, rest := if Keeps(nals[0], kind) then nals[0] else before, nals[1..];
      LatestIsLast(rest, kind, now);
      assert forall j :: 1 <= j < |nals| ==> nals[j] == rest[j - 1];
      if i :| 0 <= i < |rest| && Keeps(rest[i], kind) && Latest(rest, kind, now) == rest[i] && forall j :: i < j < |rest| ==> !Keeps(rest[j], kind) {
        assert Keeps(nals[i + 1], kind);
      } else {
        assert forall j :: 1 <= j < |nals| ==> !Keeps(nals[j], kind);
      }
    }
  }

  // ----- reading

  /** The sequence number jipc_read returns to a reader at cursor after n publications, or 0 for none. */
  function Wanted(n: nat, capacity: nat, cursor: nat): (w: nat)
    requires capacity > 0
    ensures w == 0 <==> n <= cursor
    ensures w > 0 ==> cursor < w <= n && n - w < capacity
    ensures w > 0 && cursor > 0 && n - cursor <= capacity ==> w == cursor + 1
    ensures cursor > 0 && n - cursor > capacity ==> w == n - capacity + 1
    ensures cursor == 0 ==> w == n
  {
    if n <= cursor then 0
    else
      var oldest := if n > capacity then n - capacity + 1 else 1;
      var next := if cursor > 0 then cursor + 1 else n;
      if next < oldest then oldest else next
  }

  /** jipc_stream, with the log of everything ever published. */
  class Stream {
    const slots: array<Frame>
    var sequence: nat
    var sps: seq<byte>
    var pps: seq<byte>
    ghost var log: seq<Frame>

    /** The ring holds the last min(|log|, capacity) frames published, and frames are numbered from 1. */
    ghost predicate Valid()
      reads this, slots
    {
      && slots.Length > 0 && sequence == |log|
      && (forall k :: 0 <= k < |log| ==> log[k].sequence == k + 1)
      && (forall k :: 0 <= k < |log| && |log| - slots.Length <= k ==> slots[k % slots.Length] == log[k])
    }

    constructor (capacity: nat)
      requires capacity > 0
      ensures Valid() && fresh(slots) && slots.Length == capacity && log == [] && sps == [] && pps == []
    {
      slots := new Frame[capacity](_ => Frame([], 0, 0, false, H264));
      sequence, sps, pps, log := 0, [], [], [];
    }

    method Keep(nal: seq<byte>)
      modifies this`sps, this`pps
      ensures sps == if NalType(nal) == 7 && |nal| <= PARAMETER_MAX then nal else old(sps)
      ensures pps == if NalType(nal) == 8 && |nal| <= PARAMETER_MAX then nal else old(pps)
    {
      var kind := NalType(nal);
      if kind == 7 && |nal| <= PARAMETER_MAX {
        sps := nal;
      } else if kind == 8 && |nal| <= PARAMETER_MAX {
        pps := nal;
      }
    }

    /** Where the first unit begins, if there is one. */
    method FirstUnit(data: seq<byte>) returns (more: bool, begin: nat)
      ensures begin <= |data| && AnnexB.Split(data) == if more then AnnexB.Tail(data[begin..]) else []
    {
      hide AnnexB.Head;
      assert data[0..] == data;
      var skipped;
      skipped, more, begin := AnnexB.NextUnit(data, 0);
    }

    /** The next unit, kept if it is a parameter set. */
    method TakeUnit(data: seq<byte>, begin: nat) returns (nal: seq<byte>, more: bool, next: nat)
      requires begin <= |data|
      modifies this`sps, this`pps
      ensures begin <= next <= |data| && (more ==> next > begin)
      ensures var rest := if more then AnnexB.Tail(data[next..]) else [];
              && AnnexB.Tail(data[begin..]) == [nal] + rest
              && Latest(AnnexB.Tail(data[begin..]), 7, old(sps)) == Latest(rest, 7, sps)
              && Latest(AnnexB.Tail(data[begin..]), 8, old(pps)) == Latest(rest, 8, pps)
    {
      hide AnnexB.Head;
      nal, more, next := AnnexB.NextUnit(data, begin);
      assert data[begin..][next - begin..] == data[next..];
      Keep(nal);
    }

    /** stream_parameters, keeping the SPS and PPS. */
    method StreamParameters(data: seq<byte>) returns (idr: bool)
      requires Valid()
      modifies this`sps, this`pps
      ensures Valid() && log == old(log)
      ensures var nals := AnnexB.Split(data);
              idr == HasIdr(nals) && sps == Latest(nals, 7, old(sps)) && pps == Latest(nals, 8, old(pps))
    {
      hide AnnexB.Split, AnnexB.Tail, HasIdr, Latest;
      ghost var nals := AnnexB.Split(data);
      ghost var done: seq<seq<byte>>, left := [], nals;
      idr := false;
      NothingKept();
      var more, begin := FirstUnit(data);
      while more && begin < |data|
        invariant begin <= |data| && Valid() && log == old(log)
        invariant nals == done + left && left == if more then AnnexB.Tail(data[begin..]) else []
        invariant idr == HasIdr(done)
        invariant Latest(nals, 7, old(sps)) == Latest(left, 7, sps)
        invariant Latest(nals, 8, old(pps)) == Latest(left, 8, pps)
        decreases |data| - begin, more
      {
        var nal;
        nal, more, begin := TakeUnit(data, begin);
        ghost var rest := if more then AnnexB.Tail(data[begin..]) else [];
        if NalType(nal) == 5 {
          idr := true;
        }
        HasIdrAppend(done, nal);
        Shift(done, nal, rest);
        done, left := done + [nal], rest;
      }
      if more {
        NothingAfter(data[begin..]);
        HasIdrAppend(done, []);
      }
      assert nals == done + left;
      assert left == [] ==> done == nals;
    }

    /** jipc_publish; stored says whether memory was found for the copy. */
    method Publish(data: seq<byte>, pts: nat, keyframe: bool, codec: Codec, stored: bool) returns (ok: bool)
      requires Valid()
      modifies this, slots
      ensures Valid()
      ensures ok == (data != [] && |data| <= AnnexB.MAX_FRAME && stored)
      ensures log == if !ok then old(log) else
                old(log) + [Frame(data, pts, |old(log)| + 1, keyframe || (codec == H264 && HasIdr(AnnexB.Split(data))), codec)]
      ensures ok && codec == H264 ==>
                var nals := AnnexB.Split(data);
                sps == Latest(nals, 7, old(sps)) && pps == Latest(nals, 8, old(pps))
      ensures !ok || codec != H264 ==> sps == old(sps) && pps == old(pps)
    {
      hide AnnexB.Split, HasIdr, Latest;
      if data == [] || |data| > AnnexB.MAX_FRAME || !stored {
        return false;
      }
      var key := keyframe;
      if codec == H264 {
        var idr := StreamParameters(data);
        key := key || idr;
      }
      sequence := sequence + 1;
      var frame := Frame(data, pts, sequence, key, codec);
      SlotsDistinct(slots.Length, |log|);
      slots[(sequence - 1) % slots.Length] := frame;
      log := log + [frame];
      ok := true;
    }

    /** jipc_read without a wait: 1 with the frame wanted, 0 when there is none, -1 when no memory is left for a copy. */
    method Read(cursor: nat, stored: bool) returns (rc: int, frame: Frame, cursor': nat)
      requires Valid()
      ensures var w := Wanted(|log|, slots.Length, cursor);
              if w == 0 then rc == 0 && cursor' == cursor
              else if !stored then rc == -1 && cursor' == cursor
              else rc == 1 && cursor' == w && frame == log[w - 1] && frame.sequence == w
    {
      frame := Frame([], 0, 0, false, H264);
      if sequence <= cursor {
        return 0, frame, cursor;
      }
      var oldest := if sequence > slots.Length then sequence - slots.Length + 1 else 1;
      var wanted := if cursor > 0 then cursor + 1 else sequence;
      if wanted < oldest {
        wanted := oldest;
      }
      if !stored {
        return -1, frame, cursor;
      }
      return 1, slots[(wanted - 1) % slots.Length], wanted;
    }
  }

  /** The frames a ring keeps share no slot with the one written next. */
  lemma SlotsDistinct(capacity: nat, n: nat)
    requires capacity > 0
    ensures forall k :: 0 <= k < n && n + 1 - capacity <= k ==> k % capacity != n % capacity
  {
    forall k | 0 <= k < n && n + 1 - capacity <= k ensures k % capacity != n % capacity {
      var d := n / capacity - k / capacity;
      assert n - k == capacity * d + (n % capacity - k % capacity);
      assert d >= 1 ==> capacity * d >= capacity;
      assert d <= 0 ==> capacity * d <= 0;
    }
  }

  lemma NothingKept()
    ensures !HasIdr([]) && NalType([]) == 0
    ensures forall kind: nat, before :: Latest([], kind, before) == before
    ensures forall kind: nat, before :: kind > 0 ==> Latest([[]], kind, before) == before
  {
    assert forall kind: nat, before :: Latest([[]], kind, before) == Latest([[]][1..], kind, if NalType([]) == kind then [] else before);
  }

  lemma HasIdrAppend(done: seq<seq<byte>>, nal: seq<byte>)
    ensures HasIdr(done + [nal]) == (HasIdr(done) || NalType(nal) == 5)
  {
    var all := done + [nal];
    if HasIdr(done) {
      var i :| 0 <= i < |done| && NalType(done[i]) == 5;
      assert NalType(all[i]) == 5;
    }
    if NalType(nal) == 5 {
      assert NalType(all[|done|]) == 5;
    }
  }

  /** A start code at the very end has nothing after it. */
  lemma NothingAfter(d: seq<byte>)
    requires d == []
    ensures AnnexB.Tail(d) == [[]]
  {
    AnnexB.HeadAtEnd(d, 0);
  }
}
