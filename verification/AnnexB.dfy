/**
 * The two Annex B splitters of media.c and rtsp.c: a random-access scan for the
 * next start code, and a reader that takes a file one byte at a time.  Both are
 * proved against one value-level definition, Split, whose own property is that
 * it inverts printing.
 */
module AnnexB {
  import opened Bytes

  const MAX_FRAME: nat := 0x10_0000
  const START_CODE: seq<byte> := [0, 0, 0, 1]

  // ----- start codes

  /** Length of the start code at index i: 3, 4, or 0 when there is none. */
  function PrefixAt(d: seq<byte>, i: nat): (n: nat)
    ensures n == 0 || ((n == 3 || n == 4) && i + n <= |d|)
  {
    if i + 3 <= |d| && d[i] == 0 && d[i + 1] == 0 then
      if d[i + 2] == 1 then 3
      else if i + 4 <= |d| && d[i + 2] == 0 && d[i + 3] == 1 then 4
      else 0
    else 0
  }

  /** i is where the first start code at or after start begins, or |d| if there is none. */
  ghost predicate IsNext(d: seq<byte>, start: nat, i: nat) {
    && start <= i <= |d|
    && (forall j :: start <= j < i ==> PrefixAt(d, j) == 0)
    && (i < |d| ==> PrefixAt(d, i) != 0)
  }

  function Find(d: seq<byte>, start: nat): (i: nat)
    requires start <= |d|
    ensures IsNext(d, start, i)
    decreases |d| - start
  {
    if start == |d| || PrefixAt(d, start) != 0 then start else Find(d, start + 1)
  }

  lemma NextIsUnique(d: seq<byte>, start: nat, i: nat, j: nat)
    requires IsNext(d, start, i) && IsNext(d, start, j)
    ensures i == j
  {
  }

  /** The scan of annexb_next and start_code: an index loop with the same two tests. */
  method AnnexbNext(d: seq<byte>, start: nat) returns (i: nat, payload: nat)
    requires start <= |d|
    ensures IsNext(d, start, i)
    ensures payload == i + PrefixAt(d, i)
  {
    i := start;
    while i + 3 <= |d|
      invariant start <= i <= |d|
      invariant forall j :: start <= j < i ==> PrefixAt(d, j) == 0
    {
      if d[i] == 0 && d[i + 1] == 0 {
        if d[i + 2] == 1 {
          return i, i + 3;
        }
        if i + 4 <= |d| && d[i + 2] == 0 && d[i + 3] == 1 {
          return i, i + 4;
        }
      }
      i := i + 1;
    }
    return |d|, |d|;
  }

  /** start_code, the other scanner: the position, and the length of the start code there. */
  method StartCode(d: seq<byte>, offset: nat) returns (i: nat, prefix: nat)
    requires offset <= |d|
    ensures IsNext(d, offset, i)
    ensures prefix == PrefixAt(d, i)
  {
    i := offset;
    while i + 3 <= |d|
      invariant offset <= i <= |d|
      invariant forall j :: offset <= j < i ==> PrefixAt(d, j) == 0
    {
      if d[i] != 0 || d[i + 1] != 0 {
        i := i + 1;
        continue;
      }
      if d[i + 2] == 1 {
        return i, 3;
      }
      if i + 4 <= |d| && d[i + 2] == 0 && d[i + 3] == 1 {
        return i, 4;
      }
      i := i + 1;
    }
    return |d|, 0;
  }

  // ----- splitting

  function StripZeros(s: seq<byte>): (r: seq<byte>)
    ensures r <= s
    ensures r == [] || r[|r| - 1] != 0
    ensures forall i :: |r| <= i < |s| ==> s[i] == 0
  {
    if s == [] || s[|s| - 1] != 0 then s else StripZeros(s[..|s| - 1])
  }

  lemma StripIsUnique(s: seq<byte>, r: seq<byte>)
    requires r <= s
    requires r == [] || r[|r| - 1] != 0
    requires forall i :: |r| <= i < |s| ==> s[i] == 0
    ensures StripZeros(s) == r
  {
    var q := StripZeros(s);
    assert q == s[..|q|] && r == s[..|r|];
  }

  /**
   * What follows a start code: the unit without its trailing zeros, where its
   * zeros end, and where the next unit begins, if there is one.
   */
  datatype Piece = Piece(nal: seq<byte>, end: nat, next: nat, more: bool)

  function Head(d: seq<byte>): (p: Piece)
    ensures |p.nal| <= p.next <= |d| && (p.more ==> p.next > 0)
  {
    var i := Find(d, 0);
    var n := PrefixAt(d, i);
    Piece(StripZeros(d[..i]), if i < |d| then i + n - 1 else i, i + n, i < |d|)
  }

  /** What a scan from the middle of a buffer finds is the head of the bytes from there. */
  lemma HeadFromScan(d: seq<byte>, begin: nat, i: nat)
    requires IsNext(d, begin, i)
    ensures var p := Head(d[begin..]);
            && p.nal == StripZeros(d[begin..i]) && p.more == (i < |d|)
            && begin + p.next == i + PrefixAt(d, i)
  {
    var b := d[begin..];
    assert forall j :: 0 <= j <= |b| ==> PrefixAt(b, j) == PrefixAt(d, begin + j);
    NextIsUnique(b, 0, Find(b, 0), i - begin);
    assert b[..i - begin] == d[begin..i];
  }

  /** The NAL units of bytes that follow a start code; trailing zeros are padding, not content. */
  function Tail(d: seq<byte>): (nals: seq<seq<byte>>)
    ensures |nals| > 0
    decreases |d|
  {
    var p := Head(d);
    [p.nal] + if p.more then Tail(d[p.next..]) else []
  }

  /** The NAL units of an Annex B byte stream, empty ones included; bytes before the first start code are skipped. */
  function Split(d: seq<byte>): seq<seq<byte>> {
    var p := Head(d);
    if p.more then Tail(d[p.next..]) else []
  }

  /** The backward loop that leaves out trailing zeros. */
  method StripEnd(d: seq<byte>, begin: nat, next: nat) returns (nal: seq<byte>)
    requires begin <= next <= |d|
    ensures nal == StripZeros(d[begin..next])
  {
    var end := next;
    while end > begin && d[end - 1] == 0
      invariant begin <= end <= next
      invariant forall i :: end <= i < next ==> d[i] == 0
    {
      end := end - 1;
    }
    nal := d[begin..end];
    StripIsUnique(d[begin..next], nal);
  }

  /** One turn of stream_parameters: the unit at begin without its trailing zeros, and where the next one begins. */
  method NextUnit(d: seq<byte>, begin: nat) returns (nal: seq<byte>, more: bool, next: nat)
    requires begin <= |d|
    ensures var p := Head(d[begin..]);
            nal == p.nal && more == p.more && next == begin + p.next <= |d|
  {
    var i;
    i, next := AnnexbNext(d, begin);
    HeadFromScan(d, begin, i);
    nal := StripEnd(d, begin, i);
    more := i < |d|;
  }

  /** The same turn of video_frame, over the other scanner. */
  method FrameUnit(d: seq<byte>, begin: nat) returns (nal: seq<byte>, more: bool, next: nat)
    requires begin <= |d|
    ensures var p := Head(d[begin..]);
            nal == p.nal && more == p.more && next == begin + p.next <= |d|
  {
    var i, prefix := StartCode(d, begin);
    HeadFromScan(d, begin, i);
    nal := StripEnd(d, begin, i);
    more, next := prefix != 0, i + prefix;
  }

  /** What the reader's buffer can take: the unit with a start code, and the zeros that end it. */
  predicate Fits(p: Piece) {
    |p.nal| + 4 <= MAX_FRAME && p.end - |p.nal| <= MAX_FRAME
  }

  /** Every unit fits. */
  predicate TailFits(d: seq<byte>)
    decreases |d|
  {
    var p := Head(d);
    Fits(p) && (p.more ==> TailFits(d[p.next..]))
  }

  predicate StreamFits(d: seq<byte>) {
    Head(d).more ==> TailFits(d[Head(d).next..])
  }

  /** The units that are not empty, in order. */
  function Nonempty(nals: seq<seq<byte>>): seq<seq<byte>> {
    if nals == [] then [] else (if nals[0] == [] then [] else [nals[0]]) + Nonempty(nals[1..])
  }

  // ----- printing, and its inverse

  /** One NAL unit as an encoder may write it: a short or long start code, the unit, zero padding. */
  datatype Unit = Unit(long: bool, nal: seq<byte>, padding: nat)

  function PrintUnit(u: Unit): seq<byte> {
    (if u.long then START_CODE else [0, 0, 1]) + u.nal + Zeros(u.padding)
  }

  function Print(us: seq<Unit>): seq<byte> {
    if us == [] then [] else PrintUnit(us[0]) + Print(us[1..])
  }

  function PrintStream(zeros: nat, us: seq<Unit>): seq<byte> {
    Zeros(zeros) + Print(us)
  }

  function NalsOf(us: seq<Unit>): seq<seq<byte>> {
    if us == [] then [] else [us[0].nal] + NalsOf(us[1..])
  }

  /** What a stream can carry: no 00 00 01 inside, and the last byte is not zero (section 7.4.1 of ITU-T H.264 asks more). */
  ghost predicate ValidNal(n: seq<byte>) {
    && n != [] && n[|n| - 1] != 0
    && forall i :: 0 <= i && i + 2 < |n| && n[i] == 0 && n[i + 1] == 0 ==> n[i + 2] != 1
  }

  /** A unit whose zeros end at a one, with no start code before them, is cut there. */
  lemma HeadAtCode(d: seq<byte>, n: nat, one: nat)
    requires n + 2 <= one < |d|
    requires d[one] == 1 && forall i :: n <= i < one ==> d[i] == 0
    requires n == 0 || d[n - 1] != 0
    requires forall i :: 0 <= i < n ==> PrefixAt(d, i) == 0
    ensures Head(d) == Piece(d[..n], one, one + 1, true)
  {
    var q := if n + 3 <= one then one - 3 else one - 2;
    NextIsUnique(d, 0, Find(d, 0), q);
    StripIsUnique(d[..q], d[..n]);
  }

  /** A unit with no start code after it runs to the end. */
  lemma HeadAtEnd(d: seq<byte>, n: nat)
    requires n <= |d| && forall i :: n <= i < |d| ==> d[i] == 0
    requires n == 0 || d[n - 1] != 0
    requires forall i :: 0 <= i < |d| ==> PrefixAt(d, i) == 0
    ensures Head(d) == Piece(d[..n], |d|, |d|, false)
  {
    NextIsUnique(d, 0, Find(d, 0), |d|);
    assert d[..|d|] == d;
    StripIsUnique(d, d[..n]);
  }

  ghost predicate AllValid(us: seq<Unit>) {
    forall i :: 0 <= i < |us| ==> ValidNal(us[i].nal)
  }

  ghost predicate AllSmall(us: seq<Unit>) {
    forall i :: 0 <= i < |us| ==> |us[i].nal| + 4 <= MAX_FRAME && us[i].padding + 3 <= MAX_FRAME
  }

  lemma NoPrefixInside(nal: seq<byte>, rest: seq<byte>)
    requires ValidNal(nal)
    ensures forall i :: 0 <= i < |nal| ==> PrefixAt(nal + rest, i) == 0
  {
    var d := nal + rest;
    forall i | 0 <= i < |nal| ensures PrefixAt(d, i) == 0 {
      assert d[|nal| - 1] != 0;
      if i + 2 < |nal| {
        assert d[i] == nal[i] && d[i + 1] == nal[i + 1] && d[i + 2] == nal[i + 2];
      }
    }
  }

  function Lead(u: Unit): nat { if u.long then 3 else 2 }

  function Body(us: seq<Unit>): seq<byte>
    requires us != []
  {
    us[0].nal + Zeros(us[0].padding) + Print(us[1..])
  }

  lemma PrintHead(us: seq<Unit>)
    requires us != []
    ensures Print(us) == Zeros(Lead(us[0])) + [1] + Body(us)
  {
  }

  /** A NAL unit and its padding end where the next start code does ... */
  lemma HeadStep(n: seq<byte>, zeros: nat, rest: seq<byte>)
    requires ValidNal(n) && zeros >= 2
    ensures var d, one := n + Zeros(zeros) + [1] + rest, |n| + zeros;
            Head(d) == Piece(n, one, one + 1, true) && d[one + 1..] == rest
  {
    var d := n + Zeros(zeros) + [1] + rest;
    assert d == n + (Zeros(zeros) + [1] + rest);
    NoPrefixInside(n, Zeros(zeros) + [1] + rest);
    HeadAtCode(d, |n|, |n| + zeros);
    assert d[..|n|] == n;
  }

  /** ... or where the stream does. */
  lemma HeadLast(n: seq<byte>, zeros: nat)
    requires ValidNal(n)
    ensures Head(n + Zeros(zeros)) == Piece(n, |n| + zeros, |n| + zeros, false)
  {
    var d := n + Zeros(zeros);
    NoPrefixInside(n, Zeros(zeros));
    HeadAtEnd(d, |n|);
    assert d[..|n|] == n;
  }

  lemma BodyStep(us: seq<Unit>)
    requires |us| > 1
    ensures Body(us) == us[0].nal + Zeros(us[0].padding + Lead(us[1])) + [1] + Body(us[1..])
  {
    PrintHead(us[1..]);
    var pad, lead := us[0].padding, Lead(us[1]);
    assert us[1..][0] == us[1];
    assert Zeros(pad) + Zeros(lead) == Zeros(pad + lead);
    calc {
      Body(us);
      us[0].nal + Zeros(pad) + (Zeros(lead) + [1] + Body(us[1..]));
      us[0].nal + (Zeros(pad) + Zeros(lead)) + [1] + Body(us[1..]);
    }
  }

  lemma {:induction false} TailPrint(us: seq<Unit>)
    requires us != [] && AllValid(us)
    ensures Tail(Body(us)) == NalsOf(us)
    ensures AllSmall(us) ==> TailFits(Body(us))
  {
    hide Head;
    var n, pad, more := us[0].nal, us[0].padding, us[1..];
    assert ValidNal(n) && AllValid(more);
    if more == [] {
      assert Body(us) == n + Zeros(pad);
      HeadLast(n, pad);
    } else {
      BodyStep(us);
      HeadStep(n, pad + Lead(more[0]), Body(more));
      TailPrint(more);
    }
  }

  /** Splitting inverts printing, whatever mix of start codes, leading zeros and padding was used. */
  lemma {:induction false} SplitPrint(zeros: nat, us: seq<Unit>)
    requires AllValid(us)
    ensures Split(PrintStream(zeros, us)) == NalsOf(us)
    ensures AllSmall(us) ==> StreamFits(PrintStream(zeros, us))
  {
    var d := PrintStream(zeros, us);
    if us == [] {
      HeadAtEnd(d, 0);
    } else {
      PrintHead(us);
      var one := zeros + Lead(us[0]);
      assert d == Zeros(zeros) + Zeros(Lead(us[0])) + [1] + Body(us);
      HeadAtCode(d, 0, one);
      assert d[one + 1..] == Body(us);
      TailPrint(us);
    }
  }

  /** Valid units are never empty, so the reader passes over none of them. */
  lemma {:induction false} NoneEmpty(us: seq<Unit>)
    requires AllValid(us)
    ensures Nonempty(NalsOf(us)) == NalsOf(us)
  {
    if us != [] {
      assert ValidNal(us[0].nal) && AllValid(us[1..]);
      NoneEmpty(us[1..]);
    }
  }

  /** Whatever the bytes, the units found in them can be printed again. */
  lemma {:induction false} TailValid(d: seq<byte>)
    ensures forall u <- Tail(d) :: u == [] || ValidNal(u)
    decreases |d|
  {
    var p, i := Head(d), Find(d, 0);
    forall j | 0 <= j && j + 2 < |p.nal| && p.nal[j] == 0 && p.nal[j + 1] == 0 ensures p.nal[j + 2] != 1 {
      assert PrefixAt(d, j) == 0;
    }
    if p.more {
      TailValid(d[p.next..]);
    }
  }

  lemma SplitValid(d: seq<byte>)
    ensures forall u <- Split(d) :: u == [] || ValidNal(u)
  {
    if Head(d).more {
      TailValid(d[Head(d).next..]);
    }
  }

  // ----- the byte-at-a-time reader

  /** No 00 00 01 lies wholly inside d[from..to]. */
  ghost predicate NoCode(d: seq<byte>, from: nat, to: nat) {
    && from <= to <= |d|
    && forall j :: from <= j && j + 2 < to ==> !(d[j] == 0 && d[j + 1] == 0 && d[j + 2] == 1)
  }

  /** d[from..to] ends in exactly this many zeros. */
  ghost predicate EndsInZeros(d: seq<byte>, from: nat, to: nat, zeros: nat) {
    && from + zeros <= to <= |d|
    && (forall i :: to - zeros <= i < to ==> d[i] == 0)
    && (from + zeros < to ==> d[to - zeros - 1] != 0)
  }

  /** One more byte, when it does not complete a start code. */
  lemma Advance(d: seq<byte>, from: nat, to: nat, zeros: nat)
    requires to < |d| && NoCode(d, from, to) && EndsInZeros(d, from, to, zeros)
    requires d[to] != 1 || zeros < 2
    ensures NoCode(d, from, to + 1) && EndsInZeros(d, from, to + 1, if d[to] == 0 then zeros + 1 else 0)
  {
    if to >= from + 2 && d[to] == 1 {
      assert !(d[to - 2] == 0 && d[to - 1] == 0);
    }
  }

  /** The reader's view of a unit that a start code ends, and the scanner's, agree ... */
  lemma EndAtCode(d: seq<byte>, from: nat, one: nat, zeros: nat)
    requires from <= one < |d| && d[one] == 1 && zeros >= 2
    requires NoCode(d, from, one) && EndsInZeros(d, from, one, zeros)
    ensures Head(d[from..]) == Piece(d[from..one - zeros], one - from, one + 1 - from, true)
    ensures d[from..][one + 1 - from..] == d[one + 1..]
  {
    hide Find, StripZeros, Head;
    var b, n := d[from..], one - zeros - from;
    forall i | 0 <= i < n ensures PrefixAt(b, i) == 0 {
      if from + i + 2 < one { assert !(d[from + i] == 0 && d[from + i + 1] == 0 && d[from + i + 2] == 1); }
      if from + i + 3 < one { assert !(d[from + i + 1] == 0 && d[from + i + 2] == 0 && d[from + i + 3] == 1); }
      assert b[n - 1] != 0;
    }
    HeadAtCode(b, n, one - from);
  }

  /** ... and so do their views of one that the end of the stream ends. */
  lemma EndAtEof(d: seq<byte>, from: nat, zeros: nat)
    requires NoCode(d, from, |d|) && EndsInZeros(d, from, |d|, zeros)
    ensures Head(d[from..]) == Piece(d[from..|d| - zeros], |d| - from, |d| - from, false)
  {
    hide Find, StripZeros, Head;
    var b := d[from..];
    forall i | 0 <= i < |b| ensures PrefixAt(b, i) == 0 {
      if i + 2 < |b| { assert !(d[from + i] == 0 && d[from + i + 1] == 0 && d[from + i + 2] == 1); }
      if i + 3 < |b| { assert !(d[from + i + 1] == 0 && d[from + i + 2] == 0 && d[from + i + 3] == 1); }
    }
    HeadAtEnd(b, |b| - zeros);
  }

  /** A run of zeros longer than the limit cannot end in a unit that fits. */
  lemma ZerosTooLong(d: seq<byte>, from: nat, to: nat, zeros: nat)
    requires zeros > MAX_FRAME && NoCode(d, from, to) && EndsInZeros(d, from, to, zeros)
    ensures !Fits(Head(d[from..]))
  {
  }

  lemma ContentTooLong(d: seq<byte>, from: nat, at: nat)
    requires from <= at < |d| && d[at] != 0 && at + 1 - from + 4 > MAX_FRAME
    requires NoCode(d, from, at + 1)
    ensures !Fits(Head(d[from..]))
  {
    var b := d[from..];
    assert b[at - from] != 0;
  }

  /** What is left of a file for the reader, as the scanner sees it. */
  ghost function Remaining(file: seq<byte>, pos: nat, pending: bool): seq<seq<byte>>
    requires pos <= |file|
  {
    if pending then Tail(file[pos..]) else Split(file[pos..])
  }

  ghost predicate RemainingFits(file: seq<byte>, pos: nat, pending: bool)
    requires pos <= |file|
  {
    if pending then TailFits(file[pos..]) else StreamFits(file[pos..])
  }

  lemma TailNeedsHead(d: seq<byte>)
    ensures TailFits(d) ==> Fits(Head(d))
  {
  }

  /** After a unit was read, what remains is the scanner's list without its first element. */
  lemma AfterUnit(file: seq<byte>, body: seq<byte>, pos: nat, pending: bool)
    requires pos <= |file|
    requires pending == Head(body).more && file[pos..] == body[Head(body).next..]
    requires Fits(Head(body))
    ensures Tail(body) == [Head(body).nal] + Remaining(file, pos, pending)
    ensures TailFits(body) == RemainingFits(file, pos, pending)
  {
    if !pending {
      assert file[pos..] == [];
      HeadAtEnd([], 0);
    }
  }

  /** replay_input: an open file, and a buffer of one frame that holds the NAL unit read last. */
  class ReplayInput {
    const file: seq<byte>
    var pos: nat
    const nal: array<byte>
    var nalSize: nat
    var prefixPending: bool

    ghost predicate Valid()
      reads this
    {
      pos <= |file| && nal.Length == MAX_FRAME && nalSize <= MAX_FRAME
    }

    constructor (file: seq<byte>)
      ensures Valid() && fresh(nal) && this.file == file && pos == 0 && !prefixPending
    {
      this.file := file;
      pos, nalSize, prefixPending := 0, 0, false;
      nal := new byte[MAX_FRAME](_ => 0);
    }

    /** Skips to just after the next start code; false at the end of the file. */
    method SkipToCode() returns (found: bool)
      requires Valid()
      modifies this`pos
      ensures Valid() && old(pos) <= pos
      ensures var d := file[old(pos)..];
              found == Head(d).more && file[pos..] == d[Head(d).next..]
    {
      hide Head, Find, StripZeros;
      ghost var start, run := pos, 0;
      var zeros := 0;
      while pos < |file|
        invariant Valid() && start <= pos
        invariant zeros == if run < 4 then run else 4
        invariant NoCode(file, start, pos) && EndsInZeros(file, start, pos, run)
      {
        hide NoCode, EndsInZeros;
        var c := file[pos];
        pos := pos + 1;
        if c == 1 && zeros >= 2 {
          EndAtCode(file, start, pos - 1, run);
          return true;
        }
        Advance(file, start, pos - 1, run);
        run := if c == 0 then run + 1 else 0;
        zeros := if c == 0 then zeros + (if zeros < 4 then 1 else 0) else 0;
      }
      EndAtEof(file, start, run);
      found := false;
    }

    /** replay_rewind's part: back to the start of the file. */
    method Rewind()
      requires Valid()
      modifies this`pos, this`prefixPending
      ensures Valid() && Left() == Split(file) && LeftFits() == StreamFits(file)
    {
      pos, prefixPending := 0, false;
      assert file[0..] == file;
    }

    /** What reading the unit at the head of body leaves: the result, the buffer and the position. */
    ghost predicate UnitRead(body: seq<byte>, rc: int)
      reads this, nal
      requires Valid()
    {
      var p := Head(body);
      && rc == (if !Fits(p) then -1 else if p.nal == [] then 0 else 1)
      && (rc >= 0 ==> nal[..nalSize] == START_CODE + p.nal)
      && (rc >= 0 ==> prefixPending == p.more && file[pos..] == body[p.next..])
    }

    /** The units still to be read, as the scanner finds them. */
    ghost function Left(): seq<seq<byte>>
      reads this
      requires Valid()
    {
      Remaining(file, pos, prefixPending)
    }

    /** Whether the file is not used up yet. */
    predicate More()
      reads this
    {
      prefixPending || pos < |file|
    }

    ghost predicate LeftFits()
      reads this
      requires Valid()
    {
      RemainingFits(file, pos, prefixPending)
    }

    /**
     * replay_nal: 1 with the next unit in the buffer, -1 when it is too long, 0 at
     * an empty unit, which is behind the reader then, and at the end of the file.
     */
    method ReplayNal() returns (rc: int)
      requires Valid()
      modifies this, nal
      ensures Valid() && rc in {-1, 0, 1} && old(pos) <= pos <= |file|
      ensures rc == 1 ==> 4 < nalSize <= nal.Length && nal[..4] == START_CODE && old(Left()) == [nal[4..nalSize]] + Left()
      ensures rc == 0 ==> if old(Left()) == [] then Left() == [] else old(Left()) == [[]] + Left()
      ensures rc >= 0 ==> old(LeftFits()) == LeftFits() && (old(Left()) == [] ==> !More())
      ensures rc == -1 ==> !old(LeftFits())
    {
      hide Find, StripZeros, Fits, Head, Tail, TailFits;
      ghost var d := file[pos..];
      ghost var body := d;
      if !prefixPending {
        var found := SkipToCode();
        if !found {
          NothingFound(d);
          assert file[pos..] == [];
          NothingFound([]);
          return 0;
        }
        body := d[Head(d).next..];
      }
      rc := ReadUnit();
      if rc == -1 {
        TailNeedsHead(body);
      } else {
        AfterUnit(file, body, pos, prefixPending);
        assert nal[4..nalSize] == nal[..nalSize][4..] && nal[..4] == nal[..nalSize][..4];
      }
    }

    method ReadUnit() returns (rc: int)
      requires Valid()
      modifies this, nal
      ensures Valid() && old(pos) <= pos && UnitRead(file[old(pos)..], rc)
    {
      ghost var start, body := pos, file[pos..];
      prefixPending := false;
      nal[0], nal[1], nal[2], nal[3] := 0, 0, 0, 1;
      nalSize := 4;
      var zeros, done := 0, false;
      rc := 0;
      while pos < |file| && !done
        invariant Valid() && start <= pos && if done then UnitRead(body, rc) else Reading(start, zeros)
        decreases |file| - pos, !done
      {
        hide *;
        done, rc, zeros := ReadByte(start, zeros);
      }
      if !done {
        EndAtEof(file, start, zeros);
        rc := if nalSize > 4 then 1 else 0;
      }
    }

    /** One turn of the reading loop: a start code or the size limit ends it. */
    method ReadByte(ghost start: nat, zeros: nat) returns (done: bool, rc: int, zeros': nat)
      requires Reading(start, zeros) && pos < |file|
      modifies this, nal
      ensures pos == old(pos) + 1
      ensures Valid() && if done then UnitRead(file[start..], rc) else Reading(start, zeros')
    {
      hide Head, Find, StripZeros, NoCode, EndsInZeros;
      var c := file[pos];
      if c != 1 || zeros < 2 {
        Advance(file, start, pos, zeros);
      }
      pos := pos + 1;
      done, rc, zeros' := false, 0, 0;
      if c == 1 && zeros >= 2 {
        prefixPending := true;
        done, rc := true, if nalSize > 4 then 1 else 0;
        StoppedAtCode(start, zeros);
      } else if c == 0 {
        zeros' := zeros + 1;
        if zeros' > MAX_FRAME {
          ZerosTooLong(file, start, pos, zeros');
          done, rc := true, -1;
        }
      } else if zeros + 1 > MAX_FRAME - nalSize {
        ContentTooLong(file, start, pos - 1);
        done, rc := true, -1;
      } else {
        Append(zeros, c, start);
      }
    }

    lemma StoppedAtCode(start: nat, zeros: nat)
      requires Valid() && prefixPending && zeros >= 2 && zeros <= MAX_FRAME
      requires start + zeros < pos && file[pos - 1] == 1
      requires nalSize == 4 + pos - 1 - start - zeros
      requires nal[..nalSize] == START_CODE + file[start..pos - 1 - zeros]
      requires NoCode(file, start, pos - 1) && EndsInZeros(file, start, pos - 1, zeros)
      ensures UnitRead(file[start..], if nalSize > 4 then 1 else 0)
    {
      hide NoCode, EndsInZeros;
      EndAtCode(file, start, pos - 1, zeros);
    }

    /** The reading loop's invariant: all bytes since start are in the buffer, but for the zeros just read. */
    ghost predicate Reading(start: nat, zeros: nat)
      reads this, nal
    {
      && Valid() && !prefixPending
      && start + zeros <= pos && zeros <= MAX_FRAME
      && nalSize == 4 + pos - start - zeros
      && nal[..nalSize] == START_CODE + file[start..pos - zeros]
      && NoCode(file, start, pos)
      && EndsInZeros(file, start, pos, zeros)
    }

    /** Ends the unit with the pending zeros and one byte. */
    method Append(zeros: nat, c: byte, ghost start: nat)
      requires Valid() && start + zeros < pos && nalSize + zeros < MAX_FRAME
      requires nal[..nalSize] == START_CODE + file[start..pos - 1 - zeros]
      requires c == file[pos - 1] && EndsInZeros(file, start, pos - 1, zeros)
      modifies this`nalSize, nal
      ensures Valid() && nalSize == old(nalSize) + zeros + 1
      ensures nal[..nalSize] == START_CODE + file[start..pos]
    {
      ghost var was := nal[..nalSize];
      var k := 0;
      while k < zeros
        invariant k <= zeros && nalSize == old(nalSize)
        invariant nal[..nalSize + k] == was + Zeros(k)
      {
        nal[nalSize + k] := 0;
        k := k + 1;
        assert nal[..nalSize + k] == nal[..nalSize + k - 1] + [0];
      }
      nalSize := nalSize + zeros;
      nal[nalSize] := c;
      nalSize := nalSize + 1;
      assert nal[..nalSize] == nal[..nalSize - 1] + [c];
      assert file[start..pos] == file[start..pos - 1 - zeros] + Zeros(zeros) + [c];
    }
  }

  lemma NothingFound(d: seq<byte>)
    ensures !Head(d).more ==> Split(d) == [] && StreamFits(d) && d[Head(d).next..] == []
    ensures !Head([]).more
  {
    HeadAtEnd([], 0);
  }

  lemma NonemptyFirst(nal: seq<byte>, rest: seq<seq<byte>>)
    ensures Nonempty([nal] + rest) == (if nal == [] then [] else [nal]) + Nonempty(rest)
  {
    assert ([nal] + rest)[1..] == rest;
  }

  /** One call of the reader: what it read joins nals. */
  method ReadOne(input: ReplayInput, nals: seq<seq<byte>>) returns (longer: seq<seq<byte>>, ok: bool)
    requires input.Valid()
    modifies input, input.nal
    ensures input.Valid()
    ensures ok ==> longer + Nonempty(input.Left()) == nals + Nonempty(old(input.Left())) && input.LeftFits() == old(input.LeftFits())
    ensures ok ==> if old(input.Left()) == [] then !input.More() else |input.Left()| < |old(input.Left())|
    ensures !ok ==> longer == nals && !old(input.LeftFits())
  {
    hide *;
    var rc := input.ReplayNal();
    ok, longer := rc != -1, nals;
    if rc == 1 {
      ghost var nal, rest := input.nal[4..input.nalSize], input.Left();
      NonemptyFirst(nal, rest);
      Shift(nals, nal, Nonempty(rest));
      longer := nals + [input.nal[4..input.nalSize]];
    } else if rc == 0 && old(input.Left()) != [] {
      NonemptyFirst([], input.Left());
    }
  }

  /**
   * The byte-at-a-time reader, called until the file is used up, yields the
   * units the scanner finds except the empty ones, at each of which it returns
   * 0; it fails exactly when a unit is too long for it.
   */
  method ReplayAll(file: seq<byte>) returns (nals: seq<seq<byte>>, ok: bool)
    ensures ok == StreamFits(file)
    ensures if ok then nals == Nonempty(Split(file)) else nals <= Nonempty(Split(file))
  {
    var input := new ReplayInput(file);
    assert file[0..] == file;
    assert input.Left() == Split(file) && input.LeftFits() == StreamFits(file);
    hide *;
    nals, ok := [], true;
    var more := input.More();
    while more
      invariant input.Valid() && input.file == file && ok && more == input.More()
      invariant nals + Nonempty(input.Left()) == Nonempty(Split(file)) && input.LeftFits() == StreamFits(file)
      decreases |input.Left()|, more
    {
      nals, ok := ReadOne(input, nals);
      if !ok {
        return;
      }
      more := input.More();
    }
    UsedUp(input);
  }

  lemma UsedUp(input: ReplayInput)
    requires input.Valid() && !input.More()
    ensures Nonempty(input.Left()) == [] && input.LeftFits()
  {
    NothingFound([]);
  }

  /** So the reader inverts printing too. */
  method ReplayPrinted(zeros: nat, us: seq<Unit>) returns (nals: seq<seq<byte>>, ok: bool)
    requires AllValid(us) && AllSmall(us)
    ensures ok && nals == NalsOf(us)
  {
    SplitPrint(zeros, us);
    NoneEmpty(us);
    nals, ok := ReplayAll(PrintStream(zeros, us));
  }
}
