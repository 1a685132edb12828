/**
 * Media update packages: the printer (make-media-update.py) and the receiver
 * (update.c), which writes the five parts to files as the upload arrives, in
 * whatever pieces, and hands them to the signature check only when all of it is
 * there.
 */
module Update {
  import opened Bytes
  import opened Streams

  const HEADER: nat := 96
  const PARTS: nat := 5
  const IMAGE_BYTES: nat := 3211264
  const MANIFEST_MAX: nat := 8192
  const SIGNATURE_MAX: nat := 256
  const SCRIPT_MAX: nat := 32768
  const CHUNK: nat := 4096
  const UNSIGNED: nat := 0x1_0000_0000

  /** "JIPCMEDIA1" */
  const MAGIC: seq<byte> := [0x4a, 0x49, 0x50, 0x43, 0x4d, 0x45, 0x44, 0x49, 0x41, 0x31]
  const SPACE: byte := 0x20
  const NEWLINE: byte := 0x0a

  // ----- the printer

  function Decimal(n: nat): (s: seq<byte>)
    ensures s != []
  {
    if n < 10 then [(0x30 + n) as byte] else Decimal(n / 10) + [(0x30 + n % 10) as byte]
  }

  /** Each number after a space. */
  function Fields(numbers: seq<nat>): seq<byte> {
    if numbers == [] then [] else [SPACE] + Decimal(numbers[0]) + Fields(numbers[1..])
  }

  function Spaces(n: nat): (s: seq<byte>)
    ensures |s| == n && forall i :: 0 <= i < n ==> s[i] == SPACE
  {
    seq(n, _ => SPACE)
  }

  /** bytes.ljust */
  function Padded(s: seq<byte>, width: nat): seq<byte> {
    if |s| < width then s + Spaces(width - |s|) else s
  }

  function Lengths(parts: seq<seq<byte>>): (n: seq<nat>)
    ensures |n| == |parts|
  {
    seq(|parts|, i requires 0 <= i < |parts| => |parts[i]|)
  }

  function Joined(parts: seq<seq<byte>>): seq<byte> {
    if parts == [] then [] else parts[0] + Joined(parts[1..])
  }

  /** package */
  function Package(parts: seq<seq<byte>>): seq<byte> {
    Padded(MAGIC + Fields(Lengths(parts)), HEADER - 1) + [NEWLINE] + Joined(parts)
  }

  // ----- the header's reader

  predicate IsSpace(b: byte) {
    b == 0x20 || 0x09 <= b <= 0x0d
  }

  predicate IsDigit(b: byte) {
    0x30 <= b <= 0x39
  }

  function SkipSpaces(s: seq<byte>): seq<byte> {
    if s != [] && IsSpace(s[0]) then SkipSpaces(s[1..]) else s
  }

  /** The digits that s begins with. */
  function DigitsOf(s: seq<byte>): (d: seq<byte>)
    ensures d <= s && forall i :: 0 <= i < |d| ==> IsDigit(d[i])
  {
    if s != [] && IsDigit(s[0]) then [s[0]] + DigitsOf(s[1..]) else []
  }

  function ValueOf(digits: seq<byte>): nat
    requires forall i :: 0 <= i < |digits| ==> IsDigit(digits[i])
    decreases |digits|
  {
    if digits == [] then 0
    else
      var last := digits[|digits| - 1];
      assert IsDigit(last);
      ValueOf(digits[..|digits| - 1]) * 10 + (last - 0x30)
  }

  /** One %u: white space, a sign, digits.  A numeral that does not fit 32 bits is refused here. */
  function ReadNumber(s: seq<byte>): Option<(nat, seq<byte>)> {
    var t := SkipSpaces(s);
    var signed := t != [] && (t[0] == 0x2b || t[0] == 0x2d);
    var u := if signed then t[1..] else t;
    var digits := DigitsOf(u);
    var value := ValueOf(digits);
    if digits == [] || value >= UNSIGNED then None
    else Some((if signed && t[0] == 0x2d then (UNSIGNED - value) % UNSIGNED else value, u[|digits|..]))
  }

  function ReadNumbers(s: seq<byte>, n: nat): Option<seq<nat>>
    decreases n
  {
    if n == 0 then Some([])
    else
      var one := ReadNumber(s);
      if one.None? then None
      else
        var others := ReadNumbers(one.value.1, n - 1);
        if others.None? then None else Some([one.value.0] + others.value)
  }

  /** The sizes a header announces. */
  function ReadHeader(header: seq<byte>): (sizes: Option<seq<nat>>) {
    if MAGIC <= header && |header| == HEADER && header[HEADER - 1] == NEWLINE then ReadNumbers(header[|MAGIC|..], PARTS) else None
  }

  function Sum(sizes: seq<nat>): nat {
    if sizes == [] then 0 else sizes[0] + Sum(sizes[1..])
  }

  predicate SizesOk(sizes: seq<nat>) {
    && |sizes| == PARTS
    && 0 < sizes[0] <= MANIFEST_MAX && 0 < sizes[1] <= SIGNATURE_MAX
    && 0 < sizes[2] <= SCRIPT_MAX && 0 < sizes[3] <= SCRIPT_MAX && sizes[4] == IMAGE_BYTES
  }

  /** What an upload of total bytes must begin with. */
  predicate Acceptable(data: seq<byte>, total: nat) {
    && HEADER <= total && HEADER <= |data|
    && var sizes := ReadHeader(data[..HEADER]);
       sizes.Some? && SizesOk(sizes.value) && total == HEADER + Sum(sizes.value)
  }

  /** Nothing else is accepted: the header's marks, five numbers within the limits, and the size they add up to. */
  lemma AcceptedIsSound(data: seq<byte>, total: nat)
    requires Acceptable(data, total)
    ensures |data| >= 96 && data[..10] == [0x4a, 0x49, 0x50, 0x43, 0x4d, 0x45, 0x44, 0x49, 0x41, 0x31] && data[95] == 0x0a
    ensures var n := ReadHeader(data[..HEADER]);
            && n.Some? && |n.value| == 5
            && 1 <= n.value[0] <= 8192 && 1 <= n.value[1] <= 256 && 1 <= n.value[2] <= 32768 && 1 <= n.value[3] <= 32768
            && n.value[4] == 3211264
            && total == 96 + n.value[0] + n.value[1] + n.value[2] + n.value[3] + n.value[4]
  {
    hide ReadNumbers;
    var n := ReadHeader(data[..HEADER]).value;
    assert data[..HEADER][..10] == data[..10];
    SumHead(n);
    SumHead(n[1..]);
    SumHead(n[1..][1..]);
    SumHead(n[1..][1..][1..]);
    SumHead(n[1..][1..][1..][1..]);
    assert n[1..][1..][1..][1..][1..] == [];
  }

  /** data cut into parts of these sizes. */
  function Cut(data: seq<byte>, sizes: seq<nat>): (parts: seq<seq<byte>>)
    requires Sum(sizes) <= |data|
    ensures |parts| == |sizes|
    decreases |sizes|
  {
    if sizes == [] then [] else [data[..sizes[0]]] + Cut(data[sizes[0]..], sizes[1..])
  }

  // ----- reading what was printed

  lemma {:induction false} DecimalDigits(n: nat)
    ensures var s := Decimal(n); (forall i :: 0 <= i < |s| ==> IsDigit(s[i])) && ValueOf(s) == n
  {
    if n >= 10 {
      DecimalDigits(n / 10);
      var s := Decimal(n);
      assert s[..|s| - 1] == Decimal(n / 10);
    } else {
      assert Decimal(n)[..0] == [];
    }
  }

  lemma {:induction false} DigitsStop(d: seq<byte>, tail: seq<byte>)
    requires (forall i :: 0 <= i < |d| ==> IsDigit(d[i])) && (tail == [] || !IsDigit(tail[0]))
    ensures DigitsOf(d + tail) == d
    decreases |d|
  {
    if d == [] {
      assert d + tail == tail;
    } else {
      DigitsStop(d[1..], tail);
      assert (d + tail)[1..] == d[1..] + tail;
    }
  }

  lemma {:induction false} SpacesAreSkipped(blanks: seq<byte>, u: seq<byte>)
    requires forall i :: 0 <= i < |blanks| ==> blanks[i] in {9, 10, 11, 12, 13, 32}
    requires u == [] || u[0] !in {9, 10, 11, 12, 13, 32}
    ensures SkipSpaces(blanks + u) == u
    decreases |blanks|
  {
    if blanks == [] {
      assert blanks + u == u;
    } else {
      SpacesAreSkipped(blanks[1..], u);
      assert (blanks + u)[1..] == blanks[1..] + u;
    }
  }

  /**
   * A number behind any white space, with or without a sign, is read up to its
   * last digit if it fits 32 bits; a minus takes it modulo 2^32; no digits, no number.
   */
  lemma AnyNumberIsRead(blanks: seq<byte>, sign: seq<byte>, d: seq<byte>, tail: seq<byte>)
    requires forall i :: 0 <= i < |blanks| ==> blanks[i] in {9, 10, 11, 12, 13, 32}
    requires sign in {[], [0x2b], [0x2d]}
    requires (forall i :: 0 <= i < |d| ==> IsDigit(d[i])) && (tail == [] || !IsDigit(tail[0]))
    requires d == [] && sign == [] ==> tail == [] || tail[0] !in {9, 10, 11, 12, 13, 32, 0x2b, 0x2d}
    ensures ReadNumber(blanks + (sign + (d + tail))) ==
            if d == [] || ValueOf(d) >= 0x1_0000_0000 then None
            else Some((if sign == [0x2d] && ValueOf(d) > 0 then 0x1_0000_0000 - ValueOf(d) else ValueOf(d), tail))
  {
    hide ReadNumber, DigitsOf, ValueOf, SkipSpaces;
    DigitsStop(d, tail);
    var u := d + tail;
    DigitsFirst(d, tail);
    if sign == [] {
      assert sign + u == u;
      SpacesAreSkipped(blanks, u);
      ReadsUnsigned(blanks + u, u);
    } else {
      assert sign == [sign[0]];
      SpacesAreSkipped(blanks, sign + u);
      ReadsSigned(blanks + (sign + u), sign[0], u);
    }
  }

  lemma DigitsFirst(d: seq<byte>, tail: seq<byte>)
    ensures (d + tail)[|d|..] == tail
    ensures d != [] ==> (d + tail)[0] == d[0]
    ensures d == [] ==> d + tail == tail
  {
  }

  lemma ReadsUnsigned(s: seq<byte>, u: seq<byte>)
    requires SkipSpaces(s) == u && (u == [] || u[0] !in {0x2b, 0x2d})
    ensures var d := DigitsOf(u);
            ReadNumber(s) == if d == [] || ValueOf(d) >= 0x1_0000_0000 then None else Some((ValueOf(d), u[|d|..]))
  {
    hide DigitsOf, ValueOf, SkipSpaces;
  }

  lemma ReadsSigned(s: seq<byte>, sign: byte, u: seq<byte>)
    requires SkipSpaces(s) == [sign] + u && sign in {0x2b, 0x2d}
    ensures var d := DigitsOf(u);
            ReadNumber(s) == if d == [] || ValueOf(d) >= 0x1_0000_0000 then None
                             else Some((if sign == 0x2d && ValueOf(d) > 0 then 0x1_0000_0000 - ValueOf(d) else ValueOf(d), u[|d|..]))
  {
    hide DigitsOf, ValueOf, SkipSpaces;
    assert ([sign] + u)[1..] == u;
  }

  lemma SpacedIsRead(d: seq<byte>, tail: seq<byte>)
    requires d != [] && (forall i :: 0 <= i < |d| ==> IsDigit(d[i])) && DigitsOf(d + tail) == d
    requires ValueOf(d) < UNSIGNED
    ensures ReadNumber([SPACE] + (d + tail)) == Some((ValueOf(d), tail))
  {
    hide DigitsOf, ValueOf, SkipSpaces;
    assert (d + tail)[0] == d[0] && IsDigit(d[0]);
    SpacesAreSkipped([SPACE], d + tail);
    assert (d + tail)[|d|..] == tail;
  }

  lemma Regroup(a: seq<byte>, b: seq<byte>, c: seq<byte>)
    ensures a + (b + c) == a + b + c
  {
  }

  lemma NumberIsRead(n: nat, tail: seq<byte>)
    requires n < UNSIGNED && (tail == [] || !IsDigit(tail[0]))
    ensures ReadNumber([SPACE] + Decimal(n) + tail) == Some((n, tail))
  {
    var d := Decimal(n);
    DecimalDigits(n);
    DigitsStop(d, tail);
    hide *;
    SpacedIsRead(d, tail);
    Regroup([SPACE], d, tail);
  }

  lemma FirstField(numbers: seq<nat>, tail: seq<byte>)
    requires numbers != [] && (tail == [] || !IsDigit(tail[0]))
    ensures var rest := Fields(numbers[1..]) + tail;
            && (rest == [] || !IsDigit(rest[0]))
            && Fields(numbers) + tail == [SPACE] + Decimal(numbers[0]) + rest
  {
    hide Decimal;
  }

  lemma {:induction false} NumbersAreRead(numbers: seq<nat>, tail: seq<byte>)
    requires (forall i :: 0 <= i < |numbers| ==> numbers[i] < UNSIGNED) && (tail == [] || !IsDigit(tail[0]))
    ensures ReadNumbers(Fields(numbers) + tail, |numbers|) == Some(numbers)
    decreases |numbers|
  {
    hide ReadNumber, Decimal, Fields;
    if numbers != [] {
      NumbersAreRead(numbers[1..], tail);
      FirstField(numbers, tail);
      NumberIsRead(numbers[0], Fields(numbers[1..]) + tail);
      assert [numbers[0]] + numbers[1..] == numbers;
    }
  }

  lemma {:induction false} DecimalShort(n: nat, k: nat)
    requires n < Power(k) && k > 0
    ensures |Decimal(n)| <= k
    decreases k
  {
    if n >= 10 {
      DecimalShort(n / 10, k - 1);
    }
  }

  function Power(k: nat): nat {
    if k == 0 then 1 else 10 * Power(k - 1)
  }

  /** Parts that a package may carry. */
  predicate PartsOk(parts: seq<seq<byte>>) {
    SizesOk(Lengths(parts))
  }

  lemma HeaderFits(parts: seq<seq<byte>>)
    requires |parts| == PARTS && PartsOk(parts)
    ensures |MAGIC + Fields(Lengths(parts))| < HEADER - 1
  {
    var n := Lengths(parts);
    assert Power(4) == 10000 && Power(3) == 1000 && Power(5) == 100000 && Power(7) == 10000000 by {
      assert Power(1) == 10 && Power(2) == 100;
      assert Power(6) == 1000000;
    }
    DecimalShort(n[0], 4);
    DecimalShort(n[1], 3);
    DecimalShort(n[2], 5);
    DecimalShort(n[3], 5);
    DecimalShort(n[4], 7);
    FieldsOfFive(n);
    hide Decimal, Power;
  }

  lemma FieldsOfFive(n: seq<nat>)
    requires |n| == PARTS
    ensures |Fields(n)| == 5 + |Decimal(n[0])| + |Decimal(n[1])| + |Decimal(n[2])| + |Decimal(n[3])| + |Decimal(n[4])|
  {
    hide Decimal;
    assert n == [n[0], n[1], n[2], n[3], n[4]];
    assert n[1..] == [n[1], n[2], n[3], n[4]] && n[1..][1..] == [n[2], n[3], n[4]];
    assert n[1..][1..][1..] == [n[3], n[4]] && n[1..][1..][1..][1..] == [n[4]] && [n[4]][1..] == [];
    assert |Fields([n[4]])| == 1 + |Decimal(n[4])|;
    assert |Fields([n[3], n[4]])| == 2 + |Decimal(n[3])| + |Decimal(n[4])|;
    assert |Fields([n[2], n[3], n[4]])| == 3 + |Decimal(n[2])| + |Decimal(n[3])| + |Decimal(n[4])|;
  }

  lemma {:induction false} JoinedLength(parts: seq<seq<byte>>)
    ensures |Joined(parts)| == Sum(Lengths(parts))
    decreases |parts|
  {
    if parts != [] {
      JoinedLength(parts[1..]);
      assert Lengths(parts)[1..] == Lengths(parts[1..]);
    }
  }

  lemma {:induction false} JoinedIsCut(parts: seq<seq<byte>>, tail: seq<byte>)
    ensures |Joined(parts)| == Sum(Lengths(parts))
    ensures Cut(Joined(parts) + tail, Lengths(parts)) == parts
    decreases |parts|
  {
    JoinedLength(parts);
    if parts != [] {
      JoinedIsCut(parts[1..], tail);
      JoinedLength(parts[1..]);
      assert Lengths(parts)[1..] == Lengths(parts[1..]);
      var data, rest := Joined(parts) + tail, Joined(parts[1..]) + tail;
      assert Joined(parts) == parts[0] + Joined(parts[1..]);
      assert Lengths(parts)[0] == |parts[0]|;
      hide Joined, Sum, Lengths;
      assert data == parts[0] + rest;
      assert data[..|parts[0]|] == parts[0] && data[|parts[0]|..] == rest;
      assert [parts[0]] + parts[1..] == parts;
    }
  }

  /** Every package is one the receiver accepts, and cut up it is the parts it was made of. */
  lemma PackageIsAcceptable(parts: seq<seq<byte>>)
    requires |parts| == PARTS && PartsOk(parts)
    ensures var p := Package(parts);
            && Acceptable(p, |p|) && ReadHeader(p[..HEADER]) == Some(Lengths(parts))
            && Sum(Lengths(parts)) <= |p| - HEADER
            && Cut(p[HEADER..], Lengths(parts)) == parts
  {
    hide Fields, Decimal, ReadNumbers, Cut, Sum, Joined;
    var p, n := Package(parts), Lengths(parts);
    var text := MAGIC + Fields(n);
    HeaderFits(parts);
    var fill := Spaces(HEADER - 1 - |text|);
    var header := p[..HEADER];
    assert p == text + fill + [NEWLINE] + Joined(parts);
    assert header == text + fill + [NEWLINE];
    assert header[|MAGIC|..] == Fields(n) + (fill + [NEWLINE]);
    NumbersAreRead(n, fill + [NEWLINE]);
    JoinedIsCut(parts, []);
    assert p[HEADER..] == Joined(parts) + [];
  }

  // ----- the receiver

  /** What becomes of a write: how often it is interrupted and tried again, and how much it takes then. */
  datatype Put = Put(interruptions: nat, takes: nat)

  /** Pulls bring something, writes take something, files open. */
  ghost predicate Flowing(piece: nat -> nat, put: nat -> Put, opens: nat -> bool) {
    (forall k :: piece(k) > 0) && (forall k :: put(k).takes > 0) && (forall k :: opens(k))
  }

  /**
   * An upload: what came with the request's header, and what is still to be
   * pulled.  piece, put and opens are the environment: how much the next pull
   * brings (0: it fails), what becomes of the next write (it takes 0: it fails),
   * whether the next file opens.
   */
  class Upload {
    var first: seq<byte>
    var incoming: seq<byte>
    const piece: nat -> nat
    const put: nat -> Put
    const opens: nat -> bool
    var pulls: nat
    var puts: nat

    ghost function Left(): seq<byte>
      reads this
    {
      first + incoming
    }

    ghost predicate Reliable() {
      Flowing(piece, put, opens)
    }

    constructor (first0: seq<byte>, incoming0: seq<byte>, piece0: nat -> nat, put0: nat -> Put, opens0: nat -> bool)
      ensures Left() == first0 + incoming0 && piece == piece0 && put == put0 && opens == opens0
    {
      first, incoming, piece, put, opens, pulls, puts := first0, incoming0, piece0, put0, opens0, 0, 0;
    }

    method Pull(capacity: nat) returns (got: seq<byte>)
      requires first == [] && capacity > 0
      modifies this`incoming, this`pulls
      ensures old(incoming) == got + incoming && |got| <= capacity
      ensures Reliable() && old(incoming) != [] ==> got != []
    {
      var n := piece(pulls);
      n := if n > capacity then capacity else n;
      n := if n > |incoming| then |incoming| else n;
      got := incoming[..n];
      incoming, pulls := incoming[n..], pulls + 1;
    }

    /** The next bytes, at most n of them: from the buffer while it lasts, else pulled. */
    method Next(n: nat, most: nat) returns (data: seq<byte>)
      requires n > 0 && most > 0
      modifies this`first, this`incoming, this`pulls
      ensures old(Left()) == data + Left() && |data| <= n
      ensures Reliable() && old(Left()) != [] ==> data != []
    {
      if first != [] {
        var k := if |first| < n then |first| else n;
        data := first[..k];
        first := first[k..];
      } else {
        data := Pull(if n < most then n else most);
      }
      assert old(Left()) == data + Left();
    }

    method ReadHeaderBytes() returns (header: Option<seq<byte>>)
      modifies this`first, this`incoming, this`pulls
      ensures header.Some? ==> |header.value| == HEADER && old(Left()) == header.value + Left()
      ensures Reliable() && |old(Left())| >= HEADER ==> header.Some?
    {
      var have := [];
      while |have| < HEADER
        invariant |have| <= HEADER && old(Left()) == have + Left()
      {
        var data := Next(HEADER - |have|, HEADER - |have|);
        assert (have + data) + Left() == have + (data + Left());
        have := have + data;
        if data == [] {
          return None;
        }
      }
      header := Some(have);
    }

    /** write() until all of data is in the file, or fails. */
    method WriteAll(data: seq<byte>) returns (written: seq<byte>)
      modifies this`puts
      ensures written <= data && (Reliable() ==> written == data)
    {
      var p, interruptions := 0, put(puts).interruptions;
      while p < |data|
        invariant p <= |data|
        decreases |data| - p, interruptions
      {
        if interruptions > 0 {
          interruptions := interruptions - 1;
          continue;
        }
        var n := put(puts).takes;
        puts := puts + 1;
        if n == 0 {
          return data[..p];
        }
        p := if p + n > |data| then |data| else p + n;
        interruptions := put(puts).interruptions;
      }
      written := data[..p];
    }

    /** write_part: 0, or the HTTP status of what went wrong. */
    method WritePart(index: nat, size: nat) returns (status: nat, file: seq<byte>)
      modifies this
      ensures status == 0 ==> |file| == size && old(Left()) == file + Left()
      ensures Reliable() && |old(Left())| >= size ==> status == 0
    {
      file := [];
      if !opens(index) {
        return 500, file;
      }
      while |file| < size
        invariant |file| <= size && old(Left()) == file + Left()
      {
        var data := Next(size - |file|, CHUNK);
        if data == [] {
          return 400, file;
        }
        var written := WriteAll(data);
        assert (file + data) + Left() == file + (data + Left());
        if written != data {
          return 507, file + written;
        }
        file := file + data;
      }
      status := 0;
    }

    method WriteParts(sizes: seq<nat>) returns (status: nat, files: seq<seq<byte>>)
      modifies this
      ensures status == 0 ==> Sum(sizes) <= |old(Left())| && files == Cut(old(Left()), sizes) &&
                              Left() == old(Left())[Sum(sizes)..]
      ensures Reliable() && |old(Left())| >= Sum(sizes) ==> status == 0
    {
      hide Cut, Sum;
      files, status := [], 0;
      var i := 0;
      assert sizes[0..] == sizes;
      while i < |sizes|
        invariant i <= |sizes| && |files| == i
        invariant Sum(sizes[i..]) <= |Left()| ==> Sum(sizes) <= |old(Left())|
        invariant Sum(sizes[i..]) <= |Left()| ==> files + Cut(Left(), sizes[i..]) == Cut(old(Left()), sizes)
        invariant Sum(sizes[i..]) <= |Left()| ==> Left()[Sum(sizes[i..])..] == old(Left())[Sum(sizes)..]
        invariant |old(Left())| >= Sum(sizes) ==> |Left()| >= Sum(sizes[i..])
      {
        ghost var left, later := Left(), sizes[i + 1..];
        var file;
        status, file := WritePart(i, sizes[i]);
        assert sizes[i..][1..] == later;
        SumHead(sizes[i..]);
        if status != 0 {
          return;
        }
        CutNext(left, file, Left(), sizes[i..]);
        Shift(files, file, if Sum(later) <= |Left()| then Cut(Left(), later) else []);
        files := files + [file];
        i := i + 1;
      }
      assert sizes[i..] == [];
      CutNothing(Left());
    }

    /** receive_package, up to the signature check; checked says whether it gets there. */
    method Receive(total: nat, made: bool) returns (checked: bool, files: seq<seq<byte>>)
      modifies this
      ensures checked ==> Acceptable(old(Left()), total) && total <= |old(Left())|
      ensures checked ==> var sizes := ReadHeader(old(Left())[..HEADER]).value;
                          files == Cut(old(Left())[HEADER..], sizes) && Left() == old(Left())[total..]
      ensures Reliable() && made && Acceptable(old(Left()), total) && total <= |old(Left())| ==> checked
    {
      hide ReadHeader, Cut, Sum, SizesOk, Flowing;
      files := [];
      if total < HEADER {
        return false, files;
      }
      var header := ReadHeaderBytes();
      if header.None? {
        return false, files;
      }
      assert old(Left())[..HEADER] == header.value && old(Left())[HEADER..] == Left();
      var sizes := ReadHeader(header.value);
      if sizes.None? || !SizesOk(sizes.value) || total != HEADER + Sum(sizes.value) || !made {
        return false, files;
      }
      var status;
      status, files := WriteParts(sizes.value);
      checked := status == 0;
    }
  }

  lemma SumHead(sizes: seq<nat>)
    requires sizes != []
    ensures Sum(sizes) == sizes[0] + Sum(sizes[1..])
  {
  }

  lemma CutNothing(data: seq<byte>)
    ensures Sum([]) == 0 && Cut(data, []) == []
  {
  }

  lemma CutNext(left: seq<byte>, file: seq<byte>, rest: seq<byte>, sizes: seq<nat>)
    requires sizes != [] && left == file + rest && |file| == sizes[0]
    ensures Sum(sizes) <= |left| <==> Sum(sizes[1..]) <= |rest|
    ensures Sum(sizes) <= |left| ==> Cut(left, sizes) == [file] + Cut(rest, sizes[1..])
    ensures Sum(sizes) <= |left| ==> left[Sum(sizes)..] == rest[Sum(sizes[1..])..]
  {
    assert left[..sizes[0]] == file && left[sizes[0]..] == rest;
  }

  /** A whole upload: data of which split bytes came with the request's header. */
  method ReceiveUpload(data: seq<byte>, total: nat, split: nat, piece: nat -> nat, put: nat -> Put, opens: nat -> bool)
    returns (checked: bool, files: seq<seq<byte>>, left: nat)
    requires split <= |data|
    ensures checked ==> Acceptable(data, total) && total <= |data| && left == |data| - total
    ensures checked ==> files == Cut(data[HEADER..], ReadHeader(data[..HEADER]).value)
    ensures Acceptable(data, total) && total <= |data| && Flowing(piece, put, opens) ==> checked
  {
    var upload := new Upload(data[..split], data[split..], piece, put, opens);
    assert data[..split] + data[split..] == data;
    checked, files := upload.Receive(total, true);
    left := |upload.first| + |upload.incoming|;
  }

  /**
   * What the printer packs arrives as it was packed: for any five parts within
   * the limits and any division of the upload into a first buffer and pieces,
   * the five files are those parts and not a byte is left over.
   */
  method Deliver(parts: seq<seq<byte>>, split: nat, piece: nat -> nat, put: nat -> Put) returns (files: seq<seq<byte>>, left: nat)
    requires |parts| == PARTS && PartsOk(parts) && split <= |Package(parts)|
    requires Flowing(piece, put, _ => true)
    ensures files == parts && left == 0
  {
    hide *;
    PackageIsAcceptable(parts);
    var p := Package(parts);
    var checked;
    checked, files, left := ReceiveUpload(p, |p|, split, piece, put, _ => true);
  }

  /** An upload that stops short of the size it announced never reaches the signature check. */
  method CutShort(data: seq<byte>, total: nat, split: nat, piece: nat -> nat, put: nat -> Put, opens: nat -> bool) returns (checked: bool)
    requires |data| < total && split <= |data|
    ensures !checked
  {
    var files, left;
    checked, files, left := ReceiveUpload(data, total, split, piece, put, opens);
  }
}
