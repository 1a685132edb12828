/**
 * Replaying a file (media.c): its NAL units are grouped into access units, and
 * the access units are played over and over.  A new access unit begins, once the
 * current one holds a slice, at a first slice, a parameter set, SEI or an access
 * unit delimiter; an empty NAL unit ends the current one too.
 */
module AccessUnits {
  import opened Bytes
  import AnnexB

  function Kind(nal: seq<byte>): nat {
    if nal == [] then 0 else nal[0] % 32
  }

  predicate Slice(nal: seq<byte>) {
    1 <= Kind(nal) <= 5
  }

  /** first_mb_in_slice is zero: the first bit after the unit's header is one. */
  predicate FirstSlice(nal: seq<byte>) {
    Slice(nal) && |nal| > 1 && nal[1] >= 128
  }

  predicate Starts(nal: seq<byte>) {
    FirstSlice(nal) || 6 <= Kind(nal) <= 9
  }

  /** By the types of section 7.4.1 of ITU-T H.264: parameter sets, SEI and delimiters, and slices at macroblock 0. */
  lemma StartsByType(header: byte, payload: seq<byte>)
    ensures var nal, kind := [header] + payload, header % 32;
            && (Slice(nal) <==> kind in {1, 2, 3, 4, 5})
            && (Starts(nal) <==> kind in {6, 7, 8, 9} || (kind in {1, 2, 3, 4, 5} && payload != [] && payload[0] / 128 == 1))
            && !Slice([]) && !Starts([])
  {
  }

  predicate HasSlice(nals: seq<seq<byte>>) {
    exists i :: 0 <= i < |nals| && Slice(nals[i])
  }

  predicate HasKey(nals: seq<seq<byte>>) {
    exists i :: 0 <= i < |nals| && Kind(nals[i]) == 5
  }

  /** One access unit: it holds a slice and no empty unit, and nothing after a slice would start another. */
  ghost predicate OneUnit(nals: seq<seq<byte>>) {
    && HasSlice(nals) && (forall i :: 0 <= i < |nals| ==> nals[i] != [])
    && forall i, j :: 0 <= i < j < |nals| && Slice(nals[i]) ==> !Starts(nals[j])
  }

  /**
   * A grouping of a stream, independent of how it is found: access units, each
   * followed by a unit that starts another, by an empty unit, or by the end, and
   * a rest with no slice before its first empty unit.
   */
  ghost predicate Grouping(nals: seq<seq<byte>>, groups: seq<seq<seq<byte>>>, rest: seq<seq<byte>>)
    decreases |groups|
  {
    if groups == [] then
      rest == nals && forall i :: 0 <= i < |rest| && Slice(rest[i]) ==> exists j :: 0 <= j < i && rest[j] == []
    else
      var n := |groups[0]|;
      && OneUnit(groups[0]) && n <= |nals| && nals[..n] == groups[0]
      && (n == |nals| || nals[n] == [] || Starts(nals[n]))
      && Grouping(nals[if n < |nals| && nals[n] == [] then n + 1 else n..], groups[1..], rest)
  }

  /** How many units the first access unit has, when have says whether a slice came before. */
  function Length(nals: seq<seq<byte>>, have: bool): (n: nat)
    ensures n <= |nals|
  {
    if nals == [] || nals[0] == [] || (have && Starts(nals[0])) then 0
    else 1 + Length(nals[1..], have || Slice(nals[0]))
  }

  function First(nals: seq<seq<byte>>): seq<seq<byte>> {
    nals[..Length(nals, false)]
  }

  /** What is left behind the first access unit: an empty unit that ends it is used up. */
  function After(nals: seq<seq<byte>>): (left: seq<seq<byte>>)
    ensures HasSlice(First(nals)) ==> |left| < |nals|
  {
    var n := Length(nals, false);
    nals[if n < |nals| && nals[n] == [] then n + 1 else n..]
  }

  /** The access units up to the first end of one without a slice, where the player rewinds. */
  function Groups(nals: seq<seq<byte>>): seq<seq<seq<byte>>>
    decreases |nals|
  {
    if HasSlice(First(nals)) then [First(nals)] + Groups(After(nals)) else []
  }

  function Rest(nals: seq<seq<byte>>): seq<seq<byte>>
    decreases |nals|
  {
    if HasSlice(First(nals)) then Rest(After(nals)) else nals
  }

  /** The units in one buffer, with a four-byte start code each. */
  function Joined(nals: seq<seq<byte>>): seq<byte> {
    if nals == [] then [] else AnnexB.START_CODE + nals[0] + Joined(nals[1..])
  }

  predicate Fits(nals: seq<seq<byte>>) {
    |Joined(First(nals))| <= AnnexB.MAX_FRAME
  }

  /** Every access unit has room in the buffer, and so has what is read before the rewind. */
  ghost predicate Playable(nals: seq<seq<byte>>) {
    && (forall g <- Groups(nals) :: |Joined(g)| <= AnnexB.MAX_FRAME)
    && Fits(Rest(nals))
  }

  /** The code's length is the only one at which an access unit can end. */
  lemma {:induction false} LengthIs(nals: seq<seq<byte>>, have: bool, k: nat)
    requires k <= |nals|
    requires forall j :: 0 <= j < k ==> nals[j] != []
    requires forall i, j :: 0 <= i < j < k && Slice(nals[i]) ==> !Starts(nals[j])
    requires have ==> forall j :: 0 <= j < k ==> !Starts(nals[j])
    requires k < |nals| ==> nals[k] == [] || (Starts(nals[k]) && (have || HasSlice(nals[..k])))
    ensures Length(nals, have) == k
  {
    if k > 0 {
      var later := nals[1..];
      assert forall j :: 0 <= j < k - 1 ==> later[j] == nals[j + 1];
      if k < |nals| && nals[k] != [] && !have && !Slice(nals[0]) {
        var i :| 0 <= i < k && Slice(nals[..k][i]);
        assert Slice(later[..k - 1][i - 1]);
      }
      LengthIs(later, have || Slice(nals[0]), k - 1);
    }
  }

  lemma {:induction false} LengthEnds(nals: seq<seq<byte>>, have: bool)
    ensures var n := Length(nals, have);
            && (forall j :: 0 <= j < n ==> nals[j] != [])
            && (forall i, j :: 0 <= i < j < n && Slice(nals[i]) ==> !Starts(nals[j]))
            && (have ==> forall j :: 0 <= j < n ==> !Starts(nals[j]))
            && (n < |nals| ==> nals[n] == [] || (Starts(nals[n]) && (have || HasSlice(nals[..n]))))
  {
    if nals != [] && nals[0] != [] && !(have && Starts(nals[0])) {
      var h := have || Slice(nals[0]);
      LengthEnds(nals[1..], h);
      var n := Length(nals, have);
      assert forall j :: 1 <= j < n ==> nals[j] == nals[1..][j - 1];
      if n < |nals| && nals[n] != [] && !have {
        if Slice(nals[0]) {
          assert Slice(nals[..n][0]);
        } else {
          var i :| 0 <= i < n - 1 && Slice(nals[1..][..n - 1][i]);
          assert Slice(nals[..n][i + 1]);
        }
      }
    }
  }

  lemma FirstIsUnit(nals: seq<seq<byte>>)
    requires HasSlice(First(nals))
    ensures OneUnit(First(nals))
    ensures var n := |First(nals)|; n == |nals| || nals[n] == [] || Starts(nals[n])
  {
    hide Starts, Slice, HasSlice;
    LengthEnds(nals, false);
    var g := First(nals);
    assert forall i :: 0 <= i < |g| ==> g[i] == nals[i];
  }

  lemma NoSliceBeforeEmpty(nals: seq<seq<byte>>)
    requires !HasSlice(First(nals))
    ensures forall i :: 0 <= i < |nals| && Slice(nals[i]) ==> exists j :: 0 <= j < i && nals[j] == []
  {
    hide Starts;
    LengthEnds(nals, false);
    var n := Length(nals, false);
    assert !Slice([]);
    hide Length, Slice;
    assert forall i :: 0 <= i < n ==> First(nals)[i] == nals[i];
    assert n < |nals| ==> nals[..n] == First(nals) && nals[n] == [];
  }

  /** The code finds a grouping ... */
  lemma {:induction false} GroupsGroup(nals: seq<seq<byte>>)
    ensures Grouping(nals, Groups(nals), Rest(nals))
    decreases |nals|
  {
    hide Starts, HasSlice, Slice, OneUnit, Length;
    if HasSlice(First(nals)) {
      FirstIsUnit(nals);
      GroupsGroup(After(nals));
      var groups := Groups(nals);
      assert groups[0] == First(nals) && groups[1..] == Groups(After(nals));
    } else {
      NoSliceBeforeEmpty(nals);
    }
  }

  /** ... and a stream has no other. */
  lemma {:induction false} GroupingIsUnique(nals: seq<seq<byte>>, groups: seq<seq<seq<byte>>>, rest: seq<seq<byte>>)
    requires Grouping(nals, groups, rest)
    ensures groups == Groups(nals) && rest == Rest(nals)
    decreases |groups|
  {
    hide Length, Starts, Slice, HasSlice, First, After, OneUnit;
    if groups == [] {
      NoneFirst(nals, rest);
    } else {
      FirstMatches(nals, groups, rest);
      GroupingIsUnique(After(nals), groups[1..], rest);
      assert groups == [groups[0]] + groups[1..];
    }
  }

  lemma FirstMatches(nals: seq<seq<byte>>, groups: seq<seq<seq<byte>>>, rest: seq<seq<byte>>)
    requires groups != [] && Grouping(nals, groups, rest)
    ensures First(nals) == groups[0] && HasSlice(First(nals)) && Grouping(After(nals), groups[1..], rest)
  {
    hide Starts, Slice;
    var g := groups[0];
    assert forall i :: 0 <= i < |g| ==> nals[i] == g[i];
    LengthIs(nals, false, |g|);
  }

  lemma NoneFirst(nals: seq<seq<byte>>, rest: seq<seq<byte>>)
    requires Grouping(nals, [], rest)
    ensures !HasSlice(First(nals)) && rest == nals
  {
    hide Starts;
    LengthEnds(nals, false);
    var n := Length(nals, false);
    hide Length;
    assert forall i :: 0 <= i < n ==> First(nals)[i] == nals[i];
  }

  /** The access units consist of units of the stream, none of them empty. */
  lemma {:induction false} GroupsAreUnits(nals: seq<seq<byte>>)
    ensures forall g <- Groups(nals) :: OneUnit(g) && forall u <- g :: u in nals && u != []
    decreases |nals|
  {
    if HasSlice(First(nals)) {
      LengthEnds(nals, false);
      var g := First(nals);
      assert forall i :: 0 <= i < |g| ==> g[i] == nals[i];
      GroupsAreUnits(After(nals));
      assert forall u <- After(nals) :: u in nals;
    }
  }

  function Concat(groups: seq<seq<seq<byte>>>): seq<seq<byte>> {
    if groups == [] then [] else groups[0] + Concat(groups[1..])
  }

  /** Without an empty unit the whole file is played: its units are those of the access units and a rest without a slice. */
  lemma {:induction false} NothingLost(nals: seq<seq<byte>>)
    requires forall i :: 0 <= i < |nals| ==> nals[i] != []
    ensures Concat(Groups(nals)) + Rest(nals) == nals && !HasSlice(Rest(nals))
    decreases |nals|
  {
    hide HasSlice, Length, First, After;
    FirstAndAfter(nals);
    if HasSlice(First(nals)) {
      NothingLost(After(nals));
      var groups := Groups(nals);
      assert groups[0] == First(nals) && groups[1..] == Groups(After(nals));
      Associate(First(nals), Concat(groups[1..]), Rest(nals));
    }
  }

  lemma FirstAndAfter(nals: seq<seq<byte>>)
    requires forall i :: 0 <= i < |nals| ==> nals[i] != []
    ensures if HasSlice(First(nals)) then
              nals == First(nals) + After(nals) && forall i :: 0 <= i < |After(nals)| ==> After(nals)[i] != []
            else First(nals) == nals
  {
    hide HasSlice, Starts, Slice;
    var n := Length(nals, false);
    LengthEnds(nals, false);
    hide Length;
    assert nals == nals[..n] + nals[n..];
  }

  lemma Associate<T>(a: seq<T>, b: seq<T>, c: seq<T>)
    ensures (a + b) + c == a + (b + c)
  {
  }

  /** A file in which an empty unit, after a parameter set, cuts off the slice behind it: nothing is ever played. */
  lemma EmptyCutsOff()
    ensures var file := [0, 0, 1, 103, 0, 0, 1, 0, 0, 1, 101];
            AnnexB.Split(file) == [[103], [], [101]] && Slice([101]) && Groups(AnnexB.Split(file)) == []
  {
    hide AnnexB.Split;
    ThreeUnits();
    var nals: seq<seq<byte>> := [[103], [], [101]];
    LengthIs(nals, false, 1);
    assert First(nals) == [[103]];
  }

  lemma ThreeUnits()
    ensures AnnexB.Split([0, 0, 1, 103, 0, 0, 1, 0, 0, 1, 101]) == [[103], [], [101]]
  {
    hide AnnexB.Tail, AnnexB.Head, AnnexB.PrefixAt;
    var file: seq<byte> := [0, 0, 1, 103, 0, 0, 1, 0, 0, 1, 101];
    var a, b, c: seq<byte> := [103, 0, 0, 1, 0, 0, 1, 101], [0, 0, 1, 101], [101];
    Cut(file, [], a);
    Cut(a, [103], b);
    Cut(b, [], c);
    HeadOfLast();
    TailStep(a);
    TailStep(b);
    TailStep(c);
  }

  lemma TailStep(d: seq<byte>)
    ensures AnnexB.Tail(d) == [AnnexB.Head(d).nal] + if AnnexB.Head(d).more then AnnexB.Tail(d[AnnexB.Head(d).next..]) else []
  {
  }

  lemma HeadOfLast()
    ensures AnnexB.Head([101]) == AnnexB.Piece([101], 1, 1, false)
  {
    AnnexB.HeadAtEnd([101], 1);
  }

  lemma Cut(d: seq<byte>, nal: seq<byte>, rest: seq<byte>)
    requires d == nal + [0, 0, 1] + rest && |nal| <= 1 && (nal != [] ==> nal[0] > 1)
    ensures AnnexB.Head(d) == AnnexB.Piece(nal, |nal| + 2, |nal| + 3, true) && d[|nal| + 3..] == rest
  {
    hide AnnexB.Head;
    AnnexB.HeadAtCode(d, |nal|, |nal| + 2);
  }

  lemma {:induction false} JoinedAppend(nals: seq<seq<byte>>, nal: seq<byte>)
    ensures Joined(nals + [nal]) == Joined(nals) + (AnnexB.START_CODE + nal)
  {
    if nals == [] {
      assert [nal][1..] == [];
    } else {
      assert (nals + [nal])[1..] == nals[1..] + [nal];
      JoinedAppend(nals[1..], nal);
    }
  }

  lemma {:induction false} JoinedGrows(nals: seq<seq<byte>>, k: nat)
    requires k <= |nals|
    ensures |Joined(nals[..k])| <= |Joined(nals)|
  {
    if k > 0 {
      assert nals[..k][1..] == nals[1..][..k - 1];
      JoinedGrows(nals[1..], k - 1);
    }
  }

  /** The normalized units split again into the same units. */
  lemma {:induction false} SplitJoined(nals: seq<seq<byte>>)
    requires forall u <- nals :: AnnexB.ValidNal(u)
    ensures AnnexB.Split(Joined(nals)) == nals
  {
    hide AnnexB.Split, AnnexB.ValidNal;
    var us := Long(nals);
    assert AnnexB.PrintStream(0, us) == Joined(nals);
    assert forall i :: 0 <= i < |us| ==> us[i].nal == nals[i];
    AnnexB.SplitPrint(0, us);
  }

  function Long(nals: seq<seq<byte>>): (us: seq<AnnexB.Unit>)
    ensures |us| == |nals| && forall i :: 0 <= i < |us| ==> us[i].nal == nals[i]
    ensures AnnexB.Print(us) == Joined(nals) && AnnexB.NalsOf(us) == nals
  {
    if nals == [] then [] else [AnnexB.Unit(true, nals[0], 0)] + Long(nals[1..])
  }

  /** So each access unit, as it is published, splits into the units of the file it was made of. */
  lemma PublishedUnits(file: seq<byte>)
    ensures forall g <- Groups(AnnexB.Split(file)) :: AnnexB.Split(Joined(g)) == g
  {
    hide *;
    var nals := AnnexB.Split(file);
    GroupsAreUnits(nals);
    AnnexB.SplitValid(file);
    forall g <- Groups(nals) ensures AnnexB.Split(Joined(g)) == g {
      SplitJoined(g);
    }
  }

  /** What is left after p access units. */
  function Skip(nals: seq<seq<byte>>, p: nat): seq<seq<byte>>
    requires p <= |Groups(nals)|
  {
    if p == 0 then nals else Skip(After(nals), p - 1)
  }

  lemma {:induction false} SkipStep(nals: seq<seq<byte>>, p: nat)
    requires p <= |Groups(nals)|
    ensures var left := Skip(nals, p);
            if p < |Groups(nals)| then
              HasSlice(First(left)) && First(left) == Groups(nals)[p] && After(left) == Skip(nals, p + 1)
            else !HasSlice(First(left)) && left == Rest(nals)
    decreases p
  {
    hide HasSlice, First, After;
    if p > 0 {
      SkipStep(After(nals), p - 1);
    }
  }

  /** Which access unit a call plays after p of them: the next, from the start again behind the last, or the first keyframe. */
  ghost predicate Picked(groups: seq<seq<seq<byte>>>, p: nat, requestIdr: bool, q: nat) {
    && q < |groups|
    && if requestIdr then q < TRIES && HasKey(groups[q]) && forall j :: 0 <= j < q ==> !HasKey(groups[j])
       else q == if p < |groups| then p else 0
  }

  const TRIES: nat := 100_000

  // ----- the code

  /** replay_input: the reader, the unit it has read too far, and the access unit with its flags. */
  class Replay {
    const input: AnnexB.ReplayInput
    var nalPending: bool
    var au: seq<byte>
    var haveVcl: bool
    var keyframe: bool

    ghost predicate Valid()
      reads this, input, input.nal
    {
      input.Valid() && (nalPending ==> Full())
    }

    /** A unit with its start code is in the reader's buffer. */
    ghost predicate Full()
      reads input, input.nal
    {
      4 < input.nalSize <= input.nal.Length && input.nal[..4] == AnnexB.START_CODE
    }

    /** The units still to be grouped. */
    ghost function Left(): seq<seq<byte>>
      reads this, input, input.nal
      requires Valid()
    {
      (if nalPending then [input.nal[4..input.nalSize]] else []) + input.Left()
    }

    constructor (file: seq<byte>)
      ensures Valid() && fresh(input) && fresh(input.nal) && input.file == file
      ensures Left() == AnnexB.Split(file) && input.LeftFits() == AnnexB.StreamFits(file)
    {
      input := new AnnexB.ReplayInput(file);
      nalPending, au, haveVcl, keyframe := false, [], false, false;
      new;
      assert file[0..] == file;
    }

    /** The pending unit, or the next one from the file. */
    method NextNal() returns (rc: int)
      requires Valid()
      modifies this`nalPending, input, input.nal
      ensures Valid() && !nalPending && rc in {-1, 0, 1}
      ensures rc == 1 ==> Full() && old(Left()) == [input.nal[4..input.nalSize]] + Left()
      ensures rc == 0 ==> if old(Left()) == [] then Left() == [] else old(Left()) == [[]] + Left()
      ensures rc >= 0 ==> input.LeftFits() == old(input.LeftFits())
      ensures rc == -1 ==> !old(input.LeftFits())
    {
      hide AnnexB.Remaining, AnnexB.RemainingFits;
      if nalPending {
        nalPending := false;
        return 1;
      }
      assert Left() == input.Left();
      rc := input.ReplayNal();
      assert Left() == input.Left();
    }

    /** replay_access_unit: 1 with an access unit, 0 when its end comes before a slice, -1 when it does not fit. */
    method AccessUnit() returns (rc: int)
      requires Valid()
      modifies this, input, input.nal
      ensures Valid() && rc in {-1, 0, 1}
      ensures rc == -1 ==> !old(input.LeftFits()) || !Fits(old(Left()))
      ensures rc >= 0 ==> Fits(old(Left())) && Holds(First(old(Left()))) && rc == (if haveVcl then 1 else 0)
      ensures rc >= 0 ==> Left() == After(old(Left())) && input.LeftFits() == old(input.LeftFits())
    {
      hide HasSlice, HasKey, Slice, Starts, Kind, Length, Joined, First, After;
      au, haveVcl, keyframe := [], false, false;
      ghost var left, k := Left(), 0;
      NothingHeld(left);
      var done := false;
      rc := 1;
      while !done
        invariant Valid() && rc in {-1, 0, 1} && k <= |left|
        invariant rc >= 0 ==> input.LeftFits() == old(input.LeftFits())
        invariant if done then Ended(left, rc, old(input.LeftFits())) else rc == 1 && Growing(left, k)
        decreases |left| - k, !done
      {
        done, rc := TakeNal(left, k);
        k := if done then k else k + 1;
      }
    }

    /** au holds these units, and the flags are theirs. */
    ghost predicate Holds(nals: seq<seq<byte>>)
      reads this
    {
      au == Joined(nals) && haveVcl == HasSlice(nals) && keyframe == HasKey(nals)
    }

    /** The first k of the units have been taken, and they do not end the access unit. */
    ghost predicate Growing(left: seq<seq<byte>>, k: nat)
      reads this, input, input.nal
    {
      && Valid() && k <= |left| && Left() == left[k..] && Holds(left[..k]) && |au| <= AnnexB.MAX_FRAME
      && k + Length(left[k..], haveVcl) == Length(left, false)
    }

    ghost predicate Ended(left: seq<seq<byte>>, rc: int, fit: bool)
      reads this, input, input.nal
      requires Valid()
    {
      if rc == -1 then !fit || !Fits(left)
      else Fits(left) && Holds(First(left)) && rc == (if haveVcl then 1 else 0) && Left() == After(left)
    }

    /** The reader stands behind p access units. */
    ghost predicate At(p: nat)
      reads this, input, input.nal
    {
      var nals := AnnexB.Split(input.file);
      && Valid() && p <= |Groups(nals)| && Left() == Skip(nals, p)
      && (AnnexB.StreamFits(input.file) ==> input.LeftFits())
    }

    method Rewind()
      requires Valid()
      modifies this`nalPending, input
      ensures At(0) && Left() == AnnexB.Split(input.file) && input.LeftFits() == AnnexB.StreamFits(input.file)
    {
      hide Groups, AnnexB.Split, AnnexB.StreamFits, AnnexB.Remaining, AnnexB.RemainingFits;
      input.Rewind();
      nalPending := false;
    }

    /** Reading one access unit on. */
    method Advance(ghost p: nat) returns (rc: int)
      requires At(p)
      modifies this, input, input.nal
      ensures Valid() && rc in {-1, 0, 1}
      ensures var groups := Groups(AnnexB.Split(input.file));
              && (rc == 1 ==> p < |groups| && |Joined(groups[p])| <= AnnexB.MAX_FRAME && Holds(groups[p]) && At(p + 1))
              && (rc == 0 ==> p == |groups| && Fits(Rest(AnnexB.Split(input.file))))
              && (rc == -1 && AnnexB.StreamFits(input.file) ==>
                    if p < |groups| then |Joined(groups[p])| > AnnexB.MAX_FRAME else !Fits(Rest(AnnexB.Split(input.file))))
    {
      hide Groups, HasSlice, HasKey, Joined, First, After, Rest, Skip, AnnexB.Split, AnnexB.StreamFits;
      SkipStep(AnnexB.Split(input.file), p);
      rc := AccessUnit();
    }

    /**
     * replay_next: plays on, over the end of the file, or from the start to the
     * first keyframe.  It fails when there is none to play.
     */
    method Next(requestIdr: bool, ghost p: nat) returns (rc: int, ghost q: nat)
      requires At(p)
      modifies this, input, input.nal
      ensures Valid() && rc in {-1, 0}
      ensures var groups := Groups(AnnexB.Split(input.file));
              && (rc == 0 ==> Picked(groups, p, requestIdr, q) && Holds(groups[q]) && At(q + 1))
              && (rc == -1 && AnnexB.StreamFits(input.file) && Playable(AnnexB.Split(input.file)) ==>
                    forall i :: !Picked(groups, p, requestIdr, i))
    {
      hide Groups, HasSlice, HasKey, Joined, Rest, Skip, Fits, AnnexB.Split, AnnexB.StreamFits;
      ghost var groups := Groups(AnnexB.Split(input.file));
      q := p;
      if requestIdr {
        Rewind();
        q := 0;
      }
      var rewound := false;
      for count := 0 to TRIES
        invariant At(q)
        invariant requestIdr ==> forall j :: 0 <= j < (if rewound then |groups| else q) ==> !HasKey(groups[j])
        invariant requestIdr && !rewound ==> q == count
        invariant !requestIdr ==> if rewound then p == |groups| && q == 0 && count == 1 else count == 0 && q == p
      {
        rc := Advance(q);
        if rc < 0 {
          return -1, q;
        }
        if rc == 0 {
          if rewound {
            return -1, q;
          }
          Rewind();
          rewound, q := true, 0;
          continue;
        }
        q := q + 1;
        if !requestIdr || keyframe {
          return 0, q - 1;
        }
      }
      rc := -1;
    }

    /** One turn of the loop. */
    method TakeNal(ghost left: seq<seq<byte>>, ghost k: nat) returns (done: bool, rc: int)
      requires Growing(left, k)
      modifies this, input, input.nal
      ensures Valid() && rc in {-1, 0, 1}
      ensures rc >= 0 ==> input.LeftFits() == old(input.LeftFits())
      ensures if done then Ended(left, rc, old(input.LeftFits())) else rc == 1 && k < |left| && Growing(left, k + 1)
    {
      hide HasSlice, HasKey, Slice, Starts, Kind, Length, Joined, First, After, AnnexB.Remaining, AnnexB.RemainingFits;
      rc := NextNal();
      done := rc <= 0;
      if rc == 0 {
        rc := if haveVcl then 1 else 0;
        EndHere(left, k, haveVcl);
      } else if rc == 1 {
        var nal := input.nal[4..input.nalSize];
        TakeOne(left, k, nal, haveVcl, input.Left());
        if haveVcl && Starts(nal) {
          EndHere(left, k, haveVcl);
          nalPending, done := true, true;
        } else if input.nalSize > AnnexB.MAX_FRAME - |au| {
          TooLong(left, k, nal);
          done, rc := true, -1;
        } else {
          AppendOne(left, k, nal);
          au := au + input.nal[..input.nalSize];
          haveVcl, keyframe := haveVcl || Slice(nal), keyframe || Kind(nal) == 5;
        }
      }
    }
  }

  lemma NothingHeld(left: seq<seq<byte>>)
    ensures Joined([]) == [] && !HasSlice([]) && !HasKey([])
    ensures left[..0] == [] && left[0..] == left
  {
  }

  /** Where the loop ends, the first access unit does. */
  lemma EndHere(left: seq<seq<byte>>, k: nat, have: bool)
    requires k <= |left| && k + Length(left[k..], have) == Length(left, false)
    requires k == |left| || left[k] == [] || (have && Starts(left[k]))
    ensures First(left) == left[..k]
    ensures After(left) == left[if k < |left| && left[k] == [] then k + 1 else k..]
  {
  }

  lemma TakeOne(left: seq<seq<byte>>, k: nat, nal: seq<byte>, have: bool, later: seq<seq<byte>>)
    requires k <= |left| && left[k..] == [nal] + later
    requires nal != [] && k + Length(left[k..], have) == Length(left, false)
    ensures k < |left| && left[k] == nal && later == left[k + 1..]
    ensures !(have && Starts(nal)) ==> k + 1 + Length(later, have || Slice(nal)) == Length(left, false)
  {
    hide Starts, Slice;
    assert left[k..][0] == left[k] && left[k..][1..] == left[k + 1..];
  }

  lemma AppendOne(left: seq<seq<byte>>, k: nat, nal: seq<byte>)
    requires k < |left| && left[k] == nal
    ensures HasSlice(left[..k + 1]) <==> HasSlice(left[..k]) || Slice(nal)
    ensures HasKey(left[..k + 1]) <==> HasKey(left[..k]) || Kind(nal) == 5
    ensures Joined(left[..k + 1]) == Joined(left[..k]) + (AnnexB.START_CODE + nal)
  {
    hide Joined;
    var au, more := left[..k], left[..k + 1];
    JoinedAppend(au, nal);
    assert more == au + [nal];
    assert forall i :: 0 <= i < k ==> more[i] == au[i];
    assert more[k] == nal;
  }

  lemma TooLong(left: seq<seq<byte>>, k: nat, nal: seq<byte>)
    requires k < Length(left, false) && left[k] == nal
    requires |Joined(left[..k])| + 4 + |nal| > AnnexB.MAX_FRAME
    ensures !Fits(left)
  {
    hide HasSlice, HasKey, Joined, Length;
    AppendOne(left, k, nal);
    JoinedGrows(First(left), k + 1);
    assert First(left)[..k + 1] == left[..k + 1];
  }

  /**
   * Reading access unit after access unit: those of the stream's grouping, all
   * of them exactly when each has room in the buffer.
   */
  method GroupAll(file: seq<byte>) returns (aus: seq<seq<byte>>, ok: bool)
    ensures var groups := Groups(AnnexB.Split(file));
            && |aus| <= |groups| && (forall i :: 0 <= i < |aus| ==> aus[i] == Joined(groups[i]))
            && (ok ==> |aus| == |groups| && Playable(AnnexB.Split(file)))
            && (AnnexB.StreamFits(file) && Playable(AnnexB.Split(file)) ==> ok)
  {
    hide Groups, HasSlice, HasKey, Joined, Rest, Skip, Fits, AnnexB.Split, AnnexB.StreamFits;
    var replay := new Replay(file);
    ghost var nals := AnnexB.Split(file);
    StartsAt(replay);
    aus := [];
    while true
      invariant replay.At(|aus|) && replay.input.file == file
      invariant forall i :: 0 <= i < |aus| ==> aus[i] == Joined(Groups(nals)[i]) && |aus[i]| <= AnnexB.MAX_FRAME
      decreases |Groups(nals)| - |aus|
    {
      var rc := replay.Advance(|aus|);
      if rc <= 0 {
        assert rc == 0 ==> forall g <- Groups(nals) :: |Joined(g)| <= AnnexB.MAX_FRAME;
        return aus, rc == 0;
      }
      aus := aus + [replay.au];
    }
  }

  lemma StartsAt(replay: Replay)
    requires replay.Valid() && replay.Left() == AnnexB.Split(replay.input.file)
    requires replay.input.LeftFits() == AnnexB.StreamFits(replay.input.file)
    ensures replay.At(0)
  {
  }

  ghost predicate InTurn(aus: seq<seq<byte>>, groups: seq<seq<seq<byte>>>) {
    aus != [] ==> groups != [] && forall k :: 0 <= k < |aus| ==> aus[k] == Joined(groups[k % |groups|])
  }

  /** Playing without end: the access units of the file in turn, the first one after the last. */
  method PlayOn(file: seq<byte>, frames: nat) returns (aus: seq<seq<byte>>, ok: bool)
    ensures var groups := Groups(AnnexB.Split(file));
            && InTurn(aus, groups)
            && (ok ==> |aus| == frames)
            && (AnnexB.StreamFits(file) && Playable(AnnexB.Split(file)) && groups != [] ==> ok)
  {
    hide Groups, HasSlice, HasKey, Joined, Rest, Skip, Playable, AnnexB.Split, AnnexB.StreamFits;
    var replay := new Replay(file);
    StartsAt(replay);
    ghost var groups, p: nat := Groups(AnnexB.Split(file)), 0;
    aus, ok := [], true;
    while |aus| < frames
      invariant |aus| <= frames && replay.At(p) && replay.input.file == file && ok
      invariant p <= |groups| && (groups != [] ==> (p == |groups| || p == |aus| % |groups|) && (p == |groups| ==> |aus| % |groups| == 0))
      invariant InTurn(aus, groups)
    {
      var rc;
      ghost var q;
      rc, q := replay.Next(false, p);
      if rc != 0 {
        assert AnnexB.StreamFits(file) && Playable(AnnexB.Split(file)) && groups != [] ==> Picked(groups, p, false, if p < |groups| then p else 0);
        return aus, false;
      }
      assert q == |aus| % |groups|;
      NextPlace(|aus|, |groups|);
      aus, p := aus + [replay.au], q + 1;
    }
  }

  lemma NextPlace(k: nat, n: nat)
    requires n > 0
    ensures (k + 1) % n == if k % n + 1 == n then 0 else k % n + 1
  {
    var a, r := k / n, k % n;
    if r + 1 == n {
      assert k + 1 == (a + 1) * n + 0;
      Remainder(k + 1, n, a + 1, 0);
    } else {
      Remainder(k + 1, n, a, r + 1);
    }
  }

  lemma Remainder(x: nat, n: nat, a: nat, r: nat)
    requires r < n && x == a * n + r
    ensures x % n == r
  {
    var d := x / n - a;
    assert d * n == r - x % n;
    assert (d >= 1 ==> d * n >= n) && (d <= -1 ==> d * n <= 0 - n);
  }
}
