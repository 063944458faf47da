/** Message sets and search criteria of an IMAP mailbox: sets may name the last
    message as "*", and criteria are rewritten to fixed ranges before matching. */
module SearchCriteria {
  import opened Common

  /** A range of numbers; 0 stands for "*", and the ends may come in any order. */
  datatype Range = Range(start: nat, stop: nat)

  /** Search criteria; `leaf` holds the conditions on the message itself. */
  datatype Criteria<L> = Criteria(
    seqNum: Option<seq<Range>>,
    uid: Option<seq<Range>>,
    leaf: L,
    nots: seq<Option<Criteria<L>>>,
    ors: seq<(Option<Criteria<L>>, Option<Criteria<L>>)>)

  datatype Entry = Entry(id: nat, uid: nat)

  // ------------------------------------------------------------ membership

  function Resolve(number: nat, maximum: nat): nat {
    if number == 0 then maximum else number
  }

  predicate Between(value: nat, a: nat, b: nat) {
    a <= value <= b || b <= value <= a
  }

  /** The value lies in the range with "*" read as the maximum. */
  predicate InRange(r: Range, value: nat, maximum: nat) {
    Between(value, Resolve(r.start, maximum), Resolve(r.stop, maximum))
  }

  /** The value lies in the set; no value does when the mailbox is empty. */
  predicate InSet(set_: seq<Range>, value: nat, maximum: nat) {
    maximum > 0 && exists i :: 0 <= i < |set_| && InRange(set_[i], value, maximum)
  }

  /** Membership, said of the numbers: a range has what lies between its ends, in
      whichever order they come, with 0 read as the maximum. */
  lemma InRangeIs(r: Range, value: nat, maximum: nat)
    ensures InRange(r, value, maximum) <==>
              var a := if r.start == 0 then maximum else r.start;
              var b := if r.stop == 0 then maximum else r.stop;
              a <= value <= b || b <= value <= a
  {
  }

  lemma InSetIs(set_: seq<Range>, value: nat, maximum: nat)
    ensures InSet(set_, value, maximum) <==> maximum > 0 && exists r :: r in set_ && InRange(r, value, maximum)
  {
    hide InRange;
    if InSet(set_, value, maximum) {
      var i :| 0 <= i < |set_| && InRange(set_[i], value, maximum);
      assert set_[i] in set_;
    }
  }

  method SeqSetContains(set_: Option<seq<Range>>, value: nat, maximum: nat) returns (found: bool)
    ensures found <==> set_.Some? && InSet(set_.value, value, maximum)
  {
    if set_.None? || maximum == 0 {
      return false;
    }
    for i := 0 to |set_.value|
      invariant forall k :: 0 <= k < i ==> !InRange(set_.value[k], value, maximum)
    {
      var start, stop := set_.value[i].start, set_.value[i].stop;
      if start == 0 {
        start := maximum;
      }
      if stop == 0 {
        stop := maximum;
      }
      if start > stop {
        start, stop := stop, start;
      }
      if value >= start && value <= stop {
        assert InRange(set_.value[i], value, maximum);
        return true;
      }
    }
    return false;
  }

  // ---------------------------------------------------------- fixed ranges

  /** An ordered range without "*". */
  predicate Fixed(r: Range) {
    0 < r.start <= r.stop
  }

  predicate FixedSet(set_: seq<Range>) {
    forall i :: 0 <= i < |set_| ==> Fixed(set_[i])
  }

  /** Membership in a set of fixed ranges needs no maximum. */
  predicate Contains(set_: seq<Range>, value: nat) {
    exists i :: 0 <= i < |set_| && set_[i].start <= value <= set_[i].stop
  }

  /** The library's insertion: the order of the ends does not matter. */
  function Ordered(start: nat, stop: nat): Range {
    if stop < start then Range(stop, start) else Range(start, stop)
  }

  method NormalizeSeqSet(set_: Option<seq<Range>>, maximum: nat) returns (result: Option<seq<Range>>)
    ensures result.Some? <==> set_.Some?
    ensures result.Some? ==> result.value == NormalSet(set_.value, maximum)
  {
    if set_.None? {
      return None;
    }
    var ranges: seq<Range> := [];
    if maximum == 0 {
      return Some(ranges);
    }
    for i := 0 to |set_.value|
      invariant ranges == NormalRanges(set_.value[..i], maximum)
    {
      var start, stop := set_.value[i].start, set_.value[i].stop;
      if start == 0 {
        start := maximum;
      }
      if stop == 0 {
        stop := maximum;
      }
      assert set_.value[..i + 1][..i] == set_.value[..i];
      ranges := ranges + [Ordered(start, stop)];
    }
    assert set_.value[..|set_.value|] == set_.value;
    return Some(ranges);
  }

  function NormalRanges(set_: seq<Range>, maximum: nat): seq<Range> {
    if set_ == [] then []
    else
      var last := set_[|set_| - 1];
      NormalRanges(set_[..|set_| - 1], maximum) + [Ordered(Resolve(last.start, maximum), Resolve(last.stop, maximum))]
  }

  function NormalSet(set_: seq<Range>, maximum: nat): seq<Range> {
    if maximum == 0 then [] else NormalRanges(set_, maximum)
  }

  lemma {:induction false} NormalRangesAt(set_: seq<Range>, maximum: nat)
    ensures |NormalRanges(set_, maximum)| == |set_|
    ensures forall i :: 0 <= i < |set_| ==>
              NormalRanges(set_, maximum)[i] == Ordered(Resolve(set_[i].start, maximum), Resolve(set_[i].stop, maximum))
  {
    if set_ != [] {
      NormalRangesAt(set_[..|set_| - 1], maximum);
    }
  }

  /** A normalised set has only fixed ranges and the same members. */
  lemma NormalSetHasSameMembers(set_: seq<Range>, maximum: nat, value: nat)
    ensures FixedSet(NormalSet(set_, maximum))
    ensures Contains(NormalSet(set_, maximum), value) <==> InSet(set_, value, maximum)
  {
    NormalRangesAt(set_, maximum);
    var normal := NormalSet(set_, maximum);
    if maximum > 0 {
      forall i | 0 <= i < |set_| ensures InRange(set_[i], value, maximum)
        <==> normal[i].start <= value <= normal[i].stop {
      }
      hide NormalSet, InRange;
    }
  }

  // -------------------------------------------------------------- criteria

  /** The criteria with every set normalised; missing criteria match all. */
  function Normal<L>(c: Option<Criteria<L>>, everything: L, maxSeq: nat, maxUID: nat): Criteria<L>
    decreases c
  {
    match c
    case None => Criteria(None, None, everything, [], [])
    case Some(k) =>
      Criteria(NormalOption(k.seqNum, maxSeq), NormalOption(k.uid, maxUID), k.leaf,
               seq(|k.nots|, i requires 0 <= i < |k.nots| => Some(Normal(k.nots[i], everything, maxSeq, maxUID))),
               seq(|k.ors|, i requires 0 <= i < |k.ors| =>
                 (Some(Normal(k.ors[i].0, everything, maxSeq, maxUID)),
                   Some(Normal(k.ors[i].1, everything, maxSeq, maxUID)))))
  }

  function NormalOption(set_: Option<seq<Range>>, maximum: nat): Option<seq<Range>> {
    if set_.None? then None else Some(NormalSet(set_.value, maximum))
  }

  /** What the criteria mean for a message when "*" is read as the maximum. */
  predicate Means<L>(c: Option<Criteria<L>>, holds: L -> bool, seqNum: nat, uid: nat, maxSeq: nat, maxUID: nat)
    decreases c
  {
    match c
    case None => true
    case Some(k) =>
      && holds(k.leaf)
      && (k.seqNum.Some? ==> InSet(k.seqNum.value, seqNum, maxSeq))
      && (k.uid.Some? ==> InSet(k.uid.value, uid, maxUID))
      && (forall i :: 0 <= i < |k.nots| ==> !Means(k.nots[i], holds, seqNum, uid, maxSeq, maxUID))
      && (forall i :: 0 <= i < |k.ors| ==>
            Means(k.ors[i].0, holds, seqNum, uid, maxSeq, maxUID)
              || Means(k.ors[i].1, holds, seqNum, uid, maxSeq, maxUID))
  }

  /** Criteria mean what all their parts do: a Not the contrary of its criteria, an
      Or either of its two; missing criteria mean nothing. */
  lemma MeaningOf<L>(k: Criteria<L>, holds: L -> bool, seqNum: nat, uid: nat, maxSeq: nat, maxUID: nat)
    ensures Means(None, holds, seqNum, uid, maxSeq, maxUID)
    ensures Means(Some(k), holds, seqNum, uid, maxSeq, maxUID) <==>
              && holds(k.leaf)
              && (k.seqNum == None || InSet(k.seqNum.value, seqNum, maxSeq))
              && (k.uid == None || InSet(k.uid.value, uid, maxUID))
              && !(exists i :: 0 <= i < |k.nots| && Means(k.nots[i], holds, seqNum, uid, maxSeq, maxUID))
              && !(exists i :: 0 <= i < |k.ors| && !Means(k.ors[i].0, holds, seqNum, uid, maxSeq, maxUID)
                                                && !Means(k.ors[i].1, holds, seqNum, uid, maxSeq, maxUID))
  {
    hide InSet;
  }

  /** The library's matcher, which knows no maximum; it is never given missing
      criteria. */
  predicate Matches<L>(c: Criteria<L>, holds: L -> bool, seqNum: nat, uid: nat)
    decreases c
  {
    && holds(c.leaf)
    && (c.seqNum.Some? ==> Contains(c.seqNum.value, seqNum))
    && (c.uid.Some? ==> Contains(c.uid.value, uid))
    && (forall i :: 0 <= i < |c.nots| ==> c.nots[i].Some? && !Matches(c.nots[i].value, holds, seqNum, uid))
    && (forall i :: 0 <= i < |c.ors| ==>
          && c.ors[i].0.Some? && c.ors[i].1.Some?
          && (Matches(c.ors[i].0.value, holds, seqNum, uid) || Matches(c.ors[i].1.value, holds, seqNum, uid)))
  }

  /** No criteria are missing and every set in them is fixed, at every depth. */
  predicate Plain<L>(c: Criteria<L>)
    decreases c
  {
    && (c.seqNum.Some? ==> FixedSet(c.seqNum.value)) && (c.uid.Some? ==> FixedSet(c.uid.value))
    && (forall i :: 0 <= i < |c.nots| ==> c.nots[i].Some? && Plain(c.nots[i].value))
    && (forall i :: 0 <= i < |c.ors| ==>
       c.ors[i].0.Some? && c.ors[i].1.Some? && Plain(c.ors[i].0.value) && Plain(c.ors[i].1.value))
  }

  lemma {:induction false} NormalIsPlain<L>(c: Option<Criteria<L>>, everything: L, maxSeq: nat, maxUID: nat)
    ensures Plain(Normal(c, everything, maxSeq, maxUID))
    decreases c
  {
    if c.Some? {
      var k := c.value;
      if k.seqNum.Some? {
        NormalSetHasSameMembers(k.seqNum.value, maxSeq, 0);
      }
      if k.uid.Some? {
        NormalSetHasSameMembers(k.uid.value, maxUID, 0);
      }
      hide NormalSet, FixedSet;
      forall i | 0 <= i < |k.nots| ensures Plain(Normal(k.nots[i], everything, maxSeq, maxUID)) {
        NormalIsPlain(k.nots[i], everything, maxSeq, maxUID);
      }
      forall i | 0 <= i < |k.ors| ensures Plain(Normal(k.ors[i].0, everything, maxSeq, maxUID))
        && Plain(Normal(k.ors[i].1, everything, maxSeq, maxUID)) {
        NormalIsPlain(k.ors[i].0, everything, maxSeq, maxUID);
        NormalIsPlain(k.ors[i].1, everything, maxSeq, maxUID);
      }
    }
  }

  /** Matching the normalised criteria is what the original criteria mean with
      "*" read as the mailbox maximum, through every Not and Or. */
  lemma {:induction false} NormalKeepsMeaning<L>(c: Option<Criteria<L>>, everything: L, holds: L -> bool, seqNum: nat,
      uid: nat, maxSeq: nat, maxUID: nat)
    requires holds(everything)
    ensures Matches(Normal(c, everything, maxSeq, maxUID), holds, seqNum, uid)
            <==> Means(c, holds, seqNum, uid, maxSeq, maxUID)
    decreases c
  {
    if c.Some? {
      var k := c.value;
      if k.seqNum.Some? {
        NormalSetHasSameMembers(k.seqNum.value, maxSeq, seqNum);
      }
      if k.uid.Some? {
        NormalSetHasSameMembers(k.uid.value, maxUID, uid);
      }
      var n := Normal(c, everything, maxSeq, maxUID);
      hide NormalSet, Contains, InSet;
      forall i | 0 <= i < |k.nots|
        ensures n.nots[i].Some? && (Matches(n.nots[i].value, holds, seqNum, uid)
                <==> Means(k.nots[i], holds, seqNum, uid, maxSeq, maxUID))
      {
        NormalKeepsMeaning(k.nots[i], everything, holds, seqNum, uid, maxSeq, maxUID);
      }
      forall i | 0 <= i < |k.ors|
        ensures n.ors[i].0.Some? && (Matches(n.ors[i].0.value, holds, seqNum, uid)
                <==> Means(k.ors[i].0, holds, seqNum, uid, maxSeq, maxUID))
        ensures n.ors[i].1.Some? && (Matches(n.ors[i].1.value, holds, seqNum, uid)
                <==> Means(k.ors[i].1, holds, seqNum, uid, maxSeq, maxUID))
      {
        NormalKeepsMeaning(k.ors[i].0, everything, holds, seqNum, uid, maxSeq, maxUID);
        NormalKeepsMeaning(k.ors[i].1, everything, holds, seqNum, uid, maxSeq, maxUID);
      }
      assert |n.nots| == |k.nots| && |n.ors| == |k.ors|;
      assert Matches(n, holds, seqNum, uid) ==> Means(c, holds, seqNum, uid, maxSeq, maxUID);
    }
  }

  method NormalizeCriteria<L>(c: Option<Criteria<L>>, everything: L, maxSeq: nat, maxUID: nat)
      returns (clone: Criteria<L>)
    ensures clone == Normal(c, everything, maxSeq, maxUID)
    decreases c
  {
    if c.None? {
      return Criteria(None, None, everything, [], []);
    }
    var k := c.value;
    var seqNum := NormalizeSeqSet(k.seqNum, maxSeq);
    var uid := NormalizeSeqSet(k.uid, maxUID);
    var nots: seq<Option<Criteria<L>>> := [];
    for i := 0 to |k.nots|
      invariant |nots| == i && forall j :: 0 <= j < i ==> nots[j] == Some(Normal(k.nots[j], everything, maxSeq, maxUID))
    {
      var nested := NormalizeCriteria(k.nots[i], everything, maxSeq, maxUID);
      nots := nots + [Some(nested)];
    }
    var ors: seq<(Option<Criteria<L>>, Option<Criteria<L>>)> := [];
    for i := 0 to |k.ors|
      invariant |ors| == i
      invariant forall j :: 0 <= j < i ==>
                  ors[j] == (Some(Normal(k.ors[j].0, everything, maxSeq, maxUID)),
                    Some(Normal(k.ors[j].1, everything, maxSeq, maxUID)))
    {
      var left := NormalizeCriteria(k.ors[i].0, everything, maxSeq, maxUID);
      var right := NormalizeCriteria(k.ors[i].1, everything, maxSeq, maxUID);
      ors := ors + [(Some(left), Some(right))];
    }
    return Criteria(seqNum, uid, k.leaf, nots, ors);
  }

  // ------------------------------------------------------------- mailboxes

  predicate IsMaxUID(entries: seq<Entry>, maximum: nat) {
    && (forall i :: 0 <= i < |entries| ==> entries[i].uid <= maximum)
    && (maximum == 0 || exists i :: 0 <= i < |entries| && entries[i].uid == maximum)
  }

  method Maxima(entries: seq<Entry>) returns (maxSeq: nat, maxUID: nat)
    ensures maxSeq == |entries| && IsMaxUID(entries, maxUID)
  {
    maxSeq := |entries|;
    maxUID := 0;
    for i := 0 to |entries|
      invariant IsMaxUID(entries[..i], maxUID)
    {
      assert entries[..i + 1] == entries[..i] + [entries[i]];
      ghost var before := maxUID;
      if entries[i].uid > maxUID {
        maxUID := entries[i].uid;
        assert entries[..i + 1][i].uid == maxUID;
      } else if maxUID > 0 {
        ghost var j :| 0 <= j < i && entries[..i][j].uid == maxUID;
        assert entries[..i + 1][j].uid == maxUID;
      }
    }
    assert entries[..|entries|] == entries;
  }

  /** The i-th message is in the set, by sequence number or by UID. */
  predicate Chosen(entries: seq<Entry>, i: nat, byUID: bool, set_: Option<seq<Range>>, maxUID: nat)
    requires i < |entries|
  {
    set_.Some? && if byUID then InSet(set_.value, entries[i].uid, maxUID) else InSet(set_.value, i + 1, |entries|)
  }

  /** The chosen among the first n messages, in mailbox order. */
  function Selection(entries: seq<Entry>, n: nat, byUID: bool, set_: Option<seq<Range>>, maxUID: nat): seq<Entry>
    requires n <= |entries|
  {
    if n == 0 then []
    else Selection(entries, n - 1, byUID, set_, maxUID) + if Chosen(entries, n - 1, byUID, set_, maxUID)
      then [entries[n - 1]] else []
  }

  /** Places in a mailbox of this size, each once and in order. */
  predicate InOrder(places: seq<nat>, size: nat) {
    && (forall i, j :: 0 <= i < j < |places| ==> places[i] < places[j])
    && forall j :: 0 <= j < |places| ==> places[j] < size
  }

  /** The entries at some places. */
  predicate Picks(entries: seq<Entry>, places: seq<nat>, result: seq<Entry>) {
    && InOrder(places, |entries|) && |result| == |places|
    && forall j :: 0 <= j < |places| ==> result[j] == entries[places[j]]
  }

  /** The sequence numbers or the UIDs of the entries at some places. */
  predicate Names(entries: seq<Entry>, byUID: bool, places: seq<nat>, result: seq<nat>) {
    && InOrder(places, |entries|) && |result| == |places|
    && forall j :: 0 <= j < |places| ==> result[j] == if byUID then entries[places[j]].uid else places[j] + 1
  }

  lemma {:induction false} SelectionPicks(entries: seq<Entry>, n: nat, byUID: bool, set_: Option<seq<Range>>,
      maxUID: nat) returns (places: seq<nat>)
    requires n <= |entries|
    ensures Picks(entries, places, Selection(entries, n, byUID, set_, maxUID))
    ensures forall i: nat :: i in places <==> i < n && Chosen(entries, i, byUID, set_, maxUID)
  {
    hide Chosen;
    if n == 0 {
      places := [];
    } else {
      places := SelectionPicks(entries, n - 1, byUID, set_, maxUID);
      assert forall j :: 0 <= j < |places| ==> places[j] in places;
      if Chosen(entries, n - 1, byUID, set_, maxUID) {
        places := places + [n - 1];
      }
    }
  }

  lemma ChosenIs(entries: seq<Entry>, i: nat, byUID: bool, set_: Option<seq<Range>>, maxUID: nat)
    requires i < |entries|
    ensures Chosen(entries, i, byUID, set_, maxUID) <==>
              set_.Some? && InSet(set_.value, if byUID then entries[i].uid else i + 1,
                                   if byUID then maxUID else |entries|)
  {
  }

  /** The entries whose number, or UID, is in the set. */
  ghost predicate PicksInSet(entries: seq<Entry>, byUID: bool, set_: Option<seq<Range>>, maxUID: nat, places: seq<nat>,
      result: seq<Entry>)
  {
    && Picks(entries, places, result)
    && forall i: nat :: i in places <==>
         i < |entries| && set_.Some?
         && InSet(set_.value, if byUID then entries[i].uid else i + 1, if byUID then maxUID else |entries|)
  }

  method SelectedEntries(entries: seq<Entry>, byUID: bool, set_: Option<seq<Range>>) returns (result: seq<Entry>)
    ensures exists maxUID, places ::
              IsMaxUID(entries, maxUID) && PicksInSet(entries, byUID, set_, maxUID, places, result)
  {
    var maxSeq, maxUID := Maxima(entries);
    result := [];
    for index := 0 to |entries|
      invariant result == Selection(entries, index, byUID, set_, maxUID)
    {
      var identifier, maximum := index + 1, maxSeq;
      if byUID {
        identifier, maximum := entries[index].uid, maxUID;
      }
      var found := SeqSetContains(set_, identifier, maximum);
      if found {
        result := result + [entries[index]];
      }
    }
    ghost var places := SelectionPicks(entries, |entries|, byUID, set_, maxUID);
    assert PicksInSet(entries, byUID, set_, maxUID, places, result);
  }

  /** Any range that ends in "*" selects the last message of a mailbox that is
      not empty, even when its other end lies beyond it. */
  lemma StarSelectsTheLast(entries: seq<Entry>, i: nat, byUID: bool, n: nat, maxUID: nat)
    requires i < |entries| && IsMaxUID(entries, maxUID) && entries[i].uid > 0
    requires if byUID then entries[i].uid == maxUID else i == |entries| - 1
    ensures Chosen(entries, i, byUID, Some([Range(n, 0)]), maxUID)
            && Chosen(entries, i, byUID, Some([Range(0, n)]), maxUID)
  {
    var maximum := if byUID then maxUID else |entries|;
    assert [Range(n, 0)][0] == Range(n, 0) && InRange(Range(n, 0), maximum, maximum);
    assert [Range(0, n)][0] == Range(0, n) && InRange(Range(0, n), maximum, maximum);
  }

  function Found(entries: seq<Entry>, n: nat, byUID: bool, matched: seq<bool>): seq<nat>
    requires n <= |entries| == |matched|
  {
    if n == 0 then []
    else Found(entries, n - 1, byUID, matched) + if matched[n - 1] then [if byUID then entries[n - 1].uid else n]
      else []
  }

  /** Which messages satisfy the criteria, "*" read as the mailbox maximum; `leaf`
      tells for each message which of its own conditions hold. */
  function Satisfying<L>(entries: seq<Entry>, c: Option<Criteria<L>>, leaf: nat -> L -> bool, maxUID: nat): seq<bool> {
    seq(|entries|, i requires 0 <= i < |entries| => Means(c, leaf(i), i + 1, entries[i].uid, |entries|, maxUID))
  }

  /** The messages the criteria are meant for, "*" read as the mailbox maximum. */
  ghost predicate FindsMeant<L>(entries: seq<Entry>, byUID: bool, c: Option<Criteria<L>>, leaf: nat -> L -> bool,
      maxUID: nat, places: seq<nat>, result: seq<nat>)
  {
    && Names(entries, byUID, places, result)
    && forall i: nat :: i in places <==>
         i < |entries| && Means(c, leaf(i), i + 1, entries[i].uid, |entries|, maxUID)
  }

  lemma {:induction false} FoundNames(entries: seq<Entry>, n: nat, byUID: bool, matched: seq<bool>)
      returns (places: seq<nat>)
    requires n <= |entries| == |matched|
    ensures Names(entries, byUID, places, Found(entries, n, byUID, matched))
    ensures forall i: nat :: i in places <==> i < n && matched[i]
  {
    if n == 0 {
      places := [];
    } else {
      places := FoundNames(entries, n - 1, byUID, matched);
      assert forall j :: 0 <= j < |places| ==> places[j] in places;
      if matched[n - 1] {
        places := places + [n - 1];
      }
    }
  }

  lemma FoundMeant<L>(entries: seq<Entry>, byUID: bool, c: Option<Criteria<L>>, leaf: nat -> L -> bool, maxUID: nat)
      returns (places: seq<nat>)
    ensures FindsMeant(entries, byUID, c, leaf, maxUID, places,
                       Found(entries, |entries|, byUID, Satisfying(entries, c, leaf, maxUID)))
  {
    hide Names, Means, Found;
    places := FoundNames(entries, |entries|, byUID, Satisfying(entries, c, leaf, maxUID));
  }

  /** Numbers or UIDs of the messages that satisfy the criteria, in order. */
  method SearchMessages<L>(entries: seq<Entry>, byUID: bool, c: Option<Criteria<L>>, everything: L,
      leaf: nat -> L -> bool) returns (result: seq<nat>)
    requires forall i :: 0 <= i < |entries| ==> leaf(i)(everything)
    ensures exists maxUID, places ::
              IsMaxUID(entries, maxUID) && FindsMeant(entries, byUID, c, leaf, maxUID, places, result)
  {
    var maxSeq, maxUID := Maxima(entries);
    var normalized := NormalizeCriteria(c, everything, maxSeq, maxUID);
    result := [];
    for index := 0 to |entries|
      invariant result == Found(entries, index, byUID, Satisfying(entries, c, leaf, maxUID))
    {
      NormalKeepsMeaning(c, everything, leaf(index), index + 1, entries[index].uid, maxSeq, maxUID);
      if Matches(normalized, leaf(index), index + 1, entries[index].uid) {
        result := result + [if byUID then entries[index].uid else index + 1];
      }
    }
    ghost var places := FoundMeant(entries, byUID, c, leaf, maxUID);
  }
}
