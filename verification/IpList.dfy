/** The table of blocked address ranges of IPList.cpp: half-open ranges merged as they are read, and
    looked up by binary search on their ends. */
module IpList {
  import opened Arithmetic
  import opened Counting

  datatype Range = Range(begin: nat, end: nat) {
    predicate Contains(a: nat) { begin <= a < end }

    /** What `Load` lets through: both fields are 32-bit, and the range is not empty. */
    predicate Accepted() { begin < end < W }
  }

  ghost predicate Covers(table: seq<Range>, a: nat) {
    exists i :: 0 <= i < |table| && table[i].Contains(a)
  }

  ghost predicate SameCover(s: seq<Range>, t: seq<Range>) {
    forall a :: Covers(s, a) <==> Covers(t, a)
  }

  /** Sorted, with at least one address free between neighbours. */
  ghost predicate Valid(table: seq<Range>) {
    && Entries(table)
    && forall i, j :: 0 <= i < j < |table| ==> table[i].end < table[j].begin
  }

  ghost predicate Entries(table: seq<Range>) {
    forall i :: 0 <= i < |table| ==> table[i].Accepted()
  }

  // ----- binary search

  /** `std::upper_bound` by halving: where the search of `len` entries from `first` ends. */
  function BoundFrom(table: seq<Range>, v: nat, first: nat, len: nat): (it: nat)
    requires first + len <= |table|
    ensures first <= it <= first + len
    decreases len
  {
    if len == 0 then first
    else
      var half := len / 2;
      if v < table[first + half].end then BoundFrom(table, v, first, half)
      else BoundFrom(table, v, first + half + 1, len - half - 1)
  }

  function Bound(table: seq<Range>, v: nat): (it: nat)
    ensures it <= |table|
  {
    BoundFrom(table, v, 0, |table|)
  }

  ghost predicate EndsAscend(table: seq<Range>) {
    forall i, j :: 0 <= i < j < |table| ==> table[i].end < table[j].end
  }

  ghost predicate SplitAt(table: seq<Range>, v: nat, first: nat, it: nat, last: nat)
    requires first <= it <= last <= |table|
  {
    && (forall i :: first <= i < it ==> table[i].end <= v)
    && forall i :: it <= i < last ==> v < table[i].end
  }

  lemma SplitGrowsRight(table: seq<Range>, v: nat, first: nat, it: nat, mid: nat, last: nat)
    requires first <= it <= mid < last <= |table| && EndsAscend(table)
    requires SplitAt(table, v, first, it, mid) && v < table[mid].end
    ensures SplitAt(table, v, first, it, last)
  {
    assert forall i :: mid < i < last ==> table[mid].end < table[i].end;
  }

  lemma SplitGrowsLeft(table: seq<Range>, v: nat, first: nat, mid: nat, it: nat, last: nat)
    requires first <= mid < it <= last <= |table| && EndsAscend(table)
    requires SplitAt(table, v, mid + 1, it, last) && table[mid].end <= v
    ensures SplitAt(table, v, first, it, last)
  {
    assert forall i :: first <= i < mid ==> table[i].end < table[mid].end;
  }

  lemma NothingToSplit(table: seq<Range>, v: nat, first: nat)
    requires first <= |table|
    ensures SplitAt(table, v, first, BoundFrom(table, v, first, 0), first)
  {
  }

  lemma BoundFromStep(table: seq<Range>, v: nat, first: nat, len: nat, half: nat)
    requires first + len <= |table| && len > 0 && half == len / 2
    ensures BoundFrom(table, v, first, len) ==
            if v < table[first + half].end then BoundFrom(table, v, first, half)
            else BoundFrom(table, v, first + half + 1, len - half - 1)
  {
  }

  lemma {:induction false} BoundFromSplits(table: seq<Range>, v: nat, first: nat, len: nat)
    requires EndsAscend(table) && first + len <= |table|
    ensures SplitAt(table, v, first, BoundFrom(table, v, first, len), first + len)
    decreases len
  {
    hide SplitAt, EndsAscend, BoundFrom;
    if len == 0 {
      NothingToSplit(table, v, first);
    } else {
      var half, last := len / 2, first + len;
      var mid := first + half;
      BoundFromStep(table, v, first, len, half);
      if v < table[mid].end {
        BoundFromSplits(table, v, first, half);
        SplitGrowsRight(table, v, first, BoundFrom(table, v, first, half), mid, last);
      } else {
        BoundFromSplits(table, v, mid + 1, last - mid - 1);
        SplitGrowsLeft(table, v, first, mid, BoundFrom(table, v, mid + 1, last - mid - 1), last);
      }
    }
  }

  /** On a valid table the search finds the first entry that ends after v. */
  lemma BoundSplits(table: seq<Range>, v: nat)
    requires Valid(table)
    ensures forall i :: 0 <= i < Bound(table, v) ==> table[i].end <= v
    ensures forall i :: Bound(table, v) <= i < |table| ==> v < table[i].end
  {
    assert EndsAscend(table);
    BoundFromSplits(table, v, 0, |table|);
  }

  /** Whatever the table, nothing ends after the largest address, and everything ends after 0. */
  lemma {:induction false} BoundAtExtremes(table: seq<Range>, first: nat, len: nat)
    requires Entries(table) && first + len <= |table|
    ensures BoundFrom(table, W - 1, first, len) == first + len
    ensures BoundFrom(table, 0, first, len) == first
    decreases len
  {
    if len == 0 {
    } else {
      BoundAtExtremes(table, first, len / 2);
      BoundAtExtremes(table, first + len / 2 + 1, len - len / 2 - 1);
    }
  }

  predicate Lookup(table: seq<Range>, a: nat) {
    var it := Bound(table, a);
    it < |table| && table[it].begin <= a
  }

  /** On a valid table the lookup answers membership. */
  lemma LookupIsCovers(table: seq<Range>, a: nat)
    requires Valid(table)
    ensures Lookup(table, a) <==> Covers(table, a)
  {
    var it := Bound(table, a);
    BoundSplits(table, a);
    if Covers(table, a) {
      var i :| 0 <= i < |table| && table[i].Contains(a);
      assert it <= i;
      assert forall k :: 0 <= k < i ==> table[k].end < table[i].begin;
    }
    if Lookup(table, a) {
      assert table[it].Contains(a);
    }
  }

  // ----- insertion

  /** The record stretched to the end of an entry it swallows. */
  function Wider(record: Range, entry: Range): Range {
    Range(record.begin, if record.end < entry.end then entry.end else record.end)
  }

  /** The second loop of `Load`: entries from `it` on that touch the record are swallowed, then the
      record is put in their place. */
  function Absorb(table: seq<Range>, it: nat, record: Range): seq<Range>
    requires it <= |table|
    decreases |table|
  {
    if it < |table| && table[it].begin <= record.end then
      Absorb(Without(table, it), it, Wider(record, table[it]))
    else
      table[..it] + [record] + table[it..]
  }

  /** `record.begin - 1` in 32 bits: for a range from 0.0.0.0 this is the largest address. */
  function Before(begin: nat): nat {
    (begin + W - 1) % W
  }

  function Insert(table: seq<Range>, record: Range): seq<Range> {
    var before := Before(record.begin);
    var it := Bound(table, before);
    if it < |table| && table[it].begin <= before then
      if table[it].end >= record.end then table
      else Absorb(Without(table, it), it, Range(table[it].begin, record.end))
    else Absorb(table, it, record)
  }

  /** The whole loop of `Load`: empty or backward ranges are passed over. */
  function LoadAll(records: seq<Range>): seq<Range> {
    if records == [] then []
    else
      var table, record := LoadAll(records[..|records| - 1]), records[|records| - 1];
      if record.begin >= record.end then table else Insert(table, record)
  }

  class CIPList {
    var table: seq<Range>

    constructor ()
      ensures table == []
    {
      table := [];
    }

    method UpperBound(v: nat) returns (it: nat)
      ensures it == Bound(table, v)
    {
      var len: nat := |table|;
      it := 0;
      while len > 0
        invariant it + len <= |table|
        invariant BoundFrom(table, v, it, len) == Bound(table, v)
      {
        var half := len / 2;
        if v < table[it + half].end {
          len := half;
        } else {
          it, len := it + half + 1, len - half - 1;
        }
      }
    }

    /** The body of the loop of `Load` for one accepted record. */
    method Add(newRecord: Range)
      requires newRecord.Accepted()
      modifies this
      ensures table == Insert(old(table), newRecord)
    {
      var record := newRecord;
      var before := Before(record.begin);
      var it := UpperBound(before);
      if it < |table| && table[it].begin <= before {
        if table[it].end >= record.end {
          return;
        }
        record := Range(table[it].begin, record.end);
        table := table[..it] + table[it + 1..];
      }
      ghost var goal := Absorb(table, it, record);
      while it < |table| && table[it].begin <= record.end
        invariant it <= |table| && Absorb(table, it, record) == goal
        decreases |table|
      {
        if record.end < table[it].end {
          record := Range(record.begin, table[it].end);
        }
        table := table[..it] + table[it + 1..];
      }
      table := table[..it] + [record] + table[it..];
    }

    /** `Load`, from the ranges its lines spell out. */
    method Load(records: seq<Range>)
      requires forall i :: 0 <= i < |records| ==> records[i].begin < W && records[i].end < W
      modifies this
      ensures table == LoadAll(records)
    {
      table := [];
      for line := 0 to |records|
        invariant table == LoadAll(records[..line])
      {
        assert records[..line + 1][..line] == records[..line];
        if records[line].begin >= records[line].end {
          continue;
        }
        Add(records[line]);
      }
      assert records[..|records|] == records;
    }

    method IpExists(addr: nat) returns (b: bool)
      ensures b == Lookup(table, addr)
      ensures Valid(table) ==> (b <==> Covers(table, addr))
    {
      var it := UpperBound(addr);
      b := it < |table| && table[it].begin <= addr;
      if Valid(table) {
        LookupIsCovers(table, addr);
      }
    }
  }

  // ----- what one insertion does

  lemma CoversErased(table: seq<Range>, it: nat, a: nat)
    requires it < |table|
    ensures Covers(table, a) <==> Covers(Without(table, it), a) || table[it].Contains(a)
  {
    var r := Without(table, it);
    if Covers(table, a) {
      var i :| 0 <= i < |table| && table[i].Contains(a);
      assert i < it ==> r[i] == table[i];
      assert i > it ==> r[i - 1] == table[i];
    }
    if Covers(r, a) {
      var i :| 0 <= i < |r| && r[i].Contains(a);
      assert r[i] == table[if i < it then i else i + 1];
    }
  }

  lemma CoversPlaced(table: seq<Range>, it: nat, record: Range, a: nat)
    requires it <= |table|
    ensures Covers(table[..it] + [record] + table[it..], a) <==> Covers(table, a) || record.Contains(a)
  {
    var r := table[..it] + [record] + table[it..];
    assert r[it] == record;
    if Covers(table, a) {
      var i :| 0 <= i < |table| && table[i].Contains(a);
      assert r[if i < it then i else i + 1] == table[i];
    }
    if Covers(r, a) {
      var i :| 0 <= i < |r| && r[i].Contains(a);
      assert i < it ==> r[i] == table[i];
      assert i > it ==> r[i] == table[i - 1];
    }
  }

  ghost predicate Fits(table: seq<Range>, it: nat, record: Range)
    requires it <= |table|
  {
    && record.Accepted()
    && (forall i :: 0 <= i < it ==> table[i].end < record.begin)
    && forall i :: it <= i < |table| ==> record.begin <= table[i].begin
  }

  lemma {:induction false} AbsorbKeeps(table: seq<Range>, it: nat, record: Range)
    requires Valid(table) && it <= |table| && Fits(table, it, record)
    ensures Valid(Absorb(table, it, record))
    decreases |table|
  {
    if it < |table| && table[it].begin <= record.end {
      AbsorbKeeps(Without(table, it), it, Wider(record, table[it]));
    }
  }

  lemma {:induction false} AbsorbCovers(table: seq<Range>, it: nat, record: Range, a: nat)
    requires Valid(table) && it <= |table| && Fits(table, it, record)
    ensures Covers(Absorb(table, it, record), a) <==> Covers(table, a) || record.Contains(a)
    decreases |table|
  {
    if it < |table| && table[it].begin <= record.end {
      var wider := Wider(record, table[it]);
      AbsorbCovers(Without(table, it), it, wider, a);
      CoversErased(table, it, a);
      assert wider.Contains(a) <==> record.Contains(a) || table[it].Contains(a);
    } else {
      CoversPlaced(table, it, record, a);
    }
  }

  lemma InsertStaysValid(table: seq<Range>, record: Range)
    requires Valid(table) && record.Accepted() && record.begin > 0
    ensures Valid(Insert(table, record))
  {
    hide Absorb, BoundFrom;
    var before := Before(record.begin);
    assert before == record.begin - 1;
    var it := Bound(table, before);
    BoundSplits(table, before);
    if it < |table| && table[it].begin <= before {
      if table[it].end < record.end {
        AbsorbKeeps(Without(table, it), it, Range(table[it].begin, record.end));
      }
    } else {
      AbsorbKeeps(table, it, record);
    }
  }

  lemma EntryCovers(table: seq<Range>, it: nat, a: nat)
    requires it < |table|
    ensures table[it].Contains(a) ==> Covers(table, a)
  {
  }

  lemma InsertCovers(table: seq<Range>, record: Range, a: nat)
    requires Valid(table) && record.Accepted() && record.begin > 0
    ensures Covers(Insert(table, record), a) <==> Covers(table, a) || record.Contains(a)
  {
    hide Covers, Absorb, BoundFrom;
    var before := Before(record.begin);
    assert before == record.begin - 1;
    var it := Bound(table, before);
    BoundSplits(table, before);
    if it < |table| && table[it].begin <= before {
      if table[it].end < record.end {
        var wider := Range(table[it].begin, record.end);
        AbsorbCovers(Without(table, it), it, wider, a);
        CoversErased(table, it, a);
        assert wider.Contains(a) <==> record.Contains(a) || table[it].Contains(a);
      } else if record.Contains(a) {
        EntryCovers(table, it, a);
      }
    } else {
      AbsorbCovers(table, it, record, a);
    }
  }

  /** For a valid table and a range that starts above 0.0.0.0: the table stays sorted with real gaps
      and covers exactly the old addresses and the new ones. */
  lemma InsertMerges(table: seq<Range>, record: Range)
    requires Valid(table) && record.Accepted() && record.begin > 0
    ensures Valid(Insert(table, record))
    ensures forall a :: Covers(Insert(table, record), a) <==> Covers(table, a) || record.Contains(a)
  {
    InsertStaysValid(table, record);
    forall a
      ensures Covers(Insert(table, record), a) <==> Covers(table, a) || record.Contains(a)
    {
      InsertCovers(table, record, a);
    }
  }

  /** A range from 0.0.0.0 is put at the end of the table, past everything it should merge with. */
  lemma InsertFromZero(table: seq<Range>, record: Range)
    requires Entries(table) && record.begin == 0
    ensures Insert(table, record) == table + [record]
  {
    hide BoundFrom;
    BoundAtExtremes(table, 0, |table|);
    assert Before(record.begin) == W - 1;
    assert table[..|table|] + [record] + table[|table|..] == table + [record];
  }

  /** Exactly when one insertion keeps the table valid: the range starts above 0.0.0.0, or the table
      is still empty. */
  lemma InsertValidIff(table: seq<Range>, record: Range)
    requires Valid(table) && record.Accepted()
    ensures Valid(Insert(table, record)) <==> record.begin > 0 || table == []
  {
    if record.begin > 0 {
      InsertMerges(table, record);
    } else {
      InsertFromZero(table, record);
      if table != [] {
        var r := table + [record];
        assert r[0] == table[0] && r[|table|] == record;
      }
    }
  }

  // ----- what a range from 0.0.0.0 does to the lookup

  /** Whether halving, always going right, comes to the last two of `len` entries and then looks at the
      last one alone. */
  predicate Skips(len: nat) {
    len == 2 || (len > 2 && Skips(len - len / 2 - 1))
  }

  function Pow2(k: nat): (p: nat)
    ensures p > 0
  {
    if k == 0 then 1 else 2 * Pow2(k - 1)
  }

  /** In the upper quarter before a power of two. */
  predicate UpperQuarter(len: nat, k: nat) {
    3 * Pow2(k) <= len + 1 < 4 * Pow2(k)
  }

  lemma QuarterHalves(len: nat, k: nat)
    requires len > 2
    ensures UpperQuarter(len, k) <==> k > 0 && UpperQuarter(len - len / 2 - 1, k - 1)
  {
  }

  /** Which table lengths those are, without searching: 2, 5, 6, 11 to 14, 23 to 30 and so on. */
  lemma {:induction false} SkipsIff(len: nat)
    ensures Skips(len) <==> exists k: nat :: UpperQuarter(len, k)
    decreases len
  {
    hide UpperQuarter;
    if len <= 2 {
      SmallQuarters(len);
    } else {
      var rest := len - len / 2 - 1;
      SkipsIff(rest);
      if k: nat :| UpperQuarter(rest, k) {
        QuarterHalves(len, k + 1);
      }
      if k: nat :| UpperQuarter(len, k) {
        QuarterHalves(len, k);
      }
    }
  }

  lemma SmallQuarters(len: nat)
    requires len <= 2
    ensures (exists k: nat :: UpperQuarter(len, k)) <==> len == 2
  {
    assert UpperQuarter(2, 0);
  }

  lemma BoundFromNone(table: seq<Range>, v: nat, first: nat)
    requires first <= |table|
    ensures BoundFrom(table, v, first, 0) == first
  {
  }

  /** On any table, sorted or not: the entry before the place found is not after v, the one there is. */
  lemma {:induction false} BoundEdges(table: seq<Range>, v: nat, first: nat, len: nat)
    requires first + len <= |table|
    ensures var it := BoundFrom(table, v, first, len);
            (it > first ==> table[it - 1].end <= v) && (it < first + len ==> v < table[it].end)
    decreases len
  {
    hide BoundFrom;
    if len == 0 {
      BoundFromNone(table, v, first);
    } else {
      var half := len / 2;
      BoundFromStep(table, v, first, len, half);
      if v < table[first + half].end {
        BoundEdges(table, v, first, half);
      } else {
        BoundEdges(table, v, first + half + 1, len - half - 1);
      }
    }
  }

  /** Below the appended record the search is that of the table. */
  lemma {:induction false} SearchBelow(table: seq<Range>, record: Range, v: nat, first: nat, len: nat)
    requires first + len <= |table|
    ensures BoundFrom(table + [record], v, first, len) == BoundFrom(table, v, first, len)
    decreases len
  {
    hide BoundFrom;
    if len == 0 {
      BoundFromNone(table, v, first);
      BoundFromNone(table + [record], v, first);
    } else {
      var half := len / 2;
      BoundFromStep(table, v, first, len, half);
      BoundFromStep(table + [record], v, first, len, half);
      SearchBelow(table, record, v, first, half);
      SearchBelow(table, record, v, first + half + 1, len - half - 1);
    }
  }

  /** The first entry of the table that ends after v, or the end of the longer table if there is none. */
  ghost predicate Finds(table: seq<Range>, v: nat, it: nat) {
    && (it < |table| || it == |table| + 1)
    && (it < |table| ==> v < table[it].end)
    && forall i :: 0 <= i < it && i < |table| ==> table[i].end <= v
  }

  lemma RightHalf(len: nat)
    requires len > 2
    ensures len / 2 <= len - 2 && (Skips(len) <==> Skips(len - len / 2 - 1))
  {
  }

  /** A record that ends no later than the first entry does not mislead a search that never looks at
      it alone. */
  lemma {:induction false} SearchPasses(table: seq<Range>, record: Range, v: nat, first: nat, len: nat)
    requires Valid(table) && |table| > 1 && record.end <= table[0].end
    requires first + len == |table| + 1 && len > 0 && !Skips(len)
    requires forall i :: 0 <= i < first ==> table[i].end <= v
    ensures Finds(table, v, BoundFrom(table + [record], v, first, len))
    decreases len
  {
    hide BoundFrom, Skips;
    var r, half := table + [record], len / 2;
    BoundFromStep(r, v, first, len, half);
    if len == 1 {
      BoundFromNone(r, v, first + 1);
    } else {
      TwoSkip();
      RightHalf(len);
      var mid := first + half;
      EndsRise(table);
      if v < table[mid].end {
        SearchBelow(table, record, v, first, half);
        BoundFromSplits(table, v, first, half);
      } else {
        SearchPasses(table, record, v, mid + 1, len - half - 1);
      }
    }
  }

  lemma TwoSkip()
    ensures Skips(2) && !Skips(1)
  {
  }

  lemma EndsRise(table: seq<Range>)
    requires Valid(table)
    ensures EndsAscend(table)
    ensures forall i, j :: 0 <= i < j < |table| ==> table[i].end < table[j].begin
  {
  }

  /** A search that does look at it alone passes the last entry of the table by. */
  lemma {:induction false} SearchSkips(table: seq<Range>, record: Range, v: nat, first: nat, len: nat)
    requires first + len == |table| + 1 && Skips(len) && record.end <= v
    requires forall i :: 0 <= i < |table| - 1 ==> table[i].end <= v
    ensures BoundFrom(table + [record], v, first, len) == |table| + 1
    decreases len
  {
    hide BoundFrom;
    var r, half := table + [record], len / 2;
    BoundFromStep(r, v, first, len, half);
    if len == 2 {
      BoundFromNone(r, v, |r|);
    } else {
      SearchSkips(table, record, v, first + half + 1, len - half - 1);
    }
  }

  /** The table starts at 0.0.0.0 and the record adds nothing to it, or replaces its only entry, and
      the search is not misled. */
  predicate ZeroIsHarmless(table: seq<Range>, record: Range)
    requires table != []
  {
    && table[0].begin == 0
    && if |table| == 1 then record.end >= table[0].end else record.end <= table[0].end && !Skips(|table| + 1)
  }

  /** The lookup is right for one address after one more range. */
  ghost predicate RightAt(table: seq<Range>, record: Range, a: nat) {
    Lookup(Insert(table, record), a) <==> Covers(table, a) || record.Contains(a)
  }

  lemma OneEntry(table: seq<Range>, record: Range, a: nat)
    requires |table| == 1 && record.begin == 0
    ensures Lookup(table + [record], a) <==> a < record.end && (a < table[0].end ==> table[0].begin <= a)
  {
    var r := table + [record];
    assert BoundFrom(r, a, 0, 2) == if a < r[1].end then BoundFrom(r, a, 0, 1) else BoundFrom(r, a, 2, 0);
  }

  lemma OneEntryRight(table: seq<Range>, record: Range, a: nat)
    requires |table| == 1 && record.begin == 0 && ZeroIsHarmless(table, record)
    ensures Lookup(table + [record], a) <==> Covers(table, a) || record.Contains(a)
  {
    OneEntry(table, record, a);
    assert table[0].Contains(a) ==> Covers(table, a);
  }

  lemma FoundIsRight(table: seq<Range>, record: Range, a: nat, it: nat)
    requires Valid(table) && Finds(table, a, it)
    ensures it < |table| && table[it].begin <= a <==> Covers(table, a)
  {
    EndsRise(table);
    if it < |table| && table[it].begin <= a {
      assert table[it].Contains(a);
    }
    if i :| 0 <= i < |table| && table[i].Contains(a) {
      assert it <= i;
    }
  }

  lemma HarmlessIsRight(table: seq<Range>, record: Range, a: nat)
    requires Valid(table) && table != [] && record.Accepted() && record.begin == 0 && ZeroIsHarmless(table, record)
    ensures RightAt(table, record, a)
  {
    hide Insert, BoundFrom, Skips, Finds, Covers;
    InsertFromZero(table, record);
    if |table| == 1 {
      OneEntryRight(table, record, a);
    } else {
      var it := Bound(table + [record], a);
      SearchPasses(table, record, a, 0, |table| + 1);
      FoundIsRight(table, record, a, it);
      WhereFound(table, a, it);
      EntryCovers(table, 0, a);
    }
  }

  lemma WhereFound(table: seq<Range>, a: nat, it: nat)
    requires Finds(table, a, it)
    ensures it < |table| || it == |table| + 1
  {
  }

  lemma FirstNotCovering(table: seq<Range>, record: Range)
    requires Valid(table) && table != [] && record.Accepted() && table[0].begin > 0
    ensures !Lookup(table + [record], 0)
  {
    assert Entries(table + [record]);
    BoundAtExtremes(table + [record], 0, |table| + 1);
  }

  /** The first address behind the first entry is never found. */
  lemma GapNotFound(table: seq<Range>, record: Range)
    requires Valid(table) && |table| > 1
    ensures !Lookup(table + [record], table[0].end)
  {
    hide BoundFrom;
    EndsRise(table);
    BoundEdges(table + [record], table[0].end, 0, |table| + 1);
  }

  /** An address on which the lookup is wrong otherwise. */
  lemma HarmfulIsWrong(table: seq<Range>, record: Range) returns (a: nat)
    requires Valid(table) && table != [] && record.Accepted() && record.begin == 0 && !ZeroIsHarmless(table, record)
    ensures !RightAt(table, record, a)
  {
    hide Insert, BoundFrom, Skips, Covers;
    InsertFromZero(table, record);
    var n := |table|;
    if table[0].begin > 0 {
      a := 0;
      FirstNotCovering(table, record);
    } else if n == 1 {
      a := record.end;
      OneEntry(table, record, a);
      EntryCovers(table, 0, a);
    } else if record.end > table[0].end {
      a := table[0].end;
      GapNotFound(table, record);
    } else {
      a := table[n - 1].begin;
      EndsRise(table);
      SearchSkips(table, record, a, 0, n + 1);
      EntryCovers(table, n - 1, a);
    }
  }

  /** For a valid table with entries, exactly when one range from 0.0.0.0 leaves every lookup right. */
  lemma LookupAfterZeroIff(table: seq<Range>, record: Range)
    requires Valid(table) && table != [] && record.Accepted() && record.begin == 0
    ensures (forall a :: RightAt(table, record, a)) <==> ZeroIsHarmless(table, record)
  {
    if ZeroIsHarmless(table, record) {
      forall a
        ensures RightAt(table, record, a)
      {
        HarmlessIsRight(table, record, a);
      }
    } else {
      var a := HarmfulIsWrong(table, record);
    }
  }

  lemma FiveSkips()
    ensures Skips(5) && !Skips(3) && !Skips(4)
  {
  }

  /** On four entries even a range that is in the table already is harmful: it loses the last one. */
  lemma LastEntryLost(table: seq<Range>, record: Range)
    requires Valid(table) && |table| == 4 && record.Accepted() && record.begin == 0 && record.end <= table[0].end
    ensures Covers(table, table[3].begin) && !Lookup(Insert(table, record), table[3].begin)
  {
    hide BoundFrom, Insert, Covers, Skips;
    InsertFromZero(table, record);
    FiveSkips();
    EndsRise(table);
    SearchSkips(table, record, table[3].begin, 0, 5);
    EntryCovers(table, 3, table[3].begin);
  }

  // ----- the whole load

  /** The records `Load` does not pass over, in order. */
  function Accepted(records: seq<Range>): (r: seq<Range>)
    ensures |r| <= |records|
  {
    if records == [] then []
    else
      var before, record := Accepted(records[..|records| - 1]), records[|records| - 1];
      if record.begin >= record.end then before else before + [record]
  }

  /** Only the first accepted range may start at 0.0.0.0. */
  ghost predicate ZeroOnlyFirst(accepted: seq<Range>) {
    forall i :: 1 <= i < |accepted| ==> accepted[i].begin > 0
  }

  ghost predicate Words(records: seq<Range>) {
    forall i :: 0 <= i < |records| ==> records[i].begin < W && records[i].end < W
  }

  lemma {:induction false} EraseKeepsEntries(table: seq<Range>, it: nat, record: Range)
    requires Entries(table) && it <= |table| && record.Accepted()
    ensures Entries(Absorb(table, it, record)) && |Absorb(table, it, record)| > 0
    ensures it > 0 ==> Absorb(table, it, record)[0] == table[0]
    ensures it == 0 ==> Absorb(table, it, record)[0].begin == record.begin
    decreases |table|
  {
    if it < |table| && table[it].begin <= record.end {
      EraseKeepsEntries(Without(table, it), it, Wider(record, table[it]));
    }
  }

  /** Valid or not, the table never becomes empty again, and its first entry starts at 0.0.0.0 after
      an insertion exactly when it did before (or was the first and does). */
  lemma InsertKeepsFirst(table: seq<Range>, record: Range)
    requires Entries(table) && record.Accepted()
    ensures Entries(Insert(table, record)) && |Insert(table, record)| > 0
    ensures Insert(table, record)[0].begin == 0 <==> (if table == [] then record.begin == 0 else table[0].begin == 0)
  {
    var before := Before(record.begin);
    var it := Bound(table, before);
    if record.begin == 0 {
      InsertFromZero(table, record);
      assert Entries(table + [record]);
    } else if it < |table| && table[it].begin <= before {
      if table[it].end < record.end {
        EraseKeepsEntries(Without(table, it), it, Range(table[it].begin, record.end));
      }
    } else {
      EraseKeepsEntries(table, it, record);
    }
  }

  lemma {:induction false} LoadKeepsFirst(records: seq<Range>)
    requires Words(records)
    ensures Entries(LoadAll(records))
    ensures LoadAll(records) == [] <==> Accepted(records) == []
    ensures Accepted(records) != [] ==> (LoadAll(records)[0].begin == 0 <==> Accepted(records)[0].begin == 0)
  {
    if records == [] {
    } else {
      var front, record := records[..|records| - 1], records[|records| - 1];
      LoadKeepsFirst(front);
      if record.begin < record.end {
        InsertKeepsFirst(LoadAll(front), record);
      }
    }
  }

  /** For every list of ranges: after loading, 0.0.0.0 is found exactly when the first accepted
      range starts there, whatever the later ranges cover. */
  lemma ZeroFoundIff(records: seq<Range>)
    requires Words(records)
    ensures Lookup(LoadAll(records), 0) <==> Accepted(records) != [] && Accepted(records)[0].begin == 0
  {
    LoadKeepsFirst(records);
    BoundAtExtremes(LoadAll(records), 0, |LoadAll(records)|);
  }

  /** So a range from 0.0.0.0 that comes second is lost there: a concrete list. */
  lemma ZeroLostExample()
    ensures var records := [Range(5, 6), Range(0, 3)];
            Accepted(records) == records && !Lookup(LoadAll(records), 0)
  {
    var records := [Range(5, 6), Range(0, 3)];
    assert records[..1] == [Range(5, 6)] && records[..1][..0] == [];
    assert Accepted(records[..1]) == [Range(5, 6)];
    ZeroFoundIff(records);
  }

  lemma CoversAppended(table: seq<Range>, record: Range, a: nat)
    ensures Covers(table + [record], a) <==> Covers(table, a) || record.Contains(a)
  {
    CoversPlaced(table, |table|, record, a);
    assert table + [record] == table[..|table|] + [record] + table[|table|..];
  }

  /** One more record, coverage on both sides. */
  lemma CoversGrow(table: seq<Range>, accepted: seq<Range>, record: Range)
    requires Valid(table) && SameCover(table, accepted) && record.Accepted()
    requires record.begin > 0 || table == []
    ensures Valid(Insert(table, record)) && SameCover(Insert(table, record), accepted + [record])
  {
    hide Covers, Insert, Range.Contains;
    InsertValidIff(table, record);
    forall a
      ensures Covers(Insert(table, record), a) <==> Covers(accepted + [record], a)
    {
      CoversAppended(accepted, record, a);
      if record.begin > 0 {
        InsertCovers(table, record, a);
      } else {
        InsertFromZero(table, record);
        CoversAppended(table, record, a);
      }
    }
  }

  lemma AcceptedFront(records: seq<Range>)
    requires records != [] && ZeroOnlyFirst(Accepted(records))
    ensures ZeroOnlyFirst(Accepted(records[..|records| - 1]))
  {
    var front := Accepted(records[..|records| - 1]);
    assert forall i :: 0 <= i < |front| ==> Accepted(records)[i] == front[i];
  }

  lemma {:induction false} LoadMerges(records: seq<Range>)
    requires Words(records) && ZeroOnlyFirst(Accepted(records))
    ensures Valid(LoadAll(records))
    ensures SameCover(LoadAll(records), Accepted(records))
  {
    hide Covers, Insert, Valid;
    if records == [] {
      NothingLoaded();
    } else {
      var front, record := records[..|records| - 1], records[|records| - 1];
      AcceptedFront(records);
      LoadMerges(front);
      if record.begin < record.end {
        LoadKeepsFirst(front);
        assert Accepted(records)[|Accepted(front)|] == record;
        CoversGrow(LoadAll(front), Accepted(front), record);
      }
    }
  }

  lemma NothingLoaded()
    ensures Valid([]) && SameCover([], [])
  {
  }

  /** The ranges passed over hold no address: those that count cover what the list covers. */
  lemma {:induction false} AcceptedCovers(records: seq<Range>, a: nat)
    ensures Covers(Accepted(records), a) <==> Covers(records, a)
  {
    if records == [] {
    } else {
      var front, record := records[..|records| - 1], records[|records| - 1];
      AcceptedCovers(front, a);
      CoversAppended(Accepted(front), record, a);
      CoversAppended(front, record, a);
      assert records == front + [record];
    }
  }

  /** For every list in which no accepted range but the first starts at 0.0.0.0: an address is found
      after loading exactly when it lies in a range of the list. */
  lemma LoadedLookup(records: seq<Range>, a: nat)
    requires Words(records) && ZeroOnlyFirst(Accepted(records))
    ensures Lookup(LoadAll(records), a) <==> Covers(records, a)
  {
    LoadMerges(records);
    LookupIsCovers(LoadAll(records), a);
    AcceptedCovers(records, a);
  }

  /** For every list whose last accepted range alone, besides perhaps the first, starts at 0.0.0.0:
      exactly when every address is found after loading iff it lies in a range of the list. */
  lemma LoadedLookupIff(records: seq<Range>, record: Range)
    requires Words(records) && ZeroOnlyFirst(Accepted(records)) && Accepted(records) != []
    requires record.Accepted() && record.begin == 0
    ensures LoadAll(records) != []
    ensures (forall a :: Lookup(LoadAll(records + [record]), a) <==> Covers(records + [record], a))
            <==> ZeroIsHarmless(LoadAll(records), record)
  {
    hide Covers, Insert, Lookup, Valid;
    assert (records + [record])[..|records|] == records;
    LoadMerges(records);
    LoadKeepsFirst(records);
    LookupAfterZeroIff(LoadAll(records), record);
    forall a
      ensures Covers(records + [record], a) <==> Covers(LoadAll(records), a) || record.Contains(a)
    {
      AcceptedCovers(records, a);
      CoversAppended(records, record, a);
    }
    if ZeroIsHarmless(LoadAll(records), record) {
      forall a
        ensures Lookup(LoadAll(records + [record]), a) <==> Covers(records + [record], a)
      {
        assert RightAt(LoadAll(records), record, a);
      }
    } else {
      var a :| !RightAt(LoadAll(records), record, a);
      assert !(Lookup(LoadAll(records + [record]), a) <==> Covers(records + [record], a));
    }
  }

  ghost predicate EveryPrefixValid(records: seq<Range>) {
    forall k :: 0 <= k <= |records| ==> Valid(LoadAll(records[..k]))
  }

  lemma PrefixesOfFront(records: seq<Range>)
    requires records != []
    ensures EveryPrefixValid(records) <==> EveryPrefixValid(records[..|records| - 1]) && Valid(LoadAll(records))
  {
    hide LoadAll, Valid;
    var front := records[..|records| - 1];
    forall k | 0 <= k <= |front|
      ensures records[..k] == front[..k]
    {
    }
    assert records[..|records|] == records;
    if EveryPrefixValid(records) {
      assert Valid(LoadAll(records[..|records|]));
      forall k | 0 <= k <= |front|
        ensures Valid(LoadAll(front[..k]))
      {
        assert Valid(LoadAll(records[..k]));
      }
    }
    if EveryPrefixValid(front) && Valid(LoadAll(records)) {
      forall k | 0 <= k <= |records|
        ensures Valid(LoadAll(records[..k]))
      {
        if k <= |front| {
          assert Valid(LoadAll(front[..k]));
        } else {
          assert records[..k] == records;
        }
      }
    }
  }

  lemma AcceptedBack(records: seq<Range>)
    requires records != [] && records[|records| - 1].begin < records[|records| - 1].end
    ensures var front := Accepted(records[..|records| - 1]);
            ZeroOnlyFirst(Accepted(records)) <==>
            ZeroOnlyFirst(front) && (front == [] || records[|records| - 1].begin > 0)
  {
    ZeroOnlyFirstAppended(Accepted(records[..|records| - 1]), records[|records| - 1]);
  }

  lemma ZeroOnlyFirstAppended(front: seq<Range>, record: Range)
    ensures ZeroOnlyFirst(front + [record]) <==> ZeroOnlyFirst(front) && (front == [] || record.begin > 0)
  {
    var all := front + [record];
    assert all[|front|] == record && forall i :: 0 <= i < |front| ==> all[i] == front[i];
  }

  /** Exactly when every table on the way is valid: no accepted range but the first starts at
      0.0.0.0. */
  lemma {:induction false} EveryPrefixValidIff(records: seq<Range>)
    requires Words(records)
    ensures EveryPrefixValid(records) <==> ZeroOnlyFirst(Accepted(records))
  {
    if records == [] {
      NothingLoaded();
      assert records[..0] == [];
    } else {
      hide Insert, Valid, EveryPrefixValid, ZeroOnlyFirst;
      var front, record := records[..|records| - 1], records[|records| - 1];
      PrefixesOfFront(records);
      EveryPrefixValidIff(front);
      WholeIsPrefix(front);
      LoadKeepsFirst(front);
      if record.begin < record.end {
        AcceptedBack(records);
        if Valid(LoadAll(front)) {
          InsertValidIff(LoadAll(front), record);
        }
      }
    }
  }

  lemma WholeIsPrefix(records: seq<Range>)
    ensures EveryPrefixValid(records) ==> Valid(LoadAll(records))
  {
    assert records[..|records|] == records;
  }

  // ----- the table is canonical

  lemma FirstCovered(s: seq<Range>, t: seq<Range>)
    requires Valid(s) && Valid(t) && s != [] && forall a :: Covers(s, a) ==> Covers(t, a)
    ensures t != [] && t[0].begin <= s[0].begin
  {
    assert s[0].Contains(s[0].begin);
    assert Covers(s, s[0].begin);
    var i :| 0 <= i < |t| && t[i].Contains(s[0].begin);
    assert i > 0 ==> t[0].end < t[i].begin;
  }

  lemma FirstEnds(s: seq<Range>, t: seq<Range>)
    requires Valid(s) && Valid(t) && s != [] && t != [] && s[0].begin == t[0].begin
    requires forall a :: Covers(t, a) ==> Covers(s, a)
    ensures t[0].end <= s[0].end
  {
    assert forall i :: 0 < i < |s| ==> s[0].end < s[i].begin;
    assert !Covers(s, s[0].end);
    assert !t[0].Contains(s[0].end);
  }

  lemma TailCovers(s: seq<Range>, a: nat)
    requires Valid(s) && s != []
    ensures Covers(s[1..], a) <==> Covers(s, a) && a >= s[0].end
  {
    if Covers(s[1..], a) {
      var i :| 0 <= i < |s[1..]| && s[1..][i].Contains(a);
      assert s[i + 1].Contains(a) && s[0].end < s[i + 1].begin;
    }
    if Covers(s, a) && a >= s[0].end {
      var i :| 0 <= i < |s| && s[i].Contains(a);
      assert s[1..][i - 1] == s[i];
    }
  }

  /** Two valid tables that cover the same addresses are the same table. */
  lemma {:induction false} Canonical(s: seq<Range>, t: seq<Range>)
    requires Valid(s) && Valid(t) && SameCover(s, t)
    ensures s == t
  {
    if s == [] || t == [] {
      if s != [] {
        FirstCovered(s, t);
      }
      if t != [] {
        FirstCovered(t, s);
      }
    } else {
      FirstCovered(s, t);
      FirstCovered(t, s);
      FirstEnds(s, t);
      FirstEnds(t, s);
      forall a
        ensures Covers(s[1..], a) <==> Covers(t[1..], a)
      {
        TailCovers(s, a);
        TailCovers(t, a);
      }
      Canonical(s[1..], t[1..]);
      assert s == [s[0]] + s[1..] && t == [t[0]] + t[1..];
    }
  }

  lemma AcceptedSameCover(records: seq<Range>)
    ensures SameCover(Accepted(records), records)
  {
    hide Covers, Accepted;
    forall a
      ensures Covers(Accepted(records), a) <==> Covers(records, a)
    {
      AcceptedCovers(records, a);
    }
  }

  /** In any order and with any overlaps: lists that cover the same addresses load to the identical
      table. */
  lemma LoadIsCanonical(records: seq<Range>, others: seq<Range>)
    requires Words(records) && ZeroOnlyFirst(Accepted(records))
    requires Words(others) && ZeroOnlyFirst(Accepted(others))
    ensures LoadAll(records) == LoadAll(others) <==> SameCover(records, others)
  {
    LoadMerges(records);
    LoadMerges(others);
    AcceptedSameCover(records);
    AcceptedSameCover(others);
    SameCoverThrough(LoadAll(records), LoadAll(others), Accepted(records), Accepted(others));
    SameCoverThrough(Accepted(records), Accepted(others), records, others);
    if SameCover(Accepted(records), Accepted(others)) {
      Canonical(LoadAll(records), LoadAll(others));
    }
  }

  lemma SameCoverThrough(s: seq<Range>, t: seq<Range>, s': seq<Range>, t': seq<Range>)
    requires SameCover(s, s') && SameCover(t, t')
    ensures SameCover(s, t) <==> SameCover(s', t')
  {
    if SameCover(s', t') {
      forall a
        ensures Covers(s, a) <==> Covers(t, a)
      {
        assert Covers(s, a) <==> Covers(s', a);
        assert Covers(t, a) <==> Covers(t', a);
      }
    }
    if SameCover(s, t) {
      forall a
        ensures Covers(s', a) <==> Covers(t', a)
      {
        assert Covers(s, a) <==> Covers(s', a);
        assert Covers(t, a) <==> Covers(t', a);
      }
    }
  }
}
