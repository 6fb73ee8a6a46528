/** `FileSnapshotManager._enforce_size_limit`: the oldest dated directories go first. */
module Retention {
  import opened Folds
  import opened Sorting
  import opened Wrappers

  /** A sub-directory of the snapshot directory; `day` is its date if its name is one. */
  datatype Dir = Dir(name: string, day: Option<int>, size: nat)

  function SizeOf(d: Dir): nat { d.size }

  function Bytes(dirs: seq<Dir>): nat { SumBy(dirs, SizeOf) }

  function Dated(dirs: seq<Dir>): seq<Dir> {
    if dirs == [] then [] else (if dirs[0].day.Some? then [dirs[0]] else []) + Dated(dirs[1..])
  }

  function Age(d: Dir): real {
    if d.day.Some? then d.day.value as real else 0.0
  }

  function OldestFirst(dirs: seq<Dir>): seq<Dir> { SortBy(Dated(dirs), Age) }

  function Without(dirs: seq<Dir>, d: Dir): seq<Dir> {
    if dirs == [] then [] else (if dirs[0] == d then [] else [dirs[0]]) + Without(dirs[1..], d)
  }

  function WithoutAll(dirs: seq<Dir>, removed: seq<Dir>): seq<Dir>
    decreases |removed|
  {
    if removed == [] then dirs
    else Without(WithoutAll(dirs, removed[..|removed| - 1]), removed[|removed| - 1])
  }

  /** At most 90% of the limit. */
  predicate Roomy(size: int, limit: nat) { 10 * size <= 9 * limit }

  /** No two entries of a directory have the same name. */
  ghost predicate Distinct(dirs: seq<Dir>) {
    forall i, j :: 0 <= i < j < |dirs| ==> dirs[i].name != dirs[j].name
  }

  /** `k` is the length of the shortest prefix whose removal makes enough room, or of all. */
  ghost predicate ShortestCut(size: int, limit: nat, sorted: seq<Dir>, k: nat) {
    && k <= |sorted|
    && (k == |sorted| || Roomy(size - Bytes(sorted[..k]), limit))
    && forall j :: 0 <= j < k ==> !Roomy(size - Bytes(sorted[..j]), limit)
  }

  lemma {:induction false} WithoutMembers(dirs: seq<Dir>, d: Dir)
    ensures forall x :: x in Without(dirs, d) <==> x in dirs && x != d
  {
    if dirs != [] {
      WithoutMembers(dirs[1..], d);
      assert forall x :: x in dirs <==> x == dirs[0] || x in dirs[1..];
    }
  }

  lemma {:induction false} WithoutDistinct(dirs: seq<Dir>, d: Dir)
    requires Distinct(dirs)
    ensures Distinct(Without(dirs, d))
  {
    if dirs != [] {
      WithoutDistinct(dirs[1..], d);
      WithoutMembers(dirs[1..], d);
      var rest := Without(dirs[1..], d);
      assert forall i :: 0 <= i < |rest| ==> rest[i] in dirs[1..];
    }
  }

  lemma {:induction false} WithoutAbsent(dirs: seq<Dir>, d: Dir)
    requires d !in dirs
    ensures Without(dirs, d) == dirs
  {
    if dirs != [] {
      assert dirs[0] in dirs;
      WithoutAbsent(dirs[1..], d);
    }
  }

  /** Removing a directory frees exactly its bytes. */
  lemma {:induction false} WithoutBytes(dirs: seq<Dir>, d: Dir)
    requires Distinct(dirs) && d in dirs
    ensures Bytes(dirs) == Bytes(Without(dirs, d)) + d.size
  {
    if dirs[0] == d {
      assert forall i :: 0 <= i < |dirs[1..]| ==> dirs[1..][i].name != d.name;
      WithoutAbsent(dirs[1..], d);
      assert Without(dirs, d) == dirs[1..];
    } else {
      assert d in dirs[1..];
      WithoutBytes(dirs[1..], d);
      assert ([dirs[0]] + Without(dirs[1..], d))[1..] == Without(dirs[1..], d);
    }
  }

  lemma {:induction false} DatedMembers(dirs: seq<Dir>)
    ensures forall x :: x in Dated(dirs) <==> x in dirs && x.day.Some?
    ensures Distinct(dirs) ==> Distinct(Dated(dirs))
  {
    if dirs != [] {
      DatedMembers(dirs[1..]);
      assert forall x :: x in dirs <==> x == dirs[0] || x in dirs[1..];
      if Distinct(dirs) {
        assert forall i :: 0 <= i < |dirs[1..]| ==> dirs[1..][i] == dirs[i + 1];
        var rest := Dated(dirs[1..]);
        assert forall i :: 0 <= i < |rest| ==> rest[i] in dirs[1..];
      }
    }
  }

  lemma {:induction false} WithoutAllMembers(dirs: seq<Dir>, removed: seq<Dir>)
    ensures forall x :: x in WithoutAll(dirs, removed) <==> x in dirs && x !in removed
    ensures Distinct(dirs) ==> Distinct(WithoutAll(dirs, removed))
    decreases |removed|
  {
    if removed != [] {
      var n := |removed| - 1;
      WithoutAllMembers(dirs, removed[..n]);
      WithoutMembers(WithoutAll(dirs, removed[..n]), removed[n]);
      if Distinct(dirs) {
        WithoutDistinct(WithoutAll(dirs, removed[..n]), removed[n]);
      }
      assert removed == removed[..n] + [removed[n]];
    }
  }

  /** The order of removal names every dated directory once. */
  lemma OldestFirstNames(dirs: seq<Dir>)
    requires Distinct(dirs)
    ensures forall x :: x in OldestFirst(dirs) <==> x in dirs && x.day.Some?
    ensures Ordered(OldestFirst(dirs), Age)
    ensures forall i, j :: 0 <= i < j < |OldestFirst(dirs)| ==> OldestFirst(dirs)[i] != OldestFirst(dirs)[j]
  {
    DatedMembers(dirs);
    SortSorts(Dated(dirs), Age);
    var s := OldestFirst(dirs);
    assert forall x :: x in s <==> x in multiset(s);
    assert forall x :: x in Dated(dirs) <==> x in multiset(Dated(dirs));
    DistinctOnce(Dated(dirs));
    forall i, j | 0 <= i < j < |s| ensures s[i] != s[j] {
      OnceDiffer(s, i, j);
    }
  }

  lemma {:induction false} DistinctOnce(dirs: seq<Dir>)
    requires Distinct(dirs)
    ensures forall x :: multiset(dirs)[x] <= 1
  {
    if dirs != [] {
      DistinctOnce(dirs[1..]);
      assert dirs == [dirs[0]] + dirs[1..];
      assert dirs[0] !in dirs[1..];
    }
  }

  lemma OnceDiffer(s: seq<Dir>, i: nat, j: nat)
    requires i < j < |s| && multiset(s)[s[i]] <= 1
    ensures s[i] != s[j]
  {
    assert s == s[..i] + [s[i]] + s[i + 1..j] + [s[j]] + s[j + 1..];
    assert multiset(s) == multiset(s[..i]) + multiset{s[i]} + multiset(s[i + 1..j]) + multiset{s[j]}
          + multiset(s[j + 1..]);
  }

  /** Every directory of `s` is listed in `dirs`, once in `s`. */
  ghost predicate Picks(dirs: seq<Dir>, s: seq<Dir>) {
    && (forall i :: 0 <= i < |s| ==> s[i] in dirs)
    && (forall i, j :: 0 <= i < j < |s| ==> s[i] != s[j])
  }

  lemma OldestFirstPicks(dirs: seq<Dir>)
    requires Distinct(dirs)
    ensures Picks(dirs, OldestFirst(dirs))
  {
    OldestFirstLists(dirs);
    var s := OldestFirst(dirs);
    assert forall i :: 0 <= i < |s| ==> s[i] in s;
  }

  /** Removing the next directory of the order keeps the books right. */
  lemma RemoveNext(dirs: seq<Dir>, s: seq<Dir>, k: nat)
    requires Distinct(dirs) && Picks(dirs, s) && k < |s|
    ensures Without(WithoutAll(dirs, s[..k]), s[k]) == WithoutAll(dirs, s[..k + 1])
    ensures Distinct(WithoutAll(dirs, s[..k + 1]))
    ensures Bytes(WithoutAll(dirs, s[..k])) == Bytes(WithoutAll(dirs, s[..k + 1])) + s[k].size
    ensures Bytes(s[..k + 1]) == Bytes(s[..k]) + s[k].size
  {
    var before := WithoutAll(dirs, s[..k]);
    WithoutAllMembers(dirs, s[..k]);
    assert s[k] in before;
    WithoutBytes(before, s[k]);
    WithoutDistinct(before, s[k]);
    assert s[..k + 1][..k] == s[..k];
    BytesSnoc(s[..k], s[k]);
    assert s[..k + 1] == s[..k] + [s[k]];
  }

  lemma BytesSnoc(s: seq<Dir>, d: Dir)
    ensures Bytes(s + [d]) == Bytes(s) + d.size
  {
    SumByConcat(s, [d], SizeOf);
    assert SumBy([d], SizeOf) == d.size + SumBy([], SizeOf);
  }

  /** The order of removal is the order of the days. */
  lemma RemovedInDayOrder(dirs: seq<Dir>, i: nat, j: nat)
    requires Distinct(dirs) && i < j < |OldestFirst(dirs)|
    ensures var s := OldestFirst(dirs);
            s[i].day.Some? && s[j].day.Some? && s[i].day.value <= s[j].day.value
  {
    OldestFirstNames(dirs);
    var s := OldestFirst(dirs);
    assert s[i] in s && s[j] in s && Age(s[i]) <= Age(s[j]);
  }

  /** The order of removal names every dated directory once, by day, and no other directory. */
  lemma OldestFirstLists(dirs: seq<Dir>)
    requires Distinct(dirs)
    ensures var s := OldestFirst(dirs);
            && (forall x :: x in s <==> x in dirs && x.day.Some?)
            && (forall i, j :: 0 <= i < j < |s| ==> s[i] != s[j])
            && (forall i, j :: 0 <= i < j < |s| ==>
                  s[i].day.Some? && s[j].day.Some? && s[i].day.value <= s[j].day.value)
  {
    OldestFirstNames(dirs);
    var s := OldestFirst(dirs);
    forall i, j | 0 <= i < j < |s|
      ensures s[i].day.Some? && s[j].day.Some? && s[i].day.value <= s[j].day.value
    {
      RemovedInDayOrder(dirs, i, j);
    }
  }

  /** The bytes of what is left after the first `k` of the order went. */
  lemma {:induction false} BytesLeft(dirs: seq<Dir>, s: seq<Dir>, k: nat)
    requires Distinct(dirs) && Picks(dirs, s) && k <= |s|
    ensures Bytes(dirs) == Bytes(WithoutAll(dirs, s[..k])) + Bytes(s[..k])
  {
    if k > 0 {
      BytesLeft(dirs, s, k - 1);
      RemoveNext(dirs, s, k - 1);
    }
  }

  /** A removed directory has a day no later than that of a dated one left. */
  lemma CutByDay(dirs: seq<Dir>, k: nat, d: Dir, e: Dir)
    requires Distinct(dirs) && k <= |OldestFirst(dirs)|
    requires d in OldestFirst(dirs)[..k] && e in dirs && e !in OldestFirst(dirs)[..k] && e.day.Some?
    ensures d in dirs && d.day.Some? && d.day.value <= e.day.value
  {
    var s := OldestFirst(dirs);
    OldestFirstLists(dirs);
    var i :| 0 <= i < k && s[i] == d;
    assert e in s && d in s;
    var j :| 0 <= j < |s| && s[j] == e;
    assert j >= k by {
      if j < k {
        assert s[..k][j] == e;
      }
    }
    RemovedInDayOrder(dirs, i, j);
  }

  /** The bytes left after a cut, and after one removal less. */
  lemma CutInBytes(dirs: seq<Dir>, loose: nat, limit: nat, s: seq<Dir>, k: nat)
    requires Distinct(dirs) && Picks(dirs, s) && ShortestCut(Bytes(dirs) + loose, limit, s, k)
    ensures k == |s| || 10 * (Bytes(WithoutAll(dirs, s[..k])) + loose) <= 9 * limit
    ensures k > 0 ==> 10 * (Bytes(WithoutAll(dirs, s[..k])) + loose + s[k - 1].size) > 9 * limit
  {
    BytesLeft(dirs, s, k);
    if k > 0 {
      BytesLeft(dirs, s, k - 1);
      RemoveNext(dirs, s, k - 1);
      assert !Roomy(Bytes(dirs) + loose - Bytes(s[..k - 1]), limit);
    }
  }

  /** What a cut means in days and bytes. */
  lemma CutInDays(dirs: seq<Dir>, loose: nat, limit: nat, k: nat)
    requires Distinct(dirs) && ShortestCut(Bytes(dirs) + loose, limit, OldestFirst(dirs), k)
    ensures var removed := OldestFirst(dirs)[..k]; var left := WithoutAll(dirs, removed);
            && (forall d <- removed :: d in dirs && d !in left && d.day.Some?)
            && (forall d <- removed, e <- left :: e.day.Some? ==> d.day.Some? && d.day.value <= e.day.value)
            && (10 * (Bytes(left) + loose) <= 9 * limit || forall e <- left :: e.day.None?)
            && (k > 0 ==> 10 * (Bytes(left) + loose + removed[k - 1].size) > 9 * limit)
  {
    var s := OldestFirst(dirs);
    var removed, left := s[..k], WithoutAll(dirs, s[..k]);
    OldestFirstPicks(dirs);
    OldestFirstLists(dirs);
    WithoutAllMembers(dirs, removed);
    CutInBytes(dirs, loose, limit, s, k);
    forall d <- removed, e <- left | e.day.Some? ensures d.day.Some? && d.day.value <= e.day.value {
      CutByDay(dirs, k, d, e);
    }
    forall d <- removed ensures d in dirs && d !in left && d.day.Some? {
      assert d in s;
    }
    if k == |s| {
      assert removed == s;
    }
  }

  class SnapshotDirectory {
    const maxSizeBytes: nat
    var dirs: seq<Dir>       // its sub-directories, as listed
    var loose: nat           // bytes that are in none of them

    ghost predicate Valid()
      reads this
    {
      Distinct(dirs)
    }

    constructor (maxSizeBytes: nat, dirs: seq<Dir>, loose: nat)
      requires Distinct(dirs)
      ensures Valid() && this.maxSizeBytes == maxSizeBytes && this.dirs == dirs && this.loose == loose
    {
      this.maxSizeBytes, this.dirs, this.loose := maxSizeBytes, dirs, loose;
    }

    function TotalSize(): nat
      reads this
    {
      Bytes(dirs) + loose
    }

    /** Returns the directories removed and the size the code believes is left. */
    method EnforceSizeLimit() returns (removed: seq<Dir>, currentSize: int)
      requires Valid()
      modifies this`dirs
      ensures Valid() && dirs == WithoutAll(old(dirs), removed) && currentSize == TotalSize()
      ensures removed <= OldestFirst(old(dirs))
      ensures old(TotalSize()) <= maxSizeBytes ==> removed == []
      ensures old(TotalSize()) > maxSizeBytes ==>
                ShortestCut(old(TotalSize()), maxSizeBytes, OldestFirst(old(dirs)), |removed|)
      // in days and bytes
      ensures forall d <- removed :: d in old(dirs) && d !in dirs && d.day.Some?
      ensures forall d <- removed, e <- dirs :: e.day.Some? ==> d.day.Some? && d.day.value <= e.day.value
      ensures removed != [] ==> Bytes(old(dirs)) + loose > maxSizeBytes
      ensures Bytes(old(dirs)) + loose > maxSizeBytes ==>
                10 * (Bytes(dirs) + loose) <= 9 * maxSizeBytes || forall e <- dirs :: e.day.None?
      ensures removed != [] ==>
                10 * (Bytes(dirs) + loose + removed[|removed| - 1].size) > 9 * maxSizeBytes
    {
      currentSize := TotalSize();
      removed := [];
      if currentSize > maxSizeBytes {
        OldestFirstPicks(dirs);
        removed, currentSize := RemoveOldest(OldestFirst(dirs), currentSize);
        CutInDays(old(dirs), loose, maxSizeBytes, |removed|);
        assert removed == OldestFirst(old(dirs))[..|removed|];
      }
    }

    /** The loop over the sorted directories. */
    method RemoveOldest(sorted: seq<Dir>, startSize: int) returns (removed: seq<Dir>, currentSize: int)
      requires Valid() && Picks(dirs, sorted) && startSize == TotalSize()
      modifies this`dirs
      ensures Valid() && dirs == WithoutAll(old(dirs), removed) && removed <= sorted
      ensures ShortestCut(startSize, maxSizeBytes, sorted, |removed|)
      ensures currentSize == TotalSize()
    {
      currentSize := startSize;
      removed := [];
      var k := 0;
      while k < |sorted| && !Roomy(currentSize, maxSizeBytes)
        invariant 0 <= k <= |sorted| && removed == sorted[..k]
        invariant Valid() && dirs == WithoutAll(old(dirs), sorted[..k])
        invariant currentSize == TotalSize() == startSize - Bytes(sorted[..k])
        invariant forall j :: 0 <= j < k ==> !Roomy(startSize - Bytes(sorted[..j]), maxSizeBytes)
      {
        RemoveNext(old(dirs), sorted, k);
        dirs := Without(dirs, sorted[k]);
        removed := removed + [sorted[k]];
        currentSize := currentSize - sorted[k].size;
        k := k + 1;
      }
    }
  }

  lemma PrefixBytes(s: seq<Dir>, j: nat, k: nat)
    requires j <= k <= |s|
    ensures Bytes(s[..j]) <= Bytes(s[..k])
  {
    assert s[..k] == s[..j] + s[j..k];
    SumByConcat(s[..j], s[j..k], SizeOf);
  }

  lemma LastSurvives(dirs: seq<Dir>, s: seq<Dir>, total: nat, limit: nat, k: nat)
    requires Picks(dirs, s) && s != []
    requires if total <= limit then k == 0 else ShortestCut(total, limit, s, k)
    ensures s[|s| - 1] in WithoutAll(dirs, s[..k]) <==> total <= limit || Roomy(total - Bytes(s[..|s| - 1]), limit)
  {
    var n := |s| - 1;
    WithoutAllMembers(dirs, s[..k]);
    assert s[n] in s[..k] <==> k == |s|;
    if k <= n {
      PrefixBytes(s, k, n);
    }
  }

  /**
   The directory with the latest day, with the snapshot just taken, survives exactly when nothing
   had to be removed or when it and what the policy cannot remove are at most 90% of the limit.
   */
  lemma NewestSurvives(dirs: seq<Dir>, loose: nat, limit: nat, k: nat, newest: Dir)
    requires Distinct(dirs) && newest in dirs && newest.day.Some?
    requires forall d <- dirs :: d.day.Some? && d != newest ==> d.day.value < newest.day.value
    requires var total := Bytes(dirs) + loose;
             if total <= limit then k == 0 else ShortestCut(total, limit, OldestFirst(dirs), k)
    ensures newest in WithoutAll(dirs, OldestFirst(dirs)[..k]) <==>
            || Bytes(dirs) + loose <= limit
            || 10 * (newest.size + Bytes(Undated(dirs)) + loose) <= 9 * limit
  {
    var s := OldestFirst(dirs);
    var total := Bytes(dirs) + loose;
    NewestIsLast(dirs, newest);
    OldestFirstPicks(dirs);
    LastSurvives(dirs, s, total, limit, k);
    DatedBytes(dirs);
    var others := s[..|s| - 1];
    assert s == others + [newest];
    BytesSnoc(others, newest);
    assert total - Bytes(others) == newest.size + Bytes(Undated(dirs)) + loose;
  }

  lemma NewestIsLast(dirs: seq<Dir>, newest: Dir)
    requires Distinct(dirs) && newest in dirs && newest.day.Some?
    requires forall d <- dirs :: d.day.Some? && d != newest ==> d.day.value < newest.day.value
    ensures var s := OldestFirst(dirs); s != [] && s[|s| - 1] == newest
  {
    var s := OldestFirst(dirs);
    OldestFirstNames(dirs);
    assert newest in s;
    var j :| 0 <= j < |s| && s[j] == newest;
    assert s[|s| - 1] in s;
    assert j == |s| - 1;
  }

  /** The directories whose name is no date; the policy never removes them. */
  function Undated(dirs: seq<Dir>): seq<Dir> {
    if dirs == [] then [] else (if dirs[0].day.None? then [dirs[0]] else []) + Undated(dirs[1..])
  }

  lemma {:induction false} SplitBytes(dirs: seq<Dir>)
    ensures Bytes(dirs) == Bytes(Dated(dirs)) + Bytes(Undated(dirs))
  {
    if dirs != [] {
      SplitBytes(dirs[1..]);
      var dated, undated := Dated(dirs[1..]), Undated(dirs[1..]);
      assert ([dirs[0]] + dated)[1..] == dated && ([dirs[0]] + undated)[1..] == undated;
      assert [] + dated == dated && [] + undated == undated;
    }
  }

  lemma {:induction false} InsertBytes(d: Dir, s: seq<Dir>)
    ensures Bytes(Insert(d, s, Age)) == d.size + Bytes(s)
  {
    assert ([d] + s)[1..] == s;
    if s != [] && Age(d) > Age(s[0]) {
      InsertBytes(d, s[1..]);
      assert ([s[0]] + Insert(d, s[1..], Age))[1..] == Insert(d, s[1..], Age);
    }
  }

  lemma {:induction false} SortedBytes(s: seq<Dir>)
    ensures Bytes(SortBy(s, Age)) == Bytes(s)
  {
    if s != [] {
      SortedBytes(s[1..]);
      InsertBytes(s[0], SortBy(s[1..], Age));
    }
  }

  lemma DatedBytes(dirs: seq<Dir>)
    ensures Bytes(dirs) == Bytes(OldestFirst(dirs)) + Bytes(Undated(dirs))
  {
    SplitBytes(dirs);
    SortedBytes(Dated(dirs));
  }
}
