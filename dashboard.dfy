/** The dashboard's statistics over the historical time records fetched from
    the backend: the largest, smallest and mean duration, and how many
    records were "good" (longer than the threshold) or "not good". */
module Dashboard {

  /** One stored presence episode, as the backend returns it. */
  datatype TimeRecord = TimeRecord(id: int, date: string, seconds: int)

  /** What the statistics panel shows. */
  datatype Statistics = Statistics(max: int, min: int, avg: real)

  /** Records strictly longer than this many seconds are "good". */
  const GoodThreshold: int := 300

  predicate IsGood(r: TimeRecord) {
    r.seconds > GoodThreshold
  }

  /** `data.map(item => item.seconds)`. */
  function SecondsOf(data: seq<TimeRecord>): (xs: seq<int>)
    ensures |xs| == |data|
    ensures forall i :: 0 <= i < |data| ==> xs[i] == data[i].seconds
  {
    if data == [] then [] else SecondsOf(data[..|data| - 1]) + [data[|data| - 1].seconds]
  }

  /** `Math.max(...xs)`: the largest value. */
  function Max(xs: seq<int>): (m: int)
    requires |xs| > 0
    ensures m in xs
    ensures forall x :: x in xs ==> x <= m
  {
    if |xs| == 1 then xs[0]
    else
      var init, last := xs[..|xs| - 1], xs[|xs| - 1];
      var rest := Max(init);
      assert forall x :: x in xs ==> x in init || x == last;
      if last > rest then last else rest
  }

  /** `Math.min(...xs)`: the smallest value. */
  function Min(xs: seq<int>): (m: int)
    requires |xs| > 0
    ensures m in xs
    ensures forall x :: x in xs ==> m <= x
  {
    if |xs| == 1 then xs[0]
    else
      var init, last := xs[..|xs| - 1], xs[|xs| - 1];
      var rest := Min(init);
      assert forall x :: x in xs ==> x in init || x == last;
      if last < rest then last else rest
  }

  /** `xs.reduce((acc, val) => acc + val, 0)`, folded from the left. */
  function Sum(xs: seq<int>): int {
    if xs == [] then 0 else Sum(xs[..|xs| - 1]) + xs[|xs| - 1]
  }

  /** The mean, as an exact quotient. */
  function Average(xs: seq<int>): (r: real)
    requires |xs| > 0
    ensures r * |xs| as real == Sum(xs) as real
  {
    Sum(xs) as real / |xs| as real
  }

  /** `calculateStatistics`: max, min and average of the records' seconds. */
  function CalculateStatistics(data: seq<TimeRecord>): (s: Statistics)
    requires |data| > 0
    ensures s.min <= s.max
    ensures s.min as real <= s.avg <= s.max as real
    ensures exists i :: 0 <= i < |data| && data[i].seconds == s.max
    ensures exists i :: 0 <= i < |data| && data[i].seconds == s.min
    ensures forall i :: 0 <= i < |data| ==> s.min <= data[i].seconds <= s.max
  {
    var xs := SecondsOf(data);
    AverageBetween(xs);
    SecondsOfMembers(data, Max(xs));
    SecondsOfMembers(data, Min(xs));
    assert forall i :: 0 <= i < |data| ==> data[i].seconds == xs[i] && xs[i] in xs;
    Statistics(Max(xs), Min(xs), Average(xs))
  }

  /** The values of `SecondsOf(data)` are exactly the records' seconds. */
  lemma SecondsOfMembers(data: seq<TimeRecord>, v: int)
    ensures v in SecondsOf(data) <==> exists i :: 0 <= i < |data| && data[i].seconds == v
  {
    var xs := SecondsOf(data);
    if v in xs {
      var i :| 0 <= i < |xs| && xs[i] == v;
      assert data[i].seconds == v;
    }
    if i :| 0 <= i < |data| && data[i].seconds == v {
      assert xs[i] == v;
    }
  }

  /** Every value is at least `lo` and at most `hi`, so the sum lies between
      `|xs| * lo` and `|xs| * hi`. */
  lemma {:induction false} SumBounds(xs: seq<int>, lo: int, hi: int)
    requires forall x :: x in xs ==> lo <= x <= hi
    ensures |xs| * lo <= Sum(xs) <= |xs| * hi
  {
    if xs != [] {
      var init := xs[..|xs| - 1];
      assert forall x :: x in init ==> x in xs;
      assert xs[|xs| - 1] in xs;
      SumBounds(init, lo, hi);
      assert |xs| * lo == |init| * lo + lo;
      assert |xs| * hi == |init| * hi + hi;
    }
  }

  /** The average lies between the minimum and the maximum. */
  lemma AverageBetween(xs: seq<int>)
    requires |xs| > 0
    ensures Min(xs) as real <= Average(xs) <= Max(xs) as real
  {
    var lo, hi := Min(xs), Max(xs);
    SumBounds(xs, lo, hi);
    MeanBounds(|xs|, Sum(xs), lo, hi);
  }

  /** An integer total between `n * lo` and `n * hi` has its mean over `n`
      between `lo` and `hi`. */
  lemma MeanBounds(n: nat, total: int, lo: int, hi: int)
    requires n > 0 && n * lo <= total <= n * hi
    ensures lo as real <= total as real / n as real <= hi as real
  {
    ProductAsReal(n, lo);
    ProductAsReal(n, hi);
    QuotientBounds(total as real, n as real, lo as real, hi as real);
  }

  lemma ProductAsReal(a: int, b: int)
    ensures (a * b) as real == a as real * b as real
  {
  }

  lemma QuotientBounds(s: real, n: real, lo: real, hi: real)
    requires n > 0.0 && n * lo <= s <= n * hi
    ensures lo <= s / n <= hi
  {
  }

  /** `data.filter(item => item.seconds > 300)`. */
  function GoodRecords(data: seq<TimeRecord>): (good: seq<TimeRecord>)
    ensures |good| <= |data|
    ensures forall r :: r in good ==> r in data && IsGood(r)
  {
    if data == [] then []
    else
      var last := data[|data| - 1];
      var init := GoodRecords(data[..|data| - 1]);
      assert forall r :: r in data[..|data| - 1] ==> r in data;
      if IsGood(last) then init + [last] else init
  }

  /** The records that are not good, in order. */
  function NotGoodRecords(data: seq<TimeRecord>): (bad: seq<TimeRecord>)
    ensures forall r :: r in bad ==> r in data && !IsGood(r)
  {
    if data == [] then []
    else
      var last := data[|data| - 1];
      var init := NotGoodRecords(data[..|data| - 1]);
      assert forall r :: r in data[..|data| - 1] ==> r in data;
      if IsGood(last) then init else init + [last]
  }

  /** `countGoodData`: the number of good records. */
  function GoodCount(data: seq<TimeRecord>): (n: nat)
    ensures n <= |data|
  {
    |GoodRecords(data)|
  }

  /** `timeData.length - goodDataCount`. */
  function NotGoodCount(data: seq<TimeRecord>): (n: nat)
    ensures n + GoodCount(data) == |data|
  {
    |data| - GoodCount(data)
  }

  /** The positions of the good records. */
  ghost function GoodIndices(data: seq<TimeRecord>): set<nat> {
    set i: nat | i < |data| && IsGood(data[i])
  }

  /** Every good record of the list survives the filter. */
  lemma {:induction false} GoodRecordsComplete(data: seq<TimeRecord>, i: nat)
    requires i < |data| && IsGood(data[i])
    ensures data[i] in GoodRecords(data)
  {
    if i < |data| - 1 {
      GoodRecordsComplete(data[..|data| - 1], i);
    }
  }

  /** Appending a record raises the good count by one exactly when the record
      is good. */
  lemma GoodCountAppend(data: seq<TimeRecord>, r: TimeRecord)
    ensures GoodCount(data + [r]) == GoodCount(data) + (if IsGood(r) then 1 else 0)
    ensures NotGoodCount(data + [r]) == NotGoodCount(data) + (if IsGood(r) then 0 else 1)
  {
    assert (data + [r])[..|data|] == data;
  }

  /** The good count is the number of positions holding a good record. */
  lemma {:induction false} GoodCountIsIndexCount(data: seq<TimeRecord>)
    ensures GoodCount(data) == |GoodIndices(data)|
  {
    if data != [] {
      var init := data[..|data| - 1];
      GoodCountIsIndexCount(init);
      var last: nat := |data| - 1;
      assert data == init + [data[last]];
      GoodCountAppend(init, data[last]);
      if IsGood(data[last]) {
        assert GoodIndices(data) == GoodIndices(init) + {last};
      } else {
        assert GoodIndices(data) == GoodIndices(init);
      }
    }
  }

  /** The not-good count is the number of records that fail the threshold. */
  lemma {:induction false} NotGoodCountIsComplement(data: seq<TimeRecord>)
    ensures NotGoodCount(data) == |NotGoodRecords(data)|
  {
    if data != [] {
      var init := data[..|data| - 1];
      NotGoodCountIsComplement(init);
      assert data == init + [data[|data| - 1]];
      GoodCountAppend(init, data[|data| - 1]);
    }
  }

  /** Records of 100, 400 and 301 seconds: max 400, min 100, average 267,
      two good records and one not good. */
  lemma DashboardExample()
    ensures var data := [TimeRecord(1, "", 100), TimeRecord(2, "", 400), TimeRecord(3, "", 301)];
      CalculateStatistics(data) == Statistics(400, 100, 267.0)
      && GoodCount(data) == 2 && NotGoodCount(data) == 1
  {
    var data := [TimeRecord(1, "", 100), TimeRecord(2, "", 400), TimeRecord(3, "", 301)];
    var xs := SecondsOf(data);
    assert xs == [100, 400, 301];
    assert xs[..2] == [100, 400] && xs[..1] == [100];
    assert Sum(xs[..1]) == 100;
    assert Sum(xs[..2]) == 500;
    assert Sum(xs) == 801;
    assert data[..2] == [TimeRecord(1, "", 100), TimeRecord(2, "", 400)];
    assert data[..1] == [TimeRecord(1, "", 100)];
    assert GoodRecords(data[..1]) == [];
    assert GoodRecords(data[..2]) == [data[1]];
    assert GoodRecords(data) == [data[1], data[2]];
  }
}
