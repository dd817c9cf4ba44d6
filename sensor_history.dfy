/**
 * A detector's reading history (src/sensor/sensor.class.js): the bounded list
 * of at most 30 samples the push step keeps sorted, and the coalescing of
 * stored readings into at most one per time unit when the history is loaded.
 */
module SensorHistory {
  import opened Seqs
  import opened Clocks

  const HISTORY_LENGTH: nat := 30
  const ONE_SECOND_IN_MILLISECONDS := 1000
  const ONE_MINUTE_IN_MILLISECONDS := 60 * ONE_SECOND_IN_MILLISECONDS
  const ONE_HOUR_IN_MILLISECONDS := 60 * ONE_MINUTE_IN_MILLISECONDS

  /** A point of the history: when (ms) and what was read. */
  datatype Sample = Sample(x: int, y: real)

  /** A stored reading. */
  datatype DataItem = DataItem(timestamp: int, value: real)

  predicate ByX(a: Sample, b: Sample) { a.x <= b.x }
  predicate ByTimestamp(a: DataItem, b: DataItem) { a.timestamp <= b.timestamp }

  lemma ByXTotal()
    ensures TotalOrder(ByX)
  {
  }

  lemma ByTimestampTotal()
    ensures TotalOrder(ByTimestamp)
  {
  }

  // ------------------------------------------------------------ push branch

  /** `history.push(v)` followed by `shift()` once the list holds more than 30. */
  function Bounded(s: seq<Sample>): (r: seq<Sample>)
  {
    if |s| > HISTORY_LENGTH then s[1..] else s
  }

  /** The push branch of processSensorValue: append, drop the oldest beyond 30, order by time. */
  function Pushed(history: seq<Sample>, v: Sample): seq<Sample>
  {
    InsertionSort(Bounded(history + [v]), ByX)
  }

  /**
   * The history never outgrows 30 entries, is ordered by time, and holds the
   * new sample together with all of the old ones except, when full, the first.
   */
  lemma PushedFacts(history: seq<Sample>, v: Sample)
    requires |history| <= HISTORY_LENGTH
    ensures |Pushed(history, v)| <= HISTORY_LENGTH
    ensures |history| < HISTORY_LENGTH ==> |Pushed(history, v)| == |history| + 1
    ensures SortedBy(Pushed(history, v), ByX)
    ensures v in Pushed(history, v)
    ensures multiset(Pushed(history, v)) ==
      if |history| < HISTORY_LENGTH then multiset(history) + multiset{v} else multiset(history[1..]) + multiset{v}
  {
    ByXTotal();
    SortSorted(Bounded(history + [v]), ByX);
    if |history| == HISTORY_LENGTH {
      assert Bounded(history + [v]) == history[1..] + [v];
    }
    assert v in multiset(Pushed(history, v));
  }

  /**
   * With readings arriving in time order the sort is a no-op: the push
   * branch appends and, when full, drops the oldest sample.
   */
  lemma {:induction false} PushedInOrder(history: seq<Sample>, v: Sample)
    requires SortedBy(history, ByX)
    requires forall i :: 0 <= i < |history| ==> history[i].x <= v.x
    ensures Pushed(history, v) == Bounded(history + [v])
  {
    var s := history + [v];
    assert SortedBy(s, ByX) by {
      forall i, j | 0 <= i < j < |s| ensures ByX(s[i], s[j]) {
        if j < |history| {
          assert s[i] == history[i] && s[j] == history[j];
        }
      }
    }
    if |s| > HISTORY_LENGTH {
      assert SortedBy(s[1..], ByX) by {
        forall i, j | 0 <= i < j < |s[1..]| ensures ByX(s[1..][i], s[1..][j]) {
          assert s[1..][i] == s[i + 1] && s[1..][j] == s[j + 1];
        }
      }
    }
    SortOfSorted(Bounded(s), ByX);
  }

  // ------------------------------------------------------------ coalescing

  /**
   * The filter with the `lastEntry` cursor: going from the newest reading
   * back, a reading is kept when it lies more than one whole unit before the
   * last kept one, and then becomes the new cursor.
   */
  function Coalesce(newestFirst: seq<DataItem>, last: int, unitMs: int): (r: seq<DataItem>)
    requires unitMs > 0
    ensures |r| <= |newestFirst|
    ensures forall i :: 0 <= i < |r| ==> r[i] in newestFirst
  {
    if |newestFirst| == 0 then []
    else if TruncDiv(last - newestFirst[0].timestamp, unitMs) <= 1 then Coalesce(newestFirst[1..], last, unitMs)
    else [newestFirst[0]] + Coalesce(newestFirst[1..], newestFirst[0].timestamp, unitMs)
  }

  /** One step of Coalesce, at position `i`. */
  lemma CoalesceAt(s: seq<DataItem>, i: nat, last: int, unitMs: int)
    requires unitMs > 0 && i < |s|
    ensures Coalesce(s[i..], last, unitMs) ==
      if TruncDiv(last - s[i].timestamp, unitMs) <= 1 then Coalesce(s[i + 1..], last, unitMs)
      else [s[i]] + Coalesce(s[i + 1..], s[i].timestamp, unitMs)
  {
    assert s[i..][0] == s[i] && s[i..][1..] == s[i + 1..];
  }

  function ToSample(d: DataItem): Sample { Sample(d.timestamp, d.value) }

  function Samples(ds: seq<DataItem>): (r: seq<Sample>)
    ensures |r| == |ds|
    ensures forall i :: 0 <= i < |ds| ==> r[i] == ToSample(ds[i])
  {
    if |ds| == 0 then [] else [ToSample(ds[0])] + Samples(ds[1..])
  }

  /** Newest first: lodash `sortBy(data, 'timestamp')` reversed. */
  function NewestFirst(data: seq<DataItem>): seq<DataItem>
  {
    Reverse(InsertionSort(data, ByTimestamp))
  }

  /**
   * filterSensorHistory: the newest reading seeds the cursor 5 units ahead
   * of itself; the coalesced readings are cut to the newest 30 and returned
   * oldest first.
   */
  function FilteredHistory(data: seq<DataItem>, unitMs: int): seq<Sample>
    requires |data| >= 1 && unitMs > 0
  {
    var d := NewestFirst(data);
    var kept := Coalesce(d, d[0].timestamp + 5 * unitMs, unitMs);
    Reverse(Samples(kept[..if |kept| < HISTORY_LENGTH then |kept| else HISTORY_LENGTH]))
  }

  /** Descending by time, each at least two whole units before the previous. */
  predicate Spaced(s: seq<DataItem>, unitMs: int)
  {
    forall i :: 0 < i < |s| ==> s[i - 1].timestamp - s[i].timestamp >= 2 * unitMs
  }

  /** Every kept reading lies at least two units before the cursor and the kept ones before it. */
  lemma {:induction false} CoalesceSpaced(s: seq<DataItem>, last: int, unitMs: int)
    requires unitMs > 0
    ensures Spaced(Coalesce(s, last, unitMs), unitMs)
    ensures forall i :: 0 <= i < |Coalesce(s, last, unitMs)| ==> last - Coalesce(s, last, unitMs)[i].timestamp >= 2 * unitMs
  {
    if |s| > 0 {
      if TruncDiv(last - s[0].timestamp, unitMs) <= 1 {
        CoalesceSpaced(s[1..], last, unitMs);
      } else {
        CoalesceSpaced(s[1..], s[0].timestamp, unitMs);
        var t := Coalesce(s[1..], s[0].timestamp, unitMs);
        var r := Coalesce(s, last, unitMs);
        assert r == [s[0]] + t;
        forall i | 0 <= i < |r| ensures last - r[i].timestamp >= 2 * unitMs {
          if i > 0 { assert r[i] == t[i - 1]; }
        }
        forall i | 0 < i < |r| ensures r[i - 1].timestamp - r[i].timestamp >= 2 * unitMs {
          assert r[i] == t[i - 1];
          if i > 1 { assert r[i - 1] == t[i - 2]; }
        }
      }
    }
  }

  /** The newest reading is always kept, because the cursor starts 5 units past it. */
  lemma NewestKept(d: seq<DataItem>, unitMs: int)
    requires |d| >= 1 && unitMs > 0
    ensures Coalesce(d, d[0].timestamp + 5 * unitMs, unitMs)[0] == d[0]
  {
  }

  predicate StrictlyAscending(s: seq<Sample>, gap: int)
  {
    forall i :: 0 < i < |s| ==> s[i].x - s[i - 1].x >= gap
  }

  /**
   * The loaded history holds at most 30 samples, oldest first, each at least
   * two whole units after the previous; the newest stored reading is its last.
   */
  lemma FilteredHistoryFacts(data: seq<DataItem>, unitMs: int)
    requires |data| >= 1 && unitMs > 0
    ensures |FilteredHistory(data, unitMs)| <= HISTORY_LENGTH
    ensures 1 <= |FilteredHistory(data, unitMs)|
    ensures StrictlyAscending(FilteredHistory(data, unitMs), 2 * unitMs)
    ensures FilteredHistory(data, unitMs)[|FilteredHistory(data, unitMs)| - 1] == ToSample(NewestFirst(data)[0])
  {
    var d := NewestFirst(data);
    assert |d| == |data|;
    var kept := Coalesce(d, d[0].timestamp + 5 * unitMs, unitMs);
    NewestKept(d, unitMs);
    CoalesceSpaced(d, d[0].timestamp + 5 * unitMs, unitMs);
    var n := if |kept| < HISTORY_LENGTH then |kept| else HISTORY_LENGTH;
    var cut := kept[..n];
    var r := Reverse(Samples(cut));
    assert r == FilteredHistory(data, unitMs);
    forall i | 0 < i < |r| ensures r[i].x - r[i - 1].x >= 2 * unitMs {
      var a := |cut| - 1 - i;
      assert r[i] == ToSample(cut[a]) && r[i - 1] == ToSample(cut[a + 1]);
      assert cut[a] == kept[a] && cut[a + 1] == kept[a + 1];
    }
  }

  // The three readings half an hour, half a minute and half a second old.
  function HalfHourMinuteSecond(now: int): seq<DataItem>
  {
    [DataItem(now - 1800000, 10.0), DataItem(now - 30000, 10.0), DataItem(now - 500, 10.0)]
  }

  lemma ExampleNewestFirst(now: int)
    ensures NewestFirst(HalfHourMinuteSecond(now)) ==
      [DataItem(now - 500, 10.0), DataItem(now - 30000, 10.0), DataItem(now - 1800000, 10.0)]
  {
    var data := HalfHourMinuteSecond(now);
    assert InsertionSort(data[2..], ByTimestamp) == data[2..];
    assert InsertionSort(data[1..], ByTimestamp) == data[1..];
    assert InsertionSort(data, ByTimestamp) == data;
  }

  /** Readings half an hour, half a minute and half a second old: at a step of seconds all three stay. */
  lemma FilterExampleSeconds(now: int)
    ensures |FilteredHistory(HalfHourMinuteSecond(now), ONE_SECOND_IN_MILLISECONDS)| == 3
  {
    ExampleNewestFirst(now);
    var d := NewestFirst(HalfHourMinuteSecond(now));
    var u := ONE_SECOND_IN_MILLISECONDS;
    assert Coalesce(d[2..], d[1].timestamp, u) == [d[2]];
    assert Coalesce(d[1..], d[0].timestamp, u) == [d[1], d[2]];
    assert Coalesce(d, d[0].timestamp + 5 * u, u) == [d[0], d[1], d[2]];
  }

  /** The same readings at a step of minutes: the half-minute-old one goes. */
  lemma FilterExampleMinutes(now: int)
    ensures |FilteredHistory(HalfHourMinuteSecond(now), ONE_MINUTE_IN_MILLISECONDS)| == 2
  {
    ExampleNewestFirst(now);
    var d := NewestFirst(HalfHourMinuteSecond(now));
    var u := ONE_MINUTE_IN_MILLISECONDS;
    assert Coalesce(d[2..], d[0].timestamp, u) == [d[2]];
    assert Coalesce(d[1..], d[0].timestamp, u) == [d[2]];
    assert Coalesce(d, d[0].timestamp + 5 * u, u) == [d[0], d[2]];
  }

  /** The same readings at a step of hours: only the newest stays. */
  lemma FilterExampleHours(now: int)
    ensures |FilteredHistory(HalfHourMinuteSecond(now), ONE_HOUR_IN_MILLISECONDS)| == 1
  {
    ExampleNewestFirst(now);
    var d := NewestFirst(HalfHourMinuteSecond(now));
    var u := ONE_HOUR_IN_MILLISECONDS;
    assert Coalesce(d[2..], d[0].timestamp, u) == [];
    assert Coalesce(d[1..], d[0].timestamp, u) == [];
    assert Coalesce(d, d[0].timestamp + 5 * u, u) == [d[0]];
  }
}
