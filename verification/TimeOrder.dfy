/** The order of entries by a time and, among equal times, by address. */
module TimeOrder {
  import opened AvlOrder

  function TimeOf(time: map<int, int>, e: int): int {
    if e in time then time[e] else 0
  }

  /** compare_flows and compare_timers */
  function CompareTimes(time: map<int, int>): Compare {
    (e: int, f: int) =>
      if TimeOf(time, e) != TimeOf(time, f) then (if TimeOf(time, e) > TimeOf(time, f) then 1 else -1)
      else if e > f then 1 else if e < f then -1 else 0
  }

  lemma CompareOrdering(time: map<int, int>)
    ensures Ordering(CompareTimes(time))
  {
    forall a, b ensures Opposite(CompareTimes(time), a, b) {}
    forall a, b, c ensures Transitive(CompareTimes(time), a, b, c) {}
  }

  /** Earlier times come first and, among equal times, lower addresses. */
  lemma CompareMeaning(time: map<int, int>, e: int, f: int)
    ensures CompareTimes(time)(e, f) < 0 <==> TimeOf(time, e) < TimeOf(time, f) || (TimeOf(time, e) == TimeOf(time, f) && e < f)
    ensures CompareTimes(time)(e, f) == 0 <==> e == f
  {}

  /** Different entries never compare equal. */
  lemma NeverEqual(time: map<int, int>, s: seq<int>, e: int)
    requires e !in s
    ensures forall f :: f in s ==> CompareTimes(time)(e, f) != 0
  {}

  /** A sorted list stays sorted if its entries compare as before. */
  lemma SameOrder(time: map<int, int>, time': map<int, int>, s: seq<int>)
    requires Sorted(CompareTimes(time), s)
    requires forall e, f :: e in s && f in s ==> CompareTimes(time)(e, f) == CompareTimes(time')(e, f)
    ensures Sorted(CompareTimes(time'), s)
  {
    forall i, j | 0 <= i < j < |s| ensures CompareTimes(time')(s[i], s[j]) < 0 {
      assert CompareTimes(time)(s[i], s[j]) < 0;
    }
  }

  lemma SameTimes(time: map<int, int>, time': map<int, int>, s: seq<int>)
    requires Sorted(CompareTimes(time), s) && forall e :: e in s ==> TimeOf(time, e) == TimeOf(time', e)
    ensures Sorted(CompareTimes(time'), s)
  {
    SameOrder(time, time', s);
  }
}
