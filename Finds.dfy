/** `parse_finds_data` and `convert_to_plot_data` of
    geocaching_hu_api_viz.py (lines 54-97): the list of find logs the API
    returns is grouped by calendar day and turned into a running total of
    finds per day, then into plot series. */
module Finds {
  import opened Wrappers
  import opened Sorting
  import opened TextOrder
  import opened Timestamp

  /** A decoded JSON value, as `response.json()` returns it. */
  datatype Json =
    | JNull
    | JBool(b: bool)
    | JNumber(n: real)
    | JString(s: string)
    | JArray(items: seq<Json>)
    | JObject(fields: map<string, Json>)

  /** `(date_str, total)`: a day key and the number of finds up to it. */
  datatype DayTotal = DayTotal(day: string, total: nat)

  /** What `parse_finds_data` gives back: None, the list, or the TypeError
      that escapes it for list elements that are not objects. */
  datatype ParseResult = NoFinds | Rows(rows: seq<DayTotal>) | RaisesTypeError

  /** What the loop body does with one element of the list. */
  datatype ItemOutcome = Skipped | Counted(key: string) | TypeErrorRaised

  /** `w in s` for strings: `w` occurs in `s` as a substring. */
  predicate Contains(s: string, w: string)
    decreases |s|
  {
    |w| <= |s| && (s[..|w|] == w || Contains(s[1..], w))
  }

  /** Lines 65-74.  `'date' in item` tests the keys of an object, the
      elements of a list and the substrings of a string, and raises for
      numbers, booleans and null; `item['date']` then raises for a list or
      a string.  Inside the `try`, a date that is not a string or does not
      parse is skipped; one that parses is counted under its
      `strftime('%Y-%m-%d')` key. */
  function Classify(item: Json): ItemOutcome {
    match item
    case JObject(fields) =>
      if "date" !in fields then Skipped
      else if !fields["date"].JString? then Skipped
      else
        var t := ParseTimestamp(fields["date"].s);
        if t.None? then Skipped else Counted(DateKey(t.value.date))
    case JArray(elements) => if JString("date") in elements then TypeErrorRaised else Skipped
    case JString(s) => if Contains(s, "date") then TypeErrorRaised else Skipped
    case _ => TypeErrorRaised
  }

  /** What the loop body does with each element of the list. */
  function Outcomes(items: seq<Json>): (outcomes: seq<ItemOutcome>)
    ensures |outcomes| == |items|
  {
    seq(|items|, k requires 0 <= k < |items| => Classify(items[k]))
  }

  /** One of the first `n` outcomes is the TypeError. */
  predicate RaisesUpTo(outcomes: seq<ItemOutcome>, n: nat)
    requires n <= |outcomes|
  {
    n > 0 && (RaisesUpTo(outcomes, n - 1) || outcomes[n - 1].TypeErrorRaised?)
  }

  predicate AnyRaises(items: seq<Json>) {
    RaisesUpTo(Outcomes(items), |items|)
  }

  /** The day keys among the first `n` outcomes, in list order. */
  function KeysUpTo(outcomes: seq<ItemOutcome>, n: nat): seq<string>
    requires n <= |outcomes|
  {
    if n == 0 then []
    else KeysUpTo(outcomes, n - 1) + (if outcomes[n - 1].Counted? then [outcomes[n - 1].key] else [])
  }

  /** The day keys of the countable finds, in list order. */
  function ValidKeys(items: seq<Json>): seq<string> {
    KeysUpTo(Outcomes(items), |items|)
  }

  /** `finds_by_date`: how many times each key occurs. */
  function Tally(keys: seq<string>): map<string, nat>
    decreases |keys|
  {
    if |keys| == 0 then map[]
    else
      var t := Tally(keys[..|keys| - 1]);
      var k := keys[|keys| - 1];
      t[k := (if k in t then t[k] else 0) + 1]
  }

  predicate NoDuplicates(s: seq<string>) {
    forall i, j :: 0 <= i < j < |s| ==> s[i] != s[j]
  }

  /** The keys of `finds_by_date` in insertion order. */
  function FirstOccurrences(keys: seq<string>): (order: seq<string>)
    ensures NoDuplicates(order)
    ensures forall k :: k in order <==> k in keys
    decreases |keys|
  {
    if |keys| == 0 then []
    else
      var o := FirstOccurrences(keys[..|keys| - 1]);
      var k := keys[|keys| - 1];
      if k in o then o else o + [k]
  }

  /** `sorted(finds_by_date.keys())` */
  function SortKeys(keys: seq<string>): seq<string> {
    InsertionSort(keys, LessEq)
  }

  /** The sum of `counts` over `days`. */
  function SumOf(counts: map<string, nat>, days: seq<string>): nat
    requires forall d :: d in days ==> d in counts
    decreases |days|
  {
    if |days| == 0 then 0 else SumOf(counts, days[..|days| - 1]) + counts[days[|days| - 1]]
  }

  /** Lines 81-86: each day paired with the total up to and including it. */
  function RunningTotals(counts: map<string, nat>, days: seq<string>): (rows: seq<DayTotal>)
    requires forall d :: d in days ==> d in counts
    ensures |rows| == |days|
    decreases |days|
  {
    if |days| == 0 then []
    else
      var n := |days| - 1;
      RunningTotals(counts, days[..n]) + [DayTotal(days[n], SumOf(counts, days))]
  }

  /** Row `i` holds day `i` and the sum over the days up to it. */
  lemma {:induction false} RunningTotalsAt(counts: map<string, nat>, days: seq<string>, i: nat)
    requires forall d :: d in days ==> d in counts
    requires i < |days|
    ensures RunningTotals(counts, days)[i] == DayTotal(days[i], SumOf(counts, days[..i + 1]))
    decreases |days|
  {
    var n := |days| - 1;
    if i < n {
      RunningTotalsAt(counts, days[..n], i);
      assert days[..n][..i + 1] == days[..i + 1];
    } else {
      assert days[..i + 1] == days;
    }
  }

  // ---------------------------------------------------------------------
  // What the result means

  /** The number of keys at or before day `d`. */
  function CountAtMost(keys: seq<string>, d: string): nat
    decreases |keys|
  {
    if |keys| == 0 then 0
    else CountAtMost(keys[..|keys| - 1], d) + (if LessEq(keys[|keys| - 1], d) then 1 else 0)
  }

  function Days(rows: seq<DayTotal>): (days: seq<string>)
    ensures |days| == |rows| && forall i :: 0 <= i < |rows| ==> days[i] == rows[i].day
  {
    seq(|rows|, i requires 0 <= i < |rows| => rows[i].day)
  }

  predicate StrictlyIncreasing(s: seq<string>) {
    forall i, j :: 0 <= i < j < |s| ==> Less(s[i], s[j])
  }

  /** `rows` is the cumulative find count of `keys`: one row per distinct
      day, in increasing order, carrying the number of finds on or before
      that day. */
  ghost predicate Cumulative(rows: seq<DayTotal>, keys: seq<string>) {
    && StrictlyIncreasing(Days(rows))
    && (forall k :: k in Days(rows) <==> k in keys)
    && (forall i :: 0 <= i < |rows| ==> rows[i].total == CountAtMost(keys, rows[i].day))
  }

  /** Lines 54-88.  The loops group the countable finds by day and then
      accumulate the sorted days. */
  method ParseFindsData(data: Json) returns (r: ParseResult)
    ensures r.RaisesTypeError? <==> data.JArray? && AnyRaises(data.items)
    ensures r.NoFinds? <==> !data.JArray? || (!AnyRaises(data.items) && |ValidKeys(data.items)| == 0)
    ensures r.Rows? ==> data.JArray? && Cumulative(r.rows, ValidKeys(data.items))
  {
    if !data.JArray? || |data.items| == 0 {
      return NoFinds;
    }
    var items := data.items;
    var raised, counts, order := GroupByDay(Outcomes(items));
    if raised {
      return RaisesTypeError;
    }
    TallyMeans(ValidKeys(items));
    if |counts| == 0 {
      return NoFinds;
    }
    var days := SortKeys(order);
    SortedKeysMeans(order);
    var rows := Accumulate(counts, days);
    TotalsAreCumulative(ValidKeys(items), days);
    return Rows(rows);
  }

  /** Lines 62-74, given what the loop body does with each element:
      counts the finds of each day, keeping the days in the order they
      first appear, and stops at the first element that raises. */
  method GroupByDay(outcomes: seq<ItemOutcome>) returns (raised: bool, counts: map<string, nat>, order: seq<string>)
    ensures raised <==> RaisesUpTo(outcomes, |outcomes|)
    ensures !raised ==> var keys := KeysUpTo(outcomes, |outcomes|);
                        counts == Tally(keys) && order == FirstOccurrences(keys)
  {
    counts, order := map[], [];
    var i := 0;
    while i < |outcomes|
      invariant i <= |outcomes| && GroupedUpTo(outcomes, i, counts, order)
    {
      var outcome := outcomes[i];
      if outcome.TypeErrorRaised? {
        RaisesLater(outcomes, i + 1);
        return true, counts, order;
      }
      ghost var before, beforeOrder := counts, order;
      if outcome.Counted? {
        var key := outcome.key;
        order := if key in counts then order else order + [key];
        counts := counts[key := (if key in counts then counts[key] else 0) + 1];
      }
      GroupStep(outcomes, i, before, beforeOrder, counts, order);
      i := i + 1;
    }
    return false, counts, order;
  }

  /** Lines 81-86: the running total over the sorted days. */
  method Accumulate(counts: map<string, nat>, days: seq<string>) returns (rows: seq<DayTotal>)
    requires forall d :: d in days ==> d in counts
    ensures rows == RunningTotals(counts, days)
  {
    rows := [];
    var total := 0;
    var j := 0;
    while j < |days|
      invariant 0 <= j <= |days|
      invariant total == SumOf(counts, days[..j])
      invariant rows == RunningTotals(counts, days[..j])
    {
      RunningStep(counts, days, j);
      total := total + counts[days[j]];
      rows := rows + [DayTotal(days[j], total)];
      j := j + 1;
    }
    assert days[..j] == days;
  }

  // ---------------------------------------------------------------------
  // Proofs

  /** `finds_by_date[k]` is the number of times `k` occurs. */
  lemma TallyMeans(keys: seq<string>)
    ensures forall k :: k in Tally(keys) <==> k in keys
    ensures forall k :: k in Tally(keys) ==> Tally(keys)[k] == multiset(keys)[k]
    ensures |Tally(keys)| == 0 <==> |keys| == 0
  {
    TallyKeys(keys);
    TallyCounts(keys);
    if |keys| > 0 {
      assert keys[0] in Tally(keys);
    }
  }

  /** Each key of `finds_by_date` holds its number of occurrences. */
  lemma {:induction false} TallyCounts(keys: seq<string>)
    ensures forall k :: k in Tally(keys) ==> Tally(keys)[k] == multiset(keys)[k]
    decreases |keys|
  {
    if |keys| > 0 {
      var n := |keys| - 1;
      TallyCounts(keys[..n]);
      TallyKeys(keys[..n]);
      var prev, x := Tally(keys[..n]), keys[n];
      assert keys == keys[..n] + [x];
      assert multiset(keys) == multiset(keys[..n]) + multiset{x};
      forall k | k in Tally(keys)
        ensures Tally(keys)[k] == multiset(keys)[k]
      {
        if k != x {
          assert k in prev;
        } else if x !in prev {
          assert x !in keys[..n];
        }
      }
    }
  }

  /** The keys of `finds_by_date` are the keys counted. */
  lemma {:induction false} TallyKeys(keys: seq<string>)
    ensures forall k :: k in Tally(keys) <==> k in keys
    decreases |keys|
  {
    if |keys| > 0 {
      var n := |keys| - 1;
      TallyKeys(keys[..n]);
      assert keys == keys[..n] + [keys[n]];
    }
  }

  /** The state of the grouping loop after the first `i` elements: none
      raised, and `counts` and `order` are the tally and the insertion
      order of their keys. */
  ghost predicate GroupedUpTo(outcomes: seq<ItemOutcome>, i: nat, counts: map<string, nat>, order: seq<string>)
    requires i <= |outcomes|
  {
    && !RaisesUpTo(outcomes, i)
    && counts == Tally(KeysUpTo(outcomes, i))
    && order == FirstOccurrences(KeysUpTo(outcomes, i))
  }

  /** One turn of the grouping loop for an element that does not raise: a
      skipped one leaves the state alone, a counted one adds its key. */
  lemma GroupStep(outcomes: seq<ItemOutcome>, i: nat, counts: map<string, nat>, order: seq<string>,
                  counts': map<string, nat>, order': seq<string>)
    requires i < |outcomes| && GroupedUpTo(outcomes, i, counts, order)
    requires !outcomes[i].TypeErrorRaised?
    requires outcomes[i].Skipped? ==> counts' == counts && order' == order
    requires outcomes[i].Counted? ==>
               var k := outcomes[i].key;
               && counts' == counts[k := (if k in counts then counts[k] else 0) + 1]
               && order' == if k in counts then order else order + [k]
    ensures GroupedUpTo(outcomes, i + 1, counts', order')
  {
    if outcomes[i].Counted? {
      KeyStep(KeysUpTo(outcomes, i), outcomes[i].key);
    } else {
      assert KeysUpTo(outcomes, i) + [] == KeysUpTo(outcomes, i);
    }
  }

  /** A raising element among the first `n` raises for the whole list. */
  lemma {:induction false} RaisesLater(outcomes: seq<ItemOutcome>, n: nat)
    requires n <= |outcomes| && RaisesUpTo(outcomes, n)
    ensures RaisesUpTo(outcomes, |outcomes|)
    decreases |outcomes| - n
  {
    if n < |outcomes| {
      RaisesLater(outcomes, n + 1);
    }
  }

  /** The list raises exactly when some element is a number, a boolean,
      null, or a list or string containing "date". */
  lemma AnyRaisesMeans(items: seq<Json>)
    ensures AnyRaises(items) <==> exists i :: 0 <= i < |items| && Classify(items[i]).TypeErrorRaised?
  {
    RaisesUpToMeans(Outcomes(items), |items|);
    assert forall i :: 0 <= i < |items| ==> Outcomes(items)[i] == Classify(items[i]);
  }

  lemma {:induction false} RaisesUpToMeans(outcomes: seq<ItemOutcome>, n: nat)
    requires n <= |outcomes|
    ensures RaisesUpTo(outcomes, n) <==> exists i :: 0 <= i < n && outcomes[i].TypeErrorRaised?
  {
    if n > 0 {
      RaisesUpToMeans(outcomes, n - 1);
    }
  }

  /** Counting one more key: `finds_by_date[key] += 1` on the defaultdict,
      which also appends a new key to the insertion order. */
  lemma KeyStep(keys: seq<string>, k: string)
    ensures Tally(keys + [k]) == Tally(keys)[k := (if k in Tally(keys) then Tally(keys)[k] else 0) + 1]
    ensures FirstOccurrences(keys + [k]) == if k in Tally(keys) then FirstOccurrences(keys) else FirstOccurrences(keys) + [k]
  {
    var ks := keys + [k];
    assert ks[..|ks| - 1] == keys && ks[|ks| - 1] == k;
    TallyKeys(keys);
    assert k in Tally(keys) <==> k in FirstOccurrences(keys);
  }

  /** One more day in the accumulation loop. */
  lemma RunningStep(counts: map<string, nat>, days: seq<string>, j: nat)
    requires forall d :: d in days ==> d in counts
    requires j < |days|
    ensures SumOf(counts, days[..j + 1]) == SumOf(counts, days[..j]) + counts[days[j]]
    ensures RunningTotals(counts, days[..j + 1]) == RunningTotals(counts, days[..j]) + [DayTotal(days[j], SumOf(counts, days[..j + 1]))]
  {
    assert days[..j + 1][..j] == days[..j];
  }

  lemma LessEqIsTotalPreorder()
    ensures TotalPreorder(LessEq)
  {
    forall a, b ensures LessEq(a, b) || LessEq(b, a) {
      LessTotal(a, b);
    }
    forall a, b, c | LessEq(a, b) && LessEq(b, c) ensures LessEq(a, c) {
      if a != b && b != c {
        LessTransitive(a, b, c);
      }
    }
  }

  lemma {:induction false} NoDuplicatesAtMostOnce(s: seq<string>, x: string)
    requires NoDuplicates(s)
    ensures multiset(s)[x] <= 1
    decreases |s|
  {
    if |s| > 0 {
      var n := |s| - 1;
      NoDuplicatesAtMostOnce(s[..n], x);
      assert s == s[..n] + [s[n]];
      if s[n] == x {
        assert x !in s[..n];
      }
    }
  }

  lemma RepeatCountsTwice(s: seq<string>, i: nat, j: nat)
    requires i < j < |s| && s[i] == s[j]
    ensures multiset(s)[s[i]] >= 2
  {
    assert s == s[..j] + s[j..];
    assert s[i] in s[..j] && s[j] in s[j..];
  }

  /** The sorted keys run strictly upward and are the keys of `order`. */
  lemma SortedKeysMeans(order: seq<string>)
    requires NoDuplicates(order)
    ensures StrictlyIncreasing(SortKeys(order))
    ensures forall k :: k in SortKeys(order) <==> k in order
  {
    var s := SortKeys(order);
    LessEqIsTotalPreorder();
    InsertionSortCorrect(order, LessEq);
    forall i, j | 0 <= i < j < |s| ensures Less(s[i], s[j]) {
      if s[i] == s[j] {
        RepeatCountsTwice(s, i, j);
        NoDuplicatesAtMostOnce(order, s[i]);
      }
    }
    forall k ensures k in s <==> k in order {
      assert k in s <==> k in multiset(s);
      assert k in order <==> k in multiset(order);
    }
  }

  /** In a strictly increasing sequence, positions and values are in the
      same order. */
  lemma IndexOrder(s: seq<string>, a: nat, b: nat)
    requires StrictlyIncreasing(s) && a < |s| && b < |s|
    ensures Less(s[a], s[b]) <==> a < b
  {
    if a == b {
      LessIrreflexive(s[a]);
    } else if b < a {
      LessAsymmetric(s[b], s[a]);
    }
  }

  /** Going from day `e` to a later day `d` with no key strictly between
      adds the finds of day `d`. */
  lemma {:induction false} CountStep(keys: seq<string>, e: string, d: string)
    requires Less(e, d)
    requires forall k :: k in keys ==> !(Less(e, k) && Less(k, d))
    ensures CountAtMost(keys, d) == CountAtMost(keys, e) + multiset(keys)[d]
    decreases |keys|
  {
    if |keys| > 0 {
      var n := |keys| - 1;
      var x := keys[n];
      CountStep(keys[..n], e, d);
      assert keys == keys[..n] + [x];
      if x == d {
        LessAsymmetric(e, d);
      } else if Less(x, d) {
        LessTotal(x, e);
      } else if LessEq(x, e) {
        if x != e {
          LessTransitive(x, e, d);
        }
      }
    }
  }

  /** The earliest day counts just its own finds. */
  lemma {:induction false} CountFirst(keys: seq<string>, d: string)
    requires forall k :: k in keys ==> !Less(k, d)
    ensures CountAtMost(keys, d) == multiset(keys)[d]
    decreases |keys|
  {
    if |keys| > 0 {
      var n := |keys| - 1;
      CountFirst(keys[..n], d);
      assert keys == keys[..n] + [keys[n]];
    }
  }

  /** No key comes before the first of the sorted days. */
  lemma NothingBefore(keys: seq<string>, days: seq<string>)
    requires StrictlyIncreasing(days) && |days| > 0
    requires forall k :: k in keys ==> k in days
    ensures forall k :: k in keys ==> !Less(k, days[0])
  {
    forall k | k in keys ensures !Less(k, days[0]) {
      var m :| 0 <= m < |days| && days[m] == k;
      IndexOrder(days, m, 0);
    }
  }

  /** No key lies strictly between two neighbouring sorted days. */
  lemma NothingBetween(keys: seq<string>, days: seq<string>, j: nat)
    requires StrictlyIncreasing(days) && 0 < j < |days|
    requires forall k :: k in keys ==> k in days
    ensures Less(days[j - 1], days[j])
    ensures forall k :: k in keys ==> !(Less(days[j - 1], k) && Less(k, days[j]))
  {
    forall k | k in keys ensures !(Less(days[j - 1], k) && Less(k, days[j])) {
      var m :| 0 <= m < |days| && days[m] == k;
      IndexOrder(days, j - 1, m);
      IndexOrder(days, m, j);
    }
  }

  /** The running sum over the sorted days is the count of keys up to the
      current day. */
  lemma {:induction false} SumIsCount(keys: seq<string>, days: seq<string>, j: nat)
    requires StrictlyIncreasing(days)
    requires forall k :: k in keys <==> k in days
    requires 1 <= j <= |days|
    ensures forall d :: d in days ==> d in Tally(keys)
    ensures SumOf(Tally(keys), days[..j]) == CountAtMost(keys, days[j - 1])
    decreases j
  {
    TallyMeans(keys);
    var t := Tally(keys);
    var d := days[j - 1];
    assert d in days;
    assert days[..j][..j - 1] == days[..j - 1];
    assert SumOf(t, days[..j]) == SumOf(t, days[..j - 1]) + multiset(keys)[d];
    if j == 1 {
      NothingBefore(keys, days);
      CountFirst(keys, d);
    } else {
      SumIsCount(keys, days, j - 1);
      NothingBetween(keys, days, j - 1);
      CountStep(keys, days[j - 2], d);
    }
  }

  /** The accumulated rows over the sorted distinct keys are the cumulative
      counts. */
  lemma TotalsAreCumulative(keys: seq<string>, days: seq<string>)
    requires StrictlyIncreasing(days)
    requires forall k :: k in keys <==> k in days
    ensures forall d :: d in days ==> d in Tally(keys)
    ensures Cumulative(RunningTotals(Tally(keys), days), keys)
  {
    TallyMeans(keys);
    var rows := RunningTotals(Tally(keys), days);
    forall i | 0 <= i < |rows| ensures rows[i].day == days[i] && rows[i].total == CountAtMost(keys, rows[i].day) {
      RunningTotalsAt(Tally(keys), days, i);
      SumIsCount(keys, days, i + 1);
    }
    assert Days(rows) == days;
  }

  // ---------------------------------------------------------------------
  // Properties of the cumulative rows

  /** A later day counts at least the earlier day's total plus its own
      finds. */
  lemma {:induction false} CountGrows(keys: seq<string>, e: string, d: string)
    requires Less(e, d)
    ensures CountAtMost(keys, d) >= CountAtMost(keys, e) + multiset(keys)[d]
    decreases |keys|
  {
    if |keys| > 0 {
      var n := |keys| - 1;
      var x := keys[n];
      CountGrows(keys[..n], e, d);
      assert keys == keys[..n] + [x];
      if x == d {
        LessAsymmetric(e, d);
      } else if LessEq(x, e) && x != e {
        LessTransitive(x, e, d);
      }
    }
  }

  /** A day no key comes after counts every key. */
  lemma {:induction false} CountAll(keys: seq<string>, d: string)
    requires forall k :: k in keys ==> LessEq(k, d)
    ensures CountAtMost(keys, d) == |keys|
    decreases |keys|
  {
    if |keys| > 0 {
      CountAll(keys[..|keys| - 1], d);
    }
  }

  lemma {:induction false} CountAtLeastOwn(keys: seq<string>, d: string)
    ensures CountAtMost(keys, d) >= multiset(keys)[d]
    decreases |keys|
  {
    if |keys| > 0 {
      var n := |keys| - 1;
      CountAtLeastOwn(keys[..n], d);
      assert keys == keys[..n] + [keys[n]];
    }
  }

  /** The running totals rise strictly from at least one find on the first
      day to the number of all countable finds on the last. */
  lemma CumulativeTotals(rows: seq<DayTotal>, keys: seq<string>)
    requires Cumulative(rows, keys) && |rows| > 0
    ensures forall i, j :: 0 <= i < j < |rows| ==> rows[i].total < rows[j].total
    ensures rows[0].total >= 1
    ensures rows[|rows| - 1].total == |keys|
  {
    var days := Days(rows);
    forall i, j | 0 <= i < j < |rows| ensures rows[i].total < rows[j].total {
      assert days[j] in keys;
      CountGrows(keys, days[i], days[j]);
    }
    assert days[0] in keys;
    CountAtLeastOwn(keys, days[0]);
    var last := |rows| - 1;
    forall k | k in keys ensures LessEq(k, days[last]) {
      var m :| 0 <= m < |days| && days[m] == k;
      IndexOrder(days, m, last);
    }
    CountAll(keys, days[last]);
  }

  /** Two strictly increasing sequences with the same elements are equal. */
  lemma {:induction false} StrictlySortedUnique(a: seq<string>, b: seq<string>)
    requires StrictlyIncreasing(a) && StrictlyIncreasing(b)
    requires forall k :: k in a <==> k in b
    ensures a == b
    decreases |a|
  {
    assert |b| > 0 ==> b[0] in a;
    if |a| > 0 {
      assert a[0] in b;
      var j :| 0 <= j < |b| && b[j] == a[0];
      var i :| 0 <= i < |a| && a[i] == b[0];
      IndexOrder(b, 0, j);
      IndexOrder(a, i, 0);
      forall k | k in a[1..] ensures k in b[1..] {
        var m :| 1 <= m < |a| && a[m] == k;
        IndexOrder(a, 0, m);
        LessIrreflexive(k);
        assert a[m] in a;
        var q :| 0 <= q < |b| && b[q] == k;
        assert b[1..][q - 1] == k;
      }
      forall k | k in b[1..] ensures k in a[1..] {
        var m :| 1 <= m < |b| && b[m] == k;
        IndexOrder(b, 0, m);
        LessIrreflexive(k);
        assert b[m] in b;
        var q :| 0 <= q < |a| && a[q] == k;
        assert a[1..][q - 1] == k;
      }
      StrictlySortedUnique(a[1..], b[1..]);
      assert a == [a[0]] + a[1..] && b == [b[0]] + b[1..];
    }
  }

  /** The keys determine the rows: whatever the order of the list and
      whatever sort Python uses, the cumulative rows come out the same. */
  lemma CumulativeUnique(rows1: seq<DayTotal>, rows2: seq<DayTotal>, keys: seq<string>)
    requires Cumulative(rows1, keys) && Cumulative(rows2, keys)
    ensures rows1 == rows2
  {
    StrictlySortedUnique(Days(rows1), Days(rows2));
    assert |rows1| == |Days(rows1)| == |Days(rows2)| == |rows2|;
    forall i | 0 <= i < |rows1| ensures rows1[i] == rows2[i] {
      assert rows1[i].day == Days(rows1)[i] == Days(rows2)[i] == rows2[i].day;
    }
  }

  // ---------------------------------------------------------------------
  // convert_to_plot_data

  /** A key that `strptime(key, '%Y-%m-%d')` reads as a date whose
      `strftime('%Y-%m-%d')` is the key again. */
  predicate CanonicalKey(k: string) {
    ParseDate(k).Some? && DateKey(ParseDate(k).value) == k
  }

  /** The key a counted find is grouped under is the canonical spelling of
      a valid date. */
  lemma CountedIsCanonical(item: Json)
    requires Classify(item).Counted?
    ensures CanonicalKey(Classify(item).key)
  {
    var t := ParseTimestamp(item.fields["date"].s);
    DateKeyRoundTrip(t.value.date);
  }

  /** Keys collected from outcomes whose keys are all canonical. */
  lemma {:induction false} CanonicalKeysUpTo(outcomes: seq<ItemOutcome>, n: nat)
    requires n <= |outcomes|
    requires forall i :: 0 <= i < |outcomes| && outcomes[i].Counted? ==> CanonicalKey(outcomes[i].key)
    ensures forall k :: k in KeysUpTo(outcomes, n) ==> CanonicalKey(k)
  {
    if n > 0 {
      CanonicalKeysUpTo(outcomes, n - 1);
    }
  }

  /** Every grouping key is the canonical spelling of a valid date. */
  lemma KeysAreCanonical(items: seq<Json>)
    ensures forall k :: k in ValidKeys(items) ==> CanonicalKey(k)
  {
    var outcomes := Outcomes(items);
    forall i | 0 <= i < |outcomes| && outcomes[i].Counted?
      ensures CanonicalKey(outcomes[i].key)
    {
      CountedIsCanonical(items[i]);
    }
    CanonicalKeysUpTo(outcomes, |outcomes|);
  }

  /** The dates and counts to plot. */
  datatype PlotSeries = PlotSeries(dates: seq<Date>, counts: seq<nat>)

  /** `datetime.strptime(d[0], '%Y-%m-%d')` for each row, None where it
      raises. */
  function ReadDays(rows: seq<DayTotal>): (parsed: seq<Option<Date>>)
    ensures |parsed| == |rows|
    ensures forall i :: 0 <= i < |rows| && parsed[i].Some? ==> ValidDate(parsed[i].value)
  {
    seq(|rows|, i requires 0 <= i < |rows| => ParseDate(rows[i].day))
  }

  /** The list comprehension over the first `n` rows: the parsed dates, or
      the day string of the first row whose parse raised. */
  function Collect(parsed: seq<Option<Date>>, rows: seq<DayTotal>, n: nat): (r: Result<seq<Date>, string>)
    requires |parsed| == |rows| && n <= |rows|
    ensures r.Ok? <==> forall i :: 0 <= i < n ==> parsed[i].Some?
    ensures r.Ok? ==> |r.value| == n && forall i :: 0 <= i < n ==> parsed[i] == Some(r.value[i])
    ensures r.Err? ==> exists i :: 0 <= i < n && parsed[i].None? && r.error == rows[i].day
                                   && forall m :: 0 <= m < i ==> parsed[m].Some?
  {
    if n == 0 then Ok([])
    else
      var prev := Collect(parsed, rows, n - 1);
      if prev.Err? then prev
      else if parsed[n - 1].None? then Err(rows[n - 1].day)
      else Ok(prev.value + [parsed[n - 1].value])
  }

  /** Lines 90-97: an empty list gives two empty series; otherwise every
      day is read back as a date (the first that does not parse raises
      ValueError, here `Err` with that string) and the totals are kept. */
  function ConvertToPlotData(rows: seq<DayTotal>): (r: Result<PlotSeries, string>)
    ensures r.Ok? <==> forall i :: 0 <= i < |rows| ==> ReadDays(rows)[i].Some?
    ensures r.Ok? ==> |r.value.dates| == |rows| && |r.value.counts| == |rows|
    ensures r.Ok? ==> forall i :: 0 <= i < |rows| ==>
                        ReadDays(rows)[i] == Some(r.value.dates[i]) && r.value.counts[i] == rows[i].total
    ensures r.Err? ==> exists i :: 0 <= i < |rows| && ReadDays(rows)[i].None? && r.error == rows[i].day
                                   && forall m :: 0 <= m < i ==> ReadDays(rows)[m].Some?
  {
    if |rows| == 0 then Ok(PlotSeries([], []))
    else
      var dates := Collect(ReadDays(rows), rows, |rows|);
      if dates.Err? then Err(dates.error)
      else Ok(PlotSeries(dates.value, seq(|rows|, i requires 0 <= i < |rows| => rows[i].total)))
  }

  /** Rows whose days are all canonical keys convert, and each date is the
      one its key spells. */
  lemma ConvertCanonical(rows: seq<DayTotal>)
    requires forall i :: 0 <= i < |rows| ==> CanonicalKey(rows[i].day)
    ensures ConvertToPlotData(rows).Ok?
    ensures forall i :: 0 <= i < |rows| ==> DateKey(ConvertToPlotData(rows).value.dates[i]) == rows[i].day
  {
    assert forall i :: 0 <= i < |rows| ==> ReadDays(rows)[i] == ParseDate(rows[i].day);
  }

  /** The rows `parse_finds_data` returns always convert: the dates come
      out in strictly increasing order, so do their day numbers, and the
      counts are the running totals. */
  lemma PlotDataOfFinds(items: seq<Json>, rows: seq<DayTotal>)
    requires Cumulative(rows, ValidKeys(items))
    ensures ConvertToPlotData(rows).Ok?
    ensures var p := ConvertToPlotData(rows).value;
            && (forall i, j :: 0 <= i < j < |rows| ==> Before(p.dates[i], p.dates[j]))
            && (forall i, j :: 0 <= i < j < |rows| ==> DayNumber(p.dates[i]) < DayNumber(p.dates[j]))
  {
    KeysAreCanonical(items);
    var days := Days(rows);
    forall i | 0 <= i < |rows| ensures CanonicalKey(rows[i].day) {
      assert days[i] in ValidKeys(items);
    }
    ConvertCanonical(rows);
    var p := ConvertToPlotData(rows).value;
    forall i, j | 0 <= i < j < |rows|
      ensures Before(p.dates[i], p.dates[j]) && DayNumber(p.dates[i]) < DayNumber(p.dates[j])
    {
      assert days[i] == DateKey(p.dates[i]) && days[j] == DateKey(p.dates[j]);
      DateKeyOrder(p.dates[i], p.dates[j]);
      DayNumberIncreasing(p.dates[i], p.dates[j]);
    }
  }
}
