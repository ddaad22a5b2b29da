/** saveRecentTrace: the short list of recent traces as a view of the whole history. */
module RecentTraces {

  datatype Trace = Trace(domain: string, qtype: string, timestamp: string, duration: int, status: string)

  const STORAGE_LIMIT: nat := 10

  predicate Same(a: Trace, b: Trace) {
    a.domain == b.domain && a.qtype == b.qtype
  }

  function Without(item: Trace, list: seq<Trace>): seq<Trace> {
    if list == [] then []
    else (if Same(list[0], item) then [] else [list[0]]) + Without(item, list[1..])
  }

  function Take(list: seq<Trace>, n: nat): seq<Trace> {
    if |list| <= n then list else list[..n]
  }

  /** saveRecentTrace; stored is whether writing to local storage succeeds. */
  function Save(item: Trace, current: seq<Trace>, stored: bool): seq<Trace> {
    if stored then Take([item] + Without(item, current), STORAGE_LIMIT) else current
  }

  /** A run of saves, each with its success, from an empty list. */
  datatype Attempt = Attempt(item: Trace, stored: bool)

  function Run(history: seq<Attempt>): seq<Trace> {
    if history == [] then []
    else
      var last := history[|history| - 1];
      Save(last.item, Run(history[..|history| - 1]), last.stored)
  }

  /** The items saved successfully, newest first. */
  function Newest(history: seq<Attempt>): seq<Trace> {
    if history == [] then []
    else
      var last := history[|history| - 1];
      (if last.stored then [last.item] else []) + Newest(history[..|history| - 1])
  }

  /** Each (domain, qtype) once, at its first place. */
  function Dedup(list: seq<Trace>): seq<Trace> {
    if list == [] then [] else [list[0]] + Without(list[0], Dedup(list[1..]))
  }

  predicate NoDuplicates(list: seq<Trace>) {
    forall i, j :: 0 <= i < j < |list| ==> !Same(list[i], list[j])
  }

  lemma {:induction false} WithoutMeaning(item: Trace, list: seq<Trace>, x: Trace)
    ensures x in Without(item, list) <==> x in list && !Same(x, item)
  {
    if list != [] {
      WithoutMeaning(item, list[1..], x);
      assert x in list <==> x == list[0] || x in list[1..];
    }
  }

  lemma {:induction false} WithoutKeepsNoDuplicates(item: Trace, list: seq<Trace>)
    requires NoDuplicates(list)
    ensures NoDuplicates(Without(item, list))
  {
    if list != [] {
      assert forall i, j :: 0 <= i < j < |list[1..]| ==> list[1..][i] == list[i + 1] && list[1..][j] == list[j + 1];
      WithoutKeepsNoDuplicates(item, list[1..]);
      var rest := Without(item, list[1..]);
      forall k | 0 <= k < |rest| ensures !Same(list[0], rest[k]) {
        WithoutMeaning(item, list[1..], rest[k]);
        var i :| 0 <= i < |list[1..]| && list[1..][i] == rest[k];
        assert list[i + 1] == rest[k];
      }
    }
  }

  lemma {:induction false} DedupHasNoDuplicates(list: seq<Trace>)
    ensures NoDuplicates(Dedup(list))
  {
    if list != [] {
      DedupHasNoDuplicates(list[1..]);
      var rest := Without(list[0], Dedup(list[1..]));
      WithoutKeepsNoDuplicates(list[0], Dedup(list[1..]));
      forall k | 0 <= k < |rest| ensures !Same(list[0], rest[k]) {
        WithoutMeaning(list[0], Dedup(list[1..]), rest[k]);
      }
    }
  }

  predicate FirstPlace(list: seq<Trace>, i: nat, x: Trace) {
    i < |list| && list[i] == x && forall j :: 0 <= j < i ==> !Same(list[j], x)
  }

  /** An item is listed exactly when it occurs and no item before its first place has the same domain and type. */
  lemma {:induction false} DedupMeaning(list: seq<Trace>, x: Trace)
    ensures x in Dedup(list) <==> exists i: nat :: FirstPlace(list, i, x)
  {
    if list != [] {
      DedupMeaning(list[1..], x);
      WithoutMeaning(list[0], Dedup(list[1..]), x);
      if x == list[0] {
        assert FirstPlace(list, 0, x);
      } else if !Same(x, list[0]) {
        if i: nat :| FirstPlace(list[1..], i, x) {
          forall j | 0 <= j < i + 1 ensures !Same(list[j], x) {
            assert j > 0 ==> list[j] == list[1..][j - 1];
          }
          assert FirstPlace(list, i + 1, x);
        }
        if i: nat :| FirstPlace(list, i, x) {
          assert forall j :: 0 <= j < i - 1 ==> list[1..][j] == list[j + 1];
          assert FirstPlace(list[1..], i - 1, x);
        }
      }
    }
  }

  lemma {:induction false} WithoutAbsent(item: Trace, list: seq<Trace>)
    requires forall i :: 0 <= i < |list| ==> !Same(list[i], item)
    ensures Without(item, list) == list
  {
    if list != [] {
      WithoutAbsent(item, list[1..]);
    }
  }

  lemma TakeCons(x: Trace, list: seq<Trace>, n: nat)
    requires n > 0
    ensures Take([x] + list, n) == [x] + Take(list, n - 1)
  {}

  /** Truncating first and then removing gives the same n entries as removing from the whole list. */
  lemma {:induction false} TruncateEarly(item: Trace, list: seq<Trace>, n: nat)
    requires NoDuplicates(list)
    ensures Take(Without(item, Take(list, n + 1)), n) == Take(Without(item, list), n)
    decreases |list|
  {
    if |list| > n + 1 {
      var kept := Take(list, n + 1);
      if Same(list[0], item) {
        WithoutAbsent(item, list[1..]);
        assert kept[1..] == list[1..][..n];
        WithoutAbsent(item, kept[1..]);
      } else if n > 0 {
        TruncateEarly(item, list[1..], n - 1);
        assert Take(list[1..], n) == kept[1..];
        TakeCons(list[0], Without(item, kept[1..]), n);
        TakeCons(list[0], Without(item, list[1..]), n);
      }
    }
  }

  /**
   * The recent list refines the whole history: after any run of saves, some of which may fail to be stored, it is the
   * first ten entries of the stored items, newest first, with each (domain, qtype) listed once. Truncating after every
   * save never loses an entry that should be there.
   */
  lemma {:induction false} RecentIsNewest(history: seq<Attempt>)
    ensures Run(history) == Take(Dedup(Newest(history)), STORAGE_LIMIT)
  {
    if history != [] {
      var front, last := history[..|history| - 1], history[|history| - 1];
      RecentIsNewest(front);
      if last.stored {
        var all := Dedup(Newest(front));
        assert Newest(history)[1..] == Newest(front);
        DedupHasNoDuplicates(Newest(front));
        SaveTruncates(last.item, all);
      } else {
        assert Newest(history) == Newest(front);
      }
    }
  }

  lemma SaveTruncates(item: Trace, all: seq<Trace>)
    requires NoDuplicates(all)
    ensures Save(item, Take(all, STORAGE_LIMIT), true) == Take([item] + Without(item, all), STORAGE_LIMIT)
  {
    TruncateEarly(item, all, STORAGE_LIMIT - 1);
    TakeCons(item, Without(item, Take(all, STORAGE_LIMIT)), STORAGE_LIMIT);
    TakeCons(item, Without(item, all), STORAGE_LIMIT);
  }

  /** The (domain, type) pairs of a list. */
  function KeysOf(list: seq<Trace>): set<(string, string)> {
    set x | x in list :: (x.domain, x.qtype)
  }

  /** The item was saved successfully, and nothing of its domain and type was saved successfully after it. */
  ghost predicate IsLatest(history: seq<Attempt>, x: Trace) {
    exists i: nat :: IsLatestAt(history, i, x)
  }

  ghost predicate IsLatestAt(history: seq<Attempt>, i: nat, x: Trace) {
    && i < |history| && history[i] == Attempt(x, true)
    && forall j :: i < j < |history| && history[j].stored ==>
                     history[j].item.domain != x.domain || history[j].item.qtype != x.qtype
  }

  lemma LatestInFront(history: seq<Attempt>, i: nat, x: Trace)
    requires history != [] && IsLatestAt(history, i, x)
    requires history[|history| - 1] != Attempt(x, true)
    ensures IsLatestAt(history[..|history| - 1], i, x)
    ensures var last := history[|history| - 1]; last.stored ==> !Same(x, last.item)
  {}

  lemma LatestNext(history: seq<Attempt>, x: Trace)
    requires history != []
    ensures var n := |history| - 1; var last := history[n];
            IsLatest(history, x) <==>
              (last.stored && x == last.item) || (IsLatest(history[..n], x) && (last.stored ==> !Same(x, last.item)))
  {
    var n := |history| - 1;
    var front, last := history[..n], history[n];
    if last.stored && x == last.item {
      assert last == Attempt(x, true);
      assert IsLatestAt(history, n, x);
    } else {
      if i: nat :| IsLatestAt(front, i, x) && (last.stored ==> !Same(x, last.item)) {
        assert IsLatestAt(history, i, x);
      }
      if i: nat :| IsLatestAt(history, i, x) {
        LatestInFront(history, i, x);
      }
    }
  }

  lemma {:induction false} NewestIn(history: seq<Attempt>, x: Trace)
    ensures x in Dedup(Newest(history)) <==> IsLatest(history, x)
  {
    hide IsLatest;
    if history == [] {
      assert !IsLatest([], x) by { NeverSaved(x); }
    } else {
      var n := |history| - 1;
      var front, last := history[..n], history[n];
      NewestIn(front, x);
      LatestNext(history, x);
      if last.stored {
        assert Newest(history)[1..] == Newest(front);
        WithoutMeaning(last.item, Dedup(Newest(front)), x);
      } else {
        assert Newest(history) == Newest(front);
      }
    }
  }

  lemma NeverSaved(x: Trace)
    ensures !IsLatest([], x)
  {}

  lemma {:induction false} DistinctCount(list: seq<Trace>)
    requires NoDuplicates(list)
    ensures |KeysOf(list)| == |list|
  {
    if list != [] {
      var rest := list[1..];
      forall i, j | 0 <= i < j < |rest| ensures !Same(rest[i], rest[j]) {
        assert !Same(list[i + 1], list[j + 1]);
      }
      DistinctCount(rest);
      KeyOnce(list);
      KeysOfCons(list[0], rest);
      assert [list[0]] + rest == list;
      hide KeysOf, NoDuplicates;
    }
  }

  lemma KeyOnce(list: seq<Trace>)
    requires NoDuplicates(list) && list != []
    ensures (list[0].domain, list[0].qtype) !in KeysOf(list[1..])
  {
    forall x | x in list[1..] ensures (x.domain, x.qtype) != (list[0].domain, list[0].qtype) {
      var i :| 0 <= i < |list| - 1 && list[1..][i] == x;
      assert !Same(list[0], list[i + 1]);
    }
  }

  lemma KeysOfCons(first: Trace, rest: seq<Trace>)
    ensures KeysOf([first] + rest) == {(first.domain, first.qtype)} + KeysOf(rest)
  {
    forall x ensures x in [first] + rest <==> x == first || x in rest {}
  }

  /** The (domain, type) pairs that were ever saved successfully. */
  function KeysSaved(history: seq<Attempt>): set<(string, string)> {
    set a | a in history && a.stored :: (a.item.domain, a.item.qtype)
  }

  lemma {:induction false} KeysAreSaved(history: seq<Attempt>)
    ensures KeysOf(Dedup(Newest(history))) == KeysSaved(history)
  {
    forall key | key in KeysSaved(history) ensures key in KeysOf(Dedup(Newest(history))) {
      var a :| a in history && a.stored && (a.item.domain, a.item.qtype) == key;
      var i :| 0 <= i < |history| && history[i] == a;
      var x := LatestOf(history, i);
      NewestIn(history, x);
    }
    forall x | x in Dedup(Newest(history)) ensures (x.domain, x.qtype) in KeysSaved(history) {
      NewestIn(history, x);
      var i: nat :| IsLatestAt(history, i, x);
      assert history[i] in history;
    }
  }

  lemma {:induction false} LatestOf(history: seq<Attempt>, i: nat) returns (x: Trace)
    requires i < |history| && history[i].stored
    ensures IsLatest(history, x) && x.domain == history[i].item.domain && x.qtype == history[i].item.qtype
    decreases |history| - i
  {
    x := history[i].item;
    if j: nat :| i < j < |history| && history[j].stored && Same(history[j].item, x) {
      x := LatestOf(history, j);
    } else {
      assert IsLatestAt(history, i, x);
    }
  }

  lemma {:induction false} WithoutOrder(item: Trace, list: seq<Trace>, a: nat, b: nat) returns (c: nat, d: nat)
    requires a < b < |Without(item, list)|
    ensures c < d < |list| && list[c] == Without(item, list)[a] && list[d] == Without(item, list)[b]
  {
    if Same(list[0], item) {
      c, d := WithoutOrder(item, list[1..], a, b);
      c, d := c + 1, d + 1;
    } else if a == 0 {
      WithoutMeaning(item, list[1..], Without(item, list)[b]);
      var i :| 0 <= i < |list[1..]| && list[1..][i] == Without(item, list)[b];
      c, d := 0, i + 1;
    } else {
      c, d := WithoutOrder(item, list[1..], a - 1, b - 1);
      c, d := c + 1, d + 1;
    }
  }

  lemma LastIsLatest(history: seq<Attempt>, i: nat, x: Trace)
    requires history != [] && IsLatestAt(history, i, x) && history[|history| - 1] == Attempt(x, true)
    ensures i == |history| - 1
  {}

  lemma LatestIsIn(history: seq<Attempt>, i: nat, x: Trace)
    requires IsLatestAt(history, i, x)
    ensures i < |history|
  {}

  /** The newest items are in the order of their latest saves. */
  lemma {:induction false} NewestOrder(history: seq<Attempt>, a: nat, b: nat, i: nat, j: nat)
    requires a < b < |Dedup(Newest(history))|
    requires IsLatestAt(history, i, Dedup(Newest(history))[a]) && IsLatestAt(history, j, Dedup(Newest(history))[b])
    ensures j < i
  {
    hide IsLatestAt, Without;
    var n, all := |history| - 1, Dedup(Newest(history));
    var front, last := history[..n], history[n];
    if !last.stored {
      assert Newest(history) == Newest(front);
      LatestInFront(history, i, all[a]);
      LatestInFront(history, j, all[b]);
      NewestOrder(front, a, b, i, j);
    } else {
      var before := Dedup(Newest(front));
      assert Newest(history) == [last.item] + Newest(front) && Newest(history)[1..] == Newest(front);
      assert all == [last.item] + Without(last.item, before);
      hide Dedup, Newest;
      WithoutMeaning(last.item, before, all[b]);
      LatestInFront(history, j, all[b]);
      if a > 0 {
        WithoutMeaning(last.item, before, all[a]);
        LatestInFront(history, i, all[a]);
        var c, d := WithoutOrder(last.item, before, a - 1, b - 1);
        NewestOrder(front, c, d, i, j);
      } else {
        LastIsLatest(history, i, last.item);
        LatestIsIn(front, j, all[b]);
      }
    }
  }

  /** The latest save of x came after that of y. */
  ghost predicate LaterThan(history: seq<Attempt>, x: Trace, y: Trace) {
    exists i: nat, j: nat :: IsLatestAt(history, i, x) && IsLatestAt(history, j, y) && j < i
  }

  lemma NewestLater(history: seq<Attempt>, a: nat, b: nat)
    requires a < b < |Dedup(Newest(history))|
    ensures LaterThan(history, Dedup(Newest(history))[a], Dedup(Newest(history))[b])
  {
    var all := Dedup(Newest(history));
    NewestIn(history, all[a]);
    NewestIn(history, all[b]);
    hide Dedup, Newest;
    var i: nat :| IsLatestAt(history, i, all[a]);
    var j: nat :| IsLatestAt(history, j, all[b]);
    NewestOrder(history, a, b, i, j);
  }

  /**
   * What the recent list holds after any run of saves: as many entries as there are pairs of domain and type in the
   * history, but at most ten; each of them the latest of its pair, in the order of these saves, the last one first; and
   * whatever is missing is older than all of them.
   */
  lemma RecentMeaning(history: seq<Attempt>)
    ensures var list := Run(history);
            && |list| == (if |KeysSaved(history)| <= 10 then |KeysSaved(history)| else 10)
            && (forall x :: x in list ==> IsLatest(history, x))
            && (forall i, j :: 0 <= i < j < |list| ==> LaterThan(history, list[i], list[j]))
            && (forall x, y :: x in list && y !in list && IsLatest(history, y) ==> LaterThan(history, x, y))
            && (|list| < 10 ==> forall x :: IsLatest(history, x) ==> x in list)
  {
    var all := Dedup(Newest(history));
    RecentIsNewest(history);
    DedupHasNoDuplicates(Newest(history));
    KeysAreSaved(history);
    DistinctCount(all);
    hide Run, Dedup, Newest, KeysSaved, KeysOf, IsLatest, LaterThan, NoDuplicates;
    forall i: nat, j: nat | i < j < |all| ensures LaterThan(history, all[i], all[j]) {
      NewestLater(history, i, j);
    }
    forall x ensures x in all <==> IsLatest(history, x) {
      NewestIn(history, x);
    }
    TruncatedOrder(history, all, Run(history));
  }

  /** What is cut off the end of an ordered list is older than what is kept. */
  lemma TruncatedOrder(history: seq<Attempt>, all: seq<Trace>, kept: seq<Trace>)
    requires kept <= all && forall i, j :: 0 <= i < j < |all| ==> LaterThan(history, all[i], all[j])
    ensures forall x, y :: x in kept && y !in kept && y in all ==> LaterThan(history, x, y)
  {
    hide LaterThan;
    forall x, y | x in kept && y !in kept && y in all ensures LaterThan(history, x, y) {
      var i: nat :| i < |kept| && kept[i] == x;
      assert all == kept + all[|kept|..];
      var j: nat :| |kept| <= j < |all| && all[j] == y;
    }
  }
}
