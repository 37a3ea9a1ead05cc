/**
 * The display order: `[...tasks].sort((a, b) => w[b.priority] - w[a.priority])`.
 * ECMAScript requires `Array.prototype.sort` to be stable, so the displayed
 * list is the stable descending sort by weight; it is modelled by an
 * insertion sort, generic in the element type and the weight, and proved to
 * be a permutation, non-increasing in weight and stable. The same sort over
 * store positions tells which store record each displayed row shows.
 */
module DisplayOrder {
  import opened PriorityEngine
  import opened Tasks
  import opened Store

  /** Adjacent weights never increase. */
  predicate SortedBy<T>(s: seq<T>, w: T -> int)
  {
    forall k :: 0 < k < |s| ==> w(s[k - 1]) >= w(s[k])
  }

  /** Inserts `x` before the first element that does not outweigh it. */
  function Insert<T>(x: T, r: seq<T>, w: T -> int): (out: seq<T>)
    ensures multiset(out) == multiset(r) + multiset{x}
    ensures |out| == |r| + 1
  {
    if r == [] || w(x) >= w(r[0]) then [x] + r
    else
      assert r == [r[0]] + r[1..];
      [r[0]] + Insert(x, r[1..], w)
  }

  /** Inserting into a sorted list keeps it sorted; the head is `x` or the old head. */
  lemma {:induction false} InsertSorted<T>(x: T, r: seq<T>, w: T -> int)
    requires SortedBy(r, w)
    ensures SortedBy(Insert(x, r, w), w)
    ensures Insert(x, r, w)[0] == x || (r != [] && Insert(x, r, w)[0] == r[0])
  {
    if r != [] && w(x) < w(r[0]) {
      var t := r[1..];
      assert SortedBy(t, w) by {
        forall k | 0 < k < |t| ensures w(t[k - 1]) >= w(t[k]) {
          assert t[k - 1] == r[k] && t[k] == r[k + 1];
        }
      }
      InsertSorted(x, t, w);
      var tail := Insert(x, t, w);
      var out := [r[0]] + tail;
      assert t != [] ==> w(t[0]) <= w(r[0]) by {
        if t != [] { assert t[0] == r[1]; }
      }
      forall k | 0 < k < |out| ensures w(out[k - 1]) >= w(out[k]) {
        if k == 1 { assert out[1] == tail[0]; }
        else { assert out[k - 1] == tail[k - 2] && out[k] == tail[k - 1]; }
      }
    }
  }

  /** The stable sort, heaviest first. */
  function SortDesc<T>(s: seq<T>, w: T -> int): (r: seq<T>)
    ensures multiset(r) == multiset(s)
    ensures |r| == |s|
    ensures SortedBy(r, w)
  {
    if s == [] then []
    else
      assert s == [s[0]] + s[1..];
      var rest := SortDesc(s[1..], w);
      InsertSorted(s[0], rest, w);
      Insert(s[0], rest, w)
  }

  /** The elements of weight `v`, in their order in `s`. */
  function WeightClass<T>(s: seq<T>, w: T -> int, v: int): seq<T>
  {
    if s == [] then []
    else (if w(s[0]) == v then [s[0]] else []) + WeightClass(s[1..], w, v)
  }

  lemma {:induction false} InsertWeightClass<T>(x: T, r: seq<T>, w: T -> int, v: int)
    ensures WeightClass(Insert(x, r, w), w, v) == (if w(x) == v then [x] else []) + WeightClass(r, w, v)
  {
    var head := if w(x) == v then [x] else [];
    if r == [] || w(x) >= w(r[0]) {
      var out := [x] + r;
      assert out[0] == x && out[1..] == r;
      assert WeightClass(out, w, v) == head + WeightClass(r, w, v);
    } else {
      var tail := Insert(x, r[1..], w);
      var out := [r[0]] + tail;
      assert out[0] == r[0] && out[1..] == tail;
      var first := if w(r[0]) == v then [r[0]] else [];
      InsertWeightClass(x, r[1..], w, v);
      assert WeightClass(out, w, v) == first + (head + WeightClass(r[1..], w, v));
      assert WeightClass(r, w, v) == first + WeightClass(r[1..], w, v);
      // x is lighter than r[0], so at most one of `first` and `head` is non-empty.
      assert first == [] || head == [];
    }
  }

  /** Stability: among the elements of one weight, the sort keeps their order. */
  lemma {:induction false} SortStable<T>(s: seq<T>, w: T -> int, v: int)
    ensures WeightClass(SortDesc(s, w), w, v) == WeightClass(s, w, v)
  {
    if s != [] {
      SortStable(s[1..], w, v);
      InsertWeightClass(s[0], SortDesc(s[1..], w), w, v);
    }
  }

  ghost predicate Distinct<T>(s: seq<T>)
  {
    forall i, j :: 0 <= i < j < |s| ==> s[i] != s[j]
  }

  lemma {:induction false} InsertDistinct<T>(x: T, r: seq<T>, w: T -> int)
    requires Distinct(r) && x !in r
    ensures Distinct(Insert(x, r, w))
  {
    if r != [] && w(x) < w(r[0]) {
      var tail := Insert(x, r[1..], w);
      InsertDistinct(x, r[1..], w);
      assert r[0] !in multiset(r[1..]) + multiset{x};
      assert r[0] !in tail;
      var out := [r[0]] + tail;
      forall i, j | 0 <= i < j < |out| ensures out[i] != out[j] {
        if i == 0 { assert out[j] == tail[j - 1]; }
        else { assert out[i] == tail[i - 1] && out[j] == tail[j - 1]; }
      }
    }
  }

  lemma {:induction false} SortDistinct<T>(s: seq<T>, w: T -> int)
    requires Distinct(s)
    ensures Distinct(SortDesc(s, w))
  {
    if s != [] {
      assert Distinct(s[1..]);
      SortDistinct(s[1..], w);
      assert s[0] !in multiset(s[1..]);
      InsertDistinct(s[0], SortDesc(s[1..], w), w);
    }
  }

  // ---------------------------------------------------------------------------
  // Tasks

  function TaskWeight(t: Task): int
  {
    Weight(t.priority)
  }

  /** The tasks of tier `p`, in store order. */
  function OfTier(s: seq<Task>, p: Priority): seq<Task>
  {
    if s == [] then []
    else (if s[0].priority == p then [s[0]] else []) + OfTier(s[1..], p)
  }

  lemma {:induction false} WeightClassIsTier(s: seq<Task>, p: Priority)
    ensures WeightClass(s, TaskWeight, Weight(p)) == OfTier(s, p)
  {
    if s != [] {
      WeightRanksTiers(s[0].priority, p);
      WeightClassIsTier(s[1..], p);
    }
  }

  /**
   * `sortedTasks`: a permutation of the store, non-increasing in weight, and
   * stable, i.e. the tasks of each tier appear in their store order.
   */
  function SortedTasks(tasks: seq<Task>): (r: seq<Task>)
    ensures multiset(r) == multiset(tasks) && |r| == |tasks|
    ensures forall k :: 0 < k < |r| ==> Weight(r[k - 1].priority) >= Weight(r[k].priority)
    ensures OfTier(r, High) == OfTier(tasks, High)
    ensures OfTier(r, Medium) == OfTier(tasks, Medium)
    ensures OfTier(r, Low) == OfTier(tasks, Low)
  {
    var r := SortDesc(tasks, TaskWeight);
    assert forall k :: 0 < k < |r| ==> TaskWeight(r[k - 1]) >= TaskWeight(r[k]);
    SortStable(tasks, TaskWeight, Weight(High));
    SortStable(tasks, TaskWeight, Weight(Medium));
    SortStable(tasks, TaskWeight, Weight(Low));
    WeightClassIsTier(r, High); WeightClassIsTier(tasks, High);
    WeightClassIsTier(r, Medium); WeightClassIsTier(tasks, Medium);
    WeightClassIsTier(r, Low); WeightClassIsTier(tasks, Low);
    r
  }

  lemma {:induction false} OfTierAbsent(s: seq<Task>, p: Priority)
    requires forall k :: 0 <= k < |s| ==> s[k].priority != p
    ensures OfTier(s, p) == []
  {
    if s != [] { OfTierAbsent(s[1..], p); }
  }

  lemma {:induction false} SortedHeadHeaviest(s: seq<Task>)
    requires SortedBy(s, TaskWeight)
    ensures forall k :: 0 <= k < |s| ==> TaskWeight(s[k]) <= TaskWeight(s[0])
  {
    if |s| > 1 {
      SortedHeadHeaviest(s[1..]);
      assert TaskWeight(s[1..][0]) <= TaskWeight(s[0]);
    }
  }

  lemma SortedTail(s: seq<Task>)
    requires s != [] && SortedBy(s, TaskWeight)
    ensures SortedBy(s[1..], TaskWeight)
  {
    var t := s[1..];
    forall k | 0 < k < |t| ensures TaskWeight(t[k - 1]) >= TaskWeight(t[k]) {
      assert t[k - 1] == s[k] && t[k] == s[k + 1];
    }
  }

  /** In a list sorted by weight, no task outweighs a head of tier `p` when `p` is below High. */
  lemma BelowHeadIsAbsent(s: seq<Task>, p: Priority)
    requires s != [] && SortedBy(s, TaskWeight)
    requires Weight(s[0].priority) < Weight(p)
    ensures OfTier(s[1..], p) == []
  {
    var t := s[1..];
    SortedHeadHeaviest(s);
    forall k | 0 <= k < |t| ensures t[k].priority != p {
      assert t[k] == s[k + 1];
    }
    OfTierAbsent(t, p);
  }

  /** Putting `x` in front of a list split by tier keeps it split, when nothing in the list outweighs `x`. */
  lemma ConsSplitHigh(x: Task, t: seq<Task>, h: seq<Task>, m: seq<Task>, l: seq<Task>)
    requires x.priority == High
    requires h == OfTier(t, High) && m == OfTier(t, Medium) && l == OfTier(t, Low) && t == h + m + l
    ensures [x] + t == OfTier([x] + t, High) + OfTier([x] + t, Medium) + OfTier([x] + t, Low)
  {
    OfTierCons(x, t, High);
    OfTierCons(x, t, Medium);
    OfTierCons(x, t, Low);
    assert [x] + t == ([x] + h) + m + l;
  }

  lemma ConsSplitMedium(x: Task, t: seq<Task>, m: seq<Task>, l: seq<Task>)
    requires x.priority == Medium
    requires OfTier(t, High) == [] && m == OfTier(t, Medium) && l == OfTier(t, Low) && t == m + l
    ensures [x] + t == OfTier([x] + t, High) + OfTier([x] + t, Medium) + OfTier([x] + t, Low)
  {
    OfTierCons(x, t, High);
    OfTierCons(x, t, Medium);
    OfTierCons(x, t, Low);
    assert [x] + t == ([x] + m) + l;
  }

  lemma ConsSplitLow(x: Task, t: seq<Task>)
    requires x.priority == Low
    requires OfTier(t, High) == [] && OfTier(t, Medium) == [] && t == OfTier(t, Low)
    ensures [x] + t == OfTier([x] + t, High) + OfTier([x] + t, Medium) + OfTier([x] + t, Low)
  {
    OfTierCons(x, t, High);
    OfTierCons(x, t, Medium);
    OfTierCons(x, t, Low);
  }

  lemma ConsSplit(x: Task, t: seq<Task>)
    requires t == OfTier(t, High) + OfTier(t, Medium) + OfTier(t, Low)
    requires x.priority != High ==> OfTier(t, High) == []
    requires x.priority == Low ==> OfTier(t, Medium) == []
    ensures [x] + t == OfTier([x] + t, High) + OfTier([x] + t, Medium) + OfTier([x] + t, Low)
  {
    var h, m, l := OfTier(t, High), OfTier(t, Medium), OfTier(t, Low);
    match x.priority
    case High => ConsSplitHigh(x, t, h, m, l);
    case Medium =>
      assert t == m + l;
      ConsSplitMedium(x, t, m, l);
    case Low =>
      assert t == l;
      ConsSplitLow(x, t);
  }

  lemma {:induction false} SortedSplitsByTier(s: seq<Task>)
    requires SortedBy(s, TaskWeight)
    ensures s == OfTier(s, High) + OfTier(s, Medium) + OfTier(s, Low)
  {
    if s != [] {
      var t := s[1..];
      SortedTail(s);
      SortedSplitsByTier(t);
      if s[0].priority != High { BelowHeadIsAbsent(s, High); }
      if s[0].priority == Low { BelowHeadIsAbsent(s, Medium); }
      ConsSplit(s[0], t);
      assert s == [s[0]] + t;
    }
  }

  /** The displayed list is every High task, then every Medium task, then every Low task, each in store order. */
  lemma DisplayOrderByTier(tasks: seq<Task>)
    ensures SortedTasks(tasks) == OfTier(tasks, High) + OfTier(tasks, Medium) + OfTier(tasks, Low)
  {
    var r := SortedTasks(tasks);
    assert SortedBy(r, TaskWeight);
    SortedSplitsByTier(r);
  }

  // ---------------------------------------------------------------------------
  // Rows of the display and positions in the store

  function Priorities(tasks: seq<Task>): (ps: seq<Priority>)
    ensures |ps| == |tasks|
  {
    seq(|tasks|, k requires 0 <= k < |tasks| => tasks[k].priority)
  }

  function Range(n: nat): (r: seq<nat>)
    ensures |r| == n && forall k :: 0 <= k < n ==> r[k] == k
  {
    if n == 0 then [] else Range(n - 1) + [n - 1]
  }

  /** The weight of the record at a store position. */
  function PositionWeight(ps: seq<Priority>): nat -> int
  {
    (k: nat) => if k < |ps| then Weight(ps[k]) else 0
  }

  /** The store position shown on each row: the same stable sort applied to the positions. */
  function RowIndices(tasks: seq<Task>): seq<nat>
  {
    SortDesc(Range(|tasks|), PositionWeight(Priorities(tasks)))
  }

  ghost predicate Bounded(idxs: seq<nat>, n: nat)
  {
    forall k :: k in idxs ==> k < n
  }

  function Pick(tasks: seq<Task>, idxs: seq<nat>): (r: seq<Task>)
    requires Bounded(idxs, |tasks|)
    ensures |r| == |idxs|
  {
    seq(|idxs|, j requires 0 <= j < |idxs| => assert idxs[j] in idxs; tasks[idxs[j]])
  }

  lemma PositionWeightAt(tasks: seq<Task>, k: nat)
    requires k < |tasks|
    ensures PositionWeight(Priorities(tasks))(k) == TaskWeight(tasks[k])
  {
  }

  lemma InsertBounded(k: nat, r: seq<nat>, w: nat -> int, n: nat)
    requires k < n && Bounded(r, n)
    ensures Bounded(Insert(k, r, w), n)
  {
    var out := Insert(k, r, w);
    assert multiset(out) == multiset(r) + multiset{k};
    forall j | j in out ensures j < n {
      assert j in multiset(out);
      if j != k {
        assert j in multiset(r);
        assert j in r;
      }
    }
  }

  lemma {:induction false} InsertPick(tasks: seq<Task>, k: nat, r: seq<nat>)
    requires k < |tasks| && Bounded(r, |tasks|)
    ensures Bounded(Insert(k, r, PositionWeight(Priorities(tasks))), |tasks|)
    ensures Insert(tasks[k], Pick(tasks, r), TaskWeight) == Pick(tasks, Insert(k, r, PositionWeight(Priorities(tasks))))
  {
    var pw := PositionWeight(Priorities(tasks));
    InsertBounded(k, r, pw, |tasks|);
    PositionWeightAt(tasks, k);
    if r != [] {
      assert r[0] in r;
      PositionWeightAt(tasks, r[0]);
      assert Pick(tasks, r)[0] == tasks[r[0]];
    }
    if r == [] || pw(k) >= pw(r[0]) {
      assert [tasks[k]] + Pick(tasks, r) == Pick(tasks, [k] + r);
    } else {
      assert Bounded(r[1..], |tasks|) by {
        forall j | j in r[1..] ensures j < |tasks| { assert j in r; }
      }
      InsertPick(tasks, k, r[1..]);
      assert Pick(tasks, r)[1..] == Pick(tasks, r[1..]);
      assert [tasks[r[0]]] + Pick(tasks, Insert(k, r[1..], pw)) == Pick(tasks, [r[0]] + Insert(k, r[1..], pw));
    }
  }

  lemma SortBounded(idxs: seq<nat>, w: nat -> int, n: nat)
    requires Bounded(idxs, n)
    ensures Bounded(SortDesc(idxs, w), n)
  {
    var sorted := SortDesc(idxs, w);
    forall j | j in sorted ensures j < n {
      assert j in multiset(sorted);
      assert j in idxs;
    }
  }

  lemma {:induction false} SortPick(tasks: seq<Task>, idxs: seq<nat>)
    requires Bounded(idxs, |tasks|)
    ensures Bounded(SortDesc(idxs, PositionWeight(Priorities(tasks))), |tasks|)
    ensures SortDesc(Pick(tasks, idxs), TaskWeight) == Pick(tasks, SortDesc(idxs, PositionWeight(Priorities(tasks))))
  {
    var pw := PositionWeight(Priorities(tasks));
    SortBounded(idxs, pw, |tasks|);
    if idxs != [] {
      assert Bounded(idxs[1..], |tasks|) by {
        forall j | j in idxs[1..] ensures j < |tasks| { assert j in idxs; }
      }
      SortPick(tasks, idxs[1..]);
      assert Pick(tasks, idxs)[1..] == Pick(tasks, idxs[1..]);
      assert idxs[0] in idxs;
      InsertPick(tasks, idxs[0], SortDesc(idxs[1..], pw));
    }
  }

  /** Row `j` of the display shows the store record at `RowIndices(tasks)[j]`, and no position is shown twice. */
  lemma RowsShowStore(tasks: seq<Task>)
    ensures Bounded(RowIndices(tasks), |tasks|)
    ensures SortedTasks(tasks) == Pick(tasks, RowIndices(tasks))
    ensures Distinct(RowIndices(tasks))
  {
    var all := Range(|tasks|);
    assert Bounded(all, |tasks|);
    assert Pick(tasks, all) == tasks;
    SortPick(tasks, all);
    SortDistinct(all, PositionWeight(Priorities(tasks)));
  }

  /** The store position of the record displayed on row `row`. */
  function StoreIndexOfRow(tasks: seq<Task>, row: nat): (k: nat)
    requires row < |tasks|
    ensures k < |tasks|
    ensures tasks[k] == SortedTasks(tasks)[row]
  {
    RowsShowStore(tasks);
    assert RowIndices(tasks)[row] in RowIndices(tasks);
    RowIndices(tasks)[row]
  }

  /** Different rows show different store records. */
  lemma StoreIndexOfRowInjective(tasks: seq<Task>, row1: nat, row2: nat)
    requires row1 < |tasks| && row2 < |tasks| && row1 != row2
    ensures StoreIndexOfRow(tasks, row1) != StoreIndexOfRow(tasks, row2)
  {
    RowsShowStore(tasks);
  }

  /** Replacing the record at a position shown once changes only the row that shows it. */
  lemma PickUpdate(tasks: seq<Task>, idxs: seq<nat>, j: nat, y: Task)
    requires Bounded(idxs, |tasks|) && Distinct(idxs) && j < |idxs|
    ensures idxs[j] in idxs
    ensures Pick(tasks[idxs[j] := y], idxs) == Pick(tasks, idxs)[j := y]
  {
    assert idxs[j] in idxs;
    var updated := tasks[idxs[j] := y];
    forall i | 0 <= i < |idxs| ensures Pick(updated, idxs)[i] == Pick(tasks, idxs)[j := y][i] {
      assert idxs[i] in idxs;
      if i != j { assert idxs[i] != idxs[j]; }
    }
  }

  /** Toggling the store record behind row `row` flips that row and no other; the order stays. */
  lemma ToggleAtRow(tasks: seq<Task>, row: nat)
    requires row < |tasks|
    ensures
      var shown := SortedTasks(tasks);
      SortedTasks(ToggleDone(tasks, StoreIndexOfRow(tasks, row)))
        == shown[row := shown[row].(done := !shown[row].done)]
  {
    var k := StoreIndexOfRow(tasks, row);
    var shown := SortedTasks(tasks);
    var after := ToggleDone(tasks, k);
    assert Priorities(after) == Priorities(tasks);
    assert RowIndices(after) == RowIndices(tasks);
    RowsShowStore(tasks);
    RowsShowStore(after);
    assert after == tasks[k := shown[row].(done := !shown[row].done)];
    PickUpdate(tasks, RowIndices(tasks), row, shown[row].(done := !shown[row].done));
  }

  /** Deleting the store record behind row `row` removes exactly the record that row shows. */
  lemma DeleteAtRow(tasks: seq<Task>, row: nat)
    requires row < |tasks|
    ensures
      var shown := SortedTasks(tasks);
      && |SortedTasks(DeleteTask(tasks, StoreIndexOfRow(tasks, row)))| == |shown| - 1
      && multiset(SortedTasks(DeleteTask(tasks, StoreIndexOfRow(tasks, row)))) + multiset{shown[row]}
           == multiset(shown)
  {
    var shown := SortedTasks(tasks);
    var k := StoreIndexOfRow(tasks, row);
    DeleteRemovesOne(tasks, k);
    var after := SortedTasks(DeleteTask(tasks, k));
    assert multiset(after) == multiset(DeleteTask(tasks, k));
    assert multiset(shown) == multiset(tasks);
  }

  lemma OfTierCons(x: Task, s: seq<Task>, p: Priority)
    ensures OfTier([x] + s, p) == (if x.priority == p then [x] else []) + OfTier(s, p)
  {
    assert ([x] + s)[0] == x && ([x] + s)[1..] == s;
  }

  /** A short task stored before a long one: the display shows the long one first. */
  lemma TwoTaskDisplay(short: Task, long: Task)
    requires short.priority == Low && long.priority == High
    ensures SortedTasks([short, long]) == [long, short]
  {
    var tasks := [short, long];
    assert tasks[1..] == [long] && [long][1..] == [];
    assert SortDesc([long], TaskWeight) == Insert(long, [], TaskWeight) == [long];
    assert Insert(short, [long], TaskWeight) == [long] + Insert(short, [], TaskWeight);
    assert SortDesc(tasks, TaskWeight) == [long, short];
  }

  /**
   * The list renders `sortedTasks` and hands each row's position `i` to
   * handlers that index the unsorted store. With a short (Low) task stored
   * before a long (High) one, row 0 shows the long task, but its toggle
   * button flips the short one, which row 1 shows.
   */
  lemma RowIndexMissesDisplayedTask(short: Task, long: Task)
    requires short.priority == Low && long.priority == High
    ensures
      var tasks := [short, long];
      var flipped := short.(done := !short.done);
      && SortedTasks(tasks)[0] == long
      && StoreIndexOfRow(tasks, 0) == 1
      && ToggleDone(tasks, 0) == [flipped, long]
      && SortedTasks(ToggleDone(tasks, 0)) == [long, flipped]
  {
    var tasks := [short, long];
    TwoTaskDisplay(short, long);
    var k := StoreIndexOfRow(tasks, 0);
    assert tasks[k] == long;
    assert short != long;
    var flipped := short.(done := !short.done);
    assert ToggleDone(tasks, 0) == [flipped, long];
    TwoTaskDisplay(flipped, long);
  }
}
