/**
 * The entities of the review store and the value-level definitions its
 * operations are specified by: the lookup of a tracked file by path, the
 * tombstoning of an item slot, and one pass of the queue build over the
 * item slots, with the properties of that pass.
 */
module Data {
  import opened Wrappers
  import opened Utils
  import opened ArrayExt
  import opened Algorithms
  import opened Leitner

  /** One schedulable item (`RepetitionItem`). `nextReview` 0 marks an item never queued. */
  datatype RepetitionItem = RepetitionItem(
    nextReview: Millis,
    fileIndex: int,
    timesReviewed: int,
    timesCorrect: int,
    errorStreak: int,
    data: LeitnerData)

  /** A tracked note and the item slots it owns, by item key (`TrackedFile`). */
  datatype TrackedFile = TrackedFile(path: string, items: map<string, int>)

  /** An item slot: a live item, or the tombstone `null`. */
  type Slot = Option<RepetitionItem>

  /** `NEW_ITEM` for the file at `fileIndex`, with the strategy's default data. */
  function NewItem(fileIndex: int): RepetitionItem
  {
    RepetitionItem(Finite(0), fileIndex, 0, 0, 0, DefaultData())
  }

  predicate IsNew(it: RepetitionItem)
  {
    it.nextReview == Finite(0)
  }

  /** Scheduled at or before `now`; a NaN time is never due. */
  predicate IsDue(it: RepetitionItem, now: int)
  {
    it.nextReview.Finite? && it.nextReview.ms <= now
  }

  /**
   * The item after a first-pass answer with outcome `o` at time `now`: the
   * strategy's new state, the next review `o`'s delay after `now`, one more
   * review, and either one more correct answer with the error streak cleared
   * or one more error in the streak.
   */
  function Answered(it: RepetitionItem, o: Outcome, now: int): (r: RepetitionItem)
    ensures r.data == o.data && r.fileIndex == it.fileIndex
    ensures r.nextReview == AddTime(now, o.result.nextReview)
    ensures r.timesReviewed == it.timesReviewed + 1
    ensures o.result.correct ==> r.timesCorrect == it.timesCorrect + 1 && r.errorStreak == 0
    ensures !o.result.correct ==> r.timesCorrect == it.timesCorrect && r.errorStreak == it.errorStreak + 1
  {
    RepetitionItem(
      AddTime(now, o.result.nextReview),
      it.fileIndex,
      it.timesReviewed + 1,
      if o.result.correct then it.timesCorrect + 1 else it.timesCorrect,
      if o.result.correct then 0 else it.errorStreak + 1,
      o.data)
  }

  /**
   * A timing the settings accept can still overflow a `Date`: a correct
   * answer on a one-stage ladder timed 100000001 days schedules the next
   * review at NaN, whatever the (non-negative) time of the answer.
   */
  lemma HugeTimingOverflowsDate(it: RepetitionItem, now: int)
    requires 0 <= now
    ensures Answered(it, Outcome(ReviewResult(true, Delay([100000001], 1)), LeitnerData(1)), now).nextReview == NaN
  {
  }

  /** The slot holds a tracked file with this path. */
  predicate TracksPath(slot: Option<TrackedFile>, path: string)
  {
    slot.Some? && slot.value.path == path
  }

  /** `findIndex` over the tracked files: the first live slot with this path, or -1. */
  function FindFile(files: seq<Option<TrackedFile>>, path: string): (r: int)
    ensures -1 <= r < |files|
    ensures r == -1 <==> forall i :: 0 <= i < |files| ==> !TracksPath(files[i], path)
    ensures r >= 0 ==> TracksPath(files[r], path) && forall i :: 0 <= i < r ==> !TracksPath(files[i], path)
  {
    if files == [] then -1
    else if TracksPath(files[0], path) then 0
    else
      var r := FindFile(files[1..], path);
      if r == -1 then -1 else r + 1
  }

  /** Adding a file with a path that was not tracked makes the new slot the one found. */
  lemma FindAppended(files: seq<Option<TrackedFile>>, tf: TrackedFile)
    requires FindFile(files, tf.path) == -1
    ensures FindFile(files + [Some(tf)], tf.path) == |files|
  {
    var fs := files + [Some(tf)];
    assert TracksPath(fs[|files|], tf.path);
    assert forall i :: 0 <= i < |files| ==> fs[i] == files[i];
  }

  /** Reading slot `i` of a JavaScript array: outside the array the value is `undefined`. */
  function Lookup(items: seq<Slot>, i: int): Slot
  {
    if 0 <= i < |items| then items[i] else None
  }

  /**
   * `items[i] = null` on a JavaScript array: inside the array the slot becomes
   * a tombstone; past the end the array grows and the gap reads as empty; a
   * negative index names no slot, so no element changes.
   */
  function Tombstone(items: seq<Slot>, i: int): (r: seq<Slot>)
    ensures i < 0 ==> r == items
    ensures 0 <= i < |items| ==> |r| == |items|
    ensures |items| <= i ==> |r| == i + 1
    ensures 0 <= i ==> r[i] == None
    ensures forall j :: 0 <= j < |items| && j != i ==> r[j] == items[j]
    ensures forall j :: |items| <= j < |r| ==> r[j] == None
  {
    if i < 0 then items
    else if i < |items| then items[i := None]
    else items + seq(i + 1 - |items|, _ => None)
  }

  /** The item slots a tracked file refers to under the given keys. */
  function SlotsOf(tf: TrackedFile, keys: set<string>): set<int>
  {
    set k | k in keys && k in tf.items :: tf.items[k]
  }

  /** Every item slot a tracked file refers to. */
  function Owned(tf: TrackedFile): set<int>
  {
    SlotsOf(tf, tf.items.Keys)
  }

  /** The item slots of the keys other than "file", which a refresh drops. */
  function Dropped(tf: TrackedFile): set<int>
  {
    SlotsOf(tf, tf.items.Keys - {"file"})
  }

  lemma SlotsOfAdd(tf: TrackedFile, keys: set<string>, k: string)
    requires k in tf.items
    ensures SlotsOf(tf, keys + {k}) == SlotsOf(tf, keys) + {tf.items[k]}
  {
  }

  /** The slots in `cleared` become tombstones; nothing else changes. */
  function Cleared(items: seq<Slot>, cleared: set<int>): (r: seq<Slot>)
    ensures |r| == |items|
    ensures forall j :: 0 <= j < |items| ==> r[j] == if j in cleared then None else items[j]
  {
    seq(|items|, j requires 0 <= j < |items| => if j in cleared then None else items[j])
  }

  lemma TombstoneCleared(items: seq<Slot>, cleared: set<int>, x: int)
    requires 0 <= x < |items|
    ensures Tombstone(Cleared(items, cleared), x) == Cleared(items, cleared + {x})
  {
  }

  lemma TombstoneTwice(items: seq<Slot>, x: int)
    ensures Tombstone(Tombstone(items, x), x) == Tombstone(items, x)
  {
  }

  // ---------------------------------------------------------------------
  // The queue build, one item slot at a time.

  /** What the build pass changes: the item slots, the queue and the daily count. */
  datatype ScanState = ScanState(items: seq<Slot>, queue: seq<int>, newAdded: int)

  /** No more new items may be admitted today. */
  predicate Capped(newAdded: int, maxNew: int)
  {
    maxNew != -1 && newAdded >= maxNew
  }

  /**
   * The build pass at slot `id`: a new item is admitted while the daily cap
   * allows (it becomes scheduled for `now`); an item that is due is appended
   * unless it is already queued; anything else is left alone.
   */
  function Admit(st: ScanState, id: int, now: int, maxNew: int): (r: ScanState)
    requires 0 <= id < |st.items|
    ensures |r.items| == |st.items|
    ensures forall j :: 0 <= j < |st.items| && j != id ==> r.items[j] == st.items[j]
    ensures r.queue == st.queue || r.queue == st.queue + [id]
    ensures r.newAdded == st.newAdded || r.newAdded == st.newAdded + 1
  {
    match st.items[id]
    case None => st
    case Some(it) =>
      if IsNew(it) then
        if maxNew == -1 || st.newAdded < maxNew then
          ScanState(st.items[id := Some(it.(nextReview := Finite(now)))], st.queue + [id], st.newAdded + 1)
        else st
      else if IsDue(it, now) then
        if Contains(st.queue, id) then st else st.(queue := st.queue + [id])
      else st
  }

  /** The build pass over slots `0 .. n-1`, in index order. */
  function Scan(st: ScanState, now: int, maxNew: int, n: int): (r: ScanState)
    requires 0 <= n <= |st.items|
    ensures |r.items| == |st.items|
    ensures forall j :: n <= j < |st.items| ==> r.items[j] == st.items[j]
    ensures |st.queue| <= |r.queue| && r.queue[..|st.queue|] == st.queue
    ensures r.newAdded >= st.newAdded
    decreases n
  {
    if n == 0 then st
    else Admit(Scan(st, now, maxNew, n - 1), n - 1, now, maxNew)
  }

  /**
   * The queue carries no duplicates, only slots that exist, and no slot that
   * holds a new item (admitting a new item assumes it is not queued yet).
   */
  ghost predicate QueueInvariant(items: seq<Slot>, queue: seq<int>)
  {
    && Distinct(queue)
    && InRange(queue, |items|)
    && (forall i :: 0 <= i < |queue| && items[queue[i]].Some? ==> !IsNew(items[queue[i]].value))
  }

  /** A build at a positive time keeps the queue invariant. */
  lemma {:induction false} ScanKeepsQueueInvariant(st: ScanState, now: int, maxNew: int, n: int)
    requires 0 <= n <= |st.items|
    requires QueueInvariant(st.items, st.queue)
    requires now != 0
    ensures var r := Scan(st, now, maxNew, n); QueueInvariant(r.items, r.queue)
  {
    if n > 0 {
      var p := Scan(st, now, maxNew, n - 1);
      ScanKeepsQueueInvariant(st, now, maxNew, n - 1);
      AdmitKeepsQueueInvariant(p, n - 1, now, maxNew);
      assert Scan(st, now, maxNew, n) == Admit(p, n - 1, now, maxNew);
    }
  }

  /** One step of the pass at a positive time keeps the queue invariant. */
  lemma AdmitKeepsQueueInvariant(st: ScanState, id: int, now: int, maxNew: int)
    requires 0 <= id < |st.items|
    requires QueueInvariant(st.items, st.queue)
    requires now != 0
    ensures var r := Admit(st, id, now, maxNew); QueueInvariant(r.items, r.queue)
  {
    var r := Admit(st, id, now, maxNew);
    if r.queue != st.queue {
      assert id !in st.queue;
      AppendDistinct(st.queue, id);
      assert r.items[id].Some? ==> !IsNew(r.items[id].value);
      forall i | 0 <= i < |r.queue| && r.items[r.queue[i]].Some?
        ensures !IsNew(r.items[r.queue[i]].value)
      {
        if i < |st.queue| {
          assert r.queue[i] == st.queue[i];
        }
      }
    }
  }

  /** Every slot below `n` has been dealt with: due items are queued, new ones are over the cap. */
  ghost predicate Settled(st: ScanState, now: int, maxNew: int, n: int)
    requires n <= |st.items|
  {
    forall id :: 0 <= id < n && st.items[id].Some? ==>
      && (IsNew(st.items[id].value) ==> Capped(st.newAdded, maxNew))
      && (!IsNew(st.items[id].value) && IsDue(st.items[id].value, now) ==> id in st.queue)
  }

  /** After the pass over slots `0 .. n-1` at a positive time, those slots are settled. */
  lemma {:induction false} ScanSettles(st: ScanState, now: int, maxNew: int, n: int)
    requires 0 <= n <= |st.items|
    requires now != 0
    ensures Settled(Scan(st, now, maxNew, n), now, maxNew, n)
  {
    if n > 0 {
      ScanSettles(st, now, maxNew, n - 1);
      var p := Scan(st, now, maxNew, n - 1);
      var r := Admit(p, n - 1, now, maxNew);
      assert r == Scan(st, now, maxNew, n);
      forall id | 0 <= id < n && r.items[id].Some?
        ensures IsNew(r.items[id].value) ==> Capped(r.newAdded, maxNew)
        ensures !IsNew(r.items[id].value) && IsDue(r.items[id].value, now) ==> id in r.queue
      {
        if id < n - 1 {
          assert r.items[id] == p.items[id];
          assert p.queue <= r.queue;
        }
      }
    }
  }

  /** On settled slots the pass changes nothing. */
  lemma {:induction false} ScanSettledIsIdentity(st: ScanState, now: int, maxNew: int, n: int, m: int)
    requires 0 <= m <= n <= |st.items|
    requires Settled(st, now, maxNew, n)
    ensures Scan(st, now, maxNew, m) == st
  {
    if m > 0 {
      ScanSettledIsIdentity(st, now, maxNew, n, m - 1);
      assert st.items[m - 1].Some? ==> IsNew(st.items[m - 1].value) ==> Capped(st.newAdded, maxNew);
    }
  }

  /**
   * A second pass at the same positive time, with the daily count kept,
   * changes neither the slots, nor the queue, nor the count.
   */
  lemma ScanIdempotent(st: ScanState, now: int, maxNew: int)
    requires now != 0
    ensures var r := Scan(st, now, maxNew, |st.items|);
      Scan(r, now, maxNew, |r.items|) == r
  {
    var r := Scan(st, now, maxNew, |st.items|);
    ScanSettles(st, now, maxNew, |st.items|);
    ScanSettledIsIdentity(r, now, maxNew, |r.items|, |r.items|);
  }

  /** The number of live new items among slots `0 .. n-1`. */
  function NewCount(items: seq<Slot>, n: int): (c: nat)
    requires 0 <= n <= |items|
    ensures c <= n
  {
    if n == 0 then 0
    else NewCount(items, n - 1) + (if items[n - 1].Some? && IsNew(items[n - 1].value) then 1 else 0)
  }

  /**
   * How many of `waiting` new items a pass admits when `added` were admitted
   * today already: all of them without a cap, otherwise as many as the cap
   * leaves room for.
   */
  function Admissions(waiting: nat, added: int, maxNew: int): nat
  {
    if maxNew == -1 then waiting
    else if maxNew - added <= 0 then 0
    else Min(waiting, maxNew - added)
  }

  /**
   * The daily cap: the pass admits exactly `Admissions` of the new items it
   * sees, so with a cap of N and a day's count of 0 it admits min(M, N) of M
   * new items.
   */
  lemma {:induction false} ScanAdmissions(st: ScanState, now: int, maxNew: int, n: int)
    requires 0 <= n <= |st.items|
    ensures Scan(st, now, maxNew, n).newAdded == st.newAdded + Admissions(NewCount(st.items, n), st.newAdded, maxNew)
  {
    if n > 0 {
      ScanAdmissions(st, now, maxNew, n - 1);
      var p := Scan(st, now, maxNew, n - 1);
      assert p.items[n - 1] == st.items[n - 1];
    }
  }

  /** Once the daily cap is reached, a pass leaves a waiting new item unqueued. */
  lemma {:induction false} CappedPassAdmitsNothing(st: ScanState, now: int, maxNew: int, n: int, id: int)
    requires 0 <= id < |st.items| && 0 <= n <= |st.items|
    requires st.items[id].Some? && IsNew(st.items[id].value) && id !in st.queue
    requires Capped(st.newAdded, maxNew)
    ensures var r := Scan(st, now, maxNew, n); r.items[id] == st.items[id] && id !in r.queue && r.newAdded == st.newAdded
  {
    if n > 0 {
      CappedPassAdmitsNothing(st, now, maxNew, n - 1, id);
    }
  }

  /**
   * An item whose review time is NaN is neither new nor due: a pass leaves
   * it where it is and never queues it.
   */
  lemma {:induction false} StrandedItemNeverQueued(st: ScanState, now: int, maxNew: int, n: int, id: int)
    requires 0 <= id < |st.items| && 0 <= n <= |st.items|
    requires st.items[id].Some? && st.items[id].value.nextReview == NaN && id !in st.queue
    ensures var r := Scan(st, now, maxNew, n); r.items[id] == st.items[id] && id !in r.queue
  {
    if n > 0 {
      StrandedItemNeverQueued(st, now, maxNew, n - 1, id);
    }
  }
}
