/**
 * `DataStore`: the review data of one vault, changed in place by tracking,
 * untracking, refreshing and renaming notes, by building the review queue and
 * by recording answers.
 *
 * Item and file slots are never reused: removing writes a tombstone and the
 * arrays never shrink, so an index names the same item for the life of the
 * store. The wall clock, the vault's answer to "does this file still exist"
 * and the calendar day of an instant are parameters.
 */
module Store {
  import opened Wrappers
  import opened Utils
  import opened ArrayExt
  import opened Leitner
  import opened Data

  /** The counts `updateItems` and `trackFile` report. */
  datatype Counts = Counts(added: int, removed: int)

  /** Every item slot a live tracked file names lies in an array of length `n`. */
  ghost predicate FilesInRange(files: seq<Option<TrackedFile>>, n: int)
  {
    forall f, k :: 0 <= f < |files| && files[f].Some? && k in files[f].value.items ==>
      0 <= files[f].value.items[k] < n
  }

  lemma InRangeKept(s: seq<int>, s2: seq<int>, n: int, n2: int)
    requires InRange(s, n) && n <= n2
    requires forall x :: x in s2 ==> x in s
    ensures InRange(s2, n2)
  {
    forall i | 0 <= i < |s2|
      ensures 0 <= s2[i] < n2
    {
      assert s2[i] in s2;
      var j :| 0 <= j < |s| && s[j] == s2[i];
    }
  }

  /**
   * The queue invariant survives dropping queue entries, growing the array,
   * and changing slots only to tombstones or outside the queue.
   */
  lemma QueueInvariantKept(items: seq<Slot>, queue: seq<int>, items2: seq<Slot>, queue2: seq<int>)
    requires QueueInvariant(items, queue)
    requires Distinct(queue2) && forall x :: x in queue2 ==> x in queue
    requires |items| <= |items2|
    requires forall j :: 0 <= j < |items| && j in queue2 && items2[j].Some? ==> items2[j] == items[j]
    ensures QueueInvariant(items2, queue2)
  {
    forall i | 0 <= i < |queue2|
      ensures 0 <= queue2[i] < |items2|
      ensures items2[queue2[i]].Some? ==> !IsNew(items2[queue2[i]].value)
    {
      var x := queue2[i];
      assert x in queue;
      var j :| 0 <= j < |queue| && queue[j] == x;
    }
  }

  /** One step of a loop over the keys of a record that skips "file". */
  lemma KeyStep(all: set<string>, keys: set<string>, done: set<string>, gone: set<string>, key: string)
    requires keys + done == all && keys !! done && gone == done - {"file"} && key in keys
    ensures (keys - {key}) + (done + {key}) == all && (keys - {key}) !! (done + {key})
    ensures key != "file" ==> gone + {key} == (done + {key}) - {"file"} && |gone + {key}| == |gone| + 1
    ensures key == "file" ==> gone == (done + {key}) - {"file"}
  {
  }

  /**
   * Dropping slots from both queues and writing a tombstone (possibly past
   * the end of the array) keeps the queue invariant and the retry queue's range.
   */
  lemma TombstoneKeepsValid(items: seq<Slot>, queue: seq<int>, repeatQueue: seq<int>, ind: int,
                            items2: seq<Slot>, queue2: seq<int>, repeatQueue2: seq<int>)
    requires QueueInvariant(items, queue) && InRange(repeatQueue, |items|)
    requires items2 == items || items2 == Tombstone(items, ind)
    requires Distinct(queue2) && forall x :: x in queue2 ==> x in queue
    requires forall x :: x in repeatQueue2 ==> x in repeatQueue
    ensures QueueInvariant(items2, queue2) && InRange(repeatQueue2, |items2|)
  {
    QueueInvariantKept(items, queue, items2, queue2);
    InRangeKept(repeatQueue, repeatQueue2, |items|, |items2|);
  }

  /**
   * Replacing the answered item and removing it from the queue keeps the
   * queue invariant; the retry queue may gain the answered item.
   */
  lemma AnswerKeepsValid(items: seq<Slot>, queue: seq<int>, repeatQueue: seq<int>, id: int, it: RepetitionItem,
                         repeatQueue2: seq<int>)
    requires QueueInvariant(items, queue) && InRange(repeatQueue, |items|) && 0 <= id < |items|
    requires forall x :: x in repeatQueue2 ==> x in repeatQueue || x == id
    ensures QueueInvariant(items[id := Some(it)], Remove(queue, id))
    ensures InRange(repeatQueue2, |items|)
  {
    RemoveDistinct(queue, id);
    QueueInvariantKept(items, queue, items[id := Some(it)], Remove(queue, id));
    InRangeKept(repeatQueue + [id], repeatQueue2, |items|, |items|);
  }

  /**
   * Removing `x` from a filtered queue when it is there filters `x` out as
   * well, and keeps the queue free of duplicates.
   */
  lemma RemoveIfPresent(q: seq<int>, q0: seq<int>, slots: set<int>, x: int)
    requires q == Without(q0, slots) && Distinct(q)
    ensures var q' := if x in q then Remove(q, x) else q;
      q' == Without(q0, slots + {x}) && Distinct(q')
  {
    if x in q {
      RemoveDistinct(q, x);
    } else {
      WithoutAbsent(q, {x});
    }
    WithoutWithout(q0, slots, {x});
  }

  /** The invariant of a store's state; see `DataStore.Valid`. */
  ghost predicate StoreValid(items: seq<Slot>, trackedFiles: seq<Option<TrackedFile>>, queue: seq<int>, repeatQueue: seq<int>)
  {
    && QueueInvariant(items, queue)
    && Distinct(repeatQueue) && InRange(repeatQueue, |items|)
    && FilesInRange(trackedFiles, |items|)
  }

  /** The state a first-pass answer leaves behind keeps the invariant. */
  lemma FirstPassKeepsValid(items: seq<Slot>, trackedFiles: seq<Option<TrackedFile>>, queue: seq<int>, repeatQueue: seq<int>,
                            id: int, it: RepetitionItem, retry: bool)
    requires StoreValid(items, trackedFiles, queue, repeatQueue)
    requires 0 <= id < |items| && id !in repeatQueue
    ensures StoreValid(items[id := Some(it)], trackedFiles, Remove(queue, id),
                       repeatQueue + (if retry then [id] else []))
    ensures id !in Remove(queue, id)
  {
    var rq := repeatQueue + (if retry then [id] else []);
    AnswerKeepsValid(items, queue, repeatQueue, id, it, rq);
    RemoveDistinct(queue, id);
    if retry {
      AppendDistinct(repeatQueue, id);
    }
  }

  class DataStore {
    var items: seq<Slot>
    var trackedFiles: seq<Option<TrackedFile>>
    var queue: seq<int>
    var repeatQueue: seq<int>
    var lastQueue: int
    var newAdded: int

    /**
     * What the operations keep: both queues free of duplicates and made of
     * existing slots, no queued slot holding a new item, and every slot a
     * tracked file names inside the item array.
     */
    ghost predicate Valid()
      reads this
    {
      StoreValid(items, trackedFiles, queue, repeatQueue)
    }

    /** A store holding `DEFAULT_SRS_DATA`: nothing tracked, nothing queued. */
    constructor ()
      ensures Valid()
      ensures items == [] && trackedFiles == [] && queue == [] && repeatQueue == []
      ensures lastQueue == 0 && newAdded == 0
    {
      items, trackedFiles, queue, repeatQueue := [], [], [], [];
      lastQueue, newAdded := 0, 0;
    }

    /** `getFileIndex`: the first tracked file with this path, or -1. */
    function GetFileIndex(path: string): int
      reads this
    {
      FindFile(trackedFiles, path)
    }

    /** `isTracked`: some live file slot carries this path. */
    predicate IsTracked(path: string): (r: bool)
      reads this
      ensures r <==> exists i :: 0 <= i < |trackedFiles| && TracksPath(trackedFiles[i], path)
    {
      GetFileIndex(path) >= 0
    }

    /** `isQueued`. */
    predicate IsQueued(id: int): (r: bool)
      reads this
      ensures r <==> exists i :: 0 <= i < |queue| && queue[i] == id
    {
      Contains(queue, id)
    }

    /** `isInRepeatQueue`. */
    predicate IsInRepeatQueue(id: int): (r: bool)
      reads this
      ensures r <==> exists i :: 0 <= i < |repeatQueue| && repeatQueue[i] == id
    {
      Contains(repeatQueue, id)
    }

    /**
     * `getNextId`: first-pass reviews come before retries; nothing when both
     * queues are empty.
     */
    function GetNextId(): (r: Option<int>)
      reads this
      ensures r.None? <==> queue == [] && repeatQueue == []
      ensures queue != [] ==> r == Some(queue[0])
      ensures queue == [] && repeatQueue != [] ==> r == Some(repeatQueue[0])
      ensures Valid() && r.Some? ==> 0 <= r.value < |items|
    {
      if |queue| > 0 then Some(queue[0])
      else if |repeatQueue| > 0 then Some(repeatQueue[0])
      else None
    }

    /**
     * `getItemsOfFile`: the slot of every item key of the file, one entry per
     * key (empty where the slot is a tombstone or outside the array). `keys`
     * lists the file's item keys, each once, in the order of the entries.
     */
    method GetItemsOfFile(path: string) returns (r: seq<Slot>, ghost keys: seq<string>)
      requires IsTracked(path)
      ensures var tf := trackedFiles[GetFileIndex(path)].value;
        && |keys| == |r|
        && (forall i, j :: 0 <= i < j < |keys| ==> keys[i] != keys[j])
        && (forall k :: k in keys <==> k in tf.items)
        && (forall i :: 0 <= i < |r| ==> keys[i] in tf.items && r[i] == Lookup(items, tf.items[keys[i]]))
    {
      var tf := trackedFiles[GetFileIndex(path)].value;
      var todo := tf.items.Keys;
      r, keys := [], [];
      while todo != {}
        invariant todo <= tf.items.Keys
        invariant |keys| == |r|
        invariant forall i, j :: 0 <= i < j < |keys| ==> keys[i] != keys[j]
        invariant forall k :: k in keys <==> k in tf.items && k !in todo
        invariant forall i :: 0 <= i < |r| ==> keys[i] in tf.items && r[i] == Lookup(items, tf.items[keys[i]])
        decreases todo
      {
        var k :| k in todo;
        r, keys := r + [Lookup(items, tf.items[k])], keys + [k];
        todo := todo - {k};
      }
    }

    /**
     * `reviewId`: records one answer for item `itemId`. On a tombstone (or an
     * index outside the array) nothing happens and `found` is false. An item
     * in the retry queue is judged as a retry pass (`ReviewRetry`); any other
     * item as a first pass (`ReviewFirstPass`).
     */
    method ReviewId(itemId: int, option: string, alg: LeitnerAlgorithm, repeatItems: bool, now: int)
      returns (found: bool)
      requires Valid() && WellTyped(alg.settings)
      modifies this
      ensures Valid()
      ensures found <==> old(Lookup(items, itemId)).Some?
      ensures trackedFiles == old(trackedFiles) && lastQueue == old(lastQueue) && newAdded == old(newAdded)
      ensures !found ==> items == old(items) && queue == old(queue) && repeatQueue == old(repeatQueue)
      ensures found && old(itemId in repeatQueue) ==>
        && items == old(items) && queue == old(queue)
        && repeatQueue == Remove(old(repeatQueue), itemId) + (if option == "Correct" then [] else [itemId])
      ensures found && old(itemId !in repeatQueue) ==>
        var it := old(items[itemId]).value;
        var o := old(alg.OnSelection(it.data, option, false));
        && items == old(items)[itemId := Some(Answered(it, o, now))]
        && queue == Remove(old(queue), itemId)
        && repeatQueue == old(repeatQueue) + (if !o.result.correct && repeatItems then [itemId] else [])
    {
      if !(0 <= itemId < |items|) || items[itemId].None? {
        return false;
      }
      found := true;
      if IsInRepeatQueue(itemId) {
        ReviewRetry(itemId, option, alg);
      } else {
        ReviewFirstPass(itemId, option, alg, repeatItems, now);
      }
    }

    /**
     * The retry branch of `reviewId`: the strategy judges the answer without
     * moving the item; the item leaves the retry queue and, unless the answer
     * was correct, goes back to its end. Nothing else changes.
     */
    method ReviewRetry(itemId: int, option: string, alg: LeitnerAlgorithm)
      requires Valid() && WellTyped(alg.settings)
      requires 0 <= itemId < |items| && items[itemId].Some? && itemId in repeatQueue
      modifies this
      ensures Valid()
      ensures items == old(items) && queue == old(queue) && trackedFiles == old(trackedFiles)
      ensures lastQueue == old(lastQueue) && newAdded == old(newAdded)
      ensures repeatQueue == Remove(old(repeatQueue), itemId) + (if option == "Correct" then [] else [itemId])
      ensures itemId in repeatQueue <==> option != "Correct"
    {
      var item := items[itemId].value;
      var o := alg.OnSelection(item.data, option, true);
      item := item.(data := o.data);
      items := items[itemId := Some(item)];
      RemoveDistinct(repeatQueue, itemId);
      repeatQueue := Remove(repeatQueue, itemId);
      if !o.result.correct {
        AppendDistinct(repeatQueue, itemId);
        repeatQueue := repeatQueue + [itemId];
      }
      InRangeKept(old(repeatQueue), repeatQueue, |items|, |items|);
    }

    /**
     * The first-pass branch of `reviewId`: the item is answered (`Answered`)
     * and leaves the review queue; on a wrong answer it joins the retry queue
     * when `repeatItems` is on.
     */
    method ReviewFirstPass(itemId: int, option: string, alg: LeitnerAlgorithm, repeatItems: bool, now: int)
      requires Valid() && WellTyped(alg.settings)
      requires 0 <= itemId < |items| && items[itemId].Some? && itemId !in repeatQueue
      modifies this
      ensures Valid()
      ensures var it := old(items[itemId]).value;
        var o := old(alg.OnSelection(it.data, option, false));
        && items == old(items)[itemId := Some(Answered(it, o, now))]
        && queue == Remove(old(queue), itemId) && itemId !in queue
        && repeatQueue == old(repeatQueue) + (if !o.result.correct && repeatItems then [itemId] else [])
      ensures trackedFiles == old(trackedFiles) && lastQueue == old(lastQueue) && newAdded == old(newAdded)
    {
      var item := items[itemId].value;
      var o := alg.OnSelection(item.data, option, false);
      item := Answered(item, o, now);
      var retry := !o.result.correct && repeatItems;
      FirstPassKeepsValid(items, trackedFiles, queue, repeatQueue, itemId, item, retry);
      items, queue, repeatQueue := items[itemId := Some(item)], Remove(queue, itemId), repeatQueue + (if retry then [itemId] else []);
    }

    /**
     * `trackFile`: adds a file slot for `path` and refreshes its items, which
     * gives a new file one "file" item (when the vault still has the file).
     * Callers check first that the path is not tracked.
     */
    method TrackFile(path: string, fileExists: bool) returns (counts: Option<Counts>)
      requires Valid() && !IsTracked(path)
      modifies this
      ensures Valid()
      ensures fileExists ==>
        && counts == Some(Counts(1, 0))
        && trackedFiles == old(trackedFiles) + [Some(TrackedFile(path, map["file" := |old(items)|]))]
        && items == old(items) + [Some(NewItem(|old(trackedFiles)|))]
      ensures !fileExists ==>
        && counts == None
        && trackedFiles == old(trackedFiles) + [Some(TrackedFile(path, map[]))]
        && items == old(items)
      ensures queue == old(queue) && repeatQueue == old(repeatQueue)
      ensures lastQueue == old(lastQueue) && newAdded == old(newAdded)
    {
      var tf := TrackedFile(path, map[]);
      FindAppended(trackedFiles, tf);
      trackedFiles := trackedFiles + [Some(tf)];
      assert Valid() by {
        assert FilesInRange(trackedFiles, |items|);
      }
      assert GetFileIndex(path) == |old(trackedFiles)|;
      assert Dropped(tf) == {} && tf.items.Keys - {"file"} == {};
      WithoutAbsent(queue, {});
      WithoutAbsent(repeatQueue, {});
      counts := UpdateItems(path, fileExists);
    }

    /**
     * Both queues are what remains of `q0` and `r0` once the slots in
     * `slots` are removed, and neither holds a duplicate.
     */
    ghost predicate QueuesWithout(q0: seq<int>, r0: seq<int>, slots: set<int>)
      reads this
    {
      && queue == Without(q0, slots) && Distinct(queue)
      && repeatQueue == Without(r0, slots) && Distinct(repeatQueue)
    }

    /**
     * The step `untrackFile` and `updateItems` share for each dropped item:
     * `remove` it from the review queue if `isQueued`, and from the retry
     * queue if `isInRepeatQueue`. Removed so far: `slots`; now also `ind`.
     */
    method DropFromQueues(ind: int, ghost q0: seq<int>, ghost r0: seq<int>, ghost slots: set<int>)
      requires QueuesWithout(q0, r0, slots)
      modifies this
      ensures QueuesWithout(q0, r0, slots + {ind})
      ensures items == old(items) && trackedFiles == old(trackedFiles)
      ensures lastQueue == old(lastQueue) && newAdded == old(newAdded)
    {
      Unqueue(ind, q0, slots);
      Unretry(ind, r0, slots);
    }

    /** `if (this.isQueued(ind)) this.data.queue.remove(ind)`. */
    method Unqueue(ind: int, ghost q0: seq<int>, ghost slots: set<int>)
      requires queue == Without(q0, slots) && Distinct(queue)
      modifies this
      ensures queue == Without(q0, slots + {ind}) && Distinct(queue)
      ensures items == old(items) && trackedFiles == old(trackedFiles) && repeatQueue == old(repeatQueue)
      ensures lastQueue == old(lastQueue) && newAdded == old(newAdded)
    {
      RemoveIfPresent(queue, q0, slots, ind);
      if IsQueued(ind) {
        queue := Remove(queue, ind);
      }
    }

    /** `if (this.isInRepeatQueue(ind)) this.data.repeatQueue.remove(ind)`. */
    method Unretry(ind: int, ghost r0: seq<int>, ghost slots: set<int>)
      requires repeatQueue == Without(r0, slots) && Distinct(repeatQueue)
      modifies this
      ensures repeatQueue == Without(r0, slots + {ind}) && Distinct(repeatQueue)
      ensures items == old(items) && trackedFiles == old(trackedFiles) && queue == old(queue)
      ensures lastQueue == old(lastQueue) && newAdded == old(newAdded)
    {
      RemoveIfPresent(repeatQueue, r0, slots, ind);
      if IsInRepeatQueue(ind) {
        repeatQueue := Remove(repeatQueue, ind);
      }
    }

    /**
     * `untrackFile`: for a tracked path, every item the file names leaves both
     * queues and becomes a tombstone, and so does the file slot. An untracked
     * path changes nothing.
     */
    method UntrackFile(path: string)
      requires Valid()
      modifies this
      ensures Valid()
      ensures old(GetFileIndex(path)) == -1 ==>
        items == old(items) && trackedFiles == old(trackedFiles) && queue == old(queue) && repeatQueue == old(repeatQueue)
      ensures old(GetFileIndex(path)) >= 0 ==>
        var tf := old(trackedFiles[GetFileIndex(path)].value);
        && queue == Without(old(queue), Owned(tf))
        && repeatQueue == Without(old(repeatQueue), Owned(tf))
        && items == Cleared(old(items), Owned(tf))
        && trackedFiles == old(trackedFiles)[old(GetFileIndex(path)) := None]
      ensures lastQueue == old(lastQueue) && newAdded == old(newAdded)
    {
      var index := GetFileIndex(path);
      if index == -1 {
        return;
      }
      var tf := trackedFiles[index].value;
      var keys := tf.items.Keys;
      ghost var done: set<string> := {};
      ghost var q0, r0, i0 := queue, repeatQueue, items;
      WithoutAbsent(q0, {});
      WithoutAbsent(r0, {});
      assert Cleared(i0, {}) == i0;
      assert SlotsOf(tf, done) == {};
      while keys != {}
        invariant keys + done == tf.items.Keys && keys !! done
        invariant QueuesWithout(q0, r0, SlotsOf(tf, done))
        invariant items == Cleared(i0, SlotsOf(tf, done))
        invariant trackedFiles == old(trackedFiles)
        invariant lastQueue == old(lastQueue) && newAdded == old(newAdded)
        decreases keys
      {
        var key :| key in keys;
        var ind := tf.items[key];
        SlotsOfAdd(tf, done, key);
        DropFromQueues(ind, q0, r0, SlotsOf(tf, done));
        assert 0 <= ind < |i0|;
        TombstoneCleared(i0, SlotsOf(tf, done), ind);
        items := Tombstone(items, ind);
        keys := keys - {key};
        done := done + {key};
      }
      assert done == tf.items.Keys;
      trackedFiles := trackedFiles[index := None];
      assert QueueInvariant(items, queue) by {
        QueueInvariantKept(i0, q0, items, queue);
      }
      assert InRange(repeatQueue, |items|) by {
        InRangeKept(r0, repeatQueue, |i0|, |items|);
      }
      assert FilesInRange(trackedFiles, |items|) by {
        assert |items| == |i0|;
      }
    }

    /**
     * `updateItems`: refreshes the items of a tracked file whose note still
     * exists. The "file" item is kept, or created (and counted as added) when
     * missing; every other key is dropped: its slot leaves both queues and is
     * counted as removed, but the tombstone is written at the FILE's index
     * (data.ts:371), not at the dropped item's. The file then names only its
     * "file" item. An untracked path or a vanished note changes nothing.
     */
    method UpdateItems(path: string, fileExists: bool) returns (counts: Option<Counts>)
      requires Valid()
      modifies this
      ensures Valid()
      ensures old(GetFileIndex(path)) == -1 || !fileExists ==>
        && counts == None
        && items == old(items) && trackedFiles == old(trackedFiles) && queue == old(queue) && repeatQueue == old(repeatQueue)
      ensures old(GetFileIndex(path)) >= 0 && fileExists ==>
        var ind := old(GetFileIndex(path));
        var tf := old(trackedFiles[ind].value);
        var kept := "file" in tf.items;
        var grown := if kept then old(items) else old(items) + [Some(NewItem(ind))];
        var fileItem := if kept then tf.items["file"] else |old(items)|;
        && counts == Some(Counts(if kept then 0 else 1, |tf.items.Keys - {"file"}|))
        && trackedFiles == old(trackedFiles)[ind := Some(TrackedFile(tf.path, map["file" := fileItem]))]
        && items == (if tf.items.Keys - {"file"} == {} then grown else Tombstone(grown, ind))
        && queue == Without(old(queue), Dropped(tf))
        && repeatQueue == Without(old(repeatQueue), Dropped(tf))
      ensures lastQueue == old(lastQueue) && newAdded == old(newAdded)
    {
      var ind := GetFileIndex(path);
      if ind == -1 {
        return None;
      }
      var tf := trackedFiles[ind].value;
      if !fileExists {
        return None;
      }
      var newItems, added := AddFileItem(ind, tf);
      ghost var grown := items;
      var removed := DropOtherKeys(ind, tf, newItems);
      assert QueueInvariant(items, queue) && InRange(repeatQueue, |items|) by {
        TombstoneKeepsValid(grown, old(queue), old(repeatQueue), ind, items, queue, repeatQueue);
      }
      assert |grown| <= |items|;
      trackedFiles := trackedFiles[ind := Some(tf.(items := newItems))];
      counts := Some(Counts(added, removed));
    }

    /**
     * The start of `updateItems`: the refreshed file keeps its "file" item,
     * or gets a new one appended to the item array (counted as added).
     */
    method AddFileItem(ind: int, tf: TrackedFile) returns (newItems: map<string, int>, added: int)
      requires Valid()
      modifies this
      ensures Valid()
      ensures "file" in tf.items ==> items == old(items) && newItems == map["file" := tf.items["file"]] && added == 0
      ensures "file" !in tf.items ==>
        items == old(items) + [Some(NewItem(ind))] && newItems == map["file" := |old(items)|] && added == 1
      ensures queue == old(queue) && repeatQueue == old(repeatQueue) && trackedFiles == old(trackedFiles)
      ensures lastQueue == old(lastQueue) && newAdded == old(newAdded)
    {
      added := 0;
      if "file" in tf.items {
        newItems := map["file" := tf.items["file"]];
      } else {
        items := items + [Some(NewItem(ind))];
        newItems := map["file" := |items| - 1];
        added := added + 1;
        assert QueueInvariant(items, queue) by {
          QueueInvariantKept(old(items), queue, items, queue);
        }
        InRangeKept(repeatQueue, repeatQueue, |old(items)|, |items|);
      }
    }

    /**
     * The loop of `updateItems`: each key of `tf` missing from `newItems`
     * (every key but "file") is dropped from both queues, writes a tombstone
     * at the file index `ind`, and is counted.
     */
    method DropOtherKeys(ind: int, tf: TrackedFile, newItems: map<string, int>) returns (removed: int)
      requires Distinct(queue) && Distinct(repeatQueue)
      requires newItems.Keys == {"file"}
      modifies this
      ensures removed == |tf.items.Keys - {"file"}|
      ensures queue == Without(old(queue), Dropped(tf)) && Distinct(queue)
      ensures repeatQueue == Without(old(repeatQueue), Dropped(tf)) && Distinct(repeatQueue)
      ensures items == if tf.items.Keys - {"file"} == {} then old(items) else Tombstone(old(items), ind)
      ensures trackedFiles == old(trackedFiles) && lastQueue == old(lastQueue) && newAdded == old(newAdded)
    {
      removed := 0;
      var keys := tf.items.Keys;
      ghost var done: set<string> := {};
      ghost var gone: set<string> := {};
      assert QueuesWithout(queue, repeatQueue, SlotsOf(tf, gone)) by {
        WithoutAbsent(queue, {});
        WithoutAbsent(repeatQueue, {});
        assert SlotsOf(tf, gone) == {};
      }
      while keys != {}
        invariant DropLoop(tf, ind, old(queue), old(repeatQueue), old(items), keys, done, gone, removed)
        invariant trackedFiles == old(trackedFiles)
        invariant lastQueue == old(lastQueue) && newAdded == old(newAdded)
        decreases keys
      {
        var key :| key in keys;
        gone, removed := DropStep(tf, ind, newItems, key, old(queue), old(repeatQueue), old(items), keys, done, gone, removed);
        keys := keys - {key};
        done := done + {key};
      }
    }

    /** The state of the loop in `DropOtherKeys` once the keys in `done` are visited. */
    ghost predicate DropLoop(tf: TrackedFile, ind: int, q0: seq<int>, r0: seq<int>, i0: seq<Slot>,
                             keys: set<string>, done: set<string>, gone: set<string>, removed: int)
      reads this
    {
      && keys + done == tf.items.Keys && keys !! done
      && gone == done - {"file"}
      && QueuesWithout(q0, r0, SlotsOf(tf, gone))
      && removed == |gone|
      && items == if gone == {} then i0 else Tombstone(i0, ind)
    }

    /** One pass of the loop in `DropOtherKeys`: a key other than "file" is dropped and counted. */
    method DropStep(tf: TrackedFile, ind: int, newItems: map<string, int>, key: string,
                    ghost q0: seq<int>, ghost r0: seq<int>, ghost i0: seq<Slot>,
                    ghost keys: set<string>, ghost done: set<string>, ghost gone: set<string>, removed: int)
      returns (ghost gone': set<string>, removed': int)
      requires newItems.Keys == {"file"}
      requires key in keys && DropLoop(tf, ind, q0, r0, i0, keys, done, gone, removed)
      modifies this
      ensures DropLoop(tf, ind, q0, r0, i0, keys - {key}, done + {key}, gone', removed')
      ensures trackedFiles == old(trackedFiles) && lastQueue == old(lastQueue) && newAdded == old(newAdded)
    {
      KeyStep(tf.items.Keys, keys, done, gone, key);
      gone', removed' := gone, removed;
      if key !in newItems {
        DropKey(tf, key, ind, q0, r0, gone, i0);
        removed' := removed + 1;
        gone' := gone + {key};
      }
    }

    /**
     * One dropped key of `updateItems`: its slot leaves both queues, and the
     * tombstone is written at `ind`.
     */
    method DropKey(tf: TrackedFile, key: string, ind: int,
                   ghost q0: seq<int>, ghost r0: seq<int>, ghost gone: set<string>, ghost i0: seq<Slot>)
      requires key in tf.items
      requires QueuesWithout(q0, r0, SlotsOf(tf, gone))
      requires items == i0 || items == Tombstone(i0, ind)
      modifies this
      ensures QueuesWithout(q0, r0, SlotsOf(tf, gone + {key}))
      ensures items == Tombstone(i0, ind)
      ensures trackedFiles == old(trackedFiles) && lastQueue == old(lastQueue) && newAdded == old(newAdded)
    {
      var itemInd := tf.items[key];
      DropFromQueues(itemInd, q0, r0, SlotsOf(tf, gone));
      SlotsOfAdd(tf, gone, key);
      TombstoneTwice(i0, ind);
      items := Tombstone(items, ind);
    }

    /**
     * `renameTrackedFile`: the tracked file found under `oldPath` takes the
     * new path; nothing else changes, and nothing at all when `oldPath` is
     * not tracked.
     */
    method RenameTrackedFile(oldPath: string, newPath: string)
      requires Valid()
      modifies this
      ensures Valid()
      ensures old(GetFileIndex(oldPath)) == -1 ==> trackedFiles == old(trackedFiles)
      ensures old(GetFileIndex(oldPath)) >= 0 ==>
        trackedFiles == old(trackedFiles)[old(GetFileIndex(oldPath)) := Some(old(trackedFiles[GetFileIndex(oldPath)].value).(path := newPath))]
      ensures items == old(items) && queue == old(queue) && repeatQueue == old(repeatQueue)
      ensures lastQueue == old(lastQueue) && newAdded == old(newAdded)
    {
      var index := GetFileIndex(oldPath);
      if index == -1 {
        return;
      }
      var fileData := trackedFiles[index].value;
      fileData := fileData.(path := newPath);
      trackedFiles := trackedFiles[index := Some(fileData)];
    }

    /**
     * `buildQueue` at time `now` (a wall-clock reading, so positive), with
     * the daily cap `maxNew` (-1 for none) and `dayOf` giving the day of the
     * month of an instant. A new day resets the daily count; then every slot,
     * in index order, goes through the pass `Admit`. The retry queue is not
     * touched, so an item may sit in both queues.
     */
    method BuildQueue(now: int, maxNew: int, dayOf: int -> int)
      requires Valid() && now > 0
      modifies this
      ensures Valid()
      ensures var start := ScanState(old(items), old(queue), if dayOf(now) != dayOf(old(lastQueue)) then 0 else old(newAdded));
        && ScanState(items, queue, newAdded) == Scan(start, now, maxNew, |old(items)|)
        && newAdded == start.newAdded + Admissions(NewCount(old(items), |old(items)|), start.newAdded, maxNew)
      ensures Settled(ScanState(items, queue, newAdded), now, maxNew, |items|)
      ensures lastQueue == now
      ensures trackedFiles == old(trackedFiles) && repeatQueue == old(repeatQueue)
    {
      if dayOf(now) != dayOf(lastQueue) {
        newAdded := 0;
      }
      ghost var start := ScanState(items, queue, newAdded);
      var id := 0;
      while id < |items|
        invariant 0 <= id <= |items| == |start.items|
        invariant ScanState(items, queue, newAdded) == Scan(start, now, maxNew, id)
        invariant trackedFiles == old(trackedFiles) && repeatQueue == old(repeatQueue)
      {
        VisitSlot(id, now, maxNew);
        id := id + 1;
      }
      lastQueue := now;
      assert QueueInvariant(items, queue) by {
        ScanKeepsQueueInvariant(start, now, maxNew, |start.items|);
      }
      ScanAdmissions(start, now, maxNew, |start.items|);
      ScanSettles(start, now, maxNew, |start.items|);
    }

    /**
     * The callback `buildQueue` runs on slot `id`: the step `Admit` of the
     * pass, on the store's own fields.
     */
    method VisitSlot(id: int, now: int, maxNew: int)
      requires 0 <= id < |items|
      modifies this
      ensures ScanState(items, queue, newAdded) == Admit(old(ScanState(items, queue, newAdded)), id, now, maxNew)
      ensures trackedFiles == old(trackedFiles) && repeatQueue == old(repeatQueue) && lastQueue == old(lastQueue)
    {
      if items[id].Some? {
        var item := items[id].value;
        if item.nextReview == Finite(0) {
          if maxNew == -1 || newAdded < maxNew {
            items := items[id := Some(item.(nextReview := Finite(now)))];
            newAdded := newAdded + 1;
            queue := queue + [id];
          }
        } else if item.nextReview.Finite? && item.nextReview.ms <= now {
          if !IsQueued(id) {
            queue := queue + [id];
          }
        }
      }
    }

    /** `resetData`: back to `DEFAULT_SRS_DATA`. */
    method ResetData()
      modifies this
      ensures Valid()
      ensures items == [] && trackedFiles == [] && queue == [] && repeatQueue == []
      ensures lastQueue == 0 && newAdded == 0
    {
      items, trackedFiles, queue, repeatQueue := [], [], [], [];
      lastQueue, newAdded := 0, 0;
    }
  }

  /**
   * Building the queue twice at the same time leaves the store as the first
   * build left it: the second build resets nothing (same day) and admits
   * nothing new.
   */
  method RebuildChangesNothing(store: DataStore, now: int, maxNew: int, dayOf: int -> int)
    requires store.Valid() && now > 0
    modifies store
    ensures var start := ScanState(old(store.items), old(store.queue),
                                   if dayOf(now) != dayOf(old(store.lastQueue)) then 0 else old(store.newAdded));
      ScanState(store.items, store.queue, store.newAdded) == Scan(start, now, maxNew, |old(store.items)|)
    ensures store.repeatQueue == old(store.repeatQueue) && store.trackedFiles == old(store.trackedFiles)
    ensures store.lastQueue == now && store.Valid()
  {
    store.BuildQueue(now, maxNew, dayOf);
    ghost var first := ScanState(store.items, store.queue, store.newAdded);
    store.BuildQueue(now, maxNew, dayOf);
    ScanSettledIsIdentity(first, now, maxNew, |first.items|, |first.items|);
  }
}
