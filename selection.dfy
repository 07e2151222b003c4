/**
 * Item extraction from the sections of a note. A selector walks the note's
 * section list, turns sections into question/answer items keyed by block id,
 * asks for an id insert where a section has none, and finally splices the
 * sections it used out of the caller's list, in place.
 *
 * The block-id generator is a parameter `genId`: the k-th id generated during
 * one call is `genId(k)`. The inline selector's regular expression is a
 * parameter too: a matcher from section text to an optional question/answer.
 */
module Selection {
  import opened Wrappers
  import opened Utils
  import opened ArrayExt

  /** A position in the note: line, column and character offset. */
  datatype Loc = Loc(line: int, col: int, offset: int)

  datatype Position = Position(start: Loc, end: Loc)

  /** A section of the note's cached metadata: its block type, optional block id and extent. */
  datatype Section = Section(kind: string, id: Option<string>, position: Position)

  /** A block id to write at the end of a section that has none (`IdInsert`). */
  datatype IdInsert = IdInsert(id: string, pos: Loc)

  datatype ItemContent = ItemContent(question: string, answer: string)

  /** The caller's section array, which `process` splices in place. */
  class SectionList {
    var list: seq<Section>

    constructor (list: seq<Section>)
      ensures this.list == list
    {
      this.list := list;
    }
  }

  /** The caller's insert array, which `process` pushes to. */
  class InsertList {
    var list: seq<IdInsert>

    constructor (list: seq<IdInsert>)
      ensures this.list == list
    {
      this.list := list;
    }
  }

  /** A `String.prototype.slice` bound: negative counts from the end; clamped to the string. */
  function SliceBound(i: int, len: int): (r: int)
    requires 0 <= len
    ensures 0 <= r <= len
  {
    if i < 0 then Max(len + i, 0) else Min(i, len)
  }

  /** `String.prototype.slice(start, end)`: empty when the bounds cross. */
  function Slice(s: string, start: int, end: int): string
  {
    var from, to := SliceBound(start, |s|), SliceBound(end, |s|);
    if from < to then s[from..to] else ""
  }

  /** With ordered bounds inside the string, `slice` is the substring between them. */
  lemma SliceInRange(s: string, start: int, end: int)
    requires 0 <= start <= end <= |s|
    ensures Slice(s, start, end) == s[start..end]
  {
  }

  /** `[lo, lo + 1, ..., hi - 1]`. */
  function Range(lo: int, hi: int): (r: seq<int>)
    requires lo <= hi
    ensures |r| == hi - lo
    ensures forall k :: 0 <= k < |r| ==> r[k] == lo + k
  {
    seq(hi - lo, k => lo + k)
  }

  // ---------------------------------------------------------------------
  // Sorting the used indices and splicing them out.

  /** Each element is above every later one (or, when not `strict`, not below it). */
  ghost predicate Descending(s: seq<int>, strict: bool)
  {
    forall i, j :: 0 <= i < j < |s| ==> s[i] > s[j] || (!strict && s[i] == s[j])
  }

  /** Places `x` in a list, before the first element it is not below. */
  function Insert(x: int, s: seq<int>): seq<int>
  {
    if s == [] || x >= s[0] then [x] + s else [s[0]] + Insert(x, s[1..])
  }

  /**
   * `usedSections.sort((a, b) => b - a)`: insertion sort into descending
   * order. Equal numbers are indistinguishable, so every correct sort,
   * stable or not, gives this list.
   */
  function SortDesc(s: seq<int>): seq<int>
  {
    if s == [] then [] else Insert(s[0], SortDesc(s[1..]))
  }

  lemma {:induction false} InsertPermutes(x: int, s: seq<int>)
    ensures multiset(Insert(x, s)) == multiset(s) + multiset{x}
  {
    if s != [] && x < s[0] {
      InsertPermutes(x, s[1..]);
      assert s == [s[0]] + s[1..];
    }
  }

  /** Everything after the head of a descending list is below the head (or equal to it). */
  lemma TailBelowHead(s: seq<int>, strict: bool, y: int)
    requires Descending(s, strict) && s != []
    requires y in s[1..]
    ensures s[0] > y || (!strict && s[0] == y)
  {
    var k :| 0 <= k < |s[1..]| && s[1..][k] == y;
    assert s[k + 1] == y;
  }

  /** Dropping the head keeps a list descending. */
  lemma DescendingRest(s: seq<int>, strict: bool)
    requires Descending(s, strict) && s != []
    ensures Descending(s[1..], strict)
  {
    forall i, j | 0 <= i < j < |s[1..]| ensures s[1..][i] > s[1..][j] || (!strict && s[1..][i] == s[1..][j]) {
      assert s[1..][i] == s[i + 1] && s[1..][j] == s[j + 1];
    }
  }

  /** A head above (or, when not `strict`, not below) every element of a descending list keeps it descending. */
  lemma DescendingCons(x: int, t: seq<int>, strict: bool)
    requires Descending(t, strict)
    requires forall y :: y in t ==> x > y || (!strict && x == y)
    ensures Descending([x] + t, strict)
  {
    var r := [x] + t;
    forall i, j | 0 <= i < j < |r| ensures r[i] > r[j] || (!strict && r[i] == r[j]) {
      if i == 0 {
        assert r[j] == t[j - 1] && r[j] in t;
      } else {
        assert r[i] == t[i - 1] && r[j] == t[j - 1];
      }
    }
  }

  lemma {:induction false} InsertSorted(x: int, s: seq<int>, strict: bool)
    requires Descending(s, strict)
    requires strict ==> x !in s
    ensures Descending(Insert(x, s), strict)
  {
    if s == [] || x >= s[0] {
      forall y | y in s ensures x > y || (!strict && x == y) {
        if y != s[0] {
          TailBelowHead(s, strict, y);
        }
      }
      DescendingCons(x, s, strict);
    } else {
      var t := Insert(x, s[1..]);
      DescendingRest(s, strict);
      assert strict ==> x !in s[1..];
      InsertSorted(x, s[1..], strict);
      InsertPermutes(x, s[1..]);
      forall y | y in t ensures s[0] > y || (!strict && s[0] == y) {
        assert y in multiset(t);
        if y != x {
          assert y in multiset(s[1..]);
          TailBelowHead(s, strict, y);
        }
      }
      DescendingCons(s[0], t, strict);
    }
  }

  /** The sorted list is a permutation of the used indices. */
  lemma {:induction false} SortDescPermutes(s: seq<int>)
    ensures multiset(SortDesc(s)) == multiset(s)
  {
    if s != [] {
      SortDescPermutes(s[1..]);
      InsertPermutes(s[0], SortDesc(s[1..]));
      assert s == [s[0]] + s[1..];
    }
  }

  /**
   * The sorted list is descending, and strictly descending when no index is
   * used twice.
   */
  lemma {:induction false} SortDescSorts(s: seq<int>)
    ensures Descending(SortDesc(s), false)
    ensures Distinct(s) ==> Descending(SortDesc(s), true)
  {
    if s != [] {
      var t := SortDesc(s[1..]);
      SortDescSorts(s[1..]);
      InsertSorted(s[0], t, false);
      if Distinct(s) {
        assert Distinct(s[1..]) by {
          forall i, j | 0 <= i < j < |s[1..]| ensures s[1..][i] != s[1..][j] {
            assert s[1..][i] == s[i + 1] && s[1..][j] == s[j + 1];
          }
        }
        assert s[0] !in t by {
          SortDescPermutes(s[1..]);
          assert s[0] !in s[1..];
          assert s[0] !in multiset(s[1..]);
        }
        InsertSorted(s[0], t, true);
      }
    }
  }

  /**
   * `Array.prototype.splice(i, 1)`: removes the element at `i` (a negative `i`
   * counts from the end); past the end nothing is removed.
   */
  function SpliceOne<T>(s: seq<T>, i: int): (r: seq<T>)
    ensures 0 <= i < |s| ==> r == s[..i] + s[i + 1..]
    ensures |s| <= i ==> r == s
  {
    var start := SliceBound(i, |s|);
    if start < |s| then s[..start] + s[start + 1..] else s
  }

  /** `indices.forEach((i) => sections.splice(i, 1))`. */
  function SpliceAll<T>(s: seq<T>, indices: seq<int>): seq<T>
  {
    if indices == [] then s else SpliceAll(SpliceOne(s, indices[0]), indices[1..])
  }

  /** The elements of `s` whose positions are not in `drop`, in their order. */
  function Keep<T>(s: seq<T>, drop: set<int>): (r: seq<T>)
    ensures |r| <= |s|
  {
    if s == [] then []
    else Keep(s[..|s| - 1], drop) + (if |s| - 1 in drop then [] else [s[|s| - 1]])
  }

  function Elems(s: seq<int>): set<int>
  {
    set x | x in s
  }

  lemma {:induction false} KeepNothing<T>(s: seq<T>)
    ensures Keep(s, {}) == s
  {
    if s != [] {
      KeepNothing(s[..|s| - 1]);
    }
  }

  /** Appending elements beyond every dropped position keeps them all. */
  lemma {:induction false} KeepAppend<T>(a: seq<T>, b: seq<T>, drop: set<int>)
    requires forall y :: y in drop ==> y < |a|
    ensures Keep(a + b, drop) == Keep(a, drop) + b
  {
    if b != [] {
      var c := a + b;
      assert c[..|c| - 1] == a + b[..|b| - 1];
      assert c[|c| - 1] == b[|b| - 1];
      KeepAppend(a, b[..|b| - 1], drop);
      assert b == b[..|b| - 1] + [b[|b| - 1]];
    } else {
      assert a + b == a;
    }
  }

  /** Dropping a position past the end changes nothing. */
  lemma {:induction false} KeepBeyond<T>(a: seq<T>, drop: set<int>, x: int)
    requires |a| <= x
    ensures Keep(a, drop + {x}) == Keep(a, drop)
  {
    if a != [] {
      KeepBeyond(a[..|a| - 1], drop, x);
    }
  }

  /** Dropping the position of `e` in `a + [e] + b` keeps what leaving `e` out keeps. */
  lemma KeepSkip<T>(a: seq<T>, e: T, b: seq<T>, drop: set<int>)
    requires forall y :: y in drop ==> y < |a|
    ensures Keep(a + b, drop) == Keep(a + [e] + b, drop + {|a|})
  {
    KeepAppend(a, b, drop);
    KeepAppend(a + [e], b, drop + {|a|});
    assert (a + [e])[..|a|] == a;
    assert Keep(a + [e], drop + {|a|}) == Keep(a, drop + {|a|});
    KeepBeyond(a, drop, |a|);
  }

  /**
   * Removing position `x` keeps exactly what dropping `x` keeps, as far as
   * the other dropped positions all lie below `x`.
   */
  lemma KeepRemoveOne<T>(s: seq<T>, x: int, drop: set<int>)
    requires 0 <= x < |s|
    requires forall y :: y in drop ==> y < x
    ensures Keep(s[..x] + s[x + 1..], drop) == Keep(s, drop + {x})
  {
    var a, b := s[..x], s[x + 1..];
    assert |a| == x;
    assert a + [s[x]] + b == s;
    KeepSkip(a, s[x], b, drop);
  }

  /**
   * The tail of a strictly descending list of positions lies below its head,
   * so it stays within the list that is one shorter.
   */
  lemma DescendingTail(s: seq<int>, n: int)
    requires Descending(s, true) && s != []
    requires InRange(s, n)
    ensures Descending(s[1..], true)
    ensures InRange(s[1..], n - 1)
    ensures forall y :: y in Elems(s[1..]) ==> y < s[0]
    ensures Elems(s) == Elems(s[1..]) + {s[0]}
  {
    var rest := s[1..];
    forall i, j | 0 <= i < j < |rest| ensures rest[i] > rest[j] {
      assert rest[i] == s[i + 1] && rest[j] == s[j + 1];
    }
    forall k | 0 <= k < |rest| ensures 0 <= rest[k] < s[0] {
      assert rest[k] == s[k + 1];
    }
    assert s == [s[0]] + rest;
  }

  /**
   * Splicing out indices in strictly decreasing order, each inside the list,
   * removes exactly those positions and keeps the rest in order: each removal
   * happens above every later one, so no later index has shifted.
   */
  lemma {:induction false} SpliceDescending<T>(s: seq<T>, indices: seq<int>)
    requires Descending(indices, true)
    requires InRange(indices, |s|)
    ensures SpliceAll(s, indices) == Keep(s, Elems(indices))
  {
    if indices == [] {
      assert Elems(indices) == {};
      KeepNothing(s);
    } else {
      var x, rest := indices[0], indices[1..];
      var s' := SpliceOne(s, x);
      assert |s'| == |s| - 1 && s' == s[..x] + s[x + 1..] by {
        assert 0 <= x < |s|;
      }
      assert Descending(rest, true) && InRange(rest, |s'|) by {
        DescendingTail(indices, |s|);
      }
      SpliceDescending(s', rest);
      assert Keep(s', Elems(rest)) == Keep(s, Elems(indices)) by {
        DescendingTail(indices, |s|);
        KeepRemoveOne(s, x, Elems(rest));
      }
    }
  }

  /** With no index repeated, splicing the sorted indices removes exactly those sections. */
  lemma SpliceSortedRemovesExactly<T>(s: seq<T>, used: seq<int>)
    requires Distinct(used)
    requires InRange(used, |s|)
    ensures SpliceAll(s, SortDesc(used)) == Keep(s, Elems(used))
  {
    var sorted := SortDesc(used);
    SortDescSorts(used);
    SortDescPermutes(used);
    assert InRange(sorted, |s|) by {
      forall k | 0 <= k < |sorted| ensures 0 <= sorted[k] < |s| {
        assert sorted[k] in multiset(used);
      }
    }
    assert Elems(sorted) == Elems(used) by {
      assert forall y :: y in sorted <==> y in multiset(sorted);
      assert forall y :: y in used <==> y in multiset(used);
    }
    SpliceDescending(s, sorted);
  }

  // ---------------------------------------------------------------------
  // What a call of `process` computes, section by section.

  /** The running result: the items, the insert list, the used indices and the ids generated. */
  datatype Extraction = Extraction(items: map<string, ItemContent>, inserts: seq<IdInsert>, used: seq<int>, generated: nat)

  /**
   * Stores `content` for section `sec`: under the section's block id, or
   * under a freshly generated id, for which an insert at the section's end is
   * pushed.
   */
  function PutItem(st: Extraction, sec: Section, content: ItemContent, genId: nat -> string): (r: Extraction)
    ensures r.used == st.used
    ensures sec.id.Some? ==> r.items == st.items[sec.id.value := content] && r.inserts == st.inserts && r.generated == st.generated
    ensures sec.id.None? ==>
      && r.items == st.items[genId(st.generated) := content]
      && r.inserts == st.inserts + [IdInsert(genId(st.generated), sec.position.end)]
      && r.generated == st.generated + 1
  {
    match sec.id
    case Some(id) => st.(items := st.items[id := content])
    case None =>
      var id := genId(st.generated);
      Extraction(st.items[id := content], st.inserts + [IdInsert(id, sec.position.end)], st.used, st.generated + 1)
  }

  /** The section's text, `content.slice(start.offset, end.offset)`. */
  function Text(content: string, sec: Section): string
  {
    Slice(content, sec.position.start.offset, sec.position.end.offset)
  }

  /** Section `s` continues an answer run. */
  predicate Joins(answerBlocks: seq<string>, until: bool, s: Section)
  {
    Contains(answerBlocks, s.kind) != until
  }

  /**
   * The end of the answer run that starts at `j`: the run is the maximal
   * stretch of consecutive sections from `j` on that continue it.
   */
  function RunEnd(secs: seq<Section>, answerBlocks: seq<string>, until: bool, j: int): (r: int)
    requires 0 <= j <= |secs|
    ensures j <= r <= |secs|
    ensures forall m :: j <= m < r ==> Joins(answerBlocks, until, secs[m])
    ensures r == |secs| || !Joins(answerBlocks, until, secs[r])
    decreases |secs| - j
  {
    if j == |secs| || !Joins(answerBlocks, until, secs[j]) then j
    else RunEnd(secs, answerBlocks, until, j + 1)
  }

  /**
   * One outer iteration of `BlockSelector.process`: when section `i` has a
   * non-empty answer run, it becomes an item whose question is its own text
   * and whose answer spans the run, and the section and its run are used.
   */
  function BlockStep(st: Extraction, secs: seq<Section>, content: string, answerBlocks: seq<string>, until: bool,
                     genId: nat -> string, i: int): Extraction
    requires 0 <= i < |secs|
  {
    var e := RunEnd(secs, answerBlocks, until, i + 1);
    if e == i + 1 then st
    else
      var item := ItemContent(Text(content, secs[i]),
                              Slice(content, secs[i + 1].position.start.offset, secs[e - 1].position.end.offset));
      var r := PutItem(st, secs[i], item, genId);
      r.(used := r.used + Range(i, e))
  }

  /** The first `n` outer iterations of `BlockSelector.process`. */
  function BlockExtract(st: Extraction, secs: seq<Section>, content: string, answerBlocks: seq<string>, until: bool,
                        genId: nat -> string, n: int): Extraction
    requires 0 <= n <= |secs|
  {
    if n == 0 then st
    else BlockStep(BlockExtract(st, secs, content, answerBlocks, until, genId, n - 1), secs, content, answerBlocks, until, genId, n - 1)
  }

  /**
   * Section `i` yields an item exactly when its answer run is non-empty; the
   * item has the section's text as question and the text from the start of
   * the run's first section to the end of its last as answer, and is keyed by
   * the section's id or by the next generated id; the section and its run are
   * recorded as used.
   */
  lemma BlockStepEmits(st: Extraction, secs: seq<Section>, content: string, answerBlocks: seq<string>, until: bool,
                       genId: nat -> string, i: int)
    requires 0 <= i < |secs|
    ensures var r := BlockStep(st, secs, content, answerBlocks, until, genId, i);
      var e := RunEnd(secs, answerBlocks, until, i + 1);
      && (r == st <==> e == i + 1)
      && (e > i + 1 ==>
            var key := if secs[i].id.Some? then secs[i].id.value else genId(st.generated);
            && r.items == st.items[key := ItemContent(Text(content, secs[i]),
                                                      Slice(content, secs[i + 1].position.start.offset, secs[e - 1].position.end.offset))]
            && r.used == st.used + Range(i, e)
            && (secs[i].id.Some? ==> r.inserts == st.inserts)
            && (secs[i].id.None? ==> r.inserts == st.inserts + [IdInsert(key, secs[i].position.end)]))
  {
    var e := RunEnd(secs, answerBlocks, until, i + 1);
    if e > i + 1 {
      var r := BlockStep(st, secs, content, answerBlocks, until, genId, i);
      assert |r.used| > |st.used|;
    }
  }

  /** One outer iteration either pushes no insert, or one insert for the next generated id. */
  lemma BlockStepInserts(st: Extraction, secs: seq<Section>, content: string, answerBlocks: seq<string>, until: bool,
                         genId: nat -> string, i: int)
    requires 0 <= i < |secs|
    ensures var r := BlockStep(st, secs, content, answerBlocks, until, genId, i);
      || (r.inserts == st.inserts && r.generated == st.generated)
      || (r.inserts == st.inserts + [IdInsert(genId(st.generated), secs[i].position.end)] && r.generated == st.generated + 1)
  {
  }

  /**
   * Over the whole call, one insert is pushed per generated id, in order:
   * the k-th new insert carries `genId(k)`.
   */
  lemma {:induction false} BlockInserts(st: Extraction, secs: seq<Section>, content: string, answerBlocks: seq<string>,
                                        until: bool, genId: nat -> string, n: int)
    requires 0 <= n <= |secs|
    ensures InsertsFollow(st, BlockExtract(st, secs, content, answerBlocks, until, genId, n), genId)
  {
    if n == 0 {
      assert st.inserts[..|st.inserts|] == st.inserts;
    } else {
      BlockInserts(st, secs, content, answerBlocks, until, genId, n - 1);
      var p := BlockExtract(st, secs, content, answerBlocks, until, genId, n - 1);
      var r := BlockStep(p, secs, content, answerBlocks, until, genId, n - 1);
      assert r == BlockExtract(st, secs, content, answerBlocks, until, genId, n);
      BlockStepInserts(p, secs, content, answerBlocks, until, genId, n - 1);
      if r.generated != p.generated {
        InsertsFollowPush(st, p, r, genId, secs[n - 1].position.end);
      }
    }
  }

  /**
   * `r` extends the inserts of `st` by one insert per id generated since,
   * the k-th of them carrying `genId(k)`.
   */
  ghost predicate InsertsFollow(st: Extraction, r: Extraction, genId: nat -> string)
  {
    && st.generated <= r.generated
    && |r.inserts| == |st.inserts| + (r.generated - st.generated)
    && r.inserts[..|st.inserts|] == st.inserts
    && forall k :: st.generated <= k < r.generated ==> r.inserts[|st.inserts| + k - st.generated].id == genId(k)
  }

  lemma InsertsFollowPush(st: Extraction, p: Extraction, r: Extraction, genId: nat -> string, pos: Loc)
    requires InsertsFollow(st, p, genId)
    requires r.inserts == p.inserts + [IdInsert(genId(p.generated), pos)] && r.generated == p.generated + 1
    ensures InsertsFollow(st, r, genId)
  {
    assert r.inserts[..|p.inserts|] == p.inserts;
    assert r.inserts[..|st.inserts|] == p.inserts[..|st.inserts|];
  }

  /** Every used index names a section of the list. */
  lemma {:induction false} BlockUsedInRange(st: Extraction, secs: seq<Section>, content: string, answerBlocks: seq<string>,
                                            until: bool, genId: nat -> string, n: int)
    requires 0 <= n <= |secs|
    requires InRange(st.used, |secs|)
    ensures InRange(BlockExtract(st, secs, content, answerBlocks, until, genId, n).used, |secs|)
  {
    if n > 0 {
      BlockUsedInRange(st, secs, content, answerBlocks, until, genId, n - 1);
      var p := BlockExtract(st, secs, content, answerBlocks, until, genId, n - 1);
      var r := BlockStep(p, secs, content, answerBlocks, until, genId, n - 1);
      assert r == BlockExtract(st, secs, content, answerBlocks, until, genId, n);
      var e := RunEnd(secs, answerBlocks, until, n);
      if e != n {
        assert r.used == p.used + Range(n - 1, e);
        forall k | 0 <= k < |r.used| ensures 0 <= r.used[k] < |secs| {
          if k < |p.used| {
            assert r.used[k] == p.used[k];
            assert 0 <= p.used[k] < |secs|;
          } else {
            assert r.used[k] == Range(n - 1, e)[k - |p.used|] == n - 1 + (k - |p.used|);
            assert k - |p.used| < e - (n - 1);
          }
        }
      }
    }
  }

  /**
   * When no section is used twice, the splice at the end of
   * `BlockSelector.process` removes exactly the used sections and keeps the
   * others in their order.
   */
  lemma BlockSpliceRemovesUsed(secs: seq<Section>, content: string, answerBlocks: seq<string>, until: bool,
                               genId: nat -> string, inserts: seq<IdInsert>)
    requires Distinct(BlockExtract(Extraction(map[], inserts, [], 0), secs, content, answerBlocks, until, genId, |secs|).used)
    ensures var r := BlockExtract(Extraction(map[], inserts, [], 0), secs, content, answerBlocks, until, genId, |secs|);
      SpliceAll(secs, SortDesc(r.used)) == Keep(secs, Elems(r.used))
  {
    var r := BlockExtract(Extraction(map[], inserts, [], 0), secs, content, answerBlocks, until, genId, |secs|);
    BlockUsedInRange(Extraction(map[], inserts, [], 0), secs, content, answerBlocks, until, genId, |secs|);
    SpliceSortedRemovesExactly(secs, r.used);
  }

  /**
   * The outer loop never skips a section that is already part of an earlier
   * answer run. With a question followed by two answers and one other
   * section, the first answer is used twice (as an answer, then as a
   * question), and the descending splice then also removes the unused last
   * section.
   */
  lemma DuplicateUseRemovesUnusedSection(content: string, genId: nat -> string, p: Position)
    ensures var q := Section("paragraph", Some("q"), p);
      var a := Section("list", Some("a"), p);
      var x := Section("heading", Some("x"), p);
      var secs := [q, a, a, x];
      var r := BlockExtract(Extraction(map[], [], [], 0), secs, content, ["list"], false, genId, |secs|);
      && r.used == [0, 1, 2, 1, 2]
      && !Distinct(r.used)
      && 3 !in r.used
      && SpliceAll(secs, SortDesc(r.used)) == []
  {
    var q := Section("paragraph", Some("q"), p);
    var a := Section("list", Some("a"), p);
    var x := Section("heading", Some("x"), p);
    var secs := [q, a, a, x];
    BlockExample(secs, content, genId);
    var r := BlockExtract(Extraction(map[], [], [], 0), secs, content, ["list"], false, genId, |secs|);
    assert r.used[1] == r.used[3];
    SortExample();
    assert SpliceAll(secs, [2, 2, 1, 1, 0]) == [] by {
      SpliceExample(q, a, x);
    }
  }

  lemma ExampleRuns(secs: seq<Section>)
    requires |secs| == 4
    requires secs[0].kind == "paragraph" && secs[1].kind == "list" && secs[2].kind == "list" && secs[3].kind == "heading"
    ensures RunEnd(secs, ["list"], false, 1) == 3
    ensures RunEnd(secs, ["list"], false, 2) == 3
    ensures RunEnd(secs, ["list"], false, 3) == 3
    ensures RunEnd(secs, ["list"], false, 4) == 4
  {
    var ab := ["list"];
    assert Joins(ab, false, secs[1]) && Joins(ab, false, secs[2]) && !Joins(ab, false, secs[3]);
    assert RunEnd(secs, ab, false, 4) == 4;
    assert RunEnd(secs, ab, false, 3) == 3;
    assert RunEnd(secs, ab, false, 2) == 3;
  }

  lemma BlockExample(secs: seq<Section>, content: string, genId: nat -> string)
    requires |secs| == 4
    requires secs[0].kind == "paragraph" && secs[1].kind == "list" && secs[2].kind == "list" && secs[3].kind == "heading"
    ensures BlockExtract(Extraction(map[], [], [], 0), secs, content, ["list"], false, genId, 4).used == [0, 1, 2, 1, 2]
  {
    var ab := ["list"];
    ExampleRuns(secs);
    var st0 := Extraction(map[], [], [], 0);
    assert BlockExtract(st0, secs, content, ab, false, genId, 0) == st0;
    var r1 := BlockExtract(st0, secs, content, ab, false, genId, 1);
    assert r1 == BlockStep(st0, secs, content, ab, false, genId, 0);
    assert r1.used == Range(0, 3) == [0, 1, 2];
    var r2 := BlockExtract(st0, secs, content, ab, false, genId, 2);
    assert r2 == BlockStep(r1, secs, content, ab, false, genId, 1);
    assert r2.used == [0, 1, 2] + Range(1, 3) == [0, 1, 2, 1, 2];
    var r3 := BlockExtract(st0, secs, content, ab, false, genId, 3);
    assert r3 == BlockStep(r2, secs, content, ab, false, genId, 2) == r2;
    var r := BlockExtract(st0, secs, content, ab, false, genId, 4);
    assert r == BlockStep(r3, secs, content, ab, false, genId, 3) == r3;
    assert r.used == [0, 1, 2, 1, 2];
  }

  lemma SortExample()
    ensures SortDesc([0, 1, 2, 1, 2]) == [2, 2, 1, 1, 0]
  {
    assert SortDesc([]) == [];
    assert [2][1..] == [];
    assert SortDesc([2]) == Insert(2, []) == [2];
    assert [1, 2][1..] == [2];
    assert Insert(1, []) == [1];
    assert SortDesc([1, 2]) == Insert(1, [2]) == [2, 1];
    assert [2, 1, 2][1..] == [1, 2];
    assert [2, 1][1..] == [1];
    assert Insert(2, [2, 1]) == [2, 2, 1];
    assert SortDesc([2, 1, 2]) == [2, 2, 1];
    assert [1, 2, 1, 2][1..] == [2, 1, 2];
    assert [2, 2, 1][1..] == [2, 1];
    assert [2, 1][1..] == [1];
    assert Insert(1, [1]) == [1, 1];
    assert Insert(1, [2, 1]) == [2, 1, 1];
    assert Insert(1, [2, 2, 1]) == [2, 2, 1, 1];
    assert SortDesc([1, 2, 1, 2]) == [2, 2, 1, 1];
    assert [0, 1, 2, 1, 2][1..] == [1, 2, 1, 2];
    assert SortDesc([0, 1, 2, 1, 2]) == Insert(0, [2, 2, 1, 1]);
    assert [2, 2, 1, 1][1..] == [2, 1, 1];
    assert [2, 1, 1][1..] == [1, 1];
    assert [1, 1][1..] == [1];
    assert Insert(0, [1]) == [1, 0];
    assert Insert(0, [1, 1]) == [1, 1, 0];
    assert Insert(0, [2, 1, 1]) == [2, 1, 1, 0];
  }

  lemma SpliceExample<T>(q: T, a: T, x: T)
    ensures SpliceAll([q, a, a, x], [2, 2, 1, 1, 0]) == []
  {
    assert SpliceOne([q, a, a, x], 2) == [q, a, x];
    assert SpliceOne([q, a, x], 2) == [q, a];
    assert SpliceOne([q, a], 1) == [q];
    assert SpliceOne([q], 1) == [q];
    assert SpliceOne([q], 0) == [];
    assert [2, 2, 1, 1, 0][1..] == [2, 1, 1, 0];
    assert [2, 1, 1, 0][1..] == [1, 1, 0];
    assert [1, 1, 0][1..] == [1, 0];
    assert [1, 0][1..] == [0];
    assert SpliceAll([q], [0]) == SpliceAll([], [0][1..]) == [];
    assert SpliceAll([q], [1, 0]) == SpliceAll([q], [0]);
    assert SpliceAll([q, a], [1, 1, 0]) == SpliceAll([q], [1, 0]);
    assert SpliceAll([q, a, x], [2, 1, 1, 0]) == SpliceAll([q, a], [1, 1, 0]);
    assert SpliceAll([q, a, a, x], [2, 2, 1, 1, 0]) == SpliceAll([q, a, x], [2, 1, 1, 0]);
  }

  /**
   * One iteration of `InlineSelector.process`: a section of an accepted
   * type whose text matches becomes one item and is used.
   */
  function InlineStep(st: Extraction, secs: seq<Section>, content: string, blockTypes: seq<string>,
                      matcher: string -> Option<(string, string)>, genId: nat -> string, i: int): Extraction
    requires 0 <= i < |secs|
  {
    if !Contains(blockTypes, secs[i].kind) then st
    else
      match matcher(Text(content, secs[i]))
      case None => st
      case Some(qa) =>
        var r := PutItem(st, secs[i], ItemContent(qa.0, qa.1), genId);
        r.(used := r.used + [i])
  }

  /** The first `n` iterations of `InlineSelector.process`. */
  function InlineExtract(st: Extraction, secs: seq<Section>, content: string, blockTypes: seq<string>,
                         matcher: string -> Option<(string, string)>, genId: nat -> string, n: int): Extraction
    requires 0 <= n <= |secs|
  {
    if n == 0 then st
    else InlineStep(InlineExtract(st, secs, content, blockTypes, matcher, genId, n - 1), secs, content, blockTypes, matcher, genId, n - 1)
  }

  /** Section `i` is one the inline selector takes: its type is accepted and its text matches. */
  predicate InlineMatch(secs: seq<Section>, content: string, blockTypes: seq<string>,
                        matcher: string -> Option<(string, string)>, i: int)
    requires 0 <= i < |secs|
  {
    Contains(blockTypes, secs[i].kind) && matcher(Text(content, secs[i])).Some?
  }

  /** One inline iteration uses section `i` exactly when it matches, and adds at most one key. */
  lemma InlineStepFacts(st: Extraction, secs: seq<Section>, content: string, blockTypes: seq<string>,
                        matcher: string -> Option<(string, string)>, genId: nat -> string, i: int)
    requires 0 <= i < |secs|
    ensures var r := InlineStep(st, secs, content, blockTypes, matcher, genId, i);
      && r.used == st.used + (if InlineMatch(secs, content, blockTypes, matcher, i) then [i] else [])
      && |r.items.Keys| <= |st.items.Keys| + 1
  {
    var r := InlineStep(st, secs, content, blockTypes, matcher, genId, i);
    if InlineMatch(secs, content, blockTypes, matcher, i) {
      var key := if secs[i].id.Some? then secs[i].id.value else genId(st.generated);
      assert r.items.Keys == st.items.Keys + {key};
    } else {
      assert r.used == st.used + [];
    }
  }

  /**
   * Section `i` yields an item exactly when it matches: the item holds the
   * matcher's question and answer and is keyed by the section's id, or by the
   * next generated id with one insert at the section's end; no other key
   * changes. A section that does not match leaves everything as it was.
   */
  lemma InlineStepEmits(st: Extraction, secs: seq<Section>, content: string, blockTypes: seq<string>,
                        matcher: string -> Option<(string, string)>, genId: nat -> string, i: int)
    requires 0 <= i < |secs|
    ensures var r := InlineStep(st, secs, content, blockTypes, matcher, genId, i);
      && (!InlineMatch(secs, content, blockTypes, matcher, i) ==> r == st)
      && (InlineMatch(secs, content, blockTypes, matcher, i) ==>
            var qa := matcher(Text(content, secs[i])).value;
            var key := if secs[i].id.Some? then secs[i].id.value else genId(st.generated);
            && r.items == st.items[key := ItemContent(qa.0, qa.1)]
            && r.used == st.used + [i]
            && (secs[i].id.Some? ==> r.inserts == st.inserts && r.generated == st.generated)
            && (secs[i].id.None? ==>
                  r.inserts == st.inserts + [IdInsert(key, secs[i].position.end)] && r.generated == st.generated + 1))
  {
  }

  /** One inline iteration either pushes no insert, or one insert for the next generated id. */
  lemma InlineStepInserts(st: Extraction, secs: seq<Section>, content: string, blockTypes: seq<string>,
                          matcher: string -> Option<(string, string)>, genId: nat -> string, i: int)
    requires 0 <= i < |secs|
    ensures var r := InlineStep(st, secs, content, blockTypes, matcher, genId, i);
      || (r.inserts == st.inserts && r.generated == st.generated)
      || (r.inserts == st.inserts + [IdInsert(genId(st.generated), secs[i].position.end)] && r.generated == st.generated + 1)
  {
  }

  /**
   * Over the whole inline call, one insert is pushed per generated id, in
   * order: the k-th new insert carries `genId(k)`.
   */
  lemma {:induction false} InlineInserts(st: Extraction, secs: seq<Section>, content: string, blockTypes: seq<string>,
                                         matcher: string -> Option<(string, string)>, genId: nat -> string, n: int)
    requires 0 <= n <= |secs|
    ensures InsertsFollow(st, InlineExtract(st, secs, content, blockTypes, matcher, genId, n), genId)
  {
    if n == 0 {
      assert st.inserts[..|st.inserts|] == st.inserts;
    } else {
      InlineInserts(st, secs, content, blockTypes, matcher, genId, n - 1);
      var p := InlineExtract(st, secs, content, blockTypes, matcher, genId, n - 1);
      var r := InlineStep(p, secs, content, blockTypes, matcher, genId, n - 1);
      assert r == InlineExtract(st, secs, content, blockTypes, matcher, genId, n);
      InlineStepInserts(p, secs, content, blockTypes, matcher, genId, n - 1);
      if r.generated != p.generated {
        InsertsFollowPush(st, p, r, genId, secs[n - 1].position.end);
      }
    }
  }

  /**
   * After `n` iterations starting from nothing used: the used indices are
   * exactly the matching sections below `n`, in increasing order; and at
   * most one item was added per section.
   */
  lemma {:induction false} InlineUsed(st: Extraction, secs: seq<Section>, content: string, blockTypes: seq<string>,
                                      matcher: string -> Option<(string, string)>, genId: nat -> string, n: int)
    requires 0 <= n <= |secs|
    requires st.used == []
    ensures var r := InlineExtract(st, secs, content, blockTypes, matcher, genId, n);
      && (forall i :: i in r.used <==> 0 <= i < n && InlineMatch(secs, content, blockTypes, matcher, i))
      && StrictlyIncreasing(r.used)
      && |r.items.Keys| <= |st.items.Keys| + n
  {
    if n > 0 {
      InlineUsed(st, secs, content, blockTypes, matcher, genId, n - 1);
      var p := InlineExtract(st, secs, content, blockTypes, matcher, genId, n - 1);
      var r := InlineStep(p, secs, content, blockTypes, matcher, genId, n - 1);
      assert r == InlineExtract(st, secs, content, blockTypes, matcher, genId, n);
      InlineStepFacts(p, secs, content, blockTypes, matcher, genId, n - 1);
      forall i, j | 0 <= i < j < |r.used| ensures r.used[i] < r.used[j] {
        if j == |p.used| {
          assert p.used[i] in p.used;
        }
      }
    }
  }

  ghost predicate StrictlyIncreasing(s: seq<int>)
  {
    forall i, j :: 0 <= i < j < |s| ==> s[i] < s[j]
  }

  /**
   * The splice at the end of `InlineSelector.process` removes exactly the
   * matching sections and keeps the others in their order.
   */
  lemma InlineSpliceRemovesMatches(secs: seq<Section>, content: string, blockTypes: seq<string>,
                                   matcher: string -> Option<(string, string)>, genId: nat -> string, inserts: seq<IdInsert>)
    ensures var r := InlineExtract(Extraction(map[], inserts, [], 0), secs, content, blockTypes, matcher, genId, |secs|);
      SpliceAll(secs, SortDesc(r.used)) ==
        Keep(secs, set i | 0 <= i < |secs| && InlineMatch(secs, content, blockTypes, matcher, i))
  {
    var r := InlineExtract(Extraction(map[], inserts, [], 0), secs, content, blockTypes, matcher, genId, |secs|);
    InlineUsed(Extraction(map[], inserts, [], 0), secs, content, blockTypes, matcher, genId, |secs|);
    assert Distinct(r.used);
    assert forall k :: 0 <= k < |r.used| ==> 0 <= r.used[k] < |secs| by {
      forall k | 0 <= k < |r.used| ensures 0 <= r.used[k] < |secs| {
        assert r.used[k] in r.used;
      }
    }
    SpliceSortedRemovesExactly(secs, r.used);
    assert Elems(r.used) == set i | 0 <= i < |secs| && InlineMatch(secs, content, blockTypes, matcher, i);
  }

  // ---------------------------------------------------------------------
  // The selectors.

  /**
   * The inner loop of `BlockSelector.process`: walks the sections after
   * `i` while they continue the answer run, recording where the run starts
   * and ends and which sections it uses.
   */
  method ScanRun(secs: seq<Section>, answerBlocks: seq<string>, until: bool, i: int)
    returns (start: Option<Loc>, end: Option<Loc>, used: seq<int>)
    requires 0 <= i < |secs|
    ensures var e := RunEnd(secs, answerBlocks, until, i + 1);
      && (start.None? <==> e == i + 1)
      && (e > i + 1 ==> start == Some(secs[i + 1].position.start) && end == Some(secs[e - 1].position.end))
      && used == Range(i, e)
  {
    start, end := None, None;
    used := [i];
    var j := i + 1;
    while j < |secs|
      invariant i + 1 <= j <= |secs|
      invariant forall m :: i + 1 <= m < j ==> Joins(answerBlocks, until, secs[m])
      invariant start.None? <==> j == i + 1
      invariant j > i + 1 ==> start == Some(secs[i + 1].position.start) && end == Some(secs[j - 1].position.end)
      invariant used == Range(i, j)
    {
      var block := secs[j];
      var contains := Contains(answerBlocks, block.kind);
      if (contains && until) || (!contains && !until) {
        break;
      } else {
        if start.None? {
          start := Some(block.position.start);
        }
        end := Some(block.position.end);
        used := used + [j];
      }
      j := j + 1;
    }
    RunEndUnique(secs, answerBlocks, until, i + 1, j);
  }

  /**
   * Files one item as both selectors do: under the section's id, or under a
   * generated id for which an insert at the section's end is pushed.
   */
  method StoreItem(inserts: InsertList, items: map<string, ItemContent>, generated: nat, section: Section,
                   itemContent: ItemContent, genId: nat -> string)
    returns (items': map<string, ItemContent>, generated': nat)
    modifies inserts
    ensures var r := PutItem(Extraction(items, old(inserts.list), [], generated), section, itemContent, genId);
      items' == r.items && inserts.list == r.inserts && generated' == r.generated
  {
    var id: string;
    generated' := generated;
    if section.id.None? {
      id := genId(generated);
      generated' := generated + 1;
      inserts.list := inserts.list + [IdInsert(id, section.position.end)];
    } else {
      id := section.id.value;
    }
    items' := items[id := itemContent];
  }

  /** One outer iteration of `BlockSelector.process`, for section `i`. */
  method BlockVisit(secs: seq<Section>, i: int, content: string, answerBlocks: seq<string>, until: bool,
                    genId: nat -> string, inserts: InsertList, items: map<string, ItemContent>,
                    usedSections: seq<int>, generated: nat)
    returns (items': map<string, ItemContent>, usedSections': seq<int>, generated': nat)
    requires 0 <= i < |secs|
    modifies inserts
    ensures Extraction(items', inserts.list, usedSections', generated')
            == BlockStep(Extraction(items, old(inserts.list), usedSections, generated), secs, content, answerBlocks, until, genId, i)
  {
    var section := secs[i];
    var questionContent := Slice(content, section.position.start.offset, section.position.end.offset);
    var start, end, used := ScanRun(secs, answerBlocks, until, i);
    items', usedSections', generated' := items, usedSections, generated;
    if start.Some? {
      var answerContent := Slice(content, start.value.offset, end.value.offset);
      items', generated' := StoreItem(inserts, items, generated, section, ItemContent(questionContent, answerContent), genId);
      usedSections' := usedSections + used;
    }
  }

  /** `usedSections.forEach((i) => sections.splice(i, 1))`, in place. */
  method SpliceUsed(sections: SectionList, sorted: seq<int>)
    modifies sections
    ensures sections.list == SpliceAll(old(sections.list), sorted)
  {
    for k := 0 to |sorted|
      invariant SpliceAll(sections.list, sorted[k..]) == SpliceAll(old(sections.list), sorted)
    {
      assert sorted[k..][1..] == sorted[k + 1..];
      sections.list := SpliceOne(sections.list, sorted[k]);
    }
  }

  /**
   * `BlockSelector`: items made of a question section and the run of answer
   * sections that follows it. With `until` off the run is the following
   * sections whose type is an answer type; with `until` on, the following
   * sections up to the next one whose type is an answer type.
   */
  class BlockSelector {
    var questionBlocks: seq<string>
    var answerBlocks: seq<string>
    var until: bool

    constructor (questionBlocks: seq<string>, answerBlocks: seq<string>, until: bool)
      ensures this.questionBlocks == questionBlocks && this.answerBlocks == answerBlocks && this.until == until
    {
      this.questionBlocks := questionBlocks;
      this.answerBlocks := answerBlocks;
      this.until := until;
    }

    /**
     * `process`: returns the items, pushes the id inserts and splices the
     * used sections out of `sections`, as `BlockExtract` describes.
     */
    method Process(sections: SectionList, inserts: InsertList, content: string, genId: nat -> string)
      returns (items: map<string, ItemContent>)
      modifies sections, inserts
      ensures var r := BlockExtract(Extraction(map[], old(inserts.list), [], 0), old(sections.list), content,
                                    answerBlocks, until, genId, |old(sections.list)|);
        && items == r.items
        && inserts.list == r.inserts
        && sections.list == SpliceAll(old(sections.list), SortDesc(r.used))
    {
      var secs := sections.list;
      ghost var st0 := Extraction(map[], inserts.list, [], 0);
      items := map[];
      var usedSections: seq<int> := [];
      var generated: nat := 0;
      for i := 0 to |secs|
        invariant sections.list == secs
        invariant Extraction(items, inserts.list, usedSections, generated)
                  == BlockExtract(st0, secs, content, answerBlocks, until, genId, i)
      {
        items, usedSections, generated := BlockVisit(secs, i, content, answerBlocks, until, genId,
                                                     inserts, items, usedSections, generated);
      }

      SpliceUsed(sections, SortDesc(usedSections));
    }
  }

  /** A run end is determined by the run property: any `e` that has it is `RunEnd`. */
  lemma RunEndUnique(secs: seq<Section>, answerBlocks: seq<string>, until: bool, j: int, e: int)
    requires 0 <= j <= e <= |secs|
    requires forall m :: j <= m < e ==> Joins(answerBlocks, until, secs[m])
    requires e == |secs| || !Joins(answerBlocks, until, secs[e])
    ensures e == RunEnd(secs, answerBlocks, until, j)
  {
  }

  /**
   * `InlineSelector`: at most one item per section, read from the text of a
   * section of an accepted type by the matcher.
   */
  class InlineSelector {
    var matcher: string -> Option<(string, string)>
    var blockTypes: seq<string>

    constructor (matcher: string -> Option<(string, string)>, blockTypes: seq<string>)
      ensures this.matcher == matcher && this.blockTypes == blockTypes
    {
      this.matcher := matcher;
      this.blockTypes := blockTypes;
    }

    /**
     * `process`: returns the items, pushes the id inserts and splices the
     * matching sections out of `sections`, as `InlineExtract` describes.
     */
    method Process(sections: SectionList, inserts: InsertList, content: string, genId: nat -> string)
      returns (items: map<string, ItemContent>)
      modifies sections, inserts
      ensures var r := InlineExtract(Extraction(map[], old(inserts.list), [], 0), old(sections.list), content,
                                     blockTypes, matcher, genId, |old(sections.list)|);
        && items == r.items
        && inserts.list == r.inserts
        && sections.list == SpliceAll(old(sections.list), SortDesc(r.used))
    {
      var secs := sections.list;
      ghost var st0 := Extraction(map[], inserts.list, [], 0);
      items := map[];
      var usedSections: seq<int> := [];
      var generated: nat := 0;
      for i := 0 to |secs|
        invariant sections.list == secs
        invariant Extraction(items, inserts.list, usedSections, generated)
                  == InlineExtract(st0, secs, content, blockTypes, matcher, genId, i)
      {
        var section := secs[i];
        if Contains(blockTypes, section.kind) {
          var sectionContent := Slice(content, section.position.start.offset, section.position.end.offset);
          var found := matcher(sectionContent);
          if found.Some? {
            items, generated := StoreItem(inserts, items, generated, section, ItemContent(found.value.0, found.value.1), genId);
            usedSections := usedSections + [i];
          }
        }
      }

      SpliceUsed(sections, SortDesc(usedSections));
    }
  }
}
