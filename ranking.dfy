// The sort table of find_time/main.py:7-19 and the loop at lines 95-96 that
// applies the chosen sorts one after another.  Python's sorted() is stable,
// also with reverse=True, so every sort here is a stable insertion sort: an
// element moves left only past elements that must come after it.
module Ranking {
  import opened Calendar
  import opened Wrappers

  datatype Direction = Ascending | Descending

  /** The closed table of sort functions: 'none' and a key with '<' or '>'. */
  datatype SortKey = Unsorted | ByAvailable(dir: Direction) | ByLength(dir: Direction) | ByStart(dir: Direction)

  /** The table key under which each sort is registered. */
  function Name(k: SortKey): string {
    match k
    case Unsorted => "none"
    case ByAvailable(Ascending) => "available<"
    case ByAvailable(Descending) => "available>"
    case ByLength(Ascending) => "length<"
    case ByLength(Descending) => "length>"
    case ByStart(Ascending) => "start<"
    case ByStart(Descending) => "start>"
  }

  /** Looks a name up in the table; a name not in it yields None (a KeyError in the source). */
  function Lookup(name: string): Option<SortKey> {
    match name
    case "none" => Some(Unsorted)
    case "available<" => Some(ByAvailable(Ascending))
    case "available>" => Some(ByAvailable(Descending))
    case "length<" => Some(ByLength(Ascending))
    case "length>" => Some(ByLength(Descending))
    case "start<" => Some(ByStart(Ascending))
    case "start>" => Some(ByStart(Descending))
    case _ => None
  }

  /** The table is exactly the seven names: lookup and Name are inverse. */
  lemma LookupIsTable(name: string, k: SortKey)
    ensures Lookup(name) == Some(k) <==> Name(k) == name
  {
  }

  /** The start key: the day's enum value times 24 plus the start hour. */
  function StartKey(b: Block): real {
    (b.time.day.Ordinal() * 24) as real + b.time.start
  }

  /** For start hours within the day, the start key orders blocks by weekday, then by start hour. */
  lemma StartKeyChronological(a: Block, b: Block)
    requires 0.0 <= a.time.start < 24.0 && 0.0 <= b.time.start < 24.0
    ensures StartKey(a) < StartKey(b) <==>
      a.time.day.Ordinal() < b.time.day.Ordinal()
      || (a.time.day == b.time.day && a.time.start < b.time.start)
  {
    var da, db := a.time.day.Ordinal(), b.time.day.Ordinal();
    assert da == db <==> a.time.day == b.time.day;
    if da < db {
      assert (da * 24) as real + 24.0 <= (db * 24) as real;
    } else if db < da {
      assert (db * 24) as real + 24.0 <= (da * 24) as real;
    }
  }

  /** The value a sort compares blocks by. */
  function KeyValue(k: SortKey, b: Block): real {
    match k
    case Unsorted => 0.0
    case ByAvailable(_) => NumAvailable(b) as real
    case ByLength(_) => Duration(b)
    case ByStart(_) => StartKey(b)
  }

  /** The direction of a sort; 'none' compares every block equal, so either would do. */
  function Dir(k: SortKey): Direction {
    if k == Unsorted then Ascending else k.dir
  }

  /** x may stand before y in the output of sort k. */
  predicate InOrder(k: SortKey, x: Block, y: Block) {
    if Dir(k) == Ascending then KeyValue(k, x) <= KeyValue(k, y) else KeyValue(k, x) >= KeyValue(k, y)
  }

  predicate Sorted(k: SortKey, s: seq<Block>) {
    forall i, j :: 0 <= i < j < |s| ==> InOrder(k, s[i], s[j])
  }

  /** The blocks of s whose key is v, in their order in s. */
  function KeyClass(k: SortKey, s: seq<Block>, v: real): seq<Block>
  {
    if s == [] then []
    else KeyClass(k, s[..|s| - 1], v) + (if KeyValue(k, s[|s| - 1]) == v then [s[|s| - 1]] else [])
  }

  /** A key class holds only blocks of s with that key. */
  lemma {:induction false} KeyClassMembers(k: SortKey, s: seq<Block>, v: real)
    ensures forall y :: y in KeyClass(k, s, v) ==> y in s && KeyValue(k, y) == v
  {
    if s != [] {
      KeyClassMembers(k, s[..|s| - 1], v);
    }
  }

  /** r keeps the relative order of the blocks that share a key. */
  ghost predicate Stable(k: SortKey, r: seq<Block>, s: seq<Block>) {
    forall v :: KeyClass(k, r, v) == KeyClass(k, s, v)
  }

  /** Inserts x after every block of t that may precede it. */
  function Insert(k: SortKey, t: seq<Block>, x: Block): seq<Block>
    decreases |t|
  {
    if t == [] || InOrder(k, t[|t| - 1], x) then t + [x]
    else Insert(k, t[..|t| - 1], x) + [t[|t| - 1]]
  }

  /** Stable insertion sort: each element is inserted, in input order, into the sorted prefix. */
  function StableSort(k: SortKey, s: seq<Block>): seq<Block>
  {
    if s == [] then []
    else Insert(k, StableSort(k, s[..|s| - 1]), s[|s| - 1])
  }

  /** The sort rearranges its input and nothing more. */
  lemma {:induction false} SortPermutes(k: SortKey, s: seq<Block>)
    ensures multiset(StableSort(k, s)) == multiset(s)
  {
    if s != [] {
      var init, last := s[..|s| - 1], s[|s| - 1];
      SortPermutes(k, init);
      InsertPermutes(k, StableSort(k, init), last);
      assert s == init + [last];
    }
  }

  /** The sort's output is in key order. */
  lemma {:induction false} SortSorted(k: SortKey, s: seq<Block>)
    ensures Sorted(k, StableSort(k, s))
  {
    if s != [] {
      SortSorted(k, s[..|s| - 1]);
      InsertSorted(k, StableSort(k, s[..|s| - 1]), s[|s| - 1]);
    }
  }

  /** The sort function registered under k: identity for 'none', else the stable sort. */
  function Apply(k: SortKey, s: seq<Block>): (r: seq<Block>)
    ensures multiset(r) == multiset(s)
    ensures Sorted(k, r)
    ensures Stable(k, r, s)
    ensures k == Unsorted ==> r == s
  {
    if k == Unsorted then s
    else
      SortPermutes(k, s);
      SortSorted(k, s);
      SortStable(k, s);
      StableSort(k, s)
  }

  /** Insertion adds x and nothing else. */
  lemma {:induction false} InsertPermutes(k: SortKey, t: seq<Block>, x: Block)
    ensures multiset(Insert(k, t, x)) == multiset(t) + multiset{x}
    decreases |t|
  {
    if t != [] && !InOrder(k, t[|t| - 1], x) {
      var init, last := t[..|t| - 1], t[|t| - 1];
      InsertPermutes(k, init, x);
      assert t == init + [last];
    }
  }

  lemma SortedAppend(k: SortKey, a: seq<Block>, z: Block)
    requires Sorted(k, a)
    requires forall y :: y in a ==> InOrder(k, y, z)
    ensures Sorted(k, a + [z])
  {
    forall i, j | 0 <= i < j < |a| + 1
      ensures InOrder(k, (a + [z])[i], (a + [z])[j])
    {
      if j == |a| {
        assert (a + [z])[i] in a;
      }
    }
  }

  lemma {:induction false} InsertSorted(k: SortKey, t: seq<Block>, x: Block)
    requires Sorted(k, t)
    ensures Sorted(k, Insert(k, t, x))
    decreases |t|
  {
    if t == [] {
    } else if InOrder(k, t[|t| - 1], x) {
      forall y | y in t
        ensures InOrder(k, y, x)
      {
        var i :| 0 <= i < |t| && t[i] == y;
        if i < |t| - 1 {
          assert InOrder(k, t[i], t[|t| - 1]);
        }
      }
      SortedAppend(k, t, x);
    } else {
      var init, last := t[..|t| - 1], t[|t| - 1];
      SortedPrefix(k, t);
      InsertSorted(k, init, x);
      InsertPermutes(k, init, x);
      var ins := Insert(k, init, x);
      forall y | y in ins
        ensures InOrder(k, y, last)
      {
        assert y in multiset(ins);
        if y != x {
          assert y in multiset(init);
          var i :| 0 <= i < |init| && init[i] == y;
          assert InOrder(k, t[i], t[|t| - 1]);
        }
      }
      SortedAppend(k, ins, last);
    }
  }

  /** Dropping the last element keeps a sequence sorted. */
  lemma SortedPrefix(k: SortKey, s: seq<Block>)
    requires Sorted(k, s) && s != []
    ensures Sorted(k, s[..|s| - 1])
  {
    var init := s[..|s| - 1];
    forall i, j | 0 <= i < j < |init|
      ensures InOrder(k, init[i], init[j])
    {
      assert init[i] == s[i] && init[j] == s[j];
    }
  }

  lemma KeyClassAppend(k: SortKey, a: seq<Block>, z: Block, v: real)
    ensures KeyClass(k, a + [z], v) == KeyClass(k, a, v) + (if KeyValue(k, z) == v then [z] else [])
  {
    assert (a + [z])[..|a|] == a;
  }

  /** Inserting x adds it to its own key class, at the end, and changes no other class. */
  lemma {:induction false} InsertKeyClass(k: SortKey, t: seq<Block>, x: Block, v: real)
    ensures KeyClass(k, Insert(k, t, x), v) == KeyClass(k, t, v) + (if KeyValue(k, x) == v then [x] else [])
    decreases |t|
  {
    if t == [] || InOrder(k, t[|t| - 1], x) {
      KeyClassAppend(k, t, x, v);
    } else {
      var init, last := t[..|t| - 1], t[|t| - 1];
      var ins := Insert(k, init, x);
      assert Insert(k, t, x) == ins + [last];
      assert KeyValue(k, last) != KeyValue(k, x);
      InsertKeyClass(k, init, x, v);
      KeyClassAppend(k, ins, last, v);
      assert t == init + [last];
      KeyClassAppend(k, init, last, v);
    }
  }

  /** Stability: within each key, the sort keeps input order. */
  lemma {:induction false} SortStable(k: SortKey, s: seq<Block>)
    ensures Stable(k, StableSort(k, s), s)
  {
    if s != [] {
      var init, last := s[..|s| - 1], s[|s| - 1];
      SortStable(k, init);
      forall v
        ensures KeyClass(k, StableSort(k, s), v) == KeyClass(k, s, v)
      {
        InsertKeyClass(k, StableSort(k, init), last, v);
      }
    }
  }

  /** A sequence already in order is left unchanged by the sort. */
  lemma {:induction false} SortOfSorted(k: SortKey, s: seq<Block>)
    requires Sorted(k, s)
    ensures StableSort(k, s) == s
  {
    if s != [] {
      var init, last := s[..|s| - 1], s[|s| - 1];
      SortedPrefix(k, s);
      SortOfSorted(k, init);
      AppendInOrder(k, s);
      assert s == init + [last];
    }
  }

  /** The last element of a sorted sequence is inserted at the end. */
  lemma AppendInOrder(k: SortKey, s: seq<Block>)
    requires Sorted(k, s) && s != []
    ensures Insert(k, s[..|s| - 1], s[|s| - 1]) == s[..|s| - 1] + [s[|s| - 1]]
  {
    if |s| > 1 {
      assert InOrder(k, s[|s| - 2], s[|s| - 1]);
    }
  }

  /** Applying the same sort twice in a row is the same as applying it once. */
  lemma ApplyIdempotent(k: SortKey, s: seq<Block>)
    ensures Apply(k, Apply(k, s)) == Apply(k, s)
  {
    if k != Unsorted {
      SortOfSorted(k, Apply(k, s));
    }
  }

  /** A key class of a sequence sorted by k1 is itself sorted by k1. */
  lemma {:induction false} KeyClassOfSorted(k1: SortKey, k2: SortKey, s: seq<Block>, v: real)
    requires Sorted(k1, s)
    ensures Sorted(k1, KeyClass(k2, s, v))
  {
    if s != [] {
      var init, last := s[..|s| - 1], s[|s| - 1];
      SortedPrefix(k1, s);
      KeyClassOfSorted(k1, k2, init, v);
      KeyClassMembers(k2, init, v);
      if KeyValue(k2, last) == v {
        forall y | y in KeyClass(k2, init, v)
          ensures InOrder(k1, y, last)
        {
          var i :| 0 <= i < |init| && init[i] == y;
          assert InOrder(k1, s[i], s[|s| - 1]);
        }
        SortedAppend(k1, KeyClass(k2, init, v), last);
      }
    }
  }

  /**
   * Sorting by k1 and then by k2 orders by k2 and, among blocks with equal k2
   * keys, by k1: the earlier sort breaks the later one's ties.
   */
  lemma LaterSortBreaksTiesByEarlier(k1: SortKey, k2: SortKey, s: seq<Block>)
    ensures Sorted(k2, Apply(k2, Apply(k1, s)))
    ensures forall v :: Sorted(k1, KeyClass(k2, Apply(k2, Apply(k1, s)), v))
  {
    var r := Apply(k2, Apply(k1, s));
    forall v
      ensures Sorted(k1, KeyClass(k2, r, v))
    {
      KeyClassOfSorted(k1, k2, Apply(k1, s), v);
    }
  }

  /** The sorts named in `keys`, applied left to right. */
  function ApplyAll(keys: seq<SortKey>, s: seq<Block>): seq<Block>
  {
    if keys == [] then s
    else Apply(keys[|keys| - 1], ApplyAll(keys[..|keys| - 1], s))
  }

  /** The loop at find_time/main.py:95-96: each sort is applied to the previous result. */
  method ApplySorts(blocks: seq<Block>, keys: seq<SortKey>) returns (sorted: seq<Block>)
    ensures sorted == ApplyAll(keys, blocks)
    ensures multiset(sorted) == multiset(blocks)
    ensures |keys| > 0 ==> Sorted(keys[|keys| - 1], sorted)
  {
    sorted := blocks;
    for i := 0 to |keys|
      invariant sorted == ApplyAll(keys[..i], blocks)
      invariant multiset(sorted) == multiset(blocks)
      invariant i > 0 ==> Sorted(keys[i - 1], sorted)
    {
      assert keys[..i + 1][..i] == keys[..i];
      sorted := Apply(keys[i], sorted);
    }
    assert keys[..|keys|] == keys;
  }
}
