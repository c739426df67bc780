/** The max-priority `Heap` of heap objects, as its unit test pins it
    down: `insert(e, prio)`, `front()`, `remove(e)` and `newPrio(e, prio)`.
    Only the unit test is part of this model, so the heap is modelled by
    its contents, an unordered sequence of entries, and `front` searches
    it; the array layout of a binary heap is not modelled.  Objects are
    identified by an integer id. */
module Heaps {
  import opened Wrappers

  datatype Entry = Entry(id: int, prio: int)

  type Heap = seq<Entry>

  /** An object is in the heap at most once. */
  predicate UniqueIds(h: Heap) {
    forall i, j | 0 <= i < j < |h| :: h[i].id != h[j].id
  }

  predicate HasId(h: Heap, id: int) {
    exists i | 0 <= i < |h| :: h[i].id == id
  }

  /** `e` has a priority no entry of `h` exceeds. */
  predicate IsMaximal(h: Heap, e: Entry) {
    forall k | 0 <= k < |h| :: h[k].prio <= e.prio
  }

  /** The index of the first entry of maximal priority. */
  function FrontIndex(h: Heap): (r: nat)
    requires |h| > 0
    ensures r < |h| && IsMaximal(h, h[r])
  {
    if |h| == 1 then 0
    else
      var r := FrontIndex(h[1..]) + 1;
      if h[0].prio >= h[r].prio then 0 else r
  }

  /** `front()`: an entry of maximal priority; `None` for the empty heap. */
  function Front(h: Heap): (r: Option<Entry>)
    ensures r.None? <==> |h| == 0
    ensures r.Some? ==> r.value in h && IsMaximal(h, r.value)
  {
    if |h| == 0 then None else Some(h[FrontIndex(h)])
  }

  /** `insert(e, prio)`: the object must not be in the heap yet. */
  function Insert(h: Heap, id: int, prio: int): (r: Heap)
    requires UniqueIds(h) && !HasId(h, id)
    ensures UniqueIds(r)
    ensures multiset(r) == multiset(h) + multiset{Entry(id, prio)}
  {
    h + [Entry(id, prio)]
  }

  /** The position of the object `id`. */
  function IndexOf(h: Heap, id: int): (r: Option<nat>)
    ensures r.None? <==> !HasId(h, id)
    ensures r.Some? ==> r.value < |h| && h[r.value].id == id
  {
    if |h| == 0 then None
    else if h[0].id == id then Some(0)
    else match IndexOf(h[1..], id)
      case None => None
      case Some(i) => Some(i + 1)
  }

  /** The heap without the entry at index `i`. */
  function RemoveAt(h: Heap, i: nat): (r: Heap)
    requires i < |h|
    ensures multiset(r) == multiset(h) - multiset{h[i]}
    ensures |r| == |h| - 1
  {
    assert h == h[..i] + [h[i]] + h[i + 1..];
    h[..i] + h[i + 1..]
  }

  /** `remove(e)`: takes the object out of the heap; an object that is not
      in the heap leaves it unchanged. */
  function Remove(h: Heap, id: int): (r: Heap)
    requires UniqueIds(h)
    ensures UniqueIds(r) && !HasId(r, id)
    ensures forall e: Entry :: e in r <==> e in h && e.id != id
  {
    match IndexOf(h, id)
    case None => h
    case Some(i) => RemoveAt(h, i)
  }

  /** `newPrio(e, prio)`: the object keeps its place among the contents
      with its new priority; nothing else changes. */
  function NewPrio(h: Heap, id: int, prio: int): (r: Heap)
    requires UniqueIds(h)
    ensures UniqueIds(r) && |r| == |h|
    ensures HasId(h, id) ==> Entry(id, prio) in r
    ensures forall e: Entry | e.id != id :: e in r <==> e in h
  {
    match IndexOf(h, id)
    case None => h
    case Some(i) => ReplaceEntry(h, i, Entry(id, prio)); h[i := Entry(id, prio)]
  }

  /** Replacing an entry by one for the same object keeps the ids unique
      and every other object's entry. */
  lemma ReplaceEntry(h: Heap, i: nat, e: Entry)
    requires UniqueIds(h) && i < |h| && h[i].id == e.id
    ensures UniqueIds(h[i := e]) && e in h[i := e]
    ensures forall f: Entry | f.id != e.id :: f in h[i := e] <==> f in h
  {
    var r := h[i := e];
    assert r[i] == e;
    forall f: Entry | f.id != e.id
      ensures f in r <==> f in h
    {
      if f in r {
        var k :| 0 <= k < |r| && r[k] == f;
        assert h[k] == f;
      }
      if f in h {
        var k :| 0 <= k < |h| && h[k] == f;
        assert r[k] == f;
      }
    }
  }

  /** Repeated `front()` and `remove()` until the heap is empty. */
  function Drain(h: Heap): seq<Entry>
    requires UniqueIds(h)
    decreases |h|
  {
    if |h| == 0 then []
    else
      var e := h[FrontIndex(h)];
      [e] + Drain(Remove(h, e.id))
  }

  /** Draining yields every entry exactly once. */
  lemma {:induction false} DrainContents(h: Heap)
    requires UniqueIds(h)
    ensures multiset(Drain(h)) == multiset(h)
    decreases |h|
  {
    if |h| > 0 {
      var i := FrontIndex(h);
      RemoveFront(h);
      DrainContents(RemoveAt(h, i));
    }
  }

  /** Removing the front object removes the entry at the front index. */
  lemma RemoveFront(h: Heap)
    requires UniqueIds(h) && |h| > 0
    ensures Remove(h, h[FrontIndex(h)].id) == RemoveAt(h, FrontIndex(h))
  {
    var i := FrontIndex(h);
    UniqueIndex(h, i, IndexOf(h, h[i].id).value);
  }

  /** Draining yields the entries in order of non-increasing priority. */
  lemma {:induction false} DrainSorted(h: Heap)
    requires UniqueIds(h)
    ensures forall i, j | 0 <= i < j < |Drain(h)| :: Drain(h)[i].prio >= Drain(h)[j].prio
    decreases |h|
  {
    if |h| > 0 {
      var e := h[FrontIndex(h)];
      var rest := Remove(h, e.id);
      DrainSorted(rest);
      DrainContents(rest);
      var d := Drain(h);
      assert d == [e] + Drain(rest);
      forall j | 0 < j < |d|
        ensures d[0].prio >= d[j].prio
      {
        assert d[j] in multiset(Drain(rest));
        MaximalBoundsMember(h, e, d[j]);
      }
    }
  }

  lemma MaximalBoundsMember(h: Heap, e: Entry, f: Entry)
    requires IsMaximal(h, e) && f in h
    ensures f.prio <= e.prio
  {
  }

  lemma UniqueIndex(h: Heap, i: nat, j: nat)
    requires UniqueIds(h) && i < |h| && j < |h| && h[i].id == h[j].id
    ensures i == j
  {
  }

  /** The ids of a sequence of entries. */
  function Ids(es: seq<Entry>): seq<int> {
    seq(|es|, k requires 0 <= k < |es| => es[k].id)
  }

  /** The heap of the unit test after its ten inserts, one remove and three
      priority changes. */
  function TestHeap(): Heap {
    [Entry(1000, 0), Entry(1001, 2), Entry(1002, 4), Entry(1003, 6), Entry(1004, 3),
     Entry(1005, 15), Entry(1006, 12), Entry(1007, 9), Entry(1008, 16)]
  }

  /** Priorities strictly decrease along `s`. */
  predicate StrictlyDecreasing(s: seq<Entry>) {
    forall i, j | 0 <= i < j < |s| :: s[i].prio > s[j].prio
  }

  /** `s` holds the same entries as `h`, each once. */
  ghost predicate SameEntries(h: Heap, s: seq<Entry>) {
    |s| == |h| && forall e: Entry :: e in s <==> e in h
  }

  /** When all priorities differ, the drain order is forced: it is the
      arrangement of the contents by decreasing priority. */
  lemma {:induction false} DrainOfDistinct(h: Heap, s: seq<Entry>)
    requires UniqueIds(h) && SameEntries(h, s) && StrictlyDecreasing(s)
    ensures Drain(h) == s
    decreases |h|
  {
    if |h| > 0 {
      var i := FrontIndex(h);
      FrontIsFirst(h, s);
      RemoveFront(h);
      var rest := RemoveAt(h, i);
      RestSameEntries(h, s);
      DrainOfDistinct(rest, s[1..]);
      assert s == [s[0]] + s[1..];
      assert Drain(h) == [h[i]] + Drain(rest);
    }
  }

  /** The front of the heap is the first entry of its arrangement by
      decreasing priority. */
  lemma FrontIsFirst(h: Heap, s: seq<Entry>)
    requires |h| > 0 && SameEntries(h, s) && StrictlyDecreasing(s)
    ensures |s| > 0 && s[0] == h[FrontIndex(h)]
  {
    var e := h[FrontIndex(h)];
    assert e in s;
    var k :| 0 <= k < |s| && s[k] == e;
    assert s[0] in h;
    MaximalBoundsMember(h, e, s[0]);
  }

  /** Taking the front off both leaves the same entries. */
  lemma RestSameEntries(h: Heap, s: seq<Entry>)
    requires UniqueIds(h) && |h| > 0 && SameEntries(h, s) && StrictlyDecreasing(s)
    requires s[0] == h[FrontIndex(h)]
    ensures var rest := Remove(h, s[0].id);
      SameEntries(rest, s[1..]) && StrictlyDecreasing(s[1..])
  {
    RestMembers(h, s);
    SuffixDecreasing(s);
  }

  lemma RestMembers(h: Heap, s: seq<Entry>)
    requires UniqueIds(h) && |h| > 0 && SameEntries(h, s) && StrictlyDecreasing(s)
    requires s[0] == h[FrontIndex(h)]
    ensures forall f: Entry :: f in s[1..] <==> f in Remove(h, s[0].id)
  {
    var rest := Remove(h, s[0].id);
    forall f: Entry
      ensures f in s[1..] <==> f in rest
    {
      if f in s[1..] {
        LaterEntry(h, s, f);
      }
      if f in rest {
        OtherEntry(s, f);
      }
    }
  }

  lemma SuffixDecreasing(s: seq<Entry>)
    requires |s| > 0 && StrictlyDecreasing(s)
    ensures StrictlyDecreasing(s[1..])
  {
    forall i, j | 0 <= i < j < |s[1..]|
      ensures s[1..][i].prio > s[1..][j].prio
    {
      assert s[1..][i] == s[i + 1] && s[1..][j] == s[j + 1];
    }
  }

  /** An entry after the first of `s` is another object than the first. */
  lemma LaterEntry(h: Heap, s: seq<Entry>, f: Entry)
    requires UniqueIds(h) && |s| > 0 && SameEntries(h, s) && StrictlyDecreasing(s)
    requires f in s[1..]
    ensures f.id != s[0].id
  {
    var k :| 0 <= k < |s[1..]| && s[1..][k] == f;
    assert s[k + 1] == f;
    assert f in h && s[0] in h;
    var a :| 0 <= a < |h| && h[a] == f;
    var b :| 0 <= b < |h| && h[b] == s[0];
  }

  /** An entry of `s` that is not the first comes after it. */
  lemma OtherEntry(s: seq<Entry>, f: Entry)
    requires |s| > 0 && f in s && f != s[0]
    ensures f in s[1..]
  {
    var k :| 0 <= k < |s| && s[k] == f;
    assert s[1..][k - 1] == f;
  }

  /** The heap of the unit test after its ten inserts and its remove. */
  lemma TestSetUp()
    ensures var h0 := seq(10, i requires 0 <= i < 10 => Entry(1000 + i, 2 * i));
      UniqueIds(h0) && Front(h0) == Some(Entry(1009, 18)) &&
      Remove(h0, 1009) == seq(9, i requires 0 <= i < 9 => Entry(1000 + i, 2 * i))
  {
    var h0 := seq(10, i requires 0 <= i < 10 => Entry(1000 + i, 2 * i));
    assert h0[9].id == 1009;
    assert IndexOf(h0, 1009) == Some(9) by { UniqueIndex(h0, 9, IndexOf(h0, 1009).value); }
    assert FrontIndex(h0) == 9 by {
      var f := FrontIndex(h0);
      assert h0[f].prio >= h0[9].prio;
    }
  }

  /** Changing the priority of the object at index `i`. */
  lemma NewPrioAt(h: Heap, i: nat, prio: int)
    requires UniqueIds(h) && i < |h|
    ensures NewPrio(h, h[i].id, prio) == h[i := Entry(h[i].id, prio)]
  {
    UniqueIndex(h, i, IndexOf(h, h[i].id).value);
  }

  /** The contents of the heap before the priority changes. */
  predicate IsTestStart(h: Heap) {
    h == seq(9, i requires 0 <= i < 9 => Entry(1000 + i, 2 * i))
  }

  /** The three priority changes of the unit test. */
  lemma TestPriorityChanges(h1: Heap)
    requires IsTestStart(h1)
    ensures UniqueIds(h1)
    ensures var h2 := NewPrio(h1, 1005, 15);
      UniqueIds(h2) &&
      var h3 := NewPrio(h2, 1004, 3);
      UniqueIds(h3) &&
      NewPrio(h3, 1007, 9) == TestHeap()
  {
    NewPrioAt(h1, 5, 15);
    var h2 := h1[5 := Entry(1005, 15)];
    NewPrioAt(h2, 4, 3);
    var h3 := h2[4 := Entry(1004, 3)];
    NewPrioAt(h3, 7, 9);
    assert h3[7 := Entry(1007, 9)] == TestHeap();
  }

  /** The order the unit test expects. */
  function ExpectedOrder(): seq<Entry> {
    [Entry(1008, 16), Entry(1005, 15), Entry(1006, 12), Entry(1007, 9),
     Entry(1003, 6), Entry(1002, 4), Entry(1004, 3), Entry(1001, 2), Entry(1000, 0)]
  }

  lemma ExpectedOrderContents()
    ensures SameEntries(TestHeap(), ExpectedOrder())
  {
  }

  lemma ExpectedOrderDecreasing()
    ensures StrictlyDecreasing(ExpectedOrder())
  {
    assert StepsDecrease(ExpectedOrder());
    StepsDecreaseStrictly(ExpectedOrder());
  }

  lemma ExpectedOrderIds()
    ensures Ids(ExpectedOrder()) == [1008, 1005, 1006, 1007, 1003, 1002, 1004, 1001, 1000]
  {
  }

  /** Priorities decrease from each entry to the next. */
  predicate StepsDecrease(s: seq<Entry>) {
    forall i | 0 <= i < |s| - 1 :: s[i].prio > s[i + 1].prio
  }

  lemma {:induction false} StepsDecreaseStrictly(s: seq<Entry>)
    requires StepsDecrease(s)
    ensures StrictlyDecreasing(s)
    decreases |s|
  {
    if |s| > 1 {
      StepsDecreaseStrictly(s[1..]);
      forall j | 1 < j < |s|
        ensures s[0].prio > s[j].prio
      {
        assert s[1..][0].prio > s[1..][j - 1].prio;
      }
    }
  }

  /** The unit test: objects 1000..1009 inserted with priorities 0, 2, ..,
      18; the front is 1009; after removing it and giving 1005, 1004 and
      1007 the priorities 15, 3 and 9, the fronts come out in the order
      1008, 1005, 1006, 1007, 1003, 1002, 1004, 1001, 1000. */
  lemma UnitTest(h1: Heap)
    requires IsTestStart(h1)
    ensures UniqueIds(h1)
    ensures var h4 := NewPrio(NewPrio(NewPrio(h1, 1005, 15), 1004, 3), 1007, 9);
      UniqueIds(h4) &&
      Ids(Drain(h4)) == [1008, 1005, 1006, 1007, 1003, 1002, 1004, 1001, 1000]
  {
    TestPriorityChanges(h1);
    ExpectedOrderContents();
    ExpectedOrderDecreasing();
    ExpectedOrderIds();
    var h4 := NewPrio(NewPrio(NewPrio(h1, 1005, 15), 1004, 3), 1007, 9);
    DrainOfDistinct(h4, ExpectedOrder());
  }
}
