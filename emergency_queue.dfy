/**
 * The emergency intake queue: an array-backed binary min-heap of patients,
 * keyed on urgency (a lower urgency is treated first).
 *
 * The heap is a Python list changed in place; here it is the `seq` field
 * `data` of class `MinHeap`. Each loop of the class is proved against a
 * function on sequences (`SiftUp`, `SiftDown`), and the heap property, the
 * permutation and the minimality of the extracted patient are proved as
 * lemmas about those functions.
 */
module EmergencyQueue {
  import opened Wrappers

  /** A patient record: an opaque name and an integer urgency. */
  datatype Patient = Patient(name: string, urgency: int)

  // ---------------------------------------------------------------------
  // Index arithmetic and the heap property
  // ---------------------------------------------------------------------

  /** Index of the parent of slot `i`, Python's `(i - 1) // 2` for `i > 0`. */
  function Parent(i: nat): (p: nat)
    requires i > 0
    ensures p < i
    ensures i == 2 * p + 1 || i == 2 * p + 2
  {
    (i - 1) / 2
  }

  /** Every slot but the root holds an urgency no smaller than its parent's. */
  ghost predicate IsMinHeap(s: seq<Patient>)
  {
    forall j :: 0 < j < |s| ==> s[Parent(j)].urgency <= s[j].urgency
  }

  /**
   * The state in the middle of a sift-up at slot `k`: the heap property holds
   * for every edge except the one from `k` to its parent, and `k`'s parent is
   * no larger than `k`'s children.
   */
  ghost predicate HeapExceptUp(s: seq<Patient>, k: nat)
    requires k < |s|
  {
    && (forall j :: 0 < j < |s| && j != k ==> s[Parent(j)].urgency <= s[j].urgency)
    && (k > 0 ==> forall j :: 0 < j < |s| && Parent(j) == k ==> s[Parent(k)].urgency <= s[j].urgency)
  }

  /**
   * The state in the middle of a sift-down at slot `k`: the heap property holds
   * for every edge except the ones from `k` to its children, and `k`'s parent
   * is no larger than `k`'s children.
   */
  ghost predicate HeapExceptDown(s: seq<Patient>, k: nat)
    requires k < |s|
  {
    && (forall j :: 0 < j < |s| && Parent(j) != k ==> s[Parent(j)].urgency <= s[j].urgency)
    && (k > 0 ==> forall j :: 0 < j < |s| && Parent(j) == k ==> s[Parent(k)].urgency <= s[j].urgency)
  }

  /** The tuple swap `data[i], data[j] = data[j], data[i]`. */
  function Swap(s: seq<Patient>, i: nat, j: nat): (r: seq<Patient>)
    requires i < |s| && j < |s|
    ensures |r| == |s| && r[i] == s[j] && r[j] == s[i]
    ensures forall k :: 0 <= k < |s| && k != i && k != j ==> r[k] == s[k]
    ensures multiset(r) == multiset(s)
  {
    s[i := s[j]][j := s[i]]
  }

  // ---------------------------------------------------------------------
  // The sift operations as functions on sequences
  // ---------------------------------------------------------------------

  /**
   * `heapify_up(i)`: while the patient at `i` is strictly more urgent than
   * its parent, swap the two and continue from the parent. It only swaps, so
   * the result is a permutation of `s`.
   */
  function SiftUp(s: seq<Patient>, i: nat): (r: seq<Patient>)
    requires i < |s|
    ensures |r| == |s| && multiset(r) == multiset(s)
    decreases i
  {
    if i == 0 then s
    else
      var p := Parent(i);
      if s[i].urgency < s[p].urgency then SiftUp(Swap(s, i, p), p) else s
  }

  /**
   * The slot `heapify_down` picks at `i`: the smallest of `i` and its existing
   * children, where `i` wins every tie and the left child wins a tie with the
   * right one (a slot replaces the candidate only when strictly smaller).
   */
  function Smallest(s: seq<Patient>, i: nat): (c: nat)
    ensures c == i || c == 2 * i + 1 || c == 2 * i + 2
    ensures c != i ==> c < |s| && s[c].urgency < s[i].urgency
    ensures i < |s| ==> c < |s| && s[c].urgency <= s[i].urgency
    ensures i < |s| && 2 * i + 1 < |s| ==> s[c].urgency <= s[2 * i + 1].urgency
    ensures i < |s| && 2 * i + 2 < |s| ==> s[c].urgency <= s[2 * i + 2].urgency
    ensures c == 2 * i + 2 ==> s[2 * i + 2].urgency < s[2 * i + 1].urgency
  {
    var left, right := 2 * i + 1, 2 * i + 2;
    var afterLeft := if left < |s| && s[left].urgency < s[i].urgency then left else i;
    if right < |s| && s[right].urgency < s[afterLeft].urgency then right else afterLeft
  }

  /**
   * `heapify_down(i)`: swap the patient at `i` with the slot `Smallest` picks
   * until that slot is `i` itself. An index past the end changes nothing.
   */
  function SiftDown(s: seq<Patient>, i: nat): (r: seq<Patient>)
    ensures |r| == |s| && multiset(r) == multiset(s)
    decreases |s| - i
  {
    var c := Smallest(s, i);
    if c != i then SiftDown(Swap(s, i, c), c) else s
  }

  /** `insert(patient)`: append, then sift the new last slot up. */
  function Inserted(s: seq<Patient>, patient: Patient): (r: seq<Patient>)
    ensures |r| == |s| + 1
    ensures multiset(r) == multiset(s) + multiset{patient}
  {
    SiftUp(s + [patient], |s|)
  }

  /**
   * `remove_min()`: the root (or `None` when empty) and the list after the
   * last patient is moved to the root, the last slot popped and, when anything
   * is left, the root sifted down.
   */
  function MinRemoved(s: seq<Patient>): (res: (Option<Patient>, seq<Patient>))
    ensures s == [] ==> res == (None, [])
    ensures s != [] ==> res.0 == Some(s[0]) && |res.1| == |s| - 1
    ensures s != [] ==> multiset(res.1) == multiset(s) - multiset{s[0]}
  {
    if |s| == 0 then (None, s)
    else
      var moved := s[0 := s[|s| - 1]][..|s| - 1];
      assert |s| > 1 ==> s == [s[0]] + s[1..|s| - 1] + [s[|s| - 1]] && moved == [s[|s| - 1]] + s[1..|s| - 1];
      (Some(s[0]), if |moved| > 0 then SiftDown(moved, 0) else moved)
  }

  // ---------------------------------------------------------------------
  // Lemmas: the heap property, minimality, tie-breaking
  // ---------------------------------------------------------------------

  /** In a min-heap the root is no larger than any slot. */
  lemma {:induction false} RootIsMinimum(s: seq<Patient>, i: nat)
    requires IsMinHeap(s) && i < |s|
    ensures s[0].urgency <= s[i].urgency
    decreases i
  {
    if i > 0 {
      RootIsMinimum(s, Parent(i));
    }
  }

  /** One swap of a sift-up moves the single violation one level up. */
  lemma SiftUpStep(s: seq<Patient>, k: nat)
    requires 0 < k < |s| && HeapExceptUp(s, k)
    requires s[k].urgency < s[Parent(k)].urgency
    ensures HeapExceptUp(Swap(s, k, Parent(k)), Parent(k))
  {
    var p := Parent(k);
    var t := Swap(s, k, p);
    forall j | 0 < j < |t| && j != p
      ensures t[Parent(j)].urgency <= t[j].urgency
    {
      if j == k {
      } else if Parent(j) == p {
        assert t[j] == s[j];
      } else if Parent(j) == k {
        assert t[j] == s[j];
      } else {
        assert t[j] == s[j] && t[Parent(j)] == s[Parent(j)];
      }
    }
    if p > 0 {
      forall j | 0 < j < |t| && Parent(j) == p
        ensures t[Parent(p)].urgency <= t[j].urgency
      {
        assert t[Parent(p)] == s[Parent(p)];
        if j != k {
          assert t[j] == s[j];
        }
      }
    }
  }

  /** A sift-up started at the only violation yields a min-heap. */
  lemma {:induction false} SiftUpRestoresHeap(s: seq<Patient>, k: nat)
    requires k < |s| && HeapExceptUp(s, k)
    ensures IsMinHeap(SiftUp(s, k))
    decreases k
  {
    if k > 0 && s[k].urgency < s[Parent(k)].urgency {
      SiftUpStep(s, k);
      SiftUpRestoresHeap(Swap(s, k, Parent(k)), Parent(k));
    }
  }

  /** One swap of a sift-down moves the violation one level down. */
  lemma SiftDownStep(s: seq<Patient>, k: nat)
    requires k < |s| && HeapExceptDown(s, k)
    requires Smallest(s, k) != k
    ensures HeapExceptDown(Swap(s, k, Smallest(s, k)), Smallest(s, k))
  {
    var c := Smallest(s, k);
    var t := Swap(s, k, c);
    assert Parent(c) == k;
    assert t[k] == s[c] && t[c] == s[k];
    forall j | 0 < j < |t| && Parent(j) != c
      ensures t[Parent(j)].urgency <= t[j].urgency
    {
      if j == c {
      } else if Parent(j) == k {
        assert j == 2 * k + 1 || j == 2 * k + 2;
        assert t[j] == s[j];
      } else if j == k {
        assert t[Parent(k)] == s[Parent(k)];
        assert s[Parent(k)].urgency <= s[c].urgency;
      } else {
        assert t[j] == s[j] && t[Parent(j)] == s[Parent(j)];
      }
    }
    forall j | 0 < j < |t| && Parent(j) == c
      ensures t[Parent(c)].urgency <= t[j].urgency
    {
      assert j != k && j != c;
      assert t[j] == s[j];
    }
  }

  /** When `Smallest` keeps `k`, the only possible violation is gone. */
  lemma SiftDownStop(s: seq<Patient>, k: nat)
    requires k < |s| && HeapExceptDown(s, k)
    requires Smallest(s, k) == k
    ensures IsMinHeap(s)
  {
    forall j | 0 < j < |s| && Parent(j) == k
      ensures s[Parent(j)].urgency <= s[j].urgency
    {
    }
  }

  /** A sift-down started at the only violation yields a min-heap. */
  lemma {:induction false} SiftDownRestoresHeap(s: seq<Patient>, k: nat)
    requires k < |s| && HeapExceptDown(s, k)
    ensures IsMinHeap(SiftDown(s, k))
    decreases |s| - k
  {
    var c := Smallest(s, k);
    if c != k {
      SiftDownStep(s, k);
      SiftDownRestoresHeap(Swap(s, k, c), c);
    } else {
      SiftDownStop(s, k);
    }
  }

  /** Inserting into a min-heap yields a min-heap. */
  lemma InsertKeepsHeap(s: seq<Patient>, patient: Patient)
    requires IsMinHeap(s)
    ensures IsMinHeap(Inserted(s, patient))
  {
    var t := s + [patient];
    assert HeapExceptUp(t, |s|) by {
      assert forall j :: 0 <= j < |s| ==> t[j] == s[j];
    }
    SiftUpRestoresHeap(t, |s|);
  }

  /**
   * Removing from a non-empty min-heap returns a patient of minimum urgency
   * and leaves a min-heap.
   */
  lemma RemoveMinKeepsHeap(s: seq<Patient>)
    requires IsMinHeap(s) && s != []
    ensures MinRemoved(s).0 == Some(s[0])
    ensures forall i :: 0 <= i < |s| ==> s[0].urgency <= s[i].urgency
    ensures IsMinHeap(MinRemoved(s).1)
  {
    forall i | 0 <= i < |s|
      ensures s[0].urgency <= s[i].urgency
    {
      RootIsMinimum(s, i);
    }
    var moved := s[0 := s[|s| - 1]][..|s| - 1];
    if |moved| > 0 {
      assert HeapExceptDown(moved, 0) by {
        assert forall j :: 0 < j < |moved| ==> moved[j] == s[j];
      }
      SiftDownRestoresHeap(moved, 0);
    }
  }

  /**
   * Because both sifts swap only on a strict `<`, neither moves anything in a
   * min-heap: patients of equal urgency keep their places.
   */
  lemma HeapIsFixedPoint(s: seq<Patient>, i: nat)
    requires IsMinHeap(s) && i < |s|
    ensures SiftUp(s, i) == s
    ensures SiftDown(s, i) == s
  {
    if 2 * i + 1 < |s| {
      assert Parent(2 * i + 1) == i;
    }
    if 2 * i + 2 < |s| {
      assert Parent(2 * i + 2) == i;
    }
  }

  // ---------------------------------------------------------------------
  // Repeated extraction
  // ---------------------------------------------------------------------

  /** The patients in the order that calling `remove_min` until `None` returns them. */
  function Drain(s: seq<Patient>): (r: seq<Patient>)
    ensures multiset(r) == multiset(s)
    decreases |s|
  {
    var (m, rest) := MinRemoved(s);
    if m.None? then [] else [m.value] + Drain(rest)
  }

  /** A heap built by inserting `items` one at a time into an empty heap. */
  function Build(items: seq<Patient>): (r: seq<Patient>)
    ensures multiset(r) == multiset(items)
  {
    if items == [] then []
    else
      assert items == items[..|items| - 1] + [items[|items| - 1]];
      Inserted(Build(items[..|items| - 1]), items[|items| - 1])
  }

  ghost predicate SortedByUrgency(s: seq<Patient>)
  {
    forall i, j :: 0 <= i < j < |s| ==> s[i].urgency <= s[j].urgency
  }

  /** Draining a min-heap returns its patients in non-decreasing urgency. */
  lemma {:induction false} DrainIsSorted(s: seq<Patient>)
    requires IsMinHeap(s)
    ensures SortedByUrgency(Drain(s))
    decreases |s|
  {
    if s != [] {
      var rest := MinRemoved(s).1;
      RemoveMinKeepsHeap(s);
      DrainIsSorted(rest);
      var d := Drain(rest);
      assert Drain(s) == [s[0]] + d;
      forall k | 0 <= k < |d|
        ensures s[0].urgency <= d[k].urgency
      {
        assert d[k] in multiset(d);
        MemberOfHeapAboveRoot(s, d[k]);
      }
      SortedCons(s[0], d);
    }
  }

  /** Anything the multiset of a min-heap holds is no more urgent than its root. */
  lemma MemberOfHeapAboveRoot(s: seq<Patient>, x: Patient)
    requires IsMinHeap(s) && x in multiset(s)
    ensures s[0].urgency <= x.urgency
  {
    var i :| 0 <= i < |s| && s[i] == x;
    RootIsMinimum(s, i);
  }

  lemma SortedCons(x: Patient, d: seq<Patient>)
    requires SortedByUrgency(d)
    requires forall k :: 0 <= k < |d| ==> x.urgency <= d[k].urgency
    ensures SortedByUrgency([x] + d)
  {
    var e := [x] + d;
    forall i, j | 0 <= i < j < |e|
      ensures e[i].urgency <= e[j].urgency
    {
      assert e[j] == d[j - 1];
      if i > 0 {
        assert e[i] == d[i - 1];
      }
    }
  }

  /** Building a heap stays a min-heap at every step. */
  lemma {:induction false} BuildIsHeap(items: seq<Patient>)
    ensures IsMinHeap(Build(items))
    decreases |items|
  {
    if items != [] {
      BuildIsHeap(items[..|items| - 1]);
      InsertKeepsHeap(Build(items[..|items| - 1]), items[|items| - 1]);
    }
  }

  /**
   * Inserting `items` and then draining the heap returns exactly those
   * patients, sorted by urgency.
   */
  lemma InsertThenDrainSorts(items: seq<Patient>)
    ensures multiset(Drain(Build(items))) == multiset(items)
    ensures SortedByUrgency(Drain(Build(items)))
  {
    BuildIsHeap(items);
    DrainIsSorted(Build(items));
  }

  // ---------------------------------------------------------------------
  // The imperative heap
  // ---------------------------------------------------------------------

  class MinHeap {
    var data: seq<Patient>

    ghost predicate Valid()
      reads this
    {
      IsMinHeap(data)
    }

    constructor ()
      ensures data == [] && Valid()
    {
      data := [];
    }

    method HeapifyUp(index: nat)
      requires index < |data|
      modifies this
      ensures data == SiftUp(old(data), index)
      ensures multiset(data) == multiset(old(data))
      ensures HeapExceptUp(old(data), index) ==> IsMinHeap(data)
    {
      ghost var start := data;
      var i: nat := index;
      while i > 0
        invariant i < |data|
        invariant SiftUp(data, i) == SiftUp(old(data), index)
        decreases i
      {
        var parentIndex := (i - 1) / 2;
        if data[i].urgency < data[parentIndex].urgency {
          data := Swap(data, i, parentIndex);
          i := parentIndex;
        } else {
          break;
        }
      }
      if HeapExceptUp(start, index) {
        SiftUpRestoresHeap(start, index);
      }
    }

    method HeapifyDown(index: nat)
      modifies this
      ensures data == SiftDown(old(data), index)
      ensures multiset(data) == multiset(old(data))
      ensures index < |old(data)| && HeapExceptDown(old(data), index) ==> IsMinHeap(data)
    {
      ghost var start := data;
      var i: nat := index;
      while true
        invariant SiftDown(data, i) == SiftDown(old(data), index)
        decreases |data| - i
      {
        var smallest := i;
        var leftChild, rightChild := 2 * i + 1, 2 * i + 2;
        if leftChild < |data| && data[leftChild].urgency < data[smallest].urgency {
          smallest := leftChild;
        }
        if rightChild < |data| && data[rightChild].urgency < data[smallest].urgency {
          smallest := rightChild;
        }
        if smallest != i {
          data := Swap(data, i, smallest);
          i := smallest;
        } else {
          break;
        }
      }
      if index < |start| && HeapExceptDown(start, index) {
        SiftDownRestoresHeap(start, index);
      }
    }

    method Insert(patient: Patient)
      modifies this
      ensures data == Inserted(old(data), patient)
      ensures multiset(data) == multiset(old(data)) + multiset{patient}
      ensures old(Valid()) ==> Valid()
    {
      ghost var before := data;
      data := data + [patient];
      HeapifyUp(|data| - 1);
      if IsMinHeap(before) {
        InsertKeepsHeap(before, patient);
      }
    }

    method Peek() returns (r: Option<Patient>)
      ensures data == [] ==> r == None
      ensures data != [] ==> r == Some(data[0])
      ensures Valid() && r.Some? ==> forall i :: 0 <= i < |data| ==> r.value.urgency <= data[i].urgency
    {
      if |data| > 0 {
        if IsMinHeap(data) {
          RemoveMinKeepsHeap(data);
        }
        return Some(data[0]);
      }
      return None;
    }

    method RemoveMin() returns (r: Option<Patient>)
      modifies this
      ensures (r, data) == MinRemoved(old(data))
      ensures old(data) == [] ==> r == None && data == []
      ensures old(data) != [] ==> r == Some(old(data)[0]) && |data| == |old(data)| - 1
      ensures old(data) != [] ==> multiset(data) == multiset(old(data)) - multiset{old(data)[0]}
      ensures old(Valid()) && r.Some? ==> forall i :: 0 <= i < |old(data)| ==> r.value.urgency <= old(data)[i].urgency
      ensures old(Valid()) ==> Valid()
    {
      if |data| == 0 {
        return None;
      }
      ghost var before := data;
      var minPatient := data[0];
      data := data[0 := data[|data| - 1]];
      data := data[..|data| - 1];
      ghost var moved := data;
      if |data| > 0 {
        HeapifyDown(0);
      }
      assert (Some(minPatient), data) == MinRemoved(before) by {
        assert data == if |moved| > 0 then SiftDown(moved, 0) else moved;
      }
      if IsMinHeap(before) {
        RemoveMinKeepsHeap(before);
      }
      return Some(minPatient);
    }
  }

  /** The scenarios of the module's demonstration driver, as a client of `MinHeap`. */
  method DriverScenarios()
  {
    var heap := new MinHeap();
    heap.Insert(Patient("Jordan", 3));
    heap.Insert(Patient("Taylor", 1));
    heap.Insert(Patient("Avery", 5));
    var next := heap.Peek();
    assert next == Some(Patient("Taylor", 1));
    var removed := heap.RemoveMin();
    assert removed == Some(Patient("Taylor", 1));
    assert heap.Valid();

    var emptyHeap := new MinHeap();
    var peeked := emptyHeap.Peek();
    var taken := emptyHeap.RemoveMin();
    assert peeked == None && taken == None;

    var singleHeap := new MinHeap();
    singleHeap.Insert(Patient("Solo", 7));
    var solo := singleHeap.RemoveMin();
    assert solo == Some(Patient("Solo", 7)) && singleHeap.data == [];
  }
}
