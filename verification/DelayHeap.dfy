/** The delay scheduler of pkg/net/webhookout/delay_heap.go: a binary heap on the due time, kept by Go's
    container/heap, whose sift loops are written out here. */
module DelayHeap {
  import opened Wrappers

  class DelayedItem {
    const at: int
    const task: nat
    var idx: nat

    constructor (at: int, task: nat)
      ensures this.at == at && this.task == task
    {
      this.at, this.task := at, task;
      idx := 0;
    }
  }

  function Parent(i: nat): nat
    requires i > 0
  {
    (i - 1) / 2
  }

  /** Every item but `except` is no earlier than its parent. */
  ghost predicate HeapExcept(h: seq<DelayedItem>, n: nat, except: int)
    requires n <= |h|
  {
    forall i :: 0 < i < n && i != except ==> h[Parent(i)].at <= h[i].at
  }

  ghost predicate IsHeap(h: seq<DelayedItem>) {
    HeapExcept(h, |h|, 0)
  }

  /** The children of `i` are no earlier than `i`'s parent. */
  ghost predicate Bridged(h: seq<DelayedItem>, n: nat, i: nat)
    requires n <= |h|
  {
    forall c :: 0 < c < n && Parent(c) == i && i > 0 && i < n ==> h[Parent(i)].at <= h[c].at
  }

  /** The root of a heap is due first. */
  lemma {:induction false} RootIsMinimum(h: seq<DelayedItem>, i: nat)
    requires IsHeap(h) && i < |h|
    ensures h[0].at <= h[i].at
  {
    if i == 0 {
    } else {
      RootIsMinimum(h, Parent(i));
    }
  }

  /** Every item whose parent is not `i` is no earlier than its parent. */
  ghost predicate HeapBut(h: seq<DelayedItem>, n: nat, i: nat)
    requires n <= |h|
  {
    forall c :: 0 < c < n && Parent(c) != i ==> h[Parent(c)].at <= h[c].at
  }

  function Swapped(h: seq<DelayedItem>, i: nat, j: nat): (r: seq<DelayedItem>)
    requires i < |h| && j < |h|
    ensures |r| == |h| && multiset(r) == multiset(h)
    ensures forall k :: 0 <= k < |h| ==> r[k] == if k == i then h[j] else if k == j then h[i] else h[k]
  {
    h[i := h[j]][j := h[i]]
  }

  lemma UpStep(h: seq<DelayedItem>, j: nat)
    requires 0 < j < |h| && HeapExcept(h, |h|, j) && Bridged(h, |h|, j) && h[j].at < h[Parent(j)].at
    ensures HeapExcept(Swapped(h, Parent(j), j), |h|, Parent(j)) && Bridged(Swapped(h, Parent(j), j), |h|, Parent(j))
  {
    var i := Parent(j);
    assert i > 0 ==> h[Parent(i)].at <= h[i].at;
  }

  lemma DownStep(h: seq<DelayedItem>, n: nat, i: nat, j: nat)
    requires n <= |h| && i < n && 0 < j < n && Parent(j) == i && HeapBut(h, n, i) && Bridged(h, n, i)
    requires h[j].at < h[i].at
    requires forall c :: 0 < c < n && (c == 2 * i + 1 || c == 2 * i + 2) ==> h[j].at <= h[c].at
    ensures HeapBut(Swapped(h, i, j), n, j) && Bridged(Swapped(h, i, j), n, j)
  {
  }

  /** Down stops where both children are late enough. */
  lemma DownDone(h: seq<DelayedItem>, n: nat, i: nat)
    requires n <= |h| && HeapBut(h, n, i) && (n > 0 ==> i < n)
    requires forall c :: 0 < c < n && (c == 2 * i + 1 || c == 2 * i + 2) ==> h[i].at <= h[c].at
    ensures HeapExcept(h, n, 0)
  {
  }

  lemma RootIsBridged(h: seq<DelayedItem>, n: nat)
    requires n <= |h|
    ensures Bridged(h, n, 0)
  {
  }

  lemma NothingExcepted(h: seq<DelayedItem>, j: nat)
    requires j < |h| && HeapExcept(h, |h|, j) && (j > 0 ==> h[Parent(j)].at <= h[j].at)
    ensures IsHeap(h)
  {
  }

  lemma PopStart(h: seq<DelayedItem>)
    requires IsHeap(h) && h != []
    ensures HeapBut(Swapped(h, 0, |h| - 1), |h| - 1, 0) && Swapped(h, 0, |h| - 1)[|h| - 1] == h[0]
  {
  }

  lemma PopEnd(h: seq<DelayedItem>)
    requires h != [] && HeapExcept(h, |h| - 1, 0) && Distinct(h)
    ensures var r := h[..|h| - 1];
      IsHeap(r) && Distinct(r) && multiset(h) == multiset(r) + multiset{h[|h| - 1]} && forall x :: x in r ==> x in h
  {
    assert h == h[..|h| - 1] + [h[|h| - 1]];
  }

  lemma SwappedMembers(h: seq<DelayedItem>, i: nat, j: nat)
    requires i < |h| && j < |h|
    ensures |Swapped(h, i, j)| == |h| && multiset(Swapped(h, i, j)) == multiset(h)
    ensures forall x :: x in Swapped(h, i, j) <==> x in h
    ensures forall k :: 0 <= k < |h| && k != i && k != j ==> Swapped(h, i, j)[k] == h[k]
  {
    var r := Swapped(h, i, j);
    assert forall x :: x in h <==> x in multiset(h);
    assert forall x :: x in r <==> x in multiset(r);
  }

  ghost predicate Nondecreasing(taken: seq<DelayedItem>) {
    forall i, j :: 0 <= i < j < |taken| ==> taken[i].at <= taken[j].at
  }

  /** Taken when due, earliest first, and before all that is left. */
  ghost predicate InOrder(taken: seq<DelayedItem>, h: seq<DelayedItem>, clock: seq<int>) {
    && |taken| <= |clock| && Nondecreasing(taken)
    && (forall i :: 0 <= i < |taken| ==> taken[i].at <= clock[i])
    && (forall x, i :: x in h && 0 <= i < |taken| ==> taken[i].at <= x.at)
  }

  lemma NothingTaken(h: seq<DelayedItem>, clock: seq<int>)
    ensures InOrder([], h, clock)
  {
  }

  lemma TakeNext(taken: seq<DelayedItem>, h: seq<DelayedItem>, h': seq<DelayedItem>, it: DelayedItem, clock: seq<int>)
    requires InOrder(taken, h, clock) && |taken| < |clock| && it in h && it.at <= clock[|taken|]
    requires forall x :: x in h' ==> x in h && it.at <= x.at
    ensures InOrder(taken + [it], h', clock)
  {
  }

  lemma TakenInOrder(taken: seq<DelayedItem>, h: seq<DelayedItem>, clock: seq<int>)
    requires InOrder(taken, h, clock)
    ensures |taken| <= |clock| && Nondecreasing(taken)
    ensures forall i :: 0 <= i < |taken| ==> taken[i].at <= clock[i]
    ensures forall x, i :: x in h && 0 <= i < |taken| ==> taken[i].at <= x.at
  {
  }

  class DelayScheduler {
    var h: seq<DelayedItem>

    constructor ()
      ensures Valid() && h == []
    {
      h := [];
    }

    ghost function Items(): set<DelayedItem>
      reads `h
    {
      set x | x in h
    }

    ghost predicate Indexed()
      reads this, h
    {
      Distinct(h) && forall i :: 0 <= i < |h| ==> h[i].idx == i
    }

    ghost predicate Valid()
      reads this, h
    {
      IsHeap(h) && Indexed()
    }

    method Swap(i: nat, j: nat)
      requires i < |h| && j < |h| && Indexed()
      modifies `h, {h[i], h[j]}`idx
      ensures h == Swapped(old(h), i, j) && Indexed()
    {
      h := Swapped(h, i, j);
      h[i].idx := i;
      h[j].idx := j;
    }

    /** container/heap's `up`. */
    method Up(j0: nat)
      requires j0 < |h| && Indexed() && HeapExcept(h, |h|, j0) && Bridged(h, |h|, j0)
      modifies `h, Items()`idx
      ensures Valid() && multiset(h) == multiset(old(h))
    {
      hide HeapExcept, Bridged, Distinct, Swapped;
      var j: nat := j0;
      while j > 0 && h[j].at < h[Parent(j)].at
        invariant j < |h| && Indexed() && HeapExcept(h, |h|, j) && Bridged(h, |h|, j)
        invariant multiset(h) == multiset(old(h)) && forall x :: x in h ==> x in old(h)
        decreases j
      {
        UpStep(h, j);
        SwappedMembers(h, Parent(j), j);
        Swap(Parent(j), j);
        j := Parent(j);
      }
      NothingExcepted(h, j);
    }

    /** One step of `down`. */
    method Sink(n: nat, i: nat, j: nat)
      requires n <= |h| && i < n && j < n && j > 0 && Parent(j) == i
      requires Indexed() && HeapBut(h, n, i) && Bridged(h, n, i)
      requires h[j].at < h[i].at
      requires forall c :: 0 < c < n && (c == 2 * i + 1 || c == 2 * i + 2) ==> h[j].at <= h[c].at
      modifies `h, {h[i], h[j]}`idx
      ensures |h| == |old(h)| && Indexed() && HeapBut(h, n, j) && Bridged(h, n, j)
      ensures multiset(h) == multiset(old(h)) && forall x :: x in h ==> x in old(h)
      ensures forall k :: n <= k < |h| ==> h[k] == old(h)[k]
    {
      hide HeapBut, Bridged, Distinct, Swapped;
      DownStep(h, n, i, j);
      SwappedMembers(h, i, j);
      Swap(i, j);
    }

    /** container/heap's `down` from the root over the first `n` items. */
    method Down(n: nat)
      requires n <= |h| && Indexed() && HeapBut(h, n, 0)
      modifies `h, Items()`idx
      ensures |h| == |old(h)| && Indexed() && HeapExcept(h, n, 0) && multiset(h) == multiset(old(h))
      ensures forall k :: n <= k < |h| ==> h[k] == old(h)[k]
    {
      hide HeapExcept, HeapBut, Bridged, Distinct, Swapped;
      var i: nat := 0;
      RootIsBridged(h, n);
      while 2 * i + 1 < n
        invariant |h| == |old(h)| && Indexed()
        invariant (n == 0 ==> i == 0) && (n > 0 ==> i < n) && HeapBut(h, n, i) && Bridged(h, n, i)
        invariant multiset(h) == multiset(old(h)) && forall x :: x in h ==> x in old(h)
        invariant forall k :: n <= k < |h| ==> h[k] == old(h)[k]
        decreases n - i
      {
        var j := 2 * i + 1;
        if j + 1 < n && h[j + 1].at < h[j].at {
          j := j + 1;
        }
        assert Parent(j) == i;
        if h[j].at >= h[i].at {
          break;
        }
        Sink(n, i, j);
        i := j;
      }
      DownDone(h, n, i);
    }

    lemma SameMembers(a: seq<DelayedItem>, b: seq<DelayedItem>)
      requires multiset(a) == multiset(b)
      ensures forall x :: x in a <==> x in b
    {
      assert forall x :: x in a <==> x in multiset(a);
      assert forall x :: x in b <==> x in multiset(b);
    }

    /** `Schedule`: container/heap's Push. */
    method Schedule(at: int, task: nat)
      requires Valid()
      modifies `h, Items()`idx
      ensures Valid() && fresh(set x | x in h && x !in old(h))
      ensures exists it: DelayedItem ::
        fresh(it) && it.at == at && it.task == task && multiset(h) == multiset(old(h)) + multiset{it}
    {
      var it := new DelayedItem(at, task);
      it.idx := |h|;
      ghost var before := h;
      h := h + [it];
      assert multiset(h) == multiset(before) + multiset{it};
      Up(|h| - 1);
      SameMembers(before + [it], h);
    }

    /** container/heap's Pop. */
    method Pop() returns (it: DelayedItem)
      requires Valid() && h != []
      modifies `h, Items()`idx
      ensures Valid() && it == old(h)[0] && multiset(old(h)) == multiset(h) + multiset{it}
      ensures |h| == |old(h)| - 1 && forall x :: x in h ==> x in old(h)
      ensures forall x :: x in old(h) ==> it.at <= x.at
    {
      hide HeapExcept, HeapBut, Swapped, Distinct;
      it := h[0];
      var n := |h| - 1;
      RootFirst(h);
      PopStart(h);
      SwappedMembers(h, 0, n);
      Swap(0, n);
      Down(n);
      SameMembers(old(h), h);
      PopEnd(h);
      h := h[..n];
    }

    lemma RootFirst(h: seq<DelayedItem>)
      requires IsHeap(h) && h != []
      ensures forall x :: x in h ==> h[0].at <= x.at
    {
      forall i | 0 <= i < |h|
        ensures h[0].at <= h[i].at
      {
        RootIsMinimum(h, i);
      }
    }

    /** `flushDue` without interruption. `clock` are the readings of the clock, one a round; handing the item to the
        queue is left to the caller, in the order of `taken`. */
    method FlushDue(clock: seq<int>) returns (taken: seq<DelayedItem>, rounds: nat)
      requires Valid() && |clock| > |h| && forall i, j :: 0 <= i < j < |clock| ==> clock[i] <= clock[j]
      modifies `h, Items()`idx
      ensures Valid() && multiset(old(h)) == multiset(h) + multiset(taken) && rounds == |taken|
      ensures rounds <= |old(h)| && Nondecreasing(taken) && forall i :: 0 <= i < |taken| ==> taken[i].at <= clock[i]
      ensures forall x, i :: x in h && 0 <= i < |taken| ==> taken[i].at <= x.at
      ensures forall x :: x in h ==> x.at > clock[rounds]
    {
      hide HeapExcept, Distinct, InOrder;
      taken, rounds := [], 0;
      NothingTaken(h, clock);
      while h != []
        invariant Valid() && rounds == |taken| && |h| + |taken| == |old(h)|
        invariant multiset(old(h)) == multiset(h) + multiset(taken) && forall x :: x in h ==> x in old(h)
        invariant InOrder(taken, h, clock)
        decreases |h|
      {
        RootFirst(h);
        if h[0].at > clock[rounds] {
          TakenInOrder(taken, h, clock);
          return;
        }
        ghost var before := h;
        var it := Pop();
        TakeNext(taken, before, h, it, clock);
        taken := taken + [it];
        rounds := rounds + 1;
      }
      TakenInOrder(taken, h, clock);
    }
  }
}
