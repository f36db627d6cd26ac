/** The pending-job queue: a slice of jobs implementing Go's heap interface, ordered so that a
    higher priority comes first (a max-heap), and the two heap operations the schedulers call.
    There is no tie-break among equal priorities. */
module PriorityQueue {
  import opened Jobs

  /** The parent index of a non-root heap position. */
  function Parent(i: nat): nat
    requires i > 0
  {
    (i - 1) / 2
  }

  /** Every job's priority is at most its parent's: the max-heap order the queue keeps. */
  ghost predicate HeapOrdered(s: seq<Job>)
  {
    forall k :: 0 < k < |s| ==> s[Parent(k)].priority >= s[k].priority
  }

  /** Sift-up state: heap order holds on every edge except the one into `j`,
      and `j`'s parent (if any) dominates `j`'s children. */
  ghost predicate OrderedExceptInto(s: seq<Job>, j: nat)
  {
    (forall k :: 0 < k < |s| && k != j ==> s[Parent(k)].priority >= s[k].priority) &&
    (j > 0 && j < |s| ==> forall k :: 0 < k < |s| && Parent(k) == j ==> s[Parent(j)].priority >= s[k].priority)
  }

  /** Sift-down state on the prefix of length `n`: heap order holds on every edge that does not leave `i`,
      and `i`'s parent (if any) dominates `i`'s children. */
  ghost predicate OrderedExceptOutOf(s: seq<Job>, i: nat, n: nat)
    requires n <= |s|
  {
    (forall k :: 0 < k < n && Parent(k) != i ==> s[Parent(k)].priority >= s[k].priority) &&
    (0 < i < n ==> forall k :: 0 < k < n && Parent(k) == i ==> s[Parent(i)].priority >= s[k].priority)
  }

  /** The slice after exchanging positions `i` and `j`. */
  function Swapped(s: seq<Job>, i: nat, j: nat): (t: seq<Job>)
    requires i < |s| && j < |s|
    ensures |t| == |s| && t[i] == s[j] && t[j] == s[i]
    ensures forall k :: 0 <= k < |s| && k != i && k != j ==> t[k] == s[k]
    ensures multiset(t) == multiset(s)
  {
    var t := seq(|s|, k requires 0 <= k < |s| => if k == i then s[j] else if k == j then s[i] else s[k]);
    assert t == s[i := s[j]][j := s[i]];
    t
  }

  /** The children of heap position `i` are exactly positions 2i+1 and 2i+2. */
  lemma ParentOf(k: nat, i: nat)
    requires k > 0
    ensures Parent(k) == i <==> k == 2 * i + 1 || k == 2 * i + 2
  {
  }

  /** Exchanging two positions inside the prefix of length `n` leaves the rest of the slice alone. */
  lemma SwapKeepsSuffix(s: seq<Job>, i: nat, j: nat, n: nat)
    requires i < n && j < n && n <= |s|
    ensures Swapped(s, i, j)[n..] == s[n..]
  {
  }

  /** A position whose first child lies beyond the prefix of length `n` has no children in it. */
  lemma NoChildren(i: nat, n: nat)
    requires 2 * i + 1 >= n
    ensures forall c :: 0 < c < n ==> Parent(c) != i
  {
  }

  /** The child sift-down picks (the right one only when it is strictly before the left one)
      comes first among `i`'s children within the prefix of length `n`. */
  lemma PickedChild(s: seq<Job>, i: nat, n: nat, j: nat)
    requires n <= |s| && 2 * i + 1 < n
    requires j == if 2 * i + 2 < n && s[2 * i + 2].priority > s[2 * i + 1].priority then 2 * i + 2 else 2 * i + 1
    ensures 0 < j < n && Parent(j) == i
    ensures forall c :: 0 < c < n && Parent(c) == i ==> s[c].priority <= s[j].priority
  {
    forall c | 0 < c < n && Parent(c) == i ensures s[c].priority <= s[j].priority {
      ParentOf(c, i);
    }
  }

  /** One sift-up step: swapping the job at `j` with its strictly smaller parent moves the
      single broken edge one level up. */
  lemma SiftUpStep(s: seq<Job>, j: nat)
    requires 0 < j < |s| && OrderedExceptInto(s, j)
    requires s[j].priority > s[Parent(j)].priority
    ensures OrderedExceptInto(Swapped(s, Parent(j), j), Parent(j))
  {
    var p := Parent(j);
    var t := Swapped(s, p, j);
    forall k | 0 < k < |t| && k != p
      ensures t[Parent(k)].priority >= t[k].priority
    {
      if k == j {
      } else if Parent(k) == p {
        assert s[p].priority >= s[k].priority;
      } else if Parent(k) == j {
        assert s[p].priority >= s[k].priority;
      } else {
        assert s[Parent(k)].priority >= s[k].priority;
      }
    }
    if p > 0 {
      forall k | 0 < k < |t| && Parent(k) == p
        ensures t[Parent(p)].priority >= t[k].priority
      {
        assert s[Parent(p)].priority >= s[p].priority;
        if k != j {
          assert s[p].priority >= s[k].priority;
        }
      }
    }
  }

  /** Sift-up ends well: once the edge into `j` holds (or `j` is the root), the whole slice is heap-ordered. */
  lemma SiftUpDone(s: seq<Job>, j: nat)
    requires j < |s| && OrderedExceptInto(s, j)
    requires j > 0 ==> s[Parent(j)].priority >= s[j].priority
    ensures HeapOrdered(s)
  {
  }

  /** One sift-down step on the prefix of length `n`: swapping the job at `i` with its first-coming child `j`,
      which is strictly before it, moves the broken edges one level down. */
  lemma SiftDownStep(s: seq<Job>, i: nat, j: nat, n: nat)
    requires n <= |s| && j < n && j > 0 && Parent(j) == i && OrderedExceptOutOf(s, i, n)
    requires s[j].priority > s[i].priority
    requires forall c :: 0 < c < n && Parent(c) == i ==> s[c].priority <= s[j].priority
    ensures OrderedExceptOutOf(Swapped(s, i, j), j, n)
  {
    var t := Swapped(s, i, j);
    forall k | 0 < k < n && Parent(k) != j
      ensures t[Parent(k)].priority >= t[k].priority
    {
      if k == j {
      } else if Parent(k) == i {
      } else if k == i {
        assert s[Parent(i)].priority >= s[j].priority;
      } else {
        assert s[Parent(k)].priority >= s[k].priority;
      }
    }
    forall k | 0 < k < n && Parent(k) == j
      ensures t[Parent(j)].priority >= t[k].priority
    {
      assert s[j].priority >= s[k].priority;
    }
  }

  /** Sift-down ends well: once `i` dominates its children within the prefix, the prefix is heap-ordered. */
  lemma SiftDownDone(s: seq<Job>, i: nat, n: nat)
    requires n <= |s| && OrderedExceptOutOf(s, i, n)
    requires forall c :: 0 < c < n && Parent(c) == i ==> s[c].priority <= s[i].priority
    ensures HeapOrdered(s[..n])
  {
    var t := s[..n];
    forall k | 0 < k < |t| ensures t[Parent(k)].priority >= t[k].priority {
      if Parent(k) == i {
      } else {
      }
    }
  }

  /** In a heap-ordered sequence the root's priority is at least that of the job at any position. */
  lemma {:induction false} RootDominates(s: seq<Job>, k: nat)
    requires HeapOrdered(s) && k < |s|
    ensures s[0].priority >= s[k].priority
    decreases k
  {
    if k > 0 {
      RootDominates(s, Parent(k));
    }
  }

  /** In a heap-ordered sequence the root is a job of maximum priority. */
  lemma RootIsMax(s: seq<Job>)
    requires HeapOrdered(s) && |s| > 0
    ensures forall j :: j in s ==> j.priority <= s[0].priority
  {
    forall j | j in s ensures j.priority <= s[0].priority {
      var k :| 0 <= k < |s| && s[k] == j;
      RootDominates(s, k);
    }
  }

  /** Heap order says nothing about the order of the rest of the slice: this heap-ordered queue is not
      sorted by priority, so a copy of the slice is not a priority-ordered listing. */
  lemma HeapOrderIsNotSorted()
    ensures var s := [Job(1, "a", 30, 1), Job(2, "b", 10, 1), Job(3, "c", 20, 1)];
            HeapOrdered(s) && s[1].priority < s[2].priority
  {
    var s := [Job(1, "a", 30, 1), Job(2, "b", 10, 1), Job(3, "c", 20, 1)];
    assert Parent(1) == 0 && Parent(2) == 0;
  }

  /** JobPriorityQueue: the slice `items` in its internal heap order. */
  class JobPriorityQueue {
    var items: seq<Job>

    /** make(JobPriorityQueue, 0) */
    constructor ()
      ensures items == []
    {
      items := [];
    }

    /** Len: the number of queued jobs. */
    function Len(): (n: nat)
      reads this
      ensures n == |items|
      ensures n == 0 <==> items == []
    {
      |items|
    }

    /** Less: job `i` comes before job `j` exactly when its priority is strictly greater,
        so two jobs of equal priority are unordered either way. */
    function Less(i: nat, j: nat): (before: bool)
      requires i < |items| && j < |items|
      reads this
      ensures before <==> items[i].priority > items[j].priority
    {
      items[i].priority > items[j].priority
    }

    /** Swap: exchanges positions `i` and `j`, leaving every other position and the multiset of jobs unchanged. */
    method Swap(i: nat, j: nat)
      requires i < |items| && j < |items|
      modifies this
      ensures items == Swapped(old(items), i, j)
    {
      items := items[i := items[j]][j := items[i]];
    }

    /** Push: appends the job at the end of the slice. */
    method Push(x: Job)
      modifies this
      ensures items == old(items) + [x]
    {
      items := items + [x];
    }

    /** Pop: removes and returns the last job of the slice (a Go index panic on an empty slice). */
    method Pop() returns (item: Job)
      requires |items| > 0
      modifies this
      ensures item == old(items)[|old(items)| - 1]
      ensures items == old(items)[..|old(items)| - 1]
      ensures old(items) == items + [item]
    {
      item := items[|items| - 1];
      items := items[..|items| - 1];
    }

    /** A Push followed by a Pop hands back the pushed job and restores the slice. */
    method PushThenPop(x: Job) returns (y: Job)
      modifies this
      ensures y == x && items == old(items)
    {
      Push(x);
      y := Pop();
      assert items == old(items);
    }

    /** Go's heap `up`: moves the job at `j0` towards the root while it is strictly before its parent. */
    method Up(j0: nat)
      requires j0 < |items| && OrderedExceptInto(items, j0)
      modifies this
      ensures |items| == |old(items)| && HeapOrdered(items)
      ensures multiset(items) == multiset(old(items))
    {
      var j: nat := j0;
      while true
        invariant j < |items| == |old(items)| && OrderedExceptInto(items, j)
        invariant multiset(items) == multiset(old(items))
        decreases j
      {
        // Go computes the parent as (j-1)/2 truncating toward zero, so the root is its own parent.
        var i: nat := if j == 0 then 0 else Parent(j);
        if i == j || !Less(j, i) {
          SiftUpDone(items, j);
          break;
        }
        SiftUpStep(items, j);
        Swap(i, j);
        j := i;
      }
    }

    /** Go's heap `down` on the prefix of length `n`: moves the job at `i0` away from the root while a child
        is strictly before it, always swapping with the child that comes first (the right one only when
        it is strictly before the left one). */
    method Down(i0: nat, n: nat)
      requires n <= |items| && i0 < |items| && OrderedExceptOutOf(items, i0, n)
      modifies this
      ensures |items| == |old(items)| && HeapOrdered(items[..n])
      ensures items[n..] == old(items)[n..]
      ensures multiset(items) == multiset(old(items))
    {
      var i: nat := i0;
      while true
        invariant i < |items| == |old(items)| && OrderedExceptOutOf(items, i, n)
        invariant items[n..] == old(items)[n..]
        invariant multiset(items) == multiset(old(items))
        decreases n - i
      {
        var j1 := 2 * i + 1;
        if j1 >= n {
          NoChildren(i, n);
          SiftDownDone(items, i, n);
          break;
        }
        var j := j1;
        var j2 := j1 + 1;
        if j2 < n && Less(j2, j1) {
          j := j2;
        }
        PickedChild(items, i, n, j);
        if !Less(j, i) {
          SiftDownDone(items, i, n);
          break;
        }
        SiftDownStep(items, i, j, n);
        SwapKeepsSuffix(items, i, j, n);
        Swap(i, j);
        i := j;
      }
    }

    /** heap.Push: appends the job and sifts it up, so the queue stays heap-ordered and gains exactly that job. */
    method HeapPush(x: Job)
      requires HeapOrdered(items)
      modifies this
      ensures HeapOrdered(items)
      ensures multiset(items) == multiset(old(items)) + multiset{x}
      ensures |items| == |old(items)| + 1
    {
      Push(x);
      Up(|items| - 1);
    }

    /** heap.Pop: swaps the root to the end, sifts the new root down over the rest and removes the last job.
        The job returned is the old root: its priority is at least that of every job left, and the
        queue loses exactly that job. */
    method HeapPop() returns (x: Job)
      requires HeapOrdered(items) && |items| > 0
      modifies this
      ensures HeapOrdered(items)
      ensures x == old(items)[0]
      ensures multiset(old(items)) == multiset(items) + multiset{x}
      ensures forall j :: j in items ==> j.priority <= x.priority
    {
      RootIsMax(items);
      var n := Len() - 1;
      Swap(0, n);
      Down(0, n);
      x := Pop();
      forall j | j in items ensures j.priority <= x.priority {
        assert j in multiset(items);
        assert j in multiset(old(items));
      }
    }
  }

  /** The copy loop of GetQueuedJobs: a fresh slice of the queue's length, filled position by position. */
  method CopyJobs(items: seq<Job>) returns (copy: seq<Job>)
    ensures copy == items
  {
    var a := new Job[|items|];
    for i := 0 to a.Length
      invariant a[..i] == items[..i]
    {
      a[i] := items[i];
    }
    copy := a[..];
    assert copy == a[..a.Length];
  }
}
