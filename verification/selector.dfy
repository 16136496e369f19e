/** Picking the next story (run.js lines 78 and 88): keep the pending
    stories, sort them by ascending `priority` with a stable sort, take the
    first. */
module Selector {
  import opened JsValues
  import opened Prd

  predicate SortedByPriority(xs: seq<Story>) {
    forall i, j :: 0 <= i < j < |xs| ==> xs[i].priority <= xs[j].priority
  }

  /** Places `x` in front of the first element whose priority is not
      smaller, so that `x` stays ahead of equal-priority elements that came
      after it in the input. */
  function Insert(x: Story, ys: seq<Story>): (r: seq<Story>)
    ensures |r| == |ys| + 1
    ensures r[0] == if |ys| == 0 || x.priority <= ys[0].priority then x else ys[0]
  {
    if |ys| == 0 || x.priority <= ys[0].priority then
      [x] + ys
    else
      [ys[0]] + Insert(x, ys[1..])
  }

  /** `xs.sort((a, b) => a.priority - b.priority)`: an insertion sort, which
      is stable like `Array.prototype.sort`. */
  function SortByPriority(xs: seq<Story>): (r: seq<Story>)
    ensures |r| == |xs|
  {
    if |xs| == 0 then [] else Insert(xs[0], SortByPriority(xs[1..]))
  }

  /** Inserting adds exactly `x`. */
  lemma {:induction false} InsertPermutation(x: Story, ys: seq<Story>)
    ensures multiset(Insert(x, ys)) == multiset(ys) + multiset{x}
  {
    if |ys| > 0 && x.priority > ys[0].priority {
      InsertPermutation(x, ys[1..]);
      assert ys == [ys[0]] + ys[1..];
    }
  }

  /** Inserting into a sorted list keeps it sorted. */
  lemma {:induction false} InsertSorted(x: Story, ys: seq<Story>)
    requires SortedByPriority(ys)
    ensures SortedByPriority(Insert(x, ys))
  {
    if |ys| > 0 && x.priority > ys[0].priority {
      var tail := Insert(x, ys[1..]);
      InsertSorted(x, ys[1..]);
      InsertPermutation(x, ys[1..]);
      assert tail[0] in multiset(ys[1..]) + multiset{x};
      assert tail[0] == x || tail[0] in ys[1..];
      assert Insert(x, ys) == [ys[0]] + tail;
    }
  }

  /** The sort returns its input in ascending priority order. */
  lemma {:induction false} SortIsSorted(xs: seq<Story>)
    ensures SortedByPriority(SortByPriority(xs))
  {
    if |xs| > 0 {
      SortIsSorted(xs[1..]);
      InsertSorted(xs[0], SortByPriority(xs[1..]));
    }
  }

  lemma HeadTailMultiset(xs: seq<Story>)
    requires |xs| > 0
    ensures multiset(xs) == multiset(xs[1..]) + multiset{xs[0]}
  {
    assert xs == [xs[0]] + xs[1..];
  }

  /** The sort neither loses nor adds a story. */
  lemma {:induction false} SortIsPermutation(xs: seq<Story>)
    ensures multiset(SortByPriority(xs)) == multiset(xs)
  {
    if |xs| > 0 {
      var rest := SortByPriority(xs[1..]);
      calc {
        multiset(SortByPriority(xs));
        multiset(Insert(xs[0], rest));
        { InsertPermutation(xs[0], rest); }
        multiset(rest) + multiset{xs[0]};
        { SortIsPermutation(xs[1..]); }
        multiset(xs[1..]) + multiset{xs[0]};
        { HeadTailMultiset(xs); }
        multiset(xs);
      }
    }
  }

  /** The sort returns its input reordered by ascending priority. */
  lemma SortedPermutation(xs: seq<Story>)
    ensures SortedByPriority(SortByPriority(xs))
    ensures multiset(SortByPriority(xs)) == multiset(xs)
  {
    SortIsSorted(xs);
    SortIsPermutation(xs);
  }

  /** The stories of a list that have priority `p`, in list order. */
  function WithPriority(xs: seq<Story>, p: int): seq<Story> {
    if |xs| == 0 then []
    else if xs[0].priority == p then [xs[0]] + WithPriority(xs[1..], p)
    else WithPriority(xs[1..], p)
  }

  lemma {:induction false} InsertWithPriority(x: Story, ys: seq<Story>, p: int)
    requires SortedByPriority(ys)
    ensures WithPriority(Insert(x, ys), p) ==
      if x.priority == p then [x] + WithPriority(ys, p) else WithPriority(ys, p)
  {
    if |ys| == 0 || x.priority <= ys[0].priority {
      assert Insert(x, ys) == [x] + ys;
      assert ([x] + ys)[1..] == ys;
    } else {
      var tail := Insert(x, ys[1..]);
      assert Insert(x, ys) == [ys[0]] + tail;
      assert ([ys[0]] + tail)[1..] == tail;
      InsertWithPriority(x, ys[1..], p);
      if x.priority == p {
        // every element ahead of x has a smaller priority than x
        assert ys[0].priority < p;
      }
    }
  }

  /** The sort is stable: the stories of each priority keep their relative
      list order. */
  lemma {:induction false} SortIsStable(xs: seq<Story>, p: int)
    ensures WithPriority(SortByPriority(xs), p) == WithPriority(xs, p)
  {
    if |xs| > 0 {
      SortIsStable(xs[1..], p);
      SortedPermutation(xs[1..]);
      InsertWithPriority(xs[0], SortByPriority(xs[1..]), p);
    }
  }

  /** `currentPending.sort((a, b) => a.priority - b.priority)[0]`, read
      literally: sort the pending stories, take the first, `None` when
      nothing is pending. */
  function FirstBySort(stories: seq<Story>): (r: Option<Story>)
    ensures r.None? <==> !HasPending(stories)
    ensures r.Some? ==> r.value in stories && IsPending(r.value)
  {
    var sorted := SortByPriority(Pending(stories));
    PendingEmptyIff(stories);
    PendingMembers(stories);
    SortIsPermutation(Pending(stories));
    if |sorted| == 0 then
      None
    else
      assert sorted[0] in multiset(Pending(stories));
      Some(sorted[0])
  }

  /** The story the controller picks, computed in one pass from the end of
      the list: a pending story replaces the pick of the stories after it
      unless that pick has a strictly smaller priority. The contract is
      stated by `SelectNextSpec`; `SelectNextIsSortHead` shows it is
      `FirstBySort`. */
  function SelectNext(stories: seq<Story>): Option<Story> {
    if |stories| == 0 then None
    else
      var r := SelectNext(stories[1..]);
      if !IsPending(stories[0]) then r
      else if r.Some? && r.value.priority < stories[0].priority then r
      else Some(stories[0])
  }

  /** The pick is absent exactly when nothing is pending, and otherwise is
      a pending story of the list. */
  lemma {:induction false} SelectNextSpec(stories: seq<Story>)
    ensures SelectNext(stories).None? <==> !HasPending(stories)
    ensures SelectNext(stories).Some? ==>
      SelectNext(stories).value in stories && IsPending(SelectNext(stories).value)
  {
    if |stories| > 0 {
      var rest := stories[1..];
      SelectNextSpec(rest);
      assert stories == [stories[0]] + rest;
      if HasPending(rest) {
        var k :| 0 <= k < |rest| && IsPending(rest[k]);
        assert IsPending(stories[k + 1]);
      }
      if HasPending(stories) && !IsPending(stories[0]) {
        var k :| 0 <= k < |stories| && IsPending(stories[k]);
        assert k > 0 && IsPending(rest[k - 1]);
      }
    }
  }

  /** How sorting `[x] + rest` and taking the first follows from doing so
      over `rest`: the recurrence `SelectNext` is defined by. */
  lemma FirstBySortCons(x: Story, rest: seq<Story>)
    ensures FirstBySort([x] + rest) ==
      if !IsPending(x) then FirstBySort(rest)
      else if FirstBySort(rest).Some? && FirstBySort(rest).value.priority < x.priority then FirstBySort(rest)
      else Some(x)
  {
    var stories := [x] + rest;
    assert stories[1..] == rest;
    var sortedRest := SortByPriority(Pending(rest));
    if IsPending(x) {
      assert Pending(stories) == [x] + Pending(rest);
      assert ([x] + Pending(rest))[1..] == Pending(rest);
      assert SortByPriority(Pending(stories)) == Insert(x, sortedRest);
    } else {
      assert Pending(stories) == Pending(rest);
    }
  }

  /** The one-pass pick is the head of the stable sort the source performs. */
  lemma {:induction false} SelectNextIsSortHead(stories: seq<Story>)
    ensures SelectNext(stories) == FirstBySort(stories)
  {
    if |stories| > 0 {
      SelectNextIsSortHead(stories[1..]);
      FirstBySortCons(stories[0], stories[1..]);
      assert stories == [stories[0]] + stories[1..];
    } else {
      assert !HasPending(stories);
    }
  }

  /** Index `k` holds the story the selector must pick: pending, of least
      priority among the pending stories, and ahead of every other pending
      story of that priority. */
  ghost predicate IsNextStory(stories: seq<Story>, k: int) {
    && 0 <= k < |stories|
    && IsPending(stories[k])
    && (forall j :: 0 <= j < |stories| && IsPending(stories[j]) ==>
          stories[k].priority <= stories[j].priority)
    && (forall j :: 0 <= j < k && IsPending(stories[j]) ==>
          stories[k].priority < stories[j].priority)
  }

  /** A pending head no worse than every pending story after it is next. */
  lemma HeadIsNext(x: Story, rest: seq<Story>)
    requires IsPending(x)
    requires forall j :: 0 <= j < |rest| && IsPending(rest[j]) ==> x.priority <= rest[j].priority
    ensures IsNextStory([x] + rest, 0)
  {
    var stories := [x] + rest;
    forall j | 0 <= j < |stories| && IsPending(stories[j])
      ensures x.priority <= stories[j].priority
    {
      if j > 0 { assert stories[j] == rest[j - 1]; }
    }
  }

  /** The next story of `rest` stays next behind a head that is not pending
      or has a larger priority. */
  lemma NextAfterHead(x: Story, rest: seq<Story>, k: int)
    requires IsNextStory(rest, k)
    requires !IsPending(x) || rest[k].priority < x.priority
    ensures IsNextStory([x] + rest, k + 1)
  {
    var stories := [x] + rest;
    forall j | 0 <= j < |stories| && IsPending(stories[j])
      ensures stories[k + 1].priority <= stories[j].priority
      ensures j < k + 1 ==> stories[k + 1].priority < stories[j].priority
    {
      if j > 0 { assert stories[j] == rest[j - 1]; }
    }
  }

  /** The selected story is the first pending story of minimal priority. */
  lemma {:induction false} SelectNextIsFirstMinimal(stories: seq<Story>)
    requires HasPending(stories)
    ensures exists k :: IsNextStory(stories, k) && SelectNext(stories) == Some(stories[k])
  {
    var x := stories[0];
    var rest := stories[1..];
    assert stories == [x] + rest;
    SelectNextSpec(rest);
    if !HasPending(rest) {
      HeadIsNext(x, rest);
      assert IsNextStory(stories, 0);
    } else {
      SelectNextIsFirstMinimal(rest);
      var k :| IsNextStory(rest, k) && SelectNext(rest) == Some(rest[k]);
      if !IsPending(x) || rest[k].priority < x.priority {
        NextAfterHead(x, rest, k);
        assert IsNextStory(stories, k + 1);
      } else {
        HeadIsNext(x, rest);
        assert IsNextStory(stories, 0);
      }
    }
  }

  /** At most one index satisfies `IsNextStory`. */
  lemma NextStoryUnique(stories: seq<Story>, k1: int, k2: int)
    requires IsNextStory(stories, k1) && IsNextStory(stories, k2)
    ensures k1 == k2
  {
  }

  /** Conversely, the first pending story of minimal priority is the one
      selected. */
  lemma SelectNextChoosesNextStory(stories: seq<Story>, k: int)
    requires IsNextStory(stories, k)
    ensures SelectNext(stories) == Some(stories[k])
  {
    SelectNextIsFirstMinimal(stories);
    var k' :| IsNextStory(stories, k') && SelectNext(stories) == Some(stories[k']);
    NextStoryUnique(stories, k, k');
  }

  /** `[A:2, B:1]` selects B: lower priority wins over list order. */
  lemma LowerPriorityWins(a: Story, b: Story)
    requires IsPending(a) && IsPending(b)
    requires a.priority == 2 && b.priority == 1
    ensures FirstBySort([a, b]) == Some(b)
  {
    assert IsNextStory([a, b], 1);
    SelectNextChoosesNextStory([a, b], 1);
    SelectNextIsSortHead([a, b]);
  }

  /** `[A:1, B:1]` selects A: ties go to the earlier story. */
  lemma TieGoesToEarlier(a: Story, b: Story)
    requires IsPending(a) && IsPending(b)
    requires a.priority == b.priority
    ensures FirstBySort([a, b]) == Some(a)
  {
    assert IsNextStory([a, b], 0);
    SelectNextChoosesNextStory([a, b], 0);
    SelectNextIsSortHead([a, b]);
  }
}
