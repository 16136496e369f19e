/** The task-list document `ralph/prd.json` and its user stories, as the
    controller and the status report read them. */
module Prd {
  import opened JsValues

  /** One user story. `passes` is whatever JSON value the file holds: only
      its truthiness matters. A missing `attempts` is `None`. */
  datatype Story = Story(
    id: string,
    title: string,
    priority: int,
    passes: JsValue,
    attempts: Option<int>)

  /** The recognised `config` options; each may be absent. */
  datatype Config = Config(maxIterations: Option<int>, stuckThreshold: Option<int>)

  /** The parsed document. `userStories` is `None` when the property is
      absent or `null`. */
  datatype Document = Document(
    project: Option<string>,
    branchName: Option<string>,
    userStories: Option<seq<Story>>,
    config: Option<Config>)

  /** A story still to do: its `passes` is falsy (`!s.passes`). */
  predicate IsPending(s: Story) {
    !Truthy(s.passes)
  }

  /** `prd.userStories || []`: a missing list reads as empty. */
  function StoriesOf(doc: Document): (stories: seq<Story>)
    ensures doc.userStories.None? ==> stories == []
    ensures doc.userStories.Some? ==> stories == doc.userStories.value
  {
    doc.userStories.GetOr([])
  }

  /** `stories.filter(s => !s.passes)`, in list order. */
  function Pending(stories: seq<Story>): (r: seq<Story>)
    ensures |r| <= |stories|
  {
    if |stories| == 0 then []
    else if IsPending(stories[0]) then [stories[0]] + Pending(stories[1..])
    else Pending(stories[1..])
  }

  /** `stories.filter(s => s.passes)`, in list order. */
  function Completed(stories: seq<Story>): (r: seq<Story>)
    ensures |r| <= |stories|
  {
    if |stories| == 0 then []
    else if !IsPending(stories[0]) then [stories[0]] + Completed(stories[1..])
    else Completed(stories[1..])
  }

  /** `Pending` keeps exactly the pending stories of the list. */
  lemma {:induction false} PendingMembers(stories: seq<Story>)
    ensures forall s :: s in Pending(stories) <==> s in stories && IsPending(s)
  {
    if |stories| > 0 {
      PendingMembers(stories[1..]);
      assert stories == [stories[0]] + stories[1..];
    }
  }

  /** `Completed` keeps exactly the stories that pass. */
  lemma {:induction false} CompletedMembers(stories: seq<Story>)
    ensures forall s :: s in Completed(stories) <==> s in stories && !IsPending(s)
  {
    if |stories| > 0 {
      CompletedMembers(stories[1..]);
      assert stories == [stories[0]] + stories[1..];
    }
  }

  /** Some story of the list is still to do. */
  predicate HasPending(stories: seq<Story>) {
    exists k :: 0 <= k < |stories| && IsPending(stories[k])
  }

  /** `pending.length === 0` exactly when no story is pending. */
  lemma PendingEmptyIff(stories: seq<Story>)
    ensures Pending(stories) == [] <==> !HasPending(stories)
  {
    PendingMembers(stories);
    if HasPending(stories) {
      var k :| 0 <= k < |stories| && IsPending(stories[k]);
      assert stories[k] in Pending(stories);
    }
  }

  /** Filtering distributes over concatenation: both filters keep list order. */
  lemma {:induction false} FilterAppend(a: seq<Story>, b: seq<Story>)
    ensures Pending(a + b) == Pending(a) + Pending(b)
    ensures Completed(a + b) == Completed(a) + Completed(b)
  {
    if |a| > 0 {
      assert (a + b)[0] == a[0];
      assert (a + b)[1..] == a[1..] + b;
      FilterAppend(a[1..], b);
      if IsPending(a[0]) {
        assert Pending(a + b) == [a[0]] + (Pending(a[1..]) + Pending(b));
        assert Completed(a + b) == Completed(a[1..]) + Completed(b);
      } else {
        assert Pending(a + b) == Pending(a[1..]) + Pending(b);
        assert Completed(a + b) == [a[0]] + (Completed(a[1..]) + Completed(b));
      }
    } else {
      assert a + b == b;
    }
  }

  /** `completed` and `pending` partition the list: together they hold every
      story exactly once, so their lengths add up to the total. */
  lemma {:induction false} Partition(stories: seq<Story>)
    ensures |Completed(stories)| + |Pending(stories)| == |stories|
    ensures multiset(Completed(stories)) + multiset(Pending(stories)) == multiset(stories)
  {
    if |stories| > 0 {
      Partition(stories[1..]);
      assert stories == [stories[0]] + stories[1..];
    }
  }
}
