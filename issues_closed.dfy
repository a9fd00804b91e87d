/**
 * The /issues_closed handler: harvest the numbers of the closed issues that
 * are not pull requests across all pages, issue one events sub-request per
 * harvested number, fold each answer's `closed` events into the tally by
 * actor, and send the tally from the handler whose number sits at the last
 * index of the harvested list (as `indexOf` finds it).
 *
 * The sub-requests run concurrently; here their completion order is an
 * explicit permutation of the positions of the harvested list, folded in turn.
 */
module IssuesClosed {
  import opened Wrappers
  import opened Items
  import opened Tally
  import opened Paginator

  /** The answer to one events sub-request: its events, or None on a transport failure. */
  type Outcome = Option<seq<Event>>

  /** The issue numbers of `items`, in order. */
  function Numbers(items: seq<Item>): seq<int> {
    seq(|items|, k requires 0 <= k < |items| => items[k].number)
  }

  lemma NumbersAppend(a: seq<Item>, b: seq<Item>)
    ensures Numbers(a + b) == Numbers(a) + Numbers(b)
  {
  }

  /** The harvested issue numbers for a page source, or nothing if a page request failed. */
  function IssueNumbers(src: seq<PageResult>): Option<seq<int>> {
    var h := Harvest(src, NotPullRequest);
    if h.Some? then Some(Numbers(h.value)) else None
  }

  /** The loop over one page: push the number of every issue not generated by a pull request. */
  method AppendIssueNumbers(acc: seq<int>, body: seq<Item>) returns (r: seq<int>)
    ensures r == acc + Numbers(Filter(NotPullRequest, body))
  {
    r := acc;
    var i := 0;
    while i < |body|
      invariant 0 <= i <= |body|
      invariant r == acc + Numbers(Filter(NotPullRequest, body[..i]))
    {
      assert body[..i + 1][..i] == body[..i];
      NumbersAppend(Filter(NotPullRequest, body[..i]), if NotPullRequest(body[i]) then [body[i]] else []);
      if !body[i].isPullRequest {
        r := r + [body[i].number];
      }
      i := i + 1;
    }
    assert body[..|body|] == body;
  }

  /**
   * The `getData` walk of this handler. It requests pages 1, 2, ... in order,
   * stops at the first page with fewer than 30 items, and returns the
   * harvested numbers in page order; a failed page ends the run with nothing.
   */
  method HarvestIssueNumbers(src: seq<PageResult>) returns (issueNumbers: Option<seq<int>>, requests: nat)
    ensures requests == RequestCount(src)
    ensures issueNumbers.None? <==> Harvest(src, NotPullRequest).None?
    ensures issueNumbers.Some? ==> issueNumbers.value == Numbers(Harvest(src, NotPullRequest).value)
  {
    var numbers: seq<int> := [];
    ghost var harvested: seq<Item> := [];
    var pageCounter: nat := 1;
    assert src[0..] == src;
    PrefixedEmpty(Harvest(src, NotPullRequest));
    while true
      invariant 1 <= pageCounter <= |src| + 1
      invariant numbers == Numbers(harvested)
      invariant Harvest(src, NotPullRequest) == Prefixed(harvested, Harvest(src[pageCounter - 1..], NotPullRequest))
      invariant RequestCount(src) == pageCounter - 1 + RequestCount(src[pageCounter - 1..])
      decreases |src| + 1 - pageCounter
    {
      var page := PageAt(src, pageCounter);
      HarvestStep(src, pageCounter, NotPullRequest);
      if page.Failed? {
        return None, pageCounter;
      }
      var body := page.items;
      numbers := AppendIssueNumbers(numbers, body);
      NumbersAppend(harvested, Filter(NotPullRequest, body));
      ghost var before := harvested;
      harvested := harvested + Filter(NotPullRequest, body);
      if |body| < PageSize {
        return Some(numbers), pageCounter;
      }
      PrefixedAppend(before, Filter(NotPullRequest, body), Harvest(src[pageCounter..], NotPullRequest));
      pageCounter := pageCounter + 1;
    }
  }

  /** `Array.prototype.indexOf`: the first index holding `x`, or -1. */
  function IndexOf<T(==)>(s: seq<T>, x: T): (i: int)
    ensures -1 <= i < |s|
    ensures i == -1 <==> x !in s
    ensures 0 <= i ==> s[i] == x && x !in s[..i]
  {
    if s == [] then -1
    else if s[0] == x then 0
    else
      var j := IndexOf(s[1..], x);
      assert j >= 0 ==> s[..j + 1] == [s[0]] + s[1..][..j];
      if j == -1 then -1 else j + 1
  }

  /** The last harvested number occurs nowhere earlier in the list. */
  predicate LastKeyUnique(issueNumbers: seq<int>) {
    |issueNumbers| > 0 && issueNumbers[|issueNumbers| - 1] !in issueNumbers[..|issueNumbers| - 1]
  }

  /** The events a sub-request answer delivers; none when it failed. */
  function EventsOf(outcome: Outcome): seq<Event> {
    if outcome.Some? then outcome.value else []
  }

  /** The events the sub-request at position `p` delivers. */
  function EventsAt(outcomes: seq<Outcome>, p: nat): seq<Event> {
    if p < |outcomes| then EventsOf(outcomes[p]) else []
  }

  /** The `closed` events credited to `name` by the sub-requests at positions `ps`. */
  function Closes(outcomes: seq<Outcome>, ps: seq<nat>, name: string): nat {
    if ps == [] then 0
    else Closes(outcomes, ps[..|ps| - 1], name) + Occurrences(EventsAt(outcomes, ps[|ps| - 1]), ClosedBy, name)
  }

  /** The tally once the sub-requests at positions `ps` have completed. */
  function AfterCompletions(init: seq<Record>, outcomes: seq<Outcome>, ps: seq<nat>): seq<Record> {
    seq(|init|, j requires 0 <= j < |init| => Record(init[j].name, init[j].counter + Closes(outcomes, ps, init[j].name)))
  }

  /** The positions 0, 1, ..., n - 1. */
  function Iota(n: nat): seq<nat> {
    seq(n, k requires 0 <= k < n => k)
  }

  /** `order` lists every position of an n-element key list exactly once. */
  predicate IsCompletionOrder(order: seq<nat>, n: nat) {
    multiset(order) == multiset(Iota(n))
  }

  lemma {:induction false} IotaMultiplicity(n: nat, x: nat)
    ensures multiset(Iota(n))[x] == if x < n then 1 else 0
  {
    if n > 0 {
      assert Iota(n) == Iota(n - 1) + [n - 1];
      IotaMultiplicity(n - 1, x);
    }
  }

  /** A completion order has one entry per position, each in range, none repeated. */
  lemma CompletionOrderFacts(order: seq<nat>, n: nat)
    requires IsCompletionOrder(order, n)
    ensures |order| == n
    ensures forall k :: 0 <= k < |order| ==> order[k] < n
    ensures forall i, j :: 0 <= i < j < |order| ==> order[i] != order[j]
    ensures n > 0 ==> n - 1 in order
    ensures n > 0 ==> forall k :: 0 <= k < |order| ==> (order[k] == n - 1 <==> k == IndexOf(order, n - 1))
  {
    assert |order| == |multiset(order)| == |multiset(Iota(n))| == n;
    forall k | 0 <= k < |order|
      ensures order[k] < n
    {
      assert order[k] in multiset(order);
      IotaMultiplicity(n, order[k]);
    }
    forall i, j | 0 <= i < j < |order|
      ensures order[i] != order[j]
    {
      if order[i] == order[j] {
        var x := order[i];
        assert order == order[..j] + order[j..];
        assert x in order[..j];
        assert x in order[j..];
        assert multiset(order)[x] == multiset(order[..j])[x] + multiset(order[j..])[x] >= 2;
        IotaMultiplicity(n, x);
        assert false;
      }
    }
    if n > 0 {
      IotaMultiplicity(n, n - 1);
      assert n - 1 in multiset(order);
    }
  }

  /**
   * One sub-request handler: a successful answer increments, for every
   * `closed` event, each record named by the event's actor; a failed answer
   * changes nothing. Either way the handler reaches the completion check,
   * which holds only for the last position, and only when its number occurs
   * nowhere earlier.
   */
  method HandleCompletion(tally: seq<Record>, issueNumbers: seq<int>, p: nat, outcome: Outcome)
    returns (next: seq<Record>, isLast: bool)
    requires p < |issueNumbers|
    ensures outcome.None? ==> next == tally
    ensures next == Tallied(tally, EventsOf(outcome), ClosedBy)
    ensures isLast <==> p == |issueNumbers| - 1 && LastKeyUnique(issueNumbers)
  {
    next := tally;
    if outcome.Some? {
      next := CountInto(tally, outcome.value, ClosedBy);
    } else {
      TalliedNothing(tally, ClosedBy);
    }
    var n := |issueNumbers|;
    var first := IndexOf(issueNumbers, issueNumbers[p]);
    isLast := first == n - 1;
    if p < n - 1 {
      assert issueNumbers[p] in issueNumbers[..n - 1];
    }
  }

  /** Completing the next sub-request folds its events into the tally. */
  lemma AfterOneMore(init: seq<Record>, outcomes: seq<Outcome>, order: seq<nat>, k: nat)
    requires k < |order|
    ensures AfterCompletions(init, outcomes, order[..k + 1])
         == Tallied(AfterCompletions(init, outcomes, order[..k]), EventsAt(outcomes, order[k]), ClosedBy)
  {
    assert order[..k + 1][..k] == order[..k];
  }

  /**
   * The fan-out of issues_closed.js, folded over the completion order `order`.
   * It returns what the handlers send and the tally once every sub-request has
   * completed. The tally is sent exactly when the last number is not repeated
   * earlier, and then it is the fold up to and including the completion of
   * the last position; an empty list sends nothing (async's final callback
   * only logs "Done").
   */
  method FanOut(init: seq<Record>, issueNumbers: seq<int>, outcomes: seq<Outcome>, order: seq<nat>)
    returns (sent: Option<seq<Record>>, final: seq<Record>)
    requires |outcomes| == |issueNumbers|
    requires IsCompletionOrder(order, |issueNumbers|)
    ensures final == AfterCompletions(init, outcomes, order)
    ensures sent.Some? <==> LastKeyUnique(issueNumbers)
    ensures sent.Some? ==>
      sent.value == AfterCompletions(init, outcomes, order[..IndexOf(order, |issueNumbers| - 1) + 1])
  {
    var n := |issueNumbers|;
    CompletionOrderFacts(order, n);
    ghost var last := IndexOf(order, n - 1);
    var tally := init;
    sent := None;
    var k := 0;
    assert order[..0] == [];
    assert tally == AfterCompletions(init, outcomes, order[..0]);
    while k < |order|
      invariant 0 <= k <= |order|
      invariant tally == AfterCompletions(init, outcomes, order[..k])
      invariant sent.Some? <==> LastKeyUnique(issueNumbers) && last < k
      invariant sent.Some? ==> sent.value == AfterCompletions(init, outcomes, order[..last + 1])
    {
      var p := order[k];
      var isLast;
      AfterOneMore(init, outcomes, order, k);
      tally, isLast := HandleCompletion(tally, issueNumbers, p, outcomes[p]);
      if isLast {
        sent := Some(tally);
      }
      k := k + 1;
    }
    assert order[..k] == order;
    final := tally;
  }

  /**
   * The whole handler of issues_closed.js. Nothing is sent when the
   * contributors request or a page request fails. Otherwise the sent table has
   * one record per contributor, in contributor order, counting the `closed`
   * events by that login among the sub-requests completed up to and including
   * the one for the last position.
   */
  method Run(contributors: Option<seq<string>>, src: seq<PageResult>, outcomes: seq<Outcome>, order: seq<nat>)
    returns (sent: Option<seq<Record>>)
    requires IssueNumbers(src).Some? ==>
      |outcomes| == |IssueNumbers(src).value| && IsCompletionOrder(order, |outcomes|)
    ensures sent.Some? <==>
      contributors.Some? && IssueNumbers(src).Some? && LastKeyUnique(IssueNumbers(src).value)
    ensures sent.Some? ==>
      var logins := contributors.value;
      var done := order[..IndexOf(order, |outcomes| - 1) + 1];
      |sent.value| == |logins| &&
      forall j :: 0 <= j < |logins| ==> sent.value[j] == Record(logins[j], Closes(outcomes, done, logins[j]))
  {
    if contributors.None? {
      return None;
    }
    var tally := InitTally(contributors.value);
    var issueNumbers, _ := HarvestIssueNumbers(src);
    if issueNumbers.None? {
      return None;
    }
    var final;
    sent, final := FanOut(tally, issueNumbers.value, outcomes, order);
    if sent.Some? {
      assert forall j :: 0 <= j < |tally| ==> tally[j] == Record(contributors.value[j], 0) by {
        assert forall j :: 0 <= j < |tally| ==> tally[j].name == Names(tally)[j];
      }
    }
  }

  /** Sub-request totals add up over appended completion sequences. */
  lemma {:induction false} ClosesAppend(outcomes: seq<Outcome>, a: seq<nat>, b: seq<nat>, name: string)
    ensures Closes(outcomes, a + b, name) == Closes(outcomes, a, name) + Closes(outcomes, b, name)
    decreases |b|
  {
    if b == [] {
      assert a + b == a;
    } else {
      var b' := b[..|b| - 1];
      assert (a + b)[..|a + b| - 1] == a + b';
      ClosesAppend(outcomes, a, b', name);
    }
  }

  lemma RemoveAt(qs: seq<nat>, i: nat)
    requires i < |qs|
    ensures multiset(qs[..i] + qs[i + 1..]) == multiset(qs) - multiset([qs[i]])
  {
    assert qs == qs[..i] + [qs[i]] + qs[i + 1..];
  }

  lemma ClosesRemoveAt(outcomes: seq<Outcome>, qs: seq<nat>, i: nat, name: string)
    requires i < |qs|
    ensures Closes(outcomes, qs, name)
         == Closes(outcomes, qs[..i] + qs[i + 1..], name) + Occurrences(EventsAt(outcomes, qs[i]), ClosedBy, name)
  {
    var x := qs[i];
    assert qs == qs[..i] + [x] + qs[i + 1..];
    ClosesAppend(outcomes, qs[..i] + [x], qs[i + 1..], name);
    ClosesAppend(outcomes, qs[..i], [x], name);
    ClosesAppend(outcomes, qs[..i], qs[i + 1..], name);
    assert [x][..0] == [];
  }

  /** The increments commute: completing the same sub-requests in another order gives the same totals. */
  lemma {:induction false} ClosesPermutation(outcomes: seq<Outcome>, ps: seq<nat>, qs: seq<nat>, name: string)
    requires multiset(ps) == multiset(qs)
    ensures Closes(outcomes, ps, name) == Closes(outcomes, qs, name)
    decreases |ps|
  {
    if ps == [] {
      assert |qs| == |multiset(qs)| == 0;
    } else {
      var x := ps[|ps| - 1];
      var ps' := ps[..|ps| - 1];
      assert ps == ps' + [x];
      assert x in multiset(qs);
      var i :| 0 <= i < |qs| && qs[i] == x;
      var qs' := qs[..i] + qs[i + 1..];
      RemoveAt(qs, i);
      assert multiset(ps') == multiset(ps) - multiset([x]);
      ClosesPermutation(outcomes, ps', qs', name);
      ClosesRemoveAt(outcomes, qs, i, name);
    }
  }

  /** Once every sub-request has completed, the tally is the same for every completion order. */
  lemma FinalTallyIndependentOfOrder(init: seq<Record>, outcomes: seq<Outcome>, order1: seq<nat>, order2: seq<nat>, n: nat)
    requires IsCompletionOrder(order1, n) && IsCompletionOrder(order2, n)
    ensures AfterCompletions(init, outcomes, order1) == AfterCompletions(init, outcomes, order2)
  {
    forall j | 0 <= j < |init| {
      ClosesPermutation(outcomes, order1, order2, init[j].name);
    }
  }

  /**
   * What the sent tally misses: every record's counter falls short of its
   * final value by exactly the `closed` events that the sub-requests still
   * outstanding at the emission deliver for it. So the sent tally is the final
   * one exactly when those later answers credit no contributor, in particular
   * when the last position is also the last to complete.
   */
  lemma EmissionMissesLaterCompletions(init: seq<Record>, outcomes: seq<Outcome>, order: seq<nat>, n: nat)
    requires IsCompletionOrder(order, n) && n > 0
    ensures |order| == n
    ensures var k := IndexOf(order, n - 1);
      0 <= k &&
      forall j :: 0 <= j < |init| ==>
        AfterCompletions(init, outcomes, order[..k + 1])[j].counter + Closes(outcomes, order[k + 1..], init[j].name)
          == AfterCompletions(init, outcomes, order)[j].counter
    ensures var k := IndexOf(order, n - 1);
      AfterCompletions(init, outcomes, order[..k + 1]) == AfterCompletions(init, outcomes, order)
      <==> forall j :: 0 <= j < |init| ==> Closes(outcomes, order[k + 1..], init[j].name) == 0
    ensures order[n - 1] == n - 1 ==>
      AfterCompletions(init, outcomes, order[..IndexOf(order, n - 1) + 1]) == AfterCompletions(init, outcomes, order)
  {
    CompletionOrderFacts(order, n);
    var k := IndexOf(order, n - 1);
    assert order == order[..k + 1] + order[k + 1..];
    SplitCompletions(init, outcomes, order[..k + 1], order[k + 1..]);
    if order[n - 1] == n - 1 {
      assert order[k + 1..] == [];
    }
  }

  /** Completing `ps` and then `qs`: the tally after `ps` is short of the tally after both by what `qs` delivers. */
  lemma SplitCompletions(init: seq<Record>, outcomes: seq<Outcome>, ps: seq<nat>, qs: seq<nat>)
    ensures forall j :: 0 <= j < |init| ==>
      AfterCompletions(init, outcomes, ps)[j].counter + Closes(outcomes, qs, init[j].name)
        == AfterCompletions(init, outcomes, ps + qs)[j].counter
    ensures AfterCompletions(init, outcomes, ps) == AfterCompletions(init, outcomes, ps + qs)
      <==> forall j :: 0 <= j < |init| ==> Closes(outcomes, qs, init[j].name) == 0
  {
    forall j | 0 <= j < |init| {
      ClosesAppend(outcomes, ps, qs, init[j].name);
    }
    var before := AfterCompletions(init, outcomes, ps);
    var after := AfterCompletions(init, outcomes, ps + qs);
    if before == after {
      forall j | 0 <= j < |init|
        ensures Closes(outcomes, qs, init[j].name) == 0
      {
        assert before[j] == after[j];
      }
    }
  }

  /** In a sub-request answer only `closed` events count, each once for every record named by its actor. */
  lemma OnlyClosedEventsCount(t: seq<Record>, a: seq<Event>, e: Event, b: seq<Event>, j: nat)
    requires j < |t|
    ensures Tallied(t, a + [e] + b, ClosedBy)[j].counter
         == Tallied(t, a + b, ClosedBy)[j].counter + (if e.event == ClosedEvent && e.actor == t[j].name then 1 else 0)
  {
    CountedOncePerMatch(t, a, e, b, ClosedBy, j);
  }

  /**
   * Issues #1, #2, #3 whose sub-requests complete in the order #1, #3, #2;
   * #1 and #3 each report one `closed` event by bob, #2 reports none. The
   * tally goes out when #3 completes, while #2 is still outstanding; it holds
   * bob's two closes and equals the final tally only because #2 adds nothing.
   */
  lemma SentBeforeLastCompletion()
    ensures var order: seq<nat> := [0, 2, 1];
      var outcomes: seq<Outcome> := [Some([Event("closed", "bob")]), Some([]), Some([Event("closed", "bob")])];
      var init := [Record("alice", 0), Record("bob", 0)];
      IndexOf(order, 2) == 1 &&
      AfterCompletions(init, outcomes, order[..2]) == [Record("alice", 0), Record("bob", 2)] &&
      AfterCompletions(init, outcomes, order) == [Record("alice", 0), Record("bob", 2)]
  {
    var order: seq<nat> := [0, 2, 1];
    var outcomes: seq<Outcome> := [Some([Event("closed", "bob")]), Some([]), Some([Event("closed", "bob")])];
    var bobClosed := [Event("closed", "bob")];
    assert Occurrences(bobClosed, ClosedBy, "bob") == 1 by { assert bobClosed[..0] == []; }
    assert Occurrences(bobClosed, ClosedBy, "alice") == 0 by { assert bobClosed[..0] == []; }
    assert order[..2][..1] == [0] && [0][..0] == [];
    assert order[..2] == [0, 2];
    assert order[..2] == order[..3][..2];
  }

  /**
   * The same run, except that #2 also reports a `closed` event by bob: the
   * sent tally credits bob with one close, although every answer together
   * credits him with two.
   */
  lemma SentTallyMissesOutstandingClose()
    ensures var order: seq<nat> := [0, 2, 1];
      var outcomes: seq<Outcome> := [Some([Event("closed", "bob")]), Some([Event("closed", "bob")]), Some([])];
      var init := [Record("alice", 0), Record("bob", 0)];
      IndexOf(order, 2) == 1 &&
      AfterCompletions(init, outcomes, order[..2]) == [Record("alice", 0), Record("bob", 1)] &&
      AfterCompletions(init, outcomes, order) == [Record("alice", 0), Record("bob", 2)]
  {
    var order: seq<nat> := [0, 2, 1];
    var bobClosed := [Event("closed", "bob")];
    assert Occurrences(bobClosed, ClosedBy, "bob") == 1 by { assert bobClosed[..0] == []; }
    assert Occurrences(bobClosed, ClosedBy, "alice") == 0 by { assert bobClosed[..0] == []; }
    assert order[..2][..1] == [0] && [0][..0] == [];
    assert order[..2] == [0, 2];
    assert order[..2] == order[..3][..2];
  }
}
