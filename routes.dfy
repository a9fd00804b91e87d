/**
 * The metric routes of routes.js, each reduced to its aggregation: what the
 * handler would send, or None when it sends nothing. Every paginated route is
 * one configuration of the same steps: initialise the tally from the
 * contributor logins, walk the pages with the route's filter, then count the
 * accumulated items by the route's key.
 */
module Routes {
  import opened Wrappers
  import opened Items
  import opened Tally
  import opened Paginator
  import Closed = IssuesClosed

  /** The titles of `items`, in order. */
  function Titles(items: seq<Item>): seq<string> {
    seq(|items|, k requires 0 <= k < |items| => items[k].title)
  }

  /**
   * /issues: one unpaginated request; the titles of its issues that are not
   * pull requests, in page order. Nothing is sent if the request fails.
   */
  method Issues(page: PageResult) returns (sent: Option<seq<string>>)
    ensures sent.Some? <==> page.Fetched?
    ensures sent.Some? ==> sent.value == Titles(Filter(NotPullRequest, page.items))
  {
    if page.Failed? {
      return None;
    }
    var body := page.items;
    var issueTitles: seq<string> := [];
    var i := 0;
    while i < |body|
      invariant 0 <= i <= |body|
      invariant issueTitles == Titles(Filter(NotPullRequest, body[..i]))
    {
      assert body[..i + 1][..i] == body[..i];
      if !body[i].isPullRequest {
        issueTitles := issueTitles + [body[i].title];
      }
      i := i + 1;
    }
    assert body[..|body|] == body;
    return Some(issueTitles);
  }

  /**
   * The shared shape of the paginated tally routes. Nothing is sent when the
   * contributors request or a page request fails. Otherwise the sent table
   * has one record per contributor login, in contributor order, whose counter
   * is the number of accumulated items credited to exactly that login.
   */
  method PaginatedTally(contributors: Option<seq<string>>, src: seq<PageResult>,
                        keep: Item -> bool, key: Item -> Option<string>)
    returns (sent: Option<seq<Record>>)
    ensures sent.Some? <==> contributors.Some? && Harvest(src, keep).Some?
    ensures sent.Some? ==>
      var logins := contributors.value;
      |sent.value| == |logins| &&
      forall j :: 0 <= j < |logins| ==>
        sent.value[j] == Record(logins[j], Occurrences(Harvest(src, keep).value, key, logins[j]))
  {
    if contributors.None? {
      return None;
    }
    var tally := InitTally(contributors.value);
    assert forall j :: 0 <= j < |tally| ==> tally[j].name == Names(tally)[j];
    var json, _ := FetchAll(src, keep);
    if json.None? {
      return None;
    }
    tally := CountInto(tally, json.value, key);
    return Some(tally);
  }

  /** /issues_opened: every non-pull-request issue is credited to its author. */
  method IssuesOpened(contributors: Option<seq<string>>, src: seq<PageResult>) returns (sent: Option<seq<Record>>)
    ensures sent.Some? <==> contributors.Some? && Harvest(src, NotPullRequest).Some?
    ensures sent.Some? ==>
      var logins := contributors.value;
      |sent.value| == |logins| &&
      forall j :: 0 <= j < |logins| ==>
        sent.value[j] == Record(logins[j], Occurrences(Harvest(src, NotPullRequest).value, UserLogin, logins[j]))
  {
    sent := PaginatedTally(contributors, src, NotPullRequest, UserLogin);
  }

  /** /issues_assigned: every non-pull-request issue is credited to its assignee, if it has one. */
  method IssuesAssigned(contributors: Option<seq<string>>, src: seq<PageResult>) returns (sent: Option<seq<Record>>)
    ensures sent.Some? <==> contributors.Some? && Harvest(src, NotPullRequest).Some?
    ensures sent.Some? ==>
      var logins := contributors.value;
      |sent.value| == |logins| &&
      forall j :: 0 <= j < |logins| ==>
        sent.value[j] == Record(logins[j], Occurrences(Harvest(src, NotPullRequest).value, AssigneeLogin, logins[j]))
  {
    sent := PaginatedTally(contributors, src, NotPullRequest, AssigneeLogin);
  }

  /**
   * /commitComments: every comment, unfiltered, is credited to its author.
   * The contributor logins this route starts from are those of one fixed
   * repository, whatever repository the comments come from.
   */
  method CommitComments(contributors: Option<seq<string>>, src: seq<PageResult>) returns (sent: Option<seq<Record>>)
    ensures sent.Some? <==> contributors.Some? && Harvest(src, AnyItem).Some?
    ensures sent.Some? ==>
      var logins := contributors.value;
      |sent.value| == |logins| &&
      forall j :: 0 <= j < |logins| ==>
        sent.value[j] == Record(logins[j], Occurrences(Harvest(src, AnyItem).value, UserLogin, logins[j]))
  {
    sent := PaginatedTally(contributors, src, AnyItem, UserLogin);
  }

  /** /issuesComments: every comment whose URL does not mention `/pull` is credited to its author. */
  method IssuesComments(contributors: Option<seq<string>>, src: seq<PageResult>) returns (sent: Option<seq<Record>>)
    ensures sent.Some? <==> contributors.Some? && Harvest(src, IsIssueComment).Some?
    ensures sent.Some? ==>
      var logins := contributors.value;
      |sent.value| == |logins| &&
      forall j :: 0 <= j < |logins| ==>
        sent.value[j] == Record(logins[j], Occurrences(Harvest(src, IsIssueComment).value, UserLogin, logins[j]))
  {
    sent := PaginatedTally(contributors, src, IsIssueComment, UserLogin);
  }

  /** /pullRequestComments: every comment whose URL mentions `/pull` is credited to its author. */
  method PullRequestComments(contributors: Option<seq<string>>, src: seq<PageResult>) returns (sent: Option<seq<Record>>)
    ensures sent.Some? <==> contributors.Some? && Harvest(src, IsPullRequestComment).Some?
    ensures sent.Some? ==>
      var logins := contributors.value;
      |sent.value| == |logins| &&
      forall j :: 0 <= j < |logins| ==>
        sent.value[j] == Record(logins[j], Occurrences(Harvest(src, IsPullRequestComment).value, UserLogin, logins[j]))
  {
    sent := PaginatedTally(contributors, src, IsPullRequestComment, UserLogin);
  }

  /**
   * /pulls: one unpaginated request for closed pull requests, each credited
   * to its author. The tally is sent even when that request fails, and then
   * every counter is 0.
   */
  method Pulls(contributors: Option<seq<string>>, pulls: PageResult) returns (sent: Option<seq<Record>>)
    ensures sent.Some? <==> contributors.Some?
    ensures sent.Some? ==>
      var logins := contributors.value;
      |sent.value| == |logins| &&
      forall j :: 0 <= j < |logins| ==>
        sent.value[j] == Record(logins[j], Occurrences(ItemsOf(pulls), UserLogin, logins[j]))
    ensures sent.Some? && pulls.Failed? ==> forall j :: 0 <= j < |sent.value| ==> sent.value[j].counter == 0
  {
    if contributors.None? {
      return None;
    }
    var tally := InitTally(contributors.value);
    assert forall j :: 0 <= j < |tally| ==> tally[j].name == Names(tally)[j];
    if pulls.Fetched? {
      tally := CountInto(tally, pulls.items, UserLogin);
    }
    return Some(tally);
  }

  /**
   * The /issues_closed route of routes.js. Its handlers never call async's
   * callback except the one whose number sits at the last index, which calls
   * it with the tally as the error value; async then runs its final callback,
   * which sends that value. With no numbers the final callback runs at once,
   * without an error, and only logs "Done".
   */
  method IssuesClosed(contributors: Option<seq<string>>, src: seq<PageResult>,
                      outcomes: seq<Closed.Outcome>, order: seq<nat>)
    returns (sent: Option<seq<Record>>)
    requires Closed.IssueNumbers(src).Some? ==>
      |outcomes| == |Closed.IssueNumbers(src).value| && Closed.IsCompletionOrder(order, |outcomes|)
    ensures sent.Some? <==>
      contributors.Some? && Closed.IssueNumbers(src).Some? &&
      Closed.LastKeyUnique(Closed.IssueNumbers(src).value)
    ensures sent.Some? ==>
      var logins := contributors.value;
      var done := order[..Closed.IndexOf(order, |outcomes| - 1) + 1];
      |sent.value| == |logins| &&
      forall j :: 0 <= j < |logins| ==> sent.value[j] == Record(logins[j], Closed.Closes(outcomes, done, logins[j]))
  {
    if contributors.None? {
      return None;
    }
    var tally := InitTally(contributors.value);
    assert forall j :: 0 <= j < |tally| ==> tally[j] == Record(contributors.value[j], 0) by {
      assert forall j :: 0 <= j < |tally| ==> tally[j].name == Names(tally)[j];
    }
    var harvested, _ := Closed.HarvestIssueNumbers(src);
    if harvested.None? {
      return None;
    }
    var issueNumbers := harvested.value;
    var err := AsyncEach(tally, issueNumbers, outcomes, order);
    // The final callback: send the error's data if there is one; otherwise only "Done" is logged.
    sent := err;
  }

  /**
   * `async.each` over the handlers of routes.js, in completion order `order`:
   * the result is the error value that reaches the final callback, which is
   * the tally as it stands when the handler of the last position completes,
   * provided its number is not repeated earlier; otherwise no handler calls
   * back and there is none.
   */
  method AsyncEach(init: seq<Record>, issueNumbers: seq<int>, outcomes: seq<Closed.Outcome>, order: seq<nat>)
    returns (err: Option<seq<Record>>)
    requires |outcomes| == |issueNumbers|
    requires Closed.IsCompletionOrder(order, |issueNumbers|)
    ensures err.Some? <==> Closed.LastKeyUnique(issueNumbers)
    ensures err.Some? ==>
      err.value == Closed.AfterCompletions(init, outcomes, order[..Closed.IndexOf(order, |issueNumbers| - 1) + 1])
  {
    var n := |issueNumbers|;
    Closed.CompletionOrderFacts(order, n);
    ghost var last := Closed.IndexOf(order, n - 1);
    var tally := init;
    // The error value handed to async's final callback, once a handler has called back with one.
    err := None;
    var k := 0;
    assert order[..0] == [];
    assert tally == Closed.AfterCompletions(init, outcomes, order[..0]);
    while k < |order|
      invariant 0 <= k <= |order|
      invariant tally == Closed.AfterCompletions(init, outcomes, order[..k])
      invariant err.Some? <==> Closed.LastKeyUnique(issueNumbers) && last < k
      invariant err.Some? ==> err.value == Closed.AfterCompletions(init, outcomes, order[..last + 1])
    {
      var p := order[k];
      var isLast;
      Closed.AfterOneMore(init, outcomes, order, k);
      tally, isLast := Closed.HandleCompletion(tally, issueNumbers, p, outcomes[p]);
      if isLast && err.None? {
        err := Some(tally);
      }
      k := k + 1;
    }
  }

  /** One line of /loc: the author and the running sums at that author. */
  datatype LocLine = LocLine(author: string, added: int, deleted: int)

  /** One week of an author's statistics: lines added and deleted. */
  datatype Week = Week(added: int, deleted: int)

  /** One element of the statistics answer: the author's login and their weeks. */
  datatype AuthorStats = AuthorStats(login: string, weeks: seq<Week>)

  function AddedIn(weeks: seq<Week>): int {
    if weeks == [] then 0 else AddedIn(weeks[..|weeks| - 1]) + weeks[|weeks| - 1].added
  }

  function DeletedIn(weeks: seq<Week>): int {
    if weeks == [] then 0 else DeletedIn(weeks[..|weeks| - 1]) + weeks[|weeks| - 1].deleted
  }

  /** Lines added over every week of the first `n` authors. */
  function AddedThrough(stats: seq<AuthorStats>, n: nat): int
    requires n <= |stats|
  {
    if n == 0 then 0 else AddedThrough(stats, n - 1) + AddedIn(stats[n - 1].weeks)
  }

  /** Lines deleted over every week of the first `n` authors. */
  function DeletedThrough(stats: seq<AuthorStats>, n: nat): int
    requires n <= |stats|
  {
    if n == 0 then 0 else DeletedThrough(stats, n - 1) + DeletedIn(stats[n - 1].weeks)
  }

  /**
   * /loc: the two sums are never reset between authors, so the line of the
   * k-th author reports the lines added and deleted by that author and every
   * author before it. Nothing is sent if the request fails.
   */
  method Loc(stats: Option<seq<AuthorStats>>) returns (sent: Option<seq<LocLine>>)
    ensures sent.Some? <==> stats.Some?
    ensures sent.Some? ==>
      var s := stats.value;
      |sent.value| == |s| &&
      forall k :: 0 <= k < |s| ==>
        sent.value[k] == LocLine(s[k].login, AddedThrough(s, k + 1), DeletedThrough(s, k + 1))
  {
    if stats.None? {
      return None;
    }
    var body := stats.value;
    var locAdded := 0;
    var locDeleted := 0;
    var lines: seq<LocLine> := [];
    var c := 0;
    while c < |body|
      invariant 0 <= c <= |body|
      invariant locAdded == AddedThrough(body, c) && locDeleted == DeletedThrough(body, c)
      invariant |lines| == c
      invariant forall k :: 0 <= k < c ==>
        lines[k] == LocLine(body[k].login, AddedThrough(body, k + 1), DeletedThrough(body, k + 1))
    {
      locAdded, locDeleted := AddWeeks(locAdded, locDeleted, body[c].weeks);
      assert locAdded == AddedThrough(body, c + 1) && locDeleted == DeletedThrough(body, c + 1);
      lines := lines + [LocLine(body[c].login, locAdded, locDeleted)];
      c := c + 1;
    }
    return Some(lines);
  }

  /** The loop over one author's weeks: add each week's lines to the running sums. */
  method AddWeeks(added: int, deleted: int, weeks: seq<Week>) returns (a: int, d: int)
    ensures a == added + AddedIn(weeks) && d == deleted + DeletedIn(weeks)
  {
    a, d := added, deleted;
    var w := 0;
    while w < |weeks|
      invariant 0 <= w <= |weeks|
      invariant a == added + AddedIn(weeks[..w]) && d == deleted + DeletedIn(weeks[..w])
    {
      assert weeks[..w + 1][..w] == weeks[..w];
      a := a + weeks[w].added;
      d := d + weeks[w].deleted;
      w := w + 1;
    }
    assert weeks[..|weeks|] == weeks;
  }

  /** With no negative week, the reported sums never decrease down the lines of /loc. */
  lemma {:induction false} LocSumsNondecreasing(stats: seq<AuthorStats>, i: nat, k: nat)
    requires i <= k <= |stats|
    requires forall c, w :: 0 <= c < |stats| && 0 <= w < |stats[c].weeks| ==>
      stats[c].weeks[w].added >= 0 && stats[c].weeks[w].deleted >= 0
    ensures AddedThrough(stats, i) <= AddedThrough(stats, k)
    ensures DeletedThrough(stats, i) <= DeletedThrough(stats, k)
    decreases k
  {
    if i < k {
      LocSumsNondecreasing(stats, i, k - 1);
      WeeksNonNegative(stats[k - 1].weeks);
    }
  }

  lemma {:induction false} WeeksNonNegative(weeks: seq<Week>)
    requires forall w :: 0 <= w < |weeks| ==> weeks[w].added >= 0 && weeks[w].deleted >= 0
    ensures AddedIn(weeks) >= 0 && DeletedIn(weeks) >= 0
    decreases |weeks|
  {
    if weeks != [] {
      WeeksNonNegative(weeks[..|weeks| - 1]);
    }
  }

  /** An issue without an assignee is never counted by /issues_assigned. */
  lemma {:induction false} UnassignedNeverCounted(items: seq<Item>, name: string)
    ensures Occurrences(items, AssigneeLogin, name) == Occurrences(Filter(HasAssignee, items), AssigneeLogin, name)
    decreases |items|
  {
    if items != [] {
      var init := items[..|items| - 1];
      UnassignedNeverCounted(init, name);
      var last := items[|items| - 1];
      var f := Filter(HasAssignee, init);
      if HasAssignee(last) {
        assert Filter(HasAssignee, items) == f + [last];
        assert (f + [last])[..|f|] == f;
      } else {
        assert Filter(HasAssignee, items) == f + [] == f;
      }
    }
  }

  /**
   * For every contributor, the comments counted by /issuesComments and by
   * /pullRequestComments over the same pages add up to all the contributor's
   * comments; either both walks fail or neither does.
   */
  lemma CommentCountsSplit(src: seq<PageResult>, name: string)
    ensures Harvest(src, IsIssueComment).Some? <==> Harvest(src, AnyItem).Some?
    ensures Harvest(src, IsPullRequestComment).Some? <==> Harvest(src, AnyItem).Some?
    ensures Harvest(src, AnyItem).Some? ==>
      Occurrences(Harvest(src, IsIssueComment).value, UserLogin, name)
      + Occurrences(Harvest(src, IsPullRequestComment).value, UserLogin, name)
      == Occurrences(Harvest(src, AnyItem).value, UserLogin, name)
  {
    HarvestFilters(src, IsIssueComment);
    HarvestFilters(src, IsPullRequestComment);
    if Harvest(src, AnyItem).Some? {
      CommentOccurrencesSplit(Harvest(src, AnyItem).value, name);
    }
  }

  lemma {:induction false} CommentOccurrencesSplit(s: seq<Item>, name: string)
    ensures Occurrences(Filter(IsIssueComment, s), UserLogin, name)
          + Occurrences(Filter(IsPullRequestComment, s), UserLogin, name)
         == Occurrences(s, UserLogin, name)
    decreases |s|
  {
    if s != [] {
      var init := s[..|s| - 1];
      var last := s[|s| - 1];
      CommentOccurrencesSplit(init, name);
      var fi := Filter(IsIssueComment, init);
      var fp := Filter(IsPullRequestComment, init);
      assert Occurrences(s, UserLogin, name)
          == Occurrences(init, UserLogin, name) + (if last.login == name then 1 else 0);
      if IsPullRequestComment(last) {
        assert Filter(IsIssueComment, s) == fi + [] == fi;
        assert Filter(IsPullRequestComment, s) == fp + [last];
        assert (fp + [last])[..|fp|] == fp;
      } else {
        assert Filter(IsIssueComment, s) == fi + [last];
        assert Filter(IsPullRequestComment, s) == fp + [] == fp;
        assert (fi + [last])[..|fi|] == fi;
      }
    }
  }

  /** An issue opened by `login`: not a pull request, without an assignee. */
  function OpenIssue(login: string): Item {
    Item(login, false, None, "", 0, "")
  }

  lemma {:induction false} OccurrencesOfRepeated(n: nat, x: Item, name: string)
    ensures Occurrences(seq(n, _ => x), UserLogin, name) == if x.login == name then n else 0
  {
    if n > 0 {
      OccurrencesOfRepeated(n - 1, x, name);
      assert seq(n, _ => x)[..n - 1] == seq(n - 1, _ => x);
    }
  }

  lemma {:induction false} FilterKeepsAccepted(keep: Item -> bool, s: seq<Item>)
    requires forall k :: 0 <= k < |s| ==> keep(s[k])
    ensures Filter(keep, s) == s
    decreases |s|
  {
    if s != [] {
      FilterKeepsAccepted(keep, s[..|s| - 1]);
      assert s == s[..|s| - 1] + [s[|s| - 1]];
    }
  }

  /**
   * Contributors alice and bob; page 1 holds 30 issues, 20 by alice and 10 by
   * bob, page 2 holds 5, 3 by alice and 2 by carol, who is no contributor.
   * The walk makes two requests and /issues_opened credits alice with 23 and
   * bob with 10; carol's issues are dropped.
   */
  lemma IssuesOpenedScenario()
    ensures var page1 := seq(20, _ => OpenIssue("alice")) + seq(10, _ => OpenIssue("bob"));
      var page2 := seq(3, _ => OpenIssue("alice")) + seq(2, _ => OpenIssue("carol"));
      var src := [Fetched(page1), Fetched(page2)];
      RequestCount(src) == 2 &&
      Harvest(src, NotPullRequest) == Some(page1 + page2) &&
      Occurrences(page1 + page2, UserLogin, "alice") == 23 &&
      Occurrences(page1 + page2, UserLogin, "bob") == 10
  {
    var a20, b10 := seq(20, _ => OpenIssue("alice")), seq(10, _ => OpenIssue("bob"));
    var a3, c2 := seq(3, _ => OpenIssue("alice")), seq(2, _ => OpenIssue("carol"));
    var page1, page2 := a20 + b10, a3 + c2;
    var src := [Fetched(page1), Fetched(page2)];
    assert src[1..] == [Fetched(page2)];
    FilterKeepsAccepted(NotPullRequest, page1);
    FilterKeepsAccepted(NotPullRequest, page2);
    forall name | name in {"alice", "bob"}
      ensures Occurrences(page1 + page2, UserLogin, name)
           == Occurrences(a20, UserLogin, name) + Occurrences(b10, UserLogin, name)
            + Occurrences(a3, UserLogin, name) + Occurrences(c2, UserLogin, name)
    {
      OccurrencesAppend(page1, page2, UserLogin, name);
      OccurrencesAppend(a20, b10, UserLogin, name);
      OccurrencesAppend(a3, c2, UserLogin, name);
    }
    OccurrencesOfRepeated(20, OpenIssue("alice"), "alice");
    OccurrencesOfRepeated(10, OpenIssue("bob"), "alice");
    OccurrencesOfRepeated(3, OpenIssue("alice"), "alice");
    OccurrencesOfRepeated(2, OpenIssue("carol"), "alice");
    OccurrencesOfRepeated(20, OpenIssue("alice"), "bob");
    OccurrencesOfRepeated(10, OpenIssue("bob"), "bob");
    OccurrencesOfRepeated(3, OpenIssue("alice"), "bob");
    OccurrencesOfRepeated(2, OpenIssue("carol"), "bob");
  }
}
