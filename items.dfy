/**
 * The items and events the remote API reports, reduced to the fields the
 * routes read, and the predicates and key functions the routes apply to them.
 */
module Items {
  import opened Wrappers

  /** One element of an issues, comments or pulls page. */
  datatype Item = Item(
    login: string,            // user.login: the author
    isPullRequest: bool,      // the item carries a pull_request back-reference
    assignee: Option<string>, // assignee.login; None when the issue has no assignee
    htmlUrl: string,          // html_url
    number: int,              // number
    title: string)            // title

  /** One entry of an issue's event list: its kind and actor.login. */
  datatype Event = Event(event: string, actor: string)

  /** The path segment that marks a comment as belonging to a pull request. */
  const PullPath: string := "/pull"

  /** The kind of event that counts as closing an issue. */
  const ClosedEvent: string := "closed"

  /** The filter of the issue routes: drop items generated by a pull request. */
  predicate NotPullRequest(x: Item) { !x.isPullRequest }

  /** The filter of /commitComments, which keeps every comment. */
  predicate AnyItem(x: Item) { true }

  /** The filter of /issuesComments: the comment URL does not mention `/pull`. */
  predicate IsIssueComment(c: Item) { !Contains(c.htmlUrl, PullPath) }

  /** The filter of /pullRequestComments: the comment URL mentions `/pull`. */
  predicate IsPullRequestComment(c: Item) { Contains(c.htmlUrl, PullPath) }

  /** True when the issue has an assignee. */
  predicate HasAssignee(x: Item) { x.assignee.Some? }

  /** The identity an item is credited to by the routes that count authors. */
  function UserLogin(x: Item): Option<string> { Some(x.login) }

  /** The identity an issue is credited to by /issues_assigned; none when unassigned. */
  function AssigneeLogin(x: Item): Option<string> { x.assignee }

  /** The identity an event is credited to by /issues_closed: the actor of a `closed` event only. */
  function ClosedBy(e: Event): Option<string> {
    if e.event == ClosedEvent then Some(e.actor) else None
  }

  /** `t` occurs in `s` starting at index `i`. */
  predicate OccursAt(s: string, t: string, i: nat) {
    i + |t| <= |s| && s[i..i + |t|] == t
  }

  /** Substring search, as `String.prototype.match` with a pattern free of special characters. */
  predicate Contains(s: string, t: string)
    decreases |s|
  {
    OccursAt(s, t, 0) || (|s| > 0 && Contains(s[1..], t))
  }

  /** `Contains` finds `t` exactly when `t` occurs somewhere in `s`. */
  lemma {:induction false} ContainsIffOccurs(s: string, t: string)
    ensures Contains(s, t) <==> exists i: nat :: OccursAt(s, t, i)
    decreases |s|
  {
    if Contains(s, t) {
      if !OccursAt(s, t, 0) {
        ContainsIffOccurs(s[1..], t);
        var i: nat :| OccursAt(s[1..], t, i);
        assert s[1..][i..i + |t|] == s[i + 1..i + 1 + |t|];
        assert OccursAt(s, t, i + 1);
      }
    }
    if exists i: nat :: OccursAt(s, t, i) {
      var i: nat :| OccursAt(s, t, i);
      if i > 0 {
        assert s[1..][i - 1..i - 1 + |t|] == s[i..i + |t|];
        assert OccursAt(s[1..], t, i - 1);
        ContainsIffOccurs(s[1..], t);
      }
    }
  }

  /** The items of `s` that `keep` accepts, in their original order. */
  function Filter(keep: Item -> bool, s: seq<Item>): (r: seq<Item>)
    ensures |r| <= |s|
  {
    if s == [] then [] else Filter(keep, s[..|s| - 1]) + (if keep(s[|s| - 1]) then [s[|s| - 1]] else [])
  }

  /** The filter keeps exactly the accepted items. */
  lemma {:induction false} FilterMembers(keep: Item -> bool, s: seq<Item>)
    ensures forall x :: x in Filter(keep, s) <==> x in s && keep(x)
    decreases |s|
  {
    if s != [] {
      FilterMembers(keep, s[..|s| - 1]);
      assert s == s[..|s| - 1] + [s[|s| - 1]];
    }
  }

  /**
   * Two complementary filters split every sequence: each item goes to exactly
   * one side, and together the sides hold every item as often as the input does.
   */
  lemma {:induction false} ComplementaryFiltersPartition(keep: Item -> bool, drop: Item -> bool, s: seq<Item>)
    requires forall x :: drop(x) == !keep(x)
    ensures multiset(Filter(keep, s)) + multiset(Filter(drop, s)) == multiset(s)
    decreases |s|
  {
    if s != [] {
      var init := s[..|s| - 1];
      var last := s[|s| - 1];
      ComplementaryFiltersPartition(keep, drop, init);
      assert s == init + [last];
      assert multiset(s) == multiset(init) + multiset([last]);
      var fk := Filter(keep, init);
      var fd := Filter(drop, init);
      if keep(last) {
        assert Filter(keep, s) == fk + [last];
        assert Filter(drop, s) == fd + [];
        assert fd + [] == fd;
      } else {
        assert Filter(keep, s) == fk + [];
        assert fk + [] == fk;
        assert Filter(drop, s) == fd + [last];
      }
    }
  }

  /** Filtering page by page and appending gives the filter of the appended pages. */
  lemma {:induction false} FilterAppend(keep: Item -> bool, a: seq<Item>, b: seq<Item>)
    ensures Filter(keep, a + b) == Filter(keep, a) + Filter(keep, b)
    decreases |b|
  {
    if b != [] {
      var b' := b[..|b| - 1];
      assert (a + b)[..|a + b| - 1] == a + b';
      FilterAppend(keep, a, b');
    } else {
      assert a + b == a;
    }
  }

  /**
   * The issue-comment and pull-request-comment filters split every sequence of
   * comments: each comment goes to exactly one side, and together the two
   * sides hold every comment as often as the input does.
   */
  lemma CommentFiltersPartition(s: seq<Item>)
    ensures multiset(Filter(IsIssueComment, s)) + multiset(Filter(IsPullRequestComment, s)) == multiset(s)
    ensures |Filter(IsIssueComment, s)| + |Filter(IsPullRequestComment, s)| == |s|
    ensures forall c :: c in s ==> (c in Filter(IsIssueComment, s) <==> c !in Filter(IsPullRequestComment, s))
  {
    ComplementaryFiltersPartition(IsIssueComment, IsPullRequestComment, s);
    FilterMembers(IsIssueComment, s);
    FilterMembers(IsPullRequestComment, s);
    assert |multiset(Filter(IsIssueComment, s)) + multiset(Filter(IsPullRequestComment, s))| == |multiset(s)|;
  }
}
