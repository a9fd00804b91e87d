/**
 * The tally table every metric route builds: one record per contributor
 * login, in contributor order, whose counter is bumped once for every item
 * credited to exactly that login. Items credited to a login outside the table
 * are dropped.
 */
module Tally {
  import opened Wrappers

  /** A tally entry: the contributor's login and its counter. */
  datatype Record = Record(name: string, counter: nat)

  /** The logins of a tally, in table order. */
  function Names(t: seq<Record>): seq<string> {
    seq(|t|, j requires 0 <= j < |t| => t[j].name)
  }

  /** How many of `items` are credited to exactly `name`. */
  function Occurrences<T>(items: seq<T>, key: T -> Option<string>, name: string): (n: nat)
    ensures n <= |items|
  {
    if items == [] then 0
    else Occurrences(items[..|items| - 1], key, name) + (if key(items[|items| - 1]) == Some(name) then 1 else 0)
  }

  /** The table `t` after counting `items`: names kept, each counter raised by its occurrences. */
  function Tallied<T>(t: seq<Record>, items: seq<T>, key: T -> Option<string>): seq<Record> {
    seq(|t|, j requires 0 <= j < |t| => Record(t[j].name, t[j].counter + Occurrences(items, key, t[j].name)))
  }

  /**
   * The initialisation loop: one record per login, in login order, counter 0
   * (duplicated logins give duplicated records).
   */
  method InitTally(logins: seq<string>) returns (t: seq<Record>)
    ensures |t| == |logins|
    ensures Names(t) == logins
    ensures forall j :: 0 <= j < |t| ==> t[j].counter == 0
  {
    t := [];
    var i := 0;
    while i < |logins|
      invariant 0 <= i <= |logins|
      invariant |t| == i
      invariant forall j :: 0 <= j < i ==> t[j] == Record(logins[j], 0)
    {
      t := t + [Record(logins[i], 0)];
      i := i + 1;
    }
  }

  /**
   * The counting block: for every item, in order, and every record, in order,
   * the record's counter is incremented when the item is credited to its name.
   */
  method CountInto<T>(tally: seq<Record>, items: seq<T>, key: T -> Option<string>) returns (r: seq<Record>)
    ensures |r| == |tally| && Names(r) == Names(tally)
    ensures forall j :: 0 <= j < |tally| ==> r[j].counter == tally[j].counter + Occurrences(items, key, tally[j].name)
    ensures forall j :: 0 <= j < |tally| ==> r[j].counter >= tally[j].counter
    ensures r == Tallied(tally, items, key)
  {
    r := tally;
    var i := 0;
    while i < |items|
      invariant 0 <= i <= |items|
      invariant |r| == |tally|
      invariant forall j :: 0 <= j < |tally| ==>
        r[j].name == tally[j].name && r[j].counter == tally[j].counter + Occurrences(items[..i], key, tally[j].name)
    {
      assert items[..i + 1][..i] == items[..i];
      r := Credit(r, items[i], key);
      i := i + 1;
    }
    assert items[..|items|] == items;
  }

  /** The inner loop of the counting block: every record named by `x`'s key gains one. */
  method Credit<T>(t: seq<Record>, x: T, key: T -> Option<string>) returns (r: seq<Record>)
    ensures |r| == |t|
    ensures forall j :: 0 <= j < |t| ==>
      r[j].name == t[j].name && r[j].counter == t[j].counter + (if key(x) == Some(t[j].name) then 1 else 0)
  {
    r := t;
    var c := 0;
    while c < |r|
      invariant 0 <= c <= |r| == |t|
      invariant forall j :: 0 <= j < |t| ==>
        r[j].name == t[j].name && r[j].counter == t[j].counter + (if j < c && key(x) == Some(t[j].name) then 1 else 0)
    {
      if key(x) == Some(r[c].name) {
        r := r[c := r[c].(counter := r[c].counter + 1)];
      }
      c := c + 1;
    }
  }

  /** Counting no items leaves the table as it is. */
  lemma TalliedNothing<T>(t: seq<Record>, key: T -> Option<string>)
    ensures Tallied(t, [], key) == t
  {
  }

  /** Occurrences add up over appended sequences. */
  lemma {:induction false} OccurrencesAppend<T>(a: seq<T>, b: seq<T>, key: T -> Option<string>, name: string)
    ensures Occurrences(a + b, key, name) == Occurrences(a, key, name) + Occurrences(b, key, name)
    decreases |b|
  {
    if b == [] {
      assert a + b == a;
    } else {
      var b' := b[..|b| - 1];
      assert (a + b)[..|a + b| - 1] == a + b';
      OccurrencesAppend(a, b', key, name);
    }
  }

  /** Counting in two batches is counting their concatenation. */
  lemma TalliedAppend<T>(t: seq<Record>, a: seq<T>, b: seq<T>, key: T -> Option<string>)
    ensures Tallied(Tallied(t, a, key), b, key) == Tallied(t, a + b, key)
  {
    forall j | 0 <= j < |t| {
      OccurrencesAppend(a, b, key, t[j].name);
    }
  }

  /**
   * One item anywhere in the input changes exactly the records whose name it
   * is credited to, each by exactly one; the table's names and order never change.
   */
  lemma CountedOncePerMatch<T>(t: seq<Record>, a: seq<T>, x: T, b: seq<T>, key: T -> Option<string>, j: nat)
    requires j < |t|
    ensures Names(Tallied(t, a + [x] + b, key)) == Names(t)
    ensures Tallied(t, a + [x] + b, key)[j].counter
         == Tallied(t, a + b, key)[j].counter + (if key(x) == Some(t[j].name) then 1 else 0)
  {
    OccurrencesAppend(a + [x], b, key, t[j].name);
    OccurrencesAppend(a, [x], key, t[j].name);
    OccurrencesAppend(a, b, key, t[j].name);
    assert [x][..0] == [];
  }

  /** An item credited to no login of the table, wherever it occurs, changes nothing. */
  lemma UnknownLoginIgnored<T>(t: seq<Record>, a: seq<T>, x: T, b: seq<T>, key: T -> Option<string>)
    requires key(x).None? || key(x).value !in Names(t)
    ensures Tallied(t, a + [x] + b, key) == Tallied(t, a + b, key)
  {
    forall j | 0 <= j < |t|
      ensures Tallied(t, a + [x] + b, key)[j] == Tallied(t, a + b, key)[j]
    {
      CountedOncePerMatch(t, a, x, b, key, j);
      assert t[j].name == Names(t)[j];
    }
  }
}
