/**
 * The Selenium driver as a small object: the answers its listing queries
 * get, the pages it loads, and its window handles.
 */
module Browsing {

  /** A list without repeated handles. */
  predicate Distinct(s: seq<nat>) {
    forall i, j :: 0 <= i < j < |s| ==> s[i] != s[j]
  }

  /** `s` without the element `x`. */
  function Without(s: seq<nat>, x: nat): (r: seq<nat>)
    ensures forall y :: y in r <==> y in s && y != x
    ensures x !in s ==> r == s
    ensures x in s && Distinct(s) ==> |r| == |s| - 1
    ensures Distinct(s) ==> Distinct(r)
  {
    if |s| == 0 then []
    else
      assert Distinct(s) ==> Distinct(s[1..]) && s[0] !in s[1..];
      if s[0] == x then Without(s[1..], x)
      else [s[0]] + Without(s[1..], x)
  }

  /**
   * A browser session. The page is an oracle: `feed(k)` is what the `k`-th
   * element query of the session returns, so a re-query may see a different
   * list every time. `handles` are the open windows in opening order,
   * `focus` the window commands go to.
   */
  class Browser<T> {
    const feed: nat -> seq<T>
    var queries: nat
    var loads: nat
    var handles: seq<nat>
    var focus: nat
    var nextHandle: nat
    ghost var peakTabs: nat

    /** Handles are distinct and already issued; the first window is never closed. */
    ghost predicate Valid()
      reads this
    {
      && 1 <= |handles| <= peakTabs
      && handles[0] == 0
      && Distinct(handles)
      && forall h :: h in handles ==> h < nextHandle
    }

    /** A fresh session with one window, focused, and no query asked yet. */
    constructor (feed: nat -> seq<T>)
      ensures Valid() && this.feed == feed
      ensures queries == 0 && loads == 0
      ensures handles == [0] && focus == 0 && nextHandle == 1 && peakTabs == 1
    {
      this.feed := feed;
      queries, loads := 0, 0;
      handles, focus, nextHandle := [0], 0, 1;
      peakTabs := 1;
    }

    /** `driver.find_elements(...)`: the answer to the next query. */
    method Requery() returns (items: seq<T>)
      modifies this`queries
      ensures items == feed(old(queries)) && queries == old(queries) + 1
    {
      items := feed(queries);
      queries := queries + 1;
    }

    /** `driver.get(url)`: reload the page in the focused window. */
    method Reload()
      modifies this`loads
      ensures loads == old(loads) + 1
    {
      loads := loads + 1;
    }

    /** `window.open('')`: a new window is appended; focus does not move. */
    method OpenTab()
      requires Valid()
      modifies this`handles, this`nextHandle, this`peakTabs
      ensures Valid()
      ensures handles == old(handles) + [old(nextHandle)] && nextHandle == old(nextHandle) + 1
      ensures peakTabs == if |handles| > old(peakTabs) then |handles| else old(peakTabs)
    {
      assert nextHandle !in handles;
      handles := handles + [nextHandle];
      nextHandle := nextHandle + 1;
      if |handles| > peakTabs {
        peakTabs := |handles|;
      }
    }

    /** `driver.switch_to.window(driver.window_handles[i])`. */
    method SwitchTo(i: nat)
      requires i < |handles|
      modifies this`focus
      ensures focus == handles[i]
    {
      focus := handles[i];
    }

    /** `driver.close()`: the focused window goes away; focus is left on it until the next switch. */
    method Close()
      requires Valid() && focus in handles && focus != handles[0]
      modifies this`handles
      ensures Valid()
      ensures handles == Without(old(handles), focus)
      ensures |handles| == |old(handles)| - 1
    {
      var before := handles;
      handles := Without(handles, focus);
      assert handles[0] == 0 by {
        assert before == [before[0]] + before[1..];
      }
    }
  }

  /**
   * The cards a per-card loop `for i in range(n)` reaches from iteration `i`
   * on, when iteration `j` re-queries (query `q + j`) and stops as soon as
   * `j` is past the end of the fresh list.
   */
  function Visited<T>(feed: nat -> seq<T>, q: nat, n: nat, i: nat): (r: seq<T>)
    requires i <= n
    ensures |r| <= n - i
    decreases n - i
  {
    if i >= n then []
    else
      var items := feed(q + i);
      if i >= |items| then [] else [items[i]] + Visited(feed, q, n, i + 1)
  }

  /** A loop that stops before its last iteration stops at an index past the fresh list. */
  lemma {:induction false} VisitedStops<T>(feed: nat -> seq<T>, q: nat, n: nat, i: nat)
    requires i <= n
    ensures i + |Visited(feed, q, n, i)| < n ==> i + |Visited(feed, q, n, i)| >= |feed(q + i + |Visited(feed, q, n, i)|)|
    decreases n - i
  {
    if i < n && i < |feed(q + i)| {
      VisitedStops(feed, q, n, i + 1);
    }
  }

  /** `x` is item `index` of the answer to query `query`, and that index is in range. */
  ghost predicate ReadFrom<T>(feed: nat -> seq<T>, query: nat, index: nat, x: T) {
    index < |feed(query)| && feed(query)[index] == x
  }

  /**
   * The `k`-th card reached is card `i + k` of the list its own iteration
   * re-queried, and that index was within the fresh list: no stale read.
   */
  lemma {:induction false} VisitedCards<T>(feed: nat -> seq<T>, q: nat, n: nat, i: nat)
    requires i <= n
    ensures forall k :: 0 <= k < |Visited(feed, q, n, i)| ==> ReadFrom(feed, q + i + k, i + k, Visited(feed, q, n, i)[k])
    decreases n - i
  {
    if i < n && i < |feed(q + i)| {
      VisitedCards(feed, q, n, i + 1);
      var r := Visited(feed, q, n, i);
      var rest := Visited(feed, q, n, i + 1);
      assert r == [feed(q + i)[i]] + rest;
      forall k | 0 <= k < |r| ensures ReadFrom(feed, q + i + k, i + k, r[k]) {
        if k > 0 {
          var j := k - 1;
          assert r[k] == rest[j];
          assert ReadFrom(feed, q + (i + 1) + j, i + 1 + j, rest[j]);
        }
      }
    }
  }

  /** How many queries the loop asks from iteration `i` on: one per visited card, plus the one that stopped it, if any. */
  function QueriesUsed<T>(feed: nat -> seq<T>, q: nat, n: nat, i: nat): (r: nat)
    requires i <= n
    ensures r <= n - i
  {
    var v := |Visited(feed, q, n, i)|;
    if i + v < n then v + 1 else v
  }

  /**
   * Whether the loop from iteration `i` on reaches a re-query that finds
   * nothing (the in-place loops wait for a non-empty list and raise then).
   */
  function HitsEmpty<T>(feed: nat -> seq<T>, q: nat, n: nat, i: nat): bool
    requires i <= n
    decreases n - i
  {
    if i >= n then false
    else
      var items := feed(q + i);
      if |items| == 0 then true else if i >= |items| then false else HitsEmpty(feed, q, n, i + 1)
  }

  /** The loop ends on an empty re-query exactly when it stops early on a list with no item. */
  lemma {:induction false} HitsEmptyStop<T>(feed: nat -> seq<T>, q: nat, n: nat, i: nat)
    requires i <= n
    ensures HitsEmpty(feed, q, n, i) <==> i + |Visited(feed, q, n, i)| < n && |feed(q + i + |Visited(feed, q, n, i)|)| == 0
    decreases n - i
  {
    if i < n && i < |feed(q + i)| {
      HitsEmptyStop(feed, q, n, i + 1);
    }
  }

  /**
   * An iteration that finds card `i` in its fresh list visits it and moves on:
   * the rest of the loop is the loop from `i + 1`, asking one query more.
   */
  lemma VisitedStep<T>(feed: nat -> seq<T>, q: nat, n: nat, i: nat)
    requires i < n && i < |feed(q + i)|
    ensures Visited(feed, q, n, i) == [feed(q + i)[i]] + Visited(feed, q, n, i + 1)
    ensures HitsEmpty(feed, q, n, i) == HitsEmpty(feed, q, n, i + 1)
    ensures QueriesUsed(feed, q, n, i) == 1 + QueriesUsed(feed, q, n, i + 1)
  {
  }
}
