/**
 * `extract_city_links` of city_scratcher.py: two passes over the city
 * blocks of the start page (the main cities, then the small cities). Each
 * pass counts the blocks once, and every iteration waits for a fresh,
 * non-empty block list, reads block `i`'s text (skipping the block when
 * that fails), clicks it, records the (text, URL) pair and reloads the
 * start page. The pairs are written to a CSV only when both passes finish;
 * anything that raises outside the per-block `try` ends the run with
 * nothing written.
 */
module CityLinks {
  import opened Wrappers
  import opened Browsing

  /**
   * A city block as its pass sees it: the text the pass reads from it (the
   * `<h3>` text in the first pass, the block text in the second; `None`
   * when that lookup raises), and the URL the browser shows after clicking
   * it (`None` when the click raises).
   */
  datatype CityBlock = CityBlock(text: Option<string>, target: Option<string>)

  /** A (city name, URL) pair. */
  type Link = (string, string)

  /** Iteration `j` raises outside the `try`: the wait finds no block, or the click fails. */
  predicate Aborts(items: seq<CityBlock>, j: nat) {
    |items| == 0 || (j < |items| && items[j].text.Some? && items[j].target.None?)
  }

  /** Iteration `j` of a pass whose iterations start at query `q` aborts. */
  ghost predicate AbortsAt(feed: nat -> seq<CityBlock>, q: nat, j: nat) {
    Aborts(feed(q + j), j)
  }

  /** Iteration `j` gets past the `try`: block `j` exists and its text was read. */
  predicate Reads(items: seq<CityBlock>, j: nat) {
    j < |items| && items[j].text.Some?
  }

  /**
   * The pairs one pass collects from iteration `i` on, when iteration `j`
   * sees the answer to query `q + j`; `None` when an iteration aborts.
   */
  function Links(feed: nat -> seq<CityBlock>, q: nat, n: nat, i: nat): (r: Option<seq<Link>>)
    decreases n - i
  {
    if i >= n then Some([])
    else
      var items := feed(q + i);
      if Aborts(items, i) then None
      else if !Reads(items, i) then Links(feed, q, n, i + 1)
      else
        match Links(feed, q, n, i + 1)
        case None => None
        case Some(rest) => Some([(items[i].text.value, items[i].target.value)] + rest)
  }

  /** The loop as it runs: `acc` holds the pairs collected before iteration `i`. */
  function PassFrom(feed: nat -> seq<CityBlock>, q: nat, n: nat, i: nat, acc: seq<Link>): Option<seq<Link>>
    decreases n - i
  {
    if i >= n then Some(acc)
    else
      var items := feed(q + i);
      if Aborts(items, i) then None
      else if !Reads(items, i) then PassFrom(feed, q, n, i + 1, acc)
      else PassFrom(feed, q, n, i + 1, acc + [(items[i].text.value, items[i].target.value)])
  }

  /** The running loop appends exactly what `Links` collects to what it has. */
  lemma {:induction false} PassFromLinks(feed: nat -> seq<CityBlock>, q: nat, n: nat, i: nat, acc: seq<Link>)
    ensures PassFrom(feed, q, n, i, acc) == match Links(feed, q, n, i) case None => None case Some(r) => Some(acc + r)
    decreases n - i
  {
    if i >= n {
      assert acc + [] == acc;
    } else {
      var items := feed(q + i);
      if !Aborts(items, i) {
        if !Reads(items, i) {
          PassFromLinks(feed, q, n, i + 1, acc);
        } else {
          var l := (items[i].text.value, items[i].target.value);
          PassFromLinks(feed, q, n, i + 1, acc + [l]);
          if Links(feed, q, n, i + 1).Some? {
            var rest := Links(feed, q, n, i + 1).value;
            assert acc + [l] + rest == acc + ([l] + rest);
          }
        }
      }
    }
  }

  /** A pass fails exactly when some iteration finds no blocks or cannot click the block it read. */
  lemma {:induction false} LinksNone(feed: nat -> seq<CityBlock>, q: nat, n: nat, i: nat)
    ensures Links(feed, q, n, i).None? <==> exists j :: i <= j < n && AbortsAt(feed, q, j)
    decreases n - i
  {
    if i < n {
      LinksNone(feed, q, n, i + 1);
      if exists j :: i <= j < n && AbortsAt(feed, q, j) {
        var j :| i <= j < n && AbortsAt(feed, q, j);
        if j > i {
          assert i + 1 <= j < n && AbortsAt(feed, q, j);
        }
      } else {
        assert !AbortsAt(feed, q, i);
      }
    }
  }

  /** The iterations, from `i` on, that read their block's text. */
  function ReadIters(feed: nat -> seq<CityBlock>, q: nat, n: nat, i: nat): seq<nat>
    decreases n - i
  {
    if i >= n then []
    else (if Reads(feed(q + i), i) then [i] else []) + ReadIters(feed, q, n, i + 1)
  }

  /** Pair `l` is the text and the URL of block `j` of the list iteration `j` saw. */
  ghost predicate LinkAt(feed: nat -> seq<CityBlock>, q: nat, j: nat, l: Link) {
    j < |feed(q + j)| && feed(q + j)[j].text == Some(l.0) && feed(q + j)[j].target == Some(l.1)
  }

  /** The reading iterations are in range and in increasing order. */
  lemma {:induction false} ReadItersIncreasing(feed: nat -> seq<CityBlock>, q: nat, n: nat, i: nat)
    ensures forall k :: 0 <= k < |ReadIters(feed, q, n, i)| ==> i <= ReadIters(feed, q, n, i)[k] < n
    ensures forall a, b :: 0 <= a < b < |ReadIters(feed, q, n, i)| ==> ReadIters(feed, q, n, i)[a] < ReadIters(feed, q, n, i)[b]
    decreases n - i
  {
    if i < n {
      ReadItersIncreasing(feed, q, n, i + 1);
    }
  }

  /**
   * A finished pass holds one pair per iteration that read its block, in
   * iteration order, and each pair is that block's text and URL: a block
   * whose text lookup failed contributes nothing.
   */
  lemma {:induction false} LinksFromBlocks(feed: nat -> seq<CityBlock>, q: nat, n: nat, i: nat)
    requires Links(feed, q, n, i).Some?
    ensures |Links(feed, q, n, i).value| == |ReadIters(feed, q, n, i)|
    ensures forall k :: 0 <= k < |Links(feed, q, n, i).value| ==>
              LinkAt(feed, q, ReadIters(feed, q, n, i)[k], Links(feed, q, n, i).value[k])
    decreases n - i
  {
    if i < n {
      LinksFromBlocks(feed, q, n, i + 1);
      var items := feed(q + i);
      var r := Links(feed, q, n, i).value;
      var rest := Links(feed, q, n, i + 1).value;
      var it := ReadIters(feed, q, n, i);
      var itRest := ReadIters(feed, q, n, i + 1);
      if Reads(items, i) {
        assert r == [(items[i].text.value, items[i].target.value)] + rest;
        assert it == [i] + itRest;
        forall k | 0 <= k < |r| ensures LinkAt(feed, q, it[k], r[k]) {
          if k > 0 {
            assert r[k] == rest[k - 1] && it[k] == itRest[k - 1];
          }
        }
      } else {
        assert it == itRest;
      }
    }
  }

  /** A pass collects at most one pair per block it counted. */
  lemma LinksBound(feed: nat -> seq<CityBlock>, q: nat, n: nat, i: nat)
    requires i <= n && Links(feed, q, n, i).Some?
    ensures |Links(feed, q, n, i).value| <= n - i
  {
    LinksFromBlocks(feed, q, n, i);
    ReadItersLength(feed, q, n, i);
  }

  /** There is at most one reading iteration per iteration. */
  lemma {:induction false} ReadItersLength(feed: nat -> seq<CityBlock>, q: nat, n: nat, i: nat)
    ensures |ReadIters(feed, q, n, i)| <= if i <= n then n - i else 0
    decreases n - i
  {
    if i < n {
      ReadItersLength(feed, q, n, i + 1);
    }
  }

  /** The CSV header. */
  const Header: seq<string> := ["City", "URL"]

  /** `writer.writerows(city_links)`: one line per pair. */
  function LinkRows(links: seq<Link>): (rows: seq<seq<string>>)
    ensures |rows| == |links| && forall k :: 0 <= k < |links| ==> rows[k] == [links[k].0, links[k].1]
  {
    seq(|links|, k requires 0 <= k < |links| => [links[k].0, links[k].1])
  }

  /** Where the second pass starts: after the first pass's count query and its `n1` iterations. */
  function SecondStart(feed: nat -> seq<CityBlock>, q: nat): nat {
    q + 1 + |feed(q)|
  }

  /**
   * The CSV the run writes, starting at query `q`: the header, the main
   * cities' pairs, then the small cities' pairs; `None` when either pass
   * aborts.
   */
  function CsvOf(feed: nat -> seq<CityBlock>, q: nat): (r: Option<seq<seq<string>>>)
    ensures r.None? <==> Links(feed, q + 1, |feed(q)|, 0).None? || Links(feed, SecondStart(feed, q) + 1, |feed(SecondStart(feed, q))|, 0).None?
  {
    var q2 := SecondStart(feed, q);
    match Links(feed, q + 1, |feed(q)|, 0)
    case None => None
    case Some(main) =>
      match Links(feed, q2 + 1, |feed(q2)|, 0)
      case None => None
      case Some(small) => Some([Header] + LinkRows(main) + LinkRows(small))
  }

  /**
   * A written CSV has the header, then every main-city pair, then every
   * small-city pair, and at most one line per counted block.
   */
  lemma CsvOfOrder(feed: nat -> seq<CityBlock>, q: nat, main: seq<Link>, small: seq<Link>)
    requires Links(feed, q + 1, |feed(q)|, 0) == Some(main)
    requires Links(feed, SecondStart(feed, q) + 1, |feed(SecondStart(feed, q))|, 0) == Some(small)
    ensures CsvOf(feed, q).Some?
    ensures |CsvOf(feed, q).value| == 1 + |main| + |small| <= 1 + |feed(q)| + |feed(SecondStart(feed, q))|
    ensures CsvOf(feed, q).value[0] == Header
    ensures forall k :: 0 <= k < |main| ==> CsvOf(feed, q).value[1 + k] == [main[k].0, main[k].1]
    ensures forall k :: 0 <= k < |small| ==> CsvOf(feed, q).value[1 + |main| + k] == [small[k].0, small[k].1]
  {
    LinksBound(feed, q + 1, |feed(q)|, 0);
    LinksBound(feed, SecondStart(feed, q) + 1, |feed(SecondStart(feed, q))|, 0);
  }

  /** One pass over `n` blocks: `for i in range(n)` with a fresh wait-and-query, a `try` around the read, then click and reload. */
  method Pass(b: Browser<CityBlock>, n: nat) returns (links: Option<seq<Link>>)
    modifies b`queries, b`loads
    ensures links == Links(b.feed, old(b.queries), n, 0)
    ensures links.Some? ==> b.queries == old(b.queries) + n
  {
    var q0 := b.queries;
    var acc: seq<Link> := [];
    PassFromLinks(b.feed, q0, n, 0, []);
    if Links(b.feed, q0, n, 0).Some? {
      assert [] + Links(b.feed, q0, n, 0).value == Links(b.feed, q0, n, 0).value;
    }
    for i := 0 to n
      invariant b.queries == q0 + i
      invariant PassFrom(b.feed, q0, n, i, acc) == Links(b.feed, q0, n, 0)
    {
      var blocks := b.Requery();
      if |blocks| == 0 {
        return None;
      }
      if i >= |blocks| || blocks[i].text.None? {
        continue;
      }
      var text := blocks[i].text.value;
      if blocks[i].target.None? {
        return None;
      }
      acc := acc + [(text, blocks[i].target.value)];
      b.Reload();
    }
    return Some(acc);
  }

  /** `extract_city_links`: both passes, then the CSV, or nothing when a pass raises. */
  method ExtractCityLinks(b: Browser<CityBlock>) returns (csv: Option<seq<seq<string>>>)
    modifies b`queries, b`loads
    ensures csv == CsvOf(b.feed, old(b.queries))
  {
    var q := b.queries;
    b.Reload();
    b.Reload();
    var mainBlocks := b.Requery();
    var main := Pass(b, |mainBlocks|);
    if main.None? {
      return None;
    }
    assert b.queries == SecondStart(b.feed, q);
    b.Reload();
    var smallBlocks := b.Requery();
    var small := Pass(b, |smallBlocks|);
    if small.None? {
      return None;
    }
    return Some([Header] + LinkRows(main.value) + LinkRows(small.value));
  }
}
