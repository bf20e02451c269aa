/**
 * `each_deal_details` of deal_scratch_citywise.py: expand the listing with
 * the `find_elements` loop, count the cards once, run the in-place
 * traversal, and flatten the dict into CSV rows. Any exception on the way
 * is caught at the end of the function and nothing is written.
 */
module Citywise {
  import opened Wrappers
  import opened Text
  import opened Dom
  import opened Expansion
  import opened Extract
  import opened Sink
  import opened Browsing
  import opened InPlace

  /** The fixed CSV header of this file. */
  const Header: seq<string> := ["City Name", "Deal Name", "Discount", "Applicable Cards"]

  /**
   * The CSV rows the run writes, starting at listing query `q`; `None` when
   * a "See More" click raises or the traversal raises. The first query
   * counts the cards (an empty listing just means no iteration).
   */
  function CsvOf(triggers: seq<Trigger>, feed: nat -> seq<Card>, q: nat, city: string): (r: Option<seq<seq<string>>>)
    ensures r.None? <==> Broken in triggers || Result(feed, q + 1, |feed(q)|).None?
  {
    if Broken in triggers then None
    else
      match Result(feed, q + 1, |feed(q)|)
      case None => None
      case Some(d) => Some([Header] + Flatten(city, d))
  }

  /** A written CSV is the header and then one row per entry written: none is lost. */
  lemma CsvOfLength(triggers: seq<Trigger>, feed: nat -> seq<Card>, q: nat, city: string)
    requires CsvOf(triggers, feed, q, city).Some?
    ensures CsvOf(triggers, feed, q, city).value[0] == Header
    ensures |CsvOf(triggers, feed, q, city).value| == 1 + TotalWritten(Writes(Visited(feed, q + 1, |feed(q)|, 0)).value)
  {
    ResultTotal(feed, q + 1, |feed(q)|);
  }

  /**
   * Each data row is the city, the name an entry is stored under, its
   * discount text and its ", "-joined non-empty, duplicate-free card list.
   */
  lemma CsvOfRows(triggers: seq<Trigger>, feed: nat -> seq<Card>, q: nat, city: string)
    requires CsvOf(triggers, feed, q, city).Some?
    ensures var rows := CsvOf(triggers, feed, q, city).value;
            forall k :: 1 <= k < |rows| ==> StoredRow(city, Result(feed, q + 1, |feed(q)|).value, rows[k])
  {
    var d := Result(feed, q + 1, |feed(q)|).value;
    var rows := CsvOf(triggers, feed, q, city).value;
    var flat := Flatten(city, d);
    assert rows == [Header] + flat;
    assert forall k :: 1 <= k < |rows| ==> rows[k] == flat[k - 1];
    ResultRows(feed, q + 1, |feed(q)|, city);
    forall k | 1 <= k < |rows| ensures StoredRow(city, d, rows[k]) {
      assert flat[k - 1] in flat;
    }
  }

  /** After the expansion: count the cards, traverse in place, and write the rows. */
  method VisitAndWrite(b: Browser<Card>, city: string) returns (csv: Option<seq<seq<string>>>)
    modifies b`queries, b`loads
    ensures csv == match Result(b.feed, old(b.queries) + 1, |b.feed(old(b.queries))|)
                   case None => None
                   case Some(d) => Some([Header] + Flatten(city, d))
  {
    var blocks := b.Requery();
    var deals := Traverse(b, |blocks|);
    if deals.None? {
      return None;
    }
    var rows := WriteRows(Header, city, deals.value);
    return Some(rows);
  }

  /** The whole run: expand, then visit and write; a click that raises ends it with nothing written. */
  method EachDealDetails(b: Browser<Card>, triggers: seq<Trigger>, city: string) returns (csv: Option<seq<seq<string>>>)
    modifies b`queries, b`loads
    ensures csv == CsvOf(triggers, b.feed, old(b.queries), city)
  {
    var _, raised := ClickWhilePresent(triggers);
    if raised {
      return None;
    }
    csv := VisitAndWrite(b, city);
  }
}
