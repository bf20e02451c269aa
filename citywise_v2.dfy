/**
 * `each_deal_details` of APIs/deals_scratch_citywise_v2.py: expand the
 * listing, open each card's deal page in a second tab, extract its entries,
 * store them by deal name (a repeated name replaces the earlier list), and
 * flatten the dict into CSV rows.
 */
module CitywiseV2 {
  import opened Wrappers
  import opened Text
  import opened Dom
  import opened Expansion
  import opened Extract
  import opened Sink
  import opened Browsing

  /** The fixed CSV header of this file. */
  const Header: seq<string> := ["City", "Deal Name", "Discount", "Applicable Cards"]

  /** The deal name: the stripped title text, or "N/A" when waiting for the title raises. */
  function DealName(title: Option<string>): (r: string)
    ensures |r| > 0 || title.Some?
  {
    match title
    case None => "N/A"
    case Some(t) => Strip(t)
  }

  /**
   * What visiting one card stores: nothing when reading its link raises or
   * its page does not load; otherwise its name and entries, kept only when
   * the name is non-empty and there is at least one entry.
   */
  function CardWrite(c: Card): (r: Option<Write>)
    ensures r.Some? ==> |r.value.0| > 0 && |r.value.1| > 0
    ensures r.Some? ==> c.link.Some? && c.detail.Some?
  {
    if c.link.None? || c.detail.None? then None
    else
      var view := c.detail.value;
      var name := DealName(view.title);
      var entries := V2Entries(view.lines);
      if |name| > 0 && |entries| > 0 then Some((name, entries)) else None
  }

  /** The dict after visiting `cards` in order, overwriting by name. */
  function DealsOf(cards: seq<Card>): Deals {
    Overwrite([], FilterMap(CardWrite, cards))
  }

  /**
   * The deals dict has distinct names, and every stored deal has a
   * non-empty name and at least one entry, each with non-empty discount
   * text and a non-empty, duplicate-free card list.
   */
  lemma DealsOfShape(cards: seq<Card>)
    ensures UniqueNames(DealsOf(cards))
    ensures forall p :: p in DealsOf(cards) ==> KeptDeal(p) && |p.1| > 0
  {
    var ws := FilterMap(CardWrite, cards);
    PoliciesKeepUnique([], ws);
    OverwriteHoldsWrites([], ws);
    forall p | p in ws ensures KeptDeal(p) && |p.1| > 0 {
      FilterMapFrom(CardWrite, cards);
      var k :| 0 <= k < |cards| && CardWrite(cards[k]) == Some(p);
      V2EntriesKept(cards[k].detail.value.lines);
    }
  }

  /** Visiting one more card stores its write, if it has one. */
  lemma DealsOfSnoc(cards: seq<Card>, card: Card)
    ensures DealsOf(cards + [card]) == match CardWrite(card) case None => DealsOf(cards) case Some(w) => Put(DealsOf(cards), w.0, w.1)
  {
    FilterMapSnoc(CardWrite, cards, card);
    if CardWrite(card).Some? {
      OverwriteSnoc([], FilterMap(CardWrite, cards), CardWrite(card).value);
    }
  }

  /** A repeated deal name keeps the entries of its last successful visit. */
  lemma DealsOfLastVisitWins(cards: seq<Card>, name: string)
    ensures Lookup(DealsOf(cards), name) == LastWrite(FilterMap(CardWrite, cards), name)
  {
    OverwriteLastWins([], FilterMap(CardWrite, cards), name);
  }

  /** Merging the same visits a second time changes nothing. */
  lemma DealsOfRemerge(cards: seq<Card>)
    ensures Overwrite(DealsOf(cards), FilterMap(CardWrite, cards)) == DealsOf(cards)
  {
    OverwriteIdempotent([], FilterMap(CardWrite, cards));
  }

  /** The CSV rows the run writes, or `None` when it raises before writing (no card on the expanded listing). */
  function CsvOf(feed: nat -> seq<Card>, q: nat, city: string): (r: Option<seq<seq<string>>>)
    ensures r.None? <==> |feed(q)| == 0
  {
    var first := feed(q);
    if |first| == 0 then None
    else Some([Header] + Flatten(city, DealsOf(Visited(feed, q + 1, |first|, 0))))
  }

  /** The rows written from the dict of the visited cards are the run's CSV. */
  lemma CsvOfWritten(feed: nat -> seq<Card>, q: nat, city: string, rows: seq<seq<string>>)
    requires |feed(q)| > 0
    requires rows == [Header] + Flatten(city, DealsOf(Visited(feed, q + 1, |feed(q)|, 0)))
    ensures CsvOf(feed, q, city) == Some(rows)
  {
  }

  /**
   * A written CSV is the header and then one row per stored (deal, entry):
   * the city, a non-empty deal name, non-empty discount text and the
   * ", "-joined non-empty card list.
   */
  lemma CsvOfRows(feed: nat -> seq<Card>, q: nat, city: string)
    requires CsvOf(feed, q, city).Some?
    ensures var rows := CsvOf(feed, q, city).value;
            && rows[0] == Header
            && |rows| == 1 + TotalEntries(DealsOf(Visited(feed, q + 1, |feed(q)|, 0)))
            && forall k :: 1 <= k < |rows| ==> KeptRow(city, rows[k])
  {
    var cards := Visited(feed, q + 1, |feed(q)|, 0);
    var d := DealsOf(cards);
    var rows := CsvOf(feed, q, city).value;
    var flat := Flatten(city, d);
    assert rows == [Header] + flat;
    assert forall k :: 1 <= k < |rows| ==> rows[k] == flat[k - 1];
    DealsOfShape(cards);
    FlattenKept(city, d);
    forall k | 1 <= k < |rows| ensures KeptRow(city, rows[k]) {
      assert flat[k - 1] in flat;
    }
  }

  /** The card set of one discount line: the loop over its badges. */
  method CollectCards(badges: seq<Badge>) returns (cards: seq<string>)
    ensures cards == StrippedLabels(badges)
  {
    cards := [];
    var i := 0;
    while i < |badges|
      invariant 0 <= i <= |badges|
      invariant cards == StrippedLabels(badges[..i])
    {
      var b := badges[i];
      if b.p.Some? {
        cards := AddLabel(cards, Strip(b.p.value));
      } else if b.span.Some? {
        cards := AddLabel(cards, Strip(b.span.value));
      }
      assert badges[..i + 1][..i] == badges[..i];
      i := i + 1;
    }
    assert badges[..i] == badges;
  }

  /** One discount line: its stripped text and card set, kept when both are non-empty; nothing when the text lookup raises. */
  method LineEntry(line: DiscountLine) returns (entry: Option<Entry>)
    ensures entry == V2Entry(line)
  {
    entry := None;
    if line.primary.Some? {
      var discount := Strip(line.primary.value);
      var cards := CollectCards(line.badges);
      if |discount| > 0 && |cards| > 0 {
        entry := Some(Entry(discount, cards));
      }
    }
  }

  /** The entries of one deal page: the loop over its discount lines, skipping a line whose text lookup raises. */
  method CollectEntries(lines: seq<DiscountLine>) returns (entries: seq<Entry>)
    ensures entries == V2Entries(lines)
  {
    entries := [];
    var i := 0;
    while i < |lines|
      invariant 0 <= i <= |lines|
      invariant entries == FilterMap(V2Entry, lines[..i])
    {
      var entry := LineEntry(lines[i]);
      assert lines[..i + 1] == lines[..i] + [lines[i]];
      FilterMapSnoc(V2Entry, lines[..i], lines[i]);
      if entry.Some? {
        entries := entries + [entry.value];
      }
      i := i + 1;
    }
    assert lines[..i] == lines;
  }

  /**
   * One iteration's work on a card: open its link in a second tab, extract
   * and store, close the tab and focus the first window; when reading the
   * link raises, no tab was opened and nothing is closed; when the page
   * fails after the tab opened, the handler closes it and focuses the first
   * window.
   */
  method VisitCard(b: Browser<Card>, card: Card, deals: Deals) returns (after: Deals)
    requires b.Valid() && b.handles == [0] && b.focus == 0
    modifies b`handles, b`focus, b`nextHandle, b`peakTabs
    ensures after == match CardWrite(card) case None => deals case Some(w) => Put(deals, w.0, w.1)
    ensures b.Valid() && b.handles == [0] && b.focus == 0
    ensures b.peakTabs <= if old(b.peakTabs) < 2 then 2 else old(b.peakTabs)
  {
    after := deals;
    var failed := false;
    if card.link.None? {
      failed := true;
    } else {
      b.OpenTab();
      b.SwitchTo(1);
      if card.detail.None? {
        failed := true;
      } else {
        var view := card.detail.value;
        var name := DealName(view.title);
        var entries := CollectEntries(view.lines);
        if |name| > 0 && |entries| > 0 {
          after := Put(deals, name, entries);
        }
        b.Close();
        b.SwitchTo(0);
      }
    }
    if failed && |b.handles| > 1 {
      b.Close();
      b.SwitchTo(0);
    }
  }

  /**
   * The per-card loop: re-query the cards, stop at a stale index, and visit
   * the card at the index. Every iteration ends on the first window alone,
   * and no more than one extra tab is ever open.
   */
  method TraverseNewTab(b: Browser<Card>, n: nat) returns (deals: Deals)
    requires b.Valid() && b.handles == [0] && b.focus == 0
    modifies b`queries, b`handles, b`focus, b`nextHandle, b`peakTabs
    ensures deals == DealsOf(Visited(b.feed, old(b.queries), n, 0))
    ensures b.queries == old(b.queries) + QueriesUsed(b.feed, old(b.queries), n, 0)
    ensures b.Valid() && b.handles == [0] && b.focus == 0
    ensures b.peakTabs <= if old(b.peakTabs) < 2 then 2 else old(b.peakTabs)
  {
    ghost var q0 := b.queries;
    ghost var peak0 := b.peakTabs;
    ghost var seen: seq<Card> := [];
    deals := [];
    var index := 0;
    while index < n
      invariant 0 <= index <= n && |seen| == index
      invariant b.Valid() && b.handles == [0] && b.focus == 0
      invariant b.queries == q0 + index
      invariant b.peakTabs <= if peak0 < 2 then 2 else peak0
      invariant seen + Visited(b.feed, q0, n, index) == Visited(b.feed, q0, n, 0)
      invariant deals == DealsOf(seen)
    {
      var blocks := b.Requery();
      if index >= |blocks| {
        assert Visited(b.feed, q0, n, index) == [];
        assert seen == Visited(b.feed, q0, n, 0);
        assert QueriesUsed(b.feed, q0, n, 0) == index + 1;
        break;
      }
      var card := blocks[index];
      ghost var rest := Visited(b.feed, q0, n, index + 1);
      assert Visited(b.feed, q0, n, index) == [card] + rest;
      assert seen + [card] + rest == Visited(b.feed, q0, n, 0);
      DealsOfSnoc(seen, card);
      deals := VisitCard(b, card, deals);
      seen := seen + [card];
      index := index + 1;
    }
    if index == n {
      assert Visited(b.feed, q0, n, n) == [];
      assert seen + [] == seen;
      assert seen == Visited(b.feed, q0, n, 0);
      assert QueriesUsed(b.feed, q0, n, 0) == n;
    }
  }

  /**
   * The queries one run asks: the wait for the cards, then one re-query per
   * iteration up to the stop; at most one per card the wait found, and one more.
   */
  function RunQueries(feed: nat -> seq<Card>, q: nat): (r: nat)
    ensures 1 <= r <= 1 + |feed(q)|
  {
    if |feed(q)| == 0 then 1 else 1 + QueriesUsed(feed, q + 1, |feed(q)|, 0)
  }

  /**
   * After the expansion: wait for the cards (an empty listing makes the
   * wait raise, and nothing is written), visit every card, and produce the
   * CSV rows.
   */
  method VisitAndWrite(b: Browser<Card>, city: string) returns (csv: Option<seq<seq<string>>>)
    requires b.Valid() && b.handles == [0] && b.focus == 0
    modifies b`queries, b`handles, b`focus, b`nextHandle, b`peakTabs
    ensures csv == CsvOf(b.feed, old(b.queries), city)
    ensures b.Valid() && b.handles == [0] && b.focus == 0
    ensures b.queries == old(b.queries) + RunQueries(b.feed, old(b.queries))
    ensures b.loads == old(b.loads)
  {
    ghost var q := b.queries;
    var blocks := b.Requery();
    if |blocks| == 0 {
      return None;
    }
    var deals := TraverseNewTab(b, |blocks|);
    var rows := WriteRows(Header, city, deals);
    CsvOfWritten(b.feed, q, city, rows);
    return Some(rows);
  }

  /** The whole run: click "See More" until the wait or the click raises, then visit and write. */
  method EachDealDetails(b: Browser<Card>, triggers: seq<Trigger>, city: string) returns (csv: Option<seq<seq<string>>>)
    requires b.Valid() && b.handles == [0] && b.focus == 0
    modifies b`queries, b`handles, b`focus, b`nextHandle, b`peakTabs
    ensures csv == CsvOf(b.feed, old(b.queries), city)
    ensures b.Valid() && b.handles == [0] && b.focus == 0
    ensures b.queries == old(b.queries) + RunQueries(b.feed, old(b.queries))
    ensures b.loads == old(b.loads)
  {
    var _ := ClickUntilFailure(triggers);
    csv := VisitAndWrite(b, city);
  }
}
