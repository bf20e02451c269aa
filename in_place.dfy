/**
 * The in-place per-card traversal shared by `each_deal_details` of
 * deal_scratch_citywise.py and APIs/deals_scratch_api_v1.1.py: re-query the
 * cards, stop at a stale index, click the card in the listing's own window,
 * read the unstripped title and the discount lines, append every entry under
 * the deal name, and reload the listing. Any lookup that raises escapes the
 * loop and ends the run without a result.
 */
module InPlace {
  import opened Wrappers
  import opened Text
  import opened Dom
  import opened Extract
  import opened Sink
  import opened Browsing

  /**
   * What visiting one card stores: the unstripped title and the view's
   * entries; `None` when clicking the card, reading the title or handling
   * one of its lines raises.
   */
  function CardWrite(c: Card): (r: Option<Write>)
    ensures r.Some? ==> c.detail.Some? && c.detail.value.title == Some(r.value.0)
  {
    match c.detail
    case None => None
    case Some(view) =>
      match view.title
      case None => None
      case Some(name) =>
        match InPlaceEntries(view.lines)
        case None => None
        case Some(es) => Some((name, es))
  }

  /** A card raises exactly when its click, its title lookup or one of its lines raises. */
  lemma CardWriteRaises(c: Card)
    ensures CardWrite(c).None? <==> || c.detail.None? || c.detail.value.title.None?
                                     || exists k :: 0 <= k < |c.detail.value.lines| && LineRaises(c.detail.value.lines[k])
  {
  }

  /**
   * Every entry of a stored write has a non-empty, duplicate-free card list
   * and the text of one of the page's lines.
   */
  lemma CardWriteShape(c: Card)
    requires CardWrite(c).Some?
    ensures |CardWrite(c).value.1| <= |c.detail.value.lines|
    ensures forall e :: e in CardWrite(c).value.1 ==>
              |e.cards| > 0 && NoDup(e.cards) && exists k :: 0 <= k < |c.detail.value.lines| && c.detail.value.lines[k].primary == Some(e.discount)
  {
    InPlaceEntriesShape(c.detail.value.lines);
  }

  /** The writes of the visited cards, in visit order; `None` when some card raises. */
  function Writes(cards: seq<Card>): (r: Option<seq<Write>>)
    ensures r.Some? ==> |r.value| == |cards|
  {
    if |cards| == 0 then Some([])
    else
      var init := cards[..|cards| - 1];
      match Writes(init)
      case None => None
      case Some(ws) =>
        match CardWrite(cards[|cards| - 1])
        case None => None
        case Some(w) => Some(ws + [w])
  }

  /** The loop raises exactly when one of the visited cards raises. */
  lemma {:induction false} WritesRaises(cards: seq<Card>)
    ensures Writes(cards).None? <==> exists k :: 0 <= k < |cards| && CardWrite(cards[k]).None?
  {
    if |cards| > 0 {
      var init := cards[..|cards| - 1];
      assert forall k :: 0 <= k < |init| ==> init[k] == cards[k];
      WritesRaises(init);
    }
  }

  /** A card that raises ends the run whatever follows it. */
  lemma {:induction false} WritesNoneExtends(a: seq<Card>, b: seq<Card>)
    requires Writes(a).None?
    ensures Writes(a + b).None?
  {
    if |b| == 0 {
      assert a + b == a;
    } else {
      var b' := b[..|b| - 1];
      WritesNoneExtends(a, b');
      assert (a + b)[..|a + b| - 1] == a + b';
    }
  }

  /** When no card raises, write `k` is card `k`'s write. */
  lemma {:induction false} WritesAt(cards: seq<Card>)
    requires Writes(cards).Some?
    ensures forall k :: 0 <= k < |cards| ==> CardWrite(cards[k]) == Some(Writes(cards).value[k])
  {
    if |cards| > 0 {
      var init := cards[..|cards| - 1];
      assert forall k :: 0 <= k < |init| ==> init[k] == cards[k];
      WritesAt(init);
    }
  }

  /** One more card that does not raise adds its write. */
  lemma WritesSnoc(cards: seq<Card>, card: Card)
    ensures Writes(cards + [card]) ==
              match Writes(cards)
              case None => None
              case Some(ws) => match CardWrite(card) case None => None case Some(w) => Some(ws + [w])
  {
    assert (cards + [card])[..|cards|] == cards;
  }

  /** The writes of a card followed by more cards: the card's write first. */
  lemma {:induction false} WritesCons(c: Card, rest: seq<Card>)
    ensures Writes([c] + rest) ==
              match CardWrite(c)
              case None => None
              case Some(w) => match Writes(rest) case None => None case Some(ws) => Some([w] + ws)
  {
    if |rest| == 0 {
      assert [c] + rest == [c];
      assert [c][..0] == [];
      assert [c][0] == c;
      if CardWrite(c).Some? {
        assert [] + [CardWrite(c).value] == [CardWrite(c).value] + [];
      }
    } else {
      var init := rest[..|rest| - 1];
      WritesCons(c, init);
      assert ([c] + rest)[..|rest|] == [c] + init;
      assert ([c] + rest)[|rest|] == rest[|rest| - 1];
      if CardWrite(c).Some? && Writes(init).Some? && CardWrite(rest[|rest| - 1]).Some? {
        var w := CardWrite(c).value;
        var ws := Writes(init).value;
        var u := CardWrite(rest[|rest| - 1]).value;
        assert [w] + ws + [u] == [w] + (ws + [u]);
      }
    }
  }

  /**
   * The dict the loop of `n` iterations ends with, starting at query `q`;
   * `None` when a re-query finds no card (the wait raises) or a visited card
   * raises.
   */
  function Result(feed: nat -> seq<Card>, q: nat, n: nat): (r: Option<Deals>)
    ensures r.None? <==> HitsEmpty(feed, q, n, 0) || Writes(Visited(feed, q, n, 0)).None?
  {
    if HitsEmpty(feed, q, n, 0) then None
    else
      match Writes(Visited(feed, q, n, 0))
      case None => None
      case Some(ws) => Some(AppendEach([], ws))
  }

  /** One card's visit: its entries appended under its name, or `None` when it raises. */
  function Visit(c: Card, d: Deals): Option<Deals> {
    match CardWrite(c)
    case None => None
    case Some(w) => Some(AppendAll(d, w.0, w.1))
  }

  /**
   * The loop from iteration `i` on, with `d` the dict so far, step by step
   * as the code runs it.
   */
  function Run(feed: nat -> seq<Card>, q: nat, n: nat, i: nat, d: Deals): Option<Deals>
    decreases n - i
  {
    if i >= n then Some(d)
    else
      var items := feed(q + i);
      if |items| == 0 then None
      else if i >= |items| then Some(d)
      else
        match Visit(items[i], d)
        case None => None
        case Some(d') => Run(feed, q, n, i + 1, d')
  }

  /**
   * The step-by-step loop computes the declared result: the visited cards'
   * writes appended onto the starting dict, unless a re-query finds no card
   * or a card raises.
   */
  lemma {:induction false} RunFrom(feed: nat -> seq<Card>, q: nat, n: nat, i: nat, d: Deals)
    requires i <= n
    ensures Run(feed, q, n, i, d) ==
              if HitsEmpty(feed, q, n, i) then None
              else match Writes(Visited(feed, q, n, i)) case None => None case Some(ws) => Some(AppendEach(d, ws))
    decreases n - i
  {
    if i < n && i < |feed(q + i)| {
      var c := feed(q + i)[i];
      var rest := Visited(feed, q, n, i + 1);
      VisitedStep(feed, q, n, i);
      WritesCons(c, rest);
      if CardWrite(c).Some? {
        var w := CardWrite(c).value;
        RunFrom(feed, q, n, i + 1, AppendAll(d, w.0, w.1));
        if Writes(rest).Some? {
          AppendEachCons(d, w, Writes(rest).value);
        }
      }
    } else if i < n && |feed(q + i)| > 0 {
      assert Visited(feed, q, n, i) == [];
    }
  }

  /** One step of `Run`, given the list the iteration's re-query returns: it either ends the loop or moves on to `i + 1`. */
  lemma RunStep(feed: nat -> seq<Card>, q: nat, n: nat, i: nat, d: Deals, items: seq<Card>)
    requires i < n && items == feed(q + i)
    ensures |items| == 0 ==> Run(feed, q, n, i, d) == None
    ensures 0 < |items| <= i ==> Run(feed, q, n, i, d) == Some(d)
    ensures i < |items| && Visit(items[i], d).None? ==> Run(feed, q, n, i, d) == None
    ensures i < |items| && Visit(items[i], d).Some? ==> Run(feed, q, n, i, d) == Run(feed, q, n, i + 1, Visit(items[i], d).value)
  {
  }

  /** The loop from the first iteration with an empty dict is `Result`. */
  lemma RunIsResult(feed: nat -> seq<Card>, q: nat, n: nat)
    ensures Run(feed, q, n, 0, []) == Result(feed, q, n)
  {
    RunFrom(feed, q, n, 0, []);
  }

  /**
   * A name's list in the result is every entry written under that name, in
   * visit order, and a name nothing was written to is absent.
   */
  lemma ResultCollects(feed: nat -> seq<Card>, q: nat, n: nat, name: string)
    requires Result(feed, q, n).Some?
    ensures var ws := Writes(Visited(feed, q, n, 0)).value;
            Lookup(Result(feed, q, n).value, name) == if |WrittenTo(ws, name)| == 0 then None else Some(WrittenTo(ws, name))
  {
    AppendEachCollects(Writes(Visited(feed, q, n, 0)).value, name);
  }

  /** No entry is lost: the result holds as many entries as the visits wrote. */
  lemma ResultTotal(feed: nat -> seq<Card>, q: nat, n: nat)
    requires Result(feed, q, n).Some?
    ensures TotalEntries(Result(feed, q, n).value) == TotalWritten(Writes(Visited(feed, q, n, 0)).value)
  {
    AppendEachTotal([], Writes(Visited(feed, q, n, 0)).value);
  }

  /**
   * The result has distinct names, each with a non-empty list, and every
   * entry has a non-empty, duplicate-free card list.
   */
  lemma ResultShape(feed: nat -> seq<Card>, q: nat, n: nat)
    requires Result(feed, q, n).Some?
    ensures UniqueNames(Result(feed, q, n).value)
    ensures forall p :: p in Result(feed, q, n).value ==> |p.1| > 0 && forall e :: e in p.1 ==> |e.cards| > 0 && NoDup(e.cards)
  {
    var cards := Visited(feed, q, n, 0);
    var ws := Writes(cards).value;
    var d := Result(feed, q, n).value;
    PoliciesKeepUnique([], ws);
    WritesAt(cards);
    forall p | p in d ensures |p.1| > 0 && forall e :: e in p.1 ==> |e.cards| > 0 && NoDup(e.cards) {
      LookupMember(d, p);
      AppendEachCollects(ws, p.0);
      WrittenToFrom(ws, p.0);
      forall e | e in p.1 ensures |e.cards| > 0 && NoDup(e.cards) {
        var i :| 0 <= i < |ws| && ws[i].0 == p.0 && e in ws[i].1;
        CardWriteShape(cards[i]);
      }
    }
  }

  /** `row` is the CSV row of an entry stored in `d` under its name, with a non-empty, duplicate-free card list. */
  ghost predicate StoredRow(city: string, d: Deals, row: seq<string>) {
    exists p, e :: p in d && e in p.1 && |e.cards| > 0 && NoDup(e.cards) && row == Row(city, p.0, e)
  }

  /** Every flattened row of the result is the row of one of its stored entries. */
  lemma ResultRows(feed: nat -> seq<Card>, q: nat, n: nat, city: string)
    requires Result(feed, q, n).Some?
    ensures forall row :: row in Flatten(city, Result(feed, q, n).value) ==> StoredRow(city, Result(feed, q, n).value, row)
  {
    var d := Result(feed, q, n).value;
    ResultShape(feed, q, n);
    forall row | row in Flatten(city, d) ensures StoredRow(city, d, row) {
      FlattenRowsFrom(city, d, row);
      var i, j :| 0 <= i < |d| && 0 <= j < |d[i].1| && row == Row(city, d[i].0, d[i].1[j]);
      assert d[i] in d && d[i].1[j] in d[i].1;
    }
  }

  /** The card set of one line: the badge loop; a badge with neither tag raises. */
  method CollectRawCards(badges: seq<Badge>) returns (cards: Option<seq<string>>)
    ensures cards == RawLabels(badges)
  {
    var acc: seq<string> := [];
    var i := 0;
    while i < |badges|
      invariant 0 <= i <= |badges|
      invariant RawLabels(badges[..i]) == Some(acc)
    {
      var b := badges[i];
      assert badges[..i + 1][..i] == badges[..i];
      if b.p.Some? {
        acc := AddLabel(acc, b.p.value);
      } else if b.span.Some? {
        acc := AddLabel(acc, b.span.value);
      } else {
        assert badges[..i + 1] + badges[i + 1..] == badges;
        assert Unlabelled(badges[i]);
        return None;
      }
      i := i + 1;
    }
    assert badges[..i] == badges;
    return Some(acc);
  }

  /**
   * The discount-line loop of one page: each line with a non-empty card set
   * appends one entry under `name` (creating the key on its first entry);
   * a line that raises ends the run.
   */
  method AppendLines(d: Deals, name: string, lines: seq<DiscountLine>) returns (r: Option<Deals>)
    ensures r == match InPlaceEntries(lines) case None => None case Some(es) => Some(AppendAll(d, name, es))
  {
    var cur := d;
    ghost var es: seq<Entry> := [];
    var i := 0;
    while i < |lines|
      invariant 0 <= i <= |lines|
      invariant InPlaceEntries(lines[..i]) == Some(es)
      invariant cur == AppendAll(d, name, es)
    {
      var line := lines[i];
      assert lines[..i + 1][..i] == lines[..i];
      if line.primary.None? {
        assert LineRaises(lines[i]);
        return None;
      }
      var cards := CollectRawCards(line.badges);
      if cards.None? {
        assert LineRaises(lines[i]);
        return None;
      }
      if |cards.value| > 0 {
        var e := Entry(line.primary.value, cards.value);
        AppendAllSplit(d, name, es, [e]);
        cur := AppendAll(cur, name, [e]);
        es := es + [e];
      }
      i := i + 1;
    }
    assert lines[..i] == lines;
    return Some(cur);
  }

  /** One iteration's work on a card: click it, read the title and the lines, append, reload the listing. */
  method VisitCard(b: Browser<Card>, card: Card, deals: Deals) returns (after: Option<Deals>)
    modifies b`loads
    ensures after == Visit(card, deals)
    ensures b.loads == old(b.loads) + if after.Some? then 1 else 0
  {
    if card.detail.None? || card.detail.value.title.None? {
      return None;
    }
    var view := card.detail.value;
    after := AppendLines(deals, view.title.value, view.lines);
    if after.Some? {
      b.Reload();
    }
  }

  /**
   * The per-card loop `for i in range(n)`: wait for the re-queried cards
   * (none found raises), stop at a stale index, visit the card at the index.
   * Every iteration asks one query, and every reload follows one.
   */
  method Traverse(b: Browser<Card>, n: nat) returns (deals: Option<Deals>)
    modifies b`queries, b`loads
    ensures deals == Result(b.feed, old(b.queries), n)
    ensures b.loads - old(b.loads) <= b.queries - old(b.queries) <= n
  {
    deals := RunLoop(b, n);
    RunIsResult(b.feed, old(b.queries), n);
  }

  /** The loop itself, as `Run` describes it step by step; a raise ends it through `failed`. */
  method RunLoop(b: Browser<Card>, n: nat) returns (deals: Option<Deals>)
    modifies b`queries, b`loads
    ensures deals == Run(b.feed, old(b.queries), n, 0, [])
    ensures b.loads - old(b.loads) <= b.queries - old(b.queries) <= n
  {
    ghost var q0 := b.queries;
    ghost var l0 := b.loads;
    var cur: Deals := [];
    var failed := false;
    var index := 0;
    while index < n
      invariant 0 <= index <= n
      invariant b.queries == q0 + index && b.loads == l0 + index
      invariant Run(b.feed, q0, n, index, cur) == Run(b.feed, q0, n, 0, [])
      invariant !failed
    {
      var blocks := b.Requery();
      RunStep(b.feed, q0, n, index, cur, blocks);
      if |blocks| == 0 {
        failed := true;
        break;
      }
      if index >= |blocks| {
        break;
      }
      var after := VisitCard(b, blocks[index], cur);
      if after.None? {
        failed := true;
        break;
      }
      cur := after.value;
      index := index + 1;
    }
    deals := if failed then None else Some(cur);
  }
}
