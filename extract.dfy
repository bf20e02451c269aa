/**
 * What one detail view yields: card labels per discount line (two-tier
 * badge label) and the discount entries kept from the lines.
 */
module Extract {
  import opened Wrappers
  import opened Text
  import opened Dom

  /** One discount entry: `{"discount": ..., "cards": list(card_set)}`. */
  datatype Entry = Entry(discount: string, cards: seq<string>)

  /** `card_set.add(l)` on a list that stands for the set. */
  function AddLabel(acc: seq<string>, l: string): (r: seq<string>)
    ensures NoDup(acc) ==> NoDup(r)
    ensures forall x :: x in r <==> x in acc || x == l
  {
    if l in acc then acc else acc + [l]
  }

  /** A badge offers some label: it has a `<p>` or a `<span>`. */
  predicate HasLabel(b: Badge) {
    b.p.Some? || b.span.Some?
  }

  /** `x` is the stripped label of `b`: its `<p>` text, or, only when it has no `<p>`, its `<span>` text. */
  ghost predicate StrippedLabelOf(b: Badge, x: string) {
    if b.p.Some? then x == Strip(b.p.value) else b.span.Some? && x == Strip(b.span.value)
  }

  /** `x` is the unstripped label of `b`, with the same two tiers. */
  ghost predicate RawLabelOf(b: Badge, x: string) {
    if b.p.Some? then x == b.p.value else b.span.Some? && x == b.span.value
  }

  /**
   * The card set of a discount line in APIs/deals_scratch_citywise_v2.py,
   * as a list in first-seen order: each badge adds its stripped two-tier
   * label, and a badge with neither tag adds nothing.
   */
  function StrippedLabels(badges: seq<Badge>): (r: seq<string>)
    ensures NoDup(r)
  {
    if |badges| == 0 then []
    else
      var acc := StrippedLabels(badges[..|badges| - 1]);
      var b := badges[|badges| - 1];
      if b.p.Some? then AddLabel(acc, Strip(b.p.value))
      else if b.span.Some? then AddLabel(acc, Strip(b.span.value))
      else acc
  }

  /** The card set holds exactly the two-tier labels of the badges. */
  lemma {:induction false} StrippedLabelsMembers(badges: seq<Badge>)
    ensures forall x :: x in StrippedLabels(badges) <==>
                        exists k :: 0 <= k < |badges| && StrippedLabelOf(badges[k], x)
  {
    if |badges| > 0 {
      var init := badges[..|badges| - 1];
      StrippedLabelsMembers(init);
      assert forall k :: 0 <= k < |init| ==> init[k] == badges[k];
      var b := badges[|badges| - 1];
      forall x | x in StrippedLabels(badges)
        ensures exists k :: 0 <= k < |badges| && StrippedLabelOf(badges[k], x)
      {
        if x !in StrippedLabels(init) {
          assert StrippedLabelOf(badges[|badges| - 1], x);
        }
      }
    }
  }

  /** The card set is empty exactly when no badge has a `<p>` or a `<span>`. */
  lemma StrippedLabelsEmpty(badges: seq<Badge>)
    ensures |StrippedLabels(badges)| == 0 <==> forall k :: 0 <= k < |badges| ==> !HasLabel(badges[k])
  {
    StrippedLabelsMembers(badges);
    if k :| 0 <= k < |badges| && HasLabel(badges[k]) {
      var b := badges[k];
      var x := if b.p.Some? then Strip(b.p.value) else Strip(b.span.value);
      assert StrippedLabelOf(badges[k], x);
      assert x in StrippedLabels(badges);
    }
  }

  /** Whether a badge lookup in deal_scratch_citywise.py raises: it has neither tag. */
  predicate Unlabelled(b: Badge) {
    b.p.None? && b.span.None?
  }

  /**
   * The card set of a discount line in deal_scratch_citywise.py and
   * APIs/deals_scratch_api_v1.1.py: unstripped two-tier labels, kept once;
   * a badge with neither tag raises (`None`).
   */
  function RawLabels(badges: seq<Badge>): (r: Option<seq<string>>)
    ensures r.None? <==> exists k :: 0 <= k < |badges| && Unlabelled(badges[k])
    ensures r.Some? ==> NoDup(r.value)
  {
    if |badges| == 0 then Some([])
    else
      var init := badges[..|badges| - 1];
      var b := badges[|badges| - 1];
      assert forall k :: 0 <= k < |init| ==> init[k] == badges[k];
      match RawLabels(init)
      case None => None
      case Some(acc) =>
        if b.p.Some? then Some(AddLabel(acc, b.p.value))
        else if b.span.Some? then Some(AddLabel(acc, b.span.value))
        else None
  }

  /** When no badge raises, the card set holds exactly the two-tier labels of the badges. */
  lemma {:induction false} RawLabelsMembers(badges: seq<Badge>)
    requires RawLabels(badges).Some?
    ensures forall x :: x in RawLabels(badges).value <==>
                        exists k :: 0 <= k < |badges| && RawLabelOf(badges[k], x)
  {
    if |badges| > 0 {
      var init := badges[..|badges| - 1];
      assert forall k :: 0 <= k < |init| ==> init[k] == badges[k];
      RawLabelsMembers(init);
      var b := badges[|badges| - 1];
      forall x | x in RawLabels(badges).value
        ensures exists k :: 0 <= k < |badges| && RawLabelOf(badges[k], x)
      {
        if x !in RawLabels(init).value {
          assert RawLabelOf(badges[|badges| - 1], x);
        }
      }
    }
  }

  /** When no badge raises, the card set is empty exactly when there are no badges. */
  lemma RawLabelsEmpty(badges: seq<Badge>)
    requires RawLabels(badges).Some?
    ensures |RawLabels(badges).value| == 0 <==> |badges| == 0
  {
    if |badges| > 0 {
      RawLabelsMembers(badges);
      var b := badges[0];
      assert !Unlabelled(b);
      var x := if b.p.Some? then b.p.value else b.span.value;
      assert RawLabelOf(badges[0], x);
      assert x in RawLabels(badges).value;
    }
  }

  /** A well-formed v2 entry: non-empty discount text and a non-empty, duplicate-free card list. */
  predicate KeptEntry(e: Entry) {
    |e.discount| > 0 && |e.cards| > 0 && NoDup(e.cards)
  }

  /**
   * The entry a discount line yields in APIs/deals_scratch_citywise_v2.py:
   * none when its primary-text lookup raises, and none unless both the
   * stripped text and the card set are non-empty.
   */
  function V2Entry(line: DiscountLine): (r: Option<Entry>)
    ensures r.Some? ==> KeptEntry(r.value)
  {
    match line.primary
    case None => None
    case Some(text) =>
      var discount := Strip(text);
      var cards := StrippedLabels(line.badges);
      if |discount| > 0 && |cards| > 0 then Some(Entry(discount, cards)) else None
  }

  /**
   * A line yields an entry exactly when its primary text is found and is
   * non-blank after stripping and some badge has a `<p>` or `<span>`; the
   * entry's cards are then the line's two-tier labels.
   */
  lemma V2EntryKept(line: DiscountLine)
    ensures V2Entry(line).Some? <==> && line.primary.Some?
                                     && |Strip(line.primary.value)| > 0
                                     && exists k :: 0 <= k < |line.badges| && HasLabel(line.badges[k])
    ensures V2Entry(line).Some? ==> forall x :: x in V2Entry(line).value.cards <==>
                                     exists k :: 0 <= k < |line.badges| && StrippedLabelOf(line.badges[k], x)
  {
    StrippedLabelsEmpty(line.badges);
    StrippedLabelsMembers(line.badges);
  }

  /** The values `f` yields over `xs`, in order, dropping the `None`s. */
  function FilterMap<T, U>(f: T -> Option<U>, xs: seq<T>): (r: seq<U>)
    ensures |r| <= |xs|
  {
    if |xs| == 0 then []
    else
      var init := xs[..|xs| - 1];
      assert forall k :: 0 <= k < |init| ==> init[k] == xs[k];
      var rest := FilterMap(f, init);
      match f(xs[|xs| - 1])
      case None => rest
      case Some(u) => rest + [u]
  }

  /** Every value `FilterMap` keeps is the value `f` yields on some element. */
  lemma {:induction false} FilterMapFrom<T, U>(f: T -> Option<U>, xs: seq<T>)
    ensures forall u :: u in FilterMap(f, xs) ==> exists k :: 0 <= k < |xs| && f(xs[k]) == Some(u)
  {
    if |xs| > 0 {
      var init := xs[..|xs| - 1];
      FilterMapFrom(f, init);
      assert forall k :: 0 <= k < |init| ==> init[k] == xs[k];
    }
  }

  /** One more element adds its value, if it has one. */
  lemma FilterMapSnoc<T, U>(f: T -> Option<U>, xs: seq<T>, x: T)
    ensures FilterMap(f, xs + [x]) == FilterMap(f, xs) + (if f(x).Some? then [f(x).value] else [])
  {
    assert (xs + [x])[..|xs|] == xs;
  }

  /** `FilterMap` over `a + b` is `FilterMap` over `a` followed by `FilterMap` over `b`. */
  lemma {:induction false} FilterMapConcat<T, U>(f: T -> Option<U>, a: seq<T>, b: seq<T>)
    ensures FilterMap(f, a + b) == FilterMap(f, a) + FilterMap(f, b)
  {
    if |b| == 0 {
      assert a + b == a;
    } else {
      var b' := b[..|b| - 1];
      FilterMapConcat(f, a, b');
      var ab := a + b;
      assert ab[..|ab| - 1] == a + b';
      assert ab[|ab| - 1] == b[|b| - 1];
    }
  }

  /** The entries of a detail view in APIs/deals_scratch_citywise_v2.py, in line order. */
  function V2Entries(lines: seq<DiscountLine>): (r: seq<Entry>)
    ensures |r| <= |lines|
  {
    FilterMap(V2Entry, lines)
  }

  /** Every v2 entry has non-empty discount text and a non-empty, duplicate-free card list. */
  lemma V2EntriesKept(lines: seq<DiscountLine>)
    ensures forall e :: e in V2Entries(lines) ==> KeptEntry(e)
  {
    FilterMapFrom(V2Entry, lines);
    forall e | e in V2Entries(lines) ensures KeptEntry(e) {
      var k :| 0 <= k < |lines| && V2Entry(lines[k]) == Some(e);
    }
  }

  /** Lines are processed independently: the entries of `a + b` are those of `a` then those of `b`. */
  lemma V2EntriesConcat(a: seq<DiscountLine>, b: seq<DiscountLine>)
    ensures V2Entries(a + b) == V2Entries(a) + V2Entries(b)
  {
    FilterMapConcat(V2Entry, a, b);
  }

  /** A line whose primary-text lookup raises is skipped and the other lines still yield their entries. */
  lemma V2SkipsFailedLine(a: seq<DiscountLine>, bad: DiscountLine, b: seq<DiscountLine>)
    requires bad.primary.None?
    ensures V2Entries(a + [bad] + b) == V2Entries(a + b)
  {
    V2EntriesConcat(a + [bad], b);
    V2EntriesConcat(a, [bad]);
    V2EntriesConcat(a, b);
    assert [bad][..0] == [];
  }

  /** Whether a discount line raises in deal_scratch_citywise.py: no primary text, or a badge with neither tag. */
  predicate LineRaises(line: DiscountLine) {
    line.primary.None? || exists k :: 0 <= k < |line.badges| && Unlabelled(line.badges[k])
  }

  /**
   * One line in deal_scratch_citywise.py: appends the line's entry to `es`
   * when its card set is non-empty; `None` when the line raises.
   */
  function InPlaceLine(es: seq<Entry>, line: DiscountLine): (r: Option<seq<Entry>>)
    ensures r.None? <==> LineRaises(line)
  {
    match line.primary
    case None => None
    case Some(text) =>
      match RawLabels(line.badges)
      case None => None
      case Some(cards) => if |cards| == 0 then Some(es) else Some(es + [Entry(text, cards)])
  }

  /**
   * The entries of a detail view in deal_scratch_citywise.py and
   * APIs/deals_scratch_api_v1.1.py: one per line with a non-empty card set,
   * its text unstripped; any line that raises aborts the view (`None`).
   */
  function InPlaceEntries(lines: seq<DiscountLine>): (r: Option<seq<Entry>>)
    ensures r.None? <==> exists k :: 0 <= k < |lines| && LineRaises(lines[k])
  {
    if |lines| == 0 then Some([])
    else
      var init := lines[..|lines| - 1];
      assert forall k :: 0 <= k < |init| ==> init[k] == lines[k];
      match InPlaceEntries(init)
      case None => None
      case Some(es) => InPlaceLine(es, lines[|lines| - 1])
  }

  /**
   * When no line raises, there is at most one entry per line, and every
   * entry has a non-empty, duplicate-free card list and the text of some line.
   */
  lemma {:induction false} InPlaceEntriesShape(lines: seq<DiscountLine>)
    requires InPlaceEntries(lines).Some?
    ensures |InPlaceEntries(lines).value| <= |lines|
    ensures forall e :: e in InPlaceEntries(lines).value ==>
              |e.cards| > 0 && NoDup(e.cards) && exists k :: 0 <= k < |lines| && lines[k].primary == Some(e.discount)
  {
    if |lines| > 0 {
      var init := lines[..|lines| - 1];
      assert forall k :: 0 <= k < |init| ==> init[k] == lines[k];
      InPlaceEntriesShape(init);
      var line := lines[|lines| - 1];
      var es := InPlaceEntries(init).value;
      forall e | e in InPlaceEntries(lines).value
        ensures |e.cards| > 0 && NoDup(e.cards) && exists k :: 0 <= k < |lines| && lines[k].primary == Some(e.discount)
      {
        if e !in es {
          assert lines[|lines| - 1].primary == Some(e.discount);
        }
      }
    }
  }
}
