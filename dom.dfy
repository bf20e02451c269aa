/**
 * The page as plain data. Every Selenium or BeautifulSoup lookup is replaced
 * by the value it yields; `None` marks a lookup that raises.
 */
module Dom {
  import opened Wrappers

  /** A card badge: the text of its `<p>` (a named card) and of its `<span>` ("+N More"). */
  datatype Badge = Badge(p: Option<string>, span: Option<string>)

  /** A discount line: its primary text and its card badges. */
  datatype DiscountLine = DiscountLine(primary: Option<string>, badges: seq<Badge>)

  /** A deal's detail view: its `<h1>` title and its discount lines. */
  datatype DetailView = DetailView(title: Option<string>, lines: seq<DiscountLine>)

  /**
   * A listing card. `link` is the anchor's href read by script (`None`: the
   * script raises); `detail` is the detail view reached from the card (`None`:
   * clicking it or loading its page raises).
   */
  datatype Card = Card(link: Option<string>, detail: Option<DetailView>)

  /**
   * One pass of a "See More" loop that finds the control: `Clickable` when
   * the click succeeds, `Broken` when waiting for it or clicking it raises.
   * A script `t` means the control is present on pass `k` exactly when `k < |t|`.
   */
  datatype Trigger = Clickable | Broken
}
