/**
 * What the two feed scripts share: the post payload, the long-content
 * collapse toggle, and the pagination widget. The widget comes in two
 * layouts: a window of at most five pages around the current one, and the
 * full list of pages. Both have a previous and a next link and render
 * nothing for a single page.
 */
module Feed {
  import opened Text

  /** A post of a list payload; an empty `id` stands for a missing or falsy one, a missing count for 0. */
  datatype PostData = PostData(id: string, content: string, commentsCount: nat)

  const NoContent: string := "(无内容)"

  /** `post.content || '(无内容)'`. */
  function DisplayedContent(p: PostData): (r: string)
    ensures r != []
    ensures p.content != [] ==> r == p.content
    ensures p.content == [] ==> r == NoContent
  {
    if p.content != [] then p.content else NoContent
  }

  const CollapseThreshold: nat := 200

  /** Content longer than 200 characters is drawn collapsed, with a toggle. */
  predicate IsCollapsible(content: string)
  {
    |content| > CollapseThreshold
  }

  /** Testing the raw content or the displayed content decides the same: the placeholder is short. */
  lemma CollapsibleDisplayed(p: PostData)
    ensures IsCollapsible(DisplayedContent(p)) <==> IsCollapsible(p.content)
  {
  }

  const ExpandLabel: string := "展开"
  const CollapseLabel: string := "收起"

  /** The label the toggle shows: what a click will do next. */
  function FoldLabel(expanded: bool): (r: string)
    ensures r == CollapseLabel <==> expanded
    ensures r == ExpandLabel <==> !expanded
  {
    if expanded then CollapseLabel else ExpandLabel
  }

  /** A collapsible content block: expanded or not, the toggle's label and the fade overlay. */
  class Collapsible {
    var expanded: bool
    var buttonText: string
    var overlayShown: bool

    /** The label always names the other state and the overlay shows exactly while collapsed. */
    ghost predicate Valid()
      reads this
    {
      buttonText == FoldLabel(expanded) && overlayShown == !expanded
    }

    /** The block starts collapsed. */
    constructor ()
      ensures Valid() && !expanded && buttonText == ExpandLabel && overlayShown
    {
      expanded := false;
      buttonText := ExpandLabel;
      overlayShown := true;
    }

    /** One click on the toggle. */
    method Toggle()
      requires Valid()
      modifies this
      ensures Valid() && expanded == !old(expanded)
    {
      expanded := !expanded;
      buttonText := if expanded then CollapseLabel else ExpandLabel;
      overlayShown := !expanded;
    }
  }

  /** Two clicks put a block back as it was. */
  method ToggleTwice(c: Collapsible)
    requires c.Valid()
    modifies c
    ensures c.Valid()
    ensures c.expanded == old(c.expanded) && c.buttonText == old(c.buttonText) && c.overlayShown == old(c.overlayShown)
  {
    c.Toggle();
    c.Toggle();
  }

  // ---- pagination ----

  /** One entry of the pagination widget. A link target `None` is a disabled link; `linked` is whether a number carries a page link. */
  datatype PageItem =
    | Prev(target: Option<int>)
    | Number(page: int, active: bool, linked: bool)
    | Next(target: Option<int>)

  /** The previous link: enabled towards `current - 1` exactly when `current > 1`. */
  function PrevItem(current: int): (r: PageItem)
    ensures r.Prev? && (r.target.Some? <==> current > 1)
    ensures r.target.Some? ==> r.target.value == current - 1
  {
    if current > 1 then Prev(Some(current - 1)) else Prev(None)
  }

  /** The next link: enabled towards `current + 1` exactly when `current < total`. */
  function NextItem(current: int, total: int): (r: PageItem)
    ensures r.Next? && (r.target.Some? <==> current < total)
    ensures r.target.Some? ==> r.target.value == current + 1
  {
    if current < total then Next(Some(current + 1)) else Next(None)
  }

  /** The numbers `lo..hi` in order, `current` marked active; with `linkActive` false the active one carries no link. */
  function Numbers(lo: int, hi: int, current: int, linkActive: bool): (r: seq<PageItem>)
    ensures |r| == if hi < lo then 0 else hi - lo + 1
    ensures forall k :: 0 <= k < |r| ==>
      r[k] == Number(lo + k, lo + k == current, linkActive || lo + k != current)
    decreases if hi < lo then 0 else hi - lo + 1
  {
    if hi < lo then []
    else Numbers(lo, hi - 1, current, linkActive) + [Number(hi, hi == current, linkActive || hi != current)]
  }

  /** At most two pages either side of the current one, starting no lower than page 1. */
  function WindowStart(current: int): (s: int)
    ensures 1 <= s && current - s <= 2
    ensures current >= 1 ==> s <= current
  {
    if current - 2 > 1 then current - 2 else 1
  }

  function WindowEnd(current: int, total: int): (e: int)
    ensures e <= total && e - WindowStart(current) <= 4
  {
    if total < WindowStart(current) + 4 then total else WindowStart(current) + 4
  }

  /** The five-page window layout. */
  function WindowItems(current: int, total: int): (r: seq<PageItem>)
    ensures r == [] <==> total <= 1
    ensures r != [] ==> r[0] == PrevItem(current) && r[|r| - 1] == NextItem(current, total)
    ensures r != [] ==> 2 <= |r| <= 7
  {
    if total <= 1 then []
    else [PrevItem(current)] + Numbers(WindowStart(current), WindowEnd(current, total), current, false) + [NextItem(current, total)]
  }

  /** The full-list layout. */
  function FullItems(current: int, total: int): (r: seq<PageItem>)
    ensures r == [] <==> total <= 1
    ensures r != [] ==> |r| == total + 2 && r[0] == PrevItem(current) && r[|r| - 1] == NextItem(current, total)
  {
    if total <= 1 then []
    else [PrevItem(current)] + Numbers(1, total, current, true) + [NextItem(current, total)]
  }

  /** For a current page in range, the window has one to five pages, lies within `1..total`, and holds the current page. */
  lemma WindowBounds(current: int, total: int)
    requires 1 <= current <= total
    ensures 1 <= WindowStart(current) <= current <= WindowEnd(current, total) <= total
    ensures WindowEnd(current, total) - WindowStart(current) + 1 <= 5
  {
  }

  /** Page 7 of 20 shows the window 5..9. */
  lemma WindowExample()
    ensures WindowStart(7) == 5 && WindowEnd(7, 20) == 9
    ensures WindowItems(7, 20) == [Prev(Some(6)), Number(5, false, true), Number(6, false, true),
      Number(7, true, false), Number(8, false, true), Number(9, false, true), Next(Some(8))]
  {
    var ns := Numbers(5, 9, 7, false);
    assert ns == [Number(5, false, true), Number(6, false, true), Number(7, true, false),
      Number(8, false, true), Number(9, false, true)];
  }

  /**
   * In the window, the numbered items are exactly the pages of the window, in
   * order; exactly the current page is active, and it alone has no link.
   */
  lemma WindowPages(current: int, total: int)
    requires 1 <= current <= total && total > 1
    ensures var items := WindowItems(current, total);
      var lo := WindowStart(current);
      |items| == WindowEnd(current, total) - lo + 3 &&
      items[0] == PrevItem(current) && items[|items| - 1] == NextItem(current, total) &&
      (forall k :: 1 <= k < |items| - 1 ==>
        items[k].Number? && items[k].page == lo + k - 1 &&
        (items[k].active <==> items[k].page == current) && (items[k].linked <==> items[k].page != current))
  {
    WindowBounds(current, total);
  }

  /** In the full list, the numbered items are pages 1..total in order, all linked, exactly the current one active. */
  lemma FullPages(current: int, total: int)
    requires total > 1
    ensures var items := FullItems(current, total);
      |items| == total + 2 &&
      items[0] == PrevItem(current) && items[|items| - 1] == NextItem(current, total) &&
      (forall k :: 1 <= k <= total ==>
        items[k].Number? && items[k].page == k && items[k].linked && (items[k].active <==> k == current))
  {
  }

  /** Whether a link of the widget leads to `page`. */
  predicate LinksTo(item: PageItem, page: int)
  {
    match item
    case Prev(t) => t == Some(page)
    case Number(n, _, linked) => linked && n == page
    case Next(t) => t == Some(page)
  }

  lemma WindowLinksInRange(current: int, total: int, k: int, page: int)
    requires 1 <= current <= total
    requires 0 <= k < |WindowItems(current, total)| && LinksTo(WindowItems(current, total)[k], page)
    ensures 1 <= page <= total
  {
    WindowPages(current, total);
  }

  lemma FullLinksInRange(current: int, total: int, k: int, page: int)
    requires 1 <= current <= total
    requires 0 <= k < |FullItems(current, total)| && LinksTo(FullItems(current, total)[k], page)
    ensures 1 <= page <= total
  {
    FullPages(current, total);
  }

  /** With the current page in range, every link of either layout leads to a page in `1..total`. */
  lemma LinksInRange(current: int, total: int, k: int, page: int)
    requires 1 <= current <= total
    requires (0 <= k < |WindowItems(current, total)| && LinksTo(WindowItems(current, total)[k], page)) ||
             (0 <= k < |FullItems(current, total)| && LinksTo(FullItems(current, total)[k], page))
    ensures 1 <= page <= total
  {
    if 0 <= k < |WindowItems(current, total)| && LinksTo(WindowItems(current, total)[k], page) {
      WindowLinksInRange(current, total, k, page);
    } else {
      FullLinksInRange(current, total, k, page);
    }
  }

  /** The two layouts agree on when they are empty and on their previous and next links. */
  lemma LayoutsShareFrame(current: int, total: int)
    ensures WindowItems(current, total) == [] <==> total <= 1
    ensures FullItems(current, total) == [] <==> total <= 1
    ensures total > 1 ==>
      WindowItems(current, total)[0] == FullItems(current, total)[0] == PrevItem(current) &&
      WindowItems(current, total)[|WindowItems(current, total)| - 1] == NextItem(current, total) &&
      FullItems(current, total)[|FullItems(current, total)| - 1] == NextItem(current, total)
  {
  }

  /** `Math.ceil(total / pageSize)` for a count and a positive page size: the fewest pages holding `total` items. */
  function PageCount(total: nat, pageSize: nat): (r: nat)
    requires pageSize > 0
    ensures r * pageSize >= total
    ensures r == 0 || (r - 1) * pageSize < total
  {
    var r := (total + pageSize - 1) / pageSize;
    DivBounds(total + pageSize - 1, pageSize);
    r
  }

  lemma DivBounds(a: nat, b: nat)
    requires b > 0
    ensures (a / b) * b <= a < (a / b) * b + b
  {
  }
}
