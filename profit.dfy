/**
 * The profit rule of the bot (`VintedBot.check_profit`): a pure decision,
 * given one catalog item, the search it was found for, and the set of item
 * ids already notified.
 *
 * Prices are exact reals: an idealisation of the Python floats.
 */
module Profit {
  import opened Wrappers
  import Decimal

  /** `item.get('id')`: the catalog id, `None` when the key is absent. */
  type ItemId = Option<int>

  /**
   * What `float(item.get('price', 0))` makes of the price field: an absent
   * field reads as 0, a value `float` accepts gives that value, and any other
   * value makes `float` raise.
   */
  datatype PriceField = Missing | Parsed(amount: real) | Unparsable

  /** One entry of the catalog response; `title` is `None` when the key is absent. */
  datatype Item = Item(id: ItemId, price: PriceField, title: Option<string>)

  /** One registered search (`search_config`). */
  datatype SearchSpec = SearchSpec(
    name: string,
    keywords: string,
    maxPrice: real,
    margin: real,
    minProfit: real)

  /** The dictionary `check_profit` returns for a good deal. */
  datatype Deal = Deal(
    id: ItemId,
    title: string,
    price: real,
    profit: real,
    url: string,
    searchName: string)

  /** Share of the resale price kept after the platform's fee. */
  const ResaleRetention: real := 0.87
  /** Flat cost subtracted from every resale. */
  const FixedFee: real := 2.0
  /** Longest title a deal carries. */
  const TitleLimit: nat := 80
  const ItemUrlPrefix: string := "https://www.vinted.fr/item/"

  /** The price `check_profit` works with, or `None` when the conversion raises. */
  function PriceOf(p: PriceField): (r: Option<real>)
    ensures p.Missing? ==> r == Some(0.0)
    ensures p.Unparsable? <==> r.None?
    ensures p.Parsed? ==> r == Some(p.amount)
  {
    match p
    case Missing => Some(0.0)
    case Parsed(a) => Some(a)
    case Unparsable => None
  }

  /** Estimated resale profit for an item bought at `price`. */
  function EstimatedProfit(price: real, margin: real): real {
    price * margin * ResaleRetention - price - FixedFee
  }

  /** `s[:n]`. */
  function Truncate(s: string, n: nat): (r: string)
    ensures |r| <= n && r <= s
    ensures |s| <= n ==> r == s
    ensures |s| > n ==> |r| == n
  {
    if |s| <= n then s else s[..n]
  }

  /** `item.get('title', '')[:80]`. */
  function DisplayTitle(item: Item): (r: string)
    ensures |r| <= TitleLimit
    ensures item.title.None? ==> r == ""
    ensures item.title.Some? ==> r <= item.title.value
  {
    Truncate(match item.title case Some(t) => t case None => "", TitleLimit)
  }

  /** How an id is interpolated into a string: `str(id)`, or "None". */
  function IdText(id: ItemId): string {
    match id
    case None => "None"
    case Some(n) => Decimal.IntToString(n)
  }

  /** The item page of a listing: `https://www.vinted.fr/item/{id}`. */
  function ItemUrl(id: ItemId): (u: string)
    ensures ItemUrlPrefix <= u
  {
    ItemUrlPrefix + IdText(id)
  }

  /** Different listing ids give different item pages. */
  lemma ItemUrlInjective(a: ItemId, b: ItemId)
    ensures ItemUrl(a) == ItemUrl(b) <==> a == b
  {
    if ItemUrl(a) == ItemUrl(b) {
      assert IdText(a) == ItemUrl(a)[|ItemUrlPrefix|..];
      assert IdText(b) == ItemUrl(b)[|ItemUrlPrefix|..];
      if a.Some? && b.Some? {
        Decimal.IntToStringInjective(a.value, b.value);
      }
    }
  }

  /** The price and profit conditions of the rule, for a price that parsed. */
  predicate Qualifies(price: real, spec: SearchSpec) {
    price <= spec.maxPrice && EstimatedProfit(price, spec.margin) >= spec.minProfit
  }

  /** The item's price parses and meets the price and profit conditions of `spec`. */
  predicate WorthBuying(item: Item, spec: SearchSpec) {
    PriceOf(item.price).Some? && Qualifies(PriceOf(item.price).value, spec)
  }

  /**
   * `deal` is the dictionary `check_profit(item, spec)` builds: the item's id
   * and parsed price, within the ceiling, with the estimated profit at least
   * the minimum, the shortened title, the item page and the search's name.
   */
  predicate DealFor(deal: Deal, item: Item, spec: SearchSpec) {
    && deal.id == item.id
    && Some(deal.price) == PriceOf(item.price)
    && deal.price <= spec.maxPrice
    && deal.profit == EstimatedProfit(deal.price, spec.margin)
    && deal.profit >= spec.minProfit
    && deal.title == DisplayTitle(item)
    && deal.url == ItemUrl(item.id)
    && deal.searchName == spec.name
  }

  /**
   * `check_profit(item, search_config)`. The dedup gate (`id in seen`) is
   * independent of the price; an unparsable price gives no deal, never a
   * deal at price 0; a price equal to the ceiling is still eligible.
   */
  function CheckProfit(item: Item, spec: SearchSpec, seen: set<ItemId>): (r: Option<Deal>)
    ensures item.id in seen ==> r.None?
    ensures item.price.Unparsable? ==> r.None?
    ensures r.Some? <==> item.id !in seen && WorthBuying(item, spec)
    ensures r.Some? ==> DealFor(r.value, item, spec)
  {
    match PriceOf(item.price)
    case None => None
    case Some(price) =>
      if item.id in seen then None
      else if price <= spec.maxPrice then
        var profit := EstimatedProfit(price, spec.margin);
        if profit >= spec.minProfit then
          Some(Deal(item.id, DisplayTitle(item), price, profit, ItemUrl(item.id), spec.name))
        else None
      else None
  }

  /** Growing the seen set can only take deals away, never create or change one. */
  lemma SeenOnlySuppresses(item: Item, spec: SearchSpec, seen: set<ItemId>, later: set<ItemId>)
    requires seen <= later
    ensures CheckProfit(item, spec, later).Some? ==>
      CheckProfit(item, spec, seen) == CheckProfit(item, spec, later)
    ensures CheckProfit(item, spec, later).None? && item.id !in later ==>
      CheckProfit(item, spec, seen).None?
  {
  }

  /** The worked example: price 20, margin 1.8 gives a profit of 9.32. */
  lemma WorkedExample()
    ensures EstimatedProfit(20.0, 1.8) == 9.32
    ensures Qualifies(20.0, SearchSpec("s", "k", 20.0, 1.8, 8.0))
    ensures !Qualifies(20.0, SearchSpec("s", "k", 20.0, 1.8, 10.0))
  {
  }

  /**
   * Without a mark-up that beats the retention rate (margin * 0.87 <= 1),
   * no non-negative price is ever a deal while the minimum profit is above
   * minus the fixed fee (the default minimum is 8).
   */
  lemma NoDealWithoutMarkup(item: Item, spec: SearchSpec, seen: set<ItemId>)
    requires spec.margin * ResaleRetention <= 1.0
    requires spec.minProfit > -FixedFee
    requires item.price.Parsed? ==> item.price.amount >= 0.0
    ensures CheckProfit(item, spec, seen).None?
  {
  }

  /** A larger margin never lowers the estimated profit of a non-negative price. */
  lemma ProfitMonotoneInMargin(price: real, m1: real, m2: real)
    requires price >= 0.0 && m1 <= m2
    ensures EstimatedProfit(price, m1) <= EstimatedProfit(price, m2)
  {
  }
}
