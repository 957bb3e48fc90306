/**
 * The second, simpler bot: `search_vinted` filters the scraped catalog page
 * of one query, and one pass of `vinted_loop` announces each result whose
 * key `title + str(price)` has not been announced before.
 *
 * The page is given as the entries the scraper extracted (title, price text,
 * link); `float` is the oracle `parse`, `str` of a price is the oracle `show`,
 * and `pages(i)` is the page fetched for the i-th search of the pass.
 */
module Scraper {
  import opened Wrappers

  /** What the scraper reads from one catalog box: image alt text, price text, link target. */
  datatype Entry = Entry(title: string, priceText: string, href: string)

  /** One result tuple `(title, price, link)`. */
  datatype Listing = Listing(title: string, price: real, link: string)

  /** One entry of `SEARCHES`. */
  datatype Query = Query(name: string, query: string, maxPrice: real)

  /** One message sent to the channel: the search it was found for and the listing. */
  datatype Announcement = Announcement(searchName: string, listing: Listing)

  /** Only the first boxes of a page are looked at (`[:10]`). */
  const PageCap: nat := 10
  const SiteRoot: string := "https://www.vinted.fr"

  const Searches: seq<Query> := [
    Query("Jean Levi's 501", "levis 501", 30.0),
    Query("Nike Tech", "nike tech fleece", 50.0),
    Query("Hoodie Lacoste", "lacoste hoodie", 40.0)
  ]

  /** The characters Python's `str.strip()` removes. */
  predicate IsSpace(c: char) {
    || c == ' ' || c == '\t' || c == '\n' || c == '\r'
    || c == '\U{0B}' || c == '\U{0C}'
    || ('\U{1C}' <= c <= '\U{1F}') || c == '\U{85}' || c == '\U{A0}'
    || c == '\U{1680}' || ('\U{2000}' <= c <= '\U{200A}')
    || c == '\U{2028}' || c == '\U{2029}' || c == '\U{202F}' || c == '\U{205F}' || c == '\U{3000}'
  }

  /** `s.replace(c, "")`. */
  function RemoveChar(s: string, c: char): (r: string)
    ensures c !in r && |r| <= |s|
  {
    if s == [] then []
    else if s[0] == c then RemoveChar(s[1..], c)
    else [s[0]] + RemoveChar(s[1..], c)
  }

  /** A text without `c` is left as it is. */
  lemma {:induction false} RemoveCharAbsent(s: string, c: char)
    requires c !in s
    ensures RemoveChar(s, c) == s
  {
    if s != [] {
      RemoveCharAbsent(s[1..], c);
      assert s == [s[0]] + s[1..];
    }
  }

  /** `replace` works piecewise: removing `c` from a concatenation removes it from each part. */
  lemma {:induction false} RemoveCharAppend(a: string, b: string, c: char)
    ensures RemoveChar(a + b, c) == RemoveChar(a, c) + RemoveChar(b, c)
  {
    if a != [] {
      assert (a + b)[1..] == a[1..] + b;
      RemoveCharAppend(a[1..], b, c);
    } else {
      assert a + b == b;
    }
  }

  /**
   * Removing `c` keeps every other character exactly as often as it occurs;
   * with `RemoveCharAppend` this pins the result down, order included.
   */
  lemma {:induction false} RemoveCharCounts(s: string, c: char)
    ensures multiset(RemoveChar(s, c)) == multiset(s)[c := 0]
  {
    if s != [] {
      RemoveCharCounts(s[1..], c);
      assert s == [s[0]] + s[1..];
      assert multiset(s) == multiset([s[0]]) + multiset(s[1..]);
    }
  }

  /** Removing `c` keeps every other character and adds none. */
  lemma RemoveCharKeepsOthers(s: string, c: char, x: char)
    ensures x in RemoveChar(s, c) <==> x in s && x != c
  {
    RemoveCharCounts(s, c);
  }

  /** Drop leading whitespace. */
  function TrimStart(s: string): string {
    if s != [] && IsSpace(s[0]) then TrimStart(s[1..]) else s
  }

  /** Drop trailing whitespace. */
  function TrimEnd(s: string): string {
    if s != [] && IsSpace(s[|s| - 1]) then TrimEnd(s[..|s| - 1]) else s
  }

  /** `s.strip()`. */
  function Strip(s: string): string {
    TrimEnd(TrimStart(s))
  }

  /** `TrimStart` removes a prefix of whitespace, and no more. */
  lemma {:induction false} TrimStartSpec(s: string)
    ensures var r := TrimStart(s);
      && |r| <= |s| && r == s[|s| - |r|..]
      && (forall i :: 0 <= i < |s| - |r| ==> IsSpace(s[i]))
      && (r == [] || !IsSpace(r[0]))
  {
    if s != [] && IsSpace(s[0]) {
      var t := s[1..];
      TrimStartSpec(t);
      var r := TrimStart(t);
      assert TrimStart(s) == r;
      assert r == s[|s| - |r|..] by {
        assert t[|t| - |r|..] == s[|s| - |r|..];
      }
      forall i | 0 <= i < |s| - |r| ensures IsSpace(s[i]) {
        if i > 0 {
          assert s[i] == t[i - 1];
        }
      }
    }
  }

  /** `TrimEnd` removes a suffix of whitespace, and no more. */
  lemma {:induction false} TrimEndSpec(s: string)
    ensures var r := TrimEnd(s);
      && |r| <= |s| && r == s[..|r|]
      && (forall i :: |r| <= i < |s| ==> IsSpace(s[i]))
      && (r == [] || !IsSpace(r[|r| - 1]))
  {
    if s != [] && IsSpace(s[|s| - 1]) {
      TrimEndSpec(s[..|s| - 1]);
    }
  }

  /**
   * `strip` keeps the middle part `s[i..i + |r|]` of the text: everything
   * cut off on either side is whitespace, and the result neither starts nor
   * ends with whitespace.
   */
  lemma StripSpec(s: string)
    ensures var r := Strip(s);
      && (r == [] || (!IsSpace(r[0]) && !IsSpace(r[|r| - 1])))
      && exists i :: 0 <= i <= |s| - |r| && IsMiddle(s, i, r)
  {
    var t := TrimStart(s);
    TrimStartSpec(s);
    TrimEndSpec(t);
    var r := TrimEnd(t);
    var i := |s| - |t|;
    assert t == s[i..];
    assert r == s[i..i + |r|];
    forall j | i + |r| <= j < |s| ensures IsSpace(s[j]) {
      assert s[j] == t[j - i];
    }
    assert IsMiddle(s, i, r);
  }

  /** `r` is `s[i..i + |r|]` and everything around it in `s` is whitespace. */
  ghost predicate IsMiddle(s: string, i: nat, r: string) {
    && i + |r| <= |s| && r == s[i..i + |r|]
    && (forall j :: 0 <= j < i ==> IsSpace(s[j]))
    && (forall j :: i + |r| <= j < |s| ==> IsSpace(s[j]))
  }

  /** The text handed to `float`: the price text without "€", stripped. */
  function CleanPrice(text: string): string {
    Strip(RemoveChar(text, '€'))
  }

  /**
   * The filter applied to one box: skipped when its price does not parse,
   * kept (as a result tuple) when the price is at most the ceiling.
   */
  function Accept(e: Entry, maxPrice: real, parse: string -> Option<real>): (r: Option<Listing>)
    ensures r.Some? <==> parse(CleanPrice(e.priceText)).Some? && parse(CleanPrice(e.priceText)).value <= maxPrice
    ensures r.Some? ==>
      && r.value.title == e.title
      && Some(r.value.price) == parse(CleanPrice(e.priceText))
      && r.value.link == SiteRoot + e.href
  {
    match parse(CleanPrice(e.priceText))
    case None => None
    case Some(price) => if price <= maxPrice then Some(Listing(e.title, price, SiteRoot + e.href)) else None
  }

  /** The accepted entries, in page order. */
  function Keep(es: seq<Entry>, maxPrice: real, parse: string -> Option<real>): (r: seq<Listing>)
    ensures |r| <= |es|
  {
    if es == [] then []
    else
      var last := es[|es| - 1];
      Keep(es[..|es| - 1], maxPrice, parse)
        + (match Accept(last, maxPrice, parse) case None => [] case Some(l) => [l])
  }

  /** What `search_vinted` returns for a page. */
  function Filtered(page: seq<Entry>, maxPrice: real, parse: string -> Option<real>): seq<Listing> {
    Keep(if |page| <= PageCap then page else page[..PageCap], maxPrice, parse)
  }

  /** The filter keeps page order: filtering two parts and joining them is filtering the whole. */
  lemma {:induction false} KeepAppend(a: seq<Entry>, b: seq<Entry>, maxPrice: real, parse: string -> Option<real>)
    ensures Keep(a + b, maxPrice, parse) == Keep(a, maxPrice, parse) + Keep(b, maxPrice, parse)
  {
    if b == [] {
      assert a + b == a;
    } else {
      var last := |b| - 1;
      assert (a + b)[..|a + b| - 1] == a + b[..last];
      KeepAppend(a, b[..last], maxPrice, parse);
    }
  }

  lemma KeepStep(es: seq<Entry>, i: nat, maxPrice: real, parse: string -> Option<real>)
    requires i < |es|
    ensures Keep(es[..i + 1], maxPrice, parse) ==
      Keep(es[..i], maxPrice, parse) + (match Accept(es[i], maxPrice, parse) case None => [] case Some(l) => [l])
  {
    assert es[..i + 1][..i] == es[..i];
  }

  /** A single entry is kept alone exactly when it is accepted. */
  lemma KeepSingle(e: Entry, maxPrice: real, parse: string -> Option<real>)
    ensures Keep([e], maxPrice, parse) == match Accept(e, maxPrice, parse) case None => [] case Some(l) => [l]
  {
  }

  /**
   * Every result comes from one of the entries: its title, its parsed price
   * (never a stand-in for an unparsable one) at most the ceiling, its link.
   */
  lemma {:induction false} KeepSound(es: seq<Entry>, maxPrice: real, parse: string -> Option<real>)
    ensures forall l :: l in Keep(es, maxPrice, parse) ==>
      l.price <= maxPrice && exists e :: e in es && Accept(e, maxPrice, parse) == Some(l)
  {
    if es != [] {
      var init := es[..|es| - 1];
      KeepSound(init, maxPrice, parse);
      forall l | l in Keep(es, maxPrice, parse)
        ensures l.price <= maxPrice && exists e :: e in es && Accept(e, maxPrice, parse) == Some(l)
      {
        if l in Keep(init, maxPrice, parse) {
          var e :| e in init && Accept(e, maxPrice, parse) == Some(l);
          assert e in es;
        } else {
          assert Accept(es[|es| - 1], maxPrice, parse) == Some(l);
        }
      }
    }
  }

  /** Everything past the tenth entry is ignored; at most ten results. */
  lemma FilteredCap(page: seq<Entry>, rest: seq<Entry>, maxPrice: real, parse: string -> Option<real>)
    requires |page| >= PageCap
    ensures Filtered(page + rest, maxPrice, parse) == Filtered(page, maxPrice, parse)
    ensures |Filtered(page, maxPrice, parse)| <= PageCap
  {
    var head := page[..PageCap];
    assert (page + rest)[..PageCap] == head;
    if |page| == PageCap {
      assert head == page;
      if rest == [] {
        assert page + rest == page;
      }
    }
  }

  /** At most ten results, each at most the ceiling. */
  lemma FilteredBounds(page: seq<Entry>, maxPrice: real, parse: string -> Option<real>)
    ensures |Filtered(page, maxPrice, parse)| <= PageCap
    ensures forall l :: l in Filtered(page, maxPrice, parse) ==> l.price <= maxPrice
  {
    KeepSound(if |page| <= PageCap then page else page[..PageCap], maxPrice, parse);
  }

  /** `search_vinted(query, max_price)` on an extracted page. */
  method SearchVinted(page: seq<Entry>, maxPrice: real, parse: string -> Option<real>)
    returns (items: seq<Listing>)
    ensures items == Filtered(page, maxPrice, parse)
  {
    var boxes := if |page| <= PageCap then page else page[..PageCap];
    items := [];
    var i := 0;
    while i < |boxes|
      invariant 0 <= i <= |boxes|
      invariant items == Keep(boxes[..i], maxPrice, parse)
    {
      KeepStep(boxes, i, maxPrice, parse);
      var e := boxes[i];
      var price := parse(CleanPrice(e.priceText));
      if price.None? {
        assert Accept(e, maxPrice, parse).None?;
        i := i + 1;
        continue;
      }
      if price.value <= maxPrice {
        assert Accept(e, maxPrice, parse) == Some(Listing(e.title, price.value, SiteRoot + e.href));
        items := items + [Listing(e.title, price.value, SiteRoot + e.href)];
      } else {
        assert Accept(e, maxPrice, parse).None?;
      }
      i := i + 1;
    }
    assert boxes[..i] == boxes;
  }

  /** The dedup key `title + str(price)`. */
  function Uid(l: Listing, show: real -> string): string {
    l.title + show(l.price)
  }

  /** What a pass has changed so far: the announced keys and the messages sent. */
  datatype PassState = PassState(sentItems: set<string>, messages: seq<Announcement>)

  /** Handle one result: announce it unless its key was already announced. */
  function Offer(st: PassState, name: string, l: Listing, show: real -> string): PassState {
    if Uid(l, show) in st.sentItems then st
    else PassState(st.sentItems + {Uid(l, show)}, st.messages + [Announcement(name, l)])
  }

  function OfferAll(st: PassState, name: string, results: seq<Listing>, show: real -> string): PassState {
    if results == [] then st
    else Offer(OfferAll(st, name, results[..|results| - 1], show), name, results[|results| - 1], show)
  }

  /** One pass over `queries`; the i-th query is run on `pages(i)`. */
  function RunPass(st: PassState, queries: seq<Query>, pages: nat -> seq<Entry>,
                   parse: string -> Option<real>, show: real -> string): PassState
  {
    if queries == [] then st
    else
      var k := |queries| - 1;
      OfferAll(RunPass(st, queries[..k], pages, parse, show), queries[k].name,
               Filtered(pages(k), queries[k].maxPrice, parse), show)
  }

  /** Every result of a pass, in the order the pass handles them. */
  function PassResults(queries: seq<Query>, pages: nat -> seq<Entry>, parse: string -> Option<real>): seq<Listing> {
    if queries == [] then []
    else
      var k := |queries| - 1;
      PassResults(queries[..k], pages, parse) + Filtered(pages(k), queries[k].maxPrice, parse)
  }

  function UidsOf(ls: seq<Listing>, show: real -> string): set<string> {
    set i | 0 <= i < |ls| :: Uid(ls[i], show)
  }

  function MessageUids(ms: seq<Announcement>, show: real -> string): seq<string> {
    seq(|ms|, i requires 0 <= i < |ms| => Uid(ms[i].listing, show))
  }

  /**
   * `st` continues `st0` after the results `seen`: earlier messages are kept,
   * every handled result's key is now announced, and the new messages carry
   * pairwise distinct keys none of which had been announced before.
   */
  ghost predicate Extends(st0: PassState, st: PassState, seen: seq<Listing>, show: real -> string) {
    && |st0.messages| <= |st.messages|
    && st.messages[..|st0.messages|] == st0.messages
    && st.sentItems == st0.sentItems + UidsOf(seen, show)
    && var added := MessageUids(st.messages[|st0.messages|..], show);
       && (forall j :: 0 <= j < |added| ==> added[j] !in st0.sentItems)
       && (forall i, j :: 0 <= i < j < |added| ==> added[i] != added[j])
       && (forall j :: 0 <= j < |added| ==> added[j] in UidsOf(seen, show))
       && st.sentItems == st0.sentItems + (set u | u in added)
  }

  lemma UidsOfAppend(ls: seq<Listing>, l: Listing, show: real -> string)
    ensures UidsOf(ls + [l], show) == UidsOf(ls, show) + {Uid(l, show)}
  {
    var ms := ls + [l];
    forall u | u in UidsOf(ms, show) ensures u in UidsOf(ls, show) + {Uid(l, show)} {
      var i :| 0 <= i < |ms| && u == Uid(ms[i], show);
      if i < |ls| { assert ms[i] == ls[i]; }
    }
    forall u | u in UidsOf(ls, show) ensures u in UidsOf(ms, show) {
      var i :| 0 <= i < |ls| && u == Uid(ls[i], show);
      assert ms[i] == ls[i];
    }
    assert ms[|ls|] == l;
  }

  lemma {:induction false} OfferExtends(st0: PassState, st: PassState, seen: seq<Listing>,
                                        name: string, l: Listing, show: real -> string)
    requires Extends(st0, st, seen, show)
    ensures Extends(st0, Offer(st, name, l, show), seen + [l], show)
  {
    UidsOfAppend(seen, l, show);
    var r := Offer(st, name, l, show);
    if Uid(l, show) !in st.sentItems {
      var before := st.messages[|st0.messages|..];
      assert r.messages[..|st0.messages|] == st0.messages;
      assert r.messages[|st0.messages|..] == before + [Announcement(name, l)];
      assert MessageUids(before + [Announcement(name, l)], show) == MessageUids(before, show) + [Uid(l, show)];
    }
  }

  lemma {:induction false} OfferAllExtends(st0: PassState, st: PassState, seen: seq<Listing>,
                                           name: string, results: seq<Listing>, show: real -> string)
    requires Extends(st0, st, seen, show)
    ensures Extends(st0, OfferAll(st, name, results, show), seen + results, show)
  {
    if results == [] {
      assert seen + results == seen;
    } else {
      var k := |results| - 1;
      OfferAllExtends(st0, st, seen, name, results[..k], show);
      OfferExtends(st0, OfferAll(st, name, results[..k], show), seen + results[..k], name, results[k], show);
      assert seen + results[..k] + [results[k]] == seen + results;
    }
  }

  lemma {:induction false} RunPassExtends(st0: PassState, queries: seq<Query>, pages: nat -> seq<Entry>,
                                          parse: string -> Option<real>, show: real -> string)
    ensures Extends(st0, RunPass(st0, queries, pages, parse, show), PassResults(queries, pages, parse), show)
  {
    if queries == [] {
      assert st0.messages[|st0.messages|..] == [];
      assert UidsOf([], show) == {};
    } else {
      var k := |queries| - 1;
      RunPassExtends(st0, queries[..k], pages, parse, show);
      OfferAllExtends(st0, RunPass(st0, queries[..k], pages, parse, show), PassResults(queries[..k], pages, parse),
                      queries[k].name, Filtered(pages(k), queries[k].maxPrice, parse), show);
    }
  }

  /**
   * One pass of `vinted_loop`: afterwards every result's key is in
   * `sent_items` (which never shrinks), a result is announced only when its
   * key was not yet there, and results sharing a key, from the same search
   * or from different ones, give at most one message. Conversely every key
   * added to `sent_items` is the key of a message of the pass, so a result
   * whose key was not announced before the pass is announced in it.
   */
  lemma {:induction false} PassDedup(st0: PassState, queries: seq<Query>, pages: nat -> seq<Entry>,
                                     parse: string -> Option<real>, show: real -> string)
    ensures var r := RunPass(st0, queries, pages, parse, show);
      var added := if |st0.messages| <= |r.messages| then MessageUids(r.messages[|st0.messages|..], show) else [];
      && |st0.messages| <= |r.messages|
      && r.messages[..|st0.messages|] == st0.messages
      && st0.sentItems <= r.sentItems
      && r.sentItems == st0.sentItems + UidsOf(PassResults(queries, pages, parse), show)
      && (forall j :: 0 <= j < |added| ==> added[j] !in st0.sentItems)
      && (forall i, j :: 0 <= i < j < |added| ==> added[i] != added[j])
      && r.sentItems == st0.sentItems + (set u | u in added)
      && forall l :: l in PassResults(queries, pages, parse) && Uid(l, show) !in st0.sentItems ==>
           Uid(l, show) in added
  {
    RunPassExtends(st0, queries, pages, parse, show);
    var results := PassResults(queries, pages, parse);
    forall l | l in results ensures Uid(l, show) in UidsOf(results, show) {
      var i :| 0 <= i < |results| && results[i] == l;
    }
  }

  /** Offering the results of one search only appends messages, each for one of those results under that search's name. */
  lemma {:induction false} OfferAllSound(st: PassState, name: string, results: seq<Listing>, show: real -> string)
    ensures var r := OfferAll(st, name, results, show);
      && st.messages <= r.messages
      && forall m :: |st.messages| <= m < |r.messages| ==>
           r.messages[m].searchName == name && r.messages[m].listing in results
  {
    if results != [] {
      var k := |results| - 1;
      OfferAllSound(st, name, results[..k], show);
      var mid := OfferAll(st, name, results[..k], show);
      var r := OfferAll(st, name, results, show);
      forall m | |st.messages| <= m < |r.messages|
        ensures r.messages[m].searchName == name && r.messages[m].listing in results
      {
        if m < |mid.messages| {
          assert r.messages[m] == mid.messages[m];
          assert mid.messages[m].listing in results[..k];
        }
      }
    }
  }

  /** Message `a` reports a result that search `q` of the pass found, under that search's name. */
  ghost predicate AnnouncesSome(a: Announcement, queries: seq<Query>, pages: nat -> seq<Entry>, parse: string -> Option<real>) {
    exists q :: 0 <= q < |queries| && a.searchName == queries[q].name &&
      a.listing in Filtered(pages(q), queries[q].maxPrice, parse)
  }

  /**
   * Every message of a pass reports one of the results a search of the pass
   * found, under that search's name, with that result's title, price and
   * link; the messages sent before the pass are kept.
   */
  lemma {:induction false} PassSound(st0: PassState, queries: seq<Query>, pages: nat -> seq<Entry>,
                                     parse: string -> Option<real>, show: real -> string)
    ensures var r := RunPass(st0, queries, pages, parse, show);
      && st0.messages <= r.messages
      && forall m :: |st0.messages| <= m < |r.messages| ==> AnnouncesSome(r.messages[m], queries, pages, parse)
  {
    if queries != [] {
      var k := |queries| - 1;
      PassSound(st0, queries[..k], pages, parse, show);
      var mid := RunPass(st0, queries[..k], pages, parse, show);
      var results := Filtered(pages(k), queries[k].maxPrice, parse);
      OfferAllSound(mid, queries[k].name, results, show);
      var r := RunPass(st0, queries, pages, parse, show);
      forall m | |st0.messages| <= m < |r.messages|
        ensures AnnouncesSome(r.messages[m], queries, pages, parse)
      {
        if m < |mid.messages| {
          assert r.messages[m] == mid.messages[m];
          var q :| 0 <= q < |queries[..k]| && mid.messages[m].searchName == queries[..k][q].name &&
            mid.messages[m].listing in Filtered(pages(q), queries[..k][q].maxPrice, parse);
          assert queries[..k][q] == queries[q];
        } else {
          assert r.messages[m].searchName == queries[k].name && r.messages[m].listing in results;
        }
      }
    }
  }

  /** At most ten results per search, hence at most ten messages per search and pass. */
  lemma {:induction false} PassMessageBound(st0: PassState, queries: seq<Query>, pages: nat -> seq<Entry>,
                                            parse: string -> Option<real>, show: real -> string)
    ensures |RunPass(st0, queries, pages, parse, show).messages| <= |st0.messages| + PageCap * |queries|
  {
    if queries != [] {
      var k := |queries| - 1;
      PassMessageBound(st0, queries[..k], pages, parse, show);
      OfferAllBound(RunPass(st0, queries[..k], pages, parse, show), queries[k].name,
                    Filtered(pages(k), queries[k].maxPrice, parse), show);
      var page := pages(k);
      if |page| > PageCap {
        FilteredCap(page[..PageCap], page[PageCap..], queries[k].maxPrice, parse);
        assert page[..PageCap] + page[PageCap..] == page;
      }
    }
  }

  /** With the three configured searches a pass sends at most thirty messages. */
  lemma ConfiguredPassBound(st0: PassState, pages: nat -> seq<Entry>, parse: string -> Option<real>, show: real -> string)
    ensures |RunPass(st0, Searches, pages, parse, show).messages| <= |st0.messages| + 30
  {
    PassMessageBound(st0, Searches, pages, parse, show);
  }

  lemma {:induction false} OfferAllBound(st: PassState, name: string, results: seq<Listing>, show: real -> string)
    ensures |OfferAll(st, name, results, show).messages| <= |st.messages| + |results|
  {
    if results != [] {
      OfferAllBound(st, name, results[..|results| - 1], show);
    }
  }

  /** The dedup set of `vinted_loop`, kept across passes. */
  class Announcer {
    var sentItems: set<string>

    constructor ()
      ensures sentItems == {}
    {
      sentItems := {};
    }

    /** The body of `while True` in `vinted_loop`: one pass over the configured searches. */
    method Pass(pages: nat -> seq<Entry>, parse: string -> Option<real>, show: real -> string)
      returns (messages: seq<Announcement>)
      modifies this
      ensures PassState(sentItems, messages) == RunPass(PassState(old(sentItems), []), Searches, pages, parse, show)
    {
      var queries := Searches;
      messages := [];
      ghost var start := PassState(sentItems, []);
      var q := 0;
      while q < |queries|
        invariant 0 <= q <= |queries|
        invariant PassState(sentItems, messages) == RunPass(start, queries[..q], pages, parse, show)
      {
        assert queries[..q + 1][..q] == queries[..q];
        var s := queries[q];
        var results := SearchVinted(pages(q), s.maxPrice, parse);
        ghost var before := PassState(sentItems, messages);
        var i := 0;
        while i < |results|
          invariant 0 <= i <= |results|
          invariant PassState(sentItems, messages) == OfferAll(before, s.name, results[..i], show)
        {
          assert results[..i + 1][..i] == results[..i];
          var l := results[i];
          var uid := l.title + show(l.price);
          if uid !in sentItems {
            messages := messages + [Announcement(s.name, l)];
            sentItems := sentItems + {uid};
          }
          i := i + 1;
        }
        assert results[..i] == results;
        q := q + 1;
      }
      assert queries[..q] == queries;
    }
  }
}
