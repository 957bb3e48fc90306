/**
 * The per-user search registry (`user_searches`): a dict from user id to an
 * insertion-ordered dict from search key to search, together with the
 * `/add`, `/list` and `/remove` commands that change or read it and the
 * search total shown by `/stats`.
 */
module Registry {
  import opened Wrappers
  import opened OrderedDict
  import opened Profit
  import Decimal

  /** `str(interaction.user.id)`. */
  type UserId = string
  /** `f"{nom}_{int(time.time())}"`. */
  type SearchKey = string
  type UserSearches = seq<(SearchKey, SearchSpec)>
  type Entries = seq<(UserId, UserSearches)>

  /** The `marge` argument of `/add` when the user gives none. */
  const DefaultMargin: real := 1.8
  /** Every search added through `/add` carries this minimum profit. */
  const DefaultMinProfit: real := 8.0

  ghost predicate WellFormed(entries: Entries) {
    && DistinctKeys(entries)
    && forall i :: 0 <= i < |entries| ==> DistinctKeys(entries[i].1)
  }

  /** The key `/add` stores a search under, from its name and the current second. */
  function SearchKeyOf(name: string, now: nat): (k: SearchKey)
    ensures name <= k && |k| > |name| + 1 && k[|name|] == '_'
    ensures Decimal.AllDigits(k[|name| + 1..])
  {
    name + "_" + Decimal.NatToString(now)
  }

  /**
   * Two `/add` calls land on the same key exactly when they give the same
   * name in the same second (the second then overwrites the first).
   */
  lemma {:induction false} SearchKeyInjective(n1: string, t1: nat, n2: string, t2: nat)
    ensures SearchKeyOf(n1, t1) == SearchKeyOf(n2, t2) <==> n1 == n2 && t1 == t2
  {
    var k1, k2 := SearchKeyOf(n1, t1), SearchKeyOf(n2, t2);
    if k1 == k2 {
      if |n1| != |n2| {
        assert false;
      }
      assert n1 == k1[..|n1|] && n2 == k2[..|n2|];
      assert Decimal.NatToString(t1) == k1[|n1| + 1..];
      assert Decimal.NatToString(t2) == k2[|n2| + 1..];
      Decimal.NatToStringInjective(t1, t2);
    }
  }

  /** `user_searches.get(user, {})`. */
  function SearchesOf(entries: Entries, user: UserId): (s: UserSearches)
    ensures user !in Keys(entries) ==> s == []
  {
    match Get(entries, user)
    case None => []
    case Some(s) => s
  }

  /** A user's searches in `/list` order; `/list` numbers them from 1. */
  function ListOf(entries: Entries, user: UserId): seq<SearchSpec> {
    Values(SearchesOf(entries, user))
  }

  /** `sum(len(searches) for searches in user_searches.values())`. */
  function SearchCount(entries: Entries): nat {
    if entries == [] then 0
    else SearchCount(entries[..|entries| - 1]) + |entries[|entries| - 1].1|
  }

  /** Replacing one user's searches changes the total by the difference in size. */
  lemma {:induction false} SearchCountUpdate(entries: Entries, i: nat, x: (UserId, UserSearches))
    requires i < |entries|
    ensures SearchCount(entries[i := x]) + |entries[i].1| == SearchCount(entries) + |x.1|
  {
    var last := |entries| - 1;
    if i < last {
      assert entries[i := x][..last] == entries[..last][i := x];
      SearchCountUpdate(entries[..last], i, x);
    } else {
      assert entries[i := x][..last] == entries[..last];
    }
  }

  /** The registry after `/add` stores `spec` under `key` for `user`. */
  function AddSearch(entries: Entries, user: UserId, key: SearchKey, spec: SearchSpec): Entries {
    Put(entries, user, Put(SearchesOf(entries, user), key, spec))
  }

  /**
   * `/add` creates the user's dict when missing, stores the search under its
   * key (appended when the key is new, in place when it is not), touches no
   * other user, and adds one to the total exactly when the key is new.
   */
  lemma {:induction false} AddSearchEffect(entries: Entries, user: UserId, key: SearchKey, spec: SearchSpec)
    requires WellFormed(entries)
    ensures var r := AddSearch(entries, user, key, spec);
      && WellFormed(r)
      && Keys(r) == (if user in Keys(entries) then Keys(entries) else Keys(entries) + [user])
      && Get(SearchesOf(r, user), key) == Some(spec)
      && (key !in Keys(SearchesOf(entries, user)) ==>
            ListOf(r, user) == ListOf(entries, user) + [spec]
            && SearchCount(r) == SearchCount(entries) + 1)
      && (key in Keys(SearchesOf(entries, user)) ==>
            |ListOf(r, user)| == |ListOf(entries, user)|
            && SearchCount(r) == SearchCount(entries))
      && forall u :: u != user ==> SearchesOf(r, u) == SearchesOf(entries, u)
  {
    var mine := SearchesOf(entries, user);
    var updated := Put(mine, key, spec);
    PutUserWellFormed(entries, user, updated);
    PutUserCount(entries, user, updated);
    if key !in Keys(mine) {
      ValuesAppend(mine, key, spec);
    }
  }

  /** Storing a dict with distinct keys for one user keeps the registry well formed. */
  lemma PutUserWellFormed(entries: Entries, user: UserId, updated: UserSearches)
    requires WellFormed(entries) && DistinctKeys(updated)
    ensures WellFormed(Put(entries, user, updated))
    ensures SearchesOf(Put(entries, user, updated), user) == updated
  {
    var r := Put(entries, user, updated);
    forall j | 0 <= j < |r| ensures DistinctKeys(r[j].1) {
      match IndexOf(entries, user)
      case Some(i) =>
        assert r == entries[i := (user, updated)];
      case None =>
        assert r == entries + [(user, updated)];
    }
  }

  /** Storing a new dict for one user changes the total by the difference in size. */
  lemma PutUserCount(entries: Entries, user: UserId, updated: UserSearches)
    requires WellFormed(entries)
    ensures SearchCount(Put(entries, user, updated)) + |SearchesOf(entries, user)|
         == SearchCount(entries) + |updated|
  {
    match IndexOf(entries, user)
    case Some(i) =>
      GetAt(entries, i);
      SearchCountUpdate(entries, i, (user, updated));
    case None =>
      assert Put(entries, user, updated)[..|entries|] == entries;
  }

  /**
   * The registry after `/remove n`: with a known user and `1 <= n <= len`,
   * the n-th search in `/list` order is deleted and the user's (possibly
   * empty) dict stays; otherwise nothing changes.
   */
  function RemoveSearch(entries: Entries, user: UserId, n: int): Entries {
    var mine := SearchesOf(entries, user);
    if user in Keys(entries) && 1 <= n <= |mine| then Put(entries, user, DeleteAt(mine, n - 1))
    else entries
  }

  lemma {:induction false} RemoveSearchEffect(entries: Entries, user: UserId, n: int)
    requires WellFormed(entries)
    ensures var r := RemoveSearch(entries, user, n);
      var before := ListOf(entries, user);
      && WellFormed(r)
      && Keys(r) == Keys(entries)
      && (user in Keys(entries) && 1 <= n <= |before| ==>
            ListOf(r, user) == before[..n - 1] + before[n..]
            && SearchCount(r) + 1 == SearchCount(entries))
      && (!(user in Keys(entries) && 1 <= n <= |before|) ==> r == entries)
      && forall u :: u != user ==> SearchesOf(r, u) == SearchesOf(entries, u)
  {
    var mine := SearchesOf(entries, user);
    if user in Keys(entries) && 1 <= n <= |mine| {
      var updated := DeleteAt(mine, n - 1);
      PutUserWellFormed(entries, user, updated);
      PutUserCount(entries, user, updated);
    }
  }

  /** One line of the `/list` reply: its 1-based number and the search shown. */
  datatype ListLine = ListLine(number: nat, name: string, keywords: string, maxPrice: real)

  datatype ListReply = NoSearches | Listed(lines: seq<ListLine>)

  datatype RemoveReply = NothingToRemove | Removed(name: string) | InvalidNumber

  /** The shared registry object; `entries` is the module-level `user_searches`. */
  class SearchRegistry {
    var entries: Entries

    ghost predicate Valid()
      reads this
    {
      WellFormed(entries)
    }

    constructor ()
      ensures Valid() && entries == []
    {
      entries := [];
    }

    /**
     * `/add nom mots_cles prix_max [marge]` at second `now`; `margin` is
     * `None` when the user left `marge` out.
     */
    method Add(user: UserId, name: string, keywords: string, maxPrice: real, margin: Option<real>, now: nat)
      returns (key: SearchKey)
      requires Valid()
      modifies this
      ensures Valid()
      ensures key == SearchKeyOf(name, now)
      ensures entries == AddSearch(old(entries), user, key,
        SearchSpec(name, keywords, maxPrice, if margin.Some? then margin.value else DefaultMargin, DefaultMinProfit))
    {
      key := SearchKeyOf(name, now);
      var marge := if margin.Some? then margin.value else DefaultMargin;
      var spec := SearchSpec(name, keywords, maxPrice, marge, DefaultMinProfit);
      AddSearchEffect(entries, user, key, spec);
      if user !in Keys(entries) {
        entries := Put(entries, user, []);
        PutTwice(old(entries), user, [], Put([], key, spec));
      }
      var mine := SearchesOf(entries, user);
      entries := Put(entries, user, Put(mine, key, spec));
    }

    /** `/list`: the caller's searches, numbered from 1 in insertion order. */
    method List(user: UserId) returns (reply: ListReply)
      requires Valid()
      ensures ListOf(entries, user) == [] <==> reply.NoSearches?
      ensures reply.Listed? ==>
        && |reply.lines| == |ListOf(entries, user)|
        && forall i :: 0 <= i < |reply.lines| ==>
             var s := ListOf(entries, user)[i];
             reply.lines[i] == ListLine(i + 1, s.name, s.keywords, s.maxPrice)
    {
      var specs := ListOf(entries, user);
      if user !in Keys(entries) || specs == [] {
        return NoSearches;
      }
      var lines: seq<ListLine> := [];
      var i := 0;
      while i < |specs|
        invariant 0 <= i <= |specs| && |lines| == i
        invariant forall j :: 0 <= j < i ==>
          lines[j] == ListLine(j + 1, specs[j].name, specs[j].keywords, specs[j].maxPrice)
      {
        lines := lines + [ListLine(i + 1, specs[i].name, specs[i].keywords, specs[i].maxPrice)];
        i := i + 1;
      }
      reply := Listed(lines);
    }

    /** `/remove numero`. */
    method Remove(user: UserId, n: int) returns (reply: RemoveReply)
      requires Valid()
      modifies this
      ensures Valid()
      ensures entries == RemoveSearch(old(entries), user, n)
      ensures user !in Keys(old(entries)) ==> reply == NothingToRemove
      ensures user in Keys(old(entries)) && 1 <= n <= |ListOf(old(entries), user)| ==>
        reply == Removed(ListOf(old(entries), user)[n - 1].name)
      ensures user in Keys(old(entries)) && !(1 <= n <= |ListOf(old(entries), user)|) ==>
        reply == InvalidNumber
    {
      RemoveSearchEffect(entries, user, n);
      if user !in Keys(entries) {
        return NothingToRemove;
      }
      var mine := SearchesOf(entries, user);
      var specs := Values(mine);
      if 1 <= n <= |specs| {
        var name := specs[n - 1].name;
        entries := Put(entries, user, DeleteAt(mine, n - 1));
        reply := Removed(name);
      } else {
        reply := InvalidNumber;
      }
    }

    /** The search total of `/stats`. */
    method TotalSearches() returns (total: nat)
      ensures total == SearchCount(entries)
    {
      total := 0;
      var i := 0;
      while i < |entries|
        invariant 0 <= i <= |entries|
        invariant total == SearchCount(entries[..i])
      {
        assert entries[..i + 1][..i] == entries[..i];
        total := total + |entries[i].1|;
        i := i + 1;
      }
      assert entries[..i] == entries;
    }
  }
}
