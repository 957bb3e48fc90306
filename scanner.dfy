/**
 * The bot's scan loop (`VintedBot.vinted_scanner`), its notification
 * write-back (`VintedBot.send_notification`) and the `/stats` command.
 *
 * The catalog request and the Discord delivery are oracles: `fetch(k)` is
 * what the k-th catalog request of the cycle returned (empty when the
 * request failed), and `deliver(k)` is how the k-th delivery attempt of the
 * cycle ended.
 */
module Scanner {
  import opened Wrappers
  import opened OrderedDict
  import opened Profit
  import opened Registry

  /** How one run of `send_notification` ended. */
  datatype Delivery =
    | DirectSent         // the direct message went out
    | UserMissing        // the user lookup gave a falsy user: nothing is sent
    | FallbackSent       // the direct message raised; the first text channel got it
    | NoFallbackChannel  // the direct message raised; there was no text channel to fall back to
    | LookupFailed       // the user lookup raised
    | FallbackFailed     // the direct message raised, and so did the fallback channel

  /**
   * Whether `send_notification` reaches `seen_items.add`: every ending except
   * the two whose exception escapes to its outer handler.
   */
  predicate MarksSeen(d: Delivery) {
    !(d.LookupFailed? || d.FallbackFailed?)
  }

  /** One call of `send_notification(deal, user_id)` and how it ended. */
  datatype Notification = Notification(user: UserId, deal: Deal, outcome: Delivery)

  /** One search to scan, with its owner. */
  type Job = (UserId, SearchSpec)

  /** Only the first items of each catalog response are evaluated (`items[:3]`). */
  const EvaluatedPerSearch: nat := 3

  function Head(items: seq<Item>): (h: seq<Item>)
    ensures |h| <= EvaluatedPerSearch && h <= items
    ensures |items| >= EvaluatedPerSearch ==> |h| == EvaluatedPerSearch
    ensures |items| < EvaluatedPerSearch ==> h == items
  {
    if |items| <= EvaluatedPerSearch then items else items[..EvaluatedPerSearch]
  }

  /** One user's searches, in insertion order. */
  function JobsOf(user: UserId, searches: UserSearches): (js: seq<Job>)
    ensures |js| == |searches|
    ensures forall i :: 0 <= i < |js| ==> js[i] == (user, searches[i].1)
  {
    seq(|searches|, i requires 0 <= i < |searches| => (user, searches[i].1))
  }

  /** Every registered search, in the order the nested `for` loops visit them. */
  function Jobs(entries: Entries): seq<Job> {
    if entries == [] then []
    else Jobs(entries[..|entries| - 1]) + JobsOf(entries[|entries| - 1].0, entries[|entries| - 1].1)
  }

  /** What a cycle has changed so far: the seen set and the notifications made. */
  datatype CycleState = CycleState(seen: set<ItemId>, sent: seq<Notification>)

  /** Evaluate one item; a deal is handed to `send_notification`. */
  function Evaluate(st: CycleState, job: Job, item: Item, deliver: nat -> Delivery): CycleState {
    match CheckProfit(item, job.1, st.seen)
    case None => st
    case Some(deal) =>
      var outcome := deliver(|st.sent|);
      CycleState(
        if MarksSeen(outcome) then st.seen + {deal.id} else st.seen,
        st.sent + [Notification(job.0, deal, outcome)])
  }

  /** Evaluate the items of one response, first to last. */
  function EvaluateAll(st: CycleState, job: Job, items: seq<Item>, deliver: nat -> Delivery): CycleState {
    if items == [] then st
    else Evaluate(EvaluateAll(st, job, items[..|items| - 1], deliver), job, items[|items| - 1], deliver)
  }

  /** Scan the searches in order; the k-th search gets the k-th catalog response. */
  function RunJobs(st: CycleState, jobs: seq<Job>, fetch: nat -> seq<Item>, deliver: nat -> Delivery): CycleState {
    if jobs == [] then st
    else
      var k := |jobs| - 1;
      EvaluateAll(RunJobs(st, jobs[..k], fetch, deliver), jobs[k], Head(fetch(k)), deliver)
  }

  /** The ids a run of notifications marked as seen. */
  function MarkedIds(ns: seq<Notification>): set<ItemId> {
    set i | 0 <= i < |ns| && MarksSeen(ns[i].outcome) :: ns[i].deal.id
  }

  /** No notification is for an id that was seen before it was made. */
  ghost predicate NeverRenotified(ns: seq<Notification>, seen: set<ItemId>) {
    forall j :: 0 <= j < |ns| ==> ns[j].deal.id !in seen + MarkedIds(ns[..j])
  }

  /**
   * `st` continues `st0`: the notifications of `st0` are kept, the seen set
   * grew by exactly the ids the new notifications marked, and none of the new
   * notifications repeats an id seen before it.
   */
  ghost predicate Continues(st0: CycleState, st: CycleState) {
    && |st0.sent| <= |st.sent|
    && st.sent[..|st0.sent|] == st0.sent
    && st.seen == st0.seen + MarkedIds(st.sent[|st0.sent|..])
    && NeverRenotified(st.sent[|st0.sent|..], st0.seen)
  }

  lemma MarkedIdsAppend(ns: seq<Notification>, n: Notification)
    ensures MarkedIds(ns + [n]) == MarkedIds(ns) + (if MarksSeen(n.outcome) then {n.deal.id} else {})
  {
    var ms := ns + [n];
    forall id | id in MarkedIds(ms) ensures id in MarkedIds(ns) || (MarksSeen(n.outcome) && id == n.deal.id) {
      var i :| 0 <= i < |ms| && MarksSeen(ms[i].outcome) && ms[i].deal.id == id;
      if i < |ns| { assert ms[i] == ns[i]; }
    }
    forall id | id in MarkedIds(ns) ensures id in MarkedIds(ms) {
      var i :| 0 <= i < |ns| && MarksSeen(ns[i].outcome) && ns[i].deal.id == id;
      assert ms[i] == ns[i];
    }
    if MarksSeen(n.outcome) {
      assert ms[|ns|] == n;
    }
  }

  lemma {:induction false} EvaluateContinues(st0: CycleState, st: CycleState, job: Job, item: Item, deliver: nat -> Delivery)
    requires Continues(st0, st)
    ensures Continues(st0, Evaluate(st, job, item, deliver))
  {
    match CheckProfit(item, job.1, st.seen)
    case None =>
    case Some(deal) =>
      var n := Notification(job.0, deal, deliver(|st.sent|));
      var old_new := st.sent[|st0.sent|..];
      var r := Evaluate(st, job, item, deliver);
      assert r.sent == st.sent + [n];
      assert r.sent[..|st0.sent|] == st0.sent;
      assert r.sent[|st0.sent|..] == old_new + [n];
      MarkedIdsAppend(old_new, n);
      var ns := old_new + [n];
      forall j | 0 <= j < |ns| ensures ns[j].deal.id !in st0.seen + MarkedIds(ns[..j]) {
        if j < |old_new| {
          assert ns[..j] == old_new[..j];
        } else {
          assert ns[..j] == old_new;
        }
      }
  }

  lemma {:induction false} EvaluateAllContinues(st0: CycleState, st: CycleState, job: Job, items: seq<Item>, deliver: nat -> Delivery)
    requires Continues(st0, st)
    ensures Continues(st0, EvaluateAll(st, job, items, deliver))
  {
    if items != [] {
      EvaluateAllContinues(st0, st, job, items[..|items| - 1], deliver);
      EvaluateContinues(st0, EvaluateAll(st, job, items[..|items| - 1], deliver), job, items[|items| - 1], deliver);
    }
  }

  lemma {:induction false} RunJobsContinuesFrom(st0: CycleState, jobs: seq<Job>, fetch: nat -> seq<Item>, deliver: nat -> Delivery)
    ensures Continues(st0, RunJobs(st0, jobs, fetch, deliver))
  {
    if jobs == [] {
      assert st0.sent[|st0.sent|..] == [];
      assert MarkedIds([]) == {};
    } else {
      var k := |jobs| - 1;
      RunJobsContinuesFrom(st0, jobs[..k], fetch, deliver);
      EvaluateAllContinues(st0, RunJobs(st0, jobs[..k], fetch, deliver), jobs[k], Head(fetch(k)), deliver);
    }
  }

  /**
   * Global dedup over a cycle: the notifications already made are kept, the
   * seen set only grows and grows by exactly the ids that a delivery marked,
   * no notification is for an id seen at the start of the cycle, and after an
   * id is marked no later notification of the cycle (for any user's search)
   * is for that id.
   */
  lemma {:induction false} CycleDedup(st0: CycleState, jobs: seq<Job>, fetch: nat -> seq<Item>, deliver: nat -> Delivery)
    ensures var r := RunJobs(st0, jobs, fetch, deliver);
      var added := if |st0.sent| <= |r.sent| then r.sent[|st0.sent|..] else [];
      && |st0.sent| <= |r.sent|
      && r.sent[..|st0.sent|] == st0.sent
      && st0.seen <= r.seen
      && r.seen == st0.seen + MarkedIds(added)
      && (forall j :: 0 <= j < |added| ==> added[j].deal.id !in st0.seen)
      && (forall i, j :: 0 <= i < j < |added| && MarksSeen(added[i].outcome) ==>
            added[i].deal.id != added[j].deal.id)
  {
    RunJobsContinuesFrom(st0, jobs, fetch, deliver);
    var r := RunJobs(st0, jobs, fetch, deliver);
    var added := r.sent[|st0.sent|..];
    forall i, j | 0 <= i < j < |added| && MarksSeen(added[i].outcome)
      ensures added[i].deal.id != added[j].deal.id
    {
      assert added[..j][i] == added[i];
      assert added[i].deal.id in MarkedIds(added[..j]);
    }
  }

  /** Every item evaluation adds at most one notification. */
  lemma {:induction false} EvaluateAllBound(st: CycleState, job: Job, items: seq<Item>, deliver: nat -> Delivery)
    ensures |EvaluateAll(st, job, items, deliver).sent| <= |st.sent| + |items|
  {
    if items != [] {
      EvaluateAllBound(st, job, items[..|items| - 1], deliver);
    }
  }

  /** A cycle over n searches makes at most 3n delivery attempts. */
  lemma {:induction false} CycleAttemptBound(st: CycleState, jobs: seq<Job>, fetch: nat -> seq<Item>, deliver: nat -> Delivery)
    ensures |RunJobs(st, jobs, fetch, deliver).sent| <= |st.sent| + EvaluatedPerSearch * |jobs|
  {
    if jobs != [] {
      var k := |jobs| - 1;
      CycleAttemptBound(st, jobs[..k], fetch, deliver);
      EvaluateAllBound(RunJobs(st, jobs[..k], fetch, deliver), jobs[k], Head(fetch(k)), deliver);
    }
  }

  /**
   * Only the first three items of each catalog response matter: two sources
   * that agree on them give the same cycle, whatever else they return.
   */
  lemma {:induction false} OnlyHeadsEvaluated(st: CycleState, jobs: seq<Job>, fetch: nat -> seq<Item>, other: nat -> seq<Item>, deliver: nat -> Delivery)
    requires forall k :: 0 <= k < |jobs| ==> Head(fetch(k)) == Head(other(k))
    ensures RunJobs(st, jobs, fetch, deliver) == RunJobs(st, jobs, other, deliver)
  {
    if jobs != [] {
      OnlyHeadsEvaluated(st, jobs[..|jobs| - 1], fetch, other, deliver);
    }
  }

  /** Notification `n` is for one of the first items returned for `job`, sent to the job's owner. */
  ghost predicate Answers(n: Notification, job: Job, items: seq<Item>) {
    n.user == job.0 && exists i :: 0 <= i < |items| && i < EvaluatedPerSearch && DealFor(n.deal, items[i], job.1)
  }

  /** Notification `n` answers one of `jobs`, the j-th getting the response `fetch(j)`. */
  ghost predicate AnswersSome(n: Notification, jobs: seq<Job>, fetch: nat -> seq<Item>) {
    exists j :: 0 <= j < |jobs| && Answers(n, jobs[j], fetch(j))
  }

  /** Every notification from position `from` on answers one of `jobs`. */
  ghost predicate AllAnswer(sent: seq<Notification>, from: nat, jobs: seq<Job>, fetch: nat -> seq<Item>) {
    forall k :: from <= k < |sent| ==> AnswersSome(sent[k], jobs, fetch)
  }

  lemma {:induction false} EvaluateAllSound(st: CycleState, job: Job, items: seq<Item>, deliver: nat -> Delivery)
    ensures var r := EvaluateAll(st, job, items, deliver);
      && |st.sent| <= |r.sent| && r.sent[..|st.sent|] == st.sent
      && forall k :: |st.sent| <= k < |r.sent| ==>
           r.sent[k].user == job.0 && exists i :: 0 <= i < |items| && DealFor(r.sent[k].deal, items[i], job.1)
  {
    if items != [] {
      var last := |items| - 1;
      var mid := EvaluateAll(st, job, items[..last], deliver);
      EvaluateAllSound(st, job, items[..last], deliver);
      var r := Evaluate(mid, job, items[last], deliver);
      forall k | |st.sent| <= k < |r.sent|
        ensures r.sent[k].user == job.0 && exists i :: 0 <= i < |items| && DealFor(r.sent[k].deal, items[i], job.1)
      {
        if k < |mid.sent| {
          assert r.sent[k] == mid.sent[k];
          var i :| 0 <= i < |items[..last]| && DealFor(mid.sent[k].deal, items[..last][i], job.1);
          assert items[..last][i] == items[i];
        } else {
          assert DealFor(r.sent[k].deal, items[last], job.1);
        }
      }
    }
  }

  /**
   * Every notification of a cycle goes to the owner of a registered search,
   * for one of the first three items returned for that search, with the
   * fields and the profit rule of `check_profit`.
   */
  lemma {:induction false} CycleSound(st: CycleState, jobs: seq<Job>, fetch: nat -> seq<Item>, deliver: nat -> Delivery)
    ensures AllAnswer(RunJobs(st, jobs, fetch, deliver).sent, |st.sent|, jobs, fetch)
  {
    if jobs != [] {
      var last := |jobs| - 1;
      var mid := RunJobs(st, jobs[..last], fetch, deliver);
      CycleSound(st, jobs[..last], fetch, deliver);
      RunJobsContinuesFrom(st, jobs[..last], fetch, deliver);
      EvaluateAllSound(mid, jobs[last], Head(fetch(last)), deliver);
      var r := RunJobs(st, jobs, fetch, deliver);
      forall k | |st.sent| <= k < |r.sent|
        ensures AnswersSome(r.sent[k], jobs, fetch)
      {
        if k < |mid.sent| {
          assert r.sent[k] == mid.sent[k];
          assert AnswersSome(mid.sent[k], jobs[..last], fetch);
          var j :| 0 <= j < |jobs[..last]| && Answers(mid.sent[k], jobs[..last][j], fetch(j));
          assert jobs[..last][j] == jobs[j];
        } else {
          var items := Head(fetch(last));
          var i :| 0 <= i < |items| && DealFor(r.sent[k].deal, items[i], jobs[last].1);
          assert items[i] == fetch(last)[i];
          assert Answers(r.sent[k], jobs[last], fetch(last));
        }
      }
    }
  }

  /** Evaluating more items of a response only appends notifications. */
  lemma {:induction false} EvaluateAllPrefix(st: CycleState, job: Job, items: seq<Item>, m: nat, deliver: nat -> Delivery)
    requires m <= |items|
    ensures EvaluateAll(st, job, items[..m], deliver).sent <= EvaluateAll(st, job, items, deliver).sent
  {
    if m < |items| {
      var last := |items| - 1;
      assert items[..last][..m] == items[..m];
      EvaluateAllPrefix(st, job, items[..last], m, deliver);
      EvaluateAllSound(EvaluateAll(st, job, items[..last], deliver), job, [items[last]], deliver);
    } else {
      assert items[..m] == items;
    }
  }

  /** Scanning more searches only appends notifications. */
  lemma {:induction false} RunJobsPrefix(st0: CycleState, jobs: seq<Job>, m: nat, fetch: nat -> seq<Item>,
                                         deliver: nat -> Delivery)
    requires m <= |jobs|
    ensures RunJobs(st0, jobs[..m], fetch, deliver).sent <= RunJobs(st0, jobs, fetch, deliver).sent
  {
    if m < |jobs| {
      var last := |jobs| - 1;
      assert jobs[..last][..m] == jobs[..m];
      RunJobsPrefix(st0, jobs[..last], m, fetch, deliver);
      EvaluateAllSound(RunJobs(st0, jobs[..last], fetch, deliver), jobs[last], Head(fetch(last)), deliver);
    } else {
      assert jobs[..m] == jobs;
    }
  }

  lemma EvaluateAllStep(st: CycleState, job: Job, items: seq<Item>, i: nat, deliver: nat -> Delivery)
    requires i < |items|
    ensures EvaluateAll(st, job, items[..i + 1], deliver) == Evaluate(EvaluateAll(st, job, items[..i], deliver), job, items[i], deliver)
  {
    assert items[..i + 1][..i] == items[..i];
  }

  lemma RunJobsStep(st0: CycleState, jobs: seq<Job>, k: nat, fetch: nat -> seq<Item>, deliver: nat -> Delivery)
    requires k < |jobs|
    ensures RunJobs(st0, jobs[..k + 1], fetch, deliver) ==
      EvaluateAll(RunJobs(st0, jobs[..k], fetch, deliver), jobs[k], Head(fetch(k)), deliver)
  {
    assert jobs[..k + 1][..k] == jobs[..k];
  }

  /**
   * One worthwhile item, evaluated in state `at` of a cycle that started in
   * `st0`, with `rest` any run of notifications that continues the
   * evaluation: the id was seen at the start, or a notification made since
   * the start and before `at` marked it, or the next notification carries
   * its deal to the job's owner.
   */
  lemma EvaluateOutcome(st0: CycleState, at: CycleState, job: Job, item: Item, deliver: nat -> Delivery,
                        rest: seq<Notification>)
    requires Continues(st0, at) && WorthBuying(item, job.1)
    requires Evaluate(at, job, item, deliver).sent <= rest
    ensures at.sent <= rest
    ensures
      || item.id in st0.seen
      || (exists j :: |st0.sent| <= j < |at.sent| && rest[j].deal.id == item.id && MarksSeen(rest[j].outcome))
      || (|at.sent| < |rest| && rest[|at.sent|].user == job.0 && DealFor(rest[|at.sent|].deal, item, job.1))
  {
    var after := Evaluate(at, job, item, deliver);
    assert at.sent <= after.sent;
    if item.id in at.seen {
      if item.id !in st0.seen {
        var ns := at.sent[|st0.sent|..];
        var n :| 0 <= n < |ns| && MarksSeen(ns[n].outcome) && ns[n].deal.id == item.id;
        assert rest[|st0.sent| + n] == ns[n];
      }
    } else {
      assert after.sent[|at.sent|] == rest[|at.sent|];
    }
  }

  /**
   * No deal is lost. Let `at` be the cycle's state when the i-th of the first
   * three items returned for the k-th search is evaluated, and `r` the state
   * after the cycle. If the item passes the price and profit rule, then its
   * id was seen before the cycle, or a notification made before `at` (for any
   * user's search) marked that id seen, or the very next notification goes
   * to the search's owner with the deal `check_profit` builds for the item.
   */
  lemma CycleComplete(st0: CycleState, jobs: seq<Job>, fetch: nat -> seq<Item>, deliver: nat -> Delivery,
                      k: nat, i: nat, item: Item, at: CycleState, r: CycleState)
    requires k < |jobs| && i < |Head(fetch(k))| && item == Head(fetch(k))[i] && WorthBuying(item, jobs[k].1)
    requires at == EvaluateAll(RunJobs(st0, jobs[..k], fetch, deliver), jobs[k], Head(fetch(k))[..i], deliver)
    requires r == RunJobs(st0, jobs, fetch, deliver)
    ensures at.sent <= r.sent
    ensures
      || item.id in st0.seen
      || (exists j :: |st0.sent| <= j < |at.sent| && r.sent[j].deal.id == item.id && MarksSeen(r.sent[j].outcome))
      || (|at.sent| < |r.sent| && r.sent[|at.sent|].user == jobs[k].0 && DealFor(r.sent[|at.sent|].deal, item, jobs[k].1))
  {
    var items := Head(fetch(k));
    var st := RunJobs(st0, jobs[..k], fetch, deliver);
    RunJobsContinuesFrom(st0, jobs[..k], fetch, deliver);
    EvaluateAllContinues(st0, st, jobs[k], items[..i], deliver);
    EvaluateAllStep(st, jobs[k], items, i, deliver);
    EvaluateAllPrefix(st, jobs[k], items, i + 1, deliver);
    BlockPrefix(st0, jobs, k, fetch, deliver);
    var after := Evaluate(at, jobs[k], item, deliver);
    var whole := EvaluateAll(st, jobs[k], items, deliver);
    assert after.sent <= whole.sent;
    PrefixTrans(after.sent, whole.sent, r.sent);
    EvaluateOutcome(st0, at, jobs[k], item, deliver, r.sent);
  }

  /** The notifications up to the end of the k-th search's block are a prefix of the cycle's. */
  lemma BlockPrefix(st0: CycleState, jobs: seq<Job>, k: nat, fetch: nat -> seq<Item>, deliver: nat -> Delivery)
    requires k < |jobs|
    ensures EvaluateAll(RunJobs(st0, jobs[..k], fetch, deliver), jobs[k], Head(fetch(k)), deliver).sent
         <= RunJobs(st0, jobs, fetch, deliver).sent
  {
    RunJobsStep(st0, jobs, k, fetch, deliver);
    RunJobsPrefix(st0, jobs, k + 1, fetch, deliver);
  }

  lemma PrefixTrans<T>(a: seq<T>, b: seq<T>, c: seq<T>)
    requires a <= b && b <= c
    ensures a <= c
  {
    assert c[..|b|][..|a|] == c[..|a|];
  }

  /** The `/stats` search total is the number of catalog requests a cycle makes. */
  lemma {:induction false} RequestsPerCycle(entries: Entries)
    ensures |Jobs(entries)| == SearchCount(entries)
  {
    if entries != [] {
      RequestsPerCycle(entries[..|entries| - 1]);
    }
  }

  /**
   * Registry iteration order: the searches of earlier users come first, and
   * each user's searches form one block in insertion order.
   */
  lemma {:induction false} JobsAppend(a: Entries, b: Entries)
    ensures Jobs(a + b) == Jobs(a) + Jobs(b)
  {
    if b != [] {
      var last := |b| - 1;
      assert (a + b)[..|a + b| - 1] == a + b[..last];
      JobsAppend(a, b[..last]);
    } else {
      assert a + b == a;
    }
  }

  /** Scanning one more search of the user extends the run by that search's response. */
  lemma NextSearch(start: CycleState, done: seq<Job>, user: UserId, searches: UserSearches, s: nat,
                   fetch: nat -> seq<Item>, deliver: nat -> Delivery)
    requires s < |searches|
    ensures var jobs := done + JobsOf(user, searches[..s]);
      var next := done + JobsOf(user, searches[..s + 1]);
      && next == jobs + [(user, searches[s].1)]
      && |jobs| == |done| + s
      && Values(next) == Values(jobs) + [searches[s].1]
      && RunJobs(start, next, fetch, deliver) ==
         EvaluateAll(RunJobs(start, jobs, fetch, deliver), (user, searches[s].1), Head(fetch(|jobs|)), deliver)
  {
  }

  /** The bot object: its dedup set and its cycle counter. */
  class VintedBot {
    var seenItems: set<ItemId>
    var scanCount: nat

    constructor ()
      ensures seenItems == {} && scanCount == 0
    {
      seenItems := {};
      scanCount := 0;
    }

    /**
     * `send_notification(deal, user_id)`, reduced to its effect on the bot:
     * the id is added when the delivery ends normally (direct message, falsy
     * user, fallback channel, or no channel to fall back to) and kept out
     * when an exception reaches the outer handler. Ids are never removed.
     */
    method SendNotification(deal: Deal, outcome: Delivery)
      modifies this
      ensures seenItems == if MarksSeen(outcome) then old(seenItems) + {deal.id} else old(seenItems)
      ensures scanCount == old(scanCount)
    {
      if outcome.LookupFailed? {
        return;  // the lookup raised: the outer handler skips the write-back
      }
      if !outcome.UserMissing? && !outcome.DirectSent? {
        // the direct message raised: the first text channel is tried instead
        if outcome.FallbackFailed? {
          return;
        }
      }
      seenItems := seenItems + {deal.id};
    }

    /**
     * One run of `vinted_scanner`. With no user in the registry the cycle is
     * skipped and nothing changes. Otherwise every registered search is sent
     * to the catalog once, in registry order, the first three items of each
     * response are evaluated against the seen set as it stands at that moment,
     * every deal is handed to `send_notification`, and the cycle counter goes
     * up by one.
     */
    method ScanCycle(registry: SearchRegistry, fetch: nat -> seq<Item>, deliver: nat -> Delivery)
      returns (skipped: bool, queried: seq<SearchSpec>, sent: seq<Notification>)
      modifies this
      ensures skipped <==> registry.entries == []
      ensures skipped ==>
        seenItems == old(seenItems) && scanCount == old(scanCount) && queried == [] && sent == []
      ensures !skipped ==> scanCount == old(scanCount) + 1
      ensures !skipped ==> queried == Values(Jobs(registry.entries))
      ensures !skipped ==>
        CycleState(seenItems, sent) ==
        RunJobs(CycleState(old(seenItems), []), Jobs(registry.entries), fetch, deliver)
    {
      var entries := registry.entries;
      if entries == [] {
        return true, [], [];
      }
      skipped, queried, sent := false, [], [];
      ghost var start := CycleState(seenItems, []);
      var u := 0;
      while u < |entries|
        invariant 0 <= u <= |entries|
        invariant scanCount == old(scanCount)
        invariant queried == Values(Jobs(entries[..u]))
        invariant CycleState(seenItems, sent) == RunJobs(start, Jobs(entries[..u]), fetch, deliver)
      {
        assert entries[..u + 1][..u] == entries[..u];
        queried, sent := ScanUser(start, Jobs(entries[..u]), entries[u].0, entries[u].1, fetch, deliver, queried, sent);
        u := u + 1;
      }
      assert entries[..u] == entries;
      scanCount := scanCount + 1;
    }

    /**
     * `for search_config in searches.values()`: one user's searches, in
     * insertion order, continuing the cycle after the searches `done`.
     */
    method ScanUser(ghost start: CycleState, ghost done: seq<Job>, user: UserId, searches: UserSearches,
                    fetch: nat -> seq<Item>, deliver: nat -> Delivery, queried0: seq<SearchSpec>, sent0: seq<Notification>)
      returns (queried: seq<SearchSpec>, sent: seq<Notification>)
      requires queried0 == Values(done)
      requires CycleState(seenItems, sent0) == RunJobs(start, done, fetch, deliver)
      modifies this
      ensures scanCount == old(scanCount)
      ensures queried == Values(done + JobsOf(user, searches))
      ensures CycleState(seenItems, sent) == RunJobs(start, done + JobsOf(user, searches), fetch, deliver)
    {
      queried, sent := queried0, sent0;
      var s := 0;
      assert done + JobsOf(user, searches[..0]) == done;
      while s < |searches|
        invariant 0 <= s <= |searches|
        invariant scanCount == old(scanCount)
        invariant queried == Values(done + JobsOf(user, searches[..s]))
        invariant CycleState(seenItems, sent) == RunJobs(start, done + JobsOf(user, searches[..s]), fetch, deliver)
      {
        var spec := searches[s].1;
        NextSearch(start, done, user, searches, s, fetch, deliver);
        var items := fetch(|queried|);
        queried := queried + [spec];
        sent := EvaluateResponse(user, spec, items, deliver, sent);
        s := s + 1;
      }
      assert searches[..s] == searches;
    }

    /** `for item in items[:3]`: evaluate the head of one response, notifying each deal. */
    method EvaluateResponse(user: UserId, spec: SearchSpec, items: seq<Item>, deliver: nat -> Delivery,
                            sent0: seq<Notification>)
      returns (sent: seq<Notification>)
      modifies this
      ensures scanCount == old(scanCount)
      ensures CycleState(seenItems, sent) ==
        EvaluateAll(CycleState(old(seenItems), sent0), (user, spec), Head(items), deliver)
    {
      var batch := Head(items);
      ghost var before := CycleState(seenItems, sent0);
      sent := sent0;
      var i := 0;
      while i < |batch|
        invariant 0 <= i <= |batch|
        invariant scanCount == old(scanCount)
        invariant CycleState(seenItems, sent) == EvaluateAll(before, (user, spec), batch[..i], deliver)
      {
        assert batch[..i + 1][..i] == batch[..i];
        var deal := CheckProfit(batch[i], spec, seenItems);
        if deal.Some? {
          var outcome := deliver(|sent|);
          SendNotification(deal.value, outcome);
          sent := sent + [Notification(user, deal.value, outcome)];
        }
        i := i + 1;
      }
      assert batch[..i] == batch;
    }

    /** `/stats`: users, registered searches, completed cycles and seen ids. */
    method Stats(registry: SearchRegistry) returns (users: nat, searches: nat, scans: nat, articles: nat)
      ensures users == |registry.entries|
      ensures searches == SearchCount(registry.entries) == |Jobs(registry.entries)|
      ensures scans == scanCount && articles == |seenItems|
    {
      searches := registry.TotalSearches();
      RequestsPerCycle(registry.entries);
      users, scans, articles := |registry.entries|, scanCount, |seenItems|;
    }
  }
}
