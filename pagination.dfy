/** Guild member listing as `api/member.go` writes it: `membersAfter` fetches
    one page, `MembersAfter` pages through the guild 1000 members at a time,
    `Members` starts from the lowest cursor.

    The request executor is a parameter: a `PageSource` answers the query of
    the n-th request (counted from 0) with a page of members or an error, so
    every property below holds whatever the server does, unless a lemma says
    what it assumes of it. */
module Pagination {
  import opened Discord

  /** `hardLimit`: the most members the list-guild-members endpoint returns. */
  const HardLimit: int := 1000

  /** The query string of one list-guild-members request. */
  datatype MembersQuery = MembersQuery(guildID: Snowflake, after: Snowflake, limit: Uint)

  /** The request executor, seen from the paginator: the index of the request
      and the query sent give the decoded page or the error. */
  type PageSource = (nat, MembersQuery) -> Result<seq<Member>>

  /** How a pagination run ended. `Stalled` has no counterpart in the source:
      it says that the run had issued its whole fuel of requests in unlimited
      mode without returning. */
  datatype Status = Finished | Failed(error: Error) | Stalled

  /** What a run returns (`members`, and `status` for the error) together with
      every query it sent, in order. */
  datatype Outcome = Outcome(members: seq<Member>, status: Status, sent: seq<MembersQuery>)

  // ---------------------------------------------------------------------
  // One page: membersAfter
  // ---------------------------------------------------------------------

  /** The `limit` that `membersAfter` puts in the query: 0 stays 0 (the
      server's default), anything above the endpoint's maximum becomes 1000. */
  function PageLimit(limit: Uint): (r: Uint)
    ensures r <= HardLimit
    ensures r == Min(limit, HardLimit)
    ensures r == 0 <==> limit == 0
  {
    if limit == 0 then 0
    else if limit > HardLimit then HardLimit
    else limit
  }

  // ---------------------------------------------------------------------
  // The loop of MembersAfter, as a function of its state
  // ---------------------------------------------------------------------

  /** The page size one iteration asks for: 1000, lowered to what is left of
      a bounded limit. */
  function FetchSize(remaining: Uint): (n: Uint)
    ensures 1 <= n <= HardLimit
    ensures remaining > 0 ==> n <= remaining
  {
    if remaining > 0 && HardLimit > remaining then remaining else HardLimit
  }

  /** The limit left after an iteration that asked for `fetch` members: a
      bounded limit runs out exactly when this request takes the last of it,
      and an unlimited one stays 0. */
  function Rest(remaining: Uint, fetch: Uint): (r: Uint)
    requires remaining > 0 ==> fetch <= remaining
    ensures r <= remaining
    ensures remaining > 0 ==> r + fetch == remaining
    ensures r == 0 <==> remaining == 0 || remaining == fetch
  {
    if remaining > 0 then remaining - fetch else remaining
  }

  /** The loop of `MembersAfter` from the state (`remaining`, `after`,
      `members`, requests `sent` so far). `unlimited` is fixed by the call;
      `fuel` bounds the iterations of an unlimited run only, so only an
      unlimited run can end `Stalled`. */
  function Loop(source: PageSource, guildID: Snowflake, unlimited: bool, remaining: Uint,
                after: Snowflake, members: seq<Member>, sent: seq<MembersQuery>, fuel: nat): (o: Outcome)
    ensures o.status == Stalled ==> unlimited
    decreases if unlimited then fuel else remaining
  {
    if !(remaining > 0 || unlimited) then Outcome(members, Finished, sent)
    else if unlimited && fuel == 0 then Outcome(members, Stalled, sent)
    else
      var fetch := FetchSize(remaining);
      var query := MembersQuery(guildID, after, PageLimit(fetch));
      match source(|sent|, query)
      case Failure(e) => Outcome(members, Failed(e), sent + [query])
      case Success(page) =>
        var gathered := members + page;
        if |gathered| < HardLimit then Outcome(gathered, Finished, sent + [query])
        else
          Loop(source, guildID, unlimited, Rest(remaining, fetch), gathered[HardLimit - 1].user.id,
               gathered, sent + [query], if unlimited then fuel - 1 else fuel)
  }

  /** One iteration of the loop that receives `page` and goes on. */
  lemma LoopStep(source: PageSource, guildID: Snowflake, unlimited: bool, remaining: Uint,
                 after: Snowflake, members: seq<Member>, sent: seq<MembersQuery>, fuel: nat, page: seq<Member>)
    requires remaining > 0 || unlimited
    requires unlimited ==> fuel > 0
    requires source(|sent|, MembersQuery(guildID, after, PageLimit(FetchSize(remaining)))) == Success(page)
    requires |members + page| >= HardLimit
    ensures Loop(source, guildID, unlimited, remaining, after, members, sent, fuel)
         == Loop(source, guildID, unlimited, Rest(remaining, FetchSize(remaining)),
                 (members + page)[HardLimit - 1].user.id, members + page,
                 sent + [MembersQuery(guildID, after, PageLimit(FetchSize(remaining)))],
                 if unlimited then fuel - 1 else fuel)
  {
  }

  /** One iteration of the loop whose request fails, which ends the run. */
  lemma LoopFailure(source: PageSource, guildID: Snowflake, unlimited: bool, remaining: Uint,
                    after: Snowflake, members: seq<Member>, sent: seq<MembersQuery>, fuel: nat, e: Error)
    requires remaining > 0 || unlimited
    requires unlimited ==> fuel > 0
    requires source(|sent|, MembersQuery(guildID, after, PageLimit(FetchSize(remaining)))) == Failure(e)
    ensures Loop(source, guildID, unlimited, remaining, after, members, sent, fuel)
         == Outcome(members, Failed(e), sent + [MembersQuery(guildID, after, PageLimit(FetchSize(remaining)))])
  {
  }

  /** One iteration of the loop that leaves fewer than 1000 members gathered,
      which ends the run. */
  lemma LoopLast(source: PageSource, guildID: Snowflake, unlimited: bool, remaining: Uint,
                 after: Snowflake, members: seq<Member>, sent: seq<MembersQuery>, fuel: nat, page: seq<Member>)
    requires remaining > 0 || unlimited
    requires unlimited ==> fuel > 0
    requires source(|sent|, MembersQuery(guildID, after, PageLimit(FetchSize(remaining)))) == Success(page)
    requires |members + page| < HardLimit
    ensures Loop(source, guildID, unlimited, remaining, after, members, sent, fuel)
         == Outcome(members + page, Finished, sent + [MembersQuery(guildID, after, PageLimit(FetchSize(remaining)))])
  {
  }

  /** `MembersAfter(guildID, after, limit)`, with `limit == 0` meaning
      unlimited: only an unlimited run can end `Stalled`. */
  function Paginate(source: PageSource, guildID: Snowflake, after: Snowflake, limit: Uint, fuel: nat): (o: Outcome)
    ensures o.status == Stalled ==> limit == 0
  {
    Loop(source, guildID, limit == 0, limit, after, [], [], fuel)
  }

  /** The loop of `MembersAfter`, step for step. */
  method MembersAfter(source: PageSource, guildID: Snowflake, after: Snowflake, limit: Uint, fuel: nat)
    returns (members: seq<Member>, status: Status, sent: seq<MembersQuery>)
    ensures Outcome(members, status, sent) == Paginate(source, guildID, after, limit, fuel)
  {
    members, status, sent := [], Finished, [];
    var unlimited := limit == 0;
    var remaining: Uint, cursor: Snowflake, budget: nat := limit, after, fuel;
    while remaining > 0 || unlimited
      invariant Loop(source, guildID, unlimited, remaining, cursor, members, sent, budget)
             == Paginate(source, guildID, after, limit, fuel)
      decreases if unlimited then budget else remaining
    {
      if unlimited && budget == 0 {
        status := Stalled;
        return;
      }
      var fetch: Uint := HardLimit;
      if remaining > 0 {
        if fetch > remaining {
          fetch := remaining;
        }
        remaining := remaining - fetch;
      }
      var query := MembersQuery(guildID, cursor, PageLimit(fetch));
      var page := source(|sent|, query);
      sent := sent + [query];
      if page.Failure? {
        status := Failed(page.error);
        return;
      }
      members := members + page.value;
      if |members| < HardLimit {
        break;
      }
      cursor := members[HardLimit - 1].user.id;
      if unlimited {
        budget := budget - 1;
      }
    }
  }

  /** `Members`: `MembersAfter` from cursor 0. */
  method Members(source: PageSource, guildID: Snowflake, limit: Uint, fuel: nat)
    returns (members: seq<Member>, status: Status, sent: seq<MembersQuery>)
    ensures Outcome(members, status, sent) == Paginate(source, guildID, 0, limit, fuel)
    ensures |sent| > 0 ==> sent[0].after == 0
  {
    members, status, sent := MembersAfter(source, guildID, 0, limit, fuel);
    CursorPinned(source, guildID, 0, limit, fuel);
  }

  // ---------------------------------------------------------------------
  // Vocabulary for the properties
  // ---------------------------------------------------------------------

  /** The page returned for request `k` (empty if that request failed). */
  function PageAt(source: PageSource, sent: seq<MembersQuery>, k: nat): seq<Member>
    requires k < |sent|
  {
    match source(k, sent[k])
    case Success(page) => page
    case Failure(_) => []
  }

  /** The pages of the first `n` requests, concatenated in request order. */
  function Gathered(source: PageSource, sent: seq<MembersQuery>, n: nat): seq<Member>
    requires n <= |sent|
  {
    if n == 0 then [] else Gathered(source, sent, n - 1) + PageAt(source, sent, n - 1)
  }

  /** The first `n` requests all succeeded. */
  predicate Answered(source: PageSource, sent: seq<MembersQuery>, n: nat)
    requires n <= |sent|
  {
    forall k :: 0 <= k < n ==> source(k, sent[k]).Success?
  }

  /** The source never reports an error. */
  ghost predicate NeverFails(source: PageSource)
  {
    forall call: nat, q: MembersQuery :: source(call, q).Success?
  }

  /** The source never returns more members than a query asks for. */
  ghost predicate HonorsLimit(source: PageSource)
  {
    forall call: nat, q: MembersQuery :: source(call, q).Success? ==> |source(call, q).value| <= q.limit
  }

  /** The page size of the request `k` iterations after the state with
      `remaining` left. */
  function SizeAt(unlimited: bool, remaining: Uint, k: nat): int
  {
    if unlimited then HardLimit else Min(HardLimit, remaining - HardLimit * k)
  }

  // ---------------------------------------------------------------------
  // Properties of the loop
  // ---------------------------------------------------------------------

  /** A run only appends: to the members gathered and to the requests sent. */
  lemma {:induction false} LoopExtends(source: PageSource, guildID: Snowflake, unlimited: bool, remaining: Uint,
                                       after: Snowflake, members: seq<Member>, sent: seq<MembersQuery>, fuel: nat)
    ensures var o := Loop(source, guildID, unlimited, remaining, after, members, sent, fuel);
            members <= o.members && sent <= o.sent
    decreases if unlimited then fuel else remaining
  {
    if !(remaining > 0 || unlimited) {
    } else if unlimited && fuel == 0 {
    } else {
      var fetch := FetchSize(remaining);
      var query := MembersQuery(guildID, after, PageLimit(fetch));
      match source(|sent|, query)
      case Failure(e) =>
      case Success(page) =>
        var gathered := members + page;
        if |gathered| >= HardLimit {
          LoopExtends(source, guildID, unlimited, Rest(remaining, fetch), gathered[HardLimit - 1].user.id,
                      gathered, sent + [query], if unlimited then fuel - 1 else fuel);
        }
    }
  }

  /** The requests of `sent` from index `from` on were sent by a loop that
      had `remaining` left at the first of them: the k-th of them asked for
      min(1000, what was left) members, with more than 1000 * k left in a
      bounded run. */
  predicate SizedFrom(sent: seq<MembersQuery>, from: nat, unlimited: bool, remaining: Uint)
  {
    forall k :: from <= k < |sent| ==>
      sent[k].limit == SizeAt(unlimited, remaining, k - from)
      && (!unlimited ==> HardLimit * (k - from) < remaining)
  }

  /** A request for `FetchSize(remaining)` members, followed by requests
      sized from what is then left, makes a log sized from `remaining`. */
  lemma SizedStep(sent: seq<MembersQuery>, query: MembersQuery, log: seq<MembersQuery>, unlimited: bool, remaining: Uint)
    requires unlimited ==> remaining == 0
    requires remaining > 0 || unlimited
    requires query.limit == PageLimit(FetchSize(remaining))
    requires sent + [query] <= log
    requires SizedFrom(log, |sent| + 1, unlimited, Rest(remaining, FetchSize(remaining)))
    ensures SizedFrom(log, |sent|, unlimited, remaining)
  {
    var fetch := FetchSize(remaining);
    var rest := Rest(remaining, fetch);
    forall k | |sent| <= k < |log|
      ensures log[k].limit == SizeAt(unlimited, remaining, k - |sent|)
      ensures !unlimited ==> HardLimit * (k - |sent|) < remaining
    {
      if k == |sent| {
        assert log[k] == (sent + [query])[k] == query;
      } else {
        assert log[k].limit == SizeAt(unlimited, rest, k - (|sent| + 1));
        if !unlimited {
          assert HardLimit * (k - (|sent| + 1)) < rest;
          assert fetch == HardLimit;
        }
      }
    }
  }

  /** Each iteration asks for min(1000, remaining) members and lowers the
      remaining limit by exactly that, so the k-th request of a bounded run
      finds more than 1000 * k members still wanted; only an unlimited run can
      stall. */
  lemma {:induction false} LoopRequestSizes(source: PageSource, guildID: Snowflake, unlimited: bool, remaining: Uint,
                                            after: Snowflake, members: seq<Member>, sent: seq<MembersQuery>, fuel: nat)
    requires unlimited ==> remaining == 0
    ensures var o := Loop(source, guildID, unlimited, remaining, after, members, sent, fuel);
            && sent <= o.sent
            && (o.status.Stalled? ==> unlimited)
            && SizedFrom(o.sent, |sent|, unlimited, remaining)
    decreases if unlimited then fuel else remaining
  {
    if !(remaining > 0 || unlimited) {
    } else if unlimited && fuel == 0 {
    } else {
      var fetch := FetchSize(remaining);
      var query := MembersQuery(guildID, after, PageLimit(fetch));
      var sent' := sent + [query];
      var o := Loop(source, guildID, unlimited, remaining, after, members, sent, fuel);
      match source(|sent|, query)
      case Failure(e) =>
        assert o.sent == sent';
        SizedStep(sent, query, sent', unlimited, remaining);
      case Success(page) =>
        var gathered := members + page;
        if |gathered| >= HardLimit {
          var rest := Rest(remaining, fetch);
          var next := gathered[HardLimit - 1].user.id;
          var fuel' := if unlimited then fuel - 1 else fuel;
          LoopRequestSizes(source, guildID, unlimited, rest, next, gathered, sent', fuel');
          assert o == Loop(source, guildID, unlimited, rest, next, gathered, sent', fuel');
          SizedStep(sent, query, o.sent, unlimited, remaining);
        } else {
          assert o.sent == sent';
          SizedStep(sent, query, sent', unlimited, remaining);
        }
    }
  }

  /** Bounded runs request min(1000, limit - 1000 * k) members in the k-th
      request, unlimited runs always 1000; so every query's limit is between 1
      and 1000 (the clamp of `membersAfter` never fires), a bounded run makes
      at most ceil(limit / 1000) requests and always returns. */
  lemma RequestSizes(source: PageSource, guildID: Snowflake, after: Snowflake, limit: Uint, fuel: nat)
    ensures var o := Paginate(source, guildID, after, limit, fuel);
            && (forall k :: 0 <= k < |o.sent| ==>
                  o.sent[k].limit == (if limit == 0 then HardLimit else Min(HardLimit, limit - HardLimit * k))
                  && 1 <= o.sent[k].limit <= HardLimit)
            && (limit > 0 ==> !o.status.Stalled? && |o.sent| <= (limit + HardLimit - 1) / HardLimit)
  {
    LoopRequestSizes(source, guildID, limit == 0, limit, after, [], [], fuel);
    var o := Paginate(source, guildID, after, limit, fuel);
    assert SizedFrom(o.sent, 0, limit == 0, limit);
    if limit > 0 && |o.sent| > 0 {
      var n := |o.sent|;
      assert o.sent[n - 1].limit == Min(HardLimit, limit - HardLimit * (n - 1));
      assert HardLimit * (n - 1) < limit;
      assert HardLimit * (n - 1) <= limit - 1;
      assert n - 1 <= (limit - 1) / HardLimit;
    }
  }

  /** With a server that never over-delivers, a run gathers at most what is
      left of its limit. */
  lemma {:induction false} LoopWithinLimit(source: PageSource, guildID: Snowflake, remaining: Uint,
                                           after: Snowflake, members: seq<Member>, sent: seq<MembersQuery>, fuel: nat)
    requires HonorsLimit(source)
    ensures |Loop(source, guildID, false, remaining, after, members, sent, fuel).members| <= |members| + remaining
    decreases remaining
  {
    if remaining > 0 {
      var fetch := FetchSize(remaining);
      var query := MembersQuery(guildID, after, PageLimit(fetch));
      match source(|sent|, query)
      case Failure(e) =>
      case Success(page) =>
        assert |page| <= fetch;
        var gathered := members + page;
        if |gathered| >= HardLimit {
          LoopWithinLimit(source, guildID, remaining - fetch, gathered[HardLimit - 1].user.id,
                          gathered, sent + [query], fuel);
        }
    }
  }

  /** A bounded `MembersAfter` returns at most `limit` members, provided the
      server returns at most the requested count per page. */
  lemma WithinLimit(source: PageSource, guildID: Snowflake, after: Snowflake, limit: Uint, fuel: nat)
    requires HonorsLimit(source)
    requires limit > 0
    ensures |Paginate(source, guildID, after, limit, fuel).members| <= limit
  {
    LoopWithinLimit(source, guildID, limit, after, [], [], fuel);
  }

  /** Appending the answer to one more successful request keeps the members
      equal to the concatenated pages. */
  lemma GatheredStep(source: PageSource, sent: seq<MembersQuery>, query: MembersQuery, page: seq<Member>)
    requires source(|sent|, query) == Success(page)
    ensures Gathered(source, sent + [query], |sent| + 1) == Gathered(source, sent, |sent|) + page
    ensures Answered(source, sent, |sent|) ==> Answered(source, sent + [query], |sent| + 1)
  {
    var sent' := sent + [query];
    GatheredPrefix(source, sent, sent', |sent|);
    assert sent'[|sent|] == query;
    assert PageAt(source, sent', |sent|) == page;
    if Answered(source, sent, |sent|) {
      forall k | 0 <= k < |sent| + 1 ensures source(k, sent'[k]).Success? {
        if k < |sent| {
          assert sent'[k] == sent[k];
        }
      }
    }
  }

  lemma {:induction false} GatheredPrefix(source: PageSource, sent: seq<MembersQuery>, longer: seq<MembersQuery>, n: nat)
    requires sent <= longer && n <= |sent|
    ensures Gathered(source, longer, n) == Gathered(source, sent, n)
  {
    if n > 0 {
      GatheredPrefix(source, sent, longer, n - 1);
      assert longer[n - 1] == sent[n - 1];
    }
  }

  /** The members of `o` are the pages of its requests concatenated, all
      successful, except that a failed last request contributes nothing and
      gives the error; `from` requests were logged before the run. */
  predicate PagesOf(source: PageSource, o: Outcome, from: nat)
  {
    && (!o.status.Failed? ==> Answered(source, o.sent, |o.sent|) && o.members == Gathered(source, o.sent, |o.sent|))
    && (o.status.Failed? ==>
          && from < |o.sent|
          && Answered(source, o.sent, |o.sent| - 1)
          && o.members == Gathered(source, o.sent, |o.sent| - 1)
          && source(|o.sent| - 1, o.sent[|o.sent| - 1]) == Failure(o.status.error))
  }

  lemma PagesOfEarlier(source: PageSource, o: Outcome, from: nat, earlier: nat)
    requires earlier <= from && PagesOf(source, o, from)
    ensures PagesOf(source, o, earlier)
  {
  }

  /** A run that ends on a failed request returns the pages before it. */
  lemma FailedRequest(source: PageSource, sent: seq<MembersQuery>, query: MembersQuery, e: Error)
    requires Answered(source, sent, |sent|)
    requires source(|sent|, query) == Failure(e)
    ensures PagesOf(source, Outcome(Gathered(source, sent, |sent|), Failed(e), sent + [query]), |sent|)
  {
    var sent' := sent + [query];
    GatheredPrefix(source, sent, sent', |sent|);
    assert sent'[|sent|] == query;
    forall k | 0 <= k < |sent| ensures source(k, sent'[k]).Success? {
      assert sent'[k] == sent[k];
    }
  }

  /** A run that ends on a successful request returns all the pages. */
  lemma FinishedRequest(source: PageSource, sent: seq<MembersQuery>, query: MembersQuery, page: seq<Member>)
    requires Answered(source, sent, |sent|)
    requires source(|sent|, query) == Success(page)
    ensures PagesOf(source, Outcome(Gathered(source, sent, |sent|) + page, Finished, sent + [query]), |sent|)
  {
    GatheredStep(source, sent, query, page);
  }

  /** The loop keeps its members equal to the concatenation of the pages
      answered so far; a failed request ends it with the members gathered
      before that request. */
  lemma {:induction false} LoopGathers(source: PageSource, guildID: Snowflake, unlimited: bool, remaining: Uint,
                                       after: Snowflake, members: seq<Member>, sent: seq<MembersQuery>, fuel: nat)
    requires Answered(source, sent, |sent|) && members == Gathered(source, sent, |sent|)
    ensures PagesOf(source, Loop(source, guildID, unlimited, remaining, after, members, sent, fuel), |sent|)
    decreases if unlimited then fuel else remaining
  {
    if !(remaining > 0 || unlimited) {
    } else if unlimited && fuel == 0 {
    } else {
      var fetch := FetchSize(remaining);
      var query := MembersQuery(guildID, after, PageLimit(fetch));
      var sent' := sent + [query];
      match source(|sent|, query)
      case Failure(e) =>
        FailedRequest(source, sent, query, e);
        LoopFailure(source, guildID, unlimited, remaining, after, members, sent, fuel, e);
      case Success(page) =>
        var gathered := members + page;
        if |gathered| >= HardLimit {
          GatheredStep(source, sent, query, page);
          var next := Loop(source, guildID, unlimited, Rest(remaining, fetch), gathered[HardLimit - 1].user.id,
                           gathered, sent', if unlimited then fuel - 1 else fuel);
          LoopGathers(source, guildID, unlimited, Rest(remaining, fetch), gathered[HardLimit - 1].user.id,
                      gathered, sent', if unlimited then fuel - 1 else fuel);
          PagesOfEarlier(source, next, |sent'|, |sent|);
          LoopStep(source, guildID, unlimited, remaining, after, members, sent, fuel, page);
        } else {
          FinishedRequest(source, sent, query, page);
          LoopLast(source, guildID, unlimited, remaining, after, members, sent, fuel, page);
        }
    }
  }

  /** Every request after the first followed pages holding at least 1000
      members together. */
  predicate StopRuleHolds(source: PageSource, sent: seq<MembersQuery>)
  {
    forall k :: 0 < k < |sent| ==> |Gathered(source, sent, k)| >= HardLimit
  }

  /** Adding a request to a log whose earlier requests each followed pages
      holding at least 1000 members together, sent while `members` (again at
      least 1000 once anything was sent) had been gathered, keeps that so. */
  lemma StopRuleStep(source: PageSource, sent: seq<MembersQuery>, query: MembersQuery, members: seq<Member>)
    requires members == Gathered(source, sent, |sent|)
    requires |sent| > 0 ==> |members| >= HardLimit
    requires StopRuleHolds(source, sent)
    ensures StopRuleHolds(source, sent + [query])
  {
    forall k | 0 < k < |sent| + 1
      ensures |Gathered(source, sent + [query], k)| >= HardLimit
    {
      GatheredPrefix(source, sent, sent + [query], k);
    }
  }

  /** The loop only issues another request once the pages so far hold at
      least 1000 members together. */
  lemma {:induction false} LoopStopRule(source: PageSource, guildID: Snowflake, unlimited: bool, remaining: Uint,
                                        after: Snowflake, members: seq<Member>, sent: seq<MembersQuery>, fuel: nat)
    requires Answered(source, sent, |sent|) && members == Gathered(source, sent, |sent|)
    requires |sent| > 0 ==> |members| >= HardLimit
    requires StopRuleHolds(source, sent)
    ensures StopRuleHolds(source, Loop(source, guildID, unlimited, remaining, after, members, sent, fuel).sent)
    decreases if unlimited then fuel else remaining
  {
    if !(remaining > 0 || unlimited) {
    } else if unlimited && fuel == 0 {
    } else {
      var fetch := FetchSize(remaining);
      var query := MembersQuery(guildID, after, PageLimit(fetch));
      var sent' := sent + [query];
      StopRuleStep(source, sent, query, members);
      match source(|sent|, query)
      case Failure(e) =>
      case Success(page) =>
        var gathered := members + page;
        GatheredStep(source, sent, query, page);
        if |gathered| >= HardLimit {
          LoopStopRule(source, guildID, unlimited, Rest(remaining, fetch), gathered[HardLimit - 1].user.id,
                       gathered, sent', if unlimited then fuel - 1 else fuel);
          assert Loop(source, guildID, unlimited, remaining, after, members, sent, fuel)
              == Loop(source, guildID, unlimited, Rest(remaining, fetch), gathered[HardLimit - 1].user.id,
                      gathered, sent', if unlimited then fuel - 1 else fuel);
        }
    }
  }

  /** The result is the concatenation of the pages in the order they were
      fetched. A failed request ends the run at once: the members returned
      are exactly those of the earlier pages, all of which succeeded, with the
      failed request's error. */
  lemma PagesConcatenated(source: PageSource, guildID: Snowflake, after: Snowflake, limit: Uint, fuel: nat)
    ensures var o := Paginate(source, guildID, after, limit, fuel);
            && (!o.status.Failed? ==> Answered(source, o.sent, |o.sent|) && o.members == Gathered(source, o.sent, |o.sent|))
            && (o.status.Failed? ==>
                  && |o.sent| > 0
                  && Answered(source, o.sent, |o.sent| - 1)
                  && o.members == Gathered(source, o.sent, |o.sent| - 1)
                  && source(|o.sent| - 1, o.sent[|o.sent| - 1]) == Failure(o.status.error))
  {
    LoopGathers(source, guildID, limit == 0, limit, after, [], [], fuel);
    assert PagesOf(source, Paginate(source, guildID, after, limit, fuel), 0);
  }

  /** A request after the first is only issued when the pages before it hold
      at least 1000 members together: the loop stops as soon as the
      cumulative count is below 1000. */
  lemma StopsBelowHardLimit(source: PageSource, guildID: Snowflake, after: Snowflake, limit: Uint, fuel: nat)
    ensures StopRuleHolds(source, Paginate(source, guildID, after, limit, fuel).sent)
  {
    LoopStopRule(source, guildID, limit == 0, limit, after, [], [], fuel);
  }

  /** A first page with fewer than 1000 members ends the run after that one
      request, with that page as the result. */
  lemma ShortFirstPage(source: PageSource, guildID: Snowflake, after: Snowflake, limit: Uint, fuel: nat, page: seq<Member>)
    requires limit > 0 || fuel > 0
    requires source(0, MembersQuery(guildID, after, FetchSize(limit))) == Success(page)
    requires |page| < HardLimit
    ensures Paginate(source, guildID, after, limit, fuel)
         == Outcome(page, Finished, [MembersQuery(guildID, after, FetchSize(limit))])
  {
  }

  /** The first request was sent from `start`, every later one from the id
      of the 1000th member gathered (index 999). */
  predicate CursorsFrom(start: Snowflake, members: seq<Member>, sent: seq<MembersQuery>)
  {
    && (|sent| > 0 ==> sent[0].after == start)
    && (forall k :: 1 <= k < |sent| ==>
          |members| >= HardLimit && sent[k].after == members[HardLimit - 1].user.id)
  }

  /** The cursor of a run never moves past the 1000th member gathered: the
      loop sets it from index 999 of everything gathered, not from the last
      member of the newest page. */
  lemma {:induction false} LoopCursor(source: PageSource, guildID: Snowflake, unlimited: bool, remaining: Uint,
                                      after: Snowflake, members: seq<Member>, sent: seq<MembersQuery>, fuel: nat,
                                      start: Snowflake)
    requires CursorsFrom(start, members, sent)
    requires |sent| == 0 ==> after == start
    requires |sent| > 0 ==> |members| >= HardLimit && after == members[HardLimit - 1].user.id
    ensures var o := Loop(source, guildID, unlimited, remaining, after, members, sent, fuel);
            CursorsFrom(start, o.members, o.sent)
    decreases if unlimited then fuel else remaining
  {
    if !(remaining > 0 || unlimited) {
    } else if unlimited && fuel == 0 {
    } else {
      var fetch := FetchSize(remaining);
      var query := MembersQuery(guildID, after, PageLimit(fetch));
      var sent' := sent + [query];
      match source(|sent|, query)
      case Failure(e) =>
        assert CursorsFrom(start, members, sent') by {
          forall k | 1 <= k < |sent'|
            ensures |members| >= HardLimit && sent'[k].after == members[HardLimit - 1].user.id
          {
            if k < |sent| {
              assert sent'[k] == sent[k];
            }
          }
        }
      case Success(page) =>
        var gathered := members + page;
        assert CursorsFrom(start, gathered, sent') by {
          if |sent| > 0 {
            assert gathered[HardLimit - 1] == members[HardLimit - 1];
            assert sent'[0] == sent[0];
            forall k | 1 <= k < |sent'|
              ensures |gathered| >= HardLimit && sent'[k].after == gathered[HardLimit - 1].user.id
            {
              if k < |sent| {
                assert sent'[k] == sent[k];
              }
            }
          }
        }
        if |gathered| >= HardLimit {
          var next := gathered[HardLimit - 1].user.id;
          LoopCursor(source, guildID, unlimited, Rest(remaining, fetch), next,
                     gathered, sent', if unlimited then fuel - 1 else fuel, start);
          assert Loop(source, guildID, unlimited, remaining, after, members, sent, fuel)
              == Loop(source, guildID, unlimited, Rest(remaining, fetch), next,
                      gathered, sent', if unlimited then fuel - 1 else fuel);
        }
    }
  }

  /** `MembersAfter` sends its first request from `after`, and every later
      request from the id of the 1000th member gathered. */
  lemma CursorPinned(source: PageSource, guildID: Snowflake, after: Snowflake, limit: Uint, fuel: nat)
    ensures var o := Paginate(source, guildID, after, limit, fuel);
            CursorsFrom(after, o.members, o.sent)
  {
    LoopCursor(source, guildID, limit == 0, limit, after, [], [], fuel, after);
  }

  /** Bounded `MembersAfter` with a limit above 2000 whose first two pages
      are full goes on with 2000 fewer wanted, the two pages gathered and the
      cursor on the 1000th member. */
  lemma TwoFullPages(source: PageSource, guildID: Snowflake, after: Snowflake, limit: Uint, fuel: nat,
                     p1: seq<Member>, p2: seq<Member>)
    requires limit > 2 * HardLimit
    requires |p1| == HardLimit && source(0, MembersQuery(guildID, after, HardLimit)) == Success(p1)
    requires |p2| == HardLimit && source(1, MembersQuery(guildID, p1[HardLimit - 1].user.id, HardLimit)) == Success(p2)
    ensures var c := p1[HardLimit - 1].user.id;
            Paginate(source, guildID, after, limit, fuel)
            == Loop(source, guildID, false, limit - 2 * HardLimit, c, p1 + p2,
                    [MembersQuery(guildID, after, HardLimit), MembersQuery(guildID, c, HardLimit)], fuel)
  {
    var c := p1[HardLimit - 1].user.id;
    var q0, q1 := MembersQuery(guildID, after, HardLimit), MembersQuery(guildID, c, HardLimit);
    assert FetchSize(limit) == HardLimit && FetchSize(limit - HardLimit) == HardLimit;
    assert [] + p1 == p1;
    LoopStep(source, guildID, false, limit, after, [], [], fuel, p1);
    assert (p1 + p2)[HardLimit - 1] == p1[HardLimit - 1];
    LoopStep(source, guildID, false, limit - HardLimit, c, p1, [] + [q0], fuel, p2);
    assert [] + [q0] + [q1] == [q0, q1];
  }

  /** Bounded `MembersAfter` with a limit above 2000 whose first two pages
      are full: the third request is sent from the cursor of the second (the
      1000th member), so the first member of the third page sits at index
      2000 of the result, right after the second page. */
  lemma PinnedCursorRepeats(source: PageSource, guildID: Snowflake, after: Snowflake, limit: Uint, fuel: nat,
                            p1: seq<Member>, p2: seq<Member>, p3: seq<Member>)
    requires limit > 2 * HardLimit
    requires |p1| == HardLimit && source(0, MembersQuery(guildID, after, HardLimit)) == Success(p1)
    requires |p2| == HardLimit && source(1, MembersQuery(guildID, p1[HardLimit - 1].user.id, HardLimit)) == Success(p2)
    requires |p3| > 0
    requires source(2, MembersQuery(guildID, p1[HardLimit - 1].user.id, FetchSize(limit - 2 * HardLimit))) == Success(p3)
    ensures var o := Paginate(source, guildID, after, limit, fuel);
            && |o.sent| >= 3 && o.sent[1].after == o.sent[2].after == p1[HardLimit - 1].user.id
            && |o.members| > 2 * HardLimit && o.members[HardLimit] == p2[0] && o.members[2 * HardLimit] == p3[0]
  {
    var c := p1[HardLimit - 1].user.id;
    var q0, q1 := MembersQuery(guildID, after, HardLimit), MembersQuery(guildID, c, HardLimit);
    var f := FetchSize(limit - 2 * HardLimit);
    var q2 := MembersQuery(guildID, c, f);
    TwoFullPages(source, guildID, after, limit, fuel, p1, p2);
    var m2 := p1 + p2;
    assert PageLimit(f) == f;
    var m3 := m2 + p3;
    assert m3[HardLimit - 1] == p1[HardLimit - 1];
    LoopStep(source, guildID, false, limit - 2 * HardLimit, c, m2, [q0, q1], fuel, p3);
    LoopExtends(source, guildID, false, limit - 2 * HardLimit - f, c, m3, [q0, q1] + [q2], fuel);
    var o := Paginate(source, guildID, after, limit, fuel);
    assert o.sent[1] == q1 && o.sent[2] == q2;
    assert o.members[HardLimit] == m3[HardLimit] == p2[0];
    assert o.members[2 * HardLimit] == m3[2 * HardLimit] == p3[0];
  }

  /** Unlimited mode with 1000 members gathered and a server that keeps
      answering: neither exit of the loop can fire again, so the run spends
      every unit of fuel on one more request. */
  lemma {:induction false} LoopNeverReturns(source: PageSource, guildID: Snowflake, after: Snowflake,
                                            members: seq<Member>, sent: seq<MembersQuery>, fuel: nat)
    requires NeverFails(source)
    requires |members| >= HardLimit
    ensures var o := Loop(source, guildID, true, 0, after, members, sent, fuel);
            o.status == Stalled && |o.sent| == |sent| + fuel
    decreases fuel
  {
    if fuel > 0 {
      var query := MembersQuery(guildID, after, PageLimit(FetchSize(0)));
      assert source(|sent|, query).Success?;
      var gathered := members + source(|sent|, query).value;
      LoopNeverReturns(source, guildID, gathered[HardLimit - 1].user.id, gathered, sent + [query], fuel - 1);
      assert Loop(source, guildID, true, 0, after, members, sent, fuel)
          == Loop(source, guildID, true, 0, gathered[HardLimit - 1].user.id, gathered, sent + [query], fuel - 1);
    }
  }

  /** Unlimited mode with 1000 members gathered, whatever the server does:
      the total never drops below 1000 again, so the run can end only by a
      failed request or by running out of fuel, never `Finished`. */
  lemma {:induction false} LoopNeverFinishes(source: PageSource, guildID: Snowflake, after: Snowflake,
                                             members: seq<Member>, sent: seq<MembersQuery>, fuel: nat)
    requires |members| >= HardLimit
    ensures Loop(source, guildID, true, 0, after, members, sent, fuel).status != Finished
    decreases fuel
  {
    if fuel > 0 {
      var query := MembersQuery(guildID, after, PageLimit(FetchSize(0)));
      match source(|sent|, query)
      case Failure(e) =>
        LoopFailure(source, guildID, true, 0, after, members, sent, fuel, e);
      case Success(page) =>
        var gathered := members + page;
        LoopStep(source, guildID, true, 0, after, members, sent, fuel, page);
        LoopNeverFinishes(source, guildID, gathered[HardLimit - 1].user.id, gathered, sent + [query], fuel - 1);
    }
  }

  /** `MembersAfter(guildID, after, 0)` whose first request does not fail
      and brings 1000 members never returns a result, whatever the server
      answers later: it ends with an error or is still running. */
  lemma UnlimitedNeverFinishes(source: PageSource, guildID: Snowflake, after: Snowflake, fuel: nat)
    requires var first := source(0, MembersQuery(guildID, after, HardLimit));
             first.Success? ==> |first.value| >= HardLimit
    ensures Paginate(source, guildID, after, 0, fuel).status != Finished
  {
    if fuel > 0 {
      var query := MembersQuery(guildID, after, HardLimit);
      assert PageLimit(FetchSize(0)) == HardLimit;
      match source(0, query)
      case Failure(e) =>
        LoopFailure(source, guildID, true, 0, after, [], [], fuel, e);
      case Success(page) =>
        assert [] + page == page;
        LoopStep(source, guildID, true, 0, after, [], [], fuel, page);
        LoopNeverFinishes(source, guildID, page[HardLimit - 1].user.id, page, [] + [query], fuel - 1);
    }
  }

  /** `MembersAfter(guildID, after, 0)` whose first page holds 1000 members
      never returns while the server keeps answering: after any number of
      requests it is still running. This includes a guild of exactly 1000
      members, whose second page is empty. */
  lemma UnlimitedNeverReturns(source: PageSource, guildID: Snowflake, after: Snowflake, fuel: nat)
    requires NeverFails(source)
    requires |source(0, MembersQuery(guildID, after, HardLimit)).value| >= HardLimit
    ensures var o := Paginate(source, guildID, after, 0, fuel);
            o.status == Stalled && |o.sent| == fuel
  {
    if fuel > 0 {
      var query := MembersQuery(guildID, after, HardLimit);
      var page := source(0, query).value;
      LoopNeverReturns(source, guildID, page[HardLimit - 1].user.id, page, [query], fuel - 1);
      assert PageLimit(FetchSize(0)) == HardLimit;
      assert [] + page == page;
      assert [] + [query] == [query];
      assert Paginate(source, guildID, after, 0, fuel) == Loop(source, guildID, true, 0, after, [], [], fuel);
      assert Paginate(source, guildID, after, 0, fuel)
          == Loop(source, guildID, true, 0, page[HardLimit - 1].user.id, page, [query], fuel - 1);
    }
  }
}
