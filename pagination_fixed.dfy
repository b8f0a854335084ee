/** The member pagination corrected so that it does what its documentation
    promises: stop when a page comes back with fewer than 1000 members, and
    move the cursor to the last member gathered. This differs from `Pagination` in those two lines of the
    loop only; against a sorted guild it returns exactly the members above the
    cursor, up to the limit, and always returns in unlimited mode. */
module PaginationFixed {
  import opened Discord
  import opened Pagination
  import opened GuildServer

  /** The corrected loop from the state (`remaining`, `after`, `members`,
      requests `sent` so far); as in `Loop`, only an unlimited run can end
      `Stalled`. */
  function LoopFixed(source: PageSource, guildID: Snowflake, unlimited: bool, remaining: Uint,
                     after: Snowflake, members: seq<Member>, sent: seq<MembersQuery>, fuel: nat): (o: Outcome)
    ensures o.status == Stalled ==> unlimited
    decreases if unlimited then fuel else remaining
  {
    if !(remaining > 0 || unlimited) then Outcome(members, Finished, sent)
    else if unlimited && fuel == 0 then Outcome(members, Stalled, sent)
    else
      var fetch := FetchSize(remaining);
      var query := MembersQuery(guildID, after, PageLimit(fetch));
      match source(|sent|, query)
      case Failure(e) => Outcome(members, Failed(e), sent + [query])
      case Success(page) =>
        var gathered := members + page;
        if |page| < HardLimit then Outcome(gathered, Finished, sent + [query])
        else
          LoopFixed(source, guildID, unlimited, Rest(remaining, fetch), gathered[|gathered| - 1].user.id,
                    gathered, sent + [query], if unlimited then fuel - 1 else fuel)
  }

  /** The corrected `MembersAfter(guildID, after, limit)`. */
  function PaginateFixed(source: PageSource, guildID: Snowflake, after: Snowflake, limit: Uint, fuel: nat): (o: Outcome)
    ensures o.status == Stalled ==> limit == 0
  {
    LoopFixed(source, guildID, limit == 0, limit, after, [], [], fuel)
  }

  /** The corrected loop, step for step. */
  method MembersAfterFixed(source: PageSource, guildID: Snowflake, after: Snowflake, limit: Uint, fuel: nat)
    returns (members: seq<Member>, status: Status, sent: seq<MembersQuery>)
    ensures Outcome(members, status, sent) == PaginateFixed(source, guildID, after, limit, fuel)
  {
    members, status, sent := [], Finished, [];
    var unlimited := limit == 0;
    var remaining: Uint, cursor: Snowflake, budget: nat := limit, after, fuel;
    while remaining > 0 || unlimited
      invariant LoopFixed(source, guildID, unlimited, remaining, cursor, members, sent, budget)
             == PaginateFixed(source, guildID, after, limit, fuel)
      decreases if unlimited then budget else remaining
    {
      if unlimited && budget == 0 {
        status := Stalled;
        return;
      }
      var fetch: Uint := HardLimit;
      if remaining > 0 {
        if fetch > remaining {
          fetch := remaining;
        }
        remaining := remaining - fetch;
      }
      var query := MembersQuery(guildID, cursor, PageLimit(fetch));
      var page := source(|sent|, query);
      sent := sent + [query];
      if page.Failure? {
        status := Failed(page.error);
        return;
      }
      members := members + page.value;
      if |page.value| < HardLimit {
        break;
      }
      cursor := members[|members| - 1].user.id;
      if unlimited {
        budget := budget - 1;
      }
    }
  }

  /** One iteration of the corrected loop that receives a short page and
      stops. */
  lemma LoopFixedLast(source: PageSource, guildID: Snowflake, unlimited: bool, remaining: Uint,
                      after: Snowflake, members: seq<Member>, sent: seq<MembersQuery>, fuel: nat, page: seq<Member>)
    requires remaining > 0 || unlimited
    requires unlimited ==> fuel > 0
    requires source(|sent|, MembersQuery(guildID, after, PageLimit(FetchSize(remaining)))) == Success(page)
    requires |page| < HardLimit
    ensures LoopFixed(source, guildID, unlimited, remaining, after, members, sent, fuel)
         == Outcome(members + page, Finished, sent + [MembersQuery(guildID, after, PageLimit(FetchSize(remaining)))])
  {
  }

  /** One iteration of the corrected loop that receives a full page and goes
      on. */
  lemma LoopFixedStep(source: PageSource, guildID: Snowflake, unlimited: bool, remaining: Uint,
                      after: Snowflake, members: seq<Member>, sent: seq<MembersQuery>, fuel: nat, page: seq<Member>)
    requires remaining > 0 || unlimited
    requires unlimited ==> fuel > 0
    requires source(|sent|, MembersQuery(guildID, after, PageLimit(FetchSize(remaining)))) == Success(page)
    requires |page| >= HardLimit
    ensures LoopFixed(source, guildID, unlimited, remaining, after, members, sent, fuel)
         == LoopFixed(source, guildID, unlimited, Rest(remaining, FetchSize(remaining)),
                      (members + page)[|members + page| - 1].user.id, members + page,
                      sent + [MembersQuery(guildID, after, PageLimit(FetchSize(remaining)))],
                      if unlimited then fuel - 1 else fuel)
  {
  }

  /** A page of the next members of `S` that comes back short brings the
      members gathered to the first `n + remaining` of `S`, or all of it. */
  lemma ShortPageEndsTake(S: seq<Member>, n: nat, remaining: Uint)
    requires n <= |S| && remaining > 0
    requires Min(FetchSize(remaining), |S| - n) < HardLimit
    ensures S[..n] + S[n..n + Min(FetchSize(remaining), |S| - n)] == Take(S, n + remaining)
  {
    var k := Min(FetchSize(remaining), |S| - n);
    assert S[..n] + S[n..n + k] == S[..n + k];
  }

  /** The last iteration of a bounded corrected run against a server
      listing `S` in order: the page comes back short and the run ends with
      the first `|members| + remaining` members of `S`, or all of them. */
  lemma FixedBoundedLast(source: PageSource, S: seq<Member>, start: Snowflake, guildID: Snowflake,
                         remaining: Uint, members: seq<Member>, sent: seq<MembersQuery>, fuel: nat)
    requires ServesInOrder(source, S, start)
    requires |members| <= |S| && members == S[..|members|]
    requires remaining > 0 && Min(FetchSize(remaining), |S| - |members|) < HardLimit
    ensures var o := LoopFixed(source, guildID, false, remaining, CursorAt(S, start, |members|), members, sent, fuel);
            o.status == Finished && o.members == Take(S, |members| + remaining)
  {
    var n := |members|;
    var fetch := FetchSize(remaining);
    assert PageLimit(fetch) == fetch;
    var page := S[n..n + Min(fetch, |S| - n)];
    assert source(|sent|, MembersQuery(guildID, CursorAt(S, start, n), fetch)) == Success(PageFrom(S, n, fetch));
    LoopFixedLast(source, guildID, false, remaining, CursorAt(S, start, n), members, sent, fuel, page);
    ShortPageEndsTake(S, n, remaining);
  }

  /** A full page in a bounded corrected run against a server listing `S` in
      order: the run goes on from the next 1000 members of `S`, so what the
      rest of the run gathers is what the whole run gathers. */
  lemma FixedBoundedFull(source: PageSource, S: seq<Member>, start: Snowflake, guildID: Snowflake,
                         remaining: Uint, members: seq<Member>, sent: seq<MembersQuery>, fuel: nat)
    requires ServesInOrder(source, S, start)
    requires |members| <= |S| && members == S[..|members|]
    requires remaining > 0 && Min(FetchSize(remaining), |S| - |members|) >= HardLimit
    ensures var n := |members|;
            var fetch := FetchSize(remaining);
            n + fetch <= |S|
            && LoopFixed(source, guildID, false, remaining, CursorAt(S, start, n), members, sent, fuel)
               == LoopFixed(source, guildID, false, remaining - fetch, CursorAt(S, start, n + fetch), S[..n + fetch],
                            sent + [MembersQuery(guildID, CursorAt(S, start, n), fetch)], fuel)
  {
    var n := |members|;
    var fetch := FetchSize(remaining);
    assert PageLimit(fetch) == fetch;
    var page := S[n..n + fetch];
    assert source(|sent|, MembersQuery(guildID, CursorAt(S, start, n), fetch)) == Success(PageFrom(S, n, fetch));
    assert members + page == S[..n + fetch];
    LoopFixedStep(source, guildID, false, remaining, CursorAt(S, start, n), members, sent, fuel, page);
  }

  /** A bounded corrected run against a server listing `S` in order, from
      a state that has gathered the first members of `S` with the cursor on
      the last of them, gathers the next `remaining` members of `S`, or all
      that are left. */
  lemma {:induction false} LoopFixedBounded(source: PageSource, S: seq<Member>, start: Snowflake, guildID: Snowflake,
                                            remaining: Uint, members: seq<Member>, sent: seq<MembersQuery>, fuel: nat)
    requires ServesInOrder(source, S, start)
    requires |members| <= |S| && members == S[..|members|]
    ensures var o := LoopFixed(source, guildID, false, remaining, CursorAt(S, start, |members|), members, sent, fuel);
            o.status == Finished && o.members == Take(S, |members| + remaining)
    decreases remaining
  {
    var n := |members|;
    if remaining > 0 {
      var fetch := FetchSize(remaining);
      if Min(fetch, |S| - n) < HardLimit {
        FixedBoundedLast(source, S, start, guildID, remaining, members, sent, fuel);
      } else {
        FixedBoundedFull(source, S, start, guildID, remaining, members, sent, fuel);
        LoopFixedBounded(source, S, start, guildID, remaining - fetch, S[..n + fetch],
                         sent + [MembersQuery(guildID, CursorAt(S, start, n), fetch)], fuel);
        assert n + fetch + (remaining - fetch) == n + remaining;
      }
    }
  }

  /** An unlimited corrected run from such a state gathers all of `S`, given
      one unit of fuel for each full page still to come and one for the last. */
  lemma {:induction false} LoopFixedUnlimited(source: PageSource, S: seq<Member>, start: Snowflake, guildID: Snowflake,
                                              members: seq<Member>, sent: seq<MembersQuery>, fuel: nat)
    requires ServesInOrder(source, S, start)
    requires |members| <= |S| && members == S[..|members|]
    requires fuel > (|S| - |members|) / HardLimit
    ensures var o := LoopFixed(source, guildID, true, 0, CursorAt(S, start, |members|), members, sent, fuel);
            o.status == Finished && o.members == S && |o.sent| <= |sent| + (|S| - |members|) / HardLimit + 1
    decreases fuel
  {
    var n := |members|;
    var after := CursorAt(S, start, n);
    var query := MembersQuery(guildID, after, PageLimit(FetchSize(0)));
    var k := Min(HardLimit, |S| - n);
    var page := S[n..n + k];
    assert source(|sent|, query) == Success(PageFrom(S, n, HardLimit));
    var gathered := members + page;
    assert gathered == S[..n + k];
    if k < HardLimit {
      LoopFixedLast(source, guildID, true, 0, after, members, sent, fuel, page);
      assert gathered == S;
    } else {
      assert gathered[|gathered| - 1].user.id == CursorAt(S, start, n + k);
      LoopFixedStep(source, guildID, true, 0, after, members, sent, fuel, page);
      assert (|S| - n) / HardLimit == 1 + (|S| - (n + k)) / HardLimit;
      LoopFixedUnlimited(source, S, start, guildID, gathered, sent + [query], fuel - 1);
    }
  }

  /** The corrected `MembersAfter` on a sorted guild returns exactly the
      members above the cursor, in order: the first `limit` of them in a
      bounded run, all of them in an unlimited one, which returns after at
      most |members above the cursor| / 1000 + 1 requests. */
  lemma FixedFetchesRange(g: seq<Member>, guildID: Snowflake, after: Snowflake, limit: Uint, fuel: nat)
    requires Sorted(g)
    requires limit == 0 ==> fuel > |Above(g, after)| / HardLimit
    ensures var o := PaginateFixed(Server(g), guildID, after, limit, fuel);
            && o.status == Finished
            && o.members == (if limit == 0 then Above(g, after) else Take(Above(g, after), limit))
            && (limit == 0 ==> |o.sent| <= |Above(g, after)| / HardLimit + 1)
  {
    var S := Above(g, after);
    SortedServesInOrder(g, after);
    assert CursorAt(S, after, 0) == after;
    if limit == 0 {
      LoopFixedUnlimited(Server(g), S, after, guildID, [], [], fuel);
    } else {
      LoopFixedBounded(Server(g), S, after, guildID, limit, [], [], fuel);
    }
  }
}
