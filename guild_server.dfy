/** A model of one guild's list-guild-members endpoint: the guild's members
    sorted by strictly increasing id, each query answered with the first
    `limit` members whose id is above `after`. Against it, the loop as written
    shows two behaviours its documentation does not promise. */
module GuildServer {
  import opened Discord
  import opened Pagination

  /** Ids strictly increase along the list. */
  predicate Sorted(g: seq<Member>)
  {
    forall i, j :: 0 <= i < j < |g| ==> g[i].user.id < g[j].user.id
  }

  /** The members of `g` whose id is greater than `after`, in list order. */
  function Above(g: seq<Member>, after: Snowflake): (s: seq<Member>)
    ensures |s| <= |g|
    ensures forall i :: 0 <= i < |s| ==> s[i].user.id > after
  {
    if g == [] then []
    else if g[0].user.id > after then [g[0]] + Above(g[1..], after)
    else Above(g[1..], after)
  }

  /** At most the first `n` members of `s`. */
  function Take(s: seq<Member>, n: nat): (t: seq<Member>)
    ensures |t| == Min(n, |s|) && t == s[..|t|]
  {
    if n < |s| then s[..n] else s
  }

  /** The endpoint of a guild holding `g`: it never fails and answers a query
      with the first `limit` members above its cursor. (The paginator never
      sends limit 0; here it gets an empty page.) */
  function Server(g: seq<Member>): (s: PageSource)
    ensures NeverFails(s) && HonorsLimit(s)
  {
    (call: nat, q: MembersQuery) => Success(Take(Above(g, q.after), q.limit))
  }

  /** How many leading members of `g` have an id of at most `after`. */
  function Rank(g: seq<Member>, after: Snowflake): (r: nat)
    ensures r <= |g|
  {
    if g == [] || g[0].user.id > after then 0 else 1 + Rank(g[1..], after)
  }

  lemma {:induction false} AllAbove(g: seq<Member>, after: Snowflake)
    requires forall i :: 0 <= i < |g| ==> g[i].user.id > after
    ensures Above(g, after) == g
  {
    if g != [] {
      AllAbove(g[1..], after);
    }
  }

  /** In a sorted guild the members above a cursor are a suffix of the list. */
  lemma {:induction false} AboveIsSuffix(g: seq<Member>, after: Snowflake)
    requires Sorted(g)
    ensures Above(g, after) == g[Rank(g, after)..]
  {
    if g == [] {
    } else if g[0].user.id > after {
      AllAbove(g, after);
    } else {
      AboveIsSuffix(g[1..], after);
    }
  }

  /** In a sorted guild the members above the p-th member are those after it. */
  lemma {:induction false} AboveMember(g: seq<Member>, p: nat)
    requires Sorted(g) && p < |g|
    ensures Above(g, g[p].user.id) == g[p + 1..]
  {
    if p == 0 {
      AllAbove(g[1..], g[0].user.id);
    } else {
      AboveMember(g[1..], p - 1);
      assert g[1..][p - 1] == g[p];
    }
  }

  /** Moving the cursor to the j-th member above `after` leaves exactly the
      members after that one. */
  lemma AboveNext(g: seq<Member>, after: Snowflake, j: nat)
    requires Sorted(g) && j < |Above(g, after)|
    ensures Above(g, Above(g, after)[j].user.id) == Above(g, after)[j + 1..]
  {
    AboveIsSuffix(g, after);
    var r := Rank(g, after);
    assert Above(g, after)[j] == g[r + j];
    AboveMember(g, r + j);
  }

  /** The cursor of a paginator that has gathered the first `n` members of
      `S`, the members above `start`: `start` itself, or the last one
      gathered. */
  function CursorAt(S: seq<Member>, start: Snowflake, n: nat): Snowflake
    requires n <= |S|
  {
    if n == 0 then start else S[n - 1].user.id
  }

  /** The next members of `S` from position `n`: `lim` of them, or all that
      are left. */
  function PageFrom(S: seq<Member>, n: nat, lim: nat): seq<Member>
    requires n <= |S|
  {
    S[n..n + Min(lim, |S| - n)]
  }

  /** `source` lists `S` in order: from the cursor at position `n` it answers
      every query with the next members of `S`, as many as the query asks
      for or as are left. */
  ghost predicate ServesInOrder(source: PageSource, S: seq<Member>, start: Snowflake)
  {
    forall call: nat, q: MembersQuery, n: nat {:trigger source(call, q), PageFrom(S, n, q.limit)} ::
      n <= |S| && q.after == CursorAt(S, start, n) ==> source(call, q) == Success(PageFrom(S, n, q.limit))
  }

  /** The first `n` members of `s` are its prefix of that length, or all of
      it. */
  lemma TakeSlice(s: seq<Member>, n: nat, lim: nat)
    requires n <= |s|
    ensures Take(s[n..], lim) == s[n..n + Min(lim, |s| - n)]
  {
  }

  /** In a sorted guild, the members above the cursor at position `n` of the
      members above `start` are the rest of them. */
  lemma AboveCursor(g: seq<Member>, start: Snowflake, n: nat)
    requires Sorted(g) && n <= |Above(g, start)|
    ensures Above(g, CursorAt(Above(g, start), start, n)) == Above(g, start)[n..]
  {
    if n > 0 {
      AboveNext(g, start, n - 1);
    }
  }

  /** The endpoint of a sorted guild lists the members above any cursor in
      order. */
  lemma SortedServesInOrder(g: seq<Member>, start: Snowflake)
    requires Sorted(g)
    ensures ServesInOrder(Server(g), Above(g, start), start)
  {
    var S := Above(g, start);
    forall call: nat, q: MembersQuery, n: nat | n <= |S| && q.after == CursorAt(S, start, n)
      ensures Server(g)(call, q) == Success(PageFrom(S, n, q.limit))
    {
      ServerAnswer(g, start, call, q, n);
    }
  }

  /** One query of `SortedServesInOrder`. */
  lemma ServerAnswer(g: seq<Member>, start: Snowflake, call: nat, q: MembersQuery, n: nat)
    requires Sorted(g) && n <= |Above(g, start)| && q.after == CursorAt(Above(g, start), start, n)
    ensures Server(g)(call, q) == Success(PageFrom(Above(g, start), n, q.limit))
  {
    var S := Above(g, start);
    AboveCursor(g, start, n);
    TakeSlice(S, n, q.limit);
    assert Server(g)(call, q) == Success(Take(S[n..], q.limit));
  }

  /** Unlimited `MembersAfter` on any guild with at least 1000 members above
      the cursor never returns: after any number of requests it is still
      running. A guild of exactly 1000 members is one: its second request
      comes back empty, yet 1000 members are gathered, so the loop goes on. */
  lemma LargeGuildNeverReturns(g: seq<Member>, guildID: Snowflake, after: Snowflake, fuel: nat)
    requires |Above(g, after)| >= HardLimit
    ensures var o := Paginate(Server(g), guildID, after, 0, fuel);
            o.status == Stalled && |o.sent| == fuel
  {
    assert NeverFails(Server(g));
    UnlimitedNeverReturns(Server(g), guildID, after, fuel);
  }

  /** The first three answers a sorted guild's endpoint gives a bounded run
      of the loop as written with a limit above 2000: the first 1000 members
      above the cursor, then, twice from the 1000th of them, the members after
      it. */
  lemma FirstThreeAnswers(g: seq<Member>, guildID: Snowflake, after: Snowflake, limit: Uint)
    requires Sorted(g)
    requires |Above(g, after)| >= 2 * HardLimit
    requires limit > 2 * HardLimit
    ensures var S := Above(g, after);
            var c := S[HardLimit - 1].user.id;
            var f := FetchSize(limit - 2 * HardLimit);
            && Server(g)(0, MembersQuery(guildID, after, HardLimit)) == Success(S[0..HardLimit])
            && Server(g)(1, MembersQuery(guildID, c, HardLimit)) == Success(S[HardLimit..2 * HardLimit])
            && Server(g)(2, MembersQuery(guildID, c, f)) == Success(S[HardLimit..HardLimit + f])
  {
    var S := Above(g, after);
    var c := CursorAt(S, after, HardLimit);
    var f := FetchSize(limit - 2 * HardLimit);
    ServerAnswer(g, after, 0, MembersQuery(guildID, after, HardLimit), 0);
    ServerAnswer(g, after, 1, MembersQuery(guildID, c, HardLimit), HardLimit);
    ServerAnswer(g, after, 2, MembersQuery(guildID, c, f), HardLimit);
  }

  /** On a sorted guild holding at least 2000 members above the cursor,
      `MembersAfter` with a limit above 2000 sends its third request from the
      same cursor as its second, repeats the 1001st member and so returns a
      list that is no longer sorted. */
  lemma DuplicatesPastSecondPage(g: seq<Member>, guildID: Snowflake, after: Snowflake, limit: Uint, fuel: nat)
    requires Sorted(g)
    requires |Above(g, after)| >= 2 * HardLimit
    requires limit > 2 * HardLimit
    ensures var o := Paginate(Server(g), guildID, after, limit, fuel);
            && |o.sent| >= 3 && o.sent[2].after == o.sent[1].after
            && |o.members| > 2 * HardLimit && o.members[2 * HardLimit] == o.members[HardLimit]
            && !Sorted(o.members)
  {
    var S := Above(g, after);
    var f := FetchSize(limit - 2 * HardLimit);
    var p1, p2, p3 := S[0..HardLimit], S[HardLimit..2 * HardLimit], S[HardLimit..HardLimit + f];
    FirstThreeAnswers(g, guildID, after, limit);
    assert p1[HardLimit - 1] == S[HardLimit - 1];
    PinnedCursorRepeats(Server(g), guildID, after, limit, fuel, p1, p2, p3);
    var o := Paginate(Server(g), guildID, after, limit, fuel);
    assert p3[0] == p2[0];
    assert !(o.members[HardLimit].user.id < o.members[2 * HardLimit].user.id);
  }
}
