/** The prune family: `PruneCount` asks how many members a prune would remove,
    `Prune` starts one, `PruneWithCount` starts one and asks for the count.
    All three default the inactivity window to 7 days and differ only in the
    HTTP verb and the `compute_prune_count` query flag they send. */
module Prune {
  import opened Discord

  /** The window used when the caller passes 0 days. */
  const DefaultPruneDays: Uint := 7

  datatype Verb = Get | Post

  /** The query string of a prune request: `days`, and `compute_prune_count`
      when the call sets it. */
  datatype PruneQuery = PruneQuery(days: Uint, computePruneCount: Option<bool>)

  /** A request to the guild's prune endpoint; `decodesCount` says whether
      the call reads the `pruned` field of the response. */
  datatype PruneRequest = PruneRequest(verb: Verb, guildID: Snowflake, query: PruneQuery, decodesCount: bool)

  /** The `days` actually sent: 0 stands for the default, anything else is
      sent as given. */
  function PruneDays(days: Uint): (d: Uint)
    ensures d >= 1
    ensures d == days <==> days != 0
    ensures days == 0 ==> d == DefaultPruneDays
  {
    if days == 0 then DefaultPruneDays else days
  }

  /** `PruneCount(guildID, days)`: a GET that only reads the count. */
  function PruneCount(guildID: Snowflake, days: Uint): (r: PruneRequest)
    ensures r.verb == Get && r.guildID == guildID && r.decodesCount
    ensures r.query.days == PruneDays(days) && r.query.computePruneCount.None?
  {
    PruneRequest(Get, guildID, PruneQuery(PruneDays(days), None), true)
  }

  /** `Prune(guildID, days)`: a POST that starts the prune and asks the
      server not to compute the count. */
  function Prune(guildID: Snowflake, days: Uint): (r: PruneRequest)
    ensures r.verb == Post && r.guildID == guildID && !r.decodesCount
    ensures r.query.days == PruneDays(days) && r.query.computePruneCount == Some(false)
  {
    PruneRequest(Post, guildID, PruneQuery(PruneDays(days), Some(false)), false)
  }

  /** `PruneWithCount(guildID, days)`: a POST that starts the prune and asks
      for the number of members removed. */
  function PruneWithCount(guildID: Snowflake, days: Uint): (r: PruneRequest)
    ensures r.verb == Post && r.guildID == guildID && r.decodesCount
    ensures r.query.days == PruneDays(days) && r.query.computePruneCount == Some(true)
  {
    PruneRequest(Post, guildID, PruneQuery(PruneDays(days), Some(true)), true)
  }

  /** Defaulting is idempotent: a normalised window is left alone, so passing
      the sent value back in sends the same request. */
  lemma PruneDaysIdempotent(days: Uint)
    ensures PruneDays(PruneDays(days)) == PruneDays(days)
  {
  }

  /** The three calls send the same window for the same input, never 0; the
      count alone does not start a prune, and a count is computed by exactly
      the calls that read it back. */
  lemma PruneCallsAgree(guildID: Snowflake, days: Uint)
    ensures var count, start, both := PruneCount(guildID, days), Prune(guildID, days), PruneWithCount(guildID, days);
            && count.query.days == start.query.days == both.query.days >= 1
            && count.verb != start.verb
            && (start.query.computePruneCount == Some(true) <==> start.decodesCount)
            && (both.query.computePruneCount == Some(true) <==> both.decodesCount)
            && start.verb == both.verb && start != both
  {
  }
}
