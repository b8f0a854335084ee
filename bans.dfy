/** Creating a guild ban. The request carries an optional number of days of
    the banned user's messages to delete, which the server accepts only in
    0..7, and an optional reason. `Ban` caps the number of days at 7. */
module Bans {
  import opened Discord

  /** The most days of messages a ban may delete. */
  const MaxDeleteDays: Uint := 7

  /** The query parameters of a ban; both are optional (`None` is omitted from
      the query string). */
  datatype BanData = BanData(deleteDays: Option<Uint>, reason: Option<string>)

  /** A PUT to the ban endpoint of `userID` in `guildID`. */
  datatype BanRequest = BanRequest(guildID: Snowflake, userID: Snowflake, data: BanData)

  /** What `Ban` as written does: it issues the request, or it dereferences a
      missing `DeleteDays` and panics before sending anything. */
  datatype BanOutcome = Issued(request: BanRequest) | NilDereference

  /** Days above the maximum become the maximum; others are kept. */
  function ClampDeleteDays(days: Uint): (d: Uint)
    ensures d <= MaxDeleteDays && d <= days
    ensures d == days <==> days <= MaxDeleteDays
    ensures days > MaxDeleteDays ==> d == MaxDeleteDays
  {
    if days > MaxDeleteDays then MaxDeleteDays else days
  }

  /** `Ban` as written: the comparison reads through the `DeleteDays` pointer
      whether or not it is set, so a ban without it never reaches the server. */
  function BanAsWritten(guildID: Snowflake, userID: Snowflake, data: BanData): (o: BanOutcome)
    ensures o.NilDereference? <==> data.deleteDays.None?
    ensures o.Issued? ==> o.request == BanRequest(guildID, userID, BanData(Some(ClampDeleteDays(data.deleteDays.value)), data.reason))
  {
    match data.deleteDays
    case None => NilDereference
    case Some(days) => Issued(BanRequest(guildID, userID, BanData(Some(ClampDeleteDays(days)), data.reason)))
  }

  /** `Ban` as intended: a missing number of days is left out of the request,
      a present one is capped at 7, and the reason is sent unchanged. */
  function Ban(guildID: Snowflake, userID: Snowflake, data: BanData): (r: BanRequest)
    ensures r.guildID == guildID && r.userID == userID && r.data.reason == data.reason
    ensures r.data.deleteDays.Some? <==> data.deleteDays.Some?
    ensures r.data.deleteDays.Some? ==> r.data.deleteDays.value <= MaxDeleteDays
    ensures data.deleteDays.Some? && data.deleteDays.value <= MaxDeleteDays ==> r.data == data
    ensures data.deleteDays.Some? && data.deleteDays.value > MaxDeleteDays ==> r.data.deleteDays == Some(MaxDeleteDays)
  {
    var days := match data.deleteDays
      case None => None
      case Some(n) => Some(ClampDeleteDays(n));
    BanRequest(guildID, userID, BanData(days, data.reason))
  }

  /** Wherever the code as written does not panic, it sends exactly the
      corrected request. */
  lemma BanAgreesWhenDaysGiven(guildID: Snowflake, userID: Snowflake, data: BanData)
    requires data.deleteDays.Some?
    ensures BanAsWritten(guildID, userID, data) == Issued(Ban(guildID, userID, data))
  {
  }

  /** The code as written panics on exactly the bans for which the corrected
      one leaves `delete_message_days` out of the request. */
  lemma BanPanicsWhereDaysOmitted(guildID: Snowflake, userID: Snowflake, data: BanData)
    ensures BanAsWritten(guildID, userID, data) == NilDereference
            <==> Ban(guildID, userID, data).data.deleteDays.None?
  {
  }

  /** Banning with the data already sent changes nothing further: the cap is
      idempotent. */
  lemma BanIdempotent(guildID: Snowflake, userID: Snowflake, data: BanData)
    ensures Ban(guildID, userID, Ban(guildID, userID, data).data) == Ban(guildID, userID, data)
  {
  }
}
