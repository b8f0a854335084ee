# Guild member listing, pruning and bans of the arikawa REST client

This project models the logic of `api/member.go` in arikawa, a Go client for the Discord REST API. Most functions in that file build one request and pass it to the shared HTTP client. Four parts do more than that:

- **`MembersAfter` / `Members`.** These page through a guild's members 1000 at a time. A zero `limit` means "all of them". Each page's size is `min(1000, what is left)`. Each page is appended to the result. An error returns the members gathered so far. The loop stops once fewer than 1000 members are gathered in total; otherwise it moves the `after` cursor to the 1000th member gathered.
- **`membersAfter`.** It sends one list-guild-members request with the page size clamped to 1000.
- **`PruneCount`, `Prune`, `PruneWithCount`.** They default a `days` of 0 to 7. They differ in the verb and in the `compute_prune_count` flag they send.
- **`Ban`.** It caps `DeleteDays` at 7 before sending the ban.

Modules:

- **`Discord`** (`discord.dfy`): the values exchanged — snowflakes, `uint`, members, errors and the `Result` of a request.
- **`Pagination`** (`pagination.dfy`): the loop as written.
  - The request executor is a parameter: a `PageSource` maps the n-th request's query to a page or an error.
  - `Loop` is the loop as a function of its state. The method `MembersAfter` runs the same loop with a `while` statement and is proved equal to it.
  - The lemmas state what holds for every page source.
- **`GuildServer`** (`guild_server.dfy`): a concrete server for one guild. Its members are sorted by strictly increasing id. A query gets the first `limit` members above its cursor. Against this server, the loop as written shows the two defects listed under Findings.
- **`PaginationFixed`** (`pagination_fixed.dfy`): the loop corrected so that it does what its documentation promises. It stops on a short page and advances the cursor to the last member gathered. Its lemmas hold for any server that lists a sequence of members in order (`GuildServer.ServesInOrder`). A sorted guild's endpoint is one such server, so the corrected loop returns exactly the members above the cursor, up to the limit.
- **`Prune`** (`prune.dfy`): the requests of the three prune calls.
- **`Bans`** (`bans.dfy`): `Ban` as written, which panics without `DeleteDays`, and `Ban` as intended.

Notes on the model:

- **Unlimited mode.** `MembersAfter(guildID, after, 0)` is not guaranteed to terminate; Findings row 1 shows when it does not. The model therefore takes a `fuel` argument that bounds the number of requests in unlimited mode only. A run that spends its fuel ends with status `Stalled`. Bounded runs never look at the fuel, and they are proved never to stall.
- **Code over documentation.** The doc comment of `MembersAfter` (api/member.go:28-34) promises that a zero limit fetches all members within range. The comment on the break (api/member.go:58) says the test means no more members are left. The code tests the cumulative count instead, and the model follows the code. The documented behaviour is modelled separately as `PaginationFixed`.

## Model

| member | source | states |
|---|---|---|
| Pagination.PageLimit | api/member.go:72-77 | the page size sent is 0 for 0, 1000 for anything above 1000 and unchanged otherwise, so never above 1000 |
| Pagination.Rest | api/member.go:45-50 | after an iteration, a bounded limit drops by exactly the page size asked for and reaches 0 exactly when that request takes the last of it; an unlimited one stays 0 |
| Pagination.Loop | api/member.go:44-63 | the loop itself, defined by its body: one request per iteration, return on an error or once fewer than 1000 are gathered, else cursor on index 999. Its contract states only that a run can end `Stalled` in unlimited mode alone; its properties are `LoopExtends`, `LoopRequestSizes`, `LoopWithinLimit`, `LoopGathers`, `LoopStopRule`, `LoopCursor`, `LoopNeverReturns` and `LoopNeverFinishes` |
| Pagination.Paginate | api/member.go:35-67 | `MembersAfter`, defined by its body as `Loop` from an empty state with `limit == 0` meaning unlimited; its contract states that only an unlimited run can end `Stalled`, and its properties are the lemmas about `Paginate` below |
| Pagination.FetchSize | api/member.go:44-50 | each iteration asks for between 1 and 1000 members, and no more than what is left of a bounded limit |
| Pagination.MembersAfter | api/member.go:35-67 | the imperative loop returns exactly the members, error status and request log of the loop function `Paginate` |
| Pagination.Members | api/member.go:24-26 | `Members` is `MembersAfter` from cursor 0; the query struct of its first request has `after` = 0 |
| Pagination.LoopExtends | api/member.go:56 | a run only appends: the members gathered before are a prefix of the result, and the requests sent before a prefix of the log |
| Pagination.RequestSizes | api/member.go:42-50 | the k-th request asks for min(1000, limit - 1000k) members in a bounded run and 1000 in an unlimited one; a bounded run makes at most ceil(limit/1000) requests and never stalls |
| Pagination.LoopRequestSizes | api/member.go:44-50 | from any loop state, every later request asks for min(1000, what is left) and a bounded run is never the one that stalls |
| Pagination.WithinLimit | api/member.go:44-56 | with a server that returns at most the requested count per page, a bounded run returns at most `limit` members |
| Pagination.LoopWithinLimit | api/member.go:44-56 | from any loop state, the members gathered grow by at most what is left of the limit |
| Pagination.PagesConcatenated | api/member.go:52-56 | the result is the pages concatenated in request order; on a failed request the result is exactly the earlier pages, all successful, with that request's error |
| Pagination.GatheredStep | api/member.go:56 | appending one more successful page keeps the members equal to the concatenated pages |
| Pagination.GatheredPrefix | api/member.go:56 | the concatenated pages of a request log's first k requests do not depend on later requests |
| Pagination.LoopGathers | api/member.go:52-56 | from any loop state, the result is the concatenated pages, or the pages before the failing request with that request's error |
| Pagination.StopsBelowHardLimit | api/member.go:58-61 | a request after the first is sent only when the pages before it hold at least 1000 members together |
| Pagination.StopRuleStep | api/member.go:58-61 | adding a request after at least 1000 gathered members keeps the stop rule true of the log |
| Pagination.LoopStopRule | api/member.go:58-61 | from any loop state, every further request follows at least 1000 gathered members |
| Pagination.ShortFirstPage | api/member.go:52-61 | a first page of fewer than 1000 members ends the run after exactly that one request, with that page as the result |
| Pagination.CursorPinned | api/member.go:52-63 | the first request is sent from `after`; every later one from the id of the 1000th member gathered (index 999) |
| Pagination.LoopCursor | api/member.go:63 | from any loop state, every request after the current one is sent from the id of the 1000th member gathered |
| Pagination.UnlimitedNeverReturns | api/member.go:42-63 | in unlimited mode, with a server that never fails and a first page of 1000 members, the run has not returned after any number of requests |
| Pagination.LoopNeverFinishes | api/member.go:44-63 | whatever the server does, an unlimited run with 1000 members gathered never ends with a result: only an error or running out of fuel ends it |
| Pagination.UnlimitedNeverFinishes | api/member.go:42-63 | whatever the server does, unlimited `MembersAfter` whose first request brings 1000 members never returns a result, only an error or nothing |
| Pagination.LoopNeverReturns | api/member.go:44-63 | in unlimited mode with 1000 members gathered, neither exit fires again: every unit of fuel becomes one more request |
| Pagination.LoopStep | api/member.go:44-63 | one iteration that gets a page bringing the total to 1000 or more continues from the cursor at index 999 |
| Pagination.LoopFailure | api/member.go:52-55 | one iteration whose request fails ends the run with the members gathered so far and that error |
| Pagination.LoopLast | api/member.go:56-61 | one iteration that leaves fewer than 1000 members gathered ends the run with them |
| Pagination.FailedRequest | api/member.go:52-55 | a run ending on a failed request returns exactly the pages before it, all successful, with that request's error |
| Pagination.FinishedRequest | api/member.go:56-61 | a run ending on a successful request returns all the pages concatenated |
| Pagination.SizedStep | api/member.go:44-50 | a request for min(1000, remaining) followed by requests sized from what is then left makes a log sized from `remaining` |
| Pagination.TwoFullPages | api/member.go:44-63 | a bounded run above 2000 whose first two pages are full goes on with 2000 fewer wanted and the cursor on the 1000th member |
| Pagination.PinnedCursorRepeats | api/member.go:59-63 | whatever the server, a bounded run above 2000 whose first two pages are full sends its third request from the second's cursor, so index 2000 of the result holds the third page's first member |
| GuildServer.Server | api/member.go:69-91 | the list-guild-members endpoint of one guild, defined by its body as the first `limit` members above the cursor; its contract states that it never fails and never returns more than the limit, and `SortedServesInOrder` and `ServerAnswer` state its answers on a sorted guild |
| GuildServer.Above | api/member.go:69-91 | the members a server returns for a cursor all have ids above it |
| GuildServer.Take | api/member.go:69-91 | a page is a prefix of the members above the cursor, of length min(limit, available) |
| GuildServer.AboveIsSuffix | api/member.go:63 | in a sorted guild the members above a cursor are a suffix of the member list |
| GuildServer.AboveMember | api/member.go:63 | in a sorted guild the members above the p-th member's id are exactly those after it |
| GuildServer.AboveNext | api/member.go:63 | moving the cursor to the j-th member above `after` leaves exactly the members after that one |
| GuildServer.AllAbove | api/member.go:69-91 | a list whose ids are all above the cursor is returned whole |
| GuildServer.LargeGuildNeverReturns | api/member.go:42-63 | unlimited `MembersAfter` on a guild with at least 1000 members above the cursor, a guild of exactly 1000 included, has not returned after any number of requests |
| GuildServer.SortedServesInOrder | api/member.go:69-91 | the endpoint of a sorted guild answers the cursor at any position among the members above the start with the next members, as many as asked or as are left |
| GuildServer.ServerAnswer | api/member.go:69-91 | one answer of the sorted guild's endpoint, from the cursor at position n, is the next members from n |
| GuildServer.AboveCursor | api/member.go:63 | in a sorted guild the members above the cursor at position n are the rest of the members above the start |
| GuildServer.FirstThreeAnswers | api/member.go:52-63 | for a bounded run above 2000 the sorted guild's endpoint answers with members 1-1000, then twice from the 1000th member with the members after it |
| GuildServer.DuplicatesPastSecondPage | api/member.go:59-63 | with limit above 2000 and at least 2000 members above the cursor, the third request repeats the second's cursor and the result holds the 1001st member twice, so it is not sorted |
| PaginationFixed.LoopFixed | api/member.go:44-63 | the corrected loop, defined by its body: the loop of `Loop` with the break on a short page and the cursor on the last member gathered; its contract states that only an unlimited run can end `Stalled`, and its properties are `LoopFixedBounded` and `LoopFixedUnlimited` |
| PaginationFixed.PaginateFixed | api/member.go:35-67 | the corrected `MembersAfter`, defined by its body as `LoopFixed` from an empty state; its contract states that only an unlimited run can end `Stalled`, and `FixedFetchesRange` states what it returns |
| PaginationFixed.MembersAfterFixed | api/member.go:35-67 | the corrected imperative loop returns exactly what the corrected loop function `PaginateFixed` returns |
| PaginationFixed.FixedFetchesRange | api/member.go:28-34 | on a sorted guild, the corrected loop returns exactly the first `limit` members above the cursor, or all of them when the limit is 0, and an unlimited run returns within (members above the cursor)/1000 + 1 requests |
| PaginationFixed.LoopFixedBounded | api/member.go:44-63 | against any server listing a sequence in order, a bounded corrected run that holds its first n members gathers the first n + `remaining` of them, or all of them |
| PaginationFixed.FixedBoundedLast | api/member.go:52-61 | a short page from an in-order server ends a bounded corrected run with the first n + `remaining` members of the sequence |
| PaginationFixed.FixedBoundedFull | api/member.go:52-63 | a full page from an in-order server moves a bounded corrected run on to the next 1000 members, with the cursor on the last of them |
| PaginationFixed.LoopFixedUnlimited | api/member.go:42-63 | against any server listing a sequence in order, an unlimited corrected run gathers the whole sequence within one request per full page still to come plus one, given that much fuel |
| PaginationFixed.LoopFixedStep | api/member.go:44-63 | one corrected iteration that gets a full page continues from the last member gathered |
| PaginationFixed.LoopFixedLast | api/member.go:59-61 | one corrected iteration that gets a short page returns what is gathered |
| Prune.PruneDays | api/member.go:182-184 | the `days` sent is at least 1: 7 when 0 is given, the given value otherwise, and equal to the input exactly when the input is not 0 |
| Prune.PruneCount | api/member.go:181-201 | `PruneCount` sends a GET with the defaulted days and no `compute_prune_count`, and reads the count back |
| Prune.Prune | api/member.go:206-224 | `Prune` sends a POST with the defaulted days and `compute_prune_count` false, and reads nothing back |
| Prune.PruneWithCount | api/member.go:230-252 | `PruneWithCount` sends a POST with the defaulted days and `compute_prune_count` true, and reads the count back |
| Prune.PruneDaysIdempotent | api/member.go:182-184 | defaulting an already defaulted window changes nothing |
| Prune.PruneCallsAgree | api/member.go:181-252 | the three calls send the same non-zero window for the same input; `PruneCount` does not use the verb that starts a prune, and the count is computed by exactly the calls that read it |
| Bans.ClampDeleteDays | api/member.go:300-302 | the days sent are at most 7 and at most the input, equal to the input exactly when it is 7 or less, and 7 otherwise |
| Bans.BanAsWritten | api/member.go:299-309 | `Ban` as written panics exactly when `DeleteDays` is absent; otherwise it sends the ban with the days capped at 7 and the reason unchanged |
| Bans.BanPanicsWhereDaysOmitted | api/member.go:299-309 | the code as written panics on exactly the bans for which the corrected one leaves `delete_message_days` out of the request |
| Bans.Ban | api/member.go:289-309 | the corrected ban keeps an absent `DeleteDays` absent, caps a present one at 7, keeps values of 7 or less and the reason unchanged |
| Bans.BanAgreesWhenDaysGiven | api/member.go:299-309 | whenever `DeleteDays` is present, the code as written sends exactly the corrected request |
| Bans.BanIdempotent | api/member.go:300-302 | banning again with the data already sent sends the same request |

## Left out

- `api/channel.go`: every function in it builds one path and hands it to the HTTP client. The only exception is that `EditChannelPermission` clears the overwrite's id after building the path.
- `Member`, `AddMember`, `ModifyMember`, `Kick`, `Bans`, `GetBan` and `Unban` are not modelled: each is a single request with no logic of its own.
- The HTTP client, JSON decoding and query-string encoding are not modelled. `RequestJSON`, `FastRequest`, `WithSchema` and `WithJSONBody` are not part of this model.
  - A page fetch is a `PageSource` argument.
  - The prune and ban calls are modelled as the request they build.
- URL paths are not modelled: `EndpointGuilds` and `Snowflake.String` are not part of this model, and path building is plain concatenation.
- `Prune.PruneCount`, `Prune.PruneWithCount`: the decoded `pruned` count, and the zero returned beside an error, are not modelled; only whether the call reads the count is.
- `Bans.BanAsWritten`: the cap writes through the `DeleteDays` pointer, so the caller's own value changes too. The model returns the capped value in the request instead and does not model that aliasing.
- `Pagination.MembersAfter`: in unlimited mode the run is cut off after `fuel` requests with status `Stalled`. This stands in for a run that does not return; the source has no such bound. Bounded runs are unaffected.
- `GuildServer.Server`: the server's handling of `limit` 0 (its own default page size) is not modelled; it returns an empty page. The paginator never sends 0 (`Pagination.RequestSizes`).
- `uint` is modelled as the 64-bit unsigned range. No arithmetic of the loop can leave that range, so wrap-around plays no part.
- Server-side behaviour described in the doc comments (permissions, gateway events, status codes) is not implemented by this code and is not modelled.

## Findings

| source | as written | input that shows it | evidently intended | confidence | as-written member | corrected member |
|---|---|---|---|---|---|---|
| api/member.go:59-61 | the loop stops only when the cumulative count `len(mems)` is below 1000, so an unlimited run never stops once 1000 members are gathered | `MembersAfter(g, 0, 0)` on a guild of exactly 1000 members: the second page is empty, yet 1000 are gathered and the same query repeats forever | stop when the newest page holds fewer than 1000 members, so that an unlimited run returns everything above the cursor | high (not executed) | GuildServer.LargeGuildNeverReturns | PaginationFixed.FixedFetchesRange |
| api/member.go:63 | the cursor is always the 1000th accumulated member (`mems[999]`), not the last one | `MembersAfter(g, 0, 3000)` on a guild of 3000 members: the third request repeats the second's cursor, so members 1001-2000 come back twice | move the cursor to the last member gathered | high (not executed) | GuildServer.DuplicatesPastSecondPage | PaginationFixed.FixedFetchesRange |
| api/member.go:300 | `*data.DeleteDays` is read unconditionally although the field is an optional pointer | `Ban(g, u, BanData{})`, which leaves `DeleteDays` nil: the dereference panics before any request | cap `DeleteDays` only when it is set | high (not executed) | Bans.BanAsWritten | Bans.Ban |

