# Price gateway and symbol catalogue

This project models two parts of a trading back end written in TypeScript for NestJS.

## The price gateway

The real-time price gateway serves the `/prices` socket namespace:

- It authenticates a socket from a bearer credential. The credential can come from the handshake's `auth.token`, from the `Authorization` header, or from the `access_token` cookie.
- It registers every client connection, together with the set of symbol names that client subscribes to.
- It runs one price timer per subscribed (client, symbol) pair, kept under the interval key `<clientId>-<symbolName>`.
- On every tick, the timer sends the client the symbol's price with a small random variation.
- An administrator can force every connection of a user off.

## The symbol service

The symbol service manages the `symbols` table. It can:

- create a symbol, filling in defaults;
- list symbols page by page, newest first;
- list the public symbols;
- find, update and remove a symbol by id.

## Files

- `wrappers.dfy`: `Option` and `Result`.
- `text.dfy`: the JavaScript string operations the credential extraction uses.
  - `indexOf`, and `replace` with a string pattern.
  - `split` on one character, and `trim` with the ECMAScript white-space set.
- `token.dfy`: credential extraction from a handshake, with the priority and fall-through of `||`.
- `subscriptions.dfy`: the gateway's state as values, with the invariants that tie timers to subscriptions.
  - The interval key.
  - The subscription set, modelled as a duplicate-free sequence in insertion order.
  - What the subscribe and unsubscribe loops leave behind.
  - Lemmas that every operation keeps the invariants.
- `gateway.dfy`: the gateway as a class.
  - Fields: the connection map, the interval map, and an `outbox` recording what is sent to sockets.
  - One method per handler. Each loop is a `for`/`while` loop, proved against the functions of `subscriptions.dfy`.
- `pagination.dfy`: listing defaults and bounds, `skip`, `lastPage`, and the window of rows a page shows.
- `symbols.dfy`: symbol records, the newest-first order, and the `SymbolsService` class over the stored rows.

## Invariants

The gateway has two invariants.

- **`Valid`**: every running timer belongs to a live subscription. Its key is the key of the pair it captured; that client is still registered; and it is still subscribed to that symbol. No subscription set holds a name twice. Every operation keeps `Valid`, except re-registering a socket id that is already registered.
- **`InSync`**: `Valid` holds, every subscribed pair has its own timer under its key, and all socket ids have the server's fixed length of 20 characters.
  - The key is a plain string concatenation, so two different pairs can share one key (`KeysCanCollide`).
  - Only among client ids of one length is the key injective (`KeyInjective`).
  - The converse direction, "every subscription has a timer", therefore rests on the fixed id length.

Under `Valid`, a timer never stops itself. Under `InSync`, a client has a timer for a symbol exactly when it is subscribed to that symbol.

## Model

Source paths are relative to the repository root.

| member | source | states |
|---|---|---|
| Text.StartsWith | src/client/gateway/prices.gateway.ts:157 | `s.startsWith(p)`: `p` is a prefix of `s`. `AccessPrefixMakesAccessCookie` and `AccessCookieHasValue` rest on it. |
| Text.IndexOf | src/client/gateway/prices.gateway.ts:154 | The result is the first index where the pattern occurs; `None` means it occurs nowhere. |
| Text.ReplaceFirst | src/client/gateway/prices.gateway.ts:154 | Only the first occurrence is replaced, wherever it stands. Everything before and after it is kept. With no occurrence the string is unchanged. |
| Text.Split | src/client/gateway/prices.gateway.ts:156 | There is always at least one part, no part contains the separator, and joining the parts with the separator gives back the input. |
| Text.SplitWithoutSeparator | src/client/gateway/prices.gateway.ts:156 | A string without the separator splits into itself alone. |
| Text.SplitAtFirstSeparator | src/client/gateway/prices.gateway.ts:156-158 | The first separator ends the first part; the rest splits on its own. |
| Text.SplitHasTwoParts | src/client/gateway/prices.gateway.ts:158 | A string containing the separator has at least two parts, so index 1 exists. |
| Text.IsWhitespace | src/client/gateway/prices.gateway.ts:157 | The characters `trim` removes: the ECMAScript WhiteSpace and LineTerminator code points. `Trim`, `TrimIsSlice` and `TrimUnchanged` state what trimming does with them. |
| Text.Trim | src/client/gateway/prices.gateway.ts:157 | The result is no longer than the input. It is empty, or it begins and ends with a character that is not white space. |
| Text.TrimIsSlice | src/client/gateway/prices.gateway.ts:157 | The trimmed string is a slice of the input with only white space before and after it. |
| Text.TrimUnchanged | src/client/gateway/prices.gateway.ts:159 | A string with no white space at either end is its own trim. |
| TokenExtraction.Truthy | src/client/gateway/prices.gateway.ts:161 | JavaScript truthiness of a `string \| undefined`: present and non-empty. `Or` and `ExtractToken` are stated in its terms. |
| TokenExtraction.Or | src/client/gateway/prices.gateway.ts:161 | JavaScript `a \|\| b` on optional strings: the first non-empty value wins. The result is truthy exactly when either argument is. |
| TokenExtraction.HeaderToken | src/client/gateway/prices.gateway.ts:154 | A header value exists exactly when the header does. A header without `Bearer ` comes back unchanged; otherwise it is exactly `Bearer `'s length shorter. |
| TokenExtraction.FindAccessCookie | src/client/gateway/prices.gateway.ts:157 | Finds the first cookie element that starts with `access_token=` once trimmed; `None` means no element does. |
| TokenExtraction.AccessCookieHasValue | src/client/gateway/prices.gateway.ts:158 | Splitting an access cookie on `=` gives at least two pieces. |
| TokenExtraction.CookieToken | src/client/gateway/prices.gateway.ts:155-159 | The value of the first `;`-element that is the access cookie: its second `=`-piece, trimmed. `CookieTokenIffAccessCookie`, `SingleAccessCookie`, `AccessCookieValue` and `AccessCookieCutAtEquals` state what it yields. |
| TokenExtraction.CookieTokenIffAccessCookie | src/client/gateway/prices.gateway.ts:155-159 | The cookie header yields a value exactly when one of its `;`-elements is the access cookie. |
| TokenExtraction.ExtractToken | src/client/gateway/prices.gateway.ts:148-162 | The priority is `auth.token`, then the header without `Bearer `, then the cookie value; each is taken only when non-empty. The result is `None` exactly when all three are missing or empty, and is never the empty string. |
| TokenExtraction.BearerHeaderYieldsToken | src/client/gateway/prices.gateway.ts:154 | `Authorization: Bearer t` yields `t`. |
| TokenExtraction.BearerRemovedWherever | src/client/gateway/prices.gateway.ts:154 | The first `Bearer ` is removed even when it is not at the start: `a + "Bearer " + b` yields `a + b`. |
| TokenExtraction.AccessPrefixMakesAccessCookie | src/client/gateway/prices.gateway.ts:157 | Any element that begins with `access_token=` is the access cookie. |
| TokenExtraction.SingleAccessCookie | src/client/gateway/prices.gateway.ts:155-159 | A header made of a single access cookie yields its second `=`-piece, trimmed. |
| TokenExtraction.AccessCookiePieces | src/client/gateway/prices.gateway.ts:158 | Splitting `access_token=v` on `=` gives `access_token` followed by the pieces of `v`. |
| TokenExtraction.AccessCookieValue | src/client/gateway/prices.gateway.ts:155-159 | `access_token=v`, with no `;` in `v`, yields the first `=`-piece of `v`, trimmed. |
| TokenExtraction.AccessCookieYieldsToken | src/client/gateway/prices.gateway.ts:155-159 | `access_token=t` yields `t` when `t` is a plain value. |
| TokenExtraction.OtherCookieSkipped | src/client/gateway/prices.gateway.ts:156-157 | Cookie elements that come before the access cookie and are not it make no difference. |
| TokenExtraction.FindAccessCookieShift | src/client/gateway/prices.gateway.ts:157 | Searching past a leading element that does not qualify is the same as searching the tail. |
| TokenExtraction.AccessCookieCutAtEquals | src/client/gateway/prices.gateway.ts:158 | A value that contains `=` is cut there: `access_token=a=b` yields only `a`, trimmed. |
| Subscriptions.Key | src/client/gateway/prices.gateway.ts:165 | The interval key `clientId-symbol`. `KeyInjective`, `KeyDistinct` and `KeysCanCollide` state when it identifies its pair. |
| Subscriptions.KeyInjective | src/client/gateway/prices.gateway.ts:165 | Among client ids of one length, the interval key determines both the client and the symbol. |
| Subscriptions.KeyDistinct | src/client/gateway/prices.gateway.ts:165 | Different pairs whose client ids have one length get different keys. |
| Subscriptions.KeysCanCollide | src/client/gateway/prices.gateway.ts:165 | Without that assumption, two different pairs share a key. |
| Subscriptions.Added | src/client/gateway/prices.gateway.ts:112 | `Set.add`: adds the name to the members and keeps them free of duplicates. Existing members keep their order, and a new name goes last. |
| Subscriptions.Deleted | src/client/gateway/prices.gateway.ts:138 | `Set.delete`: removes the name from the members and keeps them free of duplicates. |
| Subscriptions.AddedThenDeleted | src/client/gateway/prices.gateway.ts:112-138 | Adding a new name and then deleting it restores the subscriptions exactly. |
| Subscriptions.AfterSubscribe | src/client/gateway/prices.gateway.ts:110-115 | After the subscribe loop, the subscriptions are the old ones plus exactly the requested names that are public. Old subscriptions stay first, and there are no duplicates. |
| Subscriptions.AfterUnsubscribe | src/client/gateway/prices.gateway.ts:137-140 | After the unsubscribe loop, the subscriptions are the old ones minus every requested name, whether present or not. |
| Subscriptions.Started | src/client/gateway/prices.gateway.ts:164-197 | The key set gains exactly the pair's key, and every existing timer is kept. A new timer is the pair's own, so an existing key is left alone. |
| Subscriptions.StartedAll | src/client/gateway/prices.gateway.ts:110-115 | After the subscribe loop, existing timers are untouched and every public requested name has a timer under its key. Each new timer belongs to this client and to a public requested name. |
| Subscriptions.KeysFor | src/client/gateway/prices.gateway.ts:85-87 | The keys of one client for a list of names; `StopAll`, `UnsubscribeEach` and `DisconnectClient` remove exactly these. `KeysForSnoc` extends it by one name. |
| Subscriptions.SyncedExact | src/client/gateway/prices.gateway.ts:164-206 | Under `InSync`, a client has a timer for a symbol exactly when it is subscribed, and that timer is the pair's own. |
| Subscriptions.ConnectPreserves | src/client/gateway/prices.gateway.ts:65-69 | Registering a new socket with an empty set keeps `Valid`, and keeps `InSync` when the id has the fixed length. |
| Subscriptions.SubscribePreserves | src/client/gateway/prices.gateway.ts:110-115 | The subscribe loop keeps `Valid` and `InSync`. |
| Subscriptions.UnsubscribePreserves | src/client/gateway/prices.gateway.ts:137-140 | The unsubscribe loop keeps `Valid` and `InSync`. |
| Subscriptions.DropPreserves | src/client/gateway/prices.gateway.ts:85-88 | Stopping all of a client's timers and then forgetting the client keeps `Valid` and `InSync`. |
| Subscriptions.SubscribeThenUnsubscribe | src/client/gateway/prices.gateway.ts:110-140 | Under `InSync`, subscribing to one new public name and unsubscribing it restores both the subscriptions and the timer map, so no timer is left for that key. |
| PricesGateway.Authenticate | src/client/gateway/prices.gateway.ts:46-77 | A user is admitted exactly when a token exists, it verifies, its subject resolves to a user, and that user's role is `client`. A missing token gives the no-token message; every other failure gives `Authentication failed`. |
| PricesGateway.VariedPrice | src/client/gateway/prices.gateway.ts:185-186 | For a random draw in [0, 1), a tick's price stays within ±5% of a non-negative stored price. |
| PricesGateway.UserKeys | src/client/gateway/prices.gateway.ts:210-215 | The interval keys of the user's connections among the visited ids, which the loop of `disconnectClient` clears. `DisconnectClient` ensures the timers lose exactly these keys. |
| PricesGateway.Remaining | src/client/gateway/prices.gateway.ts:210-217 | The connections the loop keeps: all but the visited ones of that user. `DisconnectClient` ensures the connection map becomes exactly this. |
| PricesGateway.Gateway.HandleConnection | src/client/gateway/prices.gateway.ts:46-78 | An admitted socket is registered with the user's id and an empty set, and is sent `connected`. On every failure nothing is registered, `error` is sent with the message, and the socket is disconnected. Timers are untouched. `Valid` is kept for a new socket id, and `InSync` for a new socket id of the fixed length of 20 characters. |
| PricesGateway.Gateway.StartPriceUpdates | src/client/gateway/prices.gateway.ts:164-197 | Idempotent: an existing key is left alone, so there is at most one timer per key. Otherwise the pair's timer is added. |
| PricesGateway.Gateway.StopPriceUpdates | src/client/gateway/prices.gateway.ts:199-206 | Removes exactly the pair's key. Does nothing when the key is absent. |
| PricesGateway.Gateway.StopAll | src/client/gateway/prices.gateway.ts:85-87 | Stopping each name in turn removes exactly the keys of those names. |
| PricesGateway.Gateway.HandleDisconnect | src/client/gateway/prices.gateway.ts:80-90 | For a registered socket, all its subscription timers are stopped and the socket is forgotten. An unknown socket changes nothing. Both invariants are kept. |
| PricesGateway.Gateway.HandleSubscribe | src/client/gateway/prices.gateway.ts:93-121 | An unregistered socket gets `Not authenticated` and a missing list gets `Invalid symbols array`; neither map changes. Otherwise the state becomes `AfterSubscribe`/`StartedAll`, and the reply carries the whole updated set. Both invariants are kept. |
| PricesGateway.Gateway.SubscribeEach | src/client/gateway/prices.gateway.ts:110-115 | The loop adds the name and then starts the timer, reaching exactly the `AfterSubscribe`/`StartedAll` state. |
| PricesGateway.Gateway.SubscribeOne | src/client/gateway/prices.gateway.ts:111-113 | One turn for a public name: it is added to the client's set and its timer is started. Nothing else changes. |
| PricesGateway.Gateway.HandleUnsubscribe | src/client/gateway/prices.gateway.ts:124-146 | Same error cases as subscribe. Otherwise every named key is removed and the state becomes `AfterUnsubscribe`, and the reply carries the whole remaining set. Both invariants are kept. |
| PricesGateway.Gateway.UnsubscribeEach | src/client/gateway/prices.gateway.ts:137-140 | The loop deletes the name and then stops the timer, reaching exactly the `AfterUnsubscribe` state with the named keys gone. |
| PricesGateway.Gateway.UnsubscribeOne | src/client/gateway/prices.gateway.ts:138-139 | One turn: the name is deleted from the client's set and its key is removed. Nothing else changes. |
| PricesGateway.Gateway.Tick | src/client/gateway/prices.gateway.ts:172-194 | If the client is gone or unsubscribed, the timer stops itself and nothing is sent. Otherwise a price update is sent when the symbol is public; when it is not, nothing is sent and the timer is kept. Under `Valid`, the timer never stops itself. |
| PricesGateway.Gateway.SendPrice | src/client/gateway/prices.gateway.ts:180-192 | A firing sends one price update, the varied price of the first public symbol with the timer's name, or nothing when there is none. The maps are untouched. |
| PricesGateway.Gateway.VisitConnection | src/client/gateway/prices.gateway.ts:211-220 | A matching connection has its timers stopped, is disconnected and is forgotten. A non-matching one is left alone. |
| PricesGateway.Gateway.DisconnectNext | src/client/gateway/prices.gateway.ts:210-221 | One more connection is visited, and the loop's bookkeeping is kept. |
| PricesGateway.Gateway.DisconnectClient | src/client/gateway/prices.gateway.ts:208-223 | Returns true exactly when some connection belongs to the user. Exactly those connections and their timers are removed, each gets one disconnect, and none is left, so a second call returns false. Both invariants are kept. |
| Pagination.IsValid | src/symbols/dto/pagination.dto.ts:6-19 | The bounds validation enforces on numbers that are given: `@IsInt` and `@Min(1)` on the page, and `@Min(1)` and `@Max(100)` on the count. An omitted field passes. `PageOf`, `CountOf` and `FindAll` require it. |
| Pagination.PageOf | src/symbols/symbols.service.ts:26 | The page defaults to 1 when omitted and is echoed otherwise. It is at least 1. |
| Pagination.CountOf | src/symbols/symbols.service.ts:26 | The count defaults to 10 when omitted and is echoed otherwise. It lies in 1..100. |
| Pagination.Skip | src/symbols/symbols.service.ts:27 | `(page - 1) * count` rows come before a page. `PageNonEmptyIff` and `RowOnItsPage` state which rows the window after it shows. |
| Pagination.LastPage | src/symbols/symbols.service.ts:35 | `Math.ceil(total / count)` in integers. `LastPageIsCeiling` states that it is the ceiling. |
| Pagination.LastPageIsCeiling | src/symbols/symbols.service.ts:35 | `lastPage` is 0 for no rows. Otherwise `(lastPage-1)*count < total <= lastPage*count`. |
| Pagination.Window | src/symbols/symbols.service.ts:29-33 | `skip`/`take` yields `take` rows starting at `skip`, cut at the end. |
| Pagination.PageNonEmptyIff | src/symbols/symbols.service.ts:27-35 | A page shows rows exactly when its number is at most `lastPage`. |
| Pagination.RowOnItsPage | src/symbols/symbols.service.ts:27-35 | Row `k` is row `k % count` of page `k / count + 1`, and that page is within `lastPage`. |
| Symbols.InsertNewestFirst | src/symbols/symbols.service.ts:32 | Inserting into a newest-first sequence keeps it newest first and adds exactly that row. |
| Symbols.SortNewestFirst | src/symbols/symbols.service.ts:32 | The result is ordered by `createdAt` descending and is a permutation of the rows. |
| Symbols.SortKeepsNewestFirst | src/symbols/symbols.service.ts:32 | Rows already newest first keep their order. |
| Symbols.PublicOnly | src/symbols/symbols.service.ts:56 | Keeps every public row, each as often as it occurs, and no other. |
| Symbols.IndexOfId | src/symbols/symbols.service.ts:47 | Finds the index of a row with that id, or `None` when no row has it. |
| Symbols.UniqueRows | src/symbols/entities/symbol.entity.ts:11-15 | The table's constraints: the primary key `id` and the `unique` name. `SymbolsService.Valid` is this, and `Create`, `Update`, `Remove` and `WithoutIdKeepsUnique` keep it. |
| Symbols.NewRecord | src/symbols/symbols.service.ts:17-21 | `public` is true only when `true` is supplied. The price is the supplied one, or 0 when it is omitted. The name, the id and both time stamps are set. |
| Symbols.Applied | src/symbols/symbols.service.ts:62-64 | Each supplied field overwrites the stored one and every other field is kept. The id and creation time never change. The update time moves to `now` exactly when some column changed, since a save with no change writes nothing. |
| Symbols.UnchangedUpdateKeepsRow | src/symbols/symbols.service.ts:62-64 | An update whose supplied fields hold the stored values leaves the row exactly as it was, the empty update included. |
| Symbols.ListPage | src/symbols/symbols.service.ts:25-44 | `total`, `page` and `count` are echoed. The data has at most `count` rows, is newest first, and is drawn from the stored rows. |
| Symbols.ListedLastPage | src/symbols/symbols.service.ts:35-43 | The listing's `lastPage` is the ceiling of total over count, and a page has data exactly when it is within `lastPage`. |
| Symbols.EveryRowListed | src/symbols/symbols.service.ts:27-33 | Every stored row is on some page between 1 and `lastPage`. |
| Symbols.PublicListing | src/symbols/symbols.service.ts:54-59 | Exactly the public rows, newest first. |
| Symbols.PublicListingMembership | src/symbols/symbols.service.ts:54-59 | A row is listed publicly exactly when it is stored and public. |
| Symbols.WithoutId | src/symbols/symbols.service.ts:69 | The delete by key that `remove` performs. `WithoutIdMembership`, `WithoutIdKeepsUnique` and `WithoutIdDropsOne` state what it leaves: exactly the rows with another id, still unique, and one row fewer when the id was stored. |
| Symbols.WithoutIdMembership | src/symbols/symbols.service.ts:69 | Deleting by key leaves exactly the rows with other ids. |
| Symbols.WithoutIdKeepsUnique | src/symbols/symbols.service.ts:69 | Deleting by key keeps ids and names unique. |
| Symbols.WithoutIdDropsOne | src/symbols/symbols.service.ts:68-69 | When exactly one row carries the id, as under unique ids, deleting by it removes that row and keeps the order of the rest. |
| Symbols.Names | src/client/gateway/prices.gateway.ts:108 | `map(s => s.name)`: one name per row, in order. |
| Symbols.FindByName | src/client/gateway/prices.gateway.ts:181 | `find` returns the first row with that name: no earlier row has it. The result is `None` exactly when no row has it. |
| Symbols.FoundIffNamed | src/client/gateway/prices.gateway.ts:181 | `find` by name succeeds exactly when the name is among the names. |
| Symbols.SymbolsService.FindOne | src/symbols/symbols.service.ts:46-52 | Finds the stored row with that id. Fails with `Symbol not found` exactly when no row has it. |
| Symbols.SymbolsService.FindPublic | src/symbols/symbols.service.ts:54-59 | Returns only the public rows, all of them, ordered by `createdAt` descending. |
| Symbols.SymbolsService.FindAll | src/symbols/symbols.service.ts:25-44 | Applies the defaults, uses `skip = (page-1)*count` and `take = count` over the newest-first order, echoes total, page and count, and sets `lastPage = ceil(total/count)`. |
| Symbols.SymbolsService.Create | src/symbols/symbols.service.ts:16-23 | A taken name fails and changes nothing. Otherwise the `NewRecord` row is appended. Uniqueness is kept. |
| Symbols.SymbolsService.Update | src/symbols/symbols.service.ts:61-65 | An unknown id fails with `Symbol not found` and changes nothing. A name taken by another row fails with `NameTaken` and changes nothing. Otherwise only that row becomes `Applied`. Uniqueness is kept. |
| Symbols.SymbolsService.Remove | src/symbols/symbols.service.ts:67-70 | An unknown id fails with `Symbol not found` and changes nothing. Otherwise exactly that row is removed. |

## Left out

- Framework plumbing is not modelled: NestJS and socket.io, the decorators, CORS, the logger, and HTTP status codes.
  - A socket is its id.
  - `emit` and `disconnect` are entries appended to `outbox`.
  - A handler's return value is a `Reply`.
- Credential verification and the user lookup are function parameters of `HandleConnection`: `verify` returns the credential's subject, and `findUser` returns the stored user. Their internals are left out:
  - JWT signature and expiry checks;
  - the configured secret;
  - the database query.

  A thrown error from either is modelled as `None`.
- Real timers are not modelled. `setInterval` and `clearInterval` are an insert and a delete on the interval map, and one firing is the explicit `Tick` method.
- Interleavings at the `await` points in `handleConnection`, `handleSubscribe` and the tick body are not modelled; each handler runs atomically.
  - For example, a client that disconnects while `findPublic` is pending is not modelled.
  - The tick's self-cancel guards against such races. Under `Valid`, `Tick`'s contract shows that no synchronous path reaches it.
- The socket disconnect that `disconnectClient` triggers can call `handleDisconnect` again. That re-entry is not modelled.
  - The socket is disconnected before its entry is deleted (src/client/gateway/prices.gateway.ts:216-217). So a disconnect hook that runs at once finds the connection still registered.
  - It stops timers that are already stopped and deletes the entry itself, and the delete that follows then removes nothing.
  - The final state is the same as in the model.
- `DisconnectClient` visits connections in an unspecified order. JavaScript visits them in insertion order.
  - Only the order of the `Disconnected` events depends on it.
  - That order is the ghost result `visited`.
- PricesGateway.VariedPrice: floating-point arithmetic, `toFixed(2)` rounding and the `Date` timestamp of a price update are left out.
  - Prices are exact reals and the random draw is a parameter.
  - So the model shows only the ±5% bound and not the rounded value.
- PricesGateway.Gateway.HandleSubscribe: elements of the `symbols` array that are not strings are not modelled; a list is a sequence of strings. In the source such an element never matches a public name, so it is skipped like a name that is not public.
  - A missing list and a list that is not an array are both `None`.
  - A message body that is itself missing is not modelled; it makes the source throw.
- PricesGateway.Gateway.HandleUnsubscribe: non-string elements of the `symbols` array are not modelled, and with them `InSync` can break. Suppose a client subscribed to `"5"` sends the number `5` or the array `["5"]`.
  - `Set.delete` removes nothing: it does not equate that value with the string `"5"` (src/client/gateway/prices.gateway.ts:138).
  - `stopPriceUpdates` builds the key `<clientId>-5` from it and clears the timer of `"5"` (src/client/gateway/prices.gateway.ts:139).
  - The client stays subscribed to `"5"` with no timer. `Valid` still holds; `InSync` does not.
- PricesGateway.Gateway.HandleConnection: `Valid` is promised only for a socket id not yet registered. Re-registering an id resets its subscriptions while their timers run on; the next tick of each then stops it.
- Subscriptions.Synced: the match between every subscription and its own timer is proved only for socket ids of the server's fixed length (20 characters). For ids of different lengths, `KeysCanCollide` exhibits a shared key; a second pair under that key would get no timer.
- Symbols.SymbolsService.FindAll: rows with equal `createdAt` come out in one fixed order. The database does not specify an order among them.
- Symbols.SymbolsService.Create: the uuid generator and the database clock are parameters, `newId` and `now`.
  - Ids are assumed fresh; time stamps are integers.
  - Rounding of the price to the `decimal(10,2)` column is left out.
  - A failed unique-name save is the `NameTaken` error rather than a database exception.
- Symbols.SymbolsService.FindOne: a malformed id is not modelled. Every absent id fails with `Symbol not found`.
  - The id column is a Postgres `uuid`, and the route does not check that the id is one.
  - So an id that is not a well-formed uuid makes the query fail with a database error, not `Symbol not found`.
- Symbols.SymbolsService.Update: a malformed id is not modelled. Via the lookup of `findOne`, such an id fails with a database error rather than `Symbol not found`.
- Symbols.SymbolsService.Remove: a malformed id is not modelled. Via the lookup of `findOne`, such an id fails with a database error rather than `Symbol not found`.
- Symbols.SymbolsService.Update: an update field explicitly set to `null`, or present but `undefined`, is not modelled. Each field is either supplied or absent.
- Symbols.SymbolsService.FindPublic: a database error is not modelled; the listing always succeeds. In the source, `findPublic` can reject.
  - In `handleSubscribe` (src/client/gateway/prices.gateway.ts:107), the handler then rejects after both checks, with no change of state.
  - In the tick (src/client/gateway/prices.gateway.ts:180), the callback has no `catch`, so the rejection goes unhandled rather than skipping one emission.
- Pagination.PageOf: an explicit JSON `null` page is not represented. `None` is an omitted page, which becomes 1.
  - In the source, `@IsOptional` lets `null` through and `@Type(() => Number)` keeps it `null`.
  - The default in `findAll`'s destructuring (src/symbols/symbols.service.ts:26) applies only to `undefined`.
  - So `skip` is `(null - 1) * count`, a negative offset that the database rejects.
- Pagination.CountOf: an explicit JSON `null` count is not represented. `None` is an omitted count, which becomes 10.
  - In the source, a `null` count gives `take: null`, so every row is listed.
  - It also gives a `lastPage` of `Math.ceil(total / null)`: Infinity, or NaN with no rows. Both are serialised as `null`.
- Symbols.SymbolsService.FindAll: the two `null` cases above are not modelled. The source then fails with a database error, or lists every row with no finite last page.
- Pagination.PageOf: page numbers are unbounded integers. In the source, `page` and `count` are JavaScript numbers, and validation puts no upper bound on `page`.
- Pagination.Skip: `(page - 1) * count` is exact here. In the source it loses precision past 2^53, so a page far past the data is computed in floating point.
- TokenExtraction.ExtractToken: `auth.token` is modelled as a string. In the source it is client-supplied JSON and can be another truthy value, such as a number.
  - Such a value still wins the `||` over a valid header, and then fails verification.
  - The model can represent it as a non-empty string that `verify` rejects.
- DTO validation is not modelled, except for the pagination bounds that `IsValid` states for numbers that are given: a page of at least 1 and a count from 1 to 100. An explicit `null` also passes validation; see `Pagination.PageOf` and `Pagination.CountOf` above. Validation of create and update bodies, such as a non-negative price, is left out.
- Controllers, modules, application bootstrap, database configuration, seed scripts, the admin service and the users service are not part of this model.
