# Notification registry: verified model of the store and dispatch logic

This project models the core of a small crypto-alert notification service
(`app.py`). Clients register a notification payload; the service files it
under a generated id in a store that it rewrites to one JSON file after
every insertion and reloads at start-up. On request it sends a registered
notification's payload to a list of email addresses and reports, per
address, whether the send succeeded, with a `"<k>/<n> emails sent"` summary.

Modules:

- `Wrappers` (`wrappers.dfy`): `Option` and `Result`.
- `Notifications` (`notifications.dfy`): the `Notification` record and the
  store invariant `IdsMatchKeys` (every record is filed under its own id).
- `Persistence` (`persistence.dfy`): the persisted document as a JSON value.
  It covers encoding one record and the whole store, decoding a loaded file
  (the id is forced to the entry's key), and the save/load round trip.
- `Store` (`store.dfy`): the id scheme (random token, `-`, first 10 hex
  digits of the payload digest), the class `Disk` (the file, absent or
  holding a document) and the class `NotificationStore` (an in-memory
  `map` from id to record, with `DiskLoad`, `Open`, `DiskDump`,
  `AddNotification`, `Get` and `IterNotifs`). Lemmas cover additions and
  id uniqueness.
- `Decimal` (`decimal.dfy`): decimal printing of counts and its inverse.
- `Dispatch` (`dispatch.dfy`): the concrete `SendEmail`, the per-address
  success map, the success count and the summary message, with lemmas.
- `Handlers` (`handlers.dfy`): the decision logic of the create and
  dispatch requests (`SetNotification`, `SendNotifications`).

The random UUID and the SHA-256 digest are not computed. The UUID text is a
`token` argument of `AddNotification`. The hex digest is the function
`hexDigest` that the store is opened with. The send capability is a
function argument `send(address, content) -> int` of `SendNotifications`
(positive means delivered). The concrete `SendEmail` returns the payload's
length, and lemmas instantiate `send` with it.

Behaviour of the code worth noting:

- The summary count `k` is the number of *distinct* addresses marked
  delivered (the per-address results are kept in a dictionary). `n` is the
  number of list entries. So `[a, a]` with a successful send reports
  `"1/2 emails sent"` (`Dispatch.DuplicateAddressCountedOnce`).
- The store invariant is only that each record's id equals its key. A loaded
  file may hold an entry under the empty key, so non-empty ids are not an
  invariant. Ids made by `AddNotification` always contain `-`.
- An empty recipient list is accepted and gives `"0/0 emails sent"`.

## Model

| member | source | states |
|---|---|---|
| Notifications.RenderEmail | app.py:48-49 | the content sent for a record is its payload, unformatted |
| Notifications.RenderIgnoresLabels | app.py:48-49 | the rendered content depends on the payload alone: changing name, description or id never changes it |
| Notifications.ValuesCountKeys | app.py:84-86 | while every record is filed under its own id, no two keys hold the same record, so the set of stored records has as many elements as there are keys |
| Persistence.EncodeRecord | app.py:68 | a record is written as an object with exactly the fields payload, name, description and id, and its id field holds the record's id |
| Persistence.DecodeRecord | app.py:60-63 | a record rebuilt from a file entry always carries the entry's key as its id, whatever id field the entry had |
| Persistence.DecodeEntries | app.py:60-64 | reading a document's entries succeeds exactly when every entry can be rebuilt; then the result has the document's keys and holds, under each key, what rebuilding that entry gives |
| Persistence.DecodeEncodedEntries | app.py:56-69 | entries written with an encoder that the entry reader inverts read back as the original map |
| Persistence.EncodeStore | app.py:66-69 | the saved document has exactly the store's ids as keys |
| Persistence.DecodeDocument | app.py:59-64 | loading a present document fails exactly when it is not an object or some entry cannot be rebuilt; otherwise the result has the document's keys and satisfies the store invariant |
| Persistence.LoadFile | app.py:54-64 | an absent file gives the empty store; every successfully loaded store satisfies the store invariant |
| Persistence.RecordRoundTrip | app.py:60-68 | a record written under its own id reads back unchanged |
| Persistence.StoreRoundTrip | app.py:56-69 | saving a store that keeps the invariant and loading the document gives back the same map: same keys and, per key, the same payload, name, description and id |
| Persistence.LoadAfterSave | app.py:54-69 | a file that holds a saved store loads as that store |
| Decimal.NatToString | app.py:133 | a count prints as a non-empty string of decimal digits without a leading zero |
| Decimal.ParseNatToString | app.py:133 | reading the printed digits back gives the count |
| Decimal.NatToStringInjective | app.py:133 | different counts print differently |
| Store.Prefix | app.py:74 | slicing to 10 characters keeps min(10, length) characters and gives a prefix of the digest |
| Store.NotificationId | app.py:73-75 | an id starts with the token and ends with a dash followed by the first min(10, length) characters of the payload's hex digest, and has exactly that length |
| Store.IdEndsWithDigestPrefix | app.py:73-75 | for a digest of at least 10 characters (a hex SHA-256 digest has 64) the id is exactly 11 characters longer than the token and ends with the dash and the digest's first 10 characters |
| Store.DistinctTokensGiveDistinctIds | app.py:72-75 | two different tokens of equal length (UUID texts) give different ids, even for the same payload: identical payloads are not deduplicated |
| Store.Added | app.py:76-77 | filing a record under an id gives the old keys plus that id, the record under it with the given payload, name and description and its id set to the key, and every other entry unchanged |
| Store.AddedProperties | app.py:76-77 | filing a record under a fresh id adds exactly that key, stores the given payload, name and description under it with id equal to the key, leaves every other entry unchanged and keeps the store invariant |
| Store.ReplayAddsEach | app.py:71-79 | a series of additions under pairwise distinct fresh ids grows the store by one entry per addition, keeps the old entries and the invariant, and files each added record under its own id |
| Store.AddsToEmptyStore | app.py:71-86 | n additions with distinct ids to an empty store leave exactly n records |
| Store.NotificationStore.DiskLoad | app.py:56-64 | the loading loop yields exactly the result of decoding the file (empty for an absent file, an error for a malformed document), and the loaded map keeps the invariant |
| Store.NotificationStore.Open | app.py:52-54 | a new store holds exactly what the file loads to, keeps the invariant, and fails when the file cannot be loaded |
| Store.NotificationStore.DiskDump | app.py:66-69 | the file afterwards holds the encoding of the whole store, and loading it gives back the store |
| Store.NotificationStore.AddNotification | app.py:71-79 | the returned id is made from the token and the payload's digest and ends with a dash and the digest's first 10 characters; the store afterwards is the old store with the record filed under that id; the invariant is kept; the file holds the new store and reloads to it |
| Store.NotificationStore.Get | app.py:81-82 | returns a record exactly when the id is a key, and then the record filed under it, whose id is the requested id |
| Store.NotificationStore.IterNotifs | app.py:84-86 | yields as many records as the store has keys and as there are distinct stored records, each a stored record filed under its own id, every stored record appearing and none twice |
| Dispatch.SendEmail | app.py:35-38 | the concrete send returns a non-negative value that is positive exactly when the payload is not empty |
| Dispatch.SendCalls | app.py:127-128 | a dispatch makes one send per list entry, in list order, each with the same rendered content |
| Dispatch.StatusMap | app.py:124-129 | the success map has exactly the distinct addresses of the list as keys, each mapped to whether the send to it returned a positive value |
| Dispatch.SuccessCount | app.py:130 | the number of addresses marked delivered is at most the number of addresses in the map |
| Dispatch.SuccessCountBound | app.py:127-133 | the reported k is the number of distinct addresses whose send succeeded, and k is at most the number of distinct addresses, which is at most the list length n |
| Dispatch.ConcreteSendCount | app.py:127-130 | with the concrete send every address is marked delivered exactly when the payload is non-empty, so k is the number of distinct addresses or zero |
| Dispatch.DuplicatesReportFewer | app.py:127-133 | a list that names some address twice has fewer distinct addresses than entries, so k < n even when every send succeeds |
| Dispatch.DuplicateAddressCountedOnce | app.py:127-133 | a list naming the same address twice yields one map entry and the message "1/2 emails sent" |
| Dispatch.OneOfTwoDelivered | app.py:127-135 | two recipients, the first delivered and the second not, give {first: true, second: false} and "1/2 emails sent" |
| Dispatch.EmptyListSummary | app.py:124-133 | an empty recipient list gives an empty status map and the message "0/0 emails sent" |
| Dispatch.Summary | app.py:133 | the message "<k>/<n> emails sent" reads back, digits before the slash and digits before " emails sent", as exactly k and n |
| Dispatch.SummaryDeterminesCounts | app.py:133 | the message "<k>/<n> emails sent" determines both k and n |
| Handlers.ErrorMessage | app.py:99 | the two refusals carry different messages: "payload is required" for a missing payload and "unknown notification id" (app.py:123) for an unknown id |
| Handlers.SetNotification | app.py:94-106 | a request is refused exactly when the payload is missing or empty, with the message "payload is required" and the store and the file unchanged; otherwise the returned id is made from the token and the payload's digest, the store holds under it the request's payload, name and description with that id, every other entry is unchanged, and the file holds the new store |
| Handlers.SendNotifications | app.py:117-135 | a missing or unknown id is refused with the message "unknown notification id" and no send made; otherwise one send per list entry, in order, with the record's rendered content; the status map has exactly the distinct addresses, each mapped to its send's success; the message is "<k>/<n> emails sent" with k the delivered count and n the list length |

## Left out

- The Flask application, routes, request parsing and HTTP status codes. Only the decision logic inside the handlers is modelled. A request whose body lacks the address list fails in the source before any decision; that is not modelled.
- Listing over HTTP (app.py:110-113) only converts each record from `IterNotifs` to a dictionary; that conversion is not modelled separately.
- JSON text, `json.load`/`json.dump`, `open` and `os.path.exists`. The file is a `Disk` object holding a JSON value or nothing.
- Store.NotificationStore.AddNotification: read and write failures of the file are not modelled. If the flush fails, the source has already changed the in-memory store, so memory and file disagree.
- Store.NotificationStore.AddNotification: the source writes the new id into the caller's record object, which it then shares with the store. Records are values here, so the model stores a stamped copy and does not capture that aliasing.
- Store.NotificationStore.AddNotification: the uniqueness of random UUIDs is not modelled. A token that repeats an existing id overwrites that entry, as the source's dictionary would. Fresh ids are assumed only in the lemmas about additions.
- Random UUID generation and SHA-256: the token is an argument and the hex digest is the store's `hexDigest` function.
- The `print` in `send_email`: only its return value, the payload's length, is kept.
- The module-level store instance: the store is an object constructed explicitly by `Open`.
- Store.NotificationStore.IterNotifs: the source yields records in insertion order (Python dictionaries keep it). The model promises no order.
- Store.NotificationStore.DiskLoad: the source raises at the first malformed entry in file order. The model reports only the kind of error (`NotAnObject`, `MalformedRecord`), not the entry.
- Persistence.DecodeRecord: the source's dataclass accepts any JSON value in any field. The model accepts only a string payload and a string or null name and description.
- Handlers.SetNotification: the source rejects every falsy payload, including `0`, `false`, `[]` and `{}`. A truthy non-string payload makes the digest computation raise before anything is stored. The model types the payload as an optional string and covers only missing, empty and non-empty strings. Name and description are likewise optional strings.
- Handlers.SendNotifications: `send` is a function, so two sends to the same address with the same content have the same outcome. A real capability could vary between calls; the source keeps the last outcome for an address, and the model does not capture that.
- Sent/Pending/Failed statuses, update and delete: the source's comments mention them, but the source does not implement them.
- Concurrency: the source has none. The comment about parallelising sends describes nothing that is implemented.
