# Support-request lifecycle of the academic peer-support client

This project models, in Dafny, the one piece of stateable logic in the
web client `frontend/web/src/App.tsx`: the life of a support request kept in
the smart contract's key-value table.

- The table holds an index key `request_keys` (a JSON list of ids) and one
  key `request_<id>` per request (a JSON record with content, timestamp,
  author, category, status and an optional peer).
- `loadRequests` reads the index, dereferences each id, skips missing and
  undecodable records, defaults a missing status to pending and orders the
  result newest first.
- `submitRequest` writes a new pending record, then re-reads the index,
  appends the new id and writes the index back.
- `matchRequest` and `resolveRequest` read, modify and write back one record.
- The dashboard counts requests per status, offers "Find Match" and
  "Mark Resolved" only to the request's author (a case-insensitive address
  comparison), toggles one expanded card, and edits and validates the
  creation form.

Files:

- `records.dfy` (module `Records`): the stored record, the view entry, the
  key layout, the id and peer-id strings, the new record, the two updates,
  and the overlay texts.
- `loading.dfy` (module `Loading`): the list a load derives from the table,
  the newest-first ordering, and loads after each kind of write.
- `dashboard.dfy` (module `Dashboard`): counters, author check, detail
  toggle, form update and validation, offered actions and the lifecycle
  they drive.
- `client.dfy` (module `Client`): class `Contract` (the table; a ghost log
  of accepted writes records their order) and class `App` (connection,
  account, loaded list, form draft) with the five operations as methods.

Values the client cannot decide are parameters of the methods:

- the two readings of `Date.now()`;
- the base-36 renderings of `Math.random()`;
- the base64 text of the draft, or the error `btoa` throws;
- whether a signer-bound contract could be obtained;
- the wallet's approval or rejection of each transaction.

Whether a read-only contract can be obtained and reports itself available
is the field `Contract.available`.

Facts about the code that the model keeps:

- `matchRequest` and `resolveRequest` do not check the current status.
  Only the request card restricts them to pending and matched requests.
  So the forward-only lifecycle holds for the actions the card offers
  (`OfferedActionsAdvance`), not for direct calls. A direct match on a
  resolved request moves it back to matched and replaces its peer
  (`MatchOnResolvedMovesBack`). A direct resolve of a pending request
  leaves a resolved request with no peer (`ResolveOnPendingLeavesUnpaired`).
- The new id's random suffix is `substring(2, 9)`, so it has up to seven
  characters. The peer suffix is `substring(2, 8)`, so it has up to six.

## Model

| member | source | states |
|---|---|---|
| Records.RecordKeyIsIndexKey | frontend/web/src/App.tsx:86-101 | the record key of an id equals the index key `request_keys` exactly when the id is "keys" |
| Records.DigitChar | frontend/web/src/App.tsx:155 | a digit value below ten renders as a decimal digit character |
| Records.DigitValue | frontend/web/src/App.tsx:155 | a digit character reads back as a value below ten |
| Records.Decimal | frontend/web/src/App.tsx:155 | the rendering of `Date.now()` in the id is a non-empty string of decimal digits |
| Records.DecimalRoundTrip | frontend/web/src/App.tsx:155 | reading the decimal rendering back gives the original number |
| Records.Substring | frontend/web/src/App.tsx:155 | JavaScript `substring` is no longer than the string or than the requested span, and is the slice between the bounds when they are in range |
| Records.NewRequestId | frontend/web/src/App.tsx:155 | a new id is the decimal milliseconds, a dash, then at most seven random characters; it starts with a digit |
| Records.NewRecordKeyIsNotIndexKey | frontend/web/src/App.tsx:166-187 | the record write and the index write of a submission go to different keys |
| Records.PeerId | frontend/web/src/App.tsx:256 | a peer id starts with `peer-`, so it is non-empty, and is at most eleven characters |
| Records.NewRecord | frontend/web/src/App.tsx:148-163 | the submitted record's content is `FHE-` followed by the encoded draft, its timestamp is the clock in whole seconds, its author the account, its category the draft's, its status pending, with no peer |
| Records.MatchChangesOnlyStatusAndPeer | frontend/web/src/App.tsx:253-257 | matching sets status matched and a non-empty peer beginning `peer-`, and keeps content, timestamp, author and category |
| Records.ResolveChangesOnlyStatus | frontend/web/src/App.tsx:315-318 | resolving sets status resolved and keeps the peer and every other field |
| Records.ErrorText | frontend/web/src/App.tsx:275-280 | an error overlay text is the prefix followed by the error message, or by "Unknown error" when the message is empty |
| Records.SubmitErrorMessage | frontend/web/src/App.tsx:207-209 | the submission error text is "Transaction rejected by user" exactly when the message contains "user rejected transaction", and otherwise "Submission failed: " with the message |
| Records.Materialize | frontend/web/src/App.tsx:105-113 | a loaded entry carries the index id and the record's content, timestamp, author, category and peer; its status is the record's, and it is pending exactly when the record's status is missing or pending (used by `Loading.LoadedEntryFields`) |
| Records.WithMatched | frontend/web/src/App.tsx:253-257 | the matched record has status matched and the given peer and agrees with the old record everywhere else (see `Records.MatchChangesOnlyStatusAndPeer`) |
| Records.WithResolved | frontend/web/src/App.tsx:315-318 | the resolved record has status resolved and agrees with the old record everywhere else, peer included (see `Records.ResolveChangesOnlyStatus`) |
| Records.Contains | frontend/web/src/App.tsx:207 | `includes` holds exactly when the needle occurs in the text at some position, so in particular whenever it is a prefix and always for the empty needle, and only when it is no longer than the text (used by `Records.SubmitErrorMessage`) |
| Loading.Collect | frontend/web/src/App.tsx:97-121 | the list built by the load loop has at most one entry per index id; each id contributes its `Loading.Entry`, which is empty when the record is missing or does not decode (lines 100-117) |
| Loading.CollectIds | frontend/web/src/App.tsx:99-121 | the loaded entries carry exactly the ids of the index whose records are present and decode, in index order and with the same multiplicity, so their number is the number of such ids |
| Loading.CollectMembership | frontend/web/src/App.tsx:99-121 | an entry is loaded exactly when its id is in the index and it is what the record stored under that id decodes to |
| Loading.LoadedEntryFields | frontend/web/src/App.tsx:105-113 | every loaded entry's id is an index id whose record decodes; its content, timestamp, author, category and peer are that record's; its status is the record's or pending when the record has none |
| Loading.DecodableIdIsLoaded | frontend/web/src/App.tsx:99-121 | every index id whose record is present and decodes yields an entry; missing and undecodable ones do not stop the load |
| Loading.CollectFrame | frontend/web/src/App.tsx:99-101 | a load depends only on the records the index names |
| Loading.InsertByTime | frontend/web/src/App.tsx:123 | inserting into a newest-first list keeps it newest first and adds exactly the one entry |
| Loading.AllAtMost | frontend/web/src/App.tsx:123 | every entry of a permutation of entries no newer than a time is no newer than that time |
| Loading.SortNewestFirst | frontend/web/src/App.tsx:123 | the sort yields a permutation of its input that is non-increasing by timestamp |
| Loading.LoadOfLostIndexIsEmpty | frontend/web/src/App.tsx:86-95 | an absent or unparsable index reads as `[]` through `Records.KeysOf` (the fallback at lines 87-95, and at 172-180 in a submission) and loads as the empty list |
| Loading.SingleRecordScenario | frontend/web/src/App.tsx:99-113 | index `["a"]` with one pending record and no peer loads as one pending request without a peer |
| Loading.LoadAfterSubmit | frontend/web/src/App.tsx:166-187 | after a fresh record is written and its id appended, a load yields the previous entries followed by the new one |
| Loading.LoadAfterSubmitOverLostIndex | frontend/web/src/App.tsx:171-187 | when the index did not parse, a submission replaces it by the new id alone and a load then shows only the new request |
| Loading.LoadIgnoresOrphan | frontend/web/src/App.tsx:166-187 | a record written without its index update is invisible to a load |
| Loading.LoadAfterUpdate | frontend/web/src/App.tsx:253-262 | rewriting a decodable record keeps the loaded entries in place and replaces exactly those with that id by the new record's view |
| Dashboard.CountStatus | frontend/web/src/App.tsx:41-43 | a status counter is at most the number of requests, equals it when every request has that status and is zero when none has; with `Dashboard.CountAppend` this fixes the counter as the number of requests with that status |
| Dashboard.CountAppend | frontend/web/src/App.tsx:41-43 | the counter of a concatenation is the sum of the counters of its parts |
| Dashboard.CountsPartition | frontend/web/src/App.tsx:41-43 | the pending, matched and resolved counters add up to the number of requests |
| Dashboard.CountsIgnoreOrder | frontend/web/src/App.tsx:41-43 | the counters of a permutation are the same, so sorting does not change them |
| Dashboard.CountsOfLoad | frontend/web/src/App.tsx:41-43 | after a load each counter equals the number of decodable index entries with that status |
| Dashboard.LowerChar | frontend/web/src/App.tsx:379 | lower-casing a character maps each ASCII upper-case letter to its lower-case letter (code point plus 32), leaves no upper-case ASCII letter and changes nothing else |
| Dashboard.Lower | frontend/web/src/App.tsx:379 | lower-casing a string keeps its length and lower-cases each character |
| Dashboard.IsAuthor | frontend/web/src/App.tsx:378-380 | equal addresses are the same author, and the same author implies equal length (the full characterisation is `Dashboard.IsAuthorIgnoresCase`) |
| Dashboard.IsAuthorIgnoresCase | frontend/web/src/App.tsx:378-380 | the viewer is the author exactly when both addresses agree letter by letter up to case |
| Dashboard.ToggleDetails | frontend/web/src/App.tsx:449-451 | toggling a card collapses it exactly when it was the expanded one and otherwise expands that card alone |
| Dashboard.WithField | frontend/web/src/App.tsx:738-744 | a form change sets the named field to the value and leaves the other fields unchanged |
| Dashboard.WithFieldLastWriteWins | frontend/web/src/App.tsx:738-744 | a later change of a field overrides an earlier one; changes of different fields commute |
| Dashboard.CanSubmit | frontend/web/src/App.tsx:746-750 | a draft passes validation only with a non-empty category and a non-empty content, and fails with either empty (see `Dashboard.FilledDraftCanSubmit`) |
| Dashboard.FilledDraftCanSubmit | frontend/web/src/App.tsx:746-750 | a form with both required fields filled passes validation; one with empty content does not |
| Dashboard.SubmittedIsPendingAndPaired | frontend/web/src/App.tsx:157-163 | a submitted request is pending without a peer and is offered "Find Match" exactly when the viewer is its author |
| Dashboard.OffersFindMatch | frontend/web/src/App.tsx:630 | "Find Match" is offered exactly when the request is pending and the viewer's address agrees with the author's letter by letter up to case; so the author as written always gets it, and no one else does (see `Dashboard.OfferedActionsAdvance`) |
| Dashboard.OffersMarkResolved | frontend/web/src/App.tsx:639 | "Mark Resolved" is offered exactly when the request is matched and the viewer's address agrees with the author's letter by letter up to case; never together with "Find Match" (see `Dashboard.OfferedActionsAdvance`) |
| Loading.InsertKeepsTies | frontend/web/src/App.tsx:123 | inserting an entry puts it ahead of the entries with its timestamp and keeps the order among the entries of every timestamp |
| Loading.SortIsStable | frontend/web/src/App.tsx:123 | for every timestamp, the sorted list holds the entries with that timestamp in the order of the input, as the stable browser sort does |
| Dashboard.OfferedActionsAdvance | frontend/web/src/App.tsx:630-646 | the actions the card offers move a request one step forward, to matched with the new peer, then to resolved with the same peer, keeping "peer set exactly when not pending" |
| Dashboard.ResolvedIsFinal | frontend/web/src/App.tsx:630-646 | a resolved request is offered no action |
| Dashboard.MatchOnResolvedMovesBack | frontend/web/src/App.tsx:253-257 | a direct match of a resolved record makes it matched again, with the new peer |
| Dashboard.ResolveOnPendingLeavesUnpaired | frontend/web/src/App.tsx:315-318 | a direct resolve of a pending record without a peer leaves a resolved request without a peer |
| Client.Contract.GetIndex | frontend/web/src/App.tsx:86 | reading the index gives the index slot |
| Client.Contract.GetRecord | frontend/web/src/App.tsx:101 | reading a record key gives its stored value, or nothing for empty bytes |
| Client.Contract.SetRecord | frontend/web/src/App.tsx:166-169 | a record write lands, and is logged, exactly when the wallet approves it |
| Client.Contract.SetIndex | frontend/web/src/App.tsx:184-187 | an index write stores the list, and is logged, exactly when the wallet approves it |
| Client.App.constructor | frontend/web/src/App.tsx:19-38 | the client starts disconnected, with no account, no requests and an empty form |
| Client.App.Connect | frontend/web/src/App.tsx:54-56 | a selected wallet connects with its first account, or "" when it reports none |
| Client.App.Disconnect | frontend/web/src/App.tsx:68-71 | disconnecting clears the provider and the account |
| Client.App.CollectRequests | frontend/web/src/App.tsx:97-121 | the load loop pushes exactly the entries of the specification list, in index order |
| Client.App.LoadRequests | frontend/web/src/App.tsx:73-131 | with the contract available the shown list becomes a newest-first permutation of the decodable entries the index names, with entries of equal timestamp in index order; otherwise it is left as it was |
| Client.App.SubmitRequest | frontend/web/src/App.tsx:133-223 | no wallet, a failed encoding, a missing signer or a rejected record write change nothing; otherwise the pending record is written first, then the index becomes the old ids plus the new id (just the new id when the index was absent or unparsable) and the list is reloaded, or, if the index write is rejected, the record stays unreferenced; no other key changes; with a fresh id the reloaded list is the old entries plus the new one |
| Client.App.HandleSubmit | frontend/web/src/App.tsx:746-753 | a form with an empty category or content is refused and nothing changes; a complete one has exactly the effect of a submission |
| Client.App.MatchRequest | frontend/web/src/App.tsx:225-286 | no wallet, a missing signer, a missing record ("Request not found"), an undecodable record or a rejected write change nothing; otherwise only that record changes, to status matched with the new peer, and the list is reloaded |
| Client.App.ResolveRequest | frontend/web/src/App.tsx:288-347 | no wallet, a missing signer, a missing record ("Request not found"), an undecodable record or a rejected write change nothing; otherwise only that record changes, to status resolved with its peer kept, and the list is reloaded |

## Left out

- Rendering, styles, the tutorial, the footer and the pie chart's
  percentages and angles: presentation, and floating point for the chart.
- Wallet discovery, `eth_requestAccounts` failures and the `accountsChanged`
  subscription: these are calls into the wallet provider. `Connect` takes
  the reported accounts as given.
- `checkAvailability` and the transaction overlay's timing. The overlay's
  pending phase and its 2 and 3 second auto-hide delays are timer pacing.
  The methods return the text the overlay shows when the action ends.
  The draft reset that follows a submission after a delay is modelled as
  part of the submission.
- The artificial 3 and 2 second waits of matching and resolving: pacing
  with no effect on the table.
- JSON, UTF-8 and base64: decoding is abstract. A stored record either
  decodes (`Valid`) or does not (`Undecodable`, with the parser's message).
  The index is absent, a list of ids, or unparsable. JSON of another shape
  is not distinguished, and there the model differs from the code:
  - An index that parses as `null`, a number or an object makes the
    `for…of` at line 99 throw. The load then aborts and the shown list is
    left as it was; the model loads the empty list instead. An index that
    parses as a string is iterated character by character; the model does
    not represent it.
  - In a submission over such an index, `keys.push` at line 182 throws after
    the record write. The index is left untouched; the model writes
    `[newId]` instead.
  - A record that parses to a value lacking the record's fields (`5`,
    `{}`) is pushed with undefined fields; the model treats it as
    undecodable and skips it.
  - Matching or resolving a record that parses as `5`, `{}` or `null`
    spreads it into an empty object (lines 253-257 and 315-318). The
    client then writes a record holding only `status` (and, for a match,
    `matchedWith`). The model instead fails with the parser's message and
    writes nothing.
- The record key of id "keys" is the index key itself. The model keeps the
  two slots apart. `NewRecordKeyIsNotIndexKey` shows generated ids never
  collide with it. An index listing "keys" by hand is not modelled.
- A status string other than the three, and a non-numeric timestamp: only
  the three statuses plus "missing" are represented.
- `toLowerCase` beyond ASCII letters: `LowerChar` folds `A`-`Z` only.
- Failures of individual `getData` calls (network errors), which the
  client would log and skip or abort on: reads of the table always succeed.
- Concurrent handlers and interleaved writes from other clients: the model
  is sequential.
- Randomness quality and id collisions: fresh ids are inputs. The
  load-after-submit properties assume the new id is not already in the
  index.
- Chain semantics of `setData`: the client only awaits the call (lines 166,
  184, 259 and 320) and never waits for a receipt. The model takes an
  approved write to be immediately visible to the next read and final; a
  transaction still unmined at the re-read, or reverted after approval, is
  not modelled.
- `console.error` and `alert`: they are side effects with no effect on
  state.
