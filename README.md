# Hospital exchange network: conversation and notification bookkeeping in Dafny

This project models the client-side state kept by a hospital medication-exchange web application and proves properties of it:

- the message hook (`useMessages`): the open conversation's message list, the optimistic send and its confirmation, realtime INSERT/UPDATE handling, mark-as-read and the per-sender unread-count map;
- the independent unread counter (`useUnreadMessages`) with its own increment-on-insert semantics;
- the global message listener that keeps a most-recent-first conversation order and broadcasts `conversationOrderUpdated`;
- the notification hook (`useNotifications`): a newest-first list capped at 20, read flags and the ids persisted as read;
- the deterministic hospital colour scheme (`getHospitalColor`'s 32-bit string hash, `getHospitalColorByIndex`, `useHospitalColor`);
- the one-shot message draft and target in session storage;
- swipe-gesture classification;
- the specialty list of the hospital setup form;
- the notification bell (time-ago labels, unread badge, open/close toggle, urgency styles);
- the dashboard statistics.

Each hook whose state the source updates step by step is a class. Its fields are the React state cells, and its methods are the handlers, each tied to a pure function. The properties are proved about those functions. Backend queries, realtime payloads, storage failures and clocks are method inputs:

- a query result is `Option`/`Result`;
- a timestamp is a string or an integer of milliseconds;
- a storage failure is a flag on the storage object.

JavaScript truthiness of optional strings is explicit (`Base.Truthy`). The colour hash models ECMAScript ToInt32 (section 7.1.6 of ECMA-262) and the UTF-16 code units that `charCodeAt` reads.

The way the unread counts are fetched is a loop in the source. It is modelled by `Counts.BuildTally`, proved against the fold `Counts.Tally`.

`fetchMessages` (src/hooks/useMessages.ts:43-74) does not check that the conversation it fetched is still the selected one when the query returns: it installs whatever the query returns, so a slow fetch for a conversation the user has left can replace the list of the one now open. The model follows the code.

## Model

| member | source | states |
|---|---|---|
| Messages.BelongsToConversation | src/hooks/useMessages.ts:91-96 | the INSERT handler's test: a row belongs only when a hospital is selected and self and the selected hospital are its two parties |
| Messages.BelongsIffSamePair | src/hooks/useMessages.ts:91-96 | a message belongs to the open conversation iff a hospital is selected and {sender, recipient} is {self, selected} in either direction |
| Messages.AppendIfAbsent | src/hooks/useMessages.ts:99-101 | a known id leaves the list unchanged; a new one is appended at the tail, the prefix is kept, and no duplicate id is introduced |
| Messages.MessageStore.OnInsert | src/hooks/useMessages.ts:86-102 | an INSERT changes the list only when it belongs to the open conversation (and a hospital is resolved), and then by AppendIfAbsent; no-duplicate ids preserved |
| Messages.MessageStore.OnUpdate | src/hooks/useMessages.ts:121-146 | only a falsy-to-truthy `read_at` transition acts: the entry with that id gets the new `read_at`, and the sender's count is decremented when we are the recipient; ids unchanged, stored counts stay positive |
| Messages.MarkReadById | src/hooks/useMessages.ts:131-133 | entries with the id get the new `read_at`, every other entry and the length are unchanged |
| Messages.MarkReadByIdIdempotent | src/hooks/useMessages.ts:131-133 | applying the same read update twice equals applying it once |
| Messages.DecrementUnread | src/hooks/useMessages.ts:137-145 | an absent key leaves the map unchanged; a count above one drops by one; a count of one (or less) is deleted; other keys untouched; positive counts stay positive |
| Messages.Optimistic | src/hooks/useMessages.ts:163-173 | the optimistic entry carries the temporary id, the outgoing fields and no `read_at` |
| Messages.MessageStore.BeginSend | src/hooks/useMessages.ts:163-175 | the temporary id is `temp-` followed by the clock stamp and the optimistic entry is appended at the tail |
| Messages.ReplaceById | src/hooks/useMessages.ts:200-202 | entries with the id become the confirmed row, all others and the length are unchanged; afterwards the temporary id is gone when the row's id differs |
| Messages.ReplaceAbsent | src/hooks/useMessages.ts:200-202 | replacing an id that is not in the list changes nothing |
| Messages.OptimisticConfirmedInPlace | src/hooks/useMessages.ts:175-202 | an optimistic entry at the tail is replaced in place by the confirmed row |
| Messages.ReplaceKeepsNoDuplicates | src/hooks/useMessages.ts:200-202 | confirming a unique temporary id by a row whose id is new keeps ids distinct |
| Messages.EchoBeforeConfirmDuplicates | src/hooks/useMessages.ts:99-101 | as written: when the realtime echo of one's own send arrives before the insert response, confirming leaves the row twice in the list |
| Messages.RemoveById | src/hooks/useMessages.ts:200-202 | corrected confirm's drop: no entry with the id remains, and a list without it is unchanged |
| Messages.RemoveByIdKeepsNoDuplicates | src/hooks/useMessages.ts:200-202 | dropping entries keeps ids distinct |
| Messages.ConfirmSend | src/hooks/useMessages.ts:200-202 | corrected confirm: the temporary id is gone afterwards, and the confirmed row is shown whenever it or the temporary entry was |
| Messages.ConfirmSendKeepsNoDuplicates | src/hooks/useMessages.ts:200-202 | the corrected confirm never introduces a duplicate id |
| Messages.ConfirmAfterEcho | src/hooks/useMessages.ts:99-101 | with the corrected confirm, an echo that came first leaves exactly `s + [row]` |
| Messages.EchoAfterConfirm | src/hooks/useMessages.ts:99-101 | with the corrected confirm, an echo that comes after the response leaves exactly `s + [row]` too |
| Messages.SameStampSendsCollide | src/hooks/useMessages.ts:163 | as written: two sends in the same millisecond share a temporary id, so confirming the first shows its row twice and loses the second entry |
| Messages.TempIdFor | src/hooks/useMessages.ts:163 | corrected temporary id: `temp-` followed by the hook's number of sends |
| Messages.TempIdsDistinct | src/hooks/useMessages.ts:163 | different sends get different corrected temporary ids |
| Messages.DistinctTempIdsConfirmSeparately | src/hooks/useMessages.ts:163-202 | with distinct temporary ids, confirming the first of two pending sends leaves the second one's entry in place |
| Messages.MessageStore.CompleteSend | src/hooks/useMessages.ts:198-208 | on success the temporary entry is replaced by the row; on failure the list keeps it and the error is returned |
| Messages.MessageStore.FetchMessages | src/hooks/useMessages.ts:43-74 | no counterparty or no resolved hospital: nothing changes; otherwise the list becomes the fetched rows, or stays on failure, and loading ends false |
| Messages.MarkConversationRead | src/hooks/useMessages.ts:232-240 | exactly the unread messages from `other` to self are stamped with `now`; everything else unchanged |
| Messages.MarkConversationReadComplete | src/hooks/useMessages.ts:232-240 | afterwards no message from `other` to self is unread, and marking again changes nothing |
| Messages.MessageStore.MarkAsRead | src/hooks/useMessages.ts:214-247 | a no-op without hospital, without counterparty or when the backend update fails; otherwise the conversation is marked read and `other`'s count deleted |
| Messages.UnreadSendersCount | src/hooks/useMessages.ts:258-262 | each sender occurs among the unread senders as often as it has unread messages addressed to self |
| Messages.UnreadCountsMeaning | src/hooks/useMessages.ts:269-273 | the rebuilt map holds a sender iff it has unread messages to self, with exactly that number |
| Messages.MessageStore.FetchUnreadCounts | src/hooks/useMessages.ts:256-275 | on success the map is the tally of unread senders to self; on failure or without a hospital it is unchanged |
| Counts.Tally | src/hooks/useMessages.ts:269-273 | the fold of `map[k] = (map[k] \|\| 0) + 1` holds exactly the keys that occur |
| Counts.BuildTally | src/hooks/useMessages.ts:269-273 | the loop computes the fold `Tally` of the keys; each key maps to its number of occurrences |
| Counts.TallyCounts | src/hooks/useMessages.ts:269-273 | a key is in the tally iff it occurs, and its value is its number of occurrences |
| Counts.TallyPositive | src/hooks/useMessages.ts:272 | every stored count is at least one |
| Counts.TallySum | src/hooks/useUnreadMessages.ts:110 | the values of a tally add up to the number of keys tallied |
| Counts.SumValuesPositive | src/hooks/useUnreadMessages.ts:110 | a map of positive counts sums to at least its number of keys |
| Counts.IncrementSum | src/hooks/useUnreadMessages.ts:72-75 | adding one under a key raises the sum of values by one |
| UnreadMessages.CountInsert | src/hooks/useUnreadMessages.ts:71-76 | an unread INSERT adds one under its sender (creating the key), a read one changes nothing; other keys untouched; the total rises by one exactly for unread rows |
| UnreadMessages.Decrement | src/hooks/useUnreadMessages.ts:94-99 | a count above one drops by one, a count of one or an absent key ends absent, other keys untouched, and the total drops by one exactly when the key was present |
| UnreadMessages.BecameRead | src/hooks/useUnreadMessages.ts:93 | the loose `== null` tests agree with the other hook's truthiness test except on an empty `read_at` string, where an empty new value still counts as read |
| UnreadMessages.CountUpdate | src/hooks/useUnreadMessages.ts:93-100 | only a null-to-non-null `read_at` transition decrements, by Decrement |
| UnreadMessages.DecrementsAgree | src/hooks/useUnreadMessages.ts:94-99 | this hook's decrement gives the same map as the message hook's, though written differently |
| UnreadMessages.UnreadInsertsFromOne | src/hooks/useUnreadMessages.ts:71-76 | k unread inserts from one sender raise that sender's count by k, leave the others, and raise the total by k |
| UnreadMessages.UnreadCounter.TotalUnread | src/hooks/useUnreadMessages.ts:110 | the total is at least the number of senders, and zero iff the map is empty |
| UnreadMessages.UnreadCounter.RefreshUnread | src/hooks/useUnreadMessages.ts:17-34 | on success the map is rebuilt from the unread rows to self; otherwise unchanged |
| UnreadMessages.UnreadCounter.OnInsert | src/hooks/useUnreadMessages.ts:61-77 | only rows addressed to self (the channel filter) count, by CountInsert |
| UnreadMessages.UnreadCounter.OnUpdate | src/hooks/useUnreadMessages.ts:82-102 | only rows addressed to self, by CountUpdate |
| MessageListener.IsRelevant | src/components/MessageListener.tsx:27-29 | a message is relevant iff self is its sender or its recipient |
| MessageListener.Counterparty | src/components/MessageListener.tsx:33-36 | the recipient when self sent the message, the sender otherwise; for a relevant message {counterparty, self} is {sender, recipient} |
| MessageListener.BumpToFront | src/components/MessageListener.tsx:41 | the id comes first, occurs nowhere else, and the rest is the old order without it |
| MessageListener.BumpToFrontIds | src/components/MessageListener.tsx:41 | the set of ids is the old set plus the bumped id |
| MessageListener.BumpToFrontIdempotent | src/components/MessageListener.tsx:41 | bumping the same id twice equals bumping it once |
| MessageListener.BumpToFrontKeepsOrder | src/components/MessageListener.tsx:41 | the other ids keep their relative order, and a duplicate-free order stays duplicate-free |
| MessageListener.ConversationLedger.Handle | src/components/MessageListener.tsx:24-44 | an irrelevant message changes nothing; a relevant one bumps the counterparty, persists the new order and then dispatches `conversationOrderUpdated` |
| Seqs.RemoveAllIdempotent | src/components/MessageListener.tsx:41 | filtering out an id twice equals once |
| Notifications.Add | src/hooks/useNotifications.ts:52-58 | a known id changes nothing; a new one comes first, followed by the first 19 old entries; ids stay distinct and the list stays within 20 |
| Notifications.UnreadCount | src/hooks/useNotifications.ts:212 | the number of unread entries, never more than the list length |
| Notifications.UnreadCountBounds | src/hooks/useNotifications.ts:212 | the unread count is at most the length, and zero iff every entry is read |
| Notifications.MarkAll | src/hooks/useNotifications.ts:74-78 | every entry becomes read with its other fields and order unchanged |
| Notifications.MarkAllLeavesNoneUnread | src/hooks/useNotifications.ts:71-82 | after marking all read, the unread count is zero |
| Notifications.FromRow | src/hooks/useNotifications.ts:106-116 | a fetched row is read exactly when its id was persisted as read |
| Notifications.Format | src/hooks/useNotifications.ts:106-117 | one notification per fetched row, in order, each built by FromRow |
| Notifications.MarkedIdsComeBackRead | src/hooks/useNotifications.ts:75-76 | after a mark, a refresh reads a row as read exactly when it was in the list at the time of the mark |
| Notifications.NotificationStore.Unread | src/hooks/useNotifications.ts:212 | `unreadCount` of the hook, at most the number of entries |
| Notifications.NotificationStore.AddNotification | src/hooks/useNotifications.ts:52-61 | the list becomes Add(list, n) and the last-update stamp is the clock; at most 20 entries with distinct ids stays true |
| Notifications.NotificationStore.ClearNotifications | src/hooks/useNotifications.ts:64-68 | empties the list when the user captured at first render is signed in; otherwise nothing changes |
| Notifications.NotificationStore.MarkAsRead | src/hooks/useNotifications.ts:71-82 | with a user: the current ids are persisted and every entry marked read; without: nothing changes |
| Notifications.NotificationStore.RefreshNotifications | src/hooks/useNotifications.ts:89-127 | with a user and a successful fetch (at most 10 rows by `.limit(10)`, distinct primary keys) the list is the formatted rows with read flags from the persisted ids; otherwise unchanged; the 20-entry, distinct-id invariant is kept |
| HospitalColors.PaletteShape | src/utils/hospitalColors.ts:2-103 | ten schemes with distinct primary colours, none of them the default grey |
| HospitalColors.ToInt32 | src/utils/hospitalColors.ts:110-111 | the result is a signed 32-bit integer congruent to its input modulo 2^32 |
| HospitalColors.StepIsTimes31 | src/utils/hospitalColors.ts:110-111 | `((h << 5) - h) + c` followed by `& hash` equals ToInt32(31h + c) |
| HospitalColors.Utf16 | src/utils/hospitalColors.ts:108-109 | the code units `charCodeAt` reads: each in 0..65535, at least one per character |
| HospitalColors.Hash | src/utils/hospitalColors.ts:107-112 | the hash of the code units is always a signed 32-bit value, 0 for the empty string |
| HospitalColors.HashRecurrence | src/utils/hospitalColors.ts:107-112 | the hash is the 32-bit polynomial hash with base 31 over the UTF-16 code units |
| HospitalColors.PaletteIndex | src/utils/hospitalColors.ts:114 | the index is always inside the palette, even for -2^31 whose `Math.abs` stays out of 32-bit range |
| HospitalColors.EmptyIdIsFirstScheme | src/utils/hospitalColors.ts:105-115 | the empty id hashes to 0 and gets the first scheme |
| HospitalColors.GetHospitalColor | src/utils/hospitalColors.ts:105-116 | the loop computes the hash of the id's code units and returns the palette entry it indexes |
| HospitalColors.JsRemainder | src/utils/hospitalColors.ts:119 | JavaScript's `%`: the remainder of division rounded toward zero, below the divisor in size and with the sign of the dividend |
| HospitalColors.GetHospitalColorByIndex | src/utils/hospitalColors.ts:118-120 | a non-negative index selects `index mod 10`; a negative one yields a scheme only when the truncating remainder is zero |
| HospitalColors.ByIndexPeriodic | src/utils/hospitalColors.ts:118-120 | scheme selection by index repeats every ten |
| HospitalColors.UseHospitalColor | src/hooks/useHospitalColor.ts:4-22 | a falsy id gets the grey scheme, any other the hashed scheme |
| MessageDraft.SetMessageDraft | src/hooks/useMessageDraft.ts:2-4 | stores the draft, or leaves the storage as it was when it fails |
| MessageDraft.ConsumeMessageDraft | src/hooks/useMessageDraft.ts:7-13 | returns the stored draft or `""`, removing it when non-empty; `""` when the storage fails |
| MessageDraft.SetMessageTarget | src/hooks/useMessageDraft.ts:16-18 | stores the target, or leaves the storage as it was when it fails |
| MessageDraft.ConsumeMessageTarget | src/hooks/useMessageDraft.ts:21-27 | returns the stored id or null, removing it when non-empty; null when the storage fails |
| MessageDraft.DraftConsumedOnce | src/hooks/useMessageDraft.ts:2-13 | a draft written and consumed twice is returned once and then `""` |
| MessageDraft.TargetConsumedOnce | src/hooks/useMessageDraft.ts:16-27 | a target written and consumed twice is returned once and then null, unless it is `""`, which stays |
| SwipeNavigation.Classify | src/hooks/useSwipeNavigation.ts:29-36 | a mostly vertical gesture fires nothing; left fires iff dx ≤ -minDistance, right iff dx ≥ minDistance; at most one for a positive threshold |
| SwipeNavigation.SwipeState.OnTouchStart | src/hooks/useSwipeNavigation.ts:19-24 | records the start only when enabled |
| SwipeNavigation.SwipeState.OnTouchEnd | src/hooks/useSwipeNavigation.ts:26-40 | nothing without a start or when disabled; a vertical gesture fires nothing and keeps the start; otherwise fires Classify and clears the start |
| SwipeNavigation.DefaultLeftSwipe | src/hooks/useSwipeNavigation.ts:13-14 | the defaults are 50 pixels and enabled, and a 60-pixel left drag fires the left callback only |
| HospitalSetup.Trim | src/components/HospitalSetup.tsx:57 | `trim()` gives the slice of the input left after removing white space and line terminators from both ends, and neither end of it is one |
| HospitalSetup.TrimIsTrimmed | src/components/HospitalSetup.tsx:57 | trimming leaves no leading or trailing white space and is idempotent |
| HospitalSetup.AddSpecialty | src/components/HospitalSetup.tsx:56-64 | a non-blank trimmed input not yet listed is appended and the input cleared; otherwise nothing changes |
| HospitalSetup.AddPreservesWellFormed | src/components/HospitalSetup.tsx:56-64 | the specialties stay trimmed, non-empty and duplicate-free |
| HospitalSetup.RemoveSpecialty | src/components/HospitalSetup.tsx:66-71 | every occurrence is removed, the rest keeps its order, the input is untouched |
| HospitalSetup.RemovePreservesWellFormed | src/components/HospitalSetup.tsx:66-71 | removal keeps the specialty list well formed |
| HospitalSetup.AddThenRemove | src/components/HospitalSetup.tsx:56-71 | adding a specialty and removing it again gives back the old list |
| Decimal.DecimalRoundTrip | src/components/NotificationCenter.tsx:65-67 | reading back a rendered number gives the number |
| NotificationCenter.AgeOf | src/components/NotificationCenter.tsx:62-67 | the four buckets split the minutes exactly at 1, 60 and 1440; hours are 1-23 and days at least 1, each the floor of the age |
| NotificationCenter.AgeLabel | src/components/NotificationCenter.tsx:64-67 | "Ahora mismo" exactly for the first bucket; the others read `hace ` and end in `m`, `h` or `d` for minutes, hours or days |
| NotificationCenter.AgeLabelInjective | src/components/NotificationCenter.tsx:64-67 | two buckets never share a label |
| NotificationCenter.TimeAgo | src/components/NotificationCenter.tsx:59-68 | the label of the bucket of the floored minutes; an unparseable timestamp gives `hace NaNd` |
| NotificationCenter.BadgeText | src/components/NotificationCenter.tsx:110-116 | a badge shows iff the count is positive, and reads `99+` iff it exceeds 99, else the number |
| NotificationCenter.ClickBell | src/components/NotificationCenter.tsx:93-96 | a click toggles the panel and marks read exactly when it opens it |
| NotificationCenter.OnBellClick | src/components/NotificationCenter.tsx:93-96 | closing (or no user) changes neither the list, the stored read ids nor the stamp; opening with a user marks every entry read, persists the ids, stamps the clock and leaves no badge; the sign-in state is not touched |
| NotificationCenter.UrgencyColor | src/components/NotificationCenter.tsx:70-78 | anything but the four known urgencies gets the grey style, and only critical pulses |
| NotificationCenter.NotificationBackground | src/components/NotificationCenter.tsx:80-88 | anything but the four known urgencies gets the grey background |
| NotificationCenter.UrgencyStylesDistinct | src/components/NotificationCenter.tsx:70-88 | distinct known urgencies get distinct colours and backgrounds |
| Dashboard.CountUrgency | src/components/Dashboard.tsx:25-26 | the number of requests of one urgency, at most all of them, and zero iff none has it |
| Dashboard.CountUrgent | src/components/Dashboard.tsx:38 | the number of requests the feed flags urgent, at most all of them, and zero iff none is |
| Dashboard.UrgentRequests | src/components/Dashboard.tsx:27 | `urgentRequests` is zero iff no request is critical or high, and at least each of its two parts |
| Dashboard.UrgentRequestsMeaning | src/components/Dashboard.tsx:23-27 | critical plus high counts each urgent request once, is at most the total, and is zero iff none is urgent |
| Dashboard.TallyName | src/components/Dashboard.tsx:53 | a request is tallied under its catalogue name, or under `Desconocido` when that is falsy |
| Dashboard.MedicationCounts | src/components/Dashboard.tsx:52-56 | the entries of `medicationCounts`: at most one per request, and none exactly when there are no requests |
| Dashboard.MedicationCountsMeaning | src/components/Dashboard.tsx:52-56 | one entry per distinct name, each counting that name's occurrences, all at least one, summing to the number of requests |
| Dashboard.UnnamedCountedAsUnknown | src/components/Dashboard.tsx:52-56 | requests without a catalogue name are counted under `Desconocido`, and the counts sum to the number of requests |
| Dashboard.SortByCountSorted | src/components/Dashboard.tsx:59 | the sort orders entries by count, highest first |
| Dashboard.SortByCount | src/components/Dashboard.tsx:59 | the sort is a permutation of the entries |
| Dashboard.MostRequested | src/components/Dashboard.tsx:58-61 | at most five entries, the first ones of the sorted tally |
| Dashboard.MostRequestedIsTop | src/components/Dashboard.tsx:58-61 | the top five have non-increasing counts, are drawn from the entries, and nothing left out outranks an entry that made it |
| Dashboard.MostRequestedFromTally | src/components/Dashboard.tsx:52-61 | each top entry counts at least one request and exactly its name's occurrences |
| Dashboard.RequestCard | src/components/Dashboard.tsx:32-39 | a request card is flagged urgent iff the request is critical or high |
| Dashboard.OfferCard | src/components/Dashboard.tsx:41-48 | an offer card is never urgent |
| Dashboard.RecentActivity | src/components/Dashboard.tsx:31-49 | at most six cards: those of the first three requests, then those of the first three offers |
| Dashboard.UrgentCardsAreUrgentRequests | src/components/Dashboard.tsx:31-49 | a card is urgent iff it comes from a critical or high request |
| Dashboard.UrgentTrend | src/components/Dashboard.tsx:89-90 | trend up with `+2` iff more than five urgent requests, else down with `-1` |
| Dashboard.Statistics | src/components/Dashboard.tsx:23-28 | totals are the list lengths, urgent is at most total, and its card trends up iff more than five |

## Left out

- Messages.ReplaceKeepsNoDuplicates: states the no-duplicate guarantee only when the confirmed row is not yet shown. The source can show a message twice, either when the realtime echo arrives before the insert response or when two sends share a millisecond; see "## Findings". The handler `Messages.MessageStore.CompleteSend` models the code as written, and the corrected confirm and temporary id stand beside it.

- Backend I/O is not modelled: Supabase queries, inserts, updates and channel subscriptions. Their results enter as method inputs, and the server-side channel filters are guards in the handlers.
- The external-message branch of the INSERT handler (src/hooks/useMessages.ts:103-113) is left out. It appends a message and removes it again after 100 ms, so its net effect on the list is nil. The module-wide `isProcessingExternalMessage` flag is left out too; no logic reads it.
- React effects, visibility/focus refetches, the 30-second polling, browser `Notification` objects and sounds are not modelled.
- `markAsRead` calls `fetchUnreadCounts` at its end. That call is a separate step (`Messages.MessageStore.FetchUnreadCounts`).
- Resolving the current hospital from the list (`hospitals.find`) is left out; its result is the `current` field (`""` when none is found).
- The joined `sender_hospital` name of a message is not kept: no logic depends on it.
- Interleaving inside an asynchronous call is not modelled. `Messages.MessageStore.FetchMessages` shows only the net effect on the loading flag.
- `JSON.parse` failures on corrupted local storage are not modelled. The stored conversation order is a sequence field of `MessageListener.ConversationLedger`.
- Dates, `toLocaleString` and locale formatting are not modelled. Timestamps are strings, and the time-ago label takes the millisecond difference as input.
- Dashboard.RecentActivity: the final sort by parsed date is not modelled; the model gives the card list before that sort, so only the bounds and flags are stated.
- The three floating-point "change" figures of the dashboard (`Math.floor(n * 0.1)` and alike) are floating-point arithmetic and are not modelled.
- Dashboard.MostRequested: `Object.entries` lists integer-like keys before the others; the model keeps first-insertion order for every name. The sort's stability is not proved.
- Dashboard.SortByCount: stated as a permutation ordered by count, without the tie order.
- Swipe coordinates are reals; floating-point rounding of touch positions is not modelled.

## Findings

| source | as written | input that shows it | evidently intended | confidence | as-written member | corrected member |
|---|---|---|---|---|---|---|
| src/hooks/useMessages.ts:99-101, 200-202 | the INSERT handler appends the echo of one's own send because its id differs from the temporary one, and the confirmation then replaces the temporary entry by the same row | send a message; the realtime INSERT for it arrives before the insert call returns | each message is shown once: the confirmation drops the temporary entry when the row is already listed | not executed | Messages.EchoBeforeConfirmDuplicates | Messages.ConfirmSend, Messages.ConfirmSendKeepsNoDuplicates, Messages.ConfirmAfterEcho |
| src/hooks/useMessages.ts:163, 200-202 | the temporary id is `temp-` plus `Date.now()`, so two sends within one millisecond share it, and the first confirmation replaces both entries | two sends in the same millisecond, the first confirmed before the second | each pending send has its own temporary id | not executed | Messages.SameStampSendsCollide | Messages.TempIdFor, Messages.TempIdsDistinct, Messages.DistinctTempIdsConfirmSeparately |
