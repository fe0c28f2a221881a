# Verification of the sync engines plugin and of the vendored theme.json code

This project models two parts of the repository in Dafny and proves properties
of the models. `dafny verify dfyconfig.toml` checks everything.

**The plugin's shared state.** Every SQL statement on an options row is one
instant; any number of other statements may come between two statements of one
PHP call, and the clock never goes back. `OptionsTable` is that row with its
history. The compare-and-swap of `WP_Sync_Atomic_Option` (`AtomicOption`,
`PrefixChain`), the advisory mailbox (`Mailbox` and four modules about its
runs) and the room lock (`RoomLock`, `RoomLockWaits`) are methods over the row;
each is proved to play a step machine under arbitrary interference, and the
theorems are about every history those machines can make together. Presence
tokens and room resets (`RoomTokens`, `RoomLifetime`) and the two awareness
stores (`Awareness`, `PresenceAwareness`) take a whole request as one step and
are compared with the log of what happened.

**The theme.json algorithms.** Selector lists (`SelectorLexer`,
`SelectorScanner`, `SelectorTexts`, `SelectorJoin`, `SelectorScope`,
`SelectorAffix`, `SelectorAffixLaws`, `SelectorAffixLists`), custom CSS
(`CustomCss`), schema filtering and merging of PHP arrays (`PhpArray`,
`SchemaFilter`, `ThemeMerge`, `ThemeMergeLaws`, `ThemeMergeIncoming`,
`ThemeMergeOrigins`), spacing sizes (`SpacingScale`, `SpacingScaleValues`,
`SpacingMerge`) and the HSL conversion of duotone colours (`Duotone`).
`Sequences` and `StableSort` hold what several modules need.

Times are whole seconds, except in the lock, where they are microseconds as in
the token's text. A token of the lock and a message of the mailbox are values
that no other call makes again.

Where the code and its own words disagree, the model follows the code, and a
lemma shows the difference:

- a lost `swap` does not mean that the row held another value
  (`AtomicOption.LostToCreation`, `AtomicOption.LostToDeletion`);
- `awareness_timestamp` rounds up, so an entry may outlive the timeout by less
  than one step (`Awareness.ListedFor`);
- the fast paths of `append_to_selector` and `prepend_to_selector` miss closing
  parentheses (`SelectorAffixLaws.FastPathDiffers`);
- a hue loses its fraction of a degree (`Duotone.MatchesCssExactly`);
- splitting, joining and splitting again can lose an escaped space
  (`SelectorJoin.EscapedSpaceIsLost`);
- deleting a mailbox keeps mail safe only while no call has mail in hand
  (`MailboxDeletion.DeletionIsSafeExactly`);
- more than ten spacing steps lose sizes (`SpacingScale.CountExactly`), and a
  multiplying scale with increment 0 divides by zero
  (`SpacingScale.DividesByZeroExactly`);
- client id 0 puts a second entry in the awareness array
  (`Awareness.PutReplaces`);
- merging data with default and theme presets twice can bring back a theme
  preset (`ThemeMergeOrigins.LeftoverDefaultIsLost`);
- a mixed array can come out of the schema filter differently the second time
  (`SchemaFilter.IdempotentExactly`).

## Model

| member | source | states |
|---|---|---|
| OptionsTable.OptionsRow.Update | includes/class-wp-sync-atomic-option.php:91-95 | the conditional UPDATE: changes the row only from the expected value, and reports success only when the value really changed (the count is of changed rows) |
| OptionsTable.OptionsRow.InsertIgnore | includes/class-wp-sync-atomic-option.php:102-105 | the seed: creates a missing row, leaves an existing one as it is, and says which |
| OptionsTable.OptionsRow.Select | includes/class-wp-sync-atomic-option.php:191-204 | an uncached read: what the row holds at that instant, nothing changed |
| OptionsTable.OptionsRow.Delete | includes/class-wp-sync-room-lock.php:174-176 | deletes the row, or deletes it only while it holds the given value |
| AtomicOption.Swap | includes/class-wp-sync-atomic-option.php:82-108 | whatever other processes do between its statements, the statements a swap adds to the row's history are those of the step machine, and its answer is where the machine stands |
| AtomicOption.SwapEffect | includes/class-wp-sync-atomic-option.php:70-81 | a true answer has exactly one instant, its last statement, at which the row goes from expected to next; a call that has not won never installs next: its statements at most seed a missing row with expected |
| AtomicOption.SwapAlone | includes/class-wp-sync-atomic-option.php:70-81 | with no other process about, swap is an atomic compare-and-swap with seed: it succeeds exactly when the row was missing or held expected and next is another value; a failure leaves the row as it was, but for the seed of a missing row that was to be swapped for the same value |
| AtomicOption.LossHasACause | includes/class-wp-sync-atomic-option.php:98-100 | every lost call met another value in the row, or another process created or deleted the row under it; that each of the two last does lose calls is LostToCreation and LostToDeletion |
| AtomicOption.EarlyLossExactly | includes/class-wp-sync-atomic-option.php:98-100 | a call that loses at the read after its failed UPDATE finds there the very value it expected if and only if another process has put it there since that UPDATE |
| AtomicOption.LateLossHasADeletion | includes/class-wp-sync-atomic-option.php:101-107 | a call that comes to its second seed, and so loses whatever happens, had the row deleted under it |
| AtomicOption.LostToCreation | includes/class-wp-sync-atomic-option.php:99 | for any two different values there is a run in which a call loses although the row is only ever missing or holds the expected value: another swap seeds it between the UPDATE and the read; so the comment beside the early return is not an invariant |
| AtomicOption.LostToDeletion | includes/class-wp-sync-atomic-option.php:101-107 | for any two different values there is such a run in which the row is deleted after the call's own first seed |
| AtomicOption.Reset | includes/class-wp-sync-atomic-option.php:219-238 | reset plays its two statements, delete then seed, whatever comes between |
| AtomicOption.ResetsAreIdempotent | includes/class-wp-sync-atomic-option.php:206-212 | any number of processes re-seeding with one value, interleaved anyhow, leave that value once nobody is between delete and insert |
| PrefixChain.SwapPrefixed | includes/class-wp-sync-atomic-option.php:126-155 | the statements a prefixed swap adds to the row's history are those of its step machine, whatever comes between them, and its answer is where the machine stands; SwapPrefixedAlone, PrefixEffect and LosesInTwoRounds say what that answer means |
| PrefixChain.SwapPrefixedAlone | includes/class-wp-sync-atomic-option.php:112-119 | with no other process about, the prefixed swap is one atomic operation: it succeeds exactly when the row is missing or holds a value with the prefix other than next, and then the row holds next; a failure leaves the row as it was |
| PrefixChain.PrefixEffect | includes/class-wp-sync-atomic-option.php:126-155 | whatever others do, a successful call has changed the row at exactly one instant, from a value with the prefix or from nothing to next; any other call has changed nothing |
| PrefixChain.PrefixLossHasACause | includes/class-wp-sync-atomic-option.php:142-144 | a call that loses although the row was missing or had the prefix at its start lost to a change by another process |
| PrefixChain.LosesInTwoRounds | includes/class-wp-sync-atomic-option.php:134-155 | a call fails at one of its two reads, finding the row, or at its second seed, finding that another process was first; never before |
| PrefixChain.PrefixesAreDisjoint | includes/engines/de-rtc/class-wp-de-rtc-engine.php:2488 | a value that starts with one number in decimal and a bar starts with no other number's |
| PrefixChain.ChainGrowsByOne | includes/engines/de-rtc/class-wp-de-rtc-engine.php:2460-2490 | in every run of advance and maintenance writers without deletes each success extends the one before it: it expects the number its predecessor wrote, the row holds the last one's value, the number rises by exactly one with each advance and stays with each maintenance write, and no two advance writers win for one number |
| PrefixChain.HistoryIsRun | includes/engines/de-rtc/class-wp-de-rtc-engine.php:2488-2495 | a history in which every writer contributes what its code plays leaves row and writers where the runs of the chain theorem do |
| PrefixChain.WriterPlaysSwap | includes/engines/de-rtc/class-wp-de-rtc-engine.php:2490 | the prefixed swap, called with the chain's arguments, plays one writer of the chain |
| Mailbox.AppendMail | includes/class-gutenberg-sync-engines-advisory-presence.php:916-928 | under any interference append_mail plays its machine: attempts of a read, a clock reading and a swap; it ends having appended or given up. What it writes is in MailboxLimits, how often it tries in MailboxProgress |
| Mailbox.TakeMailbox | includes/class-gutenberg-sync-engines-advisory-presence.php:941-964 | under any interference take_mailbox plays its machine, and returns exactly the messages its winning swap took out; nothing otherwise. Which those are is in MailboxLimits |
| MailboxLimits.BoxIsBounded | includes/class-gutenberg-sync-engines-advisory-presence.php:921-923 | in every run the box never holds more than 50 messages |
| MailboxLimits.EvictsOnlyWhenFull | includes/class-gutenberg-sync-engines-advisory-presence.php:921-923 | a message is evicted only by an append, and only if that leaves exactly 50 messages in the box |
| MailboxLimits.AppendWins | includes/class-gutenberg-sync-engines-advisory-presence.php:919-924 | the statement that completes an append replaces the box by the newest 50 of the messages in it that were younger than 90 seconds at the attempt's clock reading, followed by the call's own; what it evicts is the rest of these |
| MailboxLimits.TakeWins | includes/class-gutenberg-sync-engines-advisory-presence.php:944-964 | the statement that completes a take empties the box and delivers exactly the messages in it that were younger than 90 seconds at the attempt's clock reading, in order |
| MailboxLimits.AppendAddsToTheEnd | includes/class-gutenberg-sync-engines-advisory-presence.php:916-928 | with nobody in the way, an append to a box of young mail, or to a missing row, with room for both, succeeds and leaves the old mail followed by the new |
| MailboxLimits.AppendAlone | includes/class-gutenberg-sync-engines-advisory-presence.php:901-907 | with nobody in the way an append of messages not yet there always succeeds at once, and leaves the newest 50 of the young mail followed by its own |
| MailboxLimits.TakeAlone | includes/class-gutenberg-sync-engines-advisory-presence.php:941-964 | with nobody in the way a take returns exactly the mail younger than 90 seconds and leaves an empty box; where there is none it returns nothing and leaves the row as it was |
| MailboxLimits.DeliveredIsYoung | includes/class-gutenberg-sync-engines-advisory-presence.php:978-986 | under any interference, every message a take returns was filed less than 90 seconds before a clock reading of that take |
| Mailbox.SwapInsideCall | includes/class-gutenberg-sync-engines-advisory-presence.php:924 | the statements of the inner swap are, one by one, steps of the surrounding call |
| MailboxRuns.MailIsConserved | includes/class-gutenberg-sync-engines-advisory-presence.php:901-907 | at every moment of every run without unsafe deletes: appended = delivered + in the box + expired + evicted + discarded with the row, each message once; they leave in the order they were appended; what counts as expired is 90 seconds old; a sender's messages are in play exactly when its append succeeded |
| MailboxRuns.DeliveredAtMostOnce | includes/class-gutenberg-sync-engines-advisory-presence.php:931-934 | no message is returned by two takes or twice by one, and what is returned was appended |
| MailboxRuns.HistoryIsRun | includes/class-gutenberg-sync-engines-advisory-presence.php:916-964 | any history of the row to which every call contributes what its code plays is a run of the model |
| MailboxDeletion.DeletionIsSafeExactly | includes/class-gutenberg-sync-engines-advisory-presence.php:998-1000 | deleting the row leaves every later run conserving messages if and only if, at that instant, no call has read mail that it may yet write back |
| MailboxProgress.GivingUpMeansOthersWon | includes/class-gutenberg-sync-engines-advisory-presence.php:916-928 | lock freedom: a call that gives up after its eight attempts has at least eight distinct changes of the row by others charged to it, all but at most the first of existing rows |
| RoomLock.Acquire | includes/class-wp-sync-room-lock.php:97-150 | under any interference acquire plays its machine, and returns the token exactly when that holds the lock; RoomLockWaits says how long it waits |
| RoomLockWaits.BusyIsLate | includes/class-wp-sync-room-lock.php:106-150 | a call told that the room is busy has read the clock at or past its deadline, the wait budget after its second clock reading, and has met the row there |
| RoomLockWaits.TriesUntilDeadline | includes/class-wp-sync-room-lock.php:108-143 | a call becomes busy only at the clock reading that ends a pass, exactly if that is at or past the deadline; otherwise it tries again, and a claim that meets the row missing holds it, with the token stamped when the call began |
| RoomLockWaits.HeldLockIsLeftAlone | includes/class-wp-sync-room-lock.php:128-143 | while the token in the row is within its 30 seconds and nobody else touches it, a call leaves the row alone and never holds the lock |
| RoomLock.Release | includes/class-wp-sync-room-lock.php:162-177 | release plays one token-checked delete |
| RoomLock.HistoryIsRun | includes/class-wp-sync-room-lock.php:97-177 | any history of the row to which every call contributes what its code plays is a run of the model |
| RoomLock.TenuresNeverOverlap | includes/interface-wp-sync-lock-backend.php:14-21 | mutual exclusion over every run: of two tenures of the lock the earlier was released, or its 30 seconds from the token's stamp had passed, before the later began |
| RoomLock.EarlierClaimIsOver | includes/class-wp-sync-room-lock.php:122-135 | a claim that an earlier epoch left in the row is displaced by the first tenure, and is past its lease by then |
| RoomLock.HolderOwnsRow | includes/interface-wp-sync-lock-backend.php:20-21 | within its lease a holder owns the row whatever stale releases and takeover attempts others make, and every other call that believes it holds the lock is past its lease |
| RoomLock.HolderKeepsRow | includes/interface-wp-sync-lock-backend.php:14-21 | a holder still has the row, its lease run out or not, exactly when no later tenure has begun |
| RoomLock.OnlyReleaseOrTakeover | includes/class-wp-sync-room-lock.php:162-177 | in every run the only statements that take the row from its holder are its own release and a takeover after its stamp and TTL; anybody else's release leaves the row alone |
| RoomLock.StaleClaimIsTakenOnce | includes/class-wp-sync-room-lock.php:122-125 | two waiters never take over the same stale claim |
| RoomLock.AbandonedLockCanBeTaken | includes/interface-wp-sync-lock-backend.php:17-18 | a crashed holder's lock can be taken: a call that starts with a missing row or a token older than the lease, and during which nobody else changes the row, holds the lock after one pass however long its statements take, and is never told busy |
| RoomTokens.TokenRecord.ReadTokens | includes/class-gutenberg-sync-engines-advisory-presence.php:1049-1072 | reads the tokens younger than 300 seconds, in the order of the array, from a transient that has not expired |
| RoomTokens.TokenRecord.RecordToken | includes/class-gutenberg-sync-engines-advisory-presence.php:1093-1131 | puts the token back with the present time, keeps its join once set, and caps the record |
| RoomTokens.TokenRecord.ForgetToken | includes/class-gutenberg-sync-engines-advisory-presence.php:1203-1212 | takes the token out, and the transient away with the last one |
| RoomTokens.CapDropsOldest | includes/class-gutenberg-sync-engines-advisory-presence.php:1120-1128 | one token too many: the stable sort and the slice drop exactly the oldest token (of equally old ones the last), and nothing else |
| RoomTokens.BeatIsLostExactly | includes/class-gutenberg-sync-engines-advisory-presence.php:1120-1128 | a tab's own beat is lost to the cap if and only if the tab is new and 50 others have all beaten in the very same second |
| RoomTokens.KeptForTenMinutes | includes/class-gutenberg-sync-engines-advisory-presence.php:1203-1211 | a beat can be read for 600 seconds; a leave takes the transient away exactly if no other token is live, and otherwise keeps it as long |
| RoomLifetime.HereMeans | includes/class-gutenberg-sync-engines-advisory-presence.php:82-91 | being there is having beaten within 300 seconds and not having left since |
| RoomLifetime.RecordIsTheLog | includes/class-gutenberg-sync-engines-advisory-presence.php:1049-1131 | over every run of requests in which never more than 50 tabs are there at once, the live tokens are at every later moment exactly the tabs that are there, each with its last beat and whether it has joined; the transient's expiry loses none |
| RoomLifetime.Room.Probe | includes/class-gutenberg-sync-engines-advisory-presence.php:419 | a probe records a beat and nothing else |
| RoomLifetime.Room.OthersPresent | includes/class-gutenberg-sync-engines-advisory-presence.php:1224-1231 | company is another live token in the record; or, in a written room with a storage, a live awareness entry of another client, any entry at all for a client without an id |
| RoomLifetime.Room.NoteSyncRequest | includes/class-gutenberg-sync-engines-advisory-presence.php:653-670 | records the beat and resets the room when JoinResets holds of the record as it was, which JoinResetsExactly spells out; a bad token or another kind of room changes nothing |
| RoomLifetime.Room.Leave | includes/class-gutenberg-sync-engines-advisory-presence.php:686-698 | forgets the token (of any room) and resets the per-post room when LeaveResets holds of the record as it was, which LeaveResetsExactly spells out |
| RoomLifetime.JoinResetsExactly | includes/class-gutenberg-sync-engines-advisory-presence.php:636-644 | a sync request resets the room if and only if the tab has not joined since it came, no other tab is there, every live awareness entry is this client's (and there is none for a client without an id), resetting is on, the room is written and has a storage, and wiping it succeeds |
| RoomLifetime.LeaveResetsExactly | includes/class-gutenberg-sync-engines-advisory-presence.php:673-677 | leaving resets the room if and only if no other tab is there, every live awareness entry is this client's (and there is none for a client without an id), resetting is on, the room is written and has a storage, and wiping it succeeds |
| RoomLifetime.JoinedMeans | includes/class-gutenberg-sync-engines-advisory-presence.php:653-670 | having joined is being there and having made a sync request after which the tab neither left nor fell silent for 300 seconds |
| RoomLifetime.TokensAre | includes/class-gutenberg-sync-engines-advisory-presence.php:849-851 | a token is 1 to 64 characters from the letters, the digits, the underscore and the hyphen |
| RoomLifetime.JoinsOnce | includes/class-gutenberg-sync-engines-advisory-presence.php:641-643 | between two join resets by one tab it left or was silent for the whole TTL: a tab that keeps beating causes at most one |
| RoomLifetime.RecordIsBounded | includes/class-gutenberg-sync-engines-advisory-presence.php:111 | however many tabs there are, the record never holds more than 50 tokens |
| Awareness.Store.LiveEntries | includes/class-wp-sync-awareness.php:216-235 | filters out what is no entry, the excluded client and the expired; client 0 excludes nobody |
| Awareness.Store.WriteBack | includes/class-wp-sync-awareness.php:190-206 | sorts, and writes exactly when the array differs from the stored one |
| Awareness.Store.Entries | includes/class-wp-sync-awareness.php:115-122 | lists, one per client and by client id, exactly the last entries put and not forgotten that are still alive |
| Awareness.Store.PutState | includes/class-wp-sync-awareness.php:137-151 | refines the update of a map from client to entry: every other client's live entry stays; the array stays strictly sorted; it writes exactly when something changed |
| Awareness.Store.ForgetClient | includes/class-wp-sync-awareness.php:164-174 | refines the removal from the map, and writes exactly when the client was there or something had expired |
| Awareness.PutReplaces | includes/class-wp-sync-awareness.php:137-151 | after a put the array has one entry per client unless the client is 0 and already has a live entry; otherwise it holds the new entry and every other live one |
| Awareness.PutIsIdleExactly | includes/class-wp-sync-awareness.php:176-180 | a put writes nothing if and only if the stored entry is the same in state, user and time bucket and nobody else's has expired |
| Awareness.ForgetRemoves | includes/interface-wp-sync-awareness-backend.php:19-20 | a forget removes one client's entry and keeps every other live one, in order |
| Awareness.ForgetIsIdleExactly | includes/class-wp-sync-awareness.php:190-206 | a forget writes nothing if and only if the client has no entry and none has expired |
| Awareness.BucketBounds | includes/transports/class-wp-http-polling-sync-server.php:843-870 | the time stamp is the next multiple of the granularity, less than one step ahead of the clock |
| Awareness.ListedFor | includes/transports/class-wp-http-polling-sync-server.php:844-849 | an entry is alive for at least the timeout after its put, and for less than one step longer |
| PresenceAwareness.Table.Entries | includes/class-wp-sync-presence-api-awareness-backend.php:72-96 | lists by client id this plugin's rows that are within both windows |
| PresenceAwareness.Table.Put | includes/class-wp-sync-presence-api-awareness-backend.php:132-169 | writes unless the listed row says the same and is recent, and answers, without reading again, exactly what a second read would give |
| PresenceAwareness.Table.Forget | includes/class-wp-sync-presence-api-awareness-backend.php:181-185 | removes the one row and answers with the rest |
| PresenceAwareness.EntriesAre | includes/class-wp-sync-presence-api-awareness-backend.php:72-116 | a listing is strictly by client id and holds exactly this plugin's rows that are younger than the site's window and than the timeout |
| PresenceAwareness.PollingClientIsListed | includes/class-wp-sync-presence-api-awareness-backend.php:118-120 | in every run, a client whose last put is no longer ago than the timeout less the refresh share (and the site's window less that share) is listed with what it last put, although puts within the share write nothing |
| PresenceAwareness.ListedMeansPolling | includes/interface-wp-sync-awareness-backend.php:21-22 | whoever is listed has put within the timeout and within the site's window, has not been forgotten since, and is listed with its last state and user |
| PresenceAwareness.OneSecondMoreIsTooMuch | includes/class-wp-sync-presence-api-awareness-backend.php:26-33 | the bound is sharp: for every timeout, one second more between polls lets a client drop out |
| SelectorScanner.SplitSelectorList | gutenberg/lib/class-wp-theme-json-gutenberg.php:1646-1764 | the jumping scanner gives, for every text, exactly the items of the character-by-character lexer: the trimmed pieces between commas at depth 0 outside strings, comments and escapes |
| SelectorTexts.SplitsIntoSelectors | gutenberg/lib/class-wp-theme-json-gutenberg.php:1609-1645 | a list written from selectors, each any sequence of letters, escapes, strings, comments and nested parentheses with any commas inside these, splits into exactly those selectors, trimmed; an empty one after a last comma is left out |
| SelectorTexts.TrimMeans | gutenberg/lib/class-wp-theme-json-gutenberg.php:1735-1752 | trimming takes spaces, tabs and line feeds off both ends, nothing else, and leaves none there |
| SelectorScanner.SkipString | gutenberg/lib/class-wp-theme-json-gutenberg.php:1684-1710 | the jump over a string ends where the lexer leaves it, past escapes, and meets no separating comma |
| SelectorScanner.SkipComment | gutenberg/lib/class-wp-theme-json-gutenberg.php:1714-1720 | the jump over a comment ends where the lexer leaves it; the star that opens a comment may close it |
| SelectorScanner.PiecesByCommas | gutenberg/lib/class-wp-theme-json-gutenberg.php:1655-1760 | the positions of separating commas cut the text into the pieces of the lexer |
| SelectorLexer.PiecesJoin | gutenberg/lib/class-wp-theme-json-gutenberg.php:1616-1617 | nothing is lost: the pieces joined by commas are the text |
| SelectorLexer.TrimIs | gutenberg/lib/class-wp-theme-json-gutenberg.php:1735-1752 | trimming takes off exactly the surrounding spaces, tabs and newlines |
| SelectorJoin.SplitJoinExactly | gutenberg/lib/class-wp-theme-json-gutenberg.php:2783 | for any list, splitting undoes the `, ` join if and only if each item is a single selector on its own and trimmed, and each but the last leaves the scanner closed and does not end in an escape |
| SelectorJoin.SplitIsItemized | gutenberg/lib/class-wp-theme-json-gutenberg.php:1646-1764 | every item of a split list is one selector when read on its own |
| SelectorJoin.SplitUndoesJoinExactly | gutenberg/lib/class-wp-theme-json-gutenberg.php:1646-1764 | for every text, splitting the rejoined list gives the list back if and only if no item but the last ends in an escape |
| SelectorJoin.EscapedSpaceIsLost | gutenberg/lib/class-wp-theme-json-gutenberg.php:1752 | a text for which it does not: trimming takes the escaped space |
| SelectorScope.ScopeSelector | gutenberg/lib/class-wp-theme-json-gutenberg.php:2761-2784 | the scoped list; where one side is "" or "0", the selector as it is |
| SelectorScope.ScopeIsProduct | gutenberg/lib/class-wp-theme-json-gutenberg.php:2767-2783 | split again, a scoped list is every outer selector followed by every inner one, in order |
| SelectorScope.ScopeIsProductExactly | gutenberg/lib/class-wp-theme-json-gutenberg.php:2761-2784 | for any two lists, the scoped list splits back to the product if and only if every pair but the last stands on its own and the last is single; where PHP takes one of the texts for empty, if the scope is empty to it or is nothing but one such selector |
| SelectorScope.ProductAt | gutenberg/lib/class-wp-theme-json-gutenberg.php:2767-2782 | place i * m + j is outer i, a space and inner j; one of them alone where PHP takes the other for empty |
| SelectorScope.ScopeIsAssociative | gutenberg/lib/class-wp-theme-json-gutenberg.php:2744-2784 | scoping is associative to the letter on lists of usable selectors |
| SelectorAffix.AppendToSelector | gutenberg/lib/class-wp-theme-json-gutenberg.php:1523-1557 | appends by one of the three paths of the original; what each writes is in SimpleListsKeepTheirShape and OtherListsAreRejoined |
| SelectorAffix.PrependToSelector | gutenberg/lib/class-wp-theme-json-gutenberg.php:1572-1607 | prepends by one of the three paths of the original; what each writes is in SimpleListsKeepTheirShape and OtherListsAreRejoined |
| SelectorAffixLaws.SimpleListsKeepTheirShape | gutenberg/lib/class-wp-theme-json-gutenberg.php:1547-1549 | selectors without `/`, quotes, `(`, `<` or an escape, joined by commas, each get the text where they stand, and nothing is trimmed; for appending and for prepending |
| SelectorAffixLaws.OtherListsAreRejoined | gutenberg/lib/class-wp-theme-json-gutenberg.php:1551-1556 | a text without a comma gets the text as one selector; a list with one of these characters is split and joined again by comma and space, each item with the text |
| SelectorAffixLaws.AppendExactly | gutenberg/lib/class-wp-theme-json-gutenberg.php:1509-1513 | for every list and every text that leaves the scanner where it found it (functions with commas, strings, outer space and the empty text included), the result splits into each selector with the text added and trimmed if and only if CanAppend holds: on the fast path no trailing comma, no comma that does not separate, no space between a selector and the text, and nothing left open or closed too often at the end of the list that would take the text apart there; on the slow path only the last, and for the empty text no escape before a comma |
| SelectorAffixLaws.PrependExactly | gutenberg/lib/class-wp-theme-json-gutenberg.php:1560-1564 | the same for prepending; on the slow path the only condition is that no selector but the last ends in an escape |
| SelectorAffixLists.AppendSplits | gutenberg/lib/class-wp-theme-json-gutenberg.php:1523-1557 | appending any text that closes what it opens, lists of selectors included: the result splits into exactly what each selector with the text splits into |
| SelectorAffixLists.PrependSplits | gutenberg/lib/class-wp-theme-json-gutenberg.php:1572-1607 | the same for prepending, where no selector but the last ends in an escape |
| SelectorAffixLists.OpenTextMergesList | gutenberg/lib/class-wp-theme-json-gutenberg.php:5667-5678 | on the fast path a text that leaves a parenthesis open makes one selector of the whole list, appended or prepended |
| SelectorAffixLaws.GuardMissesClosers | gutenberg/lib/class-wp-theme-json-gutenberg.php:1538-1550 | the guard of the fast path lets closing parentheses through: every comma separates if and only if none comes after one |
| SelectorAffixLaws.FastPathDiffers | gutenberg/lib/class-wp-theme-json-gutenberg.php:1549-1551 | on "a),b" both fast paths disagree with the scanner, for every such text but the empty one |
| CustomCss.ValidateCustomCss | gutenberg/lib/class-wp-rest-global-styles-controller-gutenberg.php:704-783 | accepts exactly the safe texts, and otherwise quotes the first place an end tag could begin: to the end of the text, or the tag itself |
| CustomCss.SafeExactly | gutenberg/lib/class-wp-rest-global-styles-controller-gutenberg.php:722-749 | safe texts are those in which no STYLE end tag begins, whatever follows |
| CustomCss.SafeNeverCloses | gutenberg/lib/class-wp-rest-global-styles-controller-gutenberg.php:722-749 | safe texts are those that never change whether what follows them makes the tokenizer of the HTML standard leave the STYLE element |
| CustomCss.LeavesAtEndTag | gutenberg/lib/class-wp-rest-global-styles-controller-gutenberg.php:749 | the RAWTEXT states of section 13.2.5 of the HTML standard leave the element exactly at the first STYLE end tag |
| CustomCss.AcceptedTextsStayInside | gutenberg/lib/class-wp-rest-global-styles-controller-gutenberg.php:725-748 | any number of accepted texts after one another leave the element open |
| SchemaFilter.RemoveKeysNotInSchema | gutenberg/lib/class-wp-theme-json-gutenberg.php:1894-1942 | filters a tree to its schema: lists item by item, maps key by key, emptied maps removed |
| SchemaFilter.FixedExactly | gutenberg/lib/class-wp-theme-json-gutenberg.php:1883-1893 | the filter leaves a tree alone if and only if every key is in the schema and every value of the kind it asks for |
| SchemaFilter.PureIdempotent | gutenberg/lib/class-wp-theme-json-gutenberg.php:1883-1893 | filtering a tree of pure lists and maps twice is filtering it once |
| SchemaFilter.IdempotentExactly | gutenberg/lib/class-wp-theme-json-gutenberg.php:1920-1938 | a schema filters every tree, mixed arrays included, to something it leaves alone if and only if no value of it describes the items of a list |
| SchemaFilter.SurvivorsExactly | gutenberg/lib/class-wp-theme-json-gutenberg.php:1899-1938 | a leaf, in a map or in a list at any depth, is in the result exactly when it was in the tree and the schema has its path: keys of maps by name, items of lists by the key 0 where it describes them, down to a null that allows anything or a marker that asks for a boolean; for trees of lists and maps, and in mixed arrays for paths of names |
| SchemaFilter.SurvivorsOfAnyTree | gutenberg/lib/class-wp-theme-json-gutenberg.php:1899-1938 | in any tree, mixed arrays included, a leaf survives exactly when the schema admits the keys that lead to it, where an integer key of a mixed array is looked up like a name, so that at most the key 0 passes |
| SchemaFilter.EntryStaysExactly | gutenberg/lib/class-wp-theme-json-gutenberg.php:1899-1938 | an entry survives if and only if the schema has its key and its value may stay: anything under null, a boolean under a marker, and under an array a list, the empty one included, or a map of which some entry survives |
| SchemaFilter.NamedIsFirst | gutenberg/lib/class-wp-theme-json-gutenberg.php:1901 | a name is looked up among all the fields of a schema |
| SchemaFilter.ItemsKeepTheirPlaces | gutenberg/lib/class-wp-theme-json-gutenberg.php:1920-1929 | every item of a list stays, under its number |
| SpacingScale.ComputeSpacingSizes | gutenberg/lib/class-wp-theme-json-gutenberg.php:5529-5632 | computes the sizes of the scale outward from the middle, or divides by zero |
| SpacingScale.DividesByZeroExactly | gutenberg/lib/class-wp-theme-json-gutenberg.php:5602-5604 | division by zero happens exactly for a multiplying scale of at least two steps with increment 0 |
| SpacingScale.CountExactly | gutenberg/lib/class-wp-theme-json-gutenberg.php:5516-5520 | as many sizes as steps come out if and only if there are one to ten steps, or more of which some sink below zero first; else the sizes below slug 10 are lost |
| SpacingScale.SinksExactly | gutenberg/lib/class-wp-theme-json-gutenberg.php:5567-5570 | sinking is reaching zero or less within the four steps down that have slugs |
| SpacingScale.SlugsAreConsecutive | gutenberg/lib/class-wp-theme-json-gutenberg.php:5493-5496 | slugs are consecutive multiples of ten, 50 for the medium size, none below 10 |
| SpacingScale.AscendingExactly | gutenberg/lib/class-wp-theme-json-gutenberg.php:5493-5496 | the sizes strictly ascend if and only if there is one step at most, or the increment is above zero (and not 1 when multiplying); multiplying from a medium step that is not above zero, only for two steps with a negative medium step and a negative increment |
| SpacingScaleValues.SizesAre | gutenberg/lib/class-wp-theme-json-gutenberg.php:5557-5624 | every size has the name that belongs to its slug (Small, X-Small, 2X-Small and on; Large, X-Large, 2X-Large and on) and the length in closed form: the increment added or subtracted as often as the slug is steps from 50, or its power as a factor or a divisor, as it is above 1 or below |
| SpacingScaleValues.MediumPlace | gutenberg/lib/class-wp-theme-json-gutenberg.php:5551-5601 | the medium size comes after as many as half the steps, rounded up, leave room for, four at most, or after those before the first that would not be above zero |
| SpacingScaleValues.HowMany | gutenberg/lib/class-wp-theme-json-gutenberg.php:5567-5601 | there are as many sizes as steps, up to ten or if one of the four steps down reaches zero; otherwise half the steps and five |
| SpacingMerge.MergeSpacingSizes | gutenberg/lib/class-wp-theme-json-gutenberg.php:5477-5491 | merges the sizes of a theme over those of its scale |
| SpacingMerge.MergedSizes | gutenberg/lib/class-wp-theme-json-gutenberg.php:5468-5476 | every slug of either side once, the theme's preset where it has one, by number; and the theme's sizes untouched when there is no scale |
| ThemeMerge.ThemeJson.Merge | gutenberg/lib/class-wp-theme-json-gutenberg.php:4402-4553 | lays the incoming data over, regenerates sizes, and replaces units, presets and background images node by node, as the specification Merged has it; ThemeMergeIncoming says what the result holds, path by path |
| ThemeMerge.ThemeJson.DefaultSlugsAt | gutenberg/lib/class-wp-theme-json-gutenberg.php:4656-4683 | the slugs of the default presets at a node |
| ThemeMerge.ThemeJson.WithoutSlugs | gutenberg/lib/class-wp-theme-json-gutenberg.php:4717-4730 | drops the presets whose slug is taken (and those without one), and renumbers the rest |
| ThemeMerge.ThemeJson.RecomputeSizes | gutenberg/lib/class-wp-theme-json-gutenberg.php:4414-4438 | regenerates the sizes of each origin that has a scale from the scales flattened so far |
| ThemeMerge.TableIsGood | gutenberg/lib/class-wp-theme-json-gutenberg.php:131-235 | the preset table keeps presets, guards and units at different paths |
| PhpArray.RewriteAgain | gutenberg/lib/class-wp-theme-json-gutenberg.php:4404 | laying data over a tree and writing at some of its paths: doing both again changes nothing |
| ThemeMergeLaws.MergeTwice | gutenberg/lib/class-wp-theme-json-gutenberg.php:4440-4452 | merging data of one origin twice is merging it once |
| ThemeMergeLaws.MergeTwiceExactly | gutenberg/lib/class-wp-theme-json-gutenberg.php:4402-4553 | for data of any origins, merging it again changes nothing if and only if each preset comes out the same by the top-level default slugs that the second merge finds |
| ThemeMergeOrigins.SameFilterExactly | gutenberg/lib/class-wp-theme-json-gutenberg.php:4512-4519 | a theme preset comes out the same by two sets of default slugs if and only if overriding is allowed or each of its items is kept by both or by neither |
| ThemeMergeOrigins.LeftoverDefaultIsLost | gutenberg/lib/class-wp-theme-json-gutenberg.php:4404-4519 | for any two different slugs there is data with default and theme presets whose second merge brings back a theme preset that the first one filtered, by a default that index-merging had left over |
| ThemeMergeIncoming.IncomingReplaces | gutenberg/lib/class-wp-theme-json-gutenberg.php:4440-4448 | where units or a preset of the settings or of any one block, or a background image of the styles or of any one block, come in with data of one origin, the result holds exactly the incoming value, never index-merged with the old one (a theme preset as named and filtered by what the result says) |
| ThemeMergeIncoming.IncomingReplacesAll | gutenberg/lib/class-wp-theme-json-gutenberg.php:4448-4524 | the same for data of any origins, with the top-level default slugs read from the index-merged data |
| ThemeMergeIncoming.TargetsAreVisited | gutenberg/lib/class-wp-theme-json-gutenberg.php:3281-3312 | nothing that comes in is overlooked: units and presets of all four origins are replaced under settings and settings.blocks.<any name>, background images under styles and styles.blocks.<any name> |
| ThemeMergeIncoming.JobsAreTargets | gutenberg/lib/class-wp-theme-json-gutenberg.php:4452-4552 | and nothing else is replaced as a whole |
| ThemeMergeIncoming.UnitsAreReplaced | gutenberg/lib/class-wp-theme-json-gutenberg.php:4455-4463 | the units that come in are the units of the result |
| ThemeMergeIncoming.PresetIsReplaced | gutenberg/lib/class-wp-theme-json-gutenberg.php:4476-4522 | a preset of the default, blocks or custom origin that comes in is that of the result |
| ThemeMergeIncoming.BackgroundIsReplaced | gutenberg/lib/class-wp-theme-json-gutenberg.php:4526-4552 | the background image that comes in is that of the result |
| ThemeMergeIncoming.SizesComeFromScales | gutenberg/lib/class-wp-theme-json-gutenberg.php:4414-4438 | where the scale of an origin comes in, its sizes are generated from the sizes that came in and from a scale each of whose settings is that of the latest origin up to it that has one, of the incoming data before the laid-over |
| ThemeMergeIncoming.SilenceKeeps | gutenberg/lib/class-wp-theme-json-gutenberg.php:4404 | what the incoming data says nothing about stays as it was, unless it is in a part that is replaced as a whole |
| ThemeMergeIncoming.ValueComesIn | gutenberg/lib/class-wp-theme-json-gutenberg.php:4404 | every single value that comes in is in the result, unless it is in such a part |
| ThemeMergeLaws.KeptItems | gutenberg/lib/class-wp-theme-json-gutenberg.php:4717-4730 | exactly the presets with a free slug are kept |
| ThemeMergeLaws.NamedOnly | gutenberg/lib/class-wp-theme-json-gutenberg.php:4498-4508 | giving default names changes nothing but missing names |
| ThemeMergeIncoming.DefaultsAreProtected | gutenberg/lib/class-wp-theme-json-gutenberg.php:4454-4458 | where the switch for the preset is on, at the node or for the site, every preset of the theme that comes out has a slug, and not that of a default of its node in the result or of the top level in the laid-over data; for data of any origins |
| ThemeMergeIncoming.OthersAreKept | gutenberg/lib/class-wp-theme-json-gutenberg.php:4510-4520 | a preset of the theme whose slug no such default has is kept, with the name it gets |
| ThemeMergeIncoming.OverridingIsAllowed | gutenberg/lib/class-wp-theme-json-gutenberg.php:4465-4474 | where the switch is off, unset or does not exist, the theme's preset comes in whole, whatever its slugs, with names from the defaults |
| ThemeMergeIncoming.FilterKeepsOrder | gutenberg/lib/class-wp-theme-json-gutenberg.php:4717-4730 | filtering keeps the items with a free slug, each as often as it was there, in their order, numbered from 0 |
| ThemeMergeIncoming.NamedByFirstDefault | gutenberg/lib/class-wp-theme-json-gutenberg.php:4693-4706 | an item without a name gets that of the first default with its slug; UnnamedWithoutDefault: none if there is no such default |
| Duotone.HueIsInOneTurn | gutenberg/lib/class-wp-duotone-gutenberg.php:154-157 | the hue is brought into one turn and keeps its angle; a whole turn stands for 0 |
| Duotone.TruncateIs | gutenberg/lib/class-wp-duotone-gutenberg.php:154-157 | the hue loses its fraction towards zero |
| Duotone.ClampIs | gutenberg/lib/class-wp-duotone-gutenberg.php:142-144 | clamping gives the nearest number in the range |
| Duotone.MatchesTruncated | gutenberg/lib/class-wp-duotone-gutenberg.php:301-372 | for every input the pipeline gives the colour of section 7.1 of CSS Color Module Level 4 for the hue without its fraction, with all channels in range |
| Duotone.MatchesCssExactly | gutenberg/lib/class-wp-duotone-gutenberg.php:142-157 | for every real hue the pipeline gives the standard's colour for that hue if and only if the hue is a whole number of degrees or the colour is a grey |
| Duotone.HuesDiffer | gutenberg/lib/class-wp-duotone-gutenberg.php:326-346 | two hues within one turn have the same colour in the standard if and only if they are the same hue or the colour is a grey |
| Duotone.HalfDegreeShows | gutenberg/lib/class-wp-duotone-gutenberg.php:155 | hsl(59.5 100% 50%) does not get the colour the standard gives it |

## Left out

- The `$wpdb` layer, SQL text, collation and query errors: a statement compares strings exactly and does not fail.
- Substitute backends for compare-and-swap, locks and awareness beyond the Presence API one.
- MailboxLimits.AppendAlone: the last message appended is not in the box yet, as no message is filed twice; MailboxLimits.AppendAddsToTheEnd does without this.
- RoomLock.Acquire: the random part of the pause between attempts is not modelled, only its lower bound of five milliseconds; the random part of a token is taken to be unique.
- PrefixChain.ChainGrowsByOne: runs without deletes; the 40 attempts of an advance writer are so many calls, each of them a writer of the model.
- `file_signals`: grouping messages by recipient before `append_mail`; JSON text of mailboxes, malformed stored entries and the fields of a message other than its time.
- MailboxRuns.MailIsConserved: runs may contain deletes only at instants at which no call has mail in hand; MailboxDeletion.DeletionIsSafeExactly shows that this is exactly what is needed.
- RoomLifetime.RecordIsTheLog: each presence request is one step, so the lost updates of the token transient between concurrent requests are not modelled; the original accepts them.
- RoomTokens.TokenRecord.RecordToken: user, client id, block, name and avatar of a token are not modelled, as no lifetime rule reads them; nor is the sweep of mailbox rows.
- RoomTokens.TokenRecord.ForgetToken: the mailbox row of the tab, deleted in the same lines; MailboxDeletion is about that deletion.
- A persistent object cache that drops transients early, and storage resets failing half way.
- Awareness.Store.Entries: the timeout is fixed per store, as all callers pass the same constant, and the store starts empty.
- Awareness.Store.PutState: the map refinement needs a client id other than 0, or no live entry of client 0; Awareness.PutReplaces shows that this is exactly what is needed.
- PresenceAwareness.Table.Put: the Presence API's own calls are modelled by their documented effect; rows of other plugins carry no state, and replacing a row moves it to the end of the table, which sorting hides.
- SelectorAffixLaws.AppendExactly: the text is one selector's worth; lists and texts with an open parenthesis are in SelectorAffixLists. Not covered are, on the slow path, texts that start with a quote, a parenthesis, an escape, a comma, `/` or `*` after an item that ends in an escape or in `/`.
- SelectorAffixLaws.PrependExactly: the text is one selector's worth, as for appending.
- SelectorAffixLists.AppendSplits: on the fast path, lists without a comma after a closing parenthesis.
- SelectorAffixLists.OpenTextMergesList: lists without parentheses, strings, comments and escapes; texts that leave a string or a comment open, or close more than they open, have no result of their own.
- SelectorScope.ScopeIsAssociative: the items are self-contained, trimmed and not empty to PHP.
- CustomCss.ValidateCustomCss: the wording of the error messages.
- SpacingScale.ComputeSpacingSizes: lengths are reals, so binary rounding, `round( …, 2 )`, units and translated names are not modelled; `steps` is an integer, and scales with missing or non-numeric parts are not given.
- SpacingScaleValues.SizesAre: not for a multiplying scale with increment 0, which has one size or divides by zero.
- SpacingMerge.MergeSpacingSizes: how PHP reads a slug as a number is a parameter.
- Duotone.MatchesCssExactly: numbers are reals; parsing of colour strings, hex colours and SVG output are not modelled; a hue that is not finite has no colour in the standard and is read as 0.
- SchemaFilter.RemoveKeysNotInSchema: schemas have string keys and possibly the key 0, as all schemas of the class do.
- SchemaFilter.SurvivorsExactly: integer keys of arrays that mix names and integers; SchemaFilter.SurvivorsOfAnyTree covers them.
- ThemeMerge.ThemeJson.Merge: the spacing generator is a parameter; non-array values where PHP would stop with a type error are read as empty arrays.
- ThemeMerge.ThemeJson.RecomputeSizes: what is generated from the flattened scale is a parameter; SpacingScale and SpacingMerge model the two functions it stands for.
- ThemeMergeIncoming.PresetIsReplaced: not for spacing sizes that come in with a scale, which are regenerated first; ThemeMergeIncoming.SizesComeFromScales is about those.
- ThemeMergeIncoming.OverridingIsAllowed: likewise.
- ThemeMergeLaws.MergeTwice: for data of one origin that the constructor has prepared, as every caller merges; ThemeMergeLaws.MergeTwiceExactly says when other data can be merged twice.
- REST routes, heartbeat plumbing, permissions, settings, stylesheet generation, kses, file loading and block metadata.
