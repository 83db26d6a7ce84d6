# Moderation ledger of the Discord warning bot

This project models the moderation ledger of a Discord warning bot. It covers two cogs:

- The warnings cog (`bot_warnings_cog.py`):
  - recording a warning, with the rollback when the audit message cannot be published;
  - choosing a punishment from the general punishment ladder and carrying it out;
  - writing the mute record;
  - the periodic sweep that expires mutes.
- The user-history cog (`userhistory.py`):
  - adding a note;
  - clearing an entry by its case id;
  - re-evaluating a mute after a cleared warning;
  - listing a user's history.

The state is one `Store.Ledger` object. It holds the two parts of the bot's persistent document:

- `warnings`: guild → user → record. A record holds entries, `total_warnings` and `per_rule_violations`.
- `active_mutes`: `"{guild}-{user}"` → mute record.

Each command is a method that updates these fields in place. Its contract relates the new state to specification functions of the old one:

- `Records.RecordWarning`, `Records.PopWarning`, `Records.ClearEntry`, `Records.AppendNote`;
- `Ladder.Decide`;
- `Mutes.Swept`;
- `History.ListingOf`.

Lemmas prove what those functions promise:

- the cached counters stay equal to a recount of the active warnings (`Records.RecordOk`);
- the rollback restores the record;
- the three ways the code counts "active" warnings agree on entries the bot writes, and disagree on entries with no `status` key;
- the ladder picks the unique highest applicable tier;
- the sweep is idempotent;
- the history listing is a stable sort of the uncleared entries.

The platform is a set of parameters. Channels, roles, the member lookup, and whether each Discord call succeeded or was refused are passed in. The clock is a number of seconds (`now`), and generated case ids are arguments.

Three behaviours of the code worth noting:

- **Rollback.** A rolled-back warning for a user seen for the first time leaves the empty user skeleton (and guild) in the document. For a user who already had a record, consistent counters are enough for the rollback to give back exactly that record (`Records.RollBackRestores`). A stale total is recomputed instead, so that record is not given back (`Records.RollBackRecomputesStaleTotal`).
- **Empty user key.** When the entry found by the clear command belongs to a user stored under the empty key, the entry is stamped cleared (userhistory.py:204-207). The command then reports "not found" because of the `not target_user_id` test (userhistory.py:213), so the counters are not updated.
- **Rule directives.** The directives of a specific-action rule are captured but only logged. They bypass the ladder (bot_warnings_cog.py:301-307).

## Model

| member | source | states |
|---|---|---|
| Rules.Strip | bot_warnings_cog.py:188-189 | the result is a slice of the input with only whitespace removed at both ends, and it neither starts nor ends with whitespace |
| Rules.FindRule | bot_warnings_cog.py:190 | the index of the first rule whose id equals the given one; `None` exactly when no rule has it |
| Rules.ResolveReason | bot_warnings_cog.py:184-196 | a rule is matched iff the stripped input is all digits and some rule has that id. The displayed reason is then "规则 {id}: {text}" for the first such rule, with the missing-text default when the key is absent and a stored non-string value as the f-string renders it, and the directives are captured only for a specific-action rule. Otherwise the raw input is kept verbatim and nothing is captured |
| Ladder.SelectTier | bot_warnings_cog.py:314-319 | the selected tier qualifies (threshold, default 0, at most the count). It has the highest threshold among qualifying tiers and is the first listed among equals, as the stable descending sort gives. `None` exactly when no tier qualifies |
| Ladder.SelectionIsUnique | bot_warnings_cog.py:316-319 | any tier with those three properties is the one selected, so the choice is determined |
| Ladder.SelectionMonotone | bot_warnings_cog.py:316-319 | a higher count still selects a tier, and never one with a lower threshold |
| Ladder.LadderAction | userhistory.py:74-79 | the re-evaluation's ladder action is absent exactly when no tier's threshold is at most the count; otherwise it is the action of the tier `SelectTier` picks |
| Ladder.Decide | bot_warnings_cog.py:295-364 | directives on a matched rule skip the ladder exactly when both are truthy. A mute is decided only for a selected mute tier, with minutes = duration_minutes + 60·duration_hours, and it is invalid unless positive. Kick and ban name the selected tier with that action. No punishment means no tier or an unhandled action. Conversely, without directives a selected mute tier always yields a mute decision, valid exactly when its minutes are positive; a kick or ban tier yields that removal; and no tier or an unhandled action yields no punishment |
| Ladder.RuleActionsSkipLadder | bot_warnings_cog.py:301-307 | with rule directives present the decision depends on neither the ladder nor the count |
| Records.Count | bot_warnings_cog.py:227-231 | the `sum(...)` recounts: at most one per entry. What the count means is stated by `Records.CountZero`, `Records.CountConcat` and `Records.CountUpdate`, and how the three status tests relate by `Records.TestsOrdered` and `Records.TestsAgree` |
| Records.CountZero | bot_warnings_cog.py:227 | a count is 0 exactly when no entry is a warning passing the status test in scope |
| Records.CountConcat | bot_warnings_cog.py:227 | the count over two lists joined is the sum of their counts |
| Records.CountUpdate | userhistory.py:204 | replacing one entry changes a count by exactly that entry's contribution before and after |
| Records.TestsOrdered | userhistory.py:59 | `status == "active"` ≤ `status` defaulting to active ≤ `status != "cleared"`, for every list of entries and rule scope |
| Records.TestsAgree | bot_warnings_cog.py:227 | on entries whose status is active or cleared, the warn, clear and re-evaluation counts are equal |
| Records.MissingStatusSplitsTests | userhistory.py:220 | a warning without a `status` key is counted by the clear command's recount but not by the warn command's |
| Records.WithUser | bot_warnings_cog.py:216-218 | the guild and user are created when missing and the user then holds exactly the given record. Every other guild and every other user is unchanged. An existing user keeps their place in the insertion order, a new user is appended at its end, and a new guild holds only that user |
| Records.WithUserOk | bot_warnings_cog.py:216-218 | writing a consistent record keeps the whole document consistent |
| Records.WithUserSame | bot_warnings_cog.py:216-218 | writing back a user's own record changes nothing when the user already exists |
| Records.RecordWarning | bot_warnings_cog.py:223-233 | the entry is appended and the total is the recount of active warnings. With a matched rule, that rule holds its recount and no other rule changes; without one the rule map is unchanged. `Records.RecordWarningOk` proves it keeps consistency and grows the total and the rule's count by one, and `Records.RollBackRestores` that `Records.PopWarning` undoes it |
| Records.PopWarning | bot_warnings_cog.py:245-253 | the last entry is dropped and the total is the recount. With a matched rule, that rule holds its recount, deleted when 0, and no other rule changes. `Records.RollBackRestores` proves it undoes `Records.RecordWarning` on a consistent record |
| Records.RecordWarningOk | bot_warnings_cog.py:223-233 | appending an active warning to a consistent record keeps it consistent. The total grows by one, the matched rule's count grows by one, and no other rule's count moves |
| Records.RollBackRestores | bot_warnings_cog.py:245-253 | popping the appended warning and recounting gives back the record the warn command started from, when its counters were consistent |
| Records.RollBackRecomputesStaleTotal | bot_warnings_cog.py:247-248 | with a stale total, the rollback does not give back the original record |
| Records.DecrementRule | userhistory.py:222-227 | the rule's stored count, a missing key counting as 0, is lowered by one and the key deleted at or below 0; every other key is kept. `Records.ClearRuleConsistent` proves the result equals the recount on a consistent record, and `Records.ClearKeepsStaleRuleCount` that a stale count stays stale |
| Records.ClearEntry | userhistory.py:204-227 | only entry i changes, and it becomes cleared with the stamp. Clearing a note or another non-warning entry leaves both counters alone. For a warning the total is recounted with the status defaulting to active. The matched rule's stored count, a missing key counting as 0, is lowered by one and deleted at or below 0, and every other rule's count is kept, whether or not the counters were consistent |
| Records.ClearKeepsStaleRuleCount | userhistory.py:222-227 | on a record whose rule count is stale (at least 2 and not the recount), clearing one of that rule's warnings leaves it stale, because it is decremented rather than recounted |
| Records.ClearEntryOk | userhistory.py:216-227 | clearing an active entry of a consistent record keeps it consistent, although the total is recounted and the rule count decremented. Clearing a warning lowers the uncleared count by one |
| Records.ClearedStaysWellFormed | userhistory.py:204-207 | stamping an entry cleared keeps every entry well-formed |
| Records.ClearCounts | userhistory.py:216-227 | clearing an active entry removes exactly its contribution from every count under every status test and scope |
| Records.ClearRuleConsistent | userhistory.py:222-227 | after decrementing, the rule map again holds exactly the rules with active warnings, each with its recount |
| Records.AppendNote | userhistory.py:166 | the note is appended and neither counter changes. `Records.AppendNoteOk` proves no count moves and consistency is kept |
| Records.AppendNoteOk | userhistory.py:166 | appending a note keeps the record consistent and leaves every count unchanged |
| Mutes.MuteKey | bot_warnings_cog.py:373 | the key is the guild id, a '-', then the user id. `Mutes.MuteKeyInjective` proves distinct pairs get distinct keys |
| Mutes.DashIndex | bot_warnings_cog.py:373 | a proof helper for `Mutes.MuteKeyInjective`, not code of the source: the first '-' of a string, or its length when it has none |
| Mutes.MuteKeyInjective | bot_warnings_cog.py:373 | two `"{guild}-{user}"` keys are equal only for the same guild and user, given numeric guild ids |
| Mutes.NewMuteRecord | bot_warnings_cog.py:381-394 | the record names the user, the guild, the duration in minutes and the moderator. It was muted now, has an ISO deadline `60·minutes` seconds later, is not due before then, and credits the case id only when one is given |
| Mutes.Normalised | bot_warnings_cog.py:74-78 | rewriting a numeric deadline to ISO form keeps the deadline and changes nothing else |
| Mutes.Swept | bot_warnings_cog.py:59-123 | after a tick, a record remains iff it was not due. Remaining records are normalised, and a record whose deadline does not parse is kept exactly |
| Mutes.SweepIdempotent | bot_warnings_cog.py:59-123 | a second tick at the same instant changes nothing |
| Mutes.SweepsCompose | bot_warnings_cog.py:59-123 | a tick at t1 then one at t2 ≥ t1 equals a single tick at t2 |
| Mutes.MuteLastsItsDuration | bot_warnings_cog.py:383-407 | a newly written mute survives a tick exactly when the tick comes before now + duration |
| Mutes.FirstIndex | userhistory.py:85-86 | the position holds the id and no earlier position does |
| Mutes.RemoveFirst | userhistory.py:85-86 | removing a present case id cuts out its first occurrence and keeps the rest in order, so one occurrence leaves the multiset; an absent one changes nothing |
| Mutes.PruneCase | userhistory.py:84-86 | a kept mute loses the first occurrence of the cleared case id, the other ids keep their order, and no other field changes; without the id the record is unchanged |
| Store.Ledger.constructor | main.py:49 | the document starts with no warnings and no mutes, and is consistent |
| WarningsCog.WarningEntry | bot_warnings_cog.py:207-214 | the entry is an active, uncleared warning with the displayed reason, the matched rule, the raw input, the case id, the time and the operator. Its message id is the one given: the warn command builds it with none and records the id after publishing |
| WarningsCog.WithMessage | bot_warnings_cog.py:244 | a warning gains the audit message id and nothing else of it changes; any other entry is unchanged |
| WarningsCog.PunishedMutes | bot_warnings_cog.py:327-337 | the registry after the punishment step: only a mute decision with a muted role and successful role calls writes the new record under the user's key, which is not due yet for a positive duration; no other key changes, and otherwise the registry is unchanged |
| WarningsCog.ApplyMute | bot_warnings_cog.py:366-437 | a mute is recorded iff the duration is positive, a muted role exists and the role changes succeed. The record is then the new one under the user's key, replacing any earlier mute. Otherwise the registry and the warnings are unchanged. Each exit reports its own outcome: a non-positive duration, no muted role, or the refused call's error |
| WarningsCog.CheckAndApplyPunishment | bot_warnings_cog.py:295-364 | the decision taken is `Ladder.Decide` of the count, rule and directives. A kick or ban reports the platform's answer, a mute reports whether it was recorded (iff a muted role exists and the role calls succeed), and anything else attempts nothing. The registry changes only for a mute that succeeds, and the warnings never change |
| WarningsCog.AppendWarning | bot_warnings_cog.py:216-233 | the user's record becomes the appended and recounted one, creating the guild and user when missing. Nothing else changes |
| WarningsCog.RollBackWarning | bot_warnings_cog.py:245-253 | the user's record becomes the popped and recounted one, the matched rule deleted at 0. Nothing else changes |
| WarningsCog.SetHistoryMessage | bot_warnings_cog.py:243-244 | only the last entry of the user changes, gaining the audit message id |
| WarningsCog.AppendThenRollBack | bot_warnings_cog.py:245-253 | the append followed by the rollback leaves the user's record as `PopWarning` of the appended one. On a consistent document that is the record as it was, only the skeleton staying, and consistency is kept |
| WarningsCog.AppendPublished | bot_warnings_cog.py:216-244 | the append followed by recording the message id is one write of the record with the warning, carrying the id, appended and recounted. Consistency is kept |
| WarningsCog.PublishedRecord | bot_warnings_cog.py:243-244 | setting the id on the last entry after the append equals appending the entry with the id |
| WarningsCog.AppendKeepsConsistency | bot_warnings_cog.py:223-233 | storing a record with an active, well-formed warning appended keeps a consistent document consistent |
| WarningsCog.RestampAfterAppend | bot_warnings_cog.py:243-244 | recording the message id after the append equals appending the entry with the id already set |
| WarningsCog.HandleWarning | bot_warnings_cog.py:176-293 | without a history channel nothing changes. When publishing fails, the error is reported, only the user's skeleton remains and the mutes are untouched. When it succeeds, the user's record is the old one plus the warning carrying the message id, recounted. The punishment is `Ladder.Decide` of the new total, its effect is reported as `WarningsCog.CheckAndApplyPunishment` states, the registry is as that decision leaves it, and document consistency is kept on every path |
| WarningsCog.NormalisedAll | bot_warnings_cog.py:74-78 | same keys, and every record rewritten as `Mutes.Normalised` says |
| WarningsCog.CollectDue | bot_warnings_cog.py:59-122 | after the first loop every record is normalised, and the collected keys are exactly the keys that were due |
| WarningsCog.DropKeys | bot_warnings_cog.py:117-119 | after the second loop a key remains iff it was present and not collected, with its record unchanged |
| WarningsCog.UnmuteSweep | bot_warnings_cog.py:47-127 | the registry becomes `Mutes.Swept` of the old one at `now`. The removed keys are exactly the keys that were due, and the warnings are unchanged |
| UserHistoryCog.Upper | userhistory.py:194 | same length, every lower-case ASCII letter replaced by its capital, and every other character kept |
| UserHistoryCog.UpperKeepsCaseIds | main.py:60-62 | a generated id (five of A-Z, 0-9) is unchanged by upper-casing, so typing it exactly finds it |
| UserHistoryCog.UpperIdempotent | userhistory.py:194 | upper-casing twice equals upper-casing once |
| UserHistoryCog.FirstMatch | userhistory.py:197-198 | the first entry with the id whose status, defaulting to active, is active; `None` exactly when there is none |
| UserHistoryCog.Locate | userhistory.py:196-211 | the hit is a matching entry of an existing user. No user earlier in insertion order has a match, and there is no earlier match in the same user. `None` exactly when no user in order has a match |
| UserHistoryCog.FirstMatchIn | userhistory.py:197-206 | the inner loop over one user's entries stops at exactly `FirstMatch` |
| UserHistoryCog.FindActiveEntry | userhistory.py:196-211 | the nested loop with breaks finds exactly `Locate` from the first user |
| UserHistoryCog.NothingLocated | userhistory.py:212-214 | in a consistent guild, "not found" means no entry of any user matches |
| UserHistoryCog.ClearedIsNotFoundAgain | userhistory.py:198-204 | after clearing the hit, the same id never finds that entry again |
| UserHistoryCog.ReevalOutcome | userhistory.py:63-135 | there is no mute iff the key is absent. The mute is kept iff the ladder action for the count is mute. Otherwise: no muted role keeps the record; a member without the role has the stale record dropped; a member with it is unmuted iff the role calls succeed, and a refused call reports that call's error |
| UserHistoryCog.MutesAfterReeval | userhistory.py:84-125 | other keys are untouched. The key is dropped iff the mute was lifted or stale. A kept mute becomes `Mutes.PruneCase` of it: the first occurrence of the cleared case id goes, the order of the rest is kept, and nothing else changes |
| UserHistoryCog.ReevaluationSeesOneFewer | userhistory.py:59 | after clearing a warning in a consistent record, the uncleared count is the previous total minus one |
| UserHistoryCog.ReevaluateMute | userhistory.py:52-135 | the outcome is `ReevalOutcome` of the user's uncleared warnings. The registry becomes `MutesAfterReeval` and the warnings are unchanged |
| UserHistoryCog.StampEntry | userhistory.py:204-207 | only the entry at the hit becomes cleared with the stamp |
| UserHistoryCog.ClearEntryAt | userhistory.py:204-227 | the user's record becomes `Records.ClearEntry` of it. Consistency is kept when the entry passes the clear command's status test |
| UserHistoryCog.Clear | userhistory.py:175-266 | with no guild records the command reports so and the warnings and mutes are unchanged. When `Locate` finds nothing, the case is not found and nothing changes. Otherwise the hit is cleared. A warning of a member still present is re-evaluated on the upper-cased id, and otherwise the mutes are untouched. Consistency is kept unless the case is reported not found |
| UserHistoryCog.AddNote | userhistory.py:137-173 | the user's record gains one active note, creating the guild and user when missing. Neither counter nor the mutes change, and consistency is kept |
| History.SortByTime | userhistory.py:301 | the sort keeps the length; `History.SortByTimeIsStableSort` and `History.StableSortIsUnique` prove it is Python's stable `sorted` by timestamp |
| History.SortByTimeIsStableSort | userhistory.py:301 | the sort orders by timestamp, keeps every entry (same multiset), and keeps the stored order of entries with equal timestamps |
| History.StableSortIsUnique | userhistory.py:301 | two timestamp-sorted lists agreeing on the entries at every timestamp are equal, so the model's sort is Python's stable `sorted` |
| History.Visible | userhistory.py:302-303 | never longer than its input; `History.VisibleMembers` and `History.VisibleMultiplicity` prove it keeps exactly the uncleared entries, in order and with their multiplicity |
| History.VisibleMembers | userhistory.py:302-303 | the listed entries are exactly the uncleared ones, in the original order |
| History.VisibleMultiplicity | userhistory.py:302-303 | an uncleared entry is listed as often as it is stored, and a cleared one never |
| History.VisiblePermutation | userhistory.py:301-303 | skipping cleared entries commutes with reordering, up to multiset |
| History.ListedIsVisibleInTimeOrder | userhistory.py:301-303 | the walked entries are the uncleared entries, each as often as stored, oldest first |
| History.ListingOf | userhistory.py:268-351 | no records iff the record has no entries; otherwise at most 25 entry fields, the total field iff the total is positive, and the statistics field iff the rule map is non-empty. `History.ListingShowsVisibleEntries` states which entries are shown |
| History.ListingShowsVisibleEntries | userhistory.py:268-351 | no records iff the record has no entries. Otherwise the listing shows uncleared entries of the user, oldest first, min(visible, 25) of them. It stops early iff more than 25 are visible, and shows every one when they fit |
| History.WalkEntries | userhistory.py:300-334 | the walk shows the first min(visible, 25) visible entries. When more are visible it stops with the footer set and the count at 26; otherwise it counts them all and sets no footer |
| History.History | userhistory.py:268-351 | the reply is `History.ListingOf` the user's record |
| History.ListingOverflowsFieldLimit | userhistory.py:329-346 | with 25 or more visible entries, a positive total and non-empty rule statistics, the embed asks for 27 fields |
| History.TruncatedFooterMiscounts | userhistory.py:331-334 | with more than 26 visible entries, the footer says 26 records rather than the number visible |
| History.CorrectedListingFits | userhistory.py:329-349 | the corrected listing has at most 25 fields and its footer counts every visible entry. It shows a prefix of the entries the as-written listing shows, and equals it whenever that fits |

## Left out

- Discord itself is left out: interactions, embeds' text and colours, replies, DMs, the `/warn` modal and context menu, and the admin-role check. Each platform call that can fail is a parameter saying whether it succeeded (`Store.Call`, `WarningsCog.Publish`).
- Persistence is left out (`load_data`/`save_data`). The code ignores every save result apart from a printed or sent warning, so the model keeps the in-memory document only.
- Randomness is left out: case ids are parameters. Only their shape (five of A-Z and 0-9) is used, in `UserHistoryCog.UpperKeepsCaseIds`.
- The clock and ISO-8601 parsing are left out. Times are integers of seconds since the epoch. The warn command reads the clock twice, once for the entry (bot_warnings_cog.py:180) and again for the mute after the publish (bot_warnings_cog.py:382); one instant `now` stands for both readings, and sub-second precision of `muted_at` and `unmute_at` is dropped. `Mutes.UnmuteAt` records only whether `unmute_at` parsed, was numeric or had another type.
- `get_muted_role` and the verified role are left out. Whether a muted role exists and whether the member holds it are boolean parameters. Removing and adding the verified role is folded into the one role-change `Call`.
- Editing the audit message when a warning is cleared (userhistory.py:228-247) and all notifications to the history channel are left out: they change no state.
- The ladder keys `description_template` and `can_rejoin` are left out. The first only formats the kick and ban reason text; the second is not read by the code.
- The listing's title text and the text of its fields are left out. The listing keeps the entries it shows, the summary values and whether the notes title was chosen. The rule statistics keep the map, not the dictionary's printing order.
- `str.strip`, `str.isdigit` and `str.upper` are modelled on ASCII only. The ASCII whitespace set includes the separators U+001C to U+001F. Non-ASCII whitespace (such as U+0085 and U+00A0), Unicode digits and non-ASCII case mappings are not modelled.
- Async scheduling of `unmute_task_loop` (`tasks.loop`, `is_ready`, `wait_until_ready`) is left out. One call of `WarningsCog.UnmuteSweep` is one tick, and concurrent commands are not modelled.
- WarningsCog.UnmuteSweep: a record whose processing raises (a missing `guild_id`, a numeric deadline too large to convert, or an ISO time without a zone compared to an aware `now`) is kept in the real loop. The model treats every numeric or ISO deadline as comparable.
- WarningsCog.HandleWarning: after a failed publish the contract states the restored record only when the document was consistent before (a stale total is recomputed, see `Records.RollBackRecomputesStaleTotal`). It also does not model an exception other than `Forbidden`/`HTTPException` propagating out of the send.
- UserHistoryCog.Clear: consistency is promised only when the case is not reported missing. On the empty-user-key path an entry is stamped while the counters are left stale, as the code does.
- Kick and ban change no stored state. `WarningsCog.CheckAndApplyPunishment` reports only whether the platform accepted them, not the reason text or the follow-up messages.

## Findings

| source | as written | input that shows it | evidently intended | confidence | as-written member | corrected member |
|---|---|---|---|---|---|---|
| userhistory.py:329-346 | entry fields stop at 25, but the total and rule-statistics fields are added afterwards without checking the limit | a user with 25 uncleared entries, a positive `total_warnings` and one rule in `per_rule_violations` gets an embed with 27 fields | keep room for the summary fields so the embed never exceeds 25 fields | medium, not executed | History.ListingOverflowsFieldLimit | History.CorrectedListingFits |
| userhistory.py:331-334 | the footer "共 N 条记录" uses the running count at the moment the walk breaks, which is always 26 | a user with 40 uncleared entries sees "共 26 条记录" | the footer counts every uncleared entry | medium, not executed | History.TruncatedFooterMiscounts | History.CorrectedListingFits |
