# flow-habit-alchemy: the progression engine and the focus timer, in Dafny

This project models the two stateful parts of the flow-habit-alchemy task tracker.

- **The progression engine** in `src/utils/storage.ts`. It saves, deletes and completes tasks. Each completion adds 1 to the task count and 10 experience points. It then updates the day streak and runs one level-up check. Last, it offers progress to seven of the nine achievements: the three streak tiers, the three task-count tiers and all_category. Each new unlock is worth 25 points. focus_master is fed only by `addFocusTime`, and nothing feeds subtask_king. Focus minutes are credited through `addFocusTime`.
- **The focus timer** in `src/components/FocusTimer.tsx`. It is a machine with five states: Ready, Running, Paused, Break and Completed. It keeps a focus countdown, a break countdown and the number of seconds focused. A completed session credits its whole minutes and completes the task in focus.

Modules:

- `Types` (`types.dfy`) holds the entities of `src/types/index.ts`.
- `Tasks` (`tasks.dfy`) holds the pure task-list operations:
  - finding a task by id;
  - upsert;
  - filtering by id;
  - the set of completed categories.
- `Gamification` (`gamification.dfy`) holds the specification functions:
  - the default tables;
  - the streak rule;
  - the level-up check;
  - a single achievement update and the recomputation of the seven fed achievements;
  - the completion and focus events.

  It also holds the lemmas about all of these.
- `Storage` (`storage.dfy`) holds the class `Store`. It plays the role of `localStorage`: a task list and a statistics record. Its methods follow the step-by-step mutation of `storage.ts`. Each method is proved equal to a pure function:
  - `SaveTask` to `Tasks.Upsert`;
  - `DeleteTask` to `Tasks.WithoutTask`;
  - `CompleteTask` to `Storage.Completion`;
  - the statistics methods to the matching `Gamification` function.

  Each method also preserves `Store.Valid`:
  - ids are unique;
  - the statistics invariants hold;
  - the experience ledger balances: experience held plus experience consumed by level-ups equals 10 per completion plus 25 per unlock.
- `Timer` (`timer.dfy`) holds the timer state machine. The class `FocusTimer` holds the component's state variables. The pure step functions on a `Clock` snapshot specify its methods. The module also has `formatTime` with a parser, and the proof that the two round-trip.

Two kinds of input become explicit parameters:

- A clock reading becomes an `Instant(day, stamp)`. `day` is the local calendar day the reading falls on. `stamp` is the reading itself. `updateStreak` compares readings only through `toDateString()`, so "today" is `now.day` and "yesterday" is `now.day - 1`.
- Durations come from the `UserPreferences` given when the timer mounts.

## Model

| member | source | states |
|---|---|---|
| Gamification.Ord | src/utils/storage.ts:4-77 | each achievement type has one slot in the default table, and that slot carries the type |
| Gamification.OrdOfTable | src/utils/storage.ts:4-77 | the nine default entries have nine different types |
| Gamification.DefaultStatsValid | src/utils/storage.ts:80-91 | the fresh profile (level 1, 0 XP, threshold 100, empty streak, default table) satisfies every invariant and the ledger, with no achievement unlocked |
| Gamification.Unlocked | src/utils/storage.ts:239-249 | the number of unlocked achievements is at most the length of the list |
| Gamification.UnlockedUpdate | src/utils/storage.ts:239-249 | replacing one entry changes the unlocked count by the difference of the two entries' flags |
| Gamification.UnlockedGrows | src/utils/storage.ts:239-249 | a list that loses no unlock and gains one has a strictly larger unlocked count |
| Gamification.NextStreak | src/utils/storage.ts:183-212 | the four branches: first completion gives 1/1/now; same day changes nothing, `lastCompleted` included; previous day gives current+1 and longest = max; an older day resets current to 1 with longest kept. Afterwards the last completion is on today's day, and the invariant (longest >= current, 0/0 before any completion, current >= 1 after) is preserved |
| Gamification.SameDayIdempotent | src/utils/storage.ts:192-193 | a second completion on the same calendar day leaves the streak as the first left it |
| Gamification.SkipDayRestarts | src/utils/storage.ts:205-208 | completing, skipping a day and completing again gives current 1 and keeps longest |
| Gamification.ConsecutiveDays | src/utils/storage.ts:183-212 | from no completions, a run with no missed day gives current = days spanned, however many completions fall on each day; longest >= current and the last day is recorded |
| Gamification.StreakAfterInv | src/utils/storage.ts:183-212 | any sequence of completions preserves the streak invariant |
| Gamification.NextThreshold | src/utils/storage.ts:152 | the new threshold is floor(1.5·t) (2r <= 3t < 2r+2) and is larger than t whenever t >= 2 |
| Gamification.LevelCheck | src/utils/storage.ts:149-153 | levels up by exactly one iff XP >= threshold; a level-up leaves XP minus the old threshold and the new threshold floor(1.5·old), which is larger; otherwise changes nothing; XP stays >= 0 |
| Gamification.ThresholdAt | src/utils/storage.ts:149-153 | the threshold in force at any level is at least 100 |
| Gamification.OneLevelPerCheck | src/utils/storage.ts:149-153 | 400 XP at level 1 gives level 2 with 300 XP against a threshold of 150: still above it, with no second level-up |
| Gamification.LevelCheckKeepsInvariants | src/utils/storage.ts:149-153 | the level-up check keeps the statistics invariants and moves the consumed threshold into the ledger's spent experience |
| Gamification.FindAchievement | src/utils/storage.ts:235 | the slot of the first entry with the id, or -1 exactly when none has it |
| Gamification.FindInTable | src/utils/storage.ts:235 | in a list shaped like the default table, the lookup lands on the type's own slot |
| Gamification.Advance | src/utils/storage.ts:237-250 | an unlocked entry is untouched; a locked one takes the new progress and unlocks (progress capped at target, unlock time now) iff it reaches the target; the invariant progress <= target, unlocked iff progress == target, is preserved |
| Gamification.RecordProgress | src/utils/storage.ts:234-252 | only experience and achievements change; ids and targets are kept; entries with another id and unlocked entries are unchanged; the unlocked count grows by 0 or 1 and XP by 25 for each |
| Gamification.RecordProgressAt | src/utils/storage.ts:234-252 | on a table-shaped list the update is the type's slot replaced by its advanced entry |
| Gamification.UnlockAwardsOnce | src/utils/storage.ts:238-239 | after an offer unlocks an achievement, any later offer to it changes nothing and awards no XP |
| Gamification.StreakProgressCanDrop | src/utils/storage.ts:217-219 | a locked streak achievement at progress 5 offered a broken streak of 1 goes back to progress 1 |
| Gamification.FeedAll | src/utils/storage.ts:217-228 | the chain of progress offers, folded in order, keeps the number of achievements; its effects are stated by FeedAllEvolves and FeedAllSlots |
| Gamification.Signal | src/utils/storage.ts:215-231 | the feed table: every achievement except focus_master and subtask_king is fed a signal during recomputation |
| Gamification.FeedAllEvolves | src/utils/storage.ts:215-231 | offers that do not name the focus or subtask achievement change only XP and achievements, keep those two and every unlocked entry, and add 25 XP per new unlock |
| Gamification.FeedAllSlots | src/utils/storage.ts:215-231 | with offers to distinct achievements, each slot ends as its entry advanced by the offer made to its own type, or unchanged if none is |
| Gamification.FeedsDistinct | src/utils/storage.ts:217-228 | the seven offers of updateAchievements go to seven different achievements, none of them focus_master or subtask_king |
| Gamification.FeedsFollowSignal | src/utils/storage.ts:217-228 | the offer to each type is its table signal: the current streak for the streak tiers, the task count for the count tiers, the completed-category count for all_category, nothing for the other two |
| Gamification.RecomputeAchievements | src/utils/storage.ts:215-231 | only XP and achievements change; ids and targets are kept; focus_master, subtask_king and unlocked entries are unchanged; the unlocked count never drops; XP grows by 25 per new unlock; invariants are kept |
| Gamification.RecomputeUnfolds | src/utils/storage.ts:217-228 | recomputation equals the seven progress offers in updateAchievements' order |
| Gamification.RecomputeFeeds | src/utils/storage.ts:215-231 | slot by slot, each fed achievement is advanced with its own signal and the other two are left as they were |
| Gamification.RecomputeKeepsInvariants | src/utils/storage.ts:215-231 | recomputation keeps the statistics invariants and the ledger |
| Gamification.AllCategoryUnlock | src/utils/storage.ts:226-228 | all_category is unlocked afterwards iff it already was or every one of the six categories has a completed task |
| Gamification.CompletionStats | src/utils/storage.ts:141-158 | task count +1; focus time kept; streak advanced by the streak rule; level, threshold and XP as the single level-up check on XP+10 decides, plus 25 per unlock afterwards |
| Gamification.CompletionSteps | src/utils/storage.ts:141-158 | the completion is count, streak, level check, recompute, in that order |
| Gamification.CompletionKeepsInvariants | src/utils/storage.ts:141-158 | a completion keeps the statistics invariants |
| Gamification.CompletionKeepsLedger | src/utils/storage.ts:141-158 | a completion keeps the ledger: 10 for the task, 25 per unlock, whatever the level-up consumed |
| Gamification.Tasks10Unlocks | src/utils/storage.ts:222 | recomputing with at least ten completions strictly increases the unlocked count when tasks_10 was locked |
| Gamification.UnlockAfterLevelCheck | src/utils/storage.ts:143-156 | a completion that stays below the threshold but unlocks tasks_10 ends at the same level with at least 35 more XP, and above the threshold when XP+35 reaches it |
| Gamification.FocusStats | src/utils/storage.ts:255-263 | focus time grows by the minutes; only focus time, XP and achievements change; only the focus_master entry may change; XP +25 per unlock; invariants and ledger are kept |
| Gamification.FocusMasterUnlock | src/utils/storage.ts:255-263 | focus_master is unlocked afterwards iff it already was or the total reaches 300 minutes; while locked its progress is that total |
| Gamification.FocusUnlockAt | src/utils/storage.ts:255-263 | minutes that carry the total to the target unlock a locked focus_master at now, at its target, for exactly 25 XP |
| Gamification.FiveHoursFromFresh | src/utils/storage.ts:255-263 | crediting 300 minutes to the fresh profile unlocks focus_master at progress 300 and gives 25 XP, in one call |
| Tasks.FindTask | src/utils/storage.ts:115 | the slot of the first task with the id, or -1 exactly when none has it |
| Tasks.Upsert | src/utils/storage.ts:113-124 | an existing id: same length, that slot replaced, every other slot unchanged; a new id: the task appended after the unchanged list; unique ids stay unique |
| Tasks.UpsertFinds | src/utils/storage.ts:113-124 | after saving, looking up the id finds the saved task |
| Tasks.UpsertIdempotent | src/utils/storage.ts:113-124 | saving the same task twice equals saving it once |
| Tasks.WithoutTask | src/utils/storage.ts:127 | the result holds exactly the tasks of the list whose id differs |
| Tasks.WithoutTaskAppend | src/utils/storage.ts:127 | deleting distributes over concatenation, so the kept tasks keep their order |
| Tasks.WithoutTaskAbsent | src/utils/storage.ts:127 | deleting an absent id changes nothing |
| Tasks.WithoutTaskUnique | src/utils/storage.ts:126-129 | with unique ids, deleting a present id removes exactly its one slot, deleting an absent one changes nothing, and ids stay unique |
| Tasks.DeleteAfterUpsert | src/utils/storage.ts:113-129 | with unique ids, deleting a task just saved is the same as deleting it from the list before the save |
| Tasks.CompletedCategories | src/utils/storage.ts:227 | a category is in the set iff some completed task has it |
| Tasks.AllCategoriesCount | src/types/index.ts:3 | there are six categories |
| Tasks.CategoryCount | src/utils/storage.ts:227 | at most six categories are collected, and six exactly when every category has a completed task |
| Storage.MarkCompleted | src/utils/storage.ts:136-137 | the task is completed at now, every other field unchanged |
| Storage.Completion | src/utils/storage.ts:131-160 | an unknown id changes neither tasks nor stats; a known id marks that slot (already completed or not), leaves the others, has its category counted, and takes one completion against the updated list; unique ids stay unique |
| Storage.CompletionKeepsValid | src/utils/storage.ts:131-160 | a completion keeps the statistics invariants and the ledger |
| Storage.RecompletionCounts | src/utils/storage.ts:131-143 | completing the same task twice counts two completions |
| Storage.Store.constructor | src/utils/storage.ts:163-166 | an empty store holds no tasks and the default statistics, and is valid |
| Storage.Store.SaveTask | src/utils/storage.ts:113-124 | the tasks become the upsert of the old list; stats unchanged; validity kept |
| Storage.Store.DeleteTask | src/utils/storage.ts:126-129 | the tasks become the old list without the id; stats unchanged; validity kept |
| Storage.Store.UpdateStreak | src/utils/storage.ts:183-212 | the branch-by-branch mutation leaves the stats with the streak advanced by the streak rule and nothing else changed |
| Storage.Store.UpdateAchievementProgress | src/utils/storage.ts:234-252 | the in-place update equals the single-offer function; validity kept |
| Storage.Store.UpdateAchievements | src/utils/storage.ts:215-231 | the seven calls equal recomputation against the current tasks; validity kept |
| Storage.Store.CompleteTask | src/utils/storage.ts:131-160 | tasks and stats become the completion of the old ones; validity kept |
| Storage.Store.CountCompletion | src/utils/storage.ts:141-156 | the statistics steps of completeTask equal the completion statistics against the current tasks |
| Storage.Store.AddFocusTime | src/utils/storage.ts:255-263 | the stats become the focus credit of the old ones; tasks unchanged; validity kept |
| Timer.Fresh | src/components/FocusTimer.tsx:28-35 | the mount state: Ready, nothing counted, both countdowns full, so the clock invariant holds |
| Timer.DefaultSession | src/utils/storage.ts:94-100 | with the default preferences (25 and 5 minutes) the timer mounts at 1500/300 seconds, an untouched session completes after 1800 ticks with 1500 seconds focused, and credits 25 minutes |
| Timer.TickStep | src/components/FocusTimer.tsx:38-68 | Running: elapsed +1, the focus countdown goes down by one, or at <= 1 becomes 0 and the state Break. Break: elapsed kept, the break countdown goes down by one, or at <= 1 becomes 0 with Completed and the flag set. Ready, Paused and Completed do not change |
| Timer.StartStep | src/components/FocusTimer.tsx:86-92 | the state becomes Running; both countdowns, the focused seconds and the flag are kept |
| Timer.PauseStep | src/components/FocusTimer.tsx:95-97 | the state becomes Paused; both countdowns, the focused seconds and the flag are kept |
| Timer.ResumeStep | src/components/FocusTimer.tsx:100-102 | the state becomes Running again; both countdowns, the focused seconds and the flag are kept |
| Timer.SkipToBreakStep | src/components/FocusTimer.tsx:105-108 | the focus countdown drops to 0 and the state becomes Break; the break countdown, the focused seconds and the flag are kept |
| Timer.SkipBreakStep | src/components/FocusTimer.tsx:111-115 | the break countdown drops to 0, the state becomes Completed and the flag is set; the focus countdown and focused seconds are kept |
| Timer.NewSessionStep | src/components/FocusTimer.tsx:118-123 | the mount state again, except that the focused seconds are kept |
| Timer.Ticks | src/components/FocusTimer.tsx:38-68 | n ticks count between 0 and n more focused seconds |
| Timer.TickKeepsInv | src/components/FocusTimer.tsx:31-68 | a tick keeps 0 <= countdown <= duration for both countdowns, keeps the flag set exactly in Completed, and keeps the full and empty countdowns each state implies |
| Timer.HandlersKeepInv | src/components/FocusTimer.tsx:86-123 | every button pressed in a state where it is rendered keeps the invariant |
| Timer.PauseResume | src/components/FocusTimer.tsx:95-102 | resume after pause gives back the running clock, and ticks do not move a paused one |
| Timer.FixedUnderTicks | src/components/FocusTimer.tsx:38-68 | Ready, Paused and Completed clocks are fixed under any number of ticks |
| Timer.TicksAdd | src/components/FocusTimer.tsx:38-68 | a+b ticks are a ticks followed by b |
| Timer.FocusCountdown | src/components/FocusTimer.tsx:41-52 | a running clock with n >= 1 seconds left reaches Break after exactly n ticks, counting n seconds focused |
| Timer.BreakCountdown | src/components/FocusTimer.tsx:53-64 | a break with m >= 1 seconds left completes after exactly m ticks, counting nothing |
| Timer.UninterruptedSession | src/components/FocusTimer.tsx:30-68 | start, then focus+break ticks: Completed, both countdowns 0, exactly the focus duration counted |
| Timer.SessionOutcome | src/components/FocusTimer.tsx:126-136 | focus time grows by floor(elapsed/60); with no task the tasks are unchanged and the statistics are exactly those of `addFocusTime` with the whole minutes (a possible focus_master unlock and its 25 XP included), or unchanged under a minute; with a task, its completion follows that same credit |
| Timer.FullSessionCredit | src/components/FocusTimer.tsx:126-131 | an uninterrupted session of d minutes credits exactly d minutes |
| Timer.FocusTimer.constructor | src/components/FocusTimer.tsx:28-35 | mounting sets the durations in seconds, both countdowns full, Ready, nothing elapsed, no dialog |
| Timer.FocusTimer.Tick | src/components/FocusTimer.tsx:38-68 | the imperative tick equals the tick step; validity kept |
| Timer.FocusTimer.Start | src/components/FocusTimer.tsx:86-92 | Ready to Running, nothing else changed |
| Timer.FocusTimer.Pause | src/components/FocusTimer.tsx:95-97 | Running to Paused, nothing else changed |
| Timer.FocusTimer.Resume | src/components/FocusTimer.tsx:100-102 | Paused to Running, nothing else changed |
| Timer.FocusTimer.SkipToBreak | src/components/FocusTimer.tsx:105-108 | offered in Running and Paused: the focus countdown becomes 0 and the state Break |
| Timer.FocusTimer.SkipBreak | src/components/FocusTimer.tsx:111-115 | the break countdown becomes 0, the state Completed, the flag set |
| Timer.FocusTimer.NewSession | src/components/FocusTimer.tsx:118-123 | both countdowns refilled, Ready, flag cleared, elapsed seconds kept |
| Timer.FocusTimer.Complete | src/components/FocusTimer.tsx:126-147 | a completed session credits floor(elapsed/60) minutes when positive, completes the task in focus and closes; otherwise only the confirmation opens and the store is unchanged |
| Timer.FocusTimer.CloseButton | src/components/FocusTimer.tsx:258-270 | Running or Paused: the confirmation opens and nothing else changes. Completed: the session ends as Complete ends it, and the dialog flag is kept. Ready and Break: handleComplete runs with the flag clear, so the confirmation opens, the timer stays open and the store is unchanged |
| Timer.FocusTimer.ExitSession | src/components/FocusTimer.tsx:317-320 | the dialog closes and the timer closes, crediting nothing (the store is outside its frame) |
| Timer.FocusTimer.KeepFocusing | src/components/FocusTimer.tsx:316 | the dialog closes and the session goes on unchanged |
| Timer.NatToString | src/components/FocusTimer.tsx:74 | decimal digits with no leading zero (the first digit is not '0' unless the number is 0); one digit exactly below 10, at most two below 100 |
| Timer.Pad2 | src/components/FocusTimer.tsx:74 | padStart(2, '0'): length max(2, n), the input kept at the end, only '0's added in front |
| Timer.FormatTime | src/components/FocusTimer.tsx:71-75 | reading the clock face back gives the seconds it was made from, for every number of seconds |
| Timer.HundredMinutes | src/components/FocusTimer.tsx:71-75 | minutes are not capped at two digits: 6000 seconds show as 100:00 |
| Timer.FormatTimeShape | src/components/FocusTimer.tsx:71-75 | the clock face is digits, a colon third from the end and two digits of seconds; the minutes field reads as seconds/60 and the seconds field as seconds mod 60, below 60; it is five characters long below 6000 seconds |
| Timer.ReadBack | src/components/FocusTimer.tsx:72-74 | padded minutes and seconds around a colon read back as minutes·60 + seconds |
| Timer.ParseNatToString | src/components/FocusTimer.tsx:74 | reading back the decimal notation gives the number |
| Timer.ParsePad2 | src/components/FocusTimer.tsx:74 | padding does not change the value read back |

## Left out

- Persistence: the `localStorage` reads and writes and the JSON encoding (`getTasks`, `getUserStats`, `getUserPreferences`, the `save*` functions) are not modelled. They are a foreign API; the store's fields stand for the stored values. Corrupt stored JSON, which would throw, is not modelled.
- Aliasing of the default statistics: `getUserStats` with nothing stored returns the module's own `defaultStats` object, and `completeTask` then mutates it. Every mutating path saves at once, so the stored values are as modelled; the in-memory default object is not tracked.
- Clock reads: every `new Date()` is a parameter `now`. `completeTask` and `updateAchievementProgress` read the clock several times in one event; the model uses one reading per event. `addFocusTime` and the completion after a session also share one `now`.
- `generateId` is not modelled (clock and `Math.random`).
- subtask_king: no code path feeds it progress, and the model preserves that gap.
- The timer's `setInterval` scheduling is not modelled: each interval callback is one atomic `Tick`. When the focus countdown ends, the interval is cleared and the Break state installs a new one. When the break countdown ends, the state becomes Completed and no interval is installed. A paused timer loses the partial second in progress.
- Durations are read from the preferences once, when the timer mounts. The component re-reads them on every render, so a preference change during a session is not modelled.
- The `task && onComplete` test is modelled as "a task is in focus". The only page that mounts the timer wires `onComplete` to `completeTask` (src/pages/Index.tsx:66-67, 151).
- Numbers: JavaScript `number` values (doubles) become unbounded `int`/`nat`. Counts, experience and seconds never get near 2^53 in use, so rounding is not modelled.
- Concurrent writers: another browser tab can write `localStorage` between `completeTask`'s read and its write. The single in-memory `Store` does not model that lost update.
- Not modelled: UI rendering, toasts and dialogs beyond their open flag, the float percentage of `getProgress`, the page's five-second achievement poll, the task list's un-complete path, and the backend and API client.
- Timer.FocusTimer.Complete and the other timer methods require the timer not to be closed, because an unmounted component receives no events. The button handlers also require the state in which their button is rendered.
- Store.CountCompletion requires nothing, and it states no preservation of its own: the invariants are restored only at the end of CompleteTask, just as completeTask saves only after its last step.

## Notes on the code

- On the first completion ever, the streak's `longest` is set to 1 outright, not to the maximum of the old value and 1. Under the streak invariant the old value is 0, so the two agree.
- Achievement progress is not monotone while an achievement is locked. The streak tiers are fed the current streak, which falls back to 1 when a day is missed. `Gamification.StreakProgressCanDrop` exhibits this. An unlocked achievement is frozen at its target.
- Completing an already completed task counts again: +1 to the task count, +10 XP, and its `completedAt` is overwritten (`Storage.RecompletionCounts`).
- Unlock experience is added after the single level-up check, so a completion can end with experience at or above the threshold (`Gamification.UnlockAfterLevelCheck`, `Gamification.OneLevelPerCheck`).
- `New Focus Session` does not reset the focused seconds, so a later completion credits the seconds of every session since mounting.
