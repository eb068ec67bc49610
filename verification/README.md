# Verified model of the ChatwootJS engines

This Dafny project models the parts of the server that hold state and make whole-run promises: the
automation engine, auto-assignment, the inbound pipeline, the conversation clock, contact import and
merge, realtime delivery, presence, opaque tokens, the rate limiter, the key mappers and the daily
reports. `dafny verify dfyconfig.toml` checks everything.

How it is built. Each component has a specification on values: the tables as maps, sets and
sequences, every service call as one atomic step, fresh ids as a counter, and time as a parameter. Where the code
updates rows or variables in place there is a class, or a method with the loops of the code, whose
contract equates its new state with the specification; the theorems are about the specification and
so hold of the methods. Runs are arbitrary sequences of steps. A promise about a history is stated
against the history itself (which publications, which touches, which issues came before), never
against a second copy of the state. Beside the theorems about runs and lists stand lemmas that say
what a single step means in terms of its raw inputs, so that the specification functions the
theorems speak of are pinned as well.

| file | component |
|---|---|
| `Values.dfy` | options, JSON values, shared columns |
| `Conditions.dfy`, `ConditionMeaning.dfy` | rule conditions: their left-to-right fold, each operator's meaning |
| `ConversationActions.dfy`, `ActionLaws.dfy`, `ActionMeaning.dfy`, `ConversationStore.dfy` | the action interpreter: specification, laws of lists, each action's meaning, tables |
| `Cascade.dfy`, `CascadeRuns.dfy`, `ThrowingCascade.dfy` | rules that trigger rules: one event, whole runs, rules that throw |
| `DelayedExecutions.dfy` | rules with a delay |
| `AutoAssignment.dfy` | the least-busy picker |
| `Inbound.dfy` | ingestion of platform messages |
| `ConversationClock.dfy` | waitingSince, firstReplyCreatedAt, status |
| `Csv.dfy`, `ContactImport.dfy`, `ContactMerge.dfy` | contact files, import job, merge |
| `Cable.dfy`, `Presence.dfy` | event bus and sockets, presence store |
| `Tokens.dfy`, `RateLimit.dfy`, `KeyMapper.dfy`, `Reporting.dfy` | tokens, limiter, key mappers, reports |

Where the code departs from what it says, or from what one would expect, the model follows the code
and a lemma states the fact:

- The comment on `ingestInbound` says that status events update the original message; the code only
  deduplicates them (`Inbound.RedeliveryInvisible`).
- Three action names that rule validation accepts always throw when a rule runs
  (`ActionLaws.AlwaysThrowsIff`).
- "Idempotent" in the comment on `applyActionItems` holds for the fields of the conversation. A
  second run is also silent exactly when no action always acts and no two actions conflict
  (`ActionLaws.SecondRunSilentIff`, and for the publication alone `ActionLaws.SecondRunPublishesIff`).
  Rules that trigger each other stop under a condition of that kind, which has to look at the rules
  on updates and the rules on messages together: a private note raises no flag, yet it sets off the
  rules on messages. For rules that always fire and do not throw the exact condition is
  `CascadeRuns.CascadeEndsIff`; once a message is pending, a rule on messages that posts one, for
  instance, never stops. For rules on updates that may throw it is
  `ThrowingCascade.ThrowingEndsIff`.
- "Equivalent to round-robin in steady state" holds, and the model says from when on
  (`AutoAssignment.SteadyState`, `AutoAssignment.RoundRobinIff`).
- `unsubscribe` on the socket is acknowledged but leaves the room subscribed (`Cable.DeliveryExact`:
  only closing ends delivery).
- The merge of contacts means to inherit the child's e-mail address, but aborts in exactly that case
  (`ContactMerge.AbortsIff`), because the address is copied while the child still holds it.
- The fixed-window limiter lets up to 2 * max - 1 requests through in a minute, and that is tight
  (`RateLimit.SlidingBound`, `RateLimit.BoundIsTight`).
- A timezone offset makes the overview lose rows at one end of the range (`Reporting.DatesComplete`).
- Listing presence is not entirely invisible: it decides whether a later departure is announced
  (`Presence.DropAnnounces`), and a user whose stale entry was listed away comes back at the end of
  the list instead of keeping the old place (`Presence.PruningMovesIff`).
- The unique index on taggings does not hold when the tagger is null, so `add_label` tags twice
  exactly when a title it lists more than once was not present yet
  (`ActionLaws.AddLabelsRepeatsIff`).
- Converting a row to snake keys loses the column `_Proto__`, whose new name sets the prototype
  instead of a property (`KeyMapper.RowRoundTrip`).

## Model

| member | source | states |
|---|---|---|
| Conditions.MatchesConditions | packages/core/src/services/automation.ts:435-444 | the loop over the conditions computes the left-to-right AND/OR fold, true on an empty list |
| Conditions.MatchesMeaning | packages/core/src/services/automation.ts:381-444 | a nonempty list matches iff some condition that is first or joined by OR holds and every later condition joined by AND holds |
| Conditions.DualFold | packages/core/src/services/automation.ts:393-444 | the fold of the dual list is the negation of the fold at every prefix |
| Conditions.DualNegates | packages/core/src/services/automation.ts:393-444 | swapping equal_to, contains and is_present with their negated partners and AND with OR negates the outcome on every fact bag |
| ConditionMeaning.ColumnsRead | packages/core/src/services/automation.ts:333-357 | each attribute key reads its own column of the facts, those of the message or the contact only when there is one |
| ConditionMeaning.PoolsRead | packages/core/src/services/automation.ts:358-374 | any other key reads the first pool of custom attributes that has it |
| ConditionMeaning.NullEqualsOnlyItself | packages/core/src/services/automation.ts:381-383 | null and undefined equal nothing else |
| ConditionMeaning.NumberEquality | packages/core/src/services/automation.ts:385-385 | next to a number, equality is that of the two numbers; what converts to none equals none |
| ConditionMeaning.BooleanEquality | packages/core/src/services/automation.ts:386-389 | next to a boolean, the values true, "true" and "1" are true and all others false |
| ConditionMeaning.TextEquality | packages/core/src/services/automation.ts:390-391 | two texts are equal iff they are in lower case |
| ConditionMeaning.EqualToMeaning | packages/core/src/services/automation.ts:397-400 | equal_to holds iff the attribute is the same as some expected value, not_equal_to iff as none |
| ConditionMeaning.ListContainsMeaning | packages/core/src/services/automation.ts:401-418 | on a list, contains holds iff an entry has the lower-case text of an expected value, does_not_contain iff none has |
| ConditionMeaning.TextContainsMeaning | packages/core/src/services/automation.ts:401-418 | on anything else, contains holds iff the attribute is not null and an expected text occurs in it |
| ConditionMeaning.PresentMeaning | packages/core/src/services/automation.ts:419-424 | is_present holds iff the attribute is neither null nor an empty string or list |
| ConditionMeaning.ComparisonMeaning | packages/core/src/services/automation.ts:425-428 | the comparisons hold iff attribute and first expected value are numbers in that order |
| ConditionMeaning.UnknownNeverHolds | packages/core/src/services/automation.ts:429-431 | an unknown operator never holds |
| ConditionMeaning.ListMeaning | packages/core/src/services/automation.ts:435-444 | a list matches iff it is empty, or some condition that is first or follows the word "or" holds and so does every later one that follows no "or" |
| ActionLaws.RunIsExecAll | packages/core/src/services/conversation-actions.ts:97-406 | running an action list, also one that throws half way, is executing the operations before the throwing one, and it throws iff one of them cannot be decoded or delivered |
| ActionLaws.TagLaw | packages/core/src/services/conversation-actions.ts:72-81 | ensuring a label and tagging it appends exactly that title and touches no other field |
| ActionLaws.AddLabelsLaw | packages/core/src/services/conversation-actions.ts:57-90 | add_label makes the title set the union, changes no other column and keeps the cache current |
| ActionLaws.RemoveLabelsLaw | packages/core/src/services/conversation-actions.ts:57-90 | remove_label makes the title set the difference, changes no other column and keeps the cache current |
| ActionLaws.ExecWrites | packages/core/src/services/conversation-actions.ts:108-382 | every action leaves in every field the value it writes there, or else what was there, and keeps tables well formed |
| ActionLaws.ExecSilent | packages/core/src/services/conversation-actions.ts:108-382 | an action posts and flags nothing iff it is not an always-acting one and writes what is already there; then no row changes |
| ActionLaws.LastWriterNormalForm | packages/core/src/services/conversation-actions.ts:108-382 | assignee, team, status, priority, snooze time, blocked flag and each label end as the last performed write left them, or untouched |
| ActionLaws.ApplyKeeps | packages/core/src/services/conversation-actions.ts:83-90 | any action list keeps the tables well formed and a current label cache current |
| ActionLaws.TwiceIsOnce | packages/core/src/services/conversation-actions.ts:92-406 | running a list twice leaves every field and label as running it once |
| ActionLaws.SilentRun | packages/core/src/services/conversation-actions.ts:108-404 | a run is silent iff every operation agrees with the state, and then changes nothing |
| ActionLaws.SecondRunSilentIff | packages/core/src/services/conversation-actions.ts:402-404 | the second run posts no activity and publishes nothing iff the performed writes do not conflict and none is always acting |
| ActionLaws.SetLabelsLaw | packages/core/src/services/conversations.ts:651-700 | setting labels leaves exactly the normalised titles and a cache that names them |
| ActionLaws.AlwaysThrowsIff | packages/core/src/services/conversation-actions.ts:395-399 | an action name throws in every environment and with every parameters iff it is one of the three e-mail and attachment actions or unknown |
| ActionLaws.SecondRunPublishesIff | packages/core/src/services/conversation-actions.ts:402-404 | the second run publishes no update iff the list throws, or the performed writes do not conflict and none always raises the flag; private notes are allowed |
| ActionLaws.IdleRun | packages/core/src/services/conversation-actions.ts:108-404 | a run raises the changed flag iff some operation always does or writes something new; otherwise every field and label stays |
| ActionLaws.AddLabelsRepeatsIff | packages/core/src/services/conversation-actions.ts:182-242 | labels without repetition stay so under add_label iff every title listed more than once was already present |
| ActionMeaning.StatusActions | packages/core/src/services/conversation-actions.ts:299-323 | resolve, open and pending leave the status they name, noted and published iff it is new |
| ActionMeaning.ChangeStatusMeaning | packages/core/src/services/conversation-actions.ts:299-323 | change_status leaves the status that its first parameter names, and any other text is rejected |
| ActionMeaning.ChangePriorityMeaning | packages/core/src/services/conversation-actions.ts:325-341 | change_priority leaves the number of the named priority, and any other text is rejected |
| ActionMeaning.AssignMeaning | packages/core/src/services/conversation-actions.ts:108-181 | an integer assigns the member or the team of that id, or is rejected as not found |
| ActionMeaning.AssignRejects | packages/core/src/services/conversation-actions.ts:30-35 | parameters that are no integer are rejected |
| ActionMeaning.UnassignMeaning | packages/core/src/services/conversation-actions.ts:108-181 | removing leaves no assignee, or no team |
| ActionMeaning.LabelRejects | packages/core/src/services/conversation-actions.ts:182-242 | a label action is rejected iff its parameters name no title |
| ActionMeaning.AddLabelMeaning | packages/core/src/services/conversation-actions.ts:182-242 | add_label leaves the labels there were and the titles named, cleaned, and its note lists exactly the new ones |
| ActionMeaning.RemoveLabelMeaning | packages/core/src/services/conversation-actions.ts:182-242 | remove_label leaves the labels that are not named, and its note lists exactly those gone |
| ActionMeaning.CacheMeaning | packages/core/src/services/conversation-actions.ts:83-90 | the label cache joins the titles by a comma and a space |
| ActionMeaning.SnoozeMeaning | packages/core/src/services/conversation-actions.ts:343-367 | snoozing leaves status snoozed and the wake time of the parameter in seconds, and always notes and publishes |
| ActionMeaning.SnoozeRejects | packages/core/src/services/conversation-actions.ts:343-367 | what gives no wake time is rejected |
| ActionMeaning.MuteMeaning | packages/core/src/services/conversation-actions.ts:369-382 | muting blocks the contact unless the parameter says false, and always publishes |
| ActionMeaning.PostMeaning | packages/core/src/services/conversation-actions.ts:243-297 | a message updates the conversation and a note does not; both are published; empty text is rejected |
| ActionMeaning.WebhookMeaning | packages/core/src/services/conversation-actions.ts:383-394 | a webhook changes no row and fails without an address or when the address does |
| ActionMeaning.UnsupportedMeaning | packages/core/src/services/conversation-actions.ts:395-399 | the other names are rejected |
| ActionMeaning.RunSplits | packages/core/src/services/conversation-actions.ts:97-400 | a list runs its first part and, unless that throws, the rest from the state it left |
| ActionMeaning.SetLabelsMeaning | packages/core/src/services/conversations.ts:651-700 | setting labels leaves the titles given, trimmed and in lower case, each once, in rows and cache, changes nothing else and always publishes |
| ActionMeaning.LabelsMeaning | packages/core/src/services/conversation-actions.ts:72-81 | tagging creates a label only when none has the title and leaves all others alone |
| ConversationStores.ConversationStore.RefreshLabelCache | packages/core/src/services/conversation-actions.ts:83-90 | the cache names exactly the tagged titles |
| ConversationStores.ConversationStore.EnsureLabel | packages/core/src/services/conversation-actions.ts:72-81 | returns the label of the normalised title, creating it only when the account has none |
| ConversationStores.ConversationStore.AddLabelRows | packages/core/src/services/conversation-actions.ts:57-90 | tags the titles that are not yet present, in order |
| ConversationStores.ConversationStore.RemoveLabelRows | packages/core/src/services/conversation-actions.ts:57-90 | removes the taggings of the titles that are present |
| ConversationStores.ConversationStore.Execute | packages/core/src/services/conversation-actions.ts:108-382 | each branch of the switch updates the tables and the changed flag as specified |
| ConversationStores.ConversationStore.RunActions | packages/core/src/services/conversation-actions.ts:97-400 | the loop performs actions in order, stops at the first that throws and keeps what earlier ones wrote |
| ConversationStores.ConversationStore.ApplyActionItems | packages/core/src/services/conversation-actions.ts:97-406 | one publication at the end iff nothing threw and something changed |
| ConversationStores.ConversationStore.SetConversationLabels | packages/core/src/services/conversations.ts:651-700 | replaces the taggings and leaves a current cache |
| Cascade.EventProgress | packages/core/src/services/automation.ts:525-540 | for calm rules every update that an event publishes is paid for by a field that reached its target, whichever listener handles it |
| Cascade.PostedIsPublished | packages/core/src/services/conversation-actions.ts:243-297 | the messages counted for an event are exactly the message.created entries it puts on the bus, also when a rule throws after posting |
| Cascade.PostedAtMost | packages/core/src/services/automation.ts:525-540 | an event posts at most the messages of all active rules, and exactly those when all fire |
| Cascade.QuietEventChangesNothing | packages/core/src/services/conversation-actions.ts:402-404 | an event that publishes nothing left the conversation as it was |
| Cascade.QuietEventIff | packages/core/src/services/automation.ts:525-540 | when every active rule fires and none throws, an event publishes no update iff every operation writes what is there and none always raises the flag, and then no field changes |
| Cascade.RestlessRepublishes | packages/core/src/services/automation.ts:525-540 | such rules with an always-raising or two conflicting operations republish every event, from every state |
| Cascade.FactsMeaning | packages/core/src/services/automation.ts:280-331 | the facts hold the named status and priority and the ids, labels, message and contact of the conversation as it stands |
| Cascade.TraceOfEvent | packages/core/src/services/automation.ts:525-540 | an event is the turns of its rules in order: an active, unskipped rule acts iff its list is empty or some condition carries it on the state the earlier rules left, and any other rule changes nothing |
| Cascade.NothingHolds | packages/core/src/services/automation.ts:451-459 | when the conditions of no active rule hold, no turn changes or publishes anything |
| Cascade.HoldsIffMatches | packages/core/src/services/automation.ts:451-459 | that condition is what the evaluation of the list comes to |
| Cascade.HandleEvent | packages/core/src/services/automation.ts:525-540 | what the tables end in, and what is published and posted, is the last of these turns; when no active rule holds, the tables are as before and nothing is published or posted |
| CascadeRuns.EventsPaidFor | packages/core/src/jobs/automation.ts:68-91 | in every order of events, updates handled are at most those queued plus the fields off their targets, and messages at most those queued plus the posts of the updates handled |
| CascadeRuns.CascadeBound | packages/core/src/jobs/automation.ts:68-91 | when all rules together are calm and rules on messages post none, both listeners together handle boundedly many events, whatever the conditions, the guard and the order |
| CascadeRuns.EndedWillEnd | packages/core/src/jobs/automation.ts:68-91 | a run of rules that always fire and never throw that ends met the condition from the start |
| CascadeRuns.CascadeEndsIff | packages/core/src/jobs/automation.ts:68-91 | for such rules, any queue of updates and messages and any order, the queue runs empty iff no pending message echoes for ever and updates settle (together with the rules on messages when they post, else alone), or no update is pending and none will be published |
| CascadeRuns.HandleNext | packages/core/src/jobs/automation.ts:68-91 | the listener of the next event, and what it adds to the queue |
| CascadeRuns.Drain | packages/core/src/jobs/automation.ts:68-91 | handling events one at a time terminates for settling rules after the specified numbers of updates and messages |
| ThrowingCascade.LaterEvents | packages/core/src/services/automation.ts:525-540 | after a first event, whether further ones publish depends on the rules alone: on whether each operation of a rule that does not throw repeats the write before it, going round |
| ThrowingCascade.ThrowingEndsIff | packages/core/src/services/automation.ts:525-540 | rules on updates that always fire, post nothing and may throw stop iff going round them writes nothing new, or the only pending event changes nothing at once |
| DelayedExecutions.StatusPaths | packages/core/src/services/automation.ts:460-597 | over every run the statuses of an execution go 0, 1, then one of 2, 3, 4 |
| DelayedExecutions.NeverEarly | packages/core/src/services/automation.ts:543-597 | nothing ends before its due time |
| DelayedExecutions.EndsOnce | packages/core/src/services/automation.ts:460-503 | each (rule, conversation, episode) runs to an end at most once ever |
| DelayedExecutions.EditDiscards | packages/core/src/services/automation.ts:209-217 | no execution armed before an edit of its rule ends after the edit |
| DelayedExecutions.SweepsClear | packages/core/src/services/automation.ts:543-547 | n sweeps in a row leave max(0, k - 50 n) of k due rows |
| DelayedExecutions.ProcessAllKeeps | packages/core/src/services/automation.ts:543-597 | a sweep clears exactly its batch and its result counts the rows that reached status 2 |
| DelayedExecutions.RunKeeps | packages/core/src/services/automation.ts:451-597 | every step of arming, editing, creating, deleting, waiting and sweeping keeps the invariant of table and history |
| DelayedExecutions.TriggerMeaning | packages/core/src/services/automation.ts:451-503 | an event runs, delays or leaves a rule alone; delaying adds one open row, due after the rule's minutes, under the status or the message of the event, iff there is none of that rule, conversation and episode |
| DelayedExecutions.DueExactly | packages/core/src/services/automation.ts:544-547 | an armed row is due from exactly that time on, as long as it is open |
| DelayedExecutions.EveryRowArmed | packages/core/src/services/automation.ts:460-503 | in every run each row was armed by an event of the run |
| DelayedExecutions.RunsAfterDelay | packages/core/src/services/automation.ts:460-597 | in every run what ends was armed by an event for its rule, conversation and episode, and ends no earlier than the delay of the rule, as it stood then, after that event |
| DelayedExecutions.DelayThenRun | packages/core/src/services/automation.ts:460-597 | on an empty table a delayed execution is not due before its delay has passed, is the next batch after it, and is done if its rule acts |
| DelayedExecutions.FinalStatusMeaning | packages/core/src/services/automation.ts:549-590 | the final status is done iff the rule lives and its actions ran, error iff they threw, and skipped otherwise |
| DelayedExecutions.EditMeaning | packages/core/src/services/automation.ts:169-219 | an edit replaces the rule and removes its open rows and no others |
| DelayedExecutions.ExecutionService.ExecuteRuleOn | packages/core/src/services/automation.ts:451-503 | arms, skips or runs a rule as specified, a conflict with the unique index arming nothing |
| DelayedExecutions.ExecutionService.UpdateAutomationRule | packages/core/src/services/automation.ts:169-219 | replaces the definition and deletes the open rows of the rule |
| DelayedExecutions.ExecutionService.SelectDue | packages/core/src/services/automation.ts:544-547 | selects min(50, due) distinct due rows |
| DelayedExecutions.ExecutionService.ProcessDueExecutions | packages/core/src/services/automation.ts:543-597 | one sweep processes a batch of due rows and returns how many were done |
| AutoAssignment.PickAutoAssignee | packages/core/src/services/teams.ts:217-245 | the two loops pick nobody iff no member is online, else an online member with the fewest open assigned conversations, the first of them in the user table |
| AutoAssignment.CandidatesDistinct | packages/core/src/services/teams.ts:224-228 | no candidate occurs twice, user ids being unique |
| AutoAssignment.CandidatesMeaning | packages/core/src/services/teams.ts:217-231 | the candidates are the online members of the inbox, all of them, in the order of the user table |
| AutoAssignment.LoadIsCount | packages/core/src/services/teams.ts:232-239 | a load is the number of open conversations assigned to the user |
| AutoAssignment.AssignRowMeaning | packages/core/src/jobs/automation.ts:22-34 | one row gets the least busy online member, unless it is assigned, assignment is off or nobody is online |
| AutoAssignment.AssignmentService.AutoAssign | packages/core/src/jobs/automation.ts:22-34 | assigns an unassigned conversation of an enabled inbox to the picked member and changes no other row |
| AutoAssignment.AssignmentService.AssignArrivals | packages/core/src/jobs/automation.ts:54-57 | k times a new unassigned open conversation and the listener that assigns it make the table the runs below speak of |
| AutoAssignment.TablesFollow | packages/core/src/services/teams.ts:232-239 | over any number of arrivals the loads counted from the conversation table follow the abstract assignment step |
| AutoAssignment.NextGoesTo | packages/core/src/services/teams.ts:240-244 | each arrival becomes one row assigned to the candidate with the least load so far |
| AutoAssignment.RoundRobin | packages/core/src/services/teams.ts:230-231 | from equal loads the k-th conversation goes to candidate k mod n |
| AutoAssignment.RoundRobinIff | packages/core/src/services/teams.ts:230-231 | the first n conversations go to the candidates in order iff the loads were equal, and iff so they go round for ever |
| AutoAssignment.TableGapBounded | packages/core/src/services/teams.ts:240-243 | in the conversation table the gap between two loads never exceeds max(1, initial gap), over any number of arrivals |
| AutoAssignment.SteadyState | packages/core/src/services/teams.ts:230-231 | from any loads, once the deficit against the busiest has been assigned, the picker is a round robin for ever |
| Csv.ParseCsv | packages/core/src/services/contacts.ts:773-810 | the character loop computes the scan of the text |
| Csv.RoundTrip | packages/core/src/services/contacts.ts:773-810 | whatever quoting, separators and line breaks a writer chooses, reading gives back exactly its rows minus those whose fields are all empty |
| Csv.TableRoundTrip | packages/core/src/services/contacts.ts:773-810 | a table without all-empty rows, fully quoted, is read back as it was |
| Csv.UnclosedQuote | packages/core/src/services/contacts.ts:773-810 | a quote that is never closed takes the rest of the text as one field |
| ContactImport.ReadMeaning | packages/core/src/services/contacts.ts:891-898 | a row is read under the titles name, email and phone_number, the address trimmed and in lower case, empty ones as none |
| ContactImport.ImportExact | packages/core/src/services/contacts.ts:895-933 | the contacts created are exactly the rows with something to say whose address is new and claimed by no earlier row, in order; every other row leaves one error with its name and reason, and created + failed = processed |
| ContactImport.EmailsStayDistinct | packages/core/src/services/contacts.ts:903-913 | the addresses of the account stay pairwise distinct |
| ContactImport.FailedIff | packages/core/src/services/contacts.ts:935-944 | the import fails iff it had rows and none became a contact |
| ContactImport.StartMeaning | packages/core/src/services/contacts.ts:815-832 | an import starts iff there are a header and a row and a column whose normalised title is name |
| ContactImport.ReimportCreatesNoAddress | packages/core/src/services/contacts.ts:903-908 | importing the same rows again creates no contact with an address |
| ContactImport.Importer.RunJob | packages/core/src/services/contacts.ts:882-947 | the job leaves contacts, errors, status and processed count as specified |
| ContactImport.Importer.StartContactImport | packages/core/src/services/contacts.ts:815-853 | refuses short files and files without a name column before anything is written, else runs the job on the data rows |
| ContactMerge.AbortsIff | packages/core/src/services/contacts.ts:487-508 | the transaction aborts, changing nothing, iff the base has no e-mail address and the child has one |
| ContactMerge.RefusesIff | packages/core/src/services/contacts.ts:442-461 | merging a contact with itself and contacts of another account is refused, changing nothing |
| ContactMerge.LinksMoved | packages/core/src/services/contacts.ts:464-484 | exactly which of the child's links move, in any order the database returns them |
| ContactMerge.LinksConserved | packages/core/src/services/contacts.ts:464-484 | no link is lost or rewritten except for moving to the base; the links of base and others stay |
| ContactMerge.InboxesUnite | packages/core/src/services/contacts.ts:464-484 | the base is in exactly the inboxes that either contact was in |
| ContactMerge.OneLinkPerInboxKept | packages/core/src/services/contacts.ts:468-476 | the base keeps at most one link per inbox if it had at most one |
| ContactMerge.NotesAndTagsConserved | packages/core/src/services/contacts.ts:485-491 | all notes and contact taggings of the child belong to the base, totals unchanged, others untouched |
| ContactMerge.ContactsCombined | packages/core/src/services/contacts.ts:493-511 | the base keeps its values and inherits the rest, attribute keys are the union favouring the base, the child is gone and all others are as before |
| ContactMerge.ContactService.MergeContacts | packages/core/src/services/contacts.ts:442-517 | the method, with its loop and its rollback, does as specified |
| Inbound.RedeliveryInvisible | packages/core/src/channels/inbound.ts:79-100 | any item list ends in the store, counts and error of its fresh non-status items alone; the counts add up to the list |
| Inbound.IngestKeepsUnique | packages/core/src/channels/inbound.ts:69-209 | every step, also a failing one, keeps (inbox, source) links, contact addresses and display ids distinct |
| Inbound.RunKeepsUnique | apps/server/src/routes/webhooks.ts:40-53 | and so does every run over a list of items |
| Inbound.CreateFailsIff | packages/core/src/channels/inbound.ts:102-135 | exactly when a fresh item of an existing inbox fails on a unique index, and on which |
| Inbound.IngestedMeaning | packages/core/src/channels/inbound.ts:102-209 | an ingested item is one new message with its content, attachments and source id, sent by the contact found or created, who is linked to the inbox, in an open waiting conversation of that contact |
| Inbound.FoundMeaning | packages/core/src/channels/inbound.ts:35-62 | the contact is that of the link, else one with the e-mail address, else one with the phone number; none is found only if there is none of these |
| Inbound.ContactMeaning | packages/core/src/channels/inbound.ts:102-118 | the contact is the one found, or one new row with the name, address and phone of the item |
| Inbound.LinkMeaning | packages/core/src/channels/inbound.ts:120-135 | a contact that has no link in the inbox gets one for the source of the item |
| Inbound.ConversationMeaning | packages/core/src/channels/inbound.ts:138-184 | the conversation is the open one with the latest activity, or a new one whose display id is one more than the greatest of the account |
| Inbound.MessageMeaning | packages/core/src/channels/inbound.ts:186-206 | one message is added, and only its conversation changes: just active, waiting since the first unanswered message, no longer resolved |
| Inbound.NotIngestedMeaning | packages/core/src/channels/inbound.ts:74-100 | an unknown inbox, a message that is there already and a status event change nothing, and what is answered |
| Inbound.LoopStops | apps/server/src/routes/webhooks.ts:40-53 | a loop that ends early ends at the first item that fails, with the rows that item left |
| Inbound.InboundPipeline.IngestInbound | packages/core/src/channels/inbound.ts:69-209 | the step-by-step inserts end in the specified tables and result |
| Inbound.InboundPipeline.IngestAllItems | apps/server/src/routes/webhooks.ts:40-53 | the counting loop, which an error leaves at once |
| ConversationClock.WaitingRefinesLog | packages/core/src/services/messages.ts:171-177 | waitingSince is null iff no incoming message follows the last public agent message, else the time of the first that does |
| ConversationClock.WaitingDetermined | packages/core/src/services/messages.ts:230-234 | the log leaves only one possible value |
| ConversationClock.FirstReplyRefinesLog | packages/core/src/services/messages.ts:171-177 | firstReplyCreatedAt is the time of the creating message or of the first public agent message |
| ConversationClock.FirstReplyStays | packages/core/src/services/messages.ts:173-175 | once set it never changes |
| ConversationClock.ResolvedIff | packages/core/src/services/messages.ts:230-234 | over every run a conversation is resolved iff an accepted step resolved it and neither an incoming message nor another status has followed |
| ConversationClock.StatusLaws | packages/core/src/services/messages.ts:146-151 | a send is refused, changing nothing, exactly on a snoozed conversation or without access |
| ConversationClock.StatusOfRun | packages/core/src/services/conversations.ts:520-561 | in every run the last step that sets the status decides it, with its wake time, but for an incoming message after a resolution and the job after the wake time, which open the conversation |
| ConversationClock.StatusAsCreated | packages/core/src/services/conversations.ts:439-518 | in a run without such a step the status it was created with decides |
| ConversationClock.ConversationService.SendAgentMessage | packages/core/src/services/messages.ts:140-199 | the patch of an agent message |
| ConversationClock.ConversationService.CreateIncomingMessage | packages/core/src/services/messages.ts:202-244 | the patch of an incoming message |
| ConversationClock.ConversationService.ToggleConversationStatus | packages/core/src/services/conversations.ts:520-561 | the toggle with its refusals |
| ConversationClock.ConversationService.MuteConversation | packages/core/src/services/conversations.ts:704-728 | muting resolves the conversation, unmuting leaves its status |
| ConversationClock.ConversationService.SnoozeJob | packages/core/src/services/conversations.ts:747-768 | the job that ends an expired snooze |
| Cable.StateAgrees | apps/server/src/cable.ts:65-117 | in every run openness, handlers on the bus and rooms are what the history of steps says |
| Cable.DeliveryExact | apps/server/src/cable.ts:68-86 | the event frames of a connection are exactly the publications made while it was open and after it was admitted to their account, in order |
| Cable.ConfirmedFirst | apps/server/src/cable.ts:107-117 | every event frame follows a confirmation for its account on that connection, and every confirmation a successful lookup |
| Cable.NothingAfterClose | apps/server/src/cable.ts:151-153 | no event frame follows the close |
| Cable.AnswersExact | apps/server/src/cable.ts:57-119 | in every run the other frames of a connection are exactly the answers to its own steps, in order, close codes included, and the open lookups are those asked and not answered |
| Cable.PossibleIff | apps/server/src/cable.ts:65-153 | a run can go on with a step iff the history makes it possible: a connection starts once, speaks while open, and each lookup answers once |
| Cable.SubscribeAllOn | packages/core/src/realtime/index.ts:23-40 | registering and removing a list of handlers touches exactly these handlers |
| Cable.CableServer.PublishMessage | packages/core/src/realtime/index.ts:42-47 | the loop over the handlers of the event delivers to each connection in the room |
| Cable.CableServer.OnOpen | apps/server/src/cable.ts:69-86 | welcome frame and one handler per forwarded event type |
| Cable.CableServer.OnSubscribe | apps/server/src/cable.ts:95-110 | rejects a malformed identifier, else starts a membership lookup |
| Cable.CableServer.OnMembership | apps/server/src/cable.ts:110-117 | joins and confirms, or asks to close |
| Cable.CableServer.OnUnsubscribe | apps/server/src/cable.ts:118-119 | acknowledges and changes no room |
| Cable.CableServer.OnClientEvent | apps/server/src/cable.ts:132-148 | typing and presence are published only for rooms of the connection |
| Cable.CableServer.OnClose | apps/server/src/cable.ts:151-153 | removes all handlers of the connection |
| Presence.RoomIsKept | packages/core/src/realtime/presence.ts:27-75 | a room holds each user once, and exactly the heartbeats neither superseded nor pruned |
| Presence.ListExact | packages/core/src/realtime/presence.ts:59-78 | listing returns exactly the users whose latest event is a heartbeat at most 90 seconds old, with its status and time, however often the store was pruned |
| Presence.DropAnnounces | packages/core/src/realtime/presence.ts:47-56 | a departure is announced iff the store still has a heartbeat of the user |
| Presence.PublishedExact | packages/core/src/realtime/presence.ts:24-56 | in every history exactly the heartbeats and the departures of held users are published, in order |
| Presence.OrderIsSince | packages/core/src/realtime/presence.ts:29-35 | in every history a room is in strictly ascending order of the heartbeat since which it has held each user without a break |
| Presence.ListedInOrder | packages/core/src/realtime/presence.ts:64-76 | and so is every list |
| Presence.PruningMovesIff | packages/core/src/realtime/presence.ts:64-68 | an earlier listing changes a returning user's place, to the end, iff the entry was stale then |
| Presence.PresenceStore.TouchPresence | packages/core/src/realtime/presence.ts:24-44 | stores and publishes the heartbeat |
| Presence.PresenceStore.DropPresence | packages/core/src/realtime/presence.ts:47-56 | removes and publishes, or does nothing |
| Presence.PresenceStore.ListPresence | packages/core/src/realtime/presence.ts:59-78 | the pruning loop returns the recent entries and leaves exactly these |
| Tokens.ReachableInv | packages/core/src/services/auth.ts:42-198 | in every run the table holds exactly the issued and unspent tokens, and every acceptance was justified when it happened |
| Tokens.AcceptedIff | packages/core/src/services/auth.ts:143-155 | a token is accepted iff it was issued for that use, nothing spent it and its lifetime of 30 days, 7 days or 2 hours has not passed, and for its own user |
| Tokens.TableMeaning | packages/core/src/services/auth.ts:42-198 | in every reachable state, which rows each request takes away and adds, with whom and when they were issued |
| Tokens.AcceptedOnce | packages/core/src/services/auth.ts:153-154 | every refresh, reset and invitation token is accepted at most once |
| Tokens.NotAfterSignOut | packages/core/src/services/auth.ts:157-159 | never after it was signed out |
| Tokens.NotAfterReset | packages/core/src/services/auth.ts:193-197 | a refresh token is never accepted after a password reset by its owner |
| Tokens.RotationConserves | packages/core/src/services/auth.ts:143-155 | rotation leaves every user's number of refresh tokens unchanged; a refusal removes at most the presented token |
| Tokens.AuthService.IssueToken | packages/core/src/services/auth.ts:47-56 | inserts one row under the digest |
| Tokens.AuthService.RefreshPair | packages/core/src/services/auth.ts:143-155 | rotates, or refuses and deletes a wrong or expired row |
| Tokens.AuthService.Leave | packages/core/src/services/auth.ts:157-159 | deletes the row of the token, of whatever kind |
| Tokens.AuthService.Reset | packages/core/src/services/auth.ts:178-198 | consumes the reset token and revokes the user's refresh tokens, or changes nothing |
| Tokens.AuthService.Accept | packages/core/src/services/auth.ts:338-361 | consumes the invitation, or changes nothing |
| RateLimit.SlidingBound | apps/server/src/middlewares/rate-limit.ts:14-38 | any half-open minute admits at most 2 * max - 1 requests per key, over every history |
| RateLimit.BoundIsTight | apps/server/src/middlewares/rate-limit.ts:24-37 | for every max a history reaches that bound |
| RateLimit.RetryAfterExact | apps/server/src/middlewares/rate-limit.ts:30-34 | Retry-After is in 1..60 and is the least whole number of seconds after which a silent client passes |
| RateLimit.RefusedWindowEnds | apps/server/src/middlewares/rate-limit.ts:24-34 | a request after the wait is never counted in the refused window |
| RateLimit.KeysIndependent | apps/server/src/middlewares/rate-limit.ts:21-25 | what a key is told depends on its own requests alone |
| RateLimit.Limiter.Handle | apps/server/src/middlewares/rate-limit.ts:14-38 | updates the bucket and answers as specified |
| KeyMapper.CamelFixpoints | packages/core/src/lib/mapper.ts:1-3 | camel keys contain no underscore before a letter a-z, and exactly such keys are fixed |
| KeyMapper.CamelRoundTrip | packages/core/src/channels/outbound.ts:17-23 | snakeToCamel undoes toSnake on a key iff it has no underscore followed by a-z |
| KeyMapper.SnakeRoundTrip | packages/core/src/lib/mapper.ts:1-3 | toSnake undoes snakeToCamel on a key iff it has no A-Z |
| KeyMapper.KeysToCamelIdempotent | packages/core/src/lib/mapper.ts:13-26 | keysToCamel is idempotent on every nested value, colliding keys included, and fixes exactly the values with distinct camel keys |
| KeyMapper.LastEntryWins | packages/core/src/lib/mapper.ts:17-22 | when keys collide the last entry's value is kept |
| KeyMapper.CamelNeverProto | packages/core/src/lib/mapper.ts:17-22 | keysToCamel never assigns the key that sets a prototype |
| KeyMapper.RowRoundTrip | packages/core/src/channels/outbound.ts:17-23 | a row with distinct camel keys keeps all columns and is restored by converting back iff no key is `_Proto__` |
| KeyMapper.ToSnakeKeys | packages/core/src/channels/outbound.ts:17-23 | the loop fills the result as specified |
| KeyMapper.ConvertKeys | packages/core/src/lib/mapper.ts:13-26 | the recursion with its loop computes the conversion |
| Reporting.GetOverview | packages/core/src/services/reporting.ts:559-571 | the cursor loop lists the days of the range, 366 at most, with their counts |
| Reporting.RangeMeaning | packages/core/src/services/reporting.ts:26-35 | which instants a range goes from and to, given or defaulted, and when it is refused |
| Reporting.ListedIff | packages/core/src/services/reporting.ts:559-571 | a day is listed iff it is among the first 366 and begins in the range |
| Reporting.DaysPartition | packages/core/src/services/reporting.ts:525-558 | the daily counts of consecutive days add up to the count of all rows on those days |
| Reporting.OverviewCompleteIff | packages/core/src/services/reporting.ts:520-574 | the series accounts for every row in the range, whatever the rows, iff the listed days cover the shifted range |
| Reporting.DatesComplete | packages/core/src/services/reporting.ts:26-35 | for calendar dates that is iff the offset is zero and the range touches at most 366 days |
| Reporting.DefaultComplete | packages/core/src/services/reporting.ts:26-35 | the default thirty days are always complete with offset zero |
| Reporting.RollupExact | packages/core/src/services/reporting.ts:611-648 | after rolling up any days in any order, rows of listed days with events hold that day's totals and all others are as before |
| Reporting.RollupIdempotent | packages/core/src/services/reporting.ts:627-647 | rolling up a day again on the same events changes nothing |
| Reporting.RollupConserves | packages/core/src/services/reporting.ts:608-654 | the counts of consecutive rolled-up days add up to the events between their midnights |
| Reporting.ValuesConserved | packages/core/src/services/reporting.ts:608-654 | and their sums to the values of these events |
| Reporting.RollupStore.Rollup | packages/core/src/services/reporting.ts:608-648 | the upsert loop over the metrics of a day |
| Reporting.RollupStore.RunRollupOnce | packages/core/src/services/reporting.ts:651-654 | rolls up yesterday |

## Left out

- Concurrency: steps are serial. Overlapping sweeps, concurrent refreshes of one token and concurrent display ids take no locks in the code and are not modelled.
- Network and storage: channel providers, SMTP, IMAP, S3, LLM calls, the job queue and the user interface. Database reads and writes are map operations; row ids are fresh.
- Host conversions: Number(), String(), trim(), toLowerCase(), date parsing, the random draws and the SHA-256 digest are parameters (the digest injective, the draws never repeated).
- Webhook parsers, schemas, API mappers and plain CRUD: one-branch field copying.
- `sanitizeArticleHtml` and the campaign audience: their obvious claims are false and the exact ones are about regular expressions and paging.
- CascadeRuns.CascadeEndsIff: speaks of rules whose conditions always hold and that do not throw, and `ThrowingCascade.ThrowingEndsIff` of throwing rules that post no message. Conditional rules, and throwing rules that set off rules on messages, may also stop depending on state and order; the bound `CascadeRuns.CascadeBound` holds of them too.
- Delayed executions: the outcome of loading and matching at an event, and of loading, matching and acting in a sweep, are parameters of the step.
- Agent bots and other listeners on the bus do not publish updates or messages back in the cascade; an event conversation.created only adds to the queue it starts with.
- The interpreter and the cascade look at one conversation; the columns updatedAt, statusChangedAt and lastActivityAt are not part of its state, and the outcome of a webhook delivery is a parameter per URL.
- JSON values: infinite numbers are not modelled, objects do not compare with ===, coercions of objects and dates inside conditions and parameters are the host's.
- Inbound: avatar URLs, content attributes and the published events of a message.
- Presence on the socket: the touches and drops that a connection causes are steps of `Presence`; in `Cable` their publications are ordinary publications.
- Frames that are not JSON and unknown commands do nothing and are not steps of `Cable`.
- Passwords, JWT access tokens, the existence of a user behind a token and the e-mail lookups before a token is issued.
- The rate limiter's key is a string; how path and client address make it up is not modelled, nor one path guarded by two limiters.
- Reporting values are reals and times are milliseconds, as the server writes them; the report filters other than account, name and time are left out. Totals of past days are not removed when events disappear.
- Conversations, csat answers and reporting rows of a merged contact: the code does not move them.
- ContactMerge.ContactService.MergeContacts: taggings are assumed to have no tagger, so that moving them cannot violate the taggings index.
- ContactImport.ImportExact: whether the database takes a row is a parameter of the row, so a failing insert counts as an error as it does in the code.
