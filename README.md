# activities-tracker — a verified model of the queue, group and configuration logic

activities-tracker runs the activity queue of a live event. Visitors form
*groups* that wait in a queue, are called in by a staff member, run their
activity for a number of minutes (or for an open-ended time, for a "friend"
group) and are finally closed. Staff take part in events in dated *periods*. A
small key-value *configuration* holds two settings:

- `gruppi_contemporanei_possibili`: how many groups run at once;
- `durata_media_gruppo`: the average activity length.

A public page shows the queue with a wait estimate built from those settings.

This project models, in Dafny, the rules behind those screens and the API
behind them:

- **The public queue page** (`PublicPage`):
  - the configuration fallbacks;
  - the wait estimate of each queued group;
  - the split into "in progress" and "waiting";
  - the in-place sort from the oldest group;
  - the polling state.
- **The staff page of an event** (`Groups`):
  - the count-up and count-down timers;
  - the "day N of M" labels;
  - the gate that refuses new groups once the event has ended;
  - the friend/duration rule of the create and edit forms;
  - the guarded waiting and close toggles;
  - the waiting/active lists;
  - the border colour of a group card.
- **The events page** (`Events`):
  - which staff count as currently assigned;
  - the period badges;
  - the search-and-sort of the event list;
  - the list update after an edit;
  - the edit-button gate.
- **The groups API** (`GroupController`):
  - the open and closed listings with their `event_id` filter and their order;
  - transactional create and update;
  - soft delete.
- **The event–group–staff pivot API** (`EventGroupStaff`): attach, detach and
  "assign to the unassigned row". The unique index on
  (event, group, staff) is the invariant each operation keeps.
- **The configuration store**:
  - the read helpers `getAllAssoc` and `getValue` (`Configurazione`);
  - the validated upsert and the listing (`ConfigurazioneController`);
  - the page that edits the map locally (`ConfigurazionePage`).

Shared modules:

- `Wrappers`: `Option`.
- `SeqUtil`: filter and stable insertion sort, with their permutation and
  sortedness lemmas.
- `Js`: the JavaScript semantics the pages rely on — truthiness of a nullable
  number, `Number(x) || d`, the truncating `%`, `trim`, `toLowerCase` and
  `includes`.
- `Entities`: the group row.

The model takes these conventions:

- Time is integer milliseconds and dates are integer day numbers, already
  normalised to midnight.
- The clock, the outcome of each HTTP request and the failure of a database
  transaction are parameters.
- Database tables are sequences of rows, in insertion order.

Where the code's state is mutated, the model is a class:

- the page state of the public page, the group manager, the group editor,
  the events list and the configuration page;
- the groups table, the pivot table and the configuration table.

The public page sorts its lists with an in-place array insertion sort. Every
state-changing method is proved against the pure functions that specify it.

Two behaviours follow the code rather than what its comments and API
documentation suggest:

- `EventGroupStaff.PivotTable.Store` answers 500 on a rejected request. The
  validation runs inside the `try`, and the exception it throws is caught
  there. `Destroy` and `Assign` validate outside the `try` and answer 422.
- `Store` does not restore a soft-deleted triple. `deleted_at` is not
  mass-assignable, so the row is left as it is.

## Model

| member | source | states |
|---|---|---|
| PublicPage.LoadConfig | resources/js/pages/public-page.tsx:54-57 | a zero or missing concurrency becomes 3 and a zero or missing average becomes 10; any other value is kept; neither result is ever 0 |
| PublicPage.Slots | resources/js/pages/public-page.tsx:29 | at least one slot, and exactly the configured number when it is positive |
| PublicPage.QueueWaitEstimate | resources/js/pages/public-page.tsx:24-38 | for a non-negative average the estimate is never below one average duration |
| PublicPage.FirstBatchIsPoco | resources/js/pages/public-page.tsx:29-33 | the first `slots` positions wait exactly one average duration, labelled 'Poco' |
| PublicPage.SameBatchSameEstimate | resources/js/pages/public-page.tsx:30-31 | positions in the same batch of `slots` share their estimate |
| PublicPage.EstimateMonotone | resources/js/pages/public-page.tsx:30-31 | a later queue position never gets a smaller estimate (average >= 0) |
| PublicPage.LabelByTurns | resources/js/pages/public-page.tsx:30-36 | for a positive average the label depends only on the turns: Poco up to 1, Nella media at 2, Tanto 3..5, Molto from 6 |
| PublicPage.QueueEstimates | resources/js/pages/public-page.tsx:182-188 | one estimate per waiting card, the card at position i getting the estimate for i groups ahead of it |
| PublicPage.QueueOrderFollowsCreation | resources/js/pages/public-page.tsx:182-188 | on the waiting list `VisibleLists` builds, every card is a fetched queued group, and a group created earlier stands before a later one and is never shown a longer wait |
| PublicPage.QueueEstimatesNonDecreasing | resources/js/pages/public-page.tsx:182-188 | estimates never decrease down the waiting list |
| PublicPage.SortByCreatedAt | resources/js/pages/public-page.tsx:100-101 | the in-place sort leaves the array sorted by `created_at` (null as 0) and a permutation of its input |
| PublicPage.SortedCopy | resources/js/pages/public-page.tsx:100-101 | a sorted permutation of the filtered list |
| PublicPage.VisibleLists | resources/js/pages/public-page.tsx:94-101 | in-progress and waiting are the running and queued groups, each sorted; together they are exactly the non-closed groups (as multisets) |
| PublicPage.VisibleListsMembers | resources/js/pages/public-page.tsx:94-98 | a group is listed in progress iff fetched, open and not waiting; listed as waiting iff fetched, open and waiting |
| PublicPage.PublicGroupsPage.constructor | resources/js/pages/public-page.tsx:42-45 | no groups, loading, no event selected |
| PublicPage.PublicGroupsPage.FetchGroups | resources/js/pages/public-page.tsx:65-82 | with no event, the list empties and loading stops; otherwise the groups are replaced on success and kept on failure, and the first load clears loading and `firstLoad` |
| PublicPage.PublicGroupsPage.SelectEvent | resources/js/pages/public-page.tsx:62-83 | choosing an event restarts the effect with a first load: afterwards loading is off and the list is the response (or empty without an event) |
| PublicPage.PublicGroupsPage.Tick | resources/js/pages/public-page.tsx:84-87 | a poll never turns loading on and clears `firstLoad`; it refreshes the list (or empties it without an event) |
| Js.NumberOr | resources/js/pages/public-page.tsx:55-56 | `Number(x) || d`: the value when truthy, the fallback otherwise |
| Js.Rem | resources/js/pages/groups.tsx:43 | JavaScript `%`: the remainder has the sign of the dividend and is smaller than the divisor |
| Groups.ClockOf | resources/js/pages/groups.tsx:42-43 | for a non-negative time, seconds are in 0..59 and `min*60000 + sec*1000 <= ms < min*60000 + (sec+1)*1000` |
| Groups.ClockOfExact | resources/js/pages/groups.tsx:53-54 | every instant inside the second `m:ss` is displayed as `m:ss` |
| Groups.RemainingMs | resources/js/pages/groups.tsx:52 | never negative, never above the duration for a non-negative elapsed time, and 0 exactly when the duration has run out |
| Groups.GroupTimer | resources/js/pages/groups.tsx:31-61 | a waiting group counts up from `created_at`; otherwise there is no timer iff the duration is 0/null or `updated_at` is missing; 'Da chiamare' iff elapsed > duration; else the remaining time |
| Groups.ShownTimer | resources/js/pages/groups.tsx:572 | the card shows a timer exactly for a non-friend group with a truthy duration and a `created_at`, and then shows `GroupTimer`; a shown running timer is blank only without `updated_at` |
| Groups.CountdownBounds | resources/js/pages/groups.tsx:49-54 | a running countdown shows at most the whole duration and the time left to the second |
| Groups.DayOfEvent | resources/js/pages/groups.tsx:473-484 | before the start: before the event; after the end (or the start, without an end): after it; otherwise day `diff+1` of `totalDays`, within 1..totalDays. The header (lines 235-246) and the open cards (lines 753-764) use the same rule |
| Groups.DayOfEventInside | resources/js/pages/groups.tsx:241-246 | every day from the start to the end is numbered from 1 |
| Groups.EventClosed | resources/js/pages/groups.tsx:117-129 | closed iff both dates are known and today is past the end |
| Groups.EventClosedIsAfterEvent | resources/js/pages/groups.tsx:124-126 | for an event that ends no earlier than it starts, the creation gate is closed exactly on the days the header reads "Evento terminato" |
| Groups.WaitingGroups | resources/js/pages/groups.tsx:213 | only waiting, non-closed groups |
| Groups.ActiveGroups | resources/js/pages/groups.tsx:214 | only non-waiting, non-closed groups |
| Groups.PartitionOfOpenGroups | resources/js/pages/groups.tsx:213-214 | the two lists are disjoint and together are exactly the non-closed groups |
| Groups.WaitingToggle | resources/js/pages/groups.tsx:590-597 | nothing is sent iff the group is waiting without staff; otherwise `is_waiting` is sent negated |
| Groups.ActivationNeedsStaff | resources/js/pages/groups.tsx:591-595 | a request that activates a group only comes from a waiting group with staff |
| Groups.CloseToggle | resources/js/pages/groups.tsx:599-603 | sends `is_closed` negated with the page's event id |
| Groups.BorderClass | resources/js/pages/groups.tsx:644-668 | red iff expired; orange iff not expired and waiting 30+ minutes; white iff neither and waiting; yellow iff not expired and not waiting |
| Groups.WaitingGroupTurnsRed | resources/js/pages/groups.tsx:647-652 | a waiting group of 5 minutes is red at 6 minutes while its timer shows it waiting 6:00 |
| Groups.OrangeUnreachable | resources/js/pages/groups.tsx:647-663 | a freshly created waiting non-friend group with a duration under 30 minutes is never orange |
| Groups.IntendedBorderClass | resources/js/pages/groups.tsx:644-668 | corrected border: red iff a non-friend group's timer reads 'Da chiamare'; orange iff waiting 30+ minutes |
| Groups.IntendedOrangeReachable | resources/js/pages/groups.tsx:654-663 | with the correction, any group waiting 30+ minutes is orange |
| Groups.Submitted | resources/js/pages/groups.tsx:182-186 | a friend group is sent with a null duration, any other with the form's; all other fields are copied |
| Groups.SubmittedDurationNullIffFriend | resources/js/pages/groups.tsx:184 | once a duration is set, the sent duration is null exactly for a friend group |
| Groups.WithFriend | resources/js/pages/groups.tsx:161-167 | ticking "friend" clears the duration, unticking puts back 5; nothing else changes |
| Groups.WithFriendSendsNullIffFriend | resources/js/pages/groups.tsx:161-167 | after the checkbox, the sent duration is null exactly when the box is ticked |
| Groups.EmptyForm | resources/js/pages/groups.tsx:88-97 | the blank form: one person, no staff, not friend or kid, the given date and duration |
| Groups.ErrorText | resources/js/pages/groups.tsx:203-205 | the joined messages whenever they join to a non-empty text (always with two or more), the fallback otherwise, and never an empty error when the fallback is not empty |
| Groups.Join | resources/js/pages/groups.tsx:203 | `join(', ')`: empty for no messages, the message itself for one, starting with the first message, and as long as all messages plus two characters per separator |
| Groups.JoinEmptyIff | resources/js/pages/groups.tsx:203 | the joined text is empty exactly for no messages or a single empty one; any non-empty message makes it non-empty |
| Groups.ErrorTextFallsBack | resources/js/pages/groups.tsx:633-635 | a reply with messages shows the fallback exactly when it had no message text at all |
| Groups.GroupManager.constructor | resources/js/pages/groups.tsx:86-101 | the blank form with an undefined duration; no error, hidden form, gate open |
| Groups.GroupManager.HandleIsFriendChange | resources/js/pages/groups.tsx:161-167 | the form after the friend checkbox |
| Groups.GroupManager.HandleDurationChange | resources/js/pages/groups.tsx:169-171 | sets only the duration |
| Groups.GroupManager.OnConfigLoaded | resources/js/pages/groups.tsx:142 | an unset duration becomes `Number(durata_media_gruppo) || 5`; a set one is kept |
| Groups.GroupManager.OnEventLoaded | resources/js/pages/groups.tsx:117-129 | the gate is recomputed from the event's dates |
| Groups.GroupManager.HandleSubmit | resources/js/pages/groups.tsx:173-210 | while the event is closed: the error is set and nothing is sent; otherwise the form is sent with the event id, reset and hidden when accepted, kept with the error when rejected; loading ends off |
| Groups.EditFormFor | resources/js/pages/groups.tsx:574-583 | the edit form copies the group, with a missing or 0 duration shown as 5 |
| Groups.GroupEditor.constructor | resources/js/pages/groups.tsx:573-588 | starts from the group's edit form, not editing |
| Groups.GroupEditor.HandleEditIsFriendChange | resources/js/pages/groups.tsx:611-617 | the edit form after the friend checkbox |
| Groups.GroupEditor.HandleEditSubmit | resources/js/pages/groups.tsx:621-641 | sends the edit form (friend: null duration); accepted leaves edit mode, rejected shows the error; loading ends off |
| Events.CurrentStaffIds | resources/js/pages/events.tsx:196 | an id is selected iff some staff member with it has a period with neither `removed_at` nor `deleted_at` |
| Events.PreselectedStaffIds | resources/js/pages/events.tsx:189-196 | the fresh staff list wins over the event's; with neither, nothing is preselected |
| Events.BadgeOf | resources/js/pages/events.tsx:107-111 | inactive iff removed or deleted; 'presente' iff not removed |
| Events.PreselectedIffActiveBadge | resources/js/pages/events.tsx:107-111 | with unique ids, a staff member is preselected iff one of their badges is active, and an active badge reads 'presente' |
| Events.ComparatorTotal | resources/js/pages/events.tsx:428-437 | the date order, and the name and location orders (a null location read as '') over a total collation, are total preorders |
| Events.FilteredEvents | resources/js/pages/events.tsx:423-437 | the page throws a TypeError exactly when the filter reads the null location of an event whose name does not match, or a location sort meets a null location among two or more kept events; otherwise it lists the corrected list, and with no null location it always does |
| Events.IntendedFilteredEvents | resources/js/pages/events.tsx:423-437 | with a null location read as '': a permutation of the matching events, each listed event fetched and matching on name or location, every matching event listed, in date order or sorted by the key over a total collation |
| Events.FilteredEventsStable | resources/js/pages/events.tsx:428-437 | events of equal key keep the order in which the search kept them |
| Events.NullLocationThrows | resources/js/pages/events.tsx:424-427 | an event "Fiera" with a null location and the search "x": the page throws where the corrected list is empty |
| Events.EmptyFilterKeepsAll | resources/js/pages/events.tsx:423-427 | an empty search never reaches the location test and keeps every event |
| Events.ReplaceById | resources/js/pages/events.tsx:495 | same length and ids; each element is the edited event where the id matches, unchanged elsewhere |
| Events.ReplaceByIdIsUpdate | resources/js/pages/events.tsx:495 | with unique ids, exactly the edited position changes |
| Events.ReplaceByIdAbsent | resources/js/pages/events.tsx:495 | an unknown id leaves the list as it is |
| Events.ReplaceByIdIdempotent | resources/js/pages/events.tsx:495 | applying the same edit twice is applying it once |
| Events.CanEditStaysClosed | resources/js/pages/events.tsx:126 | once the end is not after now, the edit button stays hidden later |
| Events.EventListPage.OnEdited | resources/js/pages/events.tsx:494-498 | the list takes the edit, the edited event is selected, edit mode ends |
| GroupController.Index | app/Http/Controllers/GroupController.php:27-46 | a permutation of the live, open, in-scope rows; waiting groups before the others, `created_at` ascending (nulls first) within each flag |
| GroupController.Closed | app/Http/Controllers/GroupController.php:49-69 | a permutation of the live, closed, in-scope rows, `created_at` descending |
| GroupController.IndexClosedDisjoint | app/Http/Controllers/GroupController.php:31 | no group is listed both as open and as closed |
| GroupController.ApplyPatch | app/Http/Controllers/GroupController.php:136 | every column the patch names takes the sent value and every column it does not name keeps its value |
| GroupController.ApplyPatchIdempotent | app/Http/Controllers/GroupController.php:136 | filling the same attributes twice is filling them once |
| GroupController.Updated | app/Http/Controllers/GroupController.php:136 | attributes filled; `updated_at` touched only when something changed |
| GroupController.UpdateAgainIsNoop | app/Http/Controllers/GroupController.php:133-140 | re-sending an applied update leaves the row as it is, timestamps included |
| GroupController.SoftDeleted | app/Http/Controllers/GroupController.php:159 | the row is kept with `deleted_at` and `updated_at` set to now |
| GroupController.Bound | app/Http/Controllers/GroupController.php:130 | the first live row with the id, or none |
| GroupController.SoftDeleteHides | app/Http/Controllers/GroupController.php:157-161 | after a delete the group is in neither listing while its row remains |
| GroupController.GroupTable.Store | app/Http/Controllers/GroupController.php:83-100 | failure: 500 and the table unchanged; success: 201 and exactly the new row appended |
| GroupController.GroupTable.Update | app/Http/Controllers/GroupController.php:130-146 | no live row: 404; failure: 500 and unchanged; success: only the bound row updated |
| GroupController.GroupTable.Destroy | app/Http/Controllers/GroupController.php:157-161 | no live row: 404; otherwise 204 and the row soft-deleted |
| EventGroupStaff.Validated | app/Http/Controllers/EventGroupStaffController.php:36-40 | accepted iff all three ids are given and exist |
| EventGroupStaff.Attached | app/Http/Controllers/EventGroupStaffController.php:41-48 | an existing row for the triple, even a deleted one, is left alone; otherwise one live row is appended |
| EventGroupStaff.AttachedKeepsUnique | app/Http/Controllers/EventGroupStaffController.php:41-48 | attaching keeps the unique index and leaves exactly one row for the triple |
| EventGroupStaff.AttachedIdempotent | app/Http/Controllers/EventGroupStaffController.php:41-48 | attaching twice leaves the rows of attaching once |
| EventGroupStaff.UniquePresentIsExactlyOne | database/migrations/2025_09_23_150000_create_event_group_staff_table.php:22 | under the unique index a present triple has exactly one row |
| EventGroupStaff.Detached | app/Http/Controllers/EventGroupStaffController.php:83-86 | only live rows with the exact triple are soft-deleted; every other row is unchanged |
| EventGroupStaff.DetachedProperties | app/Http/Controllers/EventGroupStaffController.php:83-86 | afterwards no live row has the triple; the index still holds; ids and keys are unchanged |
| EventGroupStaff.FirstUnassigned | app/Http/Controllers/EventGroupStaffController.php:119-122 | the first live row of the pair with a null staff, or none |
| EventGroupStaff.AssignKeepsUnique | app/Http/Controllers/EventGroupStaffController.php:123-125 | filling that row keeps the unique index when the triple was absent |
| EventGroupStaff.PivotTable.Store | app/Http/Controllers/EventGroupStaffController.php:33-56 | rejected: 500 and unchanged; otherwise 201, the triple attached, exactly one row for it |
| EventGroupStaff.PivotTable.Destroy | app/Http/Controllers/EventGroupStaffController.php:75-88 | rejected: 422 and unchanged; otherwise 204 (even if nothing matched) and the triple detached |
| EventGroupStaff.PivotTable.Assign | app/Http/Controllers/EventGroupStaffController.php:110-130 | rejected: 422; no unassigned row: 404 and unchanged; triple already present: 500 and unchanged; otherwise 200 and only the first unassigned row takes the staff |
| Configurazione.AllAssoc | app/Models/Configurazione.php:17-20 | the keys are exactly the stored keys; each maps to the value of its last row |
| Configurazione.AllAssocOfUnique | app/Models/Configurazione.php:19 | with unique keys, every row's value is the mapped one |
| Configurazione.FirstWithKey | app/Models/Configurazione.php:25 | the first row with the key, or none iff no row has it |
| Configurazione.GetValue | app/Models/Configurazione.php:23-27 | the stored value when the key is present, the default (null when omitted) otherwise |
| Configurazione.GetValueAgreesWithAllAssoc | app/Models/Configurazione.php:17-27 | with unique keys, `getValue` returns the mapped value when present and the default otherwise |
| ConfigurazioneController.Validate | app/Http/Controllers/ConfigurazioneController.php:20-23 | accepted iff key and value are present, not blank after PHP trim, and at most 100 and 255 characters |
| ConfigurazioneController.Upsert | app/Http/Controllers/ConfigurazioneController.php:24-30 | present key: same length, the first such row takes the value; absent key: exactly one row appended |
| ConfigurazioneController.UpsertKeepsUnique | database/migrations/2025_09_25_000001_create_configurazioni_table.php:12 | upserting keeps the keys unique |
| ConfigurazioneController.AllAssocUniqueChar | app/Models/Configurazione.php:19 | with unique keys, the assoc map is the only map with the table's keys and row values |
| ConfigurazioneController.UpsertIsMapUpdate | app/Http/Controllers/ConfigurazioneController.php:24-30 | seen as a map, `update(k, v)` sets `k` to `v` and leaves every other key alone |
| ConfigurazioneController.UpdateInPlaceMap | app/Http/Controllers/ConfigurazioneController.php:25-27 | the in-place branch as a map update |
| ConfigurazioneController.AppendMap | app/Http/Controllers/ConfigurazioneController.php:28-29 | the create branch as a map update |
| ConfigurazioneController.UpsertIdempotent | app/Http/Controllers/ConfigurazioneController.php:24-30 | storing the same pair twice leaves the table as storing it once |
| ConfigurazioneController.ConfigTable.Show | app/Http/Controllers/ConfigurazioneController.php:11-15 | every row's key with its value, and no other key |
| ConfigurazioneController.ConfigTable.Update | app/Http/Controllers/ConfigurazioneController.php:18-32 | rejected: 422 and unchanged; otherwise 200, the upserted table, and the map updated at exactly that key |
| ConfigurazionePage.FieldLabel | resources/js/pages/configurazione.tsx:88 | the label when the table has a non-empty one, the raw key otherwise |
| ConfigurazionePage.ConcurrencyLabelMissed | resources/js/pages/configurazione.tsx:8-11 | with the table as written, the concurrency setting is shown under its raw key |
| ConfigurazionePage.ConcurrencyLabelShown | resources/js/pages/configurazione.tsx:8-11 | with the corrected table it reads 'Gruppi contemporanei gestibili' |
| ConfigurazionePage.ClientGuardImpliesRequired | resources/js/pages/configurazione.tsx:58 | an input the page lets through (and not holding NUL) passes the server's `required` |
| ConfigurazionePage.AddMirrorsServer | resources/js/pages/configurazione.tsx:63-65 | when the page's map mirrors the table, a successful add keeps it a mirror |
| ConfigurazionePage.ConfigPage.HandleChange | resources/js/pages/configurazione.tsx:33-35 | only the edited key changes in the local map |
| ConfigurazionePage.ConfigPage.HandleAdd | resources/js/pages/configurazione.tsx:56-73 | blank key or value: nothing happens; success: the pair is in the map, the inputs are cleared, success is set; failure: the error is set and the map unchanged; saving ends off |

## Left out

- The HTTP transport: each request is one state transition, and its outcome is
  a parameter.
- The 7-second polling timer: one call of `Tick` stands for one interval tick.
- The parallel saves of "Salva tutte" (`handleSave` with `Promise.all`).
- Rendering: JSX, texts, colours other than the border class, the headlessui
  components, and the navigation components.
- The clock itself: `Date.now()`, date parsing, `setHours(0,0,0,0)`, time zones
  and daylight-saving shifts in the per-day division. Instants are integer
  milliseconds and dates are day numbers.
- NaN and fractional numbers: `Number(...)` is an `Option<int>`, in which an
  unparseable value is None. An undefined `created_at` (NaN) is treated like a
  null one (0).
- Unicode case folding and `localeCompare`: they are the parameters `fold`
  and `collate`. The collation is required to be a total preorder where a sort is
  claimed.
- `trim()` whitespace: only the common space characters are modelled.
- Laravel's request pipeline. This covers:
  - the `StoreGroupRequest` and `UpdateGroupRequest` rules;
  - the TrimStrings and ConvertEmptyStringsToNull middleware.

  Group create and update take already-validated attributes. The server side
  of the waiting and close toggles is not modelled, because the update rules
  do not list `is_waiting` and `is_closed`. As shipped, those rules decide far
  more than the model shows. `validated()` keeps only the keys the rules name.
  The create rules require `start_date` and `end_date`, which the page never
  sends. The update rules leave out the duration, the staff, the friend and
  kid flags and the waiting and closed flags. So `GroupTable.Store` and
  `GroupTable.Update` describe the controller given such attributes, not what
  the API stores for the page's requests.
- Events, staff and staff periods on the server (`EventStaff`, the event and
  staff controllers): only the page-side "current period" test is modelled.
- Database errors on the listing queries (their 500 answer), and the
  `with('staff')` eager loading.
- ConfigurazioneController.Upsert: compares keys by exact string equality. The `where('chiave', …)` lookup and the unique index follow the database collation, which is case-insensitive under MySQL's default, so there a key differing only in letter case updates the existing row where the model appends one.
- Events.FilteredEvents: a location sort is taken to throw as soon as two or more kept events include a null location. The page throws only when the engine's sort passes the null one as the left argument of `localeCompare`, which depends on the engine.
- PublicPage.SortByCreatedAt: proved sorted and a permutation, but not stable. `Array.prototype.sort` is stable, so two groups created in the same second keep their fetched order on the page, which the model leaves open. The functional sort of the other lists is proved stable (`SeqUtil.SortByStable`).
- PublicPage.PublicGroupsPage: each request completes before the next event. This hides two interleavings. First, a first response that arrives after the first 7-second tick never clears `loading`, because the tick has already cleared `firstLoad`. Second, a late response for the previously selected event can overwrite the new event's list.
- ConfigurazionePage.ConfigPage.HandleAdd: the page ships with `isAdmin = false`, which disables the add form, so the sending branch is not reachable from the page as shipped.
- GroupController.GroupTable.Store: keeps the next id on a failure. A rolled-back InnoDB insert still uses up its id.
- Row order for equal ORDER BY keys: the model fixes a stable order that the
  database does not promise.
- GroupController.Index: NULL timestamps are placed first in ascending order
  (and last in descending), as SQLite and MySQL do. Another database may
  differ.
- EventGroupStaff.PivotTable.Store: does not restore a soft-deleted triple,
  because the code cannot (`deleted_at` is not fillable).

## Findings

| source | as written | input that shows it | evidently intended | confidence | as-written member | corrected member |
|---|---|---|---|---|---|---|
| resources/js/pages/groups.tsx:647-652 | expiry for the border ignores `is_waiting`, so a queued group turns red "to call" once its activity length has passed since `updated_at` | waiting, non-friend group of 5 minutes, created and updated at 0, seen at 6 minutes: red border while the timer reads "waiting 6:00"; with a duration of 5–25 minutes on the slider (line 339) a fresh queued group is never orange | red only for a running group whose countdown reads 'Da chiamare'; queued groups go orange after 30 minutes | not executed; medium | Groups.BorderClass, Groups.WaitingGroupTurnsRed, Groups.OrangeUnreachable | Groups.IntendedBorderClass, Groups.IntendedOrangeReachable |
| resources/js/pages/configurazione.tsx:8-11 | the label table's key is `gruppi_contemporanei` | the setting read by the pages, `gruppi_contemporanei_possibili` (public-page.tsx:55, groups.tsx:139), is shown under its raw key | label `gruppi_contemporanei_possibili` as 'Gruppi contemporanei gestibili' | not executed; medium | ConfigurazionePage.ConcurrencyLabelMissed | ConfigurazionePage.ConcurrencyLabelShown |
| resources/js/pages/events.tsx:424-427 | the search reads `e.location.toLowerCase()` although `location` is nullable (StoreEventRequest and UpdateEventRequest accept null, and the add form starts with an empty location, which the server stores as null) | one event named "Fiera" with a null location, search text "x": the name does not match, the location test throws a TypeError and the page fails to render | a null location read as '' (`(e.location ?? '')`), which only the empty search matches | not executed; medium | Events.FilteredEvents, Events.NullLocationThrows | Events.IntendedFilteredEvents |
