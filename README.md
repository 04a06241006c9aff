# Community-day website: admin lists, volunteer sign-up, photo storage, admin session and seeding

This project models, in Dafny, the logic of the event website's admin dashboard and helpers. It has seven parts:

- **Volunteer admin table** (`VolunteersManager.tsx`). It sorts the list by `sort_order`, with a
  missing value counting as 0. It filters case-insensitively, cuts pages of 10 and reorders a page by drag
  and drop. It also deletes, selects, edits and adds rows.
- **Speaker admin table** (`SpeakersManager.tsx`). It works like the volunteer table but does not sort or drag. Its talk
  length falls back to 45 minutes.
- **Public volunteer page** (`Volunteers.tsx`). This covers the form handlers, the submitted payload, the state after a
  submission, and the experience and availability labels.
- **Photo storage** (`storage.ts`). This covers the bucket configuration and the checks an upload must pass. It also covers the
  stored file name and the removal of a file by its URL.
- **Admin session** (`auth.ts`). One browser-local slot is written by login, cleared by logout, and read by
  `getUser` and `isAdmin`.
- **Seeding scripts** (`seed-volunteers.js`, `seed-speakers.js`). They split the seed rows into those already
  stored and those still to insert. Volunteers are inserted in batches of five; speakers in a single insert.

Module layout:

- `Wrappers`, `Lists` and `Text` hold the JavaScript primitives the code relies on. These are `filter`, `slice`,
  `map`, ASCII `toLowerCase`, `includes`, `replace` with a string pattern, `split(sep).pop()` and
  number-to-text rendering.
- `Records` holds the stored records and the shapes sent to the backend.
- `AdminList` holds what both admin tables share: pagination, the selection toggles and the list updates after
  a delete, an edit or an insert.
- The other modules follow the source files one to one.

Where the source changes state, the model does too:

- React component state is a `class` whose methods update its fields.
  - The list a table receives and replaces through `onUpdate` is a field of the class.
  - The computed views are functions that read the fields.
- The seeding loop is a `while` loop proved against specification functions.
- The pure parts (storage, the partition, the labels) are functions.

Every backend call is an input of the operation that makes it. It is either the reply of one call
(`Reply<T>`, a record or what was thrown) or whether a whole `Promise.all` batch succeeded. A browser
`confirm` is an input too.

The code is modelled as written in two places where its behaviour may not be what was meant:

- The "select all" toggle compares the number of selected ids with the number of filtered rows, not the ids
  themselves (`AdminList.ToggleAllComparesLengths`).
- After a failed batch that is not the last one, the volunteer seeding script's success report names rows
  that were not inserted (`SeedVolunteers.ListingWrongAfterEarlyFailure`).

## Model

| member | source | states |
|---|---|---|
| Lists.Filter | project/src/components/Admin/VolunteersManager.tsx:44-49 | the kept elements all pass the test and come from the list; every element that passes is kept |
| Lists.FilterConcat | project/src/components/Admin/SpeakersManager.tsx:20-25 | filtering two lists one after the other is filtering each, so the kept elements stay in list order |
| Lists.FilterCommute | project/src/components/Admin/VolunteersManager.tsx:40-49 | two filters give the same list in either order |
| Lists.FilterSplit | project/scripts/seed-volunteers.js:295-300 | a filter and its negation together hold each element exactly as often as the list |
| Lists.Slice | project/src/components/Admin/VolunteersManager.tsx:53-56 | `slice` clamps both bounds; the result is the run of elements from the lower bound on |
| Text.Lower | project/src/components/Admin/VolunteersManager.tsx:46-48 | lower-casing keeps the length and lower-cases each ASCII letter |
| Text.LowerIdempotent | project/src/components/Admin/VolunteersManager.tsx:46-48 | lower-casing twice is lower-casing once |
| Text.IncludesIff | project/src/components/Admin/VolunteersManager.tsx:46-48 | `includes` holds exactly when the term occurs at some index |
| Text.FirstOccurrence | project/src/pages/Volunteers.tsx:219 | the index found is an occurrence and no earlier index is one |
| Text.ReplaceFirstAbsent | project/src/pages/Volunteers.tsx:219 | `replace` leaves a string without the pattern unchanged |
| Text.ReplaceFirstOccurrence | project/src/pages/Volunteers.tsx:219 | when the pattern occurs, `replace` swaps its first occurrence, and only that one, for the replacement |
| Text.ReplaceWhole | project/src/pages/Volunteers.tsx:230-232 | a helper step for the availability labels: a string that is exactly the pattern becomes the replacement |
| Text.ReplaceFirstAt | project/src/pages/Volunteers.tsx:219 | an occurrence whose first character appears nowhere earlier is the one replaced |
| Text.FirstCharAbsent | project/src/pages/Volunteers.tsx:230-232 | a pattern whose first character is not in the string does not occur in it |
| Text.LastSegment | project/src/lib/storage.ts:52 | the result is a suffix holding no separator, preceded by a separator unless it is the whole string |
| Text.LastSegmentOfPlain | project/src/lib/storage.ts:52 | a string without the separator is its own last segment |
| Text.LastSegmentAfter | project/src/lib/storage.ts:83 | after a separator and separator-free text, that text is the last segment |
| Text.IntOr | project/src/lib/storage.ts:18 | `parseInt(v) \|\| d` gives the number read unless it is NaN or 0, then `d` |
| Text.StringOr | project/src/lib/storage.ts:17 | `v \|\| d` gives the value unless it is missing or empty, then `d` |
| Text.NatToDecimal | project/src/lib/storage.ts:53 | the rendering is a non-empty string of digits without a leading zero |
| Text.DecimalRoundTrip | project/src/lib/storage.ts:53 | reading a rendered number back gives the number |
| Text.IntToDecimal | project/src/lib/storage.ts:48 | the rendering starts with a minus sign exactly for a negative number, and the digits after it read back as the magnitude |
| AdminList.TotalPages | project/src/components/Admin/VolunteersManager.tsx:51 | the page count is the least count whose pages of 10 hold all rows, and is 0 only for no rows |
| AdminList.PageOf | project/src/components/Admin/VolunteersManager.tsx:52-56 | page `p` holds at most 10 rows, namely rows `(p-1)*10` onward; it is full when enough rows follow; it is non-empty exactly when `p` is at most the page count |
| AdminList.PagesCoverRows | project/src/components/Admin/VolunteersManager.tsx:51-56 | the pages, one after the other, are the filtered rows |
| AdminList.PagesCoverSuffix | project/src/components/Admin/VolunteersManager.tsx:51-56 | the pages from `p` on are the rows from `(p-1)*10` on |
| AdminList.ToggleId | project/src/components/Admin/VolunteersManager.tsx:124-128 | the id's membership flips; an absent id is appended at the end; a present one is removed with all its copies; other ids keep their counts |
| AdminList.RemoveCounts | project/src/components/Admin/VolunteersManager.tsx:126 | filtering out an id leaves no copy of it and keeps the count of every other id |
| AdminList.ToggleTwiceRestores | project/src/components/Admin/VolunteersManager.tsx:124-128 | ticking an unselected row twice restores the selection |
| AdminList.ToggleAll | project/src/components/Admin/VolunteersManager.tsx:130-136 | the result is either no ids or all filtered ids; the header box ends up ticked exactly when it was not ticked and some row is shown |
| AdminList.ToggleAllComparesLengths | project/src/components/Admin/VolunteersManager.tsx:130-135 | a selection as long as the filtered ids is cleared even when it holds ids outside the view |
| AdminList.WithoutIds | project/src/components/Admin/VolunteersManager.tsx:111 | the rows whose key is not deleted are kept, each as often as before; the deleted ones are gone |
| AdminList.WithoutNothing | project/src/components/Admin/VolunteersManager.tsx:94 | deleting no ids keeps the list |
| AdminList.ReplaceId | project/src/components/Admin/VolunteersManager.tsx:153 | the length is kept; exactly the rows with the edited id are replaced by the returned record |
| AdminList.Prepend | project/src/components/Admin/VolunteersManager.tsx:169 | the created record comes first and the old list follows unchanged |
| VolunteersManager.InsertByOrder | project/src/components/Admin/VolunteersManager.tsx:40-42 | inserting into a sorted list keeps it sorted and adds exactly that row |
| VolunteersManager.SortByOrder | project/src/components/Admin/VolunteersManager.tsx:40-42 | the sorted copy is non-decreasing in `sort_order`, with missing counting as 0, and is a permutation of the list |
| VolunteersManager.InsertKeepsTies | project/src/components/Admin/VolunteersManager.tsx:40-42 | inserting a row does not reorder the rows with any given `sort_order` |
| VolunteersManager.SortIsStable | project/src/components/Admin/VolunteersManager.tsx:40-42 | rows with equal `sort_order` keep their relative order (the sort is stable) |
| VolunteersManager.FilterKeepsOrder | project/src/components/Admin/VolunteersManager.tsx:44 | filtering a sorted list keeps it sorted |
| VolunteersManager.FilteredView | project/src/components/Admin/VolunteersManager.tsx:40-49 | the view is sorted; its rows are rows of the list whose name, email or role contains the term, ignoring case, and every such row is in it |
| VolunteersManager.FilteredViewExact | project/src/components/Admin/VolunteersManager.tsx:40-49 | the view holds each matching row exactly as often as the list does and no other row, and rows with equal `sort_order` keep their order in the list |
| VolunteersManager.ArrayMove | project/src/components/Admin/VolunteersManager.tsx:65 | a permutation of the page; the dragged row sits at the target index; the other rows keep their relative order |
| VolunteersManager.IndexOfId | project/src/components/Admin/VolunteersManager.tsx:62-63 | `findIndex`: the first row with the id, or none exactly when no row has it |
| VolunteersManager.IndexOfDistinct | project/src/components/Admin/VolunteersManager.tsx:79 | in a list of distinct ids, looking a row's id up gives its own index |
| VolunteersManager.OrderUpdates | project/src/components/Admin/VolunteersManager.tsx:68-73 | one update per reordered row, in order; row `i` gets `sort_order` `start + i + 1` |
| VolunteersManager.Reconcile | project/src/components/Admin/VolunteersManager.tsx:76-81 | the length and order are kept; only `sort_order` can change; rows off the page are unchanged; with distinct ids, the row at reordered position `k` gets `start + k + 1` |
| VolunteersManager.DistinctCons | project/src/components/Admin/VolunteersManager.tsx:62-63 | a list headed by a row has distinct ids exactly when the rest does and does not repeat the head's id |
| VolunteersManager.DistinctAtMostOnce | project/src/components/Admin/VolunteersManager.tsx:62-63 | a list with distinct ids holds each row at most once |
| VolunteersManager.SameAtTwoPositions | project/src/components/Admin/VolunteersManager.tsx:65 | a row found at two positions occurs at least twice |
| VolunteersManager.DistinctPermutation | project/src/components/Admin/VolunteersManager.tsx:65 | a permutation of a list with distinct ids has distinct ids |
| VolunteersManager.DistinctFilter | project/src/components/Admin/VolunteersManager.tsx:44-49 | filtering keeps ids distinct |
| VolunteersManager.DistinctPage | project/src/components/Admin/VolunteersManager.tsx:40-56 | every displayed page of a list with distinct ids has distinct ids |
| VolunteersManager.ReorderNumbersPage | project/src/components/Admin/VolunteersManager.tsx:69-81 | after a drag on a page with distinct ids, the reordered rows carry `sort_order` `start+1 .. start+k` in their new order |
| VolunteersManager.DistinctMoved | project/src/components/Admin/VolunteersManager.tsx:62-65 | the displayed page and its reordering keep the list's distinct ids |
| VolunteersManager.Manager.constructor | project/src/components/Admin/VolunteersManager.tsx:32-38 | the table starts on page 1 with no search, no selection and no dialog open |
| VolunteersManager.Manager.Search | project/src/components/Admin/VolunteersManager.tsx:212 | typing replaces the search term |
| VolunteersManager.Manager.PreviousPage | project/src/components/Admin/VolunteersManager.tsx:289 | `Math.max(1, page - 1)` |
| VolunteersManager.Manager.NextPage | project/src/components/Admin/VolunteersManager.tsx:280-300 | offered only with more than one page: `Math.min(totalPages, page + 1)` |
| VolunteersManager.Manager.HandleDragEnd | project/src/components/Admin/VolunteersManager.tsx:58-88 | with no target, or a drop onto itself, nothing is sent and nothing changes; otherwise the page is reordered, one update per row is sent, and the list is reconciled only if all of them succeed |
| VolunteersManager.Manager.SendOrder | project/src/components/Admin/VolunteersManager.tsx:67-84 | one update per reordered row numbered from the page start; the list is reconciled only when the whole batch succeeds, otherwise left as it was |
| VolunteersManager.Manager.DeleteVolunteer | project/src/components/Admin/VolunteersManager.tsx:90-104 | a delete is requested only when confirmed; the row leaves the list only on success |
| VolunteersManager.Manager.DeleteSelected | project/src/components/Admin/VolunteersManager.tsx:106-122 | with no selection, nothing happens; otherwise, when confirmed, every selected id is requested; only if all succeed are exactly those rows dropped and the selection cleared |
| VolunteersManager.Manager.ToggleSelect | project/src/components/Admin/VolunteersManager.tsx:124-128 | the selection becomes the toggled selection |
| VolunteersManager.Manager.ToggleSelectAll | project/src/components/Admin/VolunteersManager.tsx:130-136 | the selection becomes the select-all toggle over the filtered ids |
| VolunteersManager.Manager.UpdateVolunteer | project/src/components/Admin/VolunteersManager.tsx:138-163 | the patch holds only name, photo and LinkedIn URL; on success, exactly the row with that id is replaced by the returned record and the dialog closes; on failure, nothing changes |
| VolunteersManager.Manager.AddVolunteer | project/src/components/Admin/VolunteersManager.tsx:165-180 | the draft is sent unchanged; on success, the created record goes first and the dialog closes; on failure, nothing changes |
| SpeakersManager.FilteredView | project/src/components/Admin/SpeakersManager.tsx:20-25 | exactly the speakers whose name, organization or talk title contains the term, ignoring case; no speaker appears more often than in the list |
| SpeakersManager.FilteredKeepsOrder | project/src/components/Admin/SpeakersManager.tsx:20-25 | there is no sorting: the view keeps the list's order |
| SpeakersManager.EmptyTermKeepsAll | project/src/components/Admin/SpeakersManager.tsx:20-25 | with an empty search, every speaker is shown, in order |
| SpeakersManager.TalkLength | project/src/components/Admin/SpeakersManager.tsx:465 | a talk length that does not parse, or parses to 0, becomes 45; any other number is kept; the length is never 0 |
| SpeakersManager.NewSpeakerForm | project/src/components/Admin/SpeakersManager.tsx:498-510 | the add dialog opens with empty texts, a 45-minute talk and no `sort_order` |
| SpeakersManager.PatchOf | project/src/components/Admin/SpeakersManager.tsx:84-96 | the patch carries the edited name, title, organization, talk title, abstract, photo, LinkedIn URL and talk length |
| SpeakersManager.EditKeepsUnsentColumns | project/src/components/Admin/SpeakersManager.tsx:84-96 | saving an edit keeps `id`, `bio`, `track`, `twitter_url`, `github_url` and `sort_order` as stored, and takes every other column from the dialog |
| SpeakersManager.Manager.constructor | project/src/components/Admin/SpeakersManager.tsx:14-18 | the table starts on page 1 with no search, no selection and no dialog open |
| SpeakersManager.Manager.Search | project/src/components/Admin/SpeakersManager.tsx:152 | typing replaces the search term |
| SpeakersManager.Manager.PreviousPage | project/src/components/Admin/SpeakersManager.tsx:255 | `Math.max(1, page - 1)` |
| SpeakersManager.Manager.NextPage | project/src/components/Admin/SpeakersManager.tsx:246-266 | offered only with more than one page: `Math.min(totalPages, page + 1)` |
| SpeakersManager.Manager.DeleteSpeaker | project/src/components/Admin/SpeakersManager.tsx:34-48 | a delete is requested only when confirmed; the row leaves the list only on success |
| SpeakersManager.Manager.DeleteSelected | project/src/components/Admin/SpeakersManager.tsx:50-66 | with no selection, nothing happens; otherwise, when confirmed, every selected id is requested; only if all succeed are exactly those rows dropped and the selection cleared |
| SpeakersManager.Manager.ToggleSelect | project/src/components/Admin/SpeakersManager.tsx:68-72 | the selection becomes the toggled selection |
| SpeakersManager.Manager.ToggleSelectAll | project/src/components/Admin/SpeakersManager.tsx:74-80 | the selection becomes the select-all toggle over the filtered ids |
| SpeakersManager.Manager.UpdateSpeaker | project/src/components/Admin/SpeakersManager.tsx:82-107 | sends the restricted patch; on success, exactly the row with that id is replaced and the dialog closes; on failure, nothing changes |
| SpeakersManager.Manager.AddSpeaker | project/src/components/Admin/SpeakersManager.tsx:109-122 | the draft is sent unchanged; on success, the created record goes first and the dialog closes; on failure, nothing changes |
| VolunteerSignup.EmptyForm | project/src/pages/Volunteers.tsx:44-52 | every text field is empty and no day is ticked |
| VolunteerSignup.WithField | project/src/pages/Volunteers.tsx:71-78 | the named field takes the value; every other field, the days included, is unchanged |
| VolunteerSignup.WithAvailabilityToggled | project/src/pages/Volunteers.tsx:80-87 | a ticked day is removed, an unticked one is appended at the end, other days keep their counts, and the text fields are unchanged |
| VolunteerSignup.TickTwiceRestores | project/src/pages/Volunteers.tsx:80-87 | ticking an unticked day twice restores the form |
| VolunteerSignup.NullIfEmpty | project/src/pages/Volunteers.tsx:98 | `value \|\| null`: null exactly for the empty string, otherwise the string itself |
| VolunteerSignup.ApplicationOf | project/src/pages/Volunteers.tsx:95-103 | an empty phone and an empty experience level become null; the other fields are copied verbatim |
| VolunteerSignup.ApplicationRoundTrip | project/src/pages/Volunteers.tsx:95-103 | reading the payload back gives the form: nothing is lost |
| VolunteerSignup.ErrorText | project/src/pages/Volunteers.tsx:118 | the error's message, or "An error occurred" for a thrown non-`Error` |
| VolunteerSignup.UpperKeepsWordChar | project/src/pages/Volunteers.tsx:220 | upper-casing does not change whether a character is a word character |
| VolunteerSignup.CapitalizeWordsSpec | project/src/pages/Volunteers.tsx:220 | only word-initial characters change; they end up not lower-case; the text is the same up to case |
| VolunteerSignup.CapitalizeWordsIdempotent | project/src/pages/Volunteers.tsx:220 | capitalizing twice is capitalizing once |
| VolunteerSignup.ExperienceLabelFirstTime | project/src/pages/Volunteers.tsx:218-220 | "first-time" is shown as "First Time" |
| VolunteerSignup.ExperienceLabelEventOrganizer | project/src/pages/Volunteers.tsx:218-220 | "event-organizer" is shown as "Event Organizer" |
| VolunteerSignup.ExperienceLabelExperienced | project/src/pages/Volunteers.tsx:451-453 | "experienced" is shown as "Experienced" |
| VolunteerSignup.FirstDashToSpace | project/src/pages/Volunteers.tsx:219 | replacing the first dash puts a space at its index and changes no other character |
| VolunteerSignup.CapitalizeFirstTime | project/src/pages/Volunteers.tsx:220 | "first time" capitalizes to "First Time" |
| VolunteerSignup.CapitalizeEventOrganizer | project/src/pages/Volunteers.tsx:220 | "event organizer" capitalizes to "Event Organizer" |
| VolunteerSignup.CapitalizeExperienced | project/src/pages/Volunteers.tsx:220 | "experienced" capitalizes to "Experienced" |
| VolunteerSignup.AvailabilityLabelOfEventDay | project/src/pages/Volunteers.tsx:229-232 | "Event Day (Dec 13)" is shown as "Event Day" |
| VolunteerSignup.AvailabilityLabelOfDayBefore | project/src/pages/Volunteers.tsx:229-232 | "Day Before (Dec 12)" is shown as "Setup" |
| VolunteerSignup.AvailabilityLabelOfDayAfter | project/src/pages/Volunteers.tsx:462-465 | "Day After (Dec 14)" is shown as "Cleanup" |
| VolunteerSignup.AvailabilityLabelOfOther | project/src/pages/Volunteers.tsx:229-232 | a day containing none of the three labels is shown unchanged |
| VolunteerSignup.SignupPage.constructor | project/src/pages/Volunteers.tsx:42-55 | the page starts with no volunteers, still loading, an empty form and no message |
| VolunteerSignup.SignupPage.Load | project/src/pages/Volunteers.tsx:57-69 | the list becomes the loaded list, or stays empty on failure; loading ends either way |
| VolunteerSignup.SignupPage.HandleChange | project/src/pages/Volunteers.tsx:71-78 | the form becomes the form with the named field set |
| VolunteerSignup.SignupPage.HandleCheckboxChange | project/src/pages/Volunteers.tsx:80-87 | the form becomes the form with the day toggled |
| VolunteerSignup.SignupPage.HandleSubmit | project/src/pages/Volunteers.tsx:89-122 | the payload of the current form is sent. On success, the created volunteer is prepended, the confirmation shows, the form is reset and no error remains. On failure, the error text is set and the list, form and confirmation are unchanged. Loading is false on both paths |
| Storage.Config | project/src/lib/storage.ts:9-31 | exactly the three buckets are configured, each with its name and size limit or the defaults, and "jpg" |
| Storage.DefaultLimits | project/src/lib/storage.ts:16-30 | missing, non-numeric or 0 limits give 50, 100 and 200 KB; every bucket's default extension is "jpg" |
| Storage.CheckUpload | project/src/lib/storage.ts:38-49 | unknown bucket, then non-image, then too large, each with its message; the upload is allowed exactly when all three pass, and a size equal to the limit passes |
| Storage.SixtyKilobytesRefused | project/src/lib/storage.ts:47-49 | a 60 KB image for volunteers under the default limit fails with "File size must be less than 50KB" |
| Storage.FileExtension | project/src/lib/storage.ts:51-52 | the lower-cased text after the last "." (the whole name when there is none), or the default when that is empty |
| Storage.LastSegmentOfPlainIfNoDot | project/src/lib/storage.ts:52 | a name without "." is its own extension text |
| Storage.StoredName | project/src/lib/storage.ts:53 | `entityId-now.ext` |
| Storage.StoredNameKeepsExtension | project/src/lib/storage.ts:51-53 | the extension read back from a stored name is the one it was built with |
| Storage.UploadFile | project/src/lib/storage.ts:33-72 | a failed check writes nothing and returns its message. Otherwise the stored name is written to the configured bucket. The result is "Upload failed: " plus the backend message, or the public URL |
| Storage.DeleteFile | project/src/lib/storage.ts:74-87 | an empty URL, an unknown bucket or an empty last "/" segment removes nothing; otherwise exactly that segment is removed from the bucket |
| Storage.StoredNameSlashFree | project/src/lib/storage.ts:53 | a stored name has no "/" when neither the id nor the extension has one |
| Storage.DeleteRemovesUploaded | project/src/lib/storage.ts:74-87 | deleting through the public URL of an upload removes exactly the object the upload wrote |
| Auth.MatchingRows | project/src/lib/auth.ts:9-15 | exactly the rows with the email, the password and role "admin" |
| Auth.Lookup | project/src/lib/auth.ts:9-19 | `.single()` yields a row exactly when the query is answered with exactly one match, and that row matches |
| Auth.LoginStep | project/src/lib/auth.ts:6-27 | a row xor an error. Success stores the matched row. A thrown error says "Login failed" and a failed lookup "Invalid credentials"; neither touches the slot |
| Auth.UserOf | project/src/lib/auth.ts:34-41 | the stored record, or nothing for an empty or unparsable slot |
| Auth.LoginMakesAdmin | project/src/lib/auth.ts:14-23 | after a successful login, an admin is signed in as the row that matched |
| Auth.AllSameCount | project/src/lib/auth.ts:15 | a sequence of one repeated value holds it as often as it is long |
| Auth.UniqueAdminLogsIn | project/src/lib/auth.ts:9-23 | a unique matching admin row logs in and is stored |
| Auth.DuplicateCredentialsRefused | project/src/lib/auth.ts:9-19 | two matching rows make the login fail with "Invalid credentials", and the slot is unchanged |
| Auth.MatchingRowsSplit | project/src/lib/auth.ts:9-15 | two matching rows give at least two matches |
| Auth.AdminAuth.Login | project/src/lib/auth.ts:6-27 | the slot and reply follow the login step; on success, `isAdmin` holds and `getUser` gives the returned row |
| Auth.AdminAuth.Logout | project/src/lib/auth.ts:29-32 | the slot is emptied whatever it held, so logging out is idempotent; no error is returned and `isAdmin` no longer holds |
| Auth.AdminAuth.GetUser | project/src/lib/auth.ts:34-41 | the user read from the slot |
| Auth.AdminAuth.IsAdmin | project/src/lib/auth.ts:43-46 | holds exactly when a user is stored and their role is "admin" |
| Seeding.Partition | project/scripts/seed-volunteers.js:294-300 | existing rows have a found key; new rows do not; together they hold each seed row exactly as often as the seed list |
| Seeding.PartitionDisjointCover | project/scripts/seed-volunteers.js:294-300 | no row is in both groups, and every seed row is in one |
| Seeding.PartitionKeepsOrder | project/scripts/seed-speakers.js:89-93 | both groups keep seed order |
| Seeding.NoDataAllNew | project/scripts/seed-volunteers.js:286-300 | a lookup that returned no data makes every seed row new and none existing |
| SeedVolunteers.BatchAt | project/scripts/seed-volunteers.js:320 | batch `b` has at most 5 rows, taken from row `5b` onward |
| SeedVolunteers.BatchCount | project/scripts/seed-volunteers.js:319 | the loop runs `ceil(n/5)` times |
| SeedVolunteers.Batches | project/scripts/seed-volunteers.js:319-320 | one batch per loop iteration |
| SeedVolunteers.BatchesNonEmpty | project/scripts/seed-volunteers.js:319-320 | every batch sent has 1 to 5 rows |
| SeedVolunteers.JoinedPrefix | project/scripts/seed-volunteers.js:319-320 | the first `b` batches, one after the other, are the first `5b` rows |
| SeedVolunteers.BatchesCoverRows | project/scripts/seed-volunteers.js:316-320 | the batches cover the new rows in order, each exactly once |
| SeedVolunteers.InsertedCount | project/scripts/seed-volunteers.js:317-331 | `insertedCount` is at most the number of new rows |
| SeedVolunteers.InsertedRowsUpTo | project/scripts/seed-volunteers.js:322-331 | the rows really inserted are as many as `insertedCount` |
| SeedVolunteers.InsertedUpToBound | project/scripts/seed-volunteers.js:317-331 | after `b` batches, the count is at most the rows sent, and equals them exactly when none of those batches failed |
| SeedVolunteers.InsertedCountBound | project/scripts/seed-volunteers.js:317-335 | `insertedCount` equals the number of new rows exactly when every batch succeeded |
| SeedVolunteers.AllSucceedInsertsAll | project/scripts/seed-volunteers.js:322-331 | when every batch succeeds, the rows inserted are the batches sent |
| SeedVolunteers.ListingRightWhenAllSucceed | project/scripts/seed-volunteers.js:335-338 | when every batch succeeds, the report lists exactly the rows inserted |
| SeedVolunteers.ListingWrongAfterEarlyFailure | project/scripts/seed-volunteers.js:336-338 | with six new rows, a failed first batch and a successful second, the report lists row 0 though row 5 was inserted |
| SeedVolunteers.Seed | project/scripts/seed-volunteers.js:283-342 | partitions by email. With nothing new, nothing is sent. Otherwise every batch is sent, a failed one is skipped, `insertedCount` is the sum over successful batches, and the report lists the first `insertedCount` new rows |
| SeedSpeakers.Seed | project/scripts/seed-speakers.js:78-122 | partitions by name. Exactly one insert of all new speakers, in order, is issued when there are any, and none otherwise. An insert error ends the run without a report |
| SeedSpeakers.NoDataInsertsAll | project/scripts/seed-speakers.js:81-108 | a lookup that returned no data inserts every seed speaker, in seed order |

## Left out

- The backend calls are not modelled; each one is an input of the operation that makes it. This covers the `speakersApi` and `volunteersApi` wrappers and the hosted backend's query, insert, update, storage and public-URL services. Their answers are `Reply<T>`, a success flag, the email or name lookup result, or a per-batch success function. `SpeakersManager.ApplyPatch` states what the backend is expected to do with a patch; it is not the backend's code.
- `Promise.all` batches are not modelled as concurrent calls. A batch is either wholly successful or failed. No interleaving and no partial remote effect is modelled.
- The drag mechanics of the drag-and-drop library are not modelled. `HandleDragEnd` requires that both ids belong to the displayed page, which is what the library reports. `arrayMove` is written out directly.
- `parseInt` is not modelled: its result is an input, `None` for NaN. Non-integer numbers and numeric text in `sort_order` are not modelled; `sort_order` is an optional integer.
- `toLowerCase` and `toUpperCase` cover ASCII letters only. Unicode case mapping is not modelled.
- `Date.now()` is the parameter `now`, and `JSON.stringify`/`JSON.parse` of the session is the `Parsed`/`Unparsable` distinction. `localStorage` is the single `admin_session` slot.
- `BUCKET_CONFIGS` is modelled as holding exactly its three keys. A key inherited from the object prototype, such as `"toString"`, would pass the lookup in JavaScript; it is not modelled.
- Rendering, routing, `alert`, `console` output, spinners other than the sign-up page's `loading`, and the photo-upload handlers inside the edit and add dialogs are not modelled. Those handlers call the modelled `UploadFile`. The dialogs' per-field edit handlers are plain object spreads and are not modelled.
- The admin login screen's follow-up `isAdmin` check and the `add-speaker.js` script are not part of this model. Nor are the other pages.
- The seed data lists themselves are not modelled; the seed rows are a parameter. A lookup or insert that throws, which ends the scripts through their outer `catch`, is not modelled.
- `VolunteersManager.Manager.HandleDragEnd`: its `ensures` ties the new list to `Reconcile` but does not itself restate that the page gets consecutive numbers. That consecutive numbering is the separate lemma `VolunteersManager.ReorderNumbersPage`, under distinct ids. With repeated ids, `indexOf` finds the first copy, and the numbering is only what `Reconcile` states.
- The `abstract` column is called `talk_abstract` in the model because `abstract` is a Dafny keyword.
