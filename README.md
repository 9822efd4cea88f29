# Memory-aid dashboard panels, modelled in Dafny

This project models the state logic of three panels of a memory-aid dashboard:

- **Reminders.** The list of today's reminders. Ticking one off updates the list at once (optimistically). That update is rolled back when the server refuses the change or the call fails. A form creates new reminders. Below the list sit the "Done" and "Remaining" counters and the "All reminders completed!" banner. The badge colour of a priority is also modelled.
- **Daily journal.** The activities logged for the selected date. A form adds a new entry. The new list is re-sorted by time of day, and the form goes back to its defaults. The panel shows the Social, Meals and Happy counters and the colour or emoji a mood or an activity type is shown with.
- **Face recognition.** A photo is accepted only when it is an image of at most 5 MiB. A three-state mode (none, recognise, add) moves between its states. A recognition request and an add-person request each have a guard. The recognition message is built segment by segment.

Each panel is a Dafny `class` whose fields are the component's state variables. Each event handler is a method that changes those fields. The pure helpers (colour switches, counters, the validator, the message text) are functions, and lemmas state what the components promise of them. A call to the remote API is not made. Its outcome is a parameter of the handler instead:

- `Reply<T>`: a success carrying the returned record, a refusal with a message, or a thrown exception.
- `RecognizeReply` plays the same part for face recognition.

The request a handler would send is returned as an `Option` out-parameter, where `None` means no request was made. The texts the face-recognition panel hands to its `onResult` callback are returned as `notices`, because the recognition message is one of them.

Files:

- `common.dfy`: `Option`, `Reply`, and `Filter` with its counting lemmas.
- `text.dfy`:
  - JavaScript's `trim` (the ECMAScript white-space and line-terminator characters), "blank";
  - `startsWith`;
  - the code-point order of strings standing in for `localeCompare`;
  - the decimal rendering of a whole number.
- `reminders.dfy`, `journal.dfy`, `face_recognition.dfy`: one per component.

## Model

| member | source | states |
|---|---|---|
| Common.Filter | reminders-system.tsx:149 | `filter` keeps only elements of the input that satisfy the predicate, never more than the input has |
| Common.FilterKeepsEveryMatch | daily-journal.tsx:220 | the filter keeps every element that satisfies the predicate as often as it occurs and no other, so each counter counts every matching element |
| Common.FilterKeepsAll | reminders-system.tsx:149-150 | the filter keeps as many elements as the input has exactly when every element satisfies the predicate |
| Common.FilterComplement | reminders-system.tsx:197 | filtering by a predicate and by its negation partitions the list: the two counts add up to its length |
| Text.TrimStart | reminders-system.tsx:118 | the result is the suffix of the input after its leading whitespace, and starts with a non-whitespace character |
| Text.TrimEnd | reminders-system.tsx:118 | the result is the prefix of the input before its trailing whitespace, and ends with a non-whitespace character |
| Text.LeadingWhitespace | reminders-system.tsx:118 | the count of whitespace characters the string starts with: all of them are whitespace and the next one is not |
| Text.Trim | reminders-system.tsx:118 | `trim()`: the slice of the input that starts right after its leading whitespace and is followed only by whitespace, neither end of a non-empty result being whitespace |
| Text.TrimEmptyIffBlank | daily-journal.tsx:140 | `!s.trim()` holds exactly when `s` is blank |
| Text.BlankIffAllWhitespace | daily-journal.tsx:319 | a string is blank exactly when every character of it is whitespace |
| Text.LexLeReflexive | daily-journal.tsx:153 | the time order compares a string as not later than itself |
| Text.LexLeTotal | daily-journal.tsx:153 | any two time strings are comparable |
| Text.LexLeTransitive | daily-journal.tsx:153 | the time order is transitive |
| Text.LexLeAntisymmetric | daily-journal.tsx:153 | two strings each not later than the other are equal |
| Text.DigitChar | face-recognition.tsx:141 | a digit below ten is rendered as the digit character of that value |
| Text.NatToString | face-recognition.tsx:141 | a whole number is rendered as a non-empty string of digits without a leading zero |
| Text.DecimalRoundTrip | face-recognition.tsx:141 | reading the rendering back gives the number, so distinct numbers render differently |
| Reminders.PriorityVariant | reminders-system.tsx:76-87 | "high" gives "destructive", "low" gives "secondary", and every other priority, "medium" included, gives "default" |
| Reminders.FirstIndexOf | reminders-system.tsx:90 | the position of the first reminder with the id, every earlier one having another id; the length when there is none |
| Reminders.FindById | reminders-system.tsx:90-91 | `find` comes back empty exactly when no reminder has the id, and otherwise returns the first reminder of the list with that id: every earlier reminder has another id |
| Reminders.SetCompleted | reminders-system.tsx:96 | exactly the reminders with the id get the new flag and nothing else changes; length and order are kept |
| Reminders.CompletedCount | reminders-system.tsx:149-150 | `completedCount` is at most `totalCount` |
| Reminders.RemainingCount | reminders-system.tsx:197 | "Remaining" is the number of unticked reminders, never negative, and adds up with "Done" to the total |
| Reminders.ShowsAllDone | reminders-system.tsx:362 | the banner shows exactly when the list is non-empty and every reminder is ticked off |
| Reminders.SetCompletedTwice | reminders-system.tsx:104-111 | a second update of the same id overrides the first |
| Reminders.SetCompletedAgreeing | reminders-system.tsx:104-111 | writing the flag every reminder with the id already has leaves the list unchanged |
| Reminders.ToggleThenRevertIsIdentity | reminders-system.tsx:93-114 | with unique ids, the optimistic toggle followed by the rollback gives back the original list |
| Reminders.RevertRestoresAgreeing | reminders-system.tsx:104-114 | without unique ids, the rollback restores a reminder exactly when it has another id or the same flag as the first match |
| Reminders.RevertWithDuplicateIds | reminders-system.tsx:104-114 | a concrete two-reminder case: two reminders sharing an id with different flags are not both restored by a failed toggle |
| Reminders.ToggleFlipsExactlyOne | reminders-system.tsx:93-103 | with unique ids, the kept optimistic update flips exactly one reminder, the one with the id, and no other |
| Reminders.SetCompletedAbsent | reminders-system.tsx:96 | a map over a list without the id leaves it unchanged |
| Reminders.SetCompletedCount | reminders-system.tsx:96 | with unique ids, setting the flag moves "Done" by the difference between the new and the old flag |
| Reminders.ToggleMovesCountByOne | reminders-system.tsx:93-103 | with unique ids, a kept toggle moves "Done" up by one for an open reminder and down by one for a done one |
| Reminders.RemindersPanel.constructor | reminders-system.tsx:19-30 | the panel starts with no reminders, the default form (type "medication", priority "medium"), the form closed and nothing in flight |
| Reminders.RemindersPanel.SubmitDisabled | reminders-system.tsx:287 | the button is disabled exactly when a create is in flight or the title or the time is all whitespace |
| Reminders.RemindersPanel.ToggleComplete | reminders-system.tsx:89-115 | an unknown id sends nothing and changes nothing; otherwise the flipped flag is sent, kept on success and rolled back on a refusal or an exception (restoring the list when ids are unique); the form is untouched |
| Reminders.RemindersPanel.CreateReminder | reminders-system.tsx:117-147 | a blank title or time sends nothing and changes nothing; otherwise the form is sent; success appends the returned reminder at the end, resets the form and closes it; failure keeps list and form; `creating` ends false |
| Journal.MoodColor | daily-journal.tsx:94-104 | the gray class goes exactly to moods other than "happy" and "sad", the missing mood included |
| Journal.MoodEmoji | daily-journal.tsx:106-116 | the neutral face goes exactly to moods other than "happy" and "sad", the missing mood included |
| Journal.MissingMoodLooksNeutral | daily-journal.tsx:94-116 | a missing mood gets the same class and emoji as "neutral" |
| Journal.TypeColor | daily-journal.tsx:118-137 | the gray default goes exactly to types outside the seven known ones |
| Journal.KnownKindsHaveDistinctColors | daily-journal.tsx:118-137 | the seven known types get seven different classes |
| Journal.SocialCount | daily-journal.tsx:417 | the "Social" counter is at most the number of entries |
| Journal.MealCount | daily-journal.tsx:422 | the "Meals" counter is at most the number of entries |
| Journal.HappyCount | daily-journal.tsx:426 | the "Happy" counter, also the "Happy Moments" badge of line 220, is at most the number of entries |
| Journal.SocialCountSplits | daily-journal.tsx:417 | "Social" is the number of social entries plus call entries plus visit entries |
| Journal.MealCountIsKindCount | daily-journal.tsx:422 | "Meals" is the number of meal entries |
| Journal.InsertByTime | daily-journal.tsx:153 | inserting gives the same entries plus the new one |
| Journal.FirstLater | daily-journal.tsx:153 | the position of the first entry later than the new one: every entry before it is not later, the one at it is later |
| Journal.InsertByTimePosition | daily-journal.tsx:153 | the insertion places the new entry right before the first later entry, after every earlier entry and every entry with the same time, the others keeping their order |
| Journal.InsertKeepsSorted | daily-journal.tsx:153 | inserting into a time-ordered list keeps it time-ordered |
| Journal.SortByTime | daily-journal.tsx:153 | the sort returns the same entries (as a multiset) in non-decreasing order of `time` |
| Journal.InsertLastIsAppend | daily-journal.tsx:153 | an entry no earlier than every other goes to the end |
| Journal.SortSortedIsIdentity | daily-journal.tsx:153 | sorting a time-ordered list leaves it as it is, equal times included |
| Journal.CreateIntoSortedInserts | daily-journal.tsx:153 | on a time-ordered list, append-then-sort equals the insertion, which puts the new entry right before the first entry later than it, after equal times, and keeps every other entry in place |
| Journal.JournalPanel.constructor | daily-journal.tsx:31-44 | the panel opens on the given date with no entries, the default form (type "social", mood "neutral"), the form closed and nothing in flight |
| Journal.JournalPanel.SubmitDisabled | daily-journal.tsx:319 | the button is disabled exactly when a create is in flight or the activity or the time is all whitespace |
| Journal.JournalPanel.CreateEntry | daily-journal.tsx:139-173 | a blank activity or time sends nothing and changes nothing; otherwise the form is sent with the selected date; success replaces the list by the sorted list with the new entry, which is in time order, holds the old entries plus the new one and is one longer, and resets and closes the form; failure keeps list and form |
| FaceRecognition.FileError | face-recognition.tsx:62-78 | a file is accepted exactly when its type starts with "image/" and it is at most 5 MiB; a non-image gets the type error whatever its size; an image that is too large gets the size error |
| FaceRecognition.SizeLimitBoundary | face-recognition.tsx:72-75 | an image of exactly 5242880 bytes passes and one of 5242881 bytes gets the size error |
| FaceRecognition.BuildRecognitionMessage | face-recognition.tsx:124-144 | appending the segments one by one gives the recognition text, which starts with "This is " and the name |
| FaceRecognition.BareRecognitionText | face-recognition.tsx:126-142 | the message is exactly "This is <name>" when no relation, last-seen date, notes or confidence is present, and only then |
| FaceRecognition.ConfidenceShownExactly | face-recognition.tsx:140-142 | different confidence percentages give different messages |
| FaceRecognition.FaceRecognitionPanel.constructor | face-recognition.tsx:28-43 | no photo, no file, no error, mode "none", saved faces hidden, no success notice, empty form |
| FaceRecognition.FaceRecognitionPanel.SelectFile | face-recognition.tsx:62-86 | no file changes nothing; a rejected file sets that check's error and keeps the selection; an accepted one clears the error and becomes the selection |
| FaceRecognition.FaceRecognitionPanel.StartRecognizeMode | face-recognition.tsx:97-102 | mode becomes "recognize"; error and success notice are cleared; the prompt is announced |
| FaceRecognition.FaceRecognitionPanel.StartAddMode | face-recognition.tsx:104-109 | mode becomes "add"; error and success notice are cleared; the prompt is announced |
| FaceRecognition.FaceRecognitionPanel.Clear | face-recognition.tsx:206-213 | from any state: mode "none", no photo, no file, no error, no success notice; the empty text is announced |
| FaceRecognition.FaceRecognitionPanel.Recognize | face-recognition.tsx:111-158 | without a file: an error and no request; otherwise the file is sent, and the person's message, the server's message or the default text, or the failure notice with an error, is announced |
| FaceRecognition.FaceRecognitionPanel.AddFace | face-recognition.tsx:160-204 | without a file, name or relation: an error and no request; otherwise the form is posted (notes only when present); success empties the form, clears the panel and shows saved faces, so the success notice ends empty; failure sets the server's message, the default or the fixed error |
| FaceRecognition.FaceRecognitionPanel.AddFaceCorrected | face-recognition.tsx:187-194 | the same handler with the success notice stored after the panel is cleared, so the "added" banner and text remain |

## Left out

- Rendering, icons, CSS beyond the colour switches, and the component library: presentation only.
- The load handlers (`loadReminders`, `loadEntries`, `loadSavedFaces`), the `loading` and `error` state fields they write (reminders-system.tsx:20-21, daily-journal.tsx:32-33), and the saved-faces list: network reads and their progress and failure display. After a successful add only the `showSavedFaces` flag is modelled.
- The remote calls themselves are not modelled. Their outcome is a parameter, and the request they would carry is an out-parameter.
- Async interleaving:
  - each handler runs as one atomic step;
  - no race between two toggles, or between an optimistic update and its rollback, is modelled;
  - React's batching of state updates is not modelled, because the final state is the same.
- The `onUpdate` texts of the reminders and journal panels and all `console.error` logging.
- The form-field edit handlers, the date picker, the show/hide toggles of the add forms, `handleUploadClick` and the camera stub: they only copy a value into a field or touch the browser.
- The `FileReader` data-URL preview: browser I/O. `selectedImage` is only ever cleared in the model.
- The current date of the journal panel is a constructor parameter instead of a read of the clock, and date formatting is not modelled.
- FaceRecognition.RecognizeReply: `Math.round(confidence * 100)` is floating point, so the reply already carries the rounded percentage, with `None` for a missing or zero confidence.
- Journal.SortByTime: `localeCompare` is approximated by the code-point order of the strings, which agrees with it on "HH:MM" times. The sort is a stable insertion sort. Only sortedness, permutation and "a sorted list is left as it is" are proved; stability between equal times is not.
- Optional string fields (`description`, `notes`, `relation`, `lastSeen`) use the empty string for "absent", since both are falsy where the source tests them. Only the journal `mood` is an `Option`: the mood switches take an optional argument (daily-journal.tsx:94, 106) and the badge is hidden when the mood is missing (daily-journal.tsx:375), so a missing mood is an input of its own, even though the switches show it exactly like "neutral".
- Text.Trim: the white-space set is the one ECMAScript defines for `trim`. No other Unicode processing is modelled.

## Findings

| source | as written | input that shows it | evidently intended | confidence | as-written member | corrected member |
|---|---|---|---|---|---|---|
| face-recognition.tsx:187-194 | on success the handler stores the success notice and then calls `handleClear`, which sets `successMessage` back to null and announces the empty text, so the success banner at face-recognition.tsx:227-234 can never show a successful add | any successful add: a selected file, name "Ann", relation "sister", server answers success; `successMessage` ends None and the last notice is "" | the "added to your memory database" notice stays visible after the panel is cleared | not executed | FaceRecognition.FaceRecognitionPanel.AddFace | FaceRecognition.FaceRecognitionPanel.AddFaceCorrected |
