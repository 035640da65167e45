# Join board client: a Dafny model

This project models the client-side core of the Join Kanban application. It
covers six of the program's JavaScript files:

- **The board's task popup** (`js/taskActions.js`). `tasksGlobal` caches the
  tasks by id; opening a task fills the popup and copies its subtasks into
  `editingSubtasks`. The file also covers entering edit mode, seeding and
  synchronising the assignee checkboxes, the two definitions of
  `removeSubtask`, saving an edited subtask, formatting assignee names, and
  looking up profile colours through a localStorage cache.
- **The add-task form** (`js/addTask.js`): the working subtask list and its
  key handler, collecting and validating the form, the priority buttons,
  and resetting the assignee checkboxes.
- **The assignee picker** (`js/assign.js`): the module-level `toAssignUser`
  list of full names, the dropdown's rows (one per account, each with a
  checkbox), the chips of selected users, and the dropdown's display style.
- **Drag and drop on the board** (`js/tasksDragNDrop.js`): the highlighted
  columns, moving a card on drop, and the "no tasks" placeholder that an
  emptied column gets and a filled column loses.
- **The contact list** (`js/contacts.js`): contacts sorted by first name,
  grouped in sections A to Z, shown with initials, validated on save, and
  deleted after confirmation.
- **The board's templates** (`js/templates/board.js`): the truncated card
  description, the subtask-count label, and the two layouts of a subtask
  row.

How the model is built:

- **State.** State that the source changes in place is a Dafny `class` whose
  fields are sequences, maps or sets. Examples are `TaskPopup`,
  `AssigneePicker`, `SubtaskList`, `PriorityPicker`, `Board`,
  `ProfileColorCache` and `DeleteConfirmation`. Each handler is a method.
  Its `modifies` clause names what the handler changes, and its `ensures`
  clause gives the whole new state. Pure helpers become functions with
  lemmas about them.
- **Outside world.** The backend, the configuration import and localStorage
  are not called. Their replies are parameters instead:
  - an ok flag;
  - the list of accounts, or `None` when the request fails;
  - the cache as a map.
- **DOM.** The DOM is reduced to what the handlers read and write: rows,
  chips, children of a column, a highlighted set, and option and view
  values. Markup, styles and images are dropped.
- **JavaScript built-ins.** They are defined once, in `JsString` and
  `JsArray`, and proved there: `trim`, `split`, `join`, the first
  `replace` of a literal, `indexOf`, `splice`, and push-if-absent.

Where the documentation and the code disagree, the model follows the code.
Two cases stand out:

- `js/taskActions.js` declares `removeSubtask` twice. The second
  declaration is the one the page uses. The first declaration's comment
  says it "updates both the subtasks list and their checked status", but it
  splices only the texts. Both are modelled (see Findings).
- Refreshing after a subtask removal is not atomic. The first definition
  splices the cache before it sends the request, whatever the reply. The
  second definition splices only after an ok reply.

`changePriority` and `toggleUser` also have two definitions each, one in
`js/addTask.js` or `js/assign.js` and one in `js/taskActions.js`. The board
page's `editTask` relies on functions of both files
(`fetchAccountsAndFillDropdown` of `js/assign.js` and `setupCheckboxHandlers`
of `js/addTask.js`), so that page loads both definitions. Which one a call
reaches depends on the order the page loads its scripts, and the model does
not capture that order. Each definition is modelled under its own name, in
the module of its own file:

- `AddTask.PriorityPicker.ChangePriority` and `TaskActions.ChangePriority`;
- `Assign.AssigneePicker.ToggleUser` and `TaskActions.ToggleUser`.

`TaskActions.TaskPopup.EditTask` calls the `changePriority` of
`js/taskActions.js`, `TaskActions.ChangePriority`.

## Model

| member | source | states |
|---|---|---|
| JsString.Trim | js/addTask.js:208-218 | `String.prototype.trim`: the result is the input without leading and trailing whitespace, and its ends are not whitespace |
| JsString.TrimShape | js/addTask.js:208-218 | the trimmed string is a slice `s[i..j]` with only whitespace outside it |
| JsString.TrimEmptyIffBlank | js/addTask.js:45-55 | trimming gives the empty string exactly when the input is all whitespace, which is the test of the subtask key handler |
| JsString.TrimIdempotent | js/contacts.js:204-209 | trimming a trimmed value changes nothing |
| JsString.JoinSplit | js/taskActions.js:191-194 | splitting on a separator and joining with it gives back the string |
| JsString.SplitJoin | js/taskActions.js:184-191 | joining separator-free parts and splitting gives back the parts |
| JsString.Split | js/taskActions.js:191-194 | `split` on one character never returns an empty list, even for the empty string |
| JsString.SplitPiecesFree | js/taskActions.js:184-194 | no piece that `split` returns holds the separator |
| JsString.StripSuffix | js/tasksDragNDrop.js:70 | `replace('-box', '')` on a column id `state + "-box"` gives `state` when `state` has no earlier occurrence |
| JsString.ReplaceFirst | js/tasksDragNDrop.js:70 | `replace` with a literal pattern leaves a string without the pattern unchanged |
| JsString.NatToStringRoundTrip | js/templates/board.js:16-38 | the decimal text of a count reads back as the count |
| JsString.NatToString | js/templates/board.js:16-38 | `${n}` of a count is a non-empty run of decimal digits without a leading zero |
| JsArray.IndexOf | js/assign.js:147-160 | `indexOf`: -1 exactly when absent, otherwise the first index holding the value |
| JsArray.Splice | js/addTask.js:182-185 | `splice(i, 1)`: one entry fewer, later entries moved down one, and an index past the end changes nothing |
| JsArray.RemoveFirst | js/assign.js:147-160 | `indexOf` followed by `splice`: removes exactly one occurrence from the multiset when present, otherwise nothing |
| JsArray.PushIfAbsent | js/assign.js:123-140 | `includes` then `push`: the value is present afterwards and every earlier entry stays |
| JsArray.PushIfAbsentOnce | js/assign.js:123-140 | pushing a name only when it is absent keeps the list free of duplicates and holds the name exactly once |
| JsArray.RemoveFirstNoDup | js/assign.js:147-160 | in a list free of duplicates, removing the first occurrence removes the name entirely |
| JsArray.SpliceNoDup | js/assign.js:187-203 | splicing one entry out of a list free of duplicates keeps it so, and that entry is gone |
| JsArray.RemoveFirstNoDupAt | js/assign.js:197-202 | in a list free of duplicates, removing the value at index `j` by `indexOf` and `splice` is cutting out index `j`, and the value is gone |
| JsArray.PushThenRemove | js/assign.js:96-114 | adding an absent name and removing it again gives back the list |
| Assign.FindAccount | js/assign.js:210-224 | `accounts[key]`: no result exactly when no entry has that key, otherwise some entry's account with that key |
| Assign.GetUserNameByCheckboxValue | js/assign.js:210-224 | a failed request gives `null`; otherwise some result exactly when an account has the key, and the result is that account's "first last" name |
| Assign.NameAddedNoDup | js/assign.js:123-140 | resolving and adding a name never duplicates it, and the name ends up there exactly once |
| Assign.NameRemovedAtMostOne | js/assign.js:147-160 | removing a resolved name takes away at most one entry and adds none |
| Assign.ToggledDisplay | js/assign.js:5-8 | the dropdown becomes `block` exactly when it was not `block`, and `none` otherwise |
| Assign.RowIndex | js/assign.js:187-203 | the checkbox lookup by value: -1 exactly when no row has the value, otherwise the first row with it |
| Assign.AssigneePicker.constructor | js/assign.js:1 | the picker starts with no rows, no chips and an empty `toAssignUser` |
| Assign.AssigneePicker.ToggleDropdown | js/assign.js:5-8 | the display style toggles and nothing else changes |
| Assign.AssigneePicker.PopulateDropdown | js/assign.js:53-81 | one row per account in key order, carrying the account's key and full name; a row is checked and marked exactly when its name is in `toAssignUser` |
| Assign.AssigneePicker.AddUser | js/assign.js:123-140 | a value that already has a chip changes nothing; otherwise a chip is appended and the resolved name is added unless present; a list without duplicates stays so |
| Assign.AssigneePicker.RemoveUser | js/assign.js:147-160 | only a value with a chip acts: its chip goes and at most one occurrence of the resolved name goes; afterwards no chip has the value |
| Assign.AssigneePicker.RemoveUserFromEditTask | js/assign.js:169-181 | the same rule as removeUser |
| Assign.AssigneePicker.ToggleUser | js/assign.js:96-114 | the clicked row's checkbox and mark flip; checking adds a chip and the resolved name unless the value already has a chip; unchecking removes the chip and one occurrence of the name, when there is a chip |
| Assign.AssigneePicker.RemoveUserDiv | js/assign.js:187-203 | clicking a chip removes it, unchecks the row with its value and removes the name; no such row means nothing changes |
| Assign.AssigneePicker.RemoveName | js/assign.js:197-202 | the resolved name loses its first occurrence in `toAssignUser`, and a name that does not resolve changes nothing |
| AddTask.SubtaskList.constructor | js/addTask.js:20-29 | the working subtask list starts empty |
| AddTask.SubtaskList.HandleSubtaskInput | js/addTask.js:45-55 | Enter with non-blank text appends the trimmed text as a non-editing entry and clears the input; any other key or blank text changes nothing |
| AddTask.SubtaskList.EditSubtask | js/addTask.js:160-163 | only that entry enters edit mode; texts and all other entries are unchanged |
| AddTask.SubtaskList.SaveSubtask | js/addTask.js:171-175 | that entry becomes the untrimmed new text and leaves edit mode; the rest is unchanged |
| AddTask.SubtaskList.DeleteSubtask | js/addTask.js:182-185 | the entry is spliced out and later entries move down one |
| AddTask.ValidateTaskData | js/addTask.js:225-232 | valid exactly when title, description, due date and category are all non-empty; every empty one is reported, in form order |
| AddTask.MissingReportsEach | js/addTask.js:225-232 | a required field's error is reported exactly when that field is empty |
| AddTask.MissingFour | js/addTask.js:225-232 | the reported errors are title, description, due date and category, in that order, each present exactly when its field is empty |
| AddTask.HandleTaskSubmission | js/addTask.js:192-218 | the collected, trimmed data is submitted exactly when it validates, and submitted unaltered; the errors are those of validation |
| AddTask.PriorityPicker.constructor | js/addTask.js:341-352 | no priority text and no selected button at first |
| AddTask.PriorityPicker.ChangePriority | js/addTask.js:341-352 | urgent, medium or low becomes the priority text and the only selected button; any other value changes nothing |
| AddTask.ResetAllCheckboxes | js/addTask.js:321-335 | every checkbox unchecked and every row unmarked, keys and names kept; no chips; empty `toAssignUser` |
| TaskActions.FormatAssigneeNames | js/taskActions.js:180-214 | "No one assigned" exactly for a missing or empty value or one that is neither string nor array; otherwise one entry per comma-separated piece |
| TaskActions.EntryFullName | js/taskActions.js:191-201 | each entry's full name is its piece trimmed (split on spaces and rejoined) |
| TaskActions.InitialsOfWords | js/taskActions.js:191-201 | for a name of non-blank words the initials are the words' first letters, the first name is the first word and the last name the rest joined by spaces |
| TaskActions.InitialsOfNonEmpty | js/taskActions.js:198 | `parts.map(p => p[0]).join('')` has one letter per non-empty part, the part's first |
| TaskActions.SpacedJoin | js/taskActions.js:184-185 | `join(', ')` of names equals, after a leading space, joining the space-prefixed names with "," |
| TaskActions.PiecesJoin | js/taskActions.js:184-191 | `join(', ')` of names is the first name and the space-prefixed others joined by "," |
| TaskActions.FormatListOfNames | js/taskActions.js:184-201 | an array of comma-free names gives one entry per name, in order, with the name trimmed as full name |
| TaskActions.FormatEmptyList | js/taskActions.js:180-214 | an empty array is truthy: it gives one entry with empty initials and names, not "No one assigned" |
| TaskActions.CategoryLabel | js/taskActions.js:157-170 | `technicalTask` is shown as "Technical Task" and `userStory` as "User Story"; every other category is shown as itself, and the label is empty exactly when the category is |
| TaskActions.SpliceBothKeepsPairs | js/taskActions.js:378-392 | splicing texts and flags at one index keeps them aligned, and each remaining text keeps its own flag |
| TaskActions.SpliceTextsOnlyMisaligns | js/taskActions.js:350-369 | splicing only the texts of an aligned task leaves one flag too many |
| TaskActions.RemoveFirstSubtaskExample | js/taskActions.js:350-392 | with texts ["a","b"] and flags [true,false], removing index 0 leaves "b" with `true` under the first definition and with `false` under the second |
| TaskActions.TaskPopup.constructor | js/taskActions.js:66 | the popup starts with the given cache and shows nothing |
| TaskActions.TaskPopup.OpenTask | js/taskActions.js:67-81 | an unknown id changes nothing; otherwise the popup shows the task's fields, its id and its delete/edit options, and its subtasks become the working list |
| TaskActions.TaskPopup.EditTask | js/taskActions.js:269-289 | an unknown id changes nothing; otherwise a single save option and the task's priority shown; a value that cannot be spread stops before the seeding; otherwise `toAssignUser` is the seed, the rows are rebuilt one per account with its key and full name (without accounts they keep their keys and names), and each row is checked and marked exactly when its name is in the seed |
| TaskActions.TaskPopup.RemoveSubtaskWholeList | js/taskActions.js:350-369 | a cached task's texts are spliced before and whatever the reply, the flags untouched; a refresh follows exactly an ok reply |
| TaskActions.TaskPopup.RemoveSubtaskByIndex | js/taskActions.js:378-392 | only after an ok reply, texts and flags are spliced at the same index and the task is reopened; alignment is kept; otherwise nothing changes |
| TaskActions.TaskPopup.SaveEditedSubtask | js/taskActions.js:508-522 | only after an ok reply, only that entry of the working list takes the new text |
| TaskActions.SeedFromString | js/taskActions.js:285 | spreading a string assignee value seeds its characters, not the name |
| TaskActions.ToggleUser | js/taskActions.js:242-261 | only the clicked row flips; a now-checked name is pushed unless present, a now-unchecked one loses its first occurrence |
| TaskActions.ToggleTwiceRestores | js/taskActions.js:242-261 | checking an unselected name's box and unchecking it again gives back the selection |
| TaskActions.ToggleNoDup | js/taskActions.js:242-261 | a click keeps the selection free of duplicates; checking leaves the name once, unchecking removes it |
| TaskActions.ToggleKeepsInStep | js/taskActions.js:242-261 | with one row per name, a click keeps every checkbox in step with the selection |
| TaskActions.SynchronizeCheckboxesWithArray | js/taskActions.js:294-308 | each checkbox and row mark follows membership of the row's name in `toAssignUser`, keys and names kept |
| TaskActions.CheckedNames | js/taskActions.js:447-450 | the names that occur are exactly those of checked rows, and there are no more entries than rows |
| TaskActions.CheckedNamesOne | js/taskActions.js:448-449 | a single row gives its name exactly when it is checked |
| TaskActions.CheckedNamesAppend | js/taskActions.js:448-449 | the names of two stretches of rows are those of the first followed by those of the second: one entry per checked row, in row order |
| TaskActions.UpdateAssigneesFromCheckboxes | js/taskActions.js:447-450 | the selection becomes the names of the checked rows |
| TaskActions.CheckedNamesAfterSync | js/taskActions.js:399-400 | after synchronising, saving keeps exactly the selected names that have a row |
| TaskActions.ChangePriority | js/taskActions.js:314-319 | the priority text becomes the value whatever it is, and a button is selected exactly when it equals the value |
| TaskActions.ProfileColorCache.constructor | js/taskActions.js:462-466 | the colour cache starts empty |
| TaskActions.AccountColor | js/taskActions.js:474-480 | no colour exactly when no account matches both names; otherwise the first matching account's colour |
| TaskActions.GetProfileColor | js/taskActions.js:462-486 | a non-empty cached colour is returned; otherwise, once the accounts arrive, the first match's colour is cached and returned; no match or a failed request gives `null` |
| TasksDragNDrop.GetNoTaskMessage | js/tasksDragNDrop.js:111-124 | the four states have their own message, and every other value gets "No tasks found." |
| TasksDragNDrop.TodoColumn | js/tasksDragNDrop.js:70-94 | column `todo-box` has state `todo` and placeholder "No tasks to do." |
| TasksDragNDrop.InProgressColumn | js/tasksDragNDrop.js:70-94 | column `in-progress-box` has state `in-progress` and placeholder "No tasks in progress." |
| TasksDragNDrop.AwaitingFeedbackColumn | js/tasksDragNDrop.js:70-94 | column `awaiting-feedback-box` has state `awaiting-feedback` and placeholder "No tasks awaiting feedback." |
| TasksDragNDrop.DoneColumn | js/tasksDragNDrop.js:70-94 | column `done-box` has state `done` and placeholder "No tasks done." |
| TasksDragNDrop.NoBoxBefore | js/tasksDragNDrop.js:70 | a state without "-b" maps from `state + "-box"` back to itself |
| TasksDragNDrop.FindCardFrom | js/tasksDragNDrop.js:62-65 | `getElementById` of a card: no result exactly when no column holds it, otherwise its first place in document order |
| TasksDragNDrop.ColumnIndex | js/tasksDragNDrop.js:64 | -1 exactly when no column has the id, otherwise the first with it |
| TasksDragNDrop.FirstPlaceholder | js/tasksDragNDrop.js:99 | `querySelector('.no-tasks')`: -1 exactly when a column has only cards, otherwise its first placeholder |
| TasksDragNDrop.Board.constructor | js/tasksDragNDrop.js:78-82 | the board starts with the given columns and nothing highlighted |
| TasksDragNDrop.Board.AllowDrop | js/tasksDragNDrop.js:13-20 | over a column, that column becomes the only highlighted one; elsewhere nothing changes |
| TasksDragNDrop.Board.DragLeave | js/tasksDragNDrop.js:27-32 | leaving a column for outside it unhighlights it; moving within it or outside any column changes nothing |
| TasksDragNDrop.Board.DragEnd | js/tasksDragNDrop.js:74-76 | nothing stays highlighted |
| TasksDragNDrop.Board.HandleDrop | js/tasksDragNDrop.js:58-72 | an unknown card or target changes nothing; otherwise the card moves to the end of the target, placeholders are fixed, nothing is highlighted, and the new state is the target id without "-box" |
| TasksDragNDrop.Board.CheckAndUpdateTaskBoxes | js/tasksDragNDrop.js:91-103 | an empty source gets its placeholder; a target with more than one child loses its first placeholder |
| TasksDragNDrop.CardsAppend | js/tasksDragNDrop.js:67 | the cards of two child lists are the cards of each, in order |
| TasksDragNDrop.CardsSplice | js/tasksDragNDrop.js:67 | taking a card out of a column removes exactly that card from its card list |
| TasksDragNDrop.CardsSplicePlaceholder | js/tasksDragNDrop.js:99-102 | removing a placeholder leaves the cards unchanged |
| TasksDragNDrop.PassKeepsCards | js/tasksDragNDrop.js:91-103 | the placeholder pass changes no column's cards |
| TasksDragNDrop.MoveCardEffect | js/tasksDragNDrop.js:65-67 | `appendChild` takes the card from its column and puts it last in the target: column ids kept, other columns unchanged, the source's cards lose exactly that card and the target's gain it at the end |
| TasksDragNDrop.PassKeepsLast | js/tasksDragNDrop.js:91-103 | the placeholder pass keeps a target's last card last |
| TasksDragNDrop.PassKeepsMove | js/tasksDragNDrop.js:91-103 | the placeholder pass after the move keeps every fact of the move: ids on the board, source without the card, target with it last, other columns as they were |
| TasksDragNDrop.DropMovesCard | js/tasksDragNDrop.js:58-103 | a drop keeps the same ids on the board; the source loses exactly that card, the target gains it last, and other columns are unchanged |
| TasksDragNDrop.SourceAfterDrop | js/tasksDragNDrop.js:91-97 | a consistent source column that loses a card keeps its remaining cards or, with none left, shows exactly its own placeholder |
| TasksDragNDrop.TargetAfterDrop | js/tasksDragNDrop.js:99-102 | a consistent target column that gains a card and loses its first placeholder is consistent again |
| TasksDragNDrop.SameAfterDrop | js/tasksDragNDrop.js:91-103 | a card dropped back on its own column leaves that column consistent and holding a card |
| TasksDragNDrop.DropKeepsConsistent | js/tasksDragNDrop.js:58-124 | a board where each column shows cards or exactly its own placeholder stays so after a drop, and an emptied source shows exactly its placeholder |
| TasksDragNDrop.DropScenario | js/tasksDragNDrop.js:58-124 | dropping the only to-do card on an empty done column leaves "No tasks to do." behind, puts the card alone in done, and yields state `done` |
| TasksDragNDrop.ScenarioLookups | js/tasksDragNDrop.js:62-63 | on the example board the card is found first in the to-do column and the done column is the second |
| TasksDragNDrop.ScenarioMove | js/tasksDragNDrop.js:67 | on the example board `appendChild` empties the to-do column and puts the card after done's placeholder |
| TasksDragNDrop.ScenarioPass | js/tasksDragNDrop.js:91-103 | the placeholder pass then fills the empty to-do column with "No tasks to do." and removes done's placeholder |
| Contacts.InsertSorted | js/contacts.js:47-50 | inserting into a sorted list keeps it sorted and adds exactly the new contact |
| Contacts.InsertAtLeast | js/contacts.js:47-50 | inserting a contact whose key is at least a bound into a list at least that bound keeps every key at least the bound |
| Contacts.InsertWithKey | js/contacts.js:47-50 | the contacts of one key after insertion are the new contact, when it has that key, ahead of the ones already there in their order |
| Contacts.SortByFirstNameSorts | js/contacts.js:47-50 | the contacts come out sorted by the collation key of the first name, and are a permutation of the input |
| Contacts.SortIsStable | js/contacts.js:47-50 | contacts with equal keys keep their relative order, as `Array.prototype.sort` guarantees |
| Contacts.UpperChar | js/contacts.js:63 | `toUpperCase` on ASCII letters: lower-case letters become capitals, every other character stays |
| Contacts.FilterLetter | js/contacts.js:63 | a contact is kept exactly when its upper-cased first name starts with the letter |
| Contacts.FilterLetterKeepsOrder | js/contacts.js:63 | filtering keeps the order of the sorted list |
| Contacts.FilterLetterSorted | js/contacts.js:63 | a section of a sorted list is sorted |
| Contacts.FilterAndRenderContacts | js/contacts.js:57-68 | one section per letter A to Z that has contacts, in alphabetical order, each with exactly that letter's contacts; no empty section |
| Contacts.SectionsStep | js/contacts.js:57-68 | one round of the letter loop keeps the sections exact, ordered and complete for the letters seen so far |
| Contacts.ProcessAndDisplayContacts | js/contacts.js:47-50 | sections A to Z in alphabetical order, none empty, one for every letter with contacts; each is the sorted list filtered by its letter, and is itself sorted |
| Contacts.NotRenderedWithoutLetter | js/contacts.js:57-68 | a contact whose first name does not start with a letter A to Z appears in no section |
| Contacts.ContactInitials | js/contacts.js:92-95 | one letter per non-empty name: the upper-cased first character of the first name, then that of the last name |
| Contacts.SectionLetterIsInitial | js/contacts.js:63-95 | a contact listed under a letter shows that letter as its first initial |
| Contacts.EmailAccepts | js/contacts.js:211 | every `a@b.c` with non-empty parts free of whitespace and "@" is accepted |
| Contacts.EmailParts | js/contacts.js:211 | every accepted address splits as `a@b.c` with such parts |
| Contacts.TrimmedPhone | js/contacts.js:212 | a trimmed phone passes exactly when the raw value is not blank and has only digits, "-", "/", "+" and whitespace |
| Contacts.SaveContact | js/contacts.js:204-227 | checks names, then email, then phone, all on trimmed values; sends the trimmed contact exactly when all pass |
| Contacts.SaveNewContact | js/contacts.js:172-196 | the new contact is sent exactly when the trimmed phone passes, and what is sent is the trimmed names, email, phone and colour; nothing else is checked |
| Contacts.NewContactChecksLess | js/contacts.js:172-227 | a contact without names is sent as new but refused as an update |
| Contacts.DeleteConfirmation.constructor | js/contacts.js:277 | nothing is marked for deletion at first |
| Contacts.DeleteConfirmation.DeleteContact | js/contacts.js:277-282 | the id is marked and the confirmation shows |
| Contacts.DeleteConfirmation.ConfirmDelete | js/contacts.js:288-294 | a marked (non-empty) id is deleted and unmarked; the popup always closes |
| BoardTemplates.TrimDescription | js/templates/board.js:16-38 | at most 75 characters: a short description as is, a long one as its first 72 characters and "..." |
| BoardTemplates.TrimDescriptionIdempotent | js/templates/board.js:16-38 | truncating a shown description changes nothing |
| BoardTemplates.TrimDescriptionPrefix | js/templates/board.js:16-38 | a shown description is the original or a prefix of it followed by "...", never other text |
| BoardTemplates.CreateTaskElementHtml | js/templates/board.js:16-38 | the card shows the category class, category name and title unchanged, the truncated description, and a progress bar whose maximum is the number of subtasks and whose value is the number done |
| BoardTemplates.ProgressLabelStatesCount | js/templates/board.js:16-38 | the label is the decimal count of subtasks followed by " Subtasks", and its digits read back as the bar's maximum |
| BoardTemplates.UpdateSubtaskListHtml | js/templates/board.js:49-61 | the viewing row keeps the checked state, shows the checkbox and hides the actions |
| BoardTemplates.SubtaskElementHml | js/templates/board.js:83-95 | the editing row keeps the checked state, hides the checkbox and shows the actions |
| BoardTemplates.RowLayoutsComplement | js/templates/board.js:49-95 | the two layouts show the same subtask and state, and each hides exactly what the other shows |

## Left out

- Network requests, `importConfig`, CSRF tokens and `fetchTasks`: replies are parameters (an ok flag, or the accounts or `None`). Re-fetching the cache after a removal is not modelled; the first `removeSubtask` reports only whether it would refresh.
- Asynchrony: handlers are modelled as if each ran to completion before the next. Races between overlapping requests are not captured.
- DOM markup, CSS classes other than the ones the handlers test (`selected`, `highlighted`, `no-tasks`, `d-none`), inline colours, images, alerts and console output.
- `Object.keys` / `Object.values` / `for … in` order: accounts and contacts are given as lists in that order. Prototype keys and non-string keys are not modelled.
- Contacts.SortByFirstName: `localeCompare` is modelled as an integer collation key given as a parameter, so ties are names with equal keys and the sort is the stable insertion sort that `Array.prototype.sort` behaves like.
- Contacts.UpperChar: upper-cases ASCII letters only; locale-dependent and non-ASCII case mapping is not modelled.
- Strings are sequences of characters: lengths count characters, not UTF-16 code units, so a description with characters outside the BMP is truncated at a different place than in the browser.
- `editingSubtasks` is modelled as a value copied from the task. In the source it is the same array object as the cached task's `subTasks`, so aliasing between the two is not captured.
- handleDragStart (js/tasksDragNDrop.js:5-7): the dragged id is the `taskId` parameter of `HandleDrop`.
- updateTaskState (js/tasksDragNDrop.js:40-50): the state sent is `HandleDrop`'s result; the request itself is not modelled.
- TasksDragNDrop.Board.HandleDrop: a payload that names no element, or a missing target box, throws in the source (js/tasksDragNDrop.js:62-65); the model then changes nothing. A payload naming an existing element that is not a card would be moved by `appendChild`; such payloads are outside the model, whose columns hold only cards and placeholders.
- TaskActions.TaskPopup.SaveEditedSubtask: requires the index to be within the working list, as its only caller renders an entry for each index; writing past the end of a JavaScript array is not modelled.
- The editSubtask of js/taskActions.js (lines 492-506), `updateSubtaskList`, `updateSubtaskListAfterEditing` and `clearSubtaskList` only render markup; they are not modelled. `updateSubtaskList` of js/taskActions.js is not part of this model.
- deleteTask, saveTask beyond `updateAssigneesFromCheckboxes`, deleteContactFinally, showContactDetails, editContact and the sign-up, sidebar and popup pages are not part of this model.
- fillAssignees' colour lookups: `FormatAssigneeNames` produces the names and initials; the colours are `GetProfileColor`'s separate contract.
- TaskActions.FormatAssigneeNames: the final `replace(/,/g, '')` on the markup is not modelled beyond the entries, and the entry count is stated for string values (array values through `FormatListOfNames` and `FormatEmptyList`).
- setupCheckboxHandlers, fetchAccountsAndFillDropdown's request, closeDropdownOnClickOutside and updateSelectedUsers are not modelled; the accounts the dropdown is filled from are `EditTask`'s parameter.
- Contacts.IsValidEmail models the email regular expression over characters; the regular expression engine is not modelled.
- toggleFields, hideInputLabels and the subtask button visibility in editTask only restyle; they are not modelled.

## Findings

| source | as written | input that shows it | evidently intended | confidence | as-written member | corrected member |
|---|---|---|---|---|---|---|
| js/taskActions.js:350-369 | the first `removeSubtask` splices `subTasks` only, although its comment says it updates both the subtasks and their checked status | `subTasks` ["a","b"], `subTasksChecked` [true,false], index 0: "b" now reads the flag `true` of "a", and one flag is left over | splice `subTasksChecked` at the same index, as the second declaration (lines 378-392) does; that second declaration of the same name shadows the first, so the page never runs the first and the discrepancy is between its comment and dead code | not executed | TaskActions.SpliceTextsOnlyMisaligns | TaskActions.SpliceBothKeepsPairs |
