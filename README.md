# Task tracker CLI: verified model

`tracker.js` is a single-user command-line task tracker. Each run loads the
task list, reads one command from the command line (`add`, `update`, `delete`,
`mark-in-progress`, `mark-todo`, `mark-done`, `list`, `help`), changes the list
in memory and prints a message. It writes the list back to its file only after
an add, or after an update, delete or status change whose id is present. This project models the two
pieces of logic at its core and proves what they promise:

- **The task collection** (`tasks.dfy`, `repository.dfy`). A `Task` record
  carries an id, a description, a status (`todo`, `in-progress`, `done`) and two
  timestamps. The module-level `tasks` array and `taskIdCounter` become the class
  `Repository.TaskList`, with one method per mutating operation:
  - `addTask` appends;
  - `updateTask` and `changeTaskStatus` overwrite fields of the first task with the id;
  - `deleteTask` splices that task out.

  Each method is proved against a pure function on the list's value
  (`UpdateDescription`, `SetStatus`, `RemoveFirst`, `Filter`, `NextId`). The
  lemmas beside those functions state the frame conditions: what changes, what
  stays, the order kept, and ids staying distinct.
- **Command-line parsing** (`cli.dfy`, `commands.dfy`). The payload is the
  arguments after the command name, joined with one space and trimmed. Each
  command's argument pattern is written out as a predicate on characters:
  - `^\d+$` for `delete` and `mark-*`;
  - `^(\d+)\s+(.+)$` for `update`;
  - `^(done|todo|in-progress)$` for `list`.

  `Commands.Parse` maps the arguments to a typed `Command`. `Commands.Apply`
  states the effect of a command on the list. `Commands.Dispatch` and
  `Commands.Run` carry it out through a `TaskList` and are proved equal to that
  effect.

The character classes follow JavaScript:
- `\s` and `String.prototype.trim` use the same set: white space plus the line terminators.
- `.` matches everything except the line terminators.
- `\d` is ASCII `0`–`9`.

For `update`, the model reproduces what the backtracking matcher returns. The
digit run is taken whole, then the longest white-space run that still leaves at
least one character for `(.+)`. `Cli.UpdateOnTrimmedPayload` proves that on a
trimmed payload the description never starts with white space.

Ids can be handed out more than once. Within one run the counter only grows
(`TaskList.Valid`: every id is below the counter). Across runs, however, the
counter restarts at the largest stored id plus one, and deleting never raises
that value (`Tasks.NextIdAfterRemove`). So an id that was handed out before
can be handed out again: after the only task is deleted, the next run's `add`
gets id 1 (`Commands.IdReissuedAfterDelete`), which repeats the deleted id
when that id was 1.

Files: `tasks.dfy` (module `Tasks`), `repository.dfy` (module `Repository`),
`cli.dfy` (module `Cli`), `commands.dfy` (module `Commands`).

## Model

| member | source | states |
|---|---|---|
| Repository.TaskList.constructor | tracker.js:5-6 | The list starts as the loaded tasks, and the counter starts at the next id of that list, which is above every loaded id |
| Repository.TaskList.AddTask | tracker.js:122-134 | Appends exactly one task: the counter's id, the description, `todo`, createdAt = updatedAt = now. The counter goes up by one. The new id is above every earlier id, earlier tasks are unchanged, and distinct ids stay distinct |
| Repository.TaskList.UpdateTask | tracker.js:136-148 | Reports found exactly when some task has the id. The list becomes `UpdateDescription` of the old list. The counter is unchanged |
| Repository.TaskList.DeleteTask | tracker.js:150-159 | Returns None exactly when no task has the id, and otherwise the first task with that id. The list becomes `RemoveFirst` of the old list |
| Repository.TaskList.ChangeTaskStatus | tracker.js:161-171 | Returns None exactly when no task has the id, and otherwise the changed task. The list becomes `SetStatus` of the old list |
| Repository.TaskList.ShowTaskList | tracker.js:104-120 | With no filter, shows the whole list; with a status, shows `Filter` of the list |
| Tasks.MaxId | tracker.js:61 | `Math.max` over the ids: every id is at most the result, and some task has it |
| Tasks.NextId | tracker.js:59-62 | 1 for an empty list; otherwise some task's id plus one, above every id, so exactly the largest id plus one |
| Tasks.NextIdAfterAdd | tracker.js:59-62 | Appending a task that carries the next id raises the next id by exactly one |
| Tasks.NextIdDependsOnIds | tracker.js:59-62 | Lists with the same ids position by position have the same next id, so update and status changes leave it alone |
| Tasks.NextIdAfterRemove | tracker.js:59-62 | Deleting never raises the next id |
| Tasks.ParseStatus | tracker.js:108-115 | Accepts exactly the three status names and returns the status with that name |
| Tasks.FindIndex | tracker.js:137 | `findIndex` by id: None exactly when no task has the id; otherwise an in-range index holding the id with no earlier match |
| Tasks.UpdateDescription | tracker.js:136-148 | Same length. Only the first task with the id may differ, and it gets the new description and updatedAt. Every task keeps its id, status and createdAt. An absent id changes nothing, and distinct ids stay distinct |
| Tasks.SetStatus | tracker.js:161-171 | Same length. Only the first task with the id may differ, and it gets the status and updatedAt. Every task keeps its id, description and createdAt. An absent id changes nothing, and distinct ids stay distinct |
| Tasks.RemoveFirst | tracker.js:150-159 | An absent id changes nothing. Otherwise the first task with the id is removed: the length drops by one, the tasks before it stay in place, the ones after shift down by one, and the multiset loses exactly that task. With distinct ids, no task with the id is left |
| Tasks.Filter | tracker.js:188-207 | The filtered list is no longer than the list, and every task in it has the status |
| Tasks.FilterSingle | tracker.js:189 | A one-task list filters to that task when it has the status, and to nothing otherwise |
| Tasks.MatchingPositionsExact | tracker.js:189 | The positions a filter keeps are in range, strictly increasing, and are exactly the positions whose task has the status |
| Tasks.FilterPicksMatchingPositions | tracker.js:188-207 | The filtered list is the tasks at those positions, in order: an order-preserving subsequence |
| Tasks.FilterAppend | tracker.js:188-207 | Filtering distributes over concatenation |
| Tasks.FilterMembers | tracker.js:188-207 | A task is listed exactly when it is in the list and has the status |
| Tasks.FilterCounts | tracker.js:188-207 | A matching task occurs in the filtered list as often as in the list; a non-matching one never does |
| Cli.LeadingSpaces | tracker.js:10 | Length of the leading white-space run: all white space, and followed by a character that is not |
| Cli.TrailingSpaces | tracker.js:10 | Length of the trailing white-space run: all white space, and preceded by a character that is not |
| Cli.Trim | tracker.js:10 | `trim`: the result is a contiguous piece of the input with only white space around it. It is empty exactly when the input is all white space, and otherwise starts and ends with a non-space |
| Cli.JoinWords | tracker.js:10 | `join(' ')`: one word joins to itself, and the join is all white space exactly when every word is |
| Cli.PayloadEmpty | tracker.js:10 | The payload is empty exactly when every argument after the command name is white space |
| Cli.TrimUnchanged | tracker.js:10 | A string without white space at either end is its own trim |
| Cli.TrimIdempotent | tracker.js:10 | Trimming twice is trimming once |
| Cli.DecimalRoundTrip | tracker.js:82 | `Number` of an id's decimal spelling gives the id back |
| Cli.DecimalLeadingZero | tracker.js:82 | Leading zeros do not change the value of a digit string |
| Cli.DecimalStringTrimmed | tracker.js:81 | A decimal spelling has no white space at either end |
| Cli.ParseId | tracker.js:81-82 | `^\d+$`: accepted exactly when the payload is a non-empty run of ASCII digits; the id is its decimal value |
| Cli.ParseIdRoundTrip | tracker.js:81-82 | Every id, written in decimal, is accepted back as itself |
| Cli.LeadingDigits | tracker.js:71 | Length of the leading digit run: all digits, and followed by a non-digit |
| Cli.ParseUpdate | tracker.js:71-74 | The description it returns is non-empty and free of line terminators |
| Cli.UpdateMatchesPattern | tracker.js:71-74 | `ParseUpdate` succeeds exactly when `^(\d+)\s+(.+)$` can match. It returns the captures the matcher reports: the one split after the whole digit run, with the shortest description any match allows |
| Cli.ShapeIsGreedy | tracker.js:71 | Every way to match splits after the whole leading digit run and within the white-space run after it |
| Cli.DigitRunEnds | tracker.js:71 | A digit run followed by a non-digit is the leading digit run |
| Cli.SpaceRunBound | tracker.js:71 | A white-space run is no longer than the leading white-space run starting at the same place |
| Cli.UpdateOnTrimmedPayload | tracker.js:71 | A matched payload is non-empty, and when it does not end in white space the description does not start with white space |
| Cli.LeadingDigitsOfDigits | tracker.js:71 | The leading digit run of digits followed by a non-digit is exactly those digits |
| Cli.UpdateRoundTrip | tracker.js:71-74 | An id in decimal, a space and a description with no leading white space or line terminator are read back as that id and description |
| Cli.IsDigit | tracker.js:71 | `\d`: the ASCII digits `0` to `9` |
| Cli.IsSpace | tracker.js:10 | `\s` and the characters `trim` removes: JavaScript white space and line terminators. No digit is white space |
| Cli.IsLineTerminator | tracker.js:71 | The characters `.` does not match (`\n`, `\r`, U+2028, U+2029); each is also white space |
| Cli.Payload | tracker.js:10 | The payload is trimmed, and empty when nothing follows the command name |
| Cli.DecimalValue | tracker.js:82 | `Number` on a digit string: the decimal value, zero exactly when every digit is `0` |
| Cli.UpdateShape | tracker.js:71 | The ways `^(\d+)\s+(.+)$` matches: a digit run, a white-space run, then at least one character that is not a line terminator, so at least three characters |
| Commands.MarkCommand | tracker.js:86-102 | A `mark-*` command sets its status on the payload's id when the payload is a non-empty digit run, and is rejected under its own name otherwise |
| Commands.Apply | tracker.js:64-171 | The effect of a command. An add grows the list by one, a delete shrinks it by one, and every other outcome keeps its length. An outcome that is not written back leaves list and counter unchanged |
| Commands.Invocation | tracker.js:5-10 | One run from the loaded list, with the counter at its next id. Afterwards the counter is at or above the next id of the list, and distinct ids stay distinct |
| Commands.ApplyKeepsDescriptions | tracker.js:122-171 | A command whose own description is non-empty leaves no task with an empty description |
| Commands.DescriptionsStayNonEmpty | tracker.js:64-78 | No run leaves a task with an empty description when the loaded list had none |
| Commands.ParseCommand | tracker.js:12-48 | An `add` carries the payload, which is non-empty. An `update` carries a non-empty description with no line terminators. An invalid command keeps its name |
| Commands.Parse | tracker.js:8-48 | An `add` description is non-empty and trimmed. An `update` description is non-empty and starts with a non-space. An invalid command is named by the first argument |
| Commands.OnlyKnownNames | tracker.js:12-48 | A command is unknown exactly when its name is not one of the eight command names |
| Commands.MarkOfStatus | tracker.js:25-35 | Each `mark-*` name sets its own status |
| Commands.AddAccepts | tracker.js:64-68 | `add` is accepted exactly when some argument after it is not all white space. Otherwise it is rejected. The description is the payload |
| Commands.IdCommandAccepts | tracker.js:80-102 | `delete` and `mark-*` are accepted exactly when the payload is a non-empty digit run, and the id is its value. `delete` gives a delete; `mark-*` gives its own status |
| Commands.UpdateAccepts | tracker.js:70-78 | `update` is accepted exactly when its pattern matches, and it carries the matcher's captures; otherwise it is rejected |
| Commands.ListAccepts | tracker.js:104-120 | `list` with no payload lists everything. A payload must be exactly one status name and filters by it; anything else is rejected |
| Commands.ChangesOnlyWhenFound | tracker.js:64-171 | The list changes only through an add, or through an update, delete or status change whose id is present. The counter changes exactly on add. A missing id is reported as not found and changes nothing. Rejected, unknown, help and list commands change nothing. The list is written back exactly after an add, or an update, delete or status change whose id is present |
| Commands.ApplyPreservesIds | tracker.js:122-171 | Every command keeps the counter at or above the next id and keeps distinct ids distinct |
| Commands.AddAssignsNextId | tracker.js:122-131 | An accepted add in one run gets the next id of the loaded list, is appended at the end, and raises the next id by one |
| Commands.Dispatch | tracker.js:12-48 | Running a command on a `TaskList` yields the outcome, list and counter that `Apply` specifies, and keeps the object valid |
| Commands.Run | tracker.js:5-48 | A whole run, from the loaded list and the arguments, reports what `Invocation` specifies. It writes back `Invocation`'s list exactly after an add, update, delete or status change that succeeded, and writes nothing (None) otherwise |
| Commands.ParseOfWord | tracker.js:10 | A command name followed by one trimmed word has that word as its payload |
| Commands.InvocationOfWord | tracker.js:8-10 | A run on a name and one trimmed word applies that word's command, with the counter at the next id |
| Commands.PayloadOfTwoWords | tracker.js:10 | Two words, the first with no leading and the second with no trailing white space, become one payload joined by a space |
| Commands.AddToEmpty | tracker.js:122-134 | `add <description>` on an empty list creates task 1, `todo`, with both timestamps equal to now |
| Commands.MarkOnlyTask | tracker.js:161-171 | `mark-<status> <id>` on the only task sets its status and updatedAt and reports the changed task |
| Commands.ListOfStatusName | tracker.js:105-115 | Every status name is a trimmed word that `list` reads back as that status |
| Commands.ListOfOneTask | tracker.js:188-207 | Listing a one-task list by status shows the task exactly when it has that status |
| Commands.ListOnlyTask | tracker.js:104-120 | `list <status>` on a one-task list shows the task exactly when it has that status |
| Commands.ParseUpdateWords | tracker.js:70-78 | `update <id> <description>` given as two words is read as that id and description |
| Commands.UpdateOfOneTask | tracker.js:136-148 | Updating a one-task list changes the task when the id is its id, and reports not found otherwise |
| Commands.UpdateOnlyTask | tracker.js:136-148 | `update <id> <description>` on a one-task list updates the task or reports the id as not found |
| Commands.DeleteOnlyTask | tracker.js:150-159 | `delete <id>` on the only task empties the list and reports the deleted task |
| Commands.IdReissuedAfterDelete | tracker.js:59-62 | Once the only task is deleted, whatever its id, the next run's `add` gets id 1 |

## Left out

- Loading and saving `tasks.json` (`loadTasks`, `writeToFile`, tracker.js:50-57 and 215-221) is left out, along with `JSON.parse` and `JSON.stringify`. These are file-system effects and library calls. The model starts from the loaded list and returns the list that is written back, or None on the runs that write nothing.
- A load that fails is left out. The code then starts from an empty list, which the model covers as the empty input.
- A write that fails is left out. The code then logs the error and keeps the in-memory change.
- Loaded records are assumed to be well-formed tasks with natural-number ids and one of the three statuses. The code does not check what the file holds.
- `new Date().toISOString()` is left out. The clock reading is the `now` parameter, kept as opaque text, so no ordering between `createdAt` and `updatedAt` is modelled.
- Console messages, table layout (`padEnd`) and the help text (tracker.js:173-186, 209-213, 223-236) are left out. They are output text with no effect on the data. The model returns the `Outcome` that a message reports.
- `process.argv` is left out: the arguments after the script name are a `seq<string>`.
- Ids are unbounded naturals. `Number` turns a long digit string into a floating-point value that loses precision above 2^53, and that rounding is not modelled.
- `Math.max(...)` spreads its argument list, so a huge task list can overflow the stack. That limit is not modelled.
- JavaScript strings are UTF-16 code-unit sequences. The model's strings are sequences of Unicode scalar values, so lone surrogates are not represented.
- Repository.TaskList.ShowTaskList: does not state the printed table, only which tasks are shown.
