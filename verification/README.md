# Kanban board — a Dafny model of its client-side state and validators

This project models the parts of the kanban board application that hold
logic rather than markup or network glue:

- **The single-page board** (`src/components/Board.jsx`, module `KanbanBoard`):
  three ordered task lanes `todo`, `inprogress`, `done` and the task being
  edited. The handlers — loading, add, delete, edit, edit click/cancel and
  drag-and-drop — are methods of the class `KanbanBoard.Board`. Each handler
  changes the lanes only after the server has answered; the answer (status
  code, task returned by the server) is a parameter. The lane rewrites the
  handlers pass to `setTasks` (append, filter by id, map by id) are
  functions, and the properties are lemmas about them.
- **Card lookup** (`app/utils/dndUtils.ts`, module `DndUtils`, with the
  `Board`/`BoardData` records of `app/types/index.ts` in module `Types`):
  a read-only scan of the three keys of the dashboard board in the order
  the dashboard builds the board, which is the declared order. (`for..in`
  follows the object's insertion order.) It returns the first key holding a card with the requested id,
  paired with the first such card. It is a function, so it cannot modify
  the board.
- **Expiring storage** (`app/utils/localStorage.ts`, module `TtlStorage`): a
  class holding a map from key to (value, expiry). The clock is passed in
  as `now`. Reading an expired entry deletes it.
- **The login / sign-up page** (`app/page.tsx`, module `AuthPage`, with the
  JavaScript character classes and `trim` in module `JsText`):
  - the email and password regular expressions, hand-encoded;
  - the two validation chains, with their early returns;
  - the form state, including the filter that keeps digits out of the user name;
  - the "remember me" write to storage, and the session restore on mount.
- **The add-task form of a column** (`app/component/Column.tsx`, module
  `DraftForm`): the draft record, its per-field edits, the priority buttons,
  and submit-and-reset.
- **A card's badge and delete button** (`app/components/Card.tsx`, module
  `CardView`).

Properties worth noting:
- The password pattern's symbol class is written `[@$!%*?&#^()+-_=<>{}[\]|~]`.
  Its unescaped `+-_` is the range U+002B..U+005F, which contains every
  upper-case letter and every digit. So the symbol lookahead never rejects
  a password that the upper-case lookahead accepts. `AuthPage.StrongPassIff`
  proves that the check is exactly "no line terminator, at least 8
  characters, a lower-case letter, an upper-case letter and a digit".
  `AuthPage.SymbolFreeSignUpAccepted` exhibits a sign-up whose password
  `Password1` has no symbol and is still sent.
- `handleSignUp` shows "Sign-up successful!" after its try/catch. That toast
  therefore follows a server error too (`AuthPage.Page.HandleSignUp`).
- A drop whose delete fails but whose create succeeds duplicates the task
  (`KanbanBoard.DropWithFailedDelete`).

The board's handlers apply server answers after the fact. None of them
applies a change first and rolls it back on failure, so the model has no
snapshots or rollback.

## Model

| member | source | states |
|---|---|---|
| `KanbanBoard.Board.constructor` | src/components/Board.jsx:8-14 | the board starts with three empty lanes and no task being edited |
| `KanbanBoard.Tasks.Set` | src/components/Board.jsx:46-49 | `{ ...prevTasks, [column]: s }` replaces exactly one lane and leaves the other two as they were |
| `KanbanBoard.Appended` | src/components/Board.jsx:94-97 | appending puts the task at the end of its lane, adds exactly one task to the board, and leaves the other lanes unchanged |
| `KanbanBoard.AppendAll` | src/components/Board.jsx:40-50 | the inner loop's effect: appending a list one task at a time adds exactly as many tasks as the list holds |
| `KanbanBoard.AppendAllLanes` | src/components/Board.jsx:40-50 | appending a list one task at a time leaves the lane as its old contents followed by the list in order; the other lanes are unchanged |
| `KanbanBoard.Board.AddTasksWithDelay` | src/components/Board.jsx:40-50 | the loop leaves the lanes equal to appending the tasks one at a time, and leaves the edited task alone |
| `KanbanBoard.Loaded` | src/components/Board.jsx:27-33 | the outer loop's effect: loading a response adds exactly the number of tasks the response lists, over all lanes |
| `KanbanBoard.LoadedLanes` | src/components/Board.jsx:27-33 | after loading, every lane holds its old tasks followed by all tasks the response lists for it, in response order |
| `KanbanBoard.Board.FetchDataAndAddTasks` | src/components/Board.jsx:18-37 | a received response is loaded entry by entry; a failed fetch changes nothing |
| `KanbanBoard.AfterAdd` | src/components/Board.jsx:83-102 | an OK answer (status 200-299) appends the server's task at the end of the target lane and adds one task; any other answer leaves the board unchanged; other lanes are never touched |
| `KanbanBoard.Board.HandleAddTask` | src/components/Board.jsx:66-103 | sends only text, description and lane key; the lanes become the add applied to the old lanes; the edited task is unchanged |
| `KanbanBoard.WithoutId` | src/components/Board.jsx:118 | the delete filter: the result is no longer than the lane and no task left in it has the deleted id |
| `KanbanBoard.WithoutIdMembers` | src/components/Board.jsx:118 | the filter keeps exactly the tasks whose id differs from the deleted id |
| `KanbanBoard.WithoutIdConcat` | src/components/Board.jsx:118 | the filter keeps the order of the remaining tasks: filtering a concatenation filters each part |
| `KanbanBoard.WithoutIdAbsent` | src/components/Board.jsx:118 | deleting an id no task carries leaves the lane unchanged |
| `KanbanBoard.WithoutUniqueId` | src/components/Board.jsx:118 | in a lane with unique ids, deleting by the id of the task at position k removes exactly that task |
| `KanbanBoard.AfterDelete` | src/components/Board.jsx:113-131 | status 200 keeps in the lane exactly the tasks with another id; any other status or a network error leaves the board unchanged; other lanes are untouched |
| `KanbanBoard.Board.HandleDeleteTask` | src/components/Board.jsx:106-132 | the lanes become the delete applied to the old lanes; the edited task is unchanged |
| `KanbanBoard.EditedById` | src/components/Board.jsx:155-159 | the map keeps the length, replaces text and description of every task with the id and keeps every other task as it was |
| `KanbanBoard.EditKeepsIds` | src/components/Board.jsx:157 | an edit keeps every task's id and its other fields |
| `KanbanBoard.Board.IsEditing` | src/components/Board.jsx:188-191 | encodes `isEditing`: true exactly when a task is being edited and its id is the one asked about |
| `KanbanBoard.Board.HandleEditTask` | src/components/Board.jsx:135-173 | with no task being edited, nothing is sent or changed; with status 200 the edited task's lane is rewritten and editing ends; otherwise the board and the edited task stay |
| `KanbanBoard.Board.HandleEditClick` | src/components/Board.jsx:176-191 | after the click, exactly the clicked task counts as being edited; the lanes are unchanged |
| `KanbanBoard.Board.HandleCancelEdit` | src/components/Board.jsx:184-191 | after cancelling, no task counts as being edited; the lanes are unchanged |
| `KanbanBoard.FindById` | src/components/Board.jsx:215 | `find` returns the first task with the id, or nothing exactly when no task has it |
| `KanbanBoard.Drop` | src/components/Board.jsx:207-223 | the drop logic: a drop does nothing exactly when source and destination lanes are the same; it reports a missing task exactly when the lanes differ and the source lane has no task with the id; in every other case it deletes the dragged id and sends a create request with the first matching task's text and description and the destination lane's key, and the lanes become the delete answer applied and then the create answer; a drop that sends nothing changes nothing; the lane that is neither source nor destination is untouched |
| `KanbanBoard.Board.HandleDrop` | src/components/Board.jsx:207-223 | the drop's effect and outcome are those of the drop function on the old lanes; the edited task is unchanged |
| `KanbanBoard.DropSameColumn` | src/components/Board.jsx:213 | a drop onto the source lane changes nothing and sends nothing |
| `KanbanBoard.DropMissingTask` | src/components/Board.jsx:215-218 | a drop of an id the source lane does not hold sends no request and changes nothing (the handler fails on `task.id`) |
| `KanbanBoard.DropMoves` | src/components/Board.jsx:207-223 | if both answers succeed and ids are unique: the task leaves the source lane, the rest keep their order, the server's task is appended to the destination, the third lane is untouched, the total count is unchanged, and the create request carries only text and description |
| `KanbanBoard.DropAnswersCommute` | src/components/Board.jsx:217-221 | the delete and the create of a drop touch different lanes, so the board is the same whichever answer arrives first |
| `KanbanBoard.DropWithFailedDelete` | src/components/Board.jsx:217-221 | a failed delete with a successful create keeps the source lane and adds one task in total |
| `Types.Rank` | app/types/index.ts:3-7 | each board key has one position in the declared key order |
| `DndUtils.FirstMatch` | app/utils/dndUtils.ts:9 | `find` on one lane gives the first card with the id, or nothing exactly when no card has it |
| `DndUtils.ScanKeys` | app/utils/dndUtils.ts:7-12 | the loop returns the first key in the list whose lane has a matching card, with that lane's first match, or a pair of nulls when none has one |
| `DndUtils.FindCardInBoard` | app/utils/dndUtils.ts:3-13 | both parts are null or both are set; nulls exactly when no lane has the id; otherwise the card is in the returned lane with the requested id, no earlier key has a match, and no earlier card of that lane matches |
| `TtlStorage.Read` | app/utils/localStorage.ts:12-26 | a value is returned exactly when the key is present and now is not past its expiry, and then storage is unchanged; otherwise the key is gone afterwards; no other key changes |
| `TtlStorage.ReadAbsent` | app/utils/localStorage.ts:13-15 | reading a missing key returns null and changes nothing |
| `TtlStorage.ReadExpired` | app/utils/localStorage.ts:20-23 | reading an expired entry returns null and removes only that key |
| `TtlStorage.SetThenRead` | app/utils/localStorage.ts:2-25 | a write with a non-negative lifetime, read back at the same instant, returns the value written |
| `TtlStorage.SetExpiresAfterTtl` | app/utils/localStorage.ts:2-25 | a write stays readable up to and including instant now + ttl (the comparison is strict) and is gone, with only that key removed, after it |
| `TtlStorage.Store.constructor` | app/utils/localStorage.ts:1-31 | storage starts empty |
| `TtlStorage.Store.SetData` | app/utils/localStorage.ts:2-9 | stores the value with expiry now + ttl under the key, replacing any earlier entry; no other key changes |
| `TtlStorage.Store.GetData` | app/utils/localStorage.ts:12-26 | result and new storage are those of the read function |
| `TtlStorage.Store.RemoveData` | app/utils/localStorage.ts:28-31 | the key is deleted and every other key is kept |
| `JsText.IsWhiteSpace` | app/page.tsx:45 | encodes `\s`, which is also the set `trim` strips (lines 51 and 82): the ECMAScript WhiteSpace characters TAB, VT, FF, SP, NBSP, ZWNBSP and the Zs spaces (U+1680, U+2000..U+200A, U+202F, U+205F, U+3000), plus the LineTerminator characters LF, CR, LS and PS |
| `JsText.IsLineTerminator` | app/page.tsx:96 | encodes the characters the pattern's `.` does not match: LF, CR, LS (U+2028) and PS (U+2029) |
| `JsText.ContainsDigit` | app/page.tsx:218 | encodes `/\d/.test`: some character of the string is a digit 0-9 |
| `JsText.LeadingWhiteSpace` | app/page.tsx:82 | counts the white space `trim` strips at the start: all of it is white space and the next character is not |
| `JsText.TrailingWhiteSpace` | app/page.tsx:82 | counts the white space `trim` strips at the end |
| `JsText.Trim` | app/page.tsx:82 | the trimmed string is a contiguous part of the input with only white space before and after it, it is empty exactly when the input is all white space, and otherwise it starts and ends with non-white-space, which fixes it uniquely |
| `AuthPage.MatchesEmailRegex` | app/page.tsx:45 | encodes `^[^\s@]+@[^\s@]+\.[^\s@]+$`: three non-empty runs of characters that are neither white space nor `@`, separated by `@` and then `.` |
| `AuthPage.EmailRegexHasShape` | app/page.tsx:45 | a string the pattern accepts has no white space, one `@` and an inner `.` after it |
| `AuthPage.EmailShapeMatchesRegex` | app/page.tsx:45 | a string with no white space, one `@` and an inner `.` after it is accepted by the pattern |
| `AuthPage.EmailRegexShape` | app/page.tsx:45-46 | the email pattern accepts exactly the strings with no white space, one `@`, something before it, and a `.` after it that is neither the first nor the last character of the part after the `@` |
| `AuthPage.InSymbolClass` | app/page.tsx:96 | encodes the symbol class of the password pattern: the characters `@$!%*?&#^()=<>{}[]~`, the vertical bar, and `+-_` read as the range U+002B..U+005F |
| `AuthPage.MatchesStrongPassRegex` | app/page.tsx:95-96 | encodes the password pattern: the four lookaheads (lower, upper, digit, symbol) each find a character before any line terminator, no line terminator occurs, and there are at least 8 characters |
| `AuthPage.UpperAndDigitAreSymbols` | app/page.tsx:96 | every upper-case letter and digit is in the symbol class, because of its `+-_` range |
| `AuthPage.StrongPassIff` | app/page.tsx:95-97 | the password pattern accepts exactly: no line terminator, at least 8 characters, a lower-case letter, an upper-case letter and a digit |
| `AuthPage.SymbolFreePasswordAccepted` | app/page.tsx:96 | the symbol-free password `Password1` passes the strength check |
| `AuthPage.CheckLogin` | app/page.tsx:45-54 | the email is checked first, then a non-blank password; exactly one message is reported for the first failure; an accepted login sends the whole login record |
| `AuthPage.CheckSignUp` | app/page.tsx:81-108 | checks run in order (trimmed user name of 3 or more, email, strength, confirmation) and the first failure's message is the result; acceptance holds exactly when all four pass, and the body is user name, email and password only |
| `AuthPage.SymbolFreeSignUpAccepted` | app/page.tsx:81-116 | a sign-up whose password has no symbol is sent to the server |
| `AuthPage.Page.constructor` | app/page.tsx:18-28 | both forms start empty, "remember me" is off, and the user name has no digit |
| `AuthPage.Page.SetLoginEmail` | app/page.tsx:152 | a keystroke changes only the login email |
| `AuthPage.Page.SetLoginPassword` | app/page.tsx:159-161 | a keystroke changes only the login password |
| `AuthPage.Page.ToggleRememberMe` | app/page.tsx:167-169 | clicking the label flips "remember me" and changes nothing else |
| `AuthPage.Page.SetUserName` | app/page.tsx:217-223 | a value containing a digit is refused with a toast and the old name is kept; any other value is taken; the stored name never contains a digit |
| `AuthPage.Page.SetSignUpEmail` | app/page.tsx:229-231 | a keystroke changes only the sign-up email |
| `AuthPage.Page.SetSignUpPassword` | app/page.tsx:238-240 | a keystroke changes only the sign-up password |
| `AuthPage.Page.SetConfirmPassword` | app/page.tsx:247-249 | a keystroke changes only the confirmation |
| `AuthPage.Page.HandleLogin` | app/page.tsx:40-74 | a rejected form sends nothing and shows its one message; after a successful login the user id is stored for 2592000000 ms only when "remember me" is on, and the page goes to the user's dashboard; a server error stores nothing |
| `AuthPage.Page.HandleSignUp` | app/page.tsx:76-128 | a rejected form sends nothing and shows its one message; an accepted one sends user name, email and password, and shows the server's result followed by "Sign-up successful!" |
| `AuthPage.RestoreSession` | app/page.tsx:30-36 | a live, non-empty remembered id gets a fresh 30-day lifetime and sends the browser to the user's page; otherwise no redirect happens, and an expired id is removed |
| `DraftForm.LevelOption.Value` | app/component/Column.tsx:84-88 | every priority button selects a level from 1 to 3 |
| `DraftForm.WithField` | app/component/Column.tsx:23-27 | an input edit sets only the named field and leaves id, level and the other text fields unchanged |
| `DraftForm.ButtonClass` | app/component/Column.tsx:95-103 | encodes the button colours: green, yellow or red for the selected level 1, 2 or 3, grey otherwise |
| `DraftForm.HighlightIff` | app/component/Column.tsx:95-103 | a priority button is highlighted exactly when its value equals the draft's level |
| `DraftForm.ExactlyOneHighlighted` | app/component/Column.tsx:95-103 | for a level from 1 to 3, exactly one button is highlighted |
| `DraftForm.Column.constructor` | app/component/Column.tsx:15-21 | the draft starts as id -1, empty texts and level 1 |
| `DraftForm.Column.HandleChange` | app/component/Column.tsx:23-27 | the draft becomes the old draft with one field replaced; its level stays within 1 to 3 |
| `DraftForm.Column.SelectLevel` | app/component/Column.tsx:92-93 | a priority button sets the level and changes no other field |
| `DraftForm.Column.HandleSubmit` | app/component/Column.tsx:29-32 | submit hands the column id and the draft with the timestamp as id to the board once, then the draft is the initial one again |
| `CardView.BadgeFor` | app/components/Card.tsx:31 | the lookup is total: the grey "None" badge appears exactly for levels outside the table |
| `CardView.BadgeTable` | app/components/Card.tsx:7-11 | levels 1, 2 and 3 give Low/green, Medium/yellow and High/red; every other level gives None/grey |
| `CardView.BadgesDistinct` | app/components/Card.tsx:7-11 | two different levels of the table get different labels and colours |
| `CardView.HandleDelete` | app/components/Card.tsx:32-37 | the delete button calls `onDelete` exactly once, with the card's database id |

## Left out

- Network, timers and browser effects are not modelled: `fetch` and URLs, response parsing, the `setTimeout` delays and the mount timer of `Board.jsx`, toasts and console logging in `Board.jsx`, `router.push`/`refresh` (only the target path is returned), and the DOM reads of the add inputs. Server answers and `Date.now()` are parameters.
- `handleDragStart`/`handleDragOver` and the `dataTransfer` round trip are event plumbing. `HandleDrop` takes the dragged id and source lane as parameters.
- Task ids on the single-page board are strings, as `dataTransfer` returns them. Numeric ids, which would never equal the stringified dragged id, are not modelled.
- The inline edit inputs that copy typed text into `editedTask` (`Board.jsx` 247-249 and the like) are not modelled. `HandleEditTask` receives the new text and description directly, so a field left `undefined` is not represented.
- `FetchDataAndAddTasks` accepts only the three lane keys in the response. A response naming another key would make the JavaScript updater throw; that case is not modelled.
- The drop's delete and create requests run concurrently in the source. The model applies the delete answer first. `DropAnswersCommute` shows that the order does not change the result.
- Strings are sequences of Unicode code points. JavaScript regular expressions and `.length` count UTF-16 code units, so for characters outside the Basic Multilingual Plane, the 8-character minimum and `.` matching can differ.
- JSON serialisation in storage is not modelled. An item is stored directly as a (value, expiry) pair, and values are assumed to survive `JSON.stringify`/`JSON.parse` unchanged.
- Purely visual state is not modelled: `showPassword`, the login/sign-up flip, the `isOver` highlight, dnd-kit hooks and all styling. The column's `onStartAdd`/`onCancelAdd` only forward to the parent.
- The dashboard pages that call `findCardInBoard`, the REST route handlers, the database layer (`app/lib/db.ts`) and token signing (`app/utils/jwt.ts`) are not part of this model.
- `Board.jsx` changes state only after a successful answer; there is no optimistic update or rollback, so none is modelled.
