# Drag-and-drop project board — a Dafny model

The repository is a browser task board written in TypeScript. A form creates
"projects" (title, description, number of people). A single in-memory store
keeps them in insertion order and notifies its subscribers after every change.
Two list views, "active" and "finished", each filter the store's snapshot by
status. Dropping a card on a list moves that project to the list's status.

This project models the logic of `src/index.ts` as pure Dafny functions over
immutable values, and proves what that logic promises:

- `Options.dfy`: the `Option` wrapper.
- `Text.dfy`: JavaScript's `trim`, with the exact ECMAScript whitespace set, and
  the `length` of a string in UTF-16 code units.
  Also the decimal `toString` of an integer, with a parser that reads it back.
- `Validation.dfy`: `validate` and its constraint object.
- `ProjectState.dfy`: `Project`, `ProjectStatus` and the store (`State` /
  `ProjectState`). The store keeps a log of every listener call it has made,
  with the snapshot each call carried. Listeners are known by their
  registration slot.
- `ProjectList.dfy`: the status filter in each list's listener, and the drop
  handler's mapping from list to status.
- `ProjectInput.dfy`: the three field checks of the form and the submit
  gating.
- `ProjectItem.dfy`: the "1 person" / "n persons" label of a card.
- `Board.dfy`: the page as a whole. The store is built once, and the active
  list registers its listener before the finished list. User actions (submit,
  drop) become events. The main lemma: after any sequence of events, each list
  shows exactly the store's projects of its own status, in store order.

Points where the code is narrower or looser than one might expect, and which
the model follows:

- Project ids are drawn with `Math.random()` (src/index.ts:55) and never
  checked for uniqueness. The model takes the id as a parameter and assumes
  nothing about uniqueness. `moveItem` acts on the first project with the id,
  as `Array.prototype.find` does (src/index.ts:61).
- The form's numeric bounds are strict (`min < value < max` with 1 and 5,
  src/index.ts:97-102 and 266-271). Among integers only 2, 3 and 4 people are
  accepted. In the source any number strictly between 1 and 5 passes, so
  `+enteredPeople` of "2.5" (src/index.ts:267) is stored as 2.5; the model's
  people count is an integer (see "## Left out").
  Likewise `minLength: 5` means a trimmed description needs a length of at
  least six.
- String lengths are JavaScript `length` values: UTF-16 code units, not
  characters. A character outside the Basic Multilingual Plane counts twice.

## Model

| member | source | states |
|---|---|---|
| Text.Trim | src/index.ts:89-95 | `trim()` returns the infix of the input left after cutting a whitespace-only prefix and a whitespace-only suffix; it is empty exactly when the input is whitespace only, and otherwise starts and ends with a non-whitespace character |
| Text.Utf16Length | src/index.ts:91-96 | JavaScript's `length` lies between the number of characters and twice that, and equals the number of characters exactly when all are in the Basic Multilingual Plane |
| Text.Utf16LengthAppend | src/index.ts:91-96 | the length of a concatenation is the sum of the lengths, so with Text.Utf16LengthOfChar every string's length is the sum of its characters' code units |
| Text.Utf16LengthOfChar | src/index.ts:91-96 | one character is one code unit in the Basic Multilingual Plane and two outside it |
| Text.AstralLength | src/index.ts:91-96 | a string of characters outside the Basic Multilingual Plane has twice as many code units as characters |
| Text.TrimIdempotent | src/index.ts:89-95 | trimming an already trimmed string changes nothing |
| Text.IntToStringNotBlank | src/index.ts:89 | the text of any number has a non-whitespace character and is its own trim |
| Text.IntToString | src/index.ts:89 | `toString()` of a number, also used for the label at line 148: the text starts with a minus sign exactly when it is negative, is otherwise digits, has no leading zero except in "0", and is never "-0" |
| Text.IntToStringRoundTrip | src/index.ts:89 | the decimal text of a number reads back as the same number |
| Text.CanonicalDecimalUnique | src/index.ts:148 | a canonical decimal text that reads back as `n` is exactly the text of `n`, so the text of a number is determined by its value |
| Validation.Validate | src/index.ts:86-104 | a value passes exactly when every enabled rule holds: required means not blank; trimmed length in UTF-16 code units strictly between the length bounds; number strictly between the numeric bounds |
| Validation.NoConstraintsAcceptsAll | src/index.ts:86-87 | with no constraint set, every value passes |
| Validation.RequiredRejectsBlank | src/index.ts:88-90 | `required` rejects a string exactly when it is empty or whitespace only |
| Validation.RequiredAcceptsEveryNumber | src/index.ts:88-90 | the text of a number is never blank, so `required` never rejects a number |
| Validation.LengthBoundsIgnoredForNumbers | src/index.ts:91-96 | `minLength` and `maxLength` have no effect on a number |
| Validation.NumericBoundsIgnoredForStrings | src/index.ts:97-102 | `min` and `max` have no effect on a string |
| Validation.MoreConstraintsRejectMore | src/index.ts:87-103 | the checks are combined with AND: enabling more checks never makes a rejected value pass |
| Validation.LengthBoundsAreStrict | src/index.ts:91-96 | a trimmed length (in UTF-16 code units) equal to `minLength` or `maxLength` is rejected; each length bound holds iff the strict comparison does |
| Validation.NumericBoundsAreStrict | src/index.ts:97-102 | a value equal to `min` or `max` is rejected; with both bounds, a number passes iff `min < n < max` |
| ProjectState.AddListener | src/index.ts:33-35 | registering a listener adds one slot and calls no one; the new listener has received no snapshot |
| ProjectState.Round | src/index.ts:69-71 | one pass of the loop calls listener `i` as the `i`-th call, for every registered `i`, each with the same snapshot |
| ProjectState.UpdateListeners | src/index.ts:68-72 | the log is the earlier log followed by one call per registered listener, in registration order, each with the full current list; unregistered slots receive nothing; the projects are untouched |
| ProjectState.AddProject | src/index.ts:54-58 | the list grows by one; earlier projects keep their values and order; the new last project has the given fields and status Active; the earlier log is kept and followed by one call per registered listener in registration order, each with the new list |
| ProjectState.FindProject | src/index.ts:61 | the position found holds the id and no earlier project has it; no position is found only when no project has the id |
| ProjectState.MoveItem | src/index.ts:60-66 | an unknown id, or the current status, leaves the store and log unchanged; otherwise only the first project with the id gets the new status, and the earlier log is followed by one call per registered listener, in registration order, with the new list |
| ProjectState.MoveItemChangesOnlyStatus | src/index.ts:61-63 | a successful move keeps the length, leaves every other project equal, and changes no field of the moved project except `status` |
| ProjectState.MoveItemIdempotent | src/index.ts:62 | repeating a move is a no-op, so it notifies no one a second time |
| ProjectList.Belongs | src/index.ts:224-229 | the active list's filter callback keeps exactly the Active projects and the finished list's exactly the Finished ones |
| ProjectList.DropStatus | src/index.ts:211 | a drop on a list asks for exactly the status that the list's filter keeps |
| ProjectList.BelongsToExactlyOne | src/index.ts:224-229 | each project passes exactly one of the two lists' filters |
| ProjectList.Filter | src/index.ts:224-230 | the filtered list is no longer than the snapshot and holds only projects of the list's status |
| ProjectList.FilterKeepsStoreOrder | src/index.ts:224-230 | the filtered list is the snapshot read at the increasing positions of all matching projects, so it keeps store order and drops no match |
| ProjectList.FilterMembership | src/index.ts:224-230 | a project is in a list exactly when it is in the snapshot and has that list's status |
| ProjectList.FilterPartitions | src/index.ts:223-230 | the two lists' sizes add up to the snapshot's size, and together they hold each project as often as the snapshot does |
| ProjectList.FilterNoOverlap | src/index.ts:224-229 | no project appears in both lists |
| ProjectList.DragDrop | src/index.ts:209-212 | a drop of an unknown id changes nothing; otherwise the first project with the id ends in the target list's filter; the listener count never changes; a drop on its own list changes nothing; a drop on the other list changes only that project's status to the list's status and appends one call per registered listener, in registration order, with the new list |
| ProjectInput.GatherUserInput | src/index.ts:250-278 | the entered values come back untrimmed exactly when the title is not blank, the trimmed description is at least 6 UTF-16 code units long and 1 < people < 5; otherwise nothing comes back |
| ProjectInput.TitleCheck | src/index.ts:255-258 | the title passes iff it has a non-whitespace character |
| ProjectInput.DescriptionCheck | src/index.ts:260-264 | the description passes iff its trimmed length in UTF-16 code units is at least 6 |
| ProjectInput.PeopleCheck | src/index.ts:266-271 | the people count passes iff 1 < people < 5 |
| ProjectInput.SubmitHandler | src/index.ts:287-295 | the listener count never changes; valid input adds exactly one Active project with the entered values, keeps the earlier log and appends one call per registered listener, in registration order; invalid input leaves the store and log unchanged |
| ProjectInput.PeopleBoundaries | src/index.ts:266-271 | 1 and 5 people are rejected; 2, 3 and 4 are accepted |
| ProjectInput.DescriptionNeedsSixCharacters | src/index.ts:260-264 | a five-character description is rejected and a six-character one accepted |
| ProjectInput.AstralCharactersCountTwice | src/index.ts:91-96 | a description of `n` emoji passes exactly when `n >= 3`, because each takes two code units |
| ProjectInput.MixedDescriptionLength | src/index.ts:91-96 | a letter followed by `n` emoji, `1 + 2n` code units, passes exactly when `n >= 3`; "a" and two emoji are rejected |
| ProjectInput.BlankTitleRejected | src/index.ts:255-258 | empty and whitespace-only titles are refused |
| ProjectItem.PeopleLabel | src/index.ts:144-150 | the label is "1 person" exactly for one person; otherwise it is a canonical decimal text (no leading zero, no "-0") that reads back as the count, followed by " persons" |
| ProjectItem.PeopleLabelUnique | src/index.ts:144-150 | any text made of a canonical decimal that reads back as the count, followed by " persons", is the label, so the label's text is fixed |
| Board.AssignedProjects | src/index.ts:223-231 | a list shows only projects of its own status, and a project is shown exactly when it is in the list's last snapshot and has that status |
| Board.Startup | src/index.ts:304-306 | after set-up the store is empty, two listeners are registered, and neither has been called |
| Board.StepKeepsSynced | src/index.ts:223-231 | after any submit or drop, every registered listener's last snapshot is still the current list |
| Board.RunKeepsSynced | src/index.ts:68-72 | the same holds after any sequence of events |
| Board.ListsFollowStore | src/index.ts:223-231 | after any sequence of events from set-up, each list shows exactly the store's projects of its status, in store order, and the two lists together cover the store |
| Board.BuildBridgeScenario | src/index.ts:287-295 | submitting ("Build bridge", "Large civil project", 3) gives one Active project, shown only in the active list; dropping it on the finished list makes it Finished, shown only in the finished list |

## Left out

- Rendering and the DOM (src/index.ts:117-139, 171-199): the
  `Component` base class, template cloning, element insertion, list clearing
  and text assignment. These are browser plumbing. A list's rendered content
  is modelled as its `assignedProjects`.
- Native drag-and-drop events (src/index.ts:159-165, 201-217):
  `dataTransfer`, `preventDefault`, the payload-type check in `dragOver`, the
  `droppable` class and the `console.log` in `dragEnd`. These are browser APIs.
  Only the effect of a drop is modelled: an id string and a target list lead
  to a `moveItem` call. The id may be any string, including one not in the
  store.
- `alert`, reading the input elements and clearing them (src/index.ts:251-253,
  274, 280-284). These are UI side effects. The entered values are parameters.
- The `autoBind` decorator and the hot-reload block (src/index.ts:2-6,
  106-115). These are `this` binding and bundler plumbing.
- Id generation by `Math.random().toString()` (src/index.ts:55). This is
  randomness, so the id is a parameter. Uniqueness is neither assumed nor proved.
- JavaScript numeric coercion (`+enteredPeople`, NaN, fractional numbers,
  Infinity). This is floating-point semantics. People counts and constraint
  bounds are integers.
- Text.IntToString: renders every integer in plain decimal. JavaScript switches
  to exponent notation from 10^21 on. It is used for `required` on a number
  (src/index.ts:89), which no text can make blank either way, and for the
  count in ProjectItem.PeopleLabel (src/index.ts:148). There the difference
  cannot show: the form lets through only numbers strictly between 1 and 5,
  and none of those prints in exponent notation.
- Lone surrogates: a JavaScript string may hold an unpaired UTF-16 surrogate,
  which a Dafny `string` cannot. Such input is not modelled; every other
  string's length is counted in code units by Text.Utf16Length.
- The singleton `createInstance` (src/index.ts:46-52). It concerns object
  identity. The model has one explicit store value.
- Object aliasing in snapshots: `slice()` copies the array but shares the
  `Project` objects, so a later `moveItem` also changes a snapshot delivered
  earlier. Snapshots here are values. Every status change notifies all
  listeners, so each list's last snapshot is the current list either way.
- webpack.prod.js and webpack.dev.js: build configuration, with no runtime
  logic.
