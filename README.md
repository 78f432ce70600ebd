# Task tracker core in Dafny

This project models the core of a small command-line task tracker. Tasks live
in a text file, one per line. Each task has an:

- id: derived from a SHA-1 hash, or given by the user;
- optional parent id;
- description;
- timestamp;
- list of tags.

The user names a task by any prefix of its id that picks exactly one task. The
tracker computes, for display, the shortest prefix of each id that no other id
starts with.

The model covers `src/task.rs` and `src/task_list.rs`:

- **`Tasks`** (`tasks.dfy`): the `Task` record as a class. The id, parent,
  full-id flag and timestamp are `const`, since nothing reassigns them after
  creation. The description and tags are fields that `set_desc`, `add_tag` and
  `remove_tag` update in place. The module also holds `create`,
  `split_once`, `create_from_file_string` and the `desc | json` line format of
  `to_file_string`.
- **`PrefixLookup`** (`prefix_lookup.dfy`): `ResolvePrefix`, a reference
  definition of what `get_full_id` returns, and the lemmas about it. Examples:
  - a success is an id starting with the prefix;
  - `BadPrefix` exactly when no id starts with it;
  - an exact id wins unless two longer ids come first;
  - a resolved id resolves to itself.
- **`PrefixCompression`** (`prefix_compression.dfy`): what `compute_prefixes`
  computes. This is the display prefix of each task, the map from id to prefix,
  and `prefix_max_len`.
- **`IdOrder`** (`id_order.dfy`): the ascending-id order `save` writes in.
- **`TaskLists`** (`task_lists.dfy`): the `TaskList` struct as a class whose
  methods update `tasks`, `prefixes` and `prefixMaxLen`. This covers
  `get_full_id`, `get_task`, `get_children_tasks`, `add_task`, `remove_task`
  (with `force`), `compute_prefixes`, `save` and `create_from_file`.
- **`Text`**, **`Util`** and **`Errors`** are supporting modules:
  - `Text` holds Rust's `trim`, `starts_with`, `String` ordering and whitespace;
  - `Util` holds `Option`, `Filter` and sub-sequences;
  - `Errors` holds `TaskListError` and `Result`.

Each imperative method is proved against a function. The scan of `get_full_id`
meets `ResolvePrefix`. The loops of `compute_prefixes` meet `PrefixMap`,
`MaxLen` and `DisplayPrefix`. `get_children_tasks` meets `ChildrenOf`. The
lemmas state what those functions mean.

Code the core calls but that is not part of this model is passed in as the
fields of a `Foreign` value: SHA-1 as lower-case hex, Rust's `Display` for
`f64`, and serde_json's encoder and decoder. The clock reading is a parameter
`now`. The file's contents are a parameter `lines`, and `save` returns the
lines it would write.

Three behaviours of the code that the model reproduces:

- A forced `remove_task` is not atomic. Each child is removed by looking its
  id up as a prefix (`src/task_list.rs:203-205`). That lookup fails as
  ambiguous when two longer ids starting with the child's id come before it
  in list order. The children removed before the failure then stay removed,
  and the error is returned.
- A line whose JSON half is missing or blank becomes a new task through
  `create` (`src/task.rs:84-86`, `src/task.rs:92`). Its description is the
  untrimmed text before the bar. Its timestamp is the current clock reading,
  and its id is derived from that reading.
- A malformed JSON half panics in `unwrap` (`src/task.rs:88`). The model
  yields `None` for that line, and `CreateFromFile` yields `None` for the
  whole file.

## Model

| member | source | states |
|---|---|---|
| `Tasks.Task.Create` | src/task.rs:100-130 | An explicit id is kept verbatim and flagged to be shown in full. Otherwise the id is the SHA-1 of the description followed by the printed clock reading. The parent and description are as given, the timestamp is the clock reading, and there are no tags. |
| `Tasks.Task.FromRecord` | src/task.rs:88-89 | A task decoded from JSON carries the decoded fields, and its description is set separately. |
| `Tasks.Task.SetDesc` | src/task.rs:46-48 | Only the description changes, to the given one. Every other field is constant or outside the frame. |
| `Tasks.Task.AddTag` | src/task.rs:54-58 | The tags become `WithTag(old, tag)`. The tag is then present, and a duplicate-free tag list stays duplicate-free. |
| `Tasks.Task.RemoveTag` | src/task.rs:60-62 | The tags become `WithoutTag(old, tag)`, and the tag is then absent. |
| `Tasks.WithTagFacts` | src/task.rs:54-58 | Adding a present tag changes nothing. Adding a new one appends it last. The tags held afterwards are the old ones plus `tag`. Adding twice is the same as adding once. |
| `Tasks.WithTagKeepsNoDup` | src/task.rs:55-57 | Adding a tag never creates a duplicate. |
| `Tasks.WithoutTagFacts` | src/task.rs:61 | Every occurrence of the tag is dropped, and every other tag is kept in order. Removing an absent tag changes nothing. Removal is idempotent and keeps the list duplicate-free. |
| `Tasks.SplitOnceFacts` | src/task.rs:69-74 | The first part always exists and holds no bar. A second part exists exactly when the line has a bar, and then the two parts joined by a bar give the line back. Otherwise the first part is the whole line. |
| `Tasks.SplitAtFirstBar` | src/task.rs:69-74 | The split is at the first bar: everything after it, later bars included, is the second part. |
| `Tasks.ParseBareLine` | src/task.rs:91-93 | A line without a bar is a bare, untrimmed description for a new task. |
| `Tasks.ParseBarLine` | src/task.rs:81-90 | After the bar, a blank JSON half gives a fresh task from the untrimmed description. JSON that does not decode is a failure. Otherwise the result is the decoded record with the trimmed description. |
| `Tasks.FileStringRoundTrip` | src/task.rs:33-36 | Take a line written by `to_file_string` whose description has no bar and no surrounding white space, with a JSON codec that reads back what it writes. Parsing that line gives the same description and record again. |
| `Tasks.CreateFromFileString` | src/task.rs:76-98 | A line fails exactly when its JSON half is present, not blank and malformed. Otherwise the new task is the one the parsed line describes. |
| `Text.Trim` | src/task.rs:84-89 | The result neither starts nor ends with white space. It is empty exactly when the input is all white space. |
| `Text.TrimIsInfix` | src/task.rs:84-89 | The result of `Trim` is the part of the input between a blank start and a blank end. With `Trim`'s own contract, this makes it the input without its surrounding white space. |
| `Text.TrimPadded` | src/task.rs:35 | Trimming undoes the space that the line format puts after a trimmed description. |
| `Text.ExtensionSortsAfter` | src/task_list.rs:189 | In Rust's `String` order, an id that properly extends another sorts after it. |
| `IdOrder.InsertById` | src/task_list.rs:189 | Inserting into an id-sorted list keeps it sorted and adds exactly that task. |
| `IdOrder.SortById` | src/task_list.rs:188-189 | The tasks in ascending id order: sorted, and a permutation of the input. |
| `PrefixLookup.ResolvePrefix` | src/task_list.rs:219-239 | The reference outcome of `get_full_id`. The only failures are `AmbiguousPrefix` and `BadPrefix`. |
| `PrefixLookup.ScanStart` | src/task_list.rs:220 | The scan starts in a consistent state with nothing found. |
| `PrefixLookup.ScanStep` | src/task_list.rs:225-232 | Passing an id that is neither equal to the prefix nor a second match keeps the scan consistent. The id is recorded when it starts with the prefix. |
| `PrefixLookup.ScanExact` | src/task_list.rs:222-224 | Meeting an id equal to the prefix resolves to that id. |
| `PrefixLookup.ScanAmbiguous` | src/task_list.rs:225-229 | Meeting a second id that starts with the prefix makes the prefix ambiguous. |
| `PrefixLookup.ScanEnd` | src/task_list.rs:235-238 | At the end of the scan, the recorded id is the answer, or `BadPrefix` when none was recorded. |
| `PrefixLookup.ResolveSound` | src/task_list.rs:219-239 | A resolved id is one of the ids and starts with the prefix. |
| `PrefixLookup.ResolveBadPrefixIff` | src/task_list.rs:235-238 | `BadPrefix` is reported exactly when no id starts with the prefix. |
| `PrefixLookup.ResolveUnique` | src/task_list.rs:219-239 | When exactly one id starts with the prefix, that id is the result. |
| `PrefixLookup.ResolveAmbiguous` | src/task_list.rs:225-229 | `AmbiguousPrefix` means two ids start with the prefix and neither equals it. |
| `PrefixLookup.ResolveExactWins` | src/task_list.rs:222-224 | An id equal to the prefix is the result when at most one matching id comes before it. |
| `PrefixLookup.ResolveOkByPrefixIsUnique` | src/task_list.rs:225-236 | A success through a proper prefix means no id equals the prefix and the result is the only id that starts with it. |
| `PrefixLookup.ResolveMember` | src/task_list.rs:219-239 | A listed id resolves to itself or is ambiguous, never `BadPrefix`. |
| `PrefixLookup.ResolveStable` | src/task_list.rs:197-199 | A resolved id resolves to itself again, so the second lookup made through `get_children_tasks` cannot fail. |
| `PrefixLookup.DuplicateCounts` | src/task_list.rs:225-229 | Two positions whose ids start with the prefix count as at least two matches. |
| `PrefixCompression.UniqueLen` | src/task_list.rs:161-175 | The inner search stops at the least length whose leading part starts no other id; every shorter length clashes. When every length clashes, it stops one past the id's length. |
| `PrefixCompression.PrefixMapKeys` | src/task_list.rs:151-180 | The prefix map has an entry for every task's id and no other key. |
| `PrefixCompression.MaxLenBounds` | src/task_list.rs:150-179 | `prefix_max_len` is at least 1 and at least every recorded length. It equals one of the recorded lengths unless it is still the initial 1. |
| `PrefixCompression.PrefixMapLast` | src/task_list.rs:180 | With repeated ids, the entry is the display prefix of the last task that carries the id. |
| `PrefixCompression.PrefixMapUnique` | src/task_list.rs:152-181 | With distinct ids, every task's entry is its own display prefix. |
| `PrefixCompression.DisplayPrefixFacts` | src/task_list.rs:157-176 | An explicit id is shown in full. Otherwise the prefix leads the id and is empty only for an empty id. It is either the start of no other id or the whole id, and every shorter non-empty leading part starts another id. |
| `PrefixCompression.SplitAtLen` | src/task_list.rs:161-175 | Take two tasks whose ids agree on the first `k` characters and differ at index `k`. The search for either one stops at length `k + 1`. |
| `PrefixCompression.TwoIdsSplitAt` | src/task_list.rs:147-182 | Two tasks with derived ids that first differ at index `k` both show the first `k + 1` characters of their ids, and both record length `k + 1`. |
| `PrefixCompression.TwoCloseIds` | src/task_list.rs:147-182 | Example: the derived ids `abcd1234` and `abce5678` get the prefixes `abcd` and `abce`, and both record length 4. |
| `TaskLists.ChildrenOfFacts` | src/task_list.rs:260-264 | The children are exactly the tasks whose parent is the id, kept in list order. |
| `TaskLists.WithoutIdFacts` | src/task_list.rs:211 | `retain` keeps exactly the tasks with other ids, in order. No task with that id is left, and nothing changes when none had it. |
| `TaskLists.AppendKeepsUnique` | src/task_list.rs:134 | Appending a task with a new id keeps the ids distinct. |
| `TaskLists.LookupDuplicateSound` | src/task_list.rs:104-111 | The duplicate check as written never reports a duplicate that is not one. |
| `TaskLists.LookupMissesDuplicate` | src/task_list.rs:104-111 | The check as written misses the duplicate `ab` in the list `abc, abd, ab`. |
| `TaskLists.LookupDuplicateExactWhenSorted` | src/task_list.rs:104-111 | On a list in the ascending id order that `save` writes, the check as written and the intended check agree. |
| `TaskLists.SearchPrefix` | src/task_list.rs:153-175 | The inner loops of `compute_prefixes` give the search length `ShortLen` and the matching leading part of the id, or the whole id when the search ran past the end. |
| `TaskLists.TaskList.Init` | src/task_list.rs:280-283 | The list built by `create_from_file` holds the given file and tasks, and its prefixes are computed. |
| `TaskLists.TaskList.ComputePrefixes` | src/task_list.rs:147-182 | Afterwards `prefixes` is `PrefixMap` of the tasks and `prefixMaxLen` is `MaxLen`, and the tasks are unchanged. |
| `TaskLists.TaskList.GetFullId` | src/task_list.rs:219-239 | The scan returns exactly `ResolvePrefix` of the ids in list order. |
| `TaskLists.TaskList.GetTask` | src/task_list.rs:241-251 | A lookup failure is passed on. A success gives the first task whose id is the resolved id. |
| `TaskLists.TaskList.GetChildrenTasks` | src/task_list.rs:253-267 | A lookup failure is passed on. A success gives exactly the children of the resolved id, in list order. |
| `TaskLists.SelectChildren` | src/task_list.rs:260-264 | The loop collects exactly `ChildrenOf` the id. |
| `TaskLists.TaskList.AddTask` | src/task_list.rs:98-145 | Uses the corrected duplicate check. `DuplicateTask` exactly when an explicit id is already present. Otherwise `BadParentPrefix` exactly when the parent prefix fails to resolve. Every failure leaves the list unchanged. A success appends one new task after the old ones, with the resolved parent, which is a listed id. Prefixes are recomputed. With an explicit id, distinct ids stay distinct. |
| `TaskLists.TaskList.RemoveTask` | src/task_list.rs:196-217 | The list only ever loses tasks, keeping the rest in order. A failed lookup changes nothing, and an unforced removal of a task with children is refused and changes nothing. Without children, the result is exactly the `retain` of the resolved id. On success, no task has that id or names it as parent, and no task left names any removed task as parent. |
| `TaskLists.TaskList.DropResolved` | src/task_list.rs:211-212 | The closing `retain` and `compute_prefixes` once the children are gone. This step is what gives `RemoveTask` its success facts. |
| `TaskLists.ChildRankDecreases` | src/task_list.rs:199-204 | Each child resolves, if at all, to an id of smaller rank than its parent. This is why the forced recursion ends on acyclic parent links. |
| `TaskLists.RepeatedChildIdHitsOtherTask` | src/task_list.rs:203-204 | Two children of `p` share the id `ab`, and an unrelated root task `abc` comes after them. The first lookup of `ab` finds a child, and `retain` then drops both children. The second lookup of `ab` resolves to `abc`. |
| `TaskLists.RemovalStep` | src/task_list.rs:203-205 | Removing one more child keeps the forced loop's invariant: the list shrinks, and no id of an already-removed child and no dangling parent link is left. |
| `TaskLists.RemovalFinish` | src/task_list.rs:211 | After the children are gone, the final `retain` leaves no task with the id, none naming it as parent, and no dangling link. The prefix is no longer a full id. |
| `TaskLists.NoChildLeft` | src/task_list.rs:199-205 | Once every collected child's id is gone, no task names the removed id as parent. |
| `TaskLists.TaskList.Save` | src/task_list.rs:184-194 | One line per task, in ascending id order, each the task's `to_file_string` line. |
| `TaskLists.LoadTasks` | src/task_list.rs:273-278 | Loading fails exactly when some line is malformed. Otherwise there is one task per line, in order, each built from its line. |
| `TaskLists.CreateFromFile` | src/task_list.rs:270-285 | As `LoadTasks`, and the new list holds the file name and has its prefixes computed. |

## Left out

- Printing: `show`, `show_tasks` (with their timestamp sort and tree drawing) and the `println!` calls in `add_task` and `remove_task` are output only.
- File I/O: opening and reading the file, and writing it in `save`. `create_from_file` takes the lines, and `save` returns them. An unreadable file reads as no lines, so the `IOError` variant is declared but nothing in the model produces it. Lines that `flatten` drops because they fail to read are not modelled.
- SHA-1, the `Display` of `f64` and serde_json: these are opaque functions in `Foreign`. `f64` is a `real`, and the codec is assumed to round-trip only where a lemma requires it, through the predicate `CodecRoundTrips` that `FileStringRoundTrip` takes as a precondition.
- Text as bytes: ids and descriptions are sequences of characters. `prefix.len()` and `&id[..len]` count bytes in the Rust code. They agree with the model for ASCII ids, which every derived (hex) id is. An explicit id is never sliced, because `create` sets `show_full_id` for it (`src/task.rs:116-118`) and only tasks without that flag are sliced (`src/task_list.rs:157-162`). For a non-ASCII explicit id, `len = prefix.len()` (`src/task_list.rs:159`) counts bytes, so the Rust `prefix_max_len` can exceed `MaxLen`. The slice can panic only for a non-ASCII id whose stored record lacks `show_full_id`, which needs a hand-edited file. The model does not capture that panic.
- `TaskLists.LoadTasks`: uses one clock reading `now` for every bare line of a file, where the Rust code reads the clock once per `create` call.
- `TaskLists.TaskList.RemoveTask`: requires, when forced, a ranking of the whole list under which every parent outranks its children. So no parent link in the list may form a cycle. The Rust code recurses without end only on a cycle reachable from the removed task, so this requirement is stronger than what the code needs. The contract does not state which tasks a forced removal takes beyond the facts above. The set is not just the subtree: children are removed by a prefix lookup of their ids, and when two children share an id, the second lookup can resolve to an unrelated task and remove it (`TaskLists.RepeatedChildIdHitsOtherTask`). After a child fails, the contract promises only that the list shrank.
- `TaskLists.TaskList.GetTask`: returns the task object itself, which matches the Rust code's `&mut` borrow. The final `Err(BadPrefix)` is kept but cannot be reached, because the resolved id is always in the list.
- `IdOrder.SortById`: states sorted and a permutation, not the stability of Rust's `sort_by` among equal ids. Equal ids arise only from duplicates.
- `TaskLists.TaskList.AddTask`: models the corrected duplicate check, and the as-written check is kept beside it. See Findings.

## Findings

| source | as written | input that shows it | evidently intended | confidence | as-written member | corrected member |
|---|---|---|---|---|---|---|
| src/task_list.rs:104-111 | `add_task` detects a duplicate explicit id by resolving it as a prefix with `get_task`. Two longer ids starting with it make the lookup ambiguous before the scan reaches the equal id, so no duplicate is reported. | Task ids `abc`, `abd`, `ab` in list order, then `add_task` with explicit id `ab`: the lookup gives `AmbiguousPrefix`, and a second task with id `ab` is appended. | `DuplicateTask` whenever some task already has the id. | not executed; medium (the reordering needs explicit ids, and `save` writes ids in ascending order, where the check is exact) | `TaskLists.IsDuplicateByLookup`, shown by `TaskLists.LookupMissesDuplicate` | `TaskLists.IsDuplicateId`, used by `TaskLists.TaskList.AddTask`, which states `DuplicateTask` exactly for a present id; `TaskLists.LookupDuplicateExactWhenSorted` shows that the two checks agree on id-sorted lists |
