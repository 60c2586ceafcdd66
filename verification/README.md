# Task manager CLI — a Dafny model

The program is a single-file interactive task tracker (`task_manager.py`). A user
registers or logs in against a credential store (user name → plaintext
password, kept in `users.json`), and then adds, views, deletes and completes
tasks in a personal task list kept in `<username>_tasks.json`. Every change is
saved at once by rewriting the whole file.

This project models the in-memory logic behind each menu action as pure
functions over immutable values:

- `wrappers.dfy` — `Option`, standing for Python's `None` and for a line that `int(...)` cannot parse.
- `tasks.dfy` (module `Tasks`) — the `Task` record, the ordered task list, and
  add / delete / complete. Ids are `len + 1` at the time of adding and are NOT
  unique, so delete and complete act on the first task whose id matches.
- `credentials.dfy` (module `Credentials`) — register and login over `map<string, string>`.
- `task_files.dfy` (module `TaskFiles`) — the per-user file name
  `username + "_tasks.json"`, its inverse and its injectivity.
- `shell.dfy` (module `Shell`) — the auth menu and task menu as one state
  machine over a `Session` (screen, credential map, per-user task lists).
  Prompt answers are parameters.

Two consequences of the code are worth stating:

- Ids are `len(tasks) + 1` when a task is added, so a delete followed by an
  add reuses an id (`Tasks.IdReusedAfterDelete`).
- `main` enters the task menu only when `login()` returns a non-empty name
  (`if username:`, task_manager.py:197), so a user registered under the empty
  name can log in but never reaches it (`Shell.LoginOpensTaskMenu`).

Per-user task files are modelled as a map from user name to task list. That
is sound because `TaskFiles.TaskFilePathInjective` shows that distinct names
give distinct files. `task_manager` reads the list once per session and saves
it after every change. So reading the map again at each step gives the same
lists.

## Model

| member | source | states |
|---|---|---|
| Credentials.Register | task_manager.py:28-41 | an existing name is refused: nothing is returned and the map is unchanged. Otherwise the map gains exactly name → password, every other entry is kept, and the name is returned (which `main` discards, so registering logs nobody in) |
| Credentials.Login | task_manager.py:43-54 | succeeds, returning the name, if and only if the name is stored with exactly the supplied password; an unknown name never succeeds |
| Credentials.RegisteredUserCanLogIn | task_manager.py:28-54 | a successful registration is followed by a successful login with the same password |
| Credentials.RegisterKeepsOtherLogins | task_manager.py:33-39 | registration does not change the login answer for any existing account or any other name |
| Credentials.LoginPasswordIsUnique | task_manager.py:49 | at most one password logs a given name in |
| TaskFiles.TaskFilePath | task_manager.py:74-76 | the file name is the user name followed by `_tasks.json` |
| TaskFiles.OwnerOf | task_manager.py:74-76 | inverse of the file-name rule: a name ending in `_tasks.json` maps back to the user whose file it is, and any other name maps to no user |
| TaskFiles.OwnerOfTaskFilePath | task_manager.py:74-76 | removing the suffix from a user's file name gives back that user |
| TaskFiles.TaskFilePathInjective | task_manager.py:74-76 | distinct user names never share a task file |
| TaskFiles.TaskFileIsNotUsersFile | task_manager.py:74-76 | no user's task file is `users.json` |
| Tasks.FirstIndex | task_manager.py:129-130 | the position of the first task carrying the id: it matches, no earlier task does, and there is no position exactly when no task has the id |
| Tasks.ScanForId | task_manager.py:129-135 | the front-to-back scan finds a task exactly when the id is present, and then it stops at the first match |
| Tasks.Add | task_manager.py:97-106 | appends one task with id `len + 1`, the given title, description, due date and priority, not completed; earlier tasks are unchanged and stay in order |
| Tasks.DeleteFirst | task_manager.py:129-134 | with a matching id, the length drops by one. The first match is removed. Tasks before it are unchanged and the tasks after it shift down one place in order. Without a match nothing changes |
| Tasks.CompleteFirst | task_manager.py:145-147 | with a matching id, only the first match has `completed` set; its other fields, the length, the order and all other tasks stay the same. Without a match nothing changes |
| Tasks.DeleteTask | task_manager.py:124-138 | an unparsable id reports an invalid format; an unknown id reports not found; both leave the list unchanged. A known id removes the first match and reports its title |
| Tasks.CompleteTask | task_manager.py:140-154 | same error handling as delete; a known id completes the first match and reports its title |
| Tasks.DeleteFirstReinserted | task_manager.py:129-134 | putting the removed task back at its position rebuilds the original list |
| Tasks.DeleteFirstMultiset | task_manager.py:129-134 | the multiset of tasks loses exactly the removed task |
| Tasks.DeleteFirstCounts | task_manager.py:129-134 | the count of the deleted id drops by one and every other id's count is unchanged; the id is still present afterwards exactly when it occurred at least twice |
| Tasks.CompleteFirstKeepsIds | task_manager.py:145-147 | complete changes no id, so which ids are present, and where each first occurs, are unchanged |
| Tasks.CompleteFirstMarksMatch | task_manager.py:145-147 | after completing a present id, the first task with that id is completed |
| Tasks.CompleteFirstIdempotent | task_manager.py:145-150 | completing the same id twice gives the same list as completing it once |
| Tasks.AddAllAppends | task_manager.py:104-106 | a run of adds keeps the existing list as it was. It appends one task per set of answers, with ids continuing from the list's length |
| Tasks.SequentialAddsNumberFromOne | task_manager.py:104-106 | N adds from an empty list give ids 1..N in list order, each with its own answers and not completed |
| Tasks.SequentialAddsHaveDistinctIds | task_manager.py:104-106 | adds alone, from an empty list, give every task a different id |
| Tasks.IdReusedAfterDelete | task_manager.py:104-134 | on a list numbered 1..N (N ≥ 2), deleting id 1 and then adding gives two tasks with id N |
| Shell.Step | task_manager.py:156-203 | one menu pass. The auth menu never touches task lists and the task menu never touches credentials. '1' at the auth menu stores the map register returns; '2' there never changes the credential map; '3' there exits, and nothing else does; exit is absorbing. The task menu is entered only by a matching login under a non-empty name. '5' in the task menu returns to the auth menu, and nothing else leaves it. It changes no other user's list |
| Shell.StepKeepsConsistent | task_manager.py:183-198 | a step keeps the session consistent: the task-menu user is registered and non-empty, and only registered users have saved lists |
| Shell.RunKeepsConsistent | task_manager.py:183-203 | every run of inputs from a consistent session stays consistent |
| Shell.ExitIsFinal | task_manager.py:199-201 | after exit no input changes anything |
| Shell.LoginOpensTaskMenu | task_manager.py:195-198 | login opens the task menu for the typed name exactly when the name is non-empty, registered and the password matches, and then changes nothing else (credentials and task lists stay as they were); otherwise nothing changes |
| Shell.InvalidChoiceChangesNothing | task_manager.py:180-203 | a choice outside the menu's options leaves the whole session unchanged |
| Shell.FailedLookupWritesNothing | task_manager.py:128-153 | delete and complete with an unparsable or unknown id leave the session unchanged (nothing is saved) |
| Shell.TaskMenuSavesActionResult | task_manager.py:169-176 | add, delete and complete save the list the matching list operation returns to the current user's store; view changes nothing |
| Shell.BuyMilkScenario | task_manager.py:183-203 | register alice, log in, add "Buy milk", complete id 1: alice's saved list is exactly one completed task with id 1 |

## Left out

- JSON loading and saving (`load_users`, `save_users`, `load_tasks`, `save_tasks`): file I/O and the `json` library. The model starts from the file contents, and each action returns the contents it would write. The fallback to an empty store on a malformed file is not modelled. A missing task file reads as an empty list (`Shell.LoadTasks`).
- The save → load round trip of task fields: it depends on the `json` library's encoding, which is not part of this model.
- Terminal I/O (`input`, `getpass`, `print`, `clear_screen`): prompt answers are parameters (`Shell.Answers`), and messages are modelled only as `Tasks.Outcome`.
- `view_tasks` table rendering (PrettyTable, a foreign library) and `Task.__repr__`. The constant check-mark glyph in `__repr__` affects display only.
- Python's `int()` parsing rules: abstracted as `Option<int>`, where `None` means the line did not parse.
- TaskFiles.TaskFilePathInjective: injective as strings only. Operating-system path rules (`./a` and `a` naming the same file, case-insensitive file systems, separators inside names) are not modelled.
- Several processes sharing the same files: the program has no locking, and concurrency is outside the model.
