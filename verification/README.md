# To-Do-List core in Dafny

This project models the in-memory logic of the To-Do-List application (`main.py`). The tkinter
windows are not modelled. There are three pieces:

- **Task record and its dictionary codec** (module `Tasks`, `task.dfy`). A `Task` has five string
  fields. `ToDict` writes all five under their JSON key names. `FromDict` reads them back and gives
  each missing key its fixed default: name and due date `""`, priority `"Low"`, category
  `"Personal"`, status `"Pending"`. A JSON object is modelled as `map<string, string>`.
- **UserManager credential store** (modules `Text`, `text.dfy`, and `Users`, `users.dfy`). The store
  is a `map<string, string>` from normalized username to password digest. Usernames are normalized
  with `strip()` then `lower()` (`Text.Normalize`). The digest function is a parameter
  `hash: string -> string` that the model never looks inside. Injectivity is assumed only by the
  wrong-password lemma. `Register` returns the new map and the boolean `register_user` returns.
  That boolean is the result of the users-file write, passed in as `saved`.
- **TaskManager positional CRUD** (module `TaskManagers`, `task_manager.dfy`). A manager is a
  username plus a `seq<Task>`. `AddTask` appends. `UpdateTask`, `DeleteTask` and `MarkCompleted`
  check `0 <= index < len` and return the new manager and that check's result. The source discards
  the result of the `save_tasks()` call that follows each change, and so does the model.
  `GetAllTasks` is the sequence itself. `Open` is the constructor's `load_tasks`. The parsed file is
  its parameter, or `None` for a missing or unreadable file. `ToDicts` is the list `save_tasks` writes.

Two behaviours of the code are worth stating:

- Task files are named from the username the login window passes in, which is stripped but not
  lower-cased (main.py:251, 267, 319). `TaskFile` is therefore built from that username, not the
  normalized one. "Alice" and "alice" sign in to the same account but get different task file
  names, `Alice_tasks.json` and `alice_tasks.json`. Distinct names are not always distinct files,
  because the name is used as a path (main.py:108-110, 122). On a case-insensitive file system
  `Alice_tasks.json` and `alice_tasks.json` are one file. On every file system, `./alice` and
  `alice` are two accounts with different keys whose task files `./alice_tasks.json` and
  `alice_tasks.json` are one file, so each account reads and overwrites the other's tasks
  (`TaskFileUnderPath`).
- Not every malformed file falls back to empty. `load_users` and `load_tasks` catch only JSON
  decoding and I/O errors (main.py:53, 113). The cases that raise instead are listed under
  "## Left out".

## Model

| member | source | states |
|---|---|---|
| Tasks.NewTask | main.py:12-17 | a task built without a status is pending; the other four fields are the arguments |
| Tasks.ToDict | main.py:19-27 | the dictionary has exactly the five keys, and decoding it gives the task back field for field |
| Tasks.FromDict | main.py:29-38 | each field is the dictionary's value when its key is present, otherwise its default (`""`, `Low`, `""`, `Personal`, `Pending`) |
| Tasks.DictRoundTrip | main.py:19-38 | a dictionary holding exactly the five keys survives decode then encode unchanged |
| Tasks.FromDictIgnoresExtraKeys | main.py:30-38 | keys other than the five have no effect on the decoded task |
| Tasks.FromEmptyDict | main.py:32-38 | an empty object decodes to the all-defaults task |
| Text.IsSpace | main.py:72 | the whitespace `strip()` removes: Python's `str.isspace()` code points (listed in its body); space, tab, newline and carriage return are in it, ASCII letters, digits and `_` are not, and none lies outside 0x09..0x3000 |
| Text.Strip | main.py:72 | the result has no whitespace at either end and is no longer than the input |
| Text.StripSlice | main.py:72 | the stripped name is a slice of the input, and everything cut off before and after it is whitespace |
| Text.StripUnique | main.py:72 | any stripped string surrounded by any whitespace strips back to itself, so `Strip` is fully determined |
| Text.Lower | main.py:72 | same length; each character is lowered, with ASCII upper-case letters mapped to lower case and everything else kept |
| Text.Normalize | main.py:72 | the key has no whitespace at either end, no upper-case letter, and is no longer than the username |
| Text.NormalizeIdempotent | main.py:72 | normalizing a normalized key changes nothing |
| Text.NormalizeIgnoresCaseAndSpace | main.py:72 | a stripped name with any whitespace around it, the name alone, and the name lower-cased all get the same key, the lower-cased name |
| Users.Register | main.py:70-81 | an empty normalized name, empty password or taken name gives false and the same map; otherwise the map gains exactly the normalized name with the password's digest, keeps every other entry, and the result is the save result |
| Users.Verify | main.py:83-90 | a successful sign-in implies the normalized name is stored |
| Users.Exists | main.py:72-95 | a name that exists is refused by registration whatever the password; a name that does not exist and normalizes to something non-empty is accepted with any non-empty password, so the login window's existence check before `register_user` (main.py:296-302) predicts exactly the "taken" refusal |
| Users.ExistsUnderNormalize | main.py:92-95 | asking about a name or about its normalized form gives the same answer |
| Users.RegisterThenVerify | main.py:79-95 | after an accepted registration, any username that normalizes alike signs in with the password and exists, whether or not the save succeeded |
| Users.RegisterRejectedChangesNothing | main.py:70-77 | a rejected registration returns false and changes no later sign-in or existence answer |
| Users.RegisterTwice | main.py:76-77 | re-registering a name that normalizes alike returns false and keeps the first digest |
| Users.VerifyUnknown | main.py:85-87 | a name absent after normalization never signs in |
| Users.VerifyMatchesDigest | main.py:83-90 | after an accepted registration, a password signs in under any spelling of the name exactly when its digest equals the registered password's digest |
| Users.VerifyWrongPassword | main.py:85-90 | with an injective digest, a password other than the registered one never signs in |
| Users.RegisterPreservesWellFormed | main.py:72-80 | registration keeps every stored key non-empty and normalized |
| Users.CaseInsensitiveSignIn | main.py:70-90 | after registering a name with whitespace around it, signing in with the bare name or its lower-case form succeeds (so "Alice " then "alice"), and the result is the save result |
| TaskManagers.TaskFile | main.py:102 | the file name is the username as given followed by `_tasks.json` |
| TaskManagers.TaskFileInjective | main.py:102 | distinct usernames get distinct task file name strings (as paths, distinct names can still be one file: `./alice` and `alice` always, `Alice` and `alice` on a case-insensitive file system) |
| TaskManagers.TaskFileUnderPath | main.py:102 | a username that begins with a path gets its task file under that path, so `./alice` gets `./alice_tasks.json` |
| TaskManagers.FromDicts | main.py:112 | one task per stored dictionary, in order, each decoded with its defaults |
| TaskManagers.ToDicts | main.py:121 | one five-key dictionary per task, in order, each decoding back to its task |
| TaskManagers.Open | main.py:100-116 | a missing or unreadable file gives an empty list; otherwise one decoded task per stored record, in order |
| TaskManagers.DeleteUndoesAdd | main.py:128-147 | deleting at the position of the task just added succeeds and restores the previous list |
| TaskManagers.UpdateWithSameTask | main.py:133-139 | updating a task with itself succeeds and changes nothing |
| TaskManagers.MarkCompletedIsUpdate | main.py:133-155 | marking a task completed is the same as updating it with a copy whose status is `Completed` |
| TaskManagers.SaveThenLoad | main.py:106-126 | loading what was saved reproduces the task list |
| TaskManagers.ReopenAfterSave | main.py:100-126 | reopening on the file written by the last save gives the same manager |
| TaskManagers.LoadDefaultsPriority | main.py:106-116 | a stored record without a priority loads with priority `Low` |
| TaskManagers.GetAllTasks | main.py:157-159 | the current list in order; its positions are exactly the indices update, delete and mark-completed accept |
| TaskManagers.AddTask | main.py:128-131 | the list grows by one; the old tasks keep their positions and the new task is last |
| TaskManagers.UpdateTask | main.py:133-139 | true exactly when the index is in bounds; then only that position changes, to the new task; otherwise nothing changes |
| TaskManagers.DeleteTask | main.py:141-147 | true exactly when the index is in bounds; then the length drops by one, earlier tasks stay, later ones move down one position and exactly that task leaves the multiset; otherwise nothing changes |
| TaskManagers.Complete | main.py:152 | the status becomes `Completed`; name, priority, due date and category are kept |
| TaskManagers.MarkCompleted | main.py:149-155 | true exactly when the index is in bounds; then only that task's status changes, to `Completed`; otherwise nothing changes |
| TaskManagers.MarkCompletedIdempotent | main.py:149-155 | marking a task completed twice gives the same list as marking it once |
| TaskManagers.Scenario | main.py:128-159 | add "Buy milk" to an empty list: one pending task; mark it: completed; delete it: empty |

## Left out

- The tkinter GUI (`LoginWindow`, `TodoApp`, `main`, main.py:162-682), including `validate_date`. They are widget layout and event handling. Field validation happens there, not in the stores.
- File I/O in `load_users`, `save_users`, `load_tasks` and `save_tasks` (main.py:47-64, 106-126). The users map is a parameter of each credential operation, so `load_users` is not modelled. The users-file write is the `saved` parameter of `Register`. The task-file read is the `Option` parameter of `Open`. The task-file write is `ToDicts`, and its success is dropped, as the source drops it.
- `load_users` returns whatever `json.load` parses (main.py:52), not only a map or `{}`. If users.json holds a top-level list or string, `username in self.users` (main.py:76, 86, 95) becomes an element or substring test, and the insert at main.py:80 raises `TypeError`. The model's store is always a map.
- A users or task file whose bytes do not decode in the locale's encoding raises `UnicodeDecodeError`. That is neither `json.JSONDecodeError` nor `IOError` (main.py:53, 113), so the constructor raises instead of starting empty. The model has no bytes to decode.
- A task file whose JSON is not a list of objects raises in `load_tasks` (main.py:112) instead of starting empty. A list holding a string or number is one such case, and so is a top-level number. The exceptions are an empty object or an empty string, which iterate as nothing and load no tasks. JSON values other than strings inside a task object are kept as they are. The model's file is a list of `map<string, string>`.
- The on-disk shape of a credential (`{"password": digest}`): the model stores the digest directly, so a hand-edited record without a `password` field, which would raise in `verify_user`, is not modelled.
- SHA-256 in `hash_password` (main.py:66-68): the digest is an arbitrary function parameter.
- Text.Lower: maps only ASCII letters; Python's `str.lower()` also lower-cases non-ASCII letters. This is the Unicode case mapping the model abstracts away.
- Path resolution of task file names. A username containing `/` places its task file in another directory (main.py:102). If that directory does not exist, `load_tasks` finds no file and every `save_tasks` hits an `IOError`, catches it and returns false (main.py:118-126). The four mutators discard that result, so their changes live only in memory and nothing is written. The model has no file system; `TaskFile` is the name string only.
- Object aliasing: `get_all_tasks` returns the live list and `mark_completed` mutates a `Task` in place; tasks here are immutable values in a sequence.
