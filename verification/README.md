# watchdog_sync event reconciler, modelled in Dafny

watchdog_sync mirrors files from a source tree into a target tree. A user-editable
mapping document (`mapping/mapping.json`) says where each source file goes. This
project models the event-reconciliation core of `main.py`:

- `SyncHandler` takes filesystem events one at a time: MODIFIED, CREATED,
  DELETED and MOVED, each with a path and a directory flag.
- For each event it normalises the path and turns it into a mapping key.
- It keeps the source-key to target-path table in step with the event, writing
  every change through to the document.
- It decides whether a file is copied, where it is copied, and whether the
  extension alert fires.
- It remembers the last operation in a single slot. The cut-and-paste
  heuristic uses that slot: a CREATED file right after a DELETED tracked file
  with the same basename inherits the deleted entry's target.
- `MappingChangeHandler` reloads the table when the mapping document changes.

Layout:

- `wrappers.dfy`: `Option`, standing for Python's `None`.
- `resource_types.dfy`: the two enums of `resource_types.py`.
- `paths.dfy`: pure string helpers. These are Python's `str.replace`,
  `path_formatter`, and POSIX `os.path.basename`, `splitext` and `join`, with
  their lemmas.
- `sync_handler.dfy`: the two handler classes, written imperatively.
  - Fields: `pathMapping`, `keys`, `values`, `lastOp`, and the ghost field
    `persisted`, which stands for the document's content.
  - Each event method states its whole new state in terms of the old one.
  - Each event method keeps `Valid()`: every write by the handler leaves the
    document equal to the in-memory table (write-through), and the
    last-operation slot is well formed.
- `scenarios.dfy`: event sequences run on a freshly built handler, with the
  resulting table, slot, copy decision and log decision stated for all inputs.

Side effects are returned as decisions rather than performed:

- a copy is a `CopyPlan(source, target, extensionAlert)`;
- a console line is a `logged` flag (`verbose` and the `changed_log` test);
- writing the document is `persisted := pathMapping`;
- reading the document yields the table passed in as `stored`, which may
  include external edits; this is the only way an external edit enters the
  model.

The model follows the code, including these behaviours:

- `path_formatter` is not idempotent. One pass of `replace("//", "/")` leaves
  `"a//b"` from `"a///b"` (`Paths.PathFormatterNotIdempotent`). It is
  idempotent only on paths with no run of three separators
  (`Paths.PathFormatterIdempotent`).
- The derived `keys`/`values` sets are never cleared and never updated by
  `set_mapping` or `remove_mapping`; a reload only adds to them. A key removed
  from the document therefore leaves the table but stays in `keys`
  (`SyncScenarios.ReloadAfterEdit`). They are guaranteed to equal the table's keys
  and values only right after the constructor.
- `get_key` removes every occurrence of the source root directory, not just a
  leading one. It returns the rest exactly when the rest does not repeat the
  root (`WatchdogSync.SyncHandler.GetKeyOfRootedPath`).
- Directory MODIFIED and CREATED events overwrite the last-operation slot.
  Directory DELETED and MOVED events do not
  (`SyncScenarios.DeleteFileThenDirectoryThenCreate` for DELETED, the
  ensures of `WatchdogSync.SyncHandler.OnMoved` for MOVED). So a MODIFIED event
  for a directory, such as the parent directory of the deleted file, that
  arrives between the DELETED and the CREATED event prevents the
  cut-and-paste recovery (`SyncScenarios.DeleteModifyCreate`).
- A move whose source and destination give the same key drops the entry. The
  entry is set and then removed (`SyncScenarios.MoveOntoSameKey`).
- A mapped value that is an absolute path is the copy target itself, because
  `os.path.join` discards the target root (`WatchdogSync.SyncHandler.SyncFile`).

## Model

| member | source | states |
|---|---|---|
| `Paths.ReplaceAll` | main.py:147-148 | Python's `str.replace` for a non-empty pattern: never lengthens when the replacement is no longer than the pattern; a string without the pattern is returned unchanged |
| `Paths.CharStaysAbsent` | main.py:147-148 | a character in neither the input nor the replacement is not in the output |
| `Paths.ReplaceAllShortens` | main.py:124 | a string that contains the pattern gets strictly shorter when the replacement is shorter than the pattern |
| `Paths.PathFormatter` | main.py:146-148 | the normalised path holds no backslash and is never longer than the raw path |
| `Paths.PathFormatterIdempotent` | main.py:147-148 | on a path with no three consecutive separators, the output holds no "//" and normalising it again changes nothing |
| `Paths.PathFormatterMixedSeparators` | main.py:147-148 | "a\\b//c" normalises to "a/b/c" |
| `Paths.PathFormatterNotIdempotent` | main.py:147-148 | "a///b" normalises to "a//b", and normalising that gives "a/b": the function is not idempotent in general |
| `Paths.RemoveLeadingRoot` | main.py:123-124 | replacing the root by "" in root + rest gives rest exactly when rest does not contain the root |
| `Paths.Basename` | main.py:55 | `os.path.basename`: the result is a slash-free suffix of the path, and is preceded by a slash whenever it is shorter than the path (the longest such suffix) |
| `Paths.BasenameAfterSlash` | main.py:55 | a directory, a slash and a slash-free name have that name as basename |
| `Paths.Extension` | main.py:131-132 | `os.path.splitext(...)[1]`: empty or a dot followed by neither a dot nor a slash, and always a suffix of the path |
| `Paths.ExtensionIffHasExtension` | main.py:131-132 | the extension is non-empty exactly when some dot of the basename has a non-dot character before it |
| `Paths.LastDotStartsExtension` | main.py:131-132 | the last dot of a name starts an extension exactly when some dot of it does, so `splitext` may look at the last dot only |
| `Paths.ExtensionOfTxt` | main.py:131-133 | "a.txt" has extension ".txt" |
| `Paths.ExtensionOfMd` | main.py:131-133 | "out/a.md" has extension ".md", so mapping a.txt to out/a.md raises the alert |
| `Paths.ExtensionOfDotFile` | main.py:131-133 | ".bashrc" has no extension: a leading dot does not start one |
| `Paths.Join` | main.py:136 | `os.path.join`: the second part ends the result; an absolute second part is the result; otherwise the first part is a prefix, and the result is first + second when the first is empty or ends with a slash, and first + "/" + second otherwise |
| `WatchdogSync.IsCutAndPaste` | main.py:54-55 | the created file inherits an entry exactly when the slot holds a DELETED operation with a key whose basename is the created path's basename |
| `WatchdogSync.CutAndPasteAcrossDirectories` | main.py:54-55 | a file deleted from one directory and a file created in another trigger the heuristic exactly when their slash-free names are equal, whatever the two directories |
| `WatchdogSync.SyncHandler.SourceRootDir` | main.py:12 | the configured source root followed by exactly one slash |
| `WatchdogSync.SyncHandler.TargetRootDir` | main.py:13 | the configured target root followed by exactly one slash |
| `WatchdogSync.SyncHandler.NeedTrack` | main.py:100-101 | a key is tracked exactly when the table has an entry for it |
| `WatchdogSync.SyncHandler.constructor` | main.py:11-22 | roots and verbosity are the arguments; the table and the document hold the stored table; `keys`/`values` are exactly its keys and values; the slot is empty |
| `WatchdogSync.SyncHandler.InitMapping` | main.py:24-31 | the table is replaced by the stored table; `keys` and `values` gain its keys and values and lose nothing; the slot is unchanged; write-through still holds |
| `WatchdogSync.SyncHandler.UpdateMapping` | main.py:33-34 | the document afterwards holds the in-memory table |
| `WatchdogSync.SyncHandler.GetMapping` | main.py:120-121 | `Some` exactly for a tracked key (`need_track`, main.py:100-101), carrying its mapped value; `None` otherwise |
| `WatchdogSync.SyncHandler.SetMapping` | main.py:116-118 | the table gains or overwrites exactly that entry, and is persisted |
| `WatchdogSync.SyncHandler.RemoveMapping` | main.py:109-114 | a tracked key is removed, persisted and returned with its value; an untracked key changes nothing, writes nothing and returns two `None`s |
| `WatchdogSync.SyncHandler.SetLast` | main.py:103-107 | the slot holds exactly the given operation, key, value and directory flag |
| `WatchdogSync.SyncHandler.GetKey` | main.py:123-124 | the key is never longer than the path, and is the path itself when the path does not contain the source root directory |
| `WatchdogSync.SyncHandler.GetKeyOfRootedPath` | main.py:123-124 | the source root directory (root + "/", main.py:12) followed by a rest yields that rest as key exactly when the rest does not contain the root directory |
| `WatchdogSync.SyncHandler.SyncFile` | main.py:126-141 | no copy for an untracked key; for a tracked key, a copy from the event path to the target root plus the mapped value (or the value itself if absolute), with the alert raised exactly when the extensions differ, and the copy attempted either way |
| `WatchdogSync.SyncHandler.ChangedLog` | main.py:150-156 | a line is printed exactly for a directory or for a file whose key is tracked |
| `WatchdogSync.SyncHandler.OnModified` | main.py:36-49 | the table and the document are unchanged; a copy is planned exactly for a tracked file; the event is logged exactly when verbose and it is a directory or tracked; the slot becomes (MODIFIED, key, mapped value or None, directory flag) for files and directories alike |
| `WatchdogSync.SyncHandler.OnCreated` | main.py:51-66 | after a DELETED slot whose key has the new file's basename, the table is the old one with new key mapped to the deleted value; otherwise the table and the document are unchanged; the slot becomes (CREATED, key, value now mapped or None, directory flag) |
| `WatchdogSync.SyncHandler.OnDeleted` | main.py:68-79 | a tracked file's key alone is removed and persisted, and the slot records (DELETED, key, removed value); an untracked file leaves the table and document alone and records (DELETED, None, None); a directory changes nothing, slot included |
| `WatchdogSync.SyncHandler.OnMoved` | main.py:81-101 | for a tracked file, the table becomes the old one with the new key mapped to the old value and the old key removed, persisted, with slot (MOVED, new key, old value); an untracked file or a directory changes nothing, slot included, and an untracked file is not logged |
| `WatchdogSync.MappingChangeHandler.constructor` | main.py:160-162 | the watcher holds the document name and the handler it reloads |
| `WatchdogSync.MappingChangeHandler.OnModified` | main.py:164-167 | a non-directory change reloads the handler from the stored table, keeping the slot; a directory change touches nothing |
| `SyncScenarios.KeyOfIsGetKey` | main.py:123-124 | the key the scenarios name for a raw path is the handler's `get_key` of the normalised path |
| `SyncScenarios.ModifyUntracked` | main.py:36-49 | a MODIFIED event for an untracked file: no copy, no log line, table unchanged |
| `SyncScenarios.ModifyWithExtensionMismatch` | main.py:126-141 | a tracked file whose extension differs from its target's is still copied to target root + "/" + value, with the alert raised |
| `SyncScenarios.MoveTracked` | main.py:81-101 | renaming a tracked file yields the table with the old key gone and the new key mapped to the old value, and the event is logged |
| `SyncScenarios.MoveOntoSameKey` | main.py:90-92 | a move whose two paths give the same key removes the entry |
| `SyncScenarios.MoveUntracked` | main.py:85-95 | renaming an untracked file changes neither the table nor the slot and logs nothing |
| `SyncScenarios.DeleteThenCreateSameName` | main.py:51-79 | DELETED of a tracked file then CREATED with the same basename: the old key is gone, the new key maps to the deleted value, and the slot records that |
| `SyncScenarios.DeleteThenCreateOtherName` | main.py:51-79 | with different basenames the created file gets no entry: the table is the old one minus the deleted key |
| `SyncScenarios.DeleteModifyCreate` | main.py:36-79 | any MODIFIED event between the delete and the create, for a file or a directory, overwrites the slot, so no entry is recovered and the table is the old one minus the deleted key |
| `SyncScenarios.DeleteFileThenDirectoryThenCreate` | main.py:51-79 | a directory DELETED in between leaves the slot alone, so the recovery still happens |
| `SyncScenarios.ReloadAfterEdit` | main.py:24-31 | after a reload of an edited document the table equals the edited table, `keys`/`values` hold the union of both tables' keys/values, and the slot is untouched |

## Left out

- Mapping store (`json_handler.py`): the file lock with its 5-second timeout, opening the file, and JSON parsing and pretty-printing are I/O. The document is the ghost field `persisted`. A failed lock or a malformed document (an exception out of `read_json`/`write_json`) is not modelled, so write-through is modelled as always succeeding.
- Mapping values are strings. A JSON `null` or non-string value in the document is not modelled; with one, `sync_file` would fail on it in `splitext`.
- Copying (`shutil.copy2`), directory creation (`os.makedirs`, `os.path.exists`) and the `try`/`except` that swallows copy errors are filesystem effects. Only the copy decision, its source and target paths, and the extension alert are modelled.
- `WatchdogSync.SyncHandler.OnModified`: a failure of `os.makedirs`, which is outside the `try`, is not modelled. In the source it escapes `sync_file` and ends `on_modified` before `changed_log` and `set_last`, so the slot keeps the previous operation. The model always completes the event.
- Console output: the text of every `print` is not modelled. `changed_log` is modelled as whether it prints, and the reload notice as the `reloaded` flag.
- External edits to the mapping document are modelled only as the `stored` argument of the next reload. The window between an edit and its reload is not represented. In the source, a file event in that window that writes the table (main.py:34, via `set_mapping`, `remove_mapping` and the extra `write_json` in `on_moved`) overwrites the whole document and erases the edit; the reload then reads back the in-memory table. In the running program every such write also changes the watched mapping file and so is followed by a reload. The model's write-through invariant holds only because nothing outside the handler writes `persisted`.
- The watchdog `Observer` threads and the `__main__` loop are not modelled, and neither is the unsynchronised race between the reload thread and the event thread over the shared table. Events and reloads arrive one at a time here.
- `MappingChangeHandler.OnModified` takes no path, because the source reloads on any non-directory change in the watched directory, whatever the file.
- `os.path` is modelled in its POSIX form only; Windows path rules are not modelled.
- `resource_types.py` holds two enums without behaviour; they are transliterated as datatypes.
