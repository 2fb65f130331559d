/**
  Event sequences run against a freshly constructed `SyncHandler`, stating
  what the table, the copy decision and the log decision are afterwards.
  Each one starts from the table the mapping document holds at start-up.
 */
module SyncScenarios {
  import opened Wrappers
  import opened ResourceTypes
  import opened Paths
  import opened WatchdogSync

  /**
    The key a handler rooted at `sourceRoot` derives from a raw event path:
    `get_key` applied to the normalised path, written without a handler so
    that the scenarios' contracts can name it (`KeyOfIsGetKey`).
   */
  function KeyOf(sourceRoot: string, rawPath: string): string {
    ReplaceAll(PathFormatter(rawPath), sourceRoot + "/", "")
  }

  /** `KeyOf` is the key a handler rooted at `sourceRoot` computes for the normalised path. */
  lemma KeyOfIsGetKey(h: SyncHandler, rawPath: string)
    ensures KeyOf(h.sourceRoot, rawPath) == h.GetKey(PathFormatter(rawPath))
  {
  }

  /** A MODIFIED event for an untracked file copies nothing, logs nothing and leaves the table alone. */
  method ModifyUntracked(sourceRoot: string, targetRoot: string, stored: map<string, string>, path: string)
    returns (table: map<string, string>, copy: Option<CopyPlan>, logged: bool)
    requires KeyOf(sourceRoot, path) !in stored
    ensures table == stored && copy == None && !logged
  {
    var h := new SyncHandler(sourceRoot, targetRoot, true, stored);
    copy, logged := h.OnModified(path, false);
    table := h.pathMapping;
  }

  /**
    A MODIFIED event for a tracked file whose extension differs from its
    target's still copies it into the target root, and raises the alert.
   */
  method ModifyWithExtensionMismatch(sourceRoot: string, targetRoot: string, stored: map<string, string>, path: string)
    returns (table: map<string, string>, copy: Option<CopyPlan>)
    requires KeyOf(sourceRoot, path) in stored
    requires !IsAbsolute(stored[KeyOf(sourceRoot, path)])
    requires Extension(KeyOf(sourceRoot, path)) != Extension(stored[KeyOf(sourceRoot, path)])
    ensures table == stored
    ensures copy == Some(CopyPlan(PathFormatter(path), targetRoot + "/" + stored[KeyOf(sourceRoot, path)], true))
  {
    var h := new SyncHandler(sourceRoot, targetRoot, true, stored);
    var logged;
    copy, logged := h.OnModified(path, false);
    table := h.pathMapping;
  }

  /** Renaming a tracked file moves its entry to the new key and drops the old key. */
  method MoveTracked(sourceRoot: string, targetRoot: string, stored: map<string, string>, from: string, to: string)
    returns (table: map<string, string>, logged: bool)
    requires KeyOf(sourceRoot, from) in stored
    requires KeyOf(sourceRoot, from) != KeyOf(sourceRoot, to)
    ensures table == (stored - {KeyOf(sourceRoot, from)})[KeyOf(sourceRoot, to) := stored[KeyOf(sourceRoot, from)]]
    ensures KeyOf(sourceRoot, from) !in table
    ensures logged
  {
    var h := new SyncHandler(sourceRoot, targetRoot, true, stored);
    logged := h.OnMoved(from, to, false);
    table := h.pathMapping;
  }

  /** A move whose two paths give the same key loses the entry: it is set, then removed. */
  method MoveOntoSameKey(sourceRoot: string, targetRoot: string, stored: map<string, string>, from: string, to: string)
    returns (table: map<string, string>)
    requires KeyOf(sourceRoot, from) in stored
    requires KeyOf(sourceRoot, from) == KeyOf(sourceRoot, to)
    ensures table == stored - {KeyOf(sourceRoot, from)}
  {
    var h := new SyncHandler(sourceRoot, targetRoot, true, stored);
    var logged := h.OnMoved(from, to, false);
    table := h.pathMapping;
  }

  /** Renaming an untracked file changes nothing, logs nothing and leaves the slot empty. */
  method MoveUntracked(sourceRoot: string, targetRoot: string, stored: map<string, string>, from: string, to: string)
    returns (table: map<string, string>, last: LastOp, logged: bool)
    requires KeyOf(sourceRoot, from) !in stored
    ensures table == stored && last == NoOp && !logged
  {
    var h := new SyncHandler(sourceRoot, targetRoot, true, stored);
    logged := h.OnMoved(from, to, false);
    table, last := h.pathMapping, h.lastOp;
  }

  /**
    Cut and paste: deleting a tracked file and then creating a file with the
    same basename re-attaches the deleted entry's target to the new key.
   */
  method DeleteThenCreateSameName(sourceRoot: string, targetRoot: string, stored: map<string, string>, deleted: string, created: string)
    returns (table: map<string, string>, last: LastOp)
    requires KeyOf(sourceRoot, deleted) in stored
    requires Basename(KeyOf(sourceRoot, deleted)) == Basename(PathFormatter(created))
    ensures table == (stored - {KeyOf(sourceRoot, deleted)})[KeyOf(sourceRoot, created) := stored[KeyOf(sourceRoot, deleted)]]
    ensures last == Op(CREATED, Some(KeyOf(sourceRoot, created)), Some(stored[KeyOf(sourceRoot, deleted)]), false)
  {
    var h := new SyncHandler(sourceRoot, targetRoot, true, stored);
    ghost var gone, came := KeyOf(sourceRoot, deleted), KeyOf(sourceRoot, created);
    KeyOfIsGetKey(h, deleted);
    KeyOfIsGetKey(h, created);
    var logged := h.OnDeleted(deleted, false);
    assert h.lastOp == Op(DELETED, Some(gone), Some(stored[gone]), false);
    assert IsCutAndPaste(h.lastOp, PathFormatter(created));
    logged := h.OnCreated(created, false);
    table, last := h.pathMapping, h.lastOp;
  }

  /** When the basenames differ, the created file gets no entry and the deleted entry stays gone. */
  method DeleteThenCreateOtherName(sourceRoot: string, targetRoot: string, stored: map<string, string>, deleted: string, created: string)
    returns (table: map<string, string>)
    requires KeyOf(sourceRoot, deleted) in stored
    requires Basename(KeyOf(sourceRoot, deleted)) != Basename(PathFormatter(created))
    ensures table == stored - {KeyOf(sourceRoot, deleted)}
  {
    var h := new SyncHandler(sourceRoot, targetRoot, true, stored);
    var logged := h.OnDeleted(deleted, false);
    logged := h.OnCreated(created, false);
    table := h.pathMapping;
  }

  /** The slot holds one operation: any MODIFIED event between the delete and the create defeats the recovery. */
  method DeleteModifyCreate(sourceRoot: string, targetRoot: string, stored: map<string, string>,
                            deleted: string, modified: string, modifiedIsDir: bool, created: string)
    returns (table: map<string, string>)
    requires KeyOf(sourceRoot, deleted) in stored
    ensures table == stored - {KeyOf(sourceRoot, deleted)}
  {
    var h := new SyncHandler(sourceRoot, targetRoot, true, stored);
    var logged := h.OnDeleted(deleted, false);
    var copy;
    copy, logged := h.OnModified(modified, modifiedIsDir);
    logged := h.OnCreated(created, false);
    table := h.pathMapping;
  }

  /** A directory deletion does not touch the slot, so a recovery across it still happens. */
  method DeleteFileThenDirectoryThenCreate(sourceRoot: string, targetRoot: string, stored: map<string, string>,
                                           deleted: string, directory: string, created: string)
    returns (table: map<string, string>)
    requires KeyOf(sourceRoot, deleted) in stored
    requires Basename(KeyOf(sourceRoot, deleted)) == Basename(PathFormatter(created))
    ensures table == (stored - {KeyOf(sourceRoot, deleted)})[KeyOf(sourceRoot, created) := stored[KeyOf(sourceRoot, deleted)]]
  {
    var h := new SyncHandler(sourceRoot, targetRoot, true, stored);
    ghost var gone, came := KeyOf(sourceRoot, deleted), KeyOf(sourceRoot, created);
    KeyOfIsGetKey(h, deleted);
    KeyOfIsGetKey(h, created);
    var logged := h.OnDeleted(deleted, false);
    assert h.lastOp == Op(DELETED, Some(gone), Some(stored[gone]), false);
    logged := h.OnDeleted(directory, true);
    assert IsCutAndPaste(h.lastOp, PathFormatter(created));
    logged := h.OnCreated(created, false);
    table := h.pathMapping;
  }

  /**
    A reload replaces the table wholesale and keeps the slot, but `keys` and
    `values` keep everything they ever held: a key the edited document no
    longer has is gone from the table and still in `keys`.
   */
  method ReloadAfterEdit(sourceRoot: string, targetRoot: string, initial: map<string, string>, edited: map<string, string>)
    returns (table: map<string, string>, keys: set<string>, values: set<string>, last: LastOp)
    ensures table == edited
    ensures keys == initial.Keys + edited.Keys && values == initial.Values + edited.Values
    ensures last == NoOp
  {
    var h := new SyncHandler(sourceRoot, targetRoot, true, initial);
    var watcher := new MappingChangeHandler("mapping/mapping.json", h);
    var reloaded := watcher.OnModified(false, edited);
    table, keys, values, last := h.pathMapping, h.keys, h.values, h.lastOp;
  }
}
