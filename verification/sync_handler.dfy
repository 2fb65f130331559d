/**
  The event-reconciliation engine of main.py: `SyncHandler`, which turns
  filesystem events under the source root into updates of the source-key to
  target-path table and into copy decisions, and `MappingChangeHandler`,
  which reloads that table when the mapping document changes.

  Side effects are not performed: the copy is returned as a `CopyPlan`, a
  console line as a `logged` flag, and the JSON document is the ghost field
  `persisted` (writing it is `persisted := pathMapping`; reading it yields
  the table passed in as `stored`).
 */
module WatchdogSync {
  import opened Wrappers
  import opened ResourceTypes
  import opened Paths

  /**
    The single-slot memory of the most recent operation (the four `last_op*`
    fields). `NoOp` is the state before any event. `isDir` holds the event's
    `is_directory` flag, which is what the source stores there.
   */
  datatype LastOp =
    | NoOp
    | Op(op: OpType, key: Option<string>, value: Option<string>, isDir: bool)

  /** The shapes the handlers can leave in the slot: a DELETED record has a value exactly when it has a key, every other record has a key. */
  predicate WellFormed(last: LastOp) {
    last.Op? ==>
      (last.op == DELETED ==> (last.key.Some? <==> last.value.Some?)) &&
      (last.op != DELETED ==> last.key.Some?)
  }

  /**
    The cut-and-paste heuristic: the previous event deleted a tracked file
    whose basename is the basename of the newly created path.
   */
  predicate IsCutAndPaste(last: LastOp, eventSrcPath: string) {
    last.Op? && last.op == DELETED && last.key.Some? &&
    Basename(last.key.value) == Basename(eventSrcPath)
  }

  /**
    A file deleted from one directory and a file created in another trigger
    the heuristic exactly when their names agree, whatever the directories.
   */
  lemma CutAndPasteAcrossDirectories(oldDir: string, oldName: string, value: Option<string>, isDir: bool,
                                     newDir: string, newName: string)
    requires '/' !in oldName && '/' !in newName
    ensures IsCutAndPaste(Op(DELETED, Some(oldDir + "/" + oldName), value, isDir), newDir + "/" + newName)
            <==> oldName == newName
  {
    BasenameAfterSlash(oldDir, oldName);
    BasenameAfterSlash(newDir, newName);
  }

  /**
    What `sync_file` decides: copy `source` over `target`, and whether the
    extension alert is printed first (the copy goes ahead either way).
   */
  datatype CopyPlan = CopyPlan(source: string, target: string, extensionAlert: bool)

  class SyncHandler {
    const sourceRoot: string
    const targetRoot: string
    const verbose: bool
    var pathMapping: map<string, string>
    var keys: set<string>
    var values: set<string>
    var lastOp: LastOp
    /** The content of the mapping document. */
    ghost var persisted: map<string, string>

    /**
      Write-through: every write by the handler leaves the document equal to
      the table. Edits made to the document from outside reach the model only
      as the `stored` argument of the next reload.
     */
    ghost predicate Valid()
      reads this
    {
      persisted == pathMapping && WellFormed(lastOp)
    }

    /** `source_root_dir`: the configured source root with a slash appended. */
    function SourceRootDir(): (dir: string)
      ensures |dir| == |sourceRoot| + 1 && sourceRoot <= dir && dir[|sourceRoot|] == '/'
    {
      sourceRoot + "/"
    }

    /** `target_root_dir`: the configured target root with a slash appended. */
    function TargetRootDir(): (dir: string)
      ensures |dir| == |targetRoot| + 1 && targetRoot <= dir && dir[|targetRoot|] == '/'
    {
      targetRoot + "/"
    }

    constructor (sourceRoot: string, targetRoot: string, verbose: bool, stored: map<string, string>)
      ensures Valid()
      ensures this.sourceRoot == sourceRoot && this.targetRoot == targetRoot && this.verbose == verbose
      ensures pathMapping == stored && persisted == stored
      ensures keys == stored.Keys && values == stored.Values
      ensures lastOp == NoOp
    {
      this.sourceRoot := sourceRoot;
      this.targetRoot := targetRoot;
      this.verbose := verbose;
      pathMapping := map[];
      keys := {};
      values := {};
      persisted := map[];
      lastOp := NoOp;
      new;
      InitMapping(stored);
    }

    /**
      Reload: `stored` is the table read from the mapping document. The
      table is replaced wholesale; `keys` and `values` only grow.
     */
    method InitMapping(stored: map<string, string>)
      requires Valid()
      modifies this`pathMapping, this`keys, this`values, this`persisted
      ensures Valid()
      ensures pathMapping == stored && persisted == stored
      ensures keys == old(keys) + stored.Keys
      ensures values == old(values) + stored.Values
      ensures lastOp == old(lastOp)
    {
      pathMapping := stored;
      persisted := stored;
      var pending := pathMapping.Keys;
      while pending != {}
        invariant pathMapping == stored && persisted == stored
        invariant pending <= stored.Keys
        invariant keys == old(keys) + (stored.Keys - pending)
        invariant values == old(values) + (set k | k in stored.Keys - pending :: stored[k])
        decreases pending
      {
        var key :| key in pending;
        assert stored.Keys - (pending - {key}) == (stored.Keys - pending) + {key};
        keys := keys + {key};
        values := values + {pathMapping[key]};
        pending := pending - {key};
      }
      assert stored.Values == set k | k in stored.Keys :: stored[k];
    }

    /** `update_mapping`: write the table through to the document. */
    method UpdateMapping()
      modifies this`persisted
      ensures persisted == pathMapping
    {
      persisted := pathMapping;
    }

    /** `need_track`: the key has an entry in the table. */
    predicate NeedTrack(path: string)
      reads this
    {
      path in pathMapping
    }

    /** `get_mapping`: the mapped target path, or `None` for an untracked key. */
    function GetMapping(srcPath: string): (dest: Option<string>)
      reads this
      ensures dest.Some? <==> NeedTrack(srcPath)
      ensures dest.Some? ==> dest.value == pathMapping[srcPath]
    {
      if srcPath in pathMapping then Some(pathMapping[srcPath]) else None
    }

    /** `set_mapping`: insert or overwrite one entry and persist. */
    method SetMapping(srcPath: string, destPath: string)
      modifies this`pathMapping, this`persisted
      ensures pathMapping == old(pathMapping)[srcPath := destPath]
      ensures persisted == pathMapping
    {
      pathMapping := pathMapping[srcPath := destPath];
      UpdateMapping();
    }

    /**
      `remove_mapping`: drop a tracked entry, persist, and return it; an
      untracked key changes nothing, persists nothing and yields two `None`s.
     */
    method RemoveMapping(srcPath: string) returns (removedKey: Option<string>, removedValue: Option<string>)
      modifies this`pathMapping, this`persisted
      ensures srcPath in old(pathMapping) ==>
        pathMapping == old(pathMapping) - {srcPath} && persisted == pathMapping &&
        removedKey == Some(srcPath) && removedValue == Some(old(pathMapping)[srcPath])
      ensures srcPath !in old(pathMapping) ==>
        pathMapping == old(pathMapping) && persisted == old(persisted) &&
        removedKey == None && removedValue == None
    {
      if srcPath in pathMapping {
        var destPath := pathMapping[srcPath];
        pathMapping := pathMapping - {srcPath};
        UpdateMapping();
        return Some(srcPath), Some(destPath);
      }
      return None, None;
    }

    /** `set_last`: overwrite the last-operation slot. */
    method SetLast(opSrcPath: Option<string>, opDestPath: Option<string>, opType: OpType, resourceType: bool)
      modifies this`lastOp
      ensures lastOp == Op(opType, opSrcPath, opDestPath, resourceType)
    {
      lastOp := Op(opType, opSrcPath, opDestPath, resourceType);
    }

    /** `get_key`: every occurrence of the source root directory removed from the path. */
    function GetKey(absSrcPath: string): (key: string)
      ensures |key| <= |absSrcPath|
      ensures !Contains(absSrcPath, SourceRootDir()) ==> key == absSrcPath
    {
      ReplaceAll(absSrcPath, SourceRootDir(), "")
    }

    /**
      A path made of the source root directory and a rest has that rest as
      its key exactly when the rest does not repeat the root directory.
     */
    lemma GetKeyOfRootedPath(rest: string)
      ensures GetKey(SourceRootDir() + rest) == rest <==> !Contains(rest, SourceRootDir())
    {
      RemoveLeadingRoot(SourceRootDir(), rest);
    }

    /**
      The decision part of `sync_file`: nothing for an untracked key;
      otherwise a copy of the event path to the mapped value joined onto the
      target root, with the alert set exactly when the extensions differ.
     */
    function SyncFile(eventSrcPath: string): (plan: Option<CopyPlan>)
      reads this
      ensures plan.None? <==> !NeedTrack(GetKey(eventSrcPath))
      ensures plan.Some? ==> plan.value.source == eventSrcPath
      ensures plan.Some? ==>
        var key := GetKey(eventSrcPath);
        var value := pathMapping[key];
        && plan.value.target == (if IsAbsolute(value) then value else TargetRootDir() + value)
        && (plan.value.extensionAlert <==> Extension(key) != Extension(value))
    {
      var sourcePath := ReplaceAll(eventSrcPath, SourceRootDir(), "");
      if sourcePath !in pathMapping then None
      else
        var targetPath := pathMapping[sourcePath];
        Some(CopyPlan(eventSrcPath, Join(TargetRootDir(), targetPath), Extension(sourcePath) != Extension(targetPath)))
    }

    /** Whether `changed_log` prints: always for a directory, for a file only when its key is tracked. */
    function ChangedLog(path: string, source: ResourceType): (fires: bool)
      reads this
      ensures fires <==> source == DIRECTORY || GetKey(path) in pathMapping
    {
      !(source == FILE && !NeedTrack(GetKey(path)))
    }

    /** `on_modified`: copy a tracked file; never touch the table; always record the event. */
    method OnModified(srcPath: string, isDirectory: bool) returns (copy: Option<CopyPlan>, logged: bool)
      requires Valid()
      modifies this`lastOp
      ensures Valid()
      ensures pathMapping == old(pathMapping) && persisted == old(persisted)
      ensures
        var path := PathFormatter(srcPath);
        var key := GetKey(path);
        && (copy.Some? <==> !isDirectory && key in pathMapping)
        && (copy.Some? ==> copy == SyncFile(path))
        && (logged <==> verbose && (isDirectory || key in pathMapping))
        && lastOp == Op(MODIFIED, Some(key), if key in pathMapping then Some(pathMapping[key]) else None, isDirectory)
    {
      var eventSrcPath := PathFormatter(srcPath);
      ghost var tracked := GetKey(eventSrcPath) in pathMapping;
      copy, logged := None, false;
      if !isDirectory {
        copy := SyncFile(eventSrcPath);
        assert copy.Some? <==> tracked;
        if verbose {
          logged := ChangedLog(eventSrcPath, FILE);
          assert logged <==> tracked;
        }
      } else {
        if verbose {
          logged := ChangedLog(eventSrcPath, DIRECTORY);
        }
      }
      var key := GetKey(eventSrcPath);
      var value := GetMapping(key);
      SetLast(Some(key), value, MODIFIED, isDirectory);
    }

    /**
      `on_created`: a file created right after a tracked file with the same
      basename was deleted takes over the deleted entry's target; the event
      is then recorded, for directories too.
     */
    method OnCreated(srcPath: string, isDirectory: bool) returns (logged: bool)
      requires Valid()
      modifies this`pathMapping, this`persisted, this`lastOp
      ensures Valid()
      ensures
        var path := PathFormatter(srcPath);
        var key := GetKey(path);
        && (!isDirectory && IsCutAndPaste(old(lastOp), path) ==>
              pathMapping == old(pathMapping)[key := old(lastOp).value.value])
        && (isDirectory || !IsCutAndPaste(old(lastOp), path) ==>
              pathMapping == old(pathMapping) && persisted == old(persisted))
        && (logged <==> verbose && (isDirectory || key in pathMapping))
        && lastOp == Op(CREATED, Some(key), if key in pathMapping then Some(pathMapping[key]) else None, isDirectory)
    {
      var eventSrcPath := PathFormatter(srcPath);
      logged := false;
      if !isDirectory {
        if lastOp.Op? && lastOp.op == DELETED && lastOp.key.Some? &&
           Basename(lastOp.key.value) == Basename(eventSrcPath) {
          SetMapping(GetKey(eventSrcPath), lastOp.value.value);
        }
        if verbose {
          logged := ChangedLog(eventSrcPath, FILE);
        }
      } else {
        if verbose {
          logged := ChangedLog(eventSrcPath, DIRECTORY);
        }
      }
      var key := GetKey(eventSrcPath);
      var value := GetMapping(key);
      SetLast(Some(key), value, CREATED, isDirectory);
    }

    /**
      `on_deleted`: a tracked file loses its entry, which stays in the slot
      for a later cut-and-paste; an untracked file records two `None`s; a
      directory changes nothing.
     */
    method OnDeleted(srcPath: string, isDirectory: bool) returns (logged: bool)
      requires Valid()
      modifies this`pathMapping, this`persisted, this`lastOp
      ensures Valid()
      ensures
        var key := GetKey(PathFormatter(srcPath));
        && (isDirectory ==>
              pathMapping == old(pathMapping) && persisted == old(persisted) && lastOp == old(lastOp))
        && (!isDirectory && key in old(pathMapping) ==>
              pathMapping == old(pathMapping) - {key} &&
              lastOp == Op(DELETED, Some(key), Some(old(pathMapping)[key]), false))
        && (!isDirectory && key !in old(pathMapping) ==>
              pathMapping == old(pathMapping) && persisted == old(persisted) &&
              lastOp == Op(DELETED, None, None, false))
        && (logged <==> verbose && (isDirectory || key in old(pathMapping)))
    {
      var eventSrcPath := PathFormatter(srcPath);
      logged := false;
      if !isDirectory {
        if verbose {
          logged := ChangedLog(eventSrcPath, FILE);
        }
        var removedKey, removedValue := RemoveMapping(GetKey(eventSrcPath));
        SetLast(removedKey, removedValue, DELETED, isDirectory);
      } else {
        if verbose {
          logged := ChangedLog(eventSrcPath, DIRECTORY);
        }
      }
    }

    /**
      `on_moved`: a tracked file's entry moves to the destination key
      (setting the new key before removing the old one, so a move onto the
      same key drops the entry); an untracked file and a directory change
      nothing, not even the slot.
     */
    method OnMoved(srcPath: string, destPath: string, isDirectory: bool) returns (logged: bool)
      requires Valid()
      modifies this`pathMapping, this`persisted, this`lastOp
      ensures Valid()
      ensures
        var oldKey := GetKey(PathFormatter(srcPath));
        var newKey := GetKey(PathFormatter(destPath));
        && (!isDirectory && oldKey in old(pathMapping) ==>
              pathMapping == old(pathMapping)[newKey := old(pathMapping)[oldKey]] - {oldKey} &&
              lastOp == Op(MOVED, Some(newKey), Some(old(pathMapping)[oldKey]), false))
        && (isDirectory || oldKey !in old(pathMapping) ==>
              pathMapping == old(pathMapping) && persisted == old(persisted) && lastOp == old(lastOp))
        && (logged <==> verbose && (isDirectory || oldKey in old(pathMapping)))
    {
      var eventSrcPath := PathFormatter(srcPath);
      var eventDestPath := PathFormatter(destPath);
      logged := false;
      if !isDirectory {
        if verbose {
          logged := ChangedLog(eventSrcPath, FILE);
        }
        var oldSrcPathKey := GetKey(eventSrcPath);
        var newSrcPathKey := GetKey(eventDestPath);
        if NeedTrack(oldSrcPathKey) {
          SetMapping(newSrcPathKey, GetMapping(oldSrcPathKey).value);
          var _, movedValue := RemoveMapping(oldSrcPathKey);
          UpdateMapping();
          SetLast(Some(newSrcPathKey), movedValue, MOVED, isDirectory);
        }
      } else {
        if verbose {
          logged := ChangedLog(eventSrcPath, DIRECTORY);
        }
      }
    }
  }

  /** Watches the mapping document's directory and reloads the handler's table when a file there changes. */
  class MappingChangeHandler {
    const filename: string
    const eventHandler: SyncHandler

    constructor (filename: string, eventHandler: SyncHandler)
      ensures this.filename == filename && this.eventHandler == eventHandler
    {
      this.filename := filename;
      this.eventHandler := eventHandler;
    }

    /**
      `on_modified`: a change to a file (not a directory) reloads the table
      from the document, whose content is `stored`; the last-operation slot
      is left as it was.
     */
    method OnModified(isDirectory: bool, stored: map<string, string>) returns (reloaded: bool)
      requires eventHandler.Valid()
      modifies eventHandler`pathMapping, eventHandler`keys, eventHandler`values, eventHandler`persisted
      ensures eventHandler.Valid()
      ensures reloaded == !isDirectory
      ensures reloaded ==>
        eventHandler.pathMapping == stored &&
        eventHandler.keys == old(eventHandler.keys) + stored.Keys &&
        eventHandler.values == old(eventHandler.values) + stored.Values
      ensures !reloaded ==> unchanged(eventHandler)
      ensures eventHandler.lastOp == old(eventHandler.lastOp)
    {
      reloaded := !isDirectory;
      if reloaded {
        eventHandler.InitMapping(stored);
      }
    }
  }
}
