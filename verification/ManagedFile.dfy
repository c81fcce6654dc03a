/**
 * Crash-safe replacement of the managed configuration file. Every filesystem step may fail, and the
 * machine may stop after any of them, so the disk keeps the history of what it held after each step.
 */
module ManagedFile {
  type File = string

  datatype Name = Path | Backup | Temporary

  type Files = map<Name, File>

  predicate ValidAt(files: Files, name: Name, valid: File -> bool)
  {
    name in files && valid(files[name])
  }

  /** A valid configuration can be found. */
  predicate Safe(files: Files, valid: File -> bool)
  {
    ValidAt(files, Path, valid) || ValidAt(files, Backup, valid)
  }

  /** What the managed path may hold while `content` replaces what was there: never a torn file. */
  predicate Whole(files: Files, before: Files, content: File)
  {
    Path in files ==> files[Path] == content || Known(files[Path], before)
  }

  /** The file was the managed file or its backup. */
  predicate Known(file: File, before: Files)
  {
    (Path in before && file == before[Path]) || (Backup in before && file == before[Backup])
  }

  function Moved(files: Files, from: Name, to: Name): Files
    requires from in files && from != to
  {
    (files - {from})[to := files[from]]
  }

  /** What a replacement without faults leaves behind. */
  function Replaced(files: Files, content: File, valid: File -> bool): Files
  {
    var backup :=
      if ValidAt(files, Path, valid) then files[Path]
      else if Backup in files then files[Backup]
      else content;
    map[Path := content, Backup := backup]
  }

  /**
   * After a replacement the backup is valid exactly unless the managed file was missing or damaged
   * beside a damaged backup.
   */
  lemma {:induction false} BackupValidIff(files: Files, content: File, valid: File -> bool)
    requires valid(content)
    ensures Replaced(files, content, valid).Keys == {Path, Backup} && Replaced(files, content, valid)[Path] == content
    ensures ValidAt(files, Path, valid) ==> Replaced(files, content, valid)[Backup] == files[Path]
    ensures !ValidAt(files, Path, valid) && Backup in files ==>
      Replaced(files, content, valid)[Backup] == files[Backup]
    ensures ValidAt(Replaced(files, content, valid), Backup, valid) <==>
            ValidAt(files, Path, valid) || Backup !in files || ValidAt(files, Backup, valid)
  {
  }

  /** A damaged backup beside a missing file survives a successful replacement. */
  lemma {:induction false} DamagedBackupSurvives()
    ensures var valid: File -> bool := file => file == "good";
            && valid("good")
            && !ValidAt(Replaced(map[Backup := "damaged"], "good", valid), Backup, valid)
  {
    var valid: File -> bool := file => file == "good";
    BackupValidIff(map[Backup := "damaged"], "good", valid);
  }

  class Disk {
    var files: Files
    ghost var history: seq<Files>

    constructor (files: Files)
      ensures this.files == files && history == [files]
    {
      this.files := files;
      history := [files];
    }

    method Remove(name: Name) returns (ok: bool)
      requires name in files
      modifies this
      ensures files == (if ok then old(files) - {name} else old(files)) && history == old(history) + [files]
    {
      ok := *;
      if ok {
        files := files - {name};
      }
      history := history + [files];
    }

    method Rename(from: Name, to: Name) returns (ok: bool)
      requires from in files && from != to
      modifies this
      ensures files == (if ok then Moved(old(files), from, to) else old(files)) && history == old(history) + [files]
    {
      ok := *;
      if ok {
        files := Moved(files, from, to);
      }
      history := history + [files];
    }

    /** Creates or overwrites a file. A stop or a fault on the way leaves some other content in it. */
    method Write(name: Name, content: File) returns (ok: bool, ghost torn: File)
      modifies this
      ensures ok ==> files == old(files)[name := content]
      ensures !ok ==> files == old(files) || files == old(files)[name := torn]
      ensures history == old(history) + [old(files)[name := torn], files]
    {
      var written: File := *;
      torn := written;
      history := history + [files[name := torn]];
      ok := *;
      if ok {
        files := files[name := content];
      } else {
        var created: bool := *;
        if created {
          files := files[name := written];
        }
      }
      history := history + [files];
    }
  }

  /** What must hold whenever the machine stops. */
  predicate Recoverable(files: Files, before: Files, content: File, valid: File -> bool)
  {
    Whole(files, before, content) && (Safe(before, valid) ==> Safe(files, valid))
  }

  ghost predicate AllRecoverable(history: seq<Files>, from: nat, before: Files, content: File, valid: File -> bool)
  {
    forall k :: from <= k < |history| ==> Recoverable(history[k], before, content, valid)
  }

  /** The same managed file and the same backup. */
  predicate SameConfigs(files: Files, before: Files)
  {
    && (Path in files <==> Path in before) && (Path in files ==> files[Path] == before[Path])
    && (Backup in files <==> Backup in before) && (Backup in files ==> files[Backup] == before[Backup])
  }

  /** Writes the new configuration to the temporary file, leaving the other two alone. */
  method Prepare(disk: Disk, content: File, valid: File -> bool) returns (ok: bool)
    modifies disk
    ensures old(disk.history) <= disk.history
    ensures AllRecoverable(disk.history, |old(disk.history)|, old(disk.files), content, valid)
    ensures Recoverable(disk.files, old(disk.files), content, valid)
    ensures SameConfigs(disk.files, old(disk.files))
    ensures ok ==> Temporary in disk.files && disk.files[Temporary] == content
  {
    if Temporary in disk.files {
      ok := disk.Remove(Temporary);
      if !ok {
        return;
      }
    }
    ghost var torn;
    ok, torn := disk.Write(Temporary, content);
  }

  /** The old file makes room: a valid one becomes the backup, a damaged one is removed. */
  method SetAside(disk: Disk, content: File, valid: File -> bool) returns (ok: bool)
    modifies disk
    ensures old(disk.history) <= disk.history
    ensures AllRecoverable(disk.history, |old(disk.history)|, old(disk.files), content, valid)
    ensures Recoverable(disk.files, old(disk.files), content, valid)
    ensures ok && ValidAt(old(disk.files), Path, valid) ==> disk.files == Moved(old(disk.files), Path, Backup)
    ensures ok && !ValidAt(old(disk.files), Path, valid) ==> disk.files == old(disk.files) - {Path}
  {
    ok := true;
    if Path in disk.files {
      if valid(disk.files[Path]) {
        if Backup in disk.files {
          ok := disk.Remove(Backup);
          if !ok {
            return;
          }
        }
        ok := disk.Rename(Path, Backup);
      } else {
        ok := disk.Remove(Path);
      }
    }
  }

  /** The temporary file takes the path; on failure the backup is put back, on success a backup is ensured. */
  method Install(disk: Disk, content: File, valid: File -> bool, ghost before: Files) returns (ok: bool)
    requires valid(content) && Temporary in disk.files && disk.files[Temporary] == content && Path !in disk.files
    requires Recoverable(disk.files, before, content, valid)
    requires Backup in disk.files ==> Known(disk.files[Backup], before)
    modifies disk
    ensures old(disk.history) <= disk.history
    ensures AllRecoverable(disk.history, |old(disk.history)|, before, content, valid)
    ensures Recoverable(disk.files, before, content, valid)
    ensures var kept := if Backup in old(disk.files) then old(disk.files)[Backup] else content;
      ok ==> disk.files == Moved(old(disk.files), Temporary, Path)[Backup := kept]
  {
    ok := disk.Rename(Temporary, Path);
    if !ok {
      if Backup in disk.files {
        var _ := disk.Rename(Backup, Path);
      }
      return;
    }
    if Backup !in disk.files {
      ghost var torn;
      ok, torn := disk.Write(Backup, disk.files[Path]);
    }
  }

  lemma {:induction false} Transfer(
    history: seq<Files>, from: nat, before: Files, files: Files, content: File, valid: File -> bool)
    requires AllRecoverable(history, from, files, content, valid) && SameConfigs(files, before)
    ensures AllRecoverable(history, from, before, content, valid)
  {
    forall k | from <= k < |history| ensures Recoverable(history[k], before, content, valid) {
      assert Recoverable(history[k], files, content, valid);
    }
  }

  lemma {:induction false} SameFiles(a: Files, b: Files)
    requires SameConfigs(a, b) && Temporary !in a && Temporary !in b
    ensures a == b
  {
    forall name: Name ensures name in a <==> name in b {
      match name {
        case Path =>
        case Backup =>
        case Temporary =>
      }
    }
    forall name: Name | name in a ensures a[name] == b[name] {
      match name {
        case Path =>
        case Backup =>
        case Temporary =>
      }
    }
  }

  /**
   * Replaces the managed file. If a valid configuration could be found before, one can be found after
   * every step, whichever step fails; the managed path never holds a torn file; and success means that
   * the path holds the new configuration.
   */
  method Persist(disk: Disk, content: File, valid: File -> bool) returns (ok: bool)
    modifies disk
    ensures AllRecoverable(disk.history, |old(disk.history)|, old(disk.files), content, valid)
    ensures Recoverable(disk.files, old(disk.files), content, valid)
    ensures ok ==> valid(content) && disk.files == Replaced(old(disk.files), content, valid)
    ensures !valid(content) ==> !ok && disk.files == old(disk.files) && disk.history == old(disk.history)
  {
    if !valid(content) {
      return false;
    }
    ghost var before := disk.files;
    ok := Prepare(disk, content, valid);
    if !ok {
      return;
    }
    ghost var prepared, written := disk.files, |disk.history|;
    ok := SetAside(disk, content, valid);
    Transfer(disk.history, written, before, prepared, content, valid);
    if !ok {
      return;
    }
    ok := Install(disk, content, valid, before);
    if ok {
      SameFiles(disk.files, Replaced(before, content, valid));
    }
  }
}
