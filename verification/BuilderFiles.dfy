/** The builder's file writer: back up, write the blocks one by one, roll back on failure. */
module BuilderFiles {
  import opened Text
  import opened Dicts

  /** Regular files by path; directories are not tracked. */
  type Files = map<string, string>

  /** What happens at one block. A write or a compiler start that raises leaves the target in
      some state: `None` means no file. */
  datatype Step = Written(compiles: bool) | Raised(left: Option<string>)
  type Environment = nat -> Step

  function At(files: Files, path: string): (r: Option<string>) {
    if path in files then Some(files[path]) else None
  }

  /** `pathlib`'s suffix is ".py": a file named just ".py" has none. */
  predicate PythonFile(path: string) {
    |path| > 3 && path[|path| - 3..] == ".py" && path[|path| - 4] != '/'
  }

  predicate Stops(block: (string, string), step: Step) {
    step.Raised? || (PythonFile(block.0) && !step.compiles)
  }

  /** The first block from i on that ends the writing. */
  function FirstStop(blocks: Dict<string, string>, env: Environment, i: nat): (n: nat)
    requires i <= |blocks|
    ensures i <= n <= |blocks|
    ensures forall k | i <= k < n :: !Stops(blocks[k], env(k))
    ensures n < |blocks| ==> Stops(blocks[n], env(n))
    decreases |blocks| - i
  {
    if i == |blocks| || Stops(blocks[i], env(i)) then i else FirstStop(blocks, env, i + 1)
  }

  function Overlay(files: Files, blocks: Dict<string, string>): (r: Files) {
    if blocks == [] then files
    else
      var last := blocks[|blocks| - 1];
      Overlay(files, blocks[..|blocks| - 1])[last.0 := last.1]
  }

  function Leave(files: Files, path: string, left: Option<string>): (r: Files) {
    if left.Some? then files[path := left.value] else files - {path}
  }

  /** The backup directory: what was in it, overwritten by the listed files that exist. */
  function Backup(stale: Files, files: Files, listed: seq<string>): (r: Files)
    ensures forall p :: At(r, p) == if p in listed && p in files then At(files, p) else At(stale, p)
  {
    map p | p in stale.Keys + files.Keys && (p in stale || p in listed) ::
      if p in listed && p in files then files[p] else stale[p]
  }

  /** After a failed compilation: back to the backup, and what has none is deleted. */
  function RollBack(files: Files, backup: Files, listed: seq<string>): (r: Files)
    ensures forall p :: At(r, p) == if p in listed then At(backup, p) else At(files, p)
  {
    map p | p in files.Keys + backup.Keys && (if p in listed then p in backup else p in files) ::
      if p in listed then backup[p] else files[p]
  }

  /** After an exception: back to the backup, and what has none stays. */
  function Restore(files: Files, backup: Files, listed: seq<string>): (r: Files)
    ensures forall p :: At(r, p) == if p in listed && p in backup then At(backup, p) else At(files, p)
  {
    map p | p in files.Keys + backup.Keys && (p in files || p in listed) ::
      if p in listed && p in backup then backup[p] else files[p]
  }

  function AfterApply(files: Files, stale: Files, blocks: Dict<string, string>, listed: seq<string>, env: Environment)
    : (r: Files)
  {
    var backup := Backup(stale, files, listed);
    var n := FirstStop(blocks, env, 0);
    if n == |blocks| then Overlay(files, blocks)
    else
      match env(n)
      case Written(_) => RollBack(Overlay(files, blocks[..n + 1]), backup, listed)
      case Raised(left) => Restore(Leave(Overlay(files, blocks[..n]), blocks[n].0, left), backup, listed)
  }

  lemma SameFiles(a: Files, b: Files)
    ensures a == b <==> forall p :: At(a, p) == At(b, p)
  {
    if forall p :: At(a, p) == At(b, p) {
      forall p ensures p in a <==> p in b { assert At(a, p) == At(b, p); }
      forall p | p in a ensures a[p] == b[p] { assert At(a, p) == At(b, p); }
      assert a == b;
    }
  }

  lemma NothingOverlaid(files: Files, blocks: Dict<string, string>)
    ensures Overlay(files, blocks[..0]) == files
  {
  }

  lemma OverlayOneMore(files: Files, blocks: Dict<string, string>, k: nat)
    requires k < |blocks|
    ensures Overlay(files, blocks[..k + 1]) == Overlay(files, blocks[..k])[blocks[k].0 := blocks[k].1]
  {
    assert blocks[..k + 1][..k] == blocks[..k];
  }

  // ---- the builder ----------------------------------------------------------------------------

  class Builder {
    /** The repository's files and the backup directories by timestamp. */
    var files: Files
    var backups: map<string, Files>

    function BackupAt(ts: string): (r: Files)
      reads this
    {
      if ts in backups then backups[ts] else map[]
    }

    method BackupFiles(listed: seq<string>, ts: string)
      modifies this`backups
      ensures backups == old(backups)[ts := Backup(old(BackupAt(ts)), files, listed)]
    {
      var dir := BackupAt(ts);
      ghost var stale := dir;
      for i := 0 to |listed|
        invariant forall p :: At(dir, p) == if p in listed[..i] && p in files then At(files, p) else At(stale, p)
      {
        assert listed[..i + 1] == listed[..i] + [listed[i]];
        if listed[i] in files { dir := dir[listed[i] := files[listed[i]]]; }
      }
      assert listed[..|listed|] == listed;
      SameFiles(dir, Backup(stale, files, listed));
      backups := backups[ts := dir];
    }

    method RollBackFiles(listed: seq<string>, backup: Files)
      modifies this`files
      ensures files == RollBack(old(files), backup, listed)
    {
      for i := 0 to |listed|
        invariant forall p :: At(files, p) == if p in listed[..i] then At(backup, p) else At(old(files), p)
      {
        assert listed[..i + 1] == listed[..i] + [listed[i]];
        if listed[i] in backup {
          files := files[listed[i] := backup[listed[i]]];
        } else if listed[i] in files {
          files := files - {listed[i]};
        }
      }
      assert listed[..|listed|] == listed;
      SameFiles(files, RollBack(old(files), backup, listed));
    }

    method RestoreFiles(listed: seq<string>, backup: Files)
      modifies this`files
      ensures files == Restore(old(files), backup, listed)
    {
      for i := 0 to |listed|
        invariant forall p :: At(files, p) == if p in listed[..i] && p in backup then At(backup, p) else At(old(files), p)
      {
        assert listed[..i + 1] == listed[..i] + [listed[i]];
        if listed[i] in backup { files := files[listed[i] := backup[listed[i]]]; }
      }
      assert listed[..|listed|] == listed;
      SameFiles(files, Restore(old(files), backup, listed));
    }

    method ApplyFullFiles(blocks: Dict<string, string>, listed: seq<string>, ts: string, env: Environment)
      returns (ok: bool)
      modifies this
      ensures ok <==> FirstStop(blocks, env, 0) == |blocks|
      ensures files == AfterApply(old(files), old(BackupAt(ts)), blocks, listed, env)
      ensures backups == old(backups)[ts := Backup(old(BackupAt(ts)), old(files), listed)]
    {
      hide PythonFile, Overlay, Leave, Backup, RollBack, Restore;
      ghost var start := files;
      BackupFiles(listed, ts);
      NothingOverlaid(start, blocks);
      var k := 0;
      while k < |blocks|
        invariant k <= |blocks| && FirstStop(blocks, env, 0) == FirstStop(blocks, env, k)
        invariant files == Overlay(start, blocks[..k])
        invariant backups == old(backups)[ts := Backup(old(BackupAt(ts)), start, listed)]
      {
        var (path, content) := blocks[k];
        OverlayOneMore(start, blocks, k);
        match env(k)
        case Raised(left) =>
          files := Leave(files, path, left);
          RestoreFiles(listed, backups[ts]);
          return false;
        case Written(compiles) =>
          files := files[path := content];
          if PythonFile(path) && !compiles {
            RollBackFiles(listed, backups[ts]);
            return false;
          }
        k := k + 1;
      }
      assert blocks[..|blocks|] == blocks;
      ok := true;
    }
  }

  // ---- what the blocks write --------------------------------------------------------------------

  lemma {:induction false} OverlayAt(files: Files, blocks: Dict<string, string>, path: string)
    requires DistinctKeys(blocks)
    ensures path !in Keys(blocks) ==> At(Overlay(files, blocks), path) == At(files, path)
    ensures forall i | 0 <= i < |blocks| && blocks[i].0 == path :: At(Overlay(files, blocks), path) == Some(blocks[i].1)
  {
    if blocks != [] {
      var n := |blocks| - 1;
      OverlayAt(files, blocks[..n], path);
      assert Keys(blocks) == Keys(blocks[..n]) + [blocks[n].0];
      forall i | 0 <= i < |blocks| && blocks[i].0 == path
        ensures At(Overlay(files, blocks), path) == Some(blocks[i].1)
      {
        if i < n { assert blocks[..n][i].0 == path; }
      }
    }
  }

  /** A successful application: each block's path holds its content, nothing else changed. */
  lemma AppliedExactly(files: Files, stale: Files, blocks: Dict<string, string>, listed: seq<string>, env: Environment,
                       path: string)
    requires DistinctKeys(blocks) && FirstStop(blocks, env, 0) == |blocks|
    ensures var after := AfterApply(files, stale, blocks, listed, env);
            && (path !in Keys(blocks) ==> At(after, path) == At(files, path))
            && forall i | 0 <= i < |blocks| && blocks[i].0 == path :: At(after, path) == Some(blocks[i].1)
  {
    OverlayAt(files, blocks, path);
  }

  /** A Python file, by its name: something, not a slash, before ".py". */
  lemma PythonFileExactly(path: string)
    ensures PythonFile(path) <==> exists stem: string :: path == stem + ".py" && stem != "" && stem[|stem| - 1] != '/'
  {
    if PythonFile(path) {
      var n := |path| - 3;
      assert path == path[..n] + ".py" && path[..n][n - 1] == path[n - 1];
    }
    forall stem: string | path == stem + ".py" && stem != "" && stem[|stem| - 1] != '/' ensures PythonFile(path) {
      EndsInPy(stem);
    }
  }

  lemma EndsInPy(stem: string)
    requires stem != "" && stem[|stem| - 1] != '/'
    ensures PythonFile(stem + ".py")
  {
    assert (stem + ".py")[|stem|..] == ".py";
    assert (stem + ".py")[|stem| - 1] == stem[|stem| - 1];
  }

  /** The writing succeeds exactly when no block raises and every Python file compiles. */
  lemma AppliesExactly(blocks: Dict<string, string>, env: Environment)
    ensures FirstStop(blocks, env, 0) == |blocks|
       <==> forall i | 0 <= i < |blocks| :: env(i).Written? && (PythonFile(blocks[i].0) ==> env(i).compiles)
  {
    hide PythonFile;
    var n := FirstStop(blocks, env, 0);
    if n == |blocks| {
      assert forall i | 0 <= i < |blocks| :: !Stops(blocks[i], env(i));
    } else {
      assert Stops(blocks[n], env(n));
    }
  }

  /** Which paths are put back after a failure: the listed ones, after an exception only those
      with a copy in the backup. */
  ghost predicate PutBack(files: Files, stale: Files, listed: seq<string>, step: Step, p: string) {
    p in listed && (step.Written? || p in files || p in stale)
  }

  /** A failed application path by path. n is the first block that raised or did not compile. What
      is put back is as it was before, or as an older copy has it; everything else is as the blocks
      up to n left it. */
  lemma FailedExactly(files: Files, stale: Files, blocks: Dict<string, string>, listed: seq<string>, env: Environment,
                      n: nat, p: string)
    requires DistinctKeys(blocks) && n < |blocks|
    requires forall i | 0 <= i < n :: env(i).Written? && (PythonFile(blocks[i].0) ==> env(i).compiles)
    requires env(n).Raised? || (PythonFile(blocks[n].0) && !env(n).compiles)
    ensures var after := AfterApply(files, stale, blocks, listed, env);
            && (PutBack(files, stale, listed, env(n), p) ==> At(after, p) == if p in files then At(files, p) else At(stale, p))
            && (!PutBack(files, stale, listed, env(n), p) ==>
                  && (p == blocks[n].0 ==> At(after, p) == match env(n) case Written(_) => Some(blocks[n].1) case Raised(left) => left)
                  && (forall i | 0 <= i < n && blocks[i].0 == p :: At(after, p) == Some(blocks[i].1))
                  && ((forall i | 0 <= i <= n :: blocks[i].0 != p) ==> At(after, p) == At(files, p)))
  {
    hide Overlay, PythonFile, Leave, AfterApply, Backup, RollBack, Restore;
    AfterFailure(files, stale, blocks, listed, env, n);
    match env(n)
    case Written(_) =>
      OverlayAt(files, blocks[..n + 1], p);
      assert Keys(blocks[..n + 1]) == seq(n + 1, i requires 0 <= i <= n => blocks[i].0);
      assert forall i | 0 <= i <= n :: blocks[..n + 1][i] == blocks[i];
    case Raised(left) =>
      LeaveAt(Overlay(files, blocks[..n]), blocks[n].0, left, p);
      OverlayAt(files, blocks[..n], p);
      assert Keys(blocks[..n]) == seq(n, i requires 0 <= i < n => blocks[i].0);
      assert forall i | 0 <= i < n :: blocks[..n][i] == blocks[i];
  }

  lemma AfterFailure(files: Files, stale: Files, blocks: Dict<string, string>, listed: seq<string>, env: Environment, n: nat)
    requires n < |blocks|
    requires forall i | 0 <= i < n :: env(i).Written? && (PythonFile(blocks[i].0) ==> env(i).compiles)
    requires env(n).Raised? || (PythonFile(blocks[n].0) && !env(n).compiles)
    ensures AfterApply(files, stale, blocks, listed, env)
         == match env(n)
            case Written(_) => RollBack(Overlay(files, blocks[..n + 1]), Backup(stale, files, listed), listed)
            case Raised(left) =>
              Restore(Leave(Overlay(files, blocks[..n]), blocks[n].0, left), Backup(stale, files, listed), listed)
  {
    hide Overlay, PythonFile, Leave, Backup, RollBack, Restore;
    StopsAt(blocks, env, n);
  }

  lemma StopsAt(blocks: Dict<string, string>, env: Environment, n: nat)
    requires n < |blocks| && Stops(blocks[n], env(n)) && forall i | 0 <= i < n :: !Stops(blocks[i], env(i))
    ensures FirstStop(blocks, env, 0) == n
  {
    hide Stops;
  }

  // ---- what a rollback undoes ---------------------------------------------------------------------

  /** The blocks outside the listed files wrote what was there already. */
  ghost predicate HarmlessOutside(files: Files, blocks: Dict<string, string>, listed: seq<string>) {
    forall i | 0 <= i < |blocks| && blocks[i].0 !in listed :: At(files, blocks[i].0) == Some(blocks[i].1)
  }

  /** No listed file that does not exist has a copy left from an earlier backup. */
  ghost predicate FreshBackup(files: Files, stale: Files, listed: seq<string>) {
    forall p | p in listed && p !in files :: p !in stale
  }

  /** The file map is as before exactly when every written block outside the listed files was
      harmless and the backup directory held no stale copy of a listed new file. */
  lemma RollBackUndoesExactly(files: Files, stale: Files, written: Dict<string, string>, listed: seq<string>)
    requires DistinctKeys(written)
    ensures RollBack(Overlay(files, written), Backup(stale, files, listed), listed) == files
       <==> HarmlessOutside(files, written, listed) && FreshBackup(files, stale, listed)
  {
    hide Overlay;
    var after := Overlay(files, written);
    var back := RollBack(after, Backup(stale, files, listed), listed);
    SameFiles(back, files);
    if back == files {
      forall i | 0 <= i < |written| && written[i].0 !in listed ensures At(files, written[i].0) == Some(written[i].1) {
        OverlayAt(files, written, written[i].0);
        assert At(back, written[i].0) == At(after, written[i].0);
      }
      forall p | p in listed && p !in files ensures p !in stale {
        assert At(back, p) == At(stale, p);
      }
    } else if HarmlessOutside(files, written, listed) && FreshBackup(files, stale, listed) {
      forall p ensures At(back, p) == At(files, p) {
        OverlayAt(files, written, p);
        if p in Keys(written) {
          var i :| 0 <= i < |written| && Keys(written)[i] == p;
          assert written[i].0 == p;
        }
      }
    }
  }

  /** If every block's path is among the backed-up files and the backup directory is new, a
      compile failure at any block leaves the whole file map as it was. */
  lemma CompileFailureLeavesNoTrace(files: Files, blocks: Dict<string, string>, listed: seq<string>, env: Environment)
    requires DistinctKeys(blocks) && forall i | 0 <= i < |blocks| :: blocks[i].0 in listed
    requires var n := FirstStop(blocks, env, 0); n < |blocks| && env(n).Written?
    ensures AfterApply(files, map[], blocks, listed, env) == files
  {
    hide Overlay, RollBack, Backup;
    var n := FirstStop(blocks, env, 0);
    RollBackUndoesExactly(files, map[], blocks[..n + 1], listed);
  }

  lemma LeaveAt(files: Files, path: string, left: Option<string>, p: string)
    ensures At(Leave(files, path, left), p) == if p == path then left else At(files, p)
  {
  }

  /** The state when block n raised. */
  function WhenRaised(files: Files, blocks: Dict<string, string>, n: nat, left: Option<string>): (r: Files)
    requires n < |blocks|
  {
    Leave(Overlay(files, blocks[..n]), blocks[n].0, left)
  }

  lemma WhenRaisedAt(files: Files, blocks: Dict<string, string>, n: nat, left: Option<string>, p: string)
    requires DistinctKeys(blocks) && n < |blocks|
    ensures var state := WhenRaised(files, blocks, n, left);
            && (p == blocks[n].0 ==> At(state, p) == left)
            && (forall i | 0 <= i < n && blocks[i].0 == p :: At(state, p) == Some(blocks[i].1))
            && (p !in Keys(blocks[..n + 1]) ==> At(state, p) == At(files, p))
  {
    LeaveAt(Overlay(files, blocks[..n]), blocks[n].0, left, p);
    OverlayAt(files, blocks[..n], p);
    assert Keys(blocks[..n + 1]) == Keys(blocks[..n]) + [blocks[n].0];
    forall i | 0 <= i < n && blocks[i].0 == p ensures At(WhenRaised(files, blocks, n, left), p) == Some(blocks[i].1) {
      assert blocks[..n][i].0 == p;
    }
  }

  /** After an exception the file map is as before exactly when, besides, no listed file that
      did not exist is there now: this branch deletes nothing. */
  lemma RestoreUndoesExactly(files: Files, stale: Files, blocks: Dict<string, string>, listed: seq<string>, n: nat,
                             left: Option<string>)
    requires DistinctKeys(blocks) && n < |blocks|
    ensures Restore(WhenRaised(files, blocks, n, left), Backup(stale, files, listed), listed) == files
       <==> && HarmlessOutside(files, blocks[..n], listed)
            && (blocks[n].0 !in listed ==> At(files, blocks[n].0) == left)
            && FreshBackup(files, stale, listed)
            && (forall i | 0 <= i < n && blocks[i].0 in listed :: blocks[i].0 in files)
            && (blocks[n].0 in listed && blocks[n].0 !in files ==> left == None)
  {
    hide Overlay, WhenRaised;
    var state := WhenRaised(files, blocks, n, left);
    var back := Restore(state, Backup(stale, files, listed), listed);
    SameFiles(back, files);
    if back == files {
      forall p ensures p !in listed ==> At(state, p) == At(files, p)
               ensures p in listed && p !in files ==> p !in stale && p !in state
      {
        assert At(back, p) == At(files, p);
      }
      forall i | 0 <= i < n ensures At(state, blocks[i].0) == Some(blocks[i].1) {
        WhenRaisedAt(files, blocks, n, left, blocks[i].0);
      }
      WhenRaisedAt(files, blocks, n, left, blocks[n].0);
    } else if && HarmlessOutside(files, blocks[..n], listed)
              && (blocks[n].0 !in listed ==> At(files, blocks[n].0) == left)
              && FreshBackup(files, stale, listed)
              && (forall i | 0 <= i < n && blocks[i].0 in listed :: blocks[i].0 in files)
              && (blocks[n].0 in listed && blocks[n].0 !in files ==> left == None) {
      forall p ensures At(back, p) == At(files, p) {
        WhenRaisedAt(files, blocks, n, left, p);
        if p in Keys(blocks[..n + 1]) {
          var i :| 0 <= i <= n && Keys(blocks[..n + 1])[i] == p;
          assert blocks[i].0 == p && (i < n ==> blocks[..n][i] == blocks[i]);
        }
      }
    }
  }

  /** A new file that compiled stays behind when a later block raises, though it is listed. */
  lemma ExceptionKeepsNewFile()
    ensures exists files: Files, blocks: Dict<string, string>, listed: seq<string>, env: Environment ::
              && (forall i | 0 <= i < |blocks| :: blocks[i].0 in listed) && FirstStop(blocks, env, 0) < |blocks|
              && AfterApply(files, map[], blocks, listed, env) != files
  {
    var files: Files := map[];
    var blocks: Dict<string, string> := [("a", "new"), ("b", "next")];
    var listed := ["a", "b"];
    var env: Environment := k => if k == 0 then Written(true) else Raised(None);
    assert !PythonFile("a");
    assert !Stops(blocks[0], env(0)) && Stops(blocks[1], env(1));
    assert FirstStop(blocks, env, 0) == 1;
    RestoreUndoesExactly(files, map[], blocks, listed, 1, None);
    assert blocks[0].0 in listed && blocks[0].0 !in files;
    assert AfterApply(files, map[], blocks, listed, env)
        == Restore(WhenRaised(files, blocks, 1, None), Backup(map[], files, listed), listed);
    assert listed[0] == "a" && listed[1] == "b";
  }

  /** A block outside the listed files is written all the same, and survives the rollback. */
  lemma StrayBlockSurvives()
    ensures exists files: Files, blocks: Dict<string, string>, listed: seq<string>, env: Environment ::
              && DistinctKeys(blocks)
              && (var n := FirstStop(blocks, env, 0); n < |blocks| && env(n).Written?)
              && AfterApply(files, map[], blocks, listed, env) != files
  {
    var files: Files := map[];
    var blocks: Dict<string, string> := [("x.py", "(")];
    var env: Environment := k => Written(false);
    assert PythonFile("x.py");
    assert FirstStop(blocks, env, 0) == 0;
    RollBackUndoesExactly(files, map[], blocks[..1], []);
    assert blocks[..1][0].0 == "x.py";
    assert AfterApply(files, map[], blocks, [], env)
        == RollBack(Overlay(files, blocks[..1]), Backup(map[], files, []), []);
  }
}
