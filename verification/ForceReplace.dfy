/** Replacing a dump directory by a staged one, and getting rid of the old tree. */
module ForceReplace {
  import opened Wire
  import opened Namespace

  datatype Cause = Invalid | Unmovable | IdentityChanged | ClearFailed | NoQuarantine

  datatype Outcome =
    | Published
    | Refused                   // nothing was exchanged
    | EffectFailed              // the effect runner reported an error, whether or not the exchange was applied
    | Unsupported               // the platform cannot exchange
    | PathsChanged              // after the exchange the paths are not bound as expected
    | RolledBack(cause: Cause)  // exchanged and exchanged back
    | Stuck(cause: Cause)       // the roll-back was refused or failed
    | Uncleaned(cause: Cause)   // published, the old tree not removed

  predicate Bound(fs: Filesystem, path: string, root: Root)
    reads fs
  {
    path in fs.bindings && fs.bindings[path] == root
  }

  predicate Holds(fs: Filesystem, root: Root, files: Tree)
    reads fs
  {
    root in fs.contents && fs.contents[root] == files
  }

  // ---------------------------------------------------------------- what the log tells

  predicate ExchangedBack(s: seq<Event>, staging: string, target: string, oldRoot: Root, staged: Root) {
    && |s| == 5 && s[0] == Seen(staging, oldRoot) && s[1] == Seen(target, staged)
    && s[2].Exchanged? && s[2].first == staging && s[2].second == target
    && s[3] == Seen(target, oldRoot) && s[4] == Seen(staging, staged)
  }

  /** The old root was found in the quarantine to be the root it was, and examined; and just what was examined was
      cleared. */
  predicate IdentifiedThenCleared(s: seq<Event>, moved: string, oldRoot: Root, hadFiles: bool, valid: Tree -> bool) {
    && |s| == 3 && s[0] == Seen(moved, oldRoot)
    && s[1].Examined? && s[1].root == oldRoot && Disposable(valid, s[1].files, hadFiles)
    && s[2] == Cleared(moved, oldRoot, s[1].files)
  }

  predicate MovedThenCleared(s: seq<Event>, path: string, quarantine: string, oldRoot: Root, hadFiles: bool,
                             valid: Tree -> bool)
  {
    var moved := quarantine + "/root";
    && |s| == 4 && s[0].Moved? && s[0].from == path && s[0].to == moved
    && IdentifiedThenCleared(s[1..], moved, oldRoot, hadFiles, valid)
  }

  predicate ExaminedThenCleared(s: seq<Event>, path: string, quarantine: string, oldRoot: Root, hadFiles: bool,
                                valid: Tree -> bool)
  {
    && |s| == 5 && s[0].Examined? && s[0].root == oldRoot && Disposable(valid, s[0].files, hadFiles)
    && MovedThenCleared(s[1..], path, quarantine, oldRoot, hadFiles, valid)
  }

  predicate SeenThenCleared(s: seq<Event>, staging: string, target: string, quarantine: string,
                            oldRoot: Root, staged: Root, hadFiles: bool, valid: Tree -> bool)
  {
    && |s| == 7 && s[0] == Seen(staging, oldRoot) && s[1] == Seen(target, staged)
    && ExaminedThenCleared(s[2..], staging, quarantine, oldRoot, hadFiles, valid)
  }

  /** The paths were exchanged and seen to be, and the old root was examined, before it was moved and cleared. */
  predicate ExchangedThenCleared(s: seq<Event>, staging: string, target: string, quarantine: string,
                                 oldRoot: Root, staged: Root, hadFiles: bool, valid: Tree -> bool)
  {
    && |s| == 8 && s[0].Exchanged? && s[0].first == staging && s[0].second == target
    && SeenThenCleared(s[1..], staging, target, quarantine, oldRoot, staged, hadFiles, valid)
  }

  /** The target was opened and found to hold files, which were validated, or none. */
  predicate OpenedInOrder(s: seq<Event>, target: string, root: Root, hadFiles: bool, valid: Tree -> bool) {
    && |s| == (if hadFiles then 3 else 2) && s[0] == Opened(target, root)
    && s[1].Examined? && s[1].root == root && hadFiles == (s[1].files != map[])
    && (hadFiles ==> s[2].Examined? && s[2].root == root && valid(s[2].files))
  }

  /** What is seen of the target and the staged directory by the checks that come first. */
  predicate CheckedInOrder(s: seq<Event>, staging: string, target: string, c: Checked, valid: Tree -> bool)
    requires c.Checked?
  {
    var n := ChecksOf(c) - 2;
    && |s| == n + 2 && OpenedInOrder(s[..n], target, c.oldRoot, c.hadFiles, valid)
    && s[n] == Opened(staging, c.staged) && s[n + 1] == Seen(target, c.oldRoot)
  }

  function ChecksOf(c: Checked): nat
    requires c.Checked?
  {
    if c.hadFiles then 5 else 4
  }

  /** A whole replacement that got as far as clearing. */
  predicate CheckedThenCleared(s: seq<Event>, staging: string, target: string, quarantine: string, c: Checked,
                               valid: Tree -> bool)
    requires c.Checked?
  {
    var n := ChecksOf(c);
    && |s| == n + 8 && CheckedInOrder(s[..n], staging, target, c, valid)
    && ExchangedThenCleared(s[n..], staging, target, quarantine, c.oldRoot, c.staged, c.hadFiles, valid)
  }

  /** What was logged since then. */
  ghost function Since(fs: Filesystem, before: seq<Event>): seq<Event>
    reads fs
    requires before <= fs.log
  {
    fs.log[|before|..]
  }

  // ---------------------------------------------------------------- the steps

  /** Whether both paths are bound as expected when they are looked at, one after the other. */
  method BothSeen(fs: Filesystem, first: string, firstRoot: Root, second: string, secondRoot: Root) returns (ok: bool)
    modifies fs`bindings, fs`contents, fs`log, fs`hindrances
    ensures fs.Undisturbed() && old(fs.log) <= fs.log
    ensures ok ==> fs.log == old(fs.log) + [Seen(first, firstRoot), Seen(second, secondRoot)]
    ensures ok ==> Bound(fs, second, secondRoot)
    ensures ok && fs.alone ==> Bound(fs, first, firstRoot)
    ensures old(fs.hindrances) <= fs.hindrances && (ok ==> fs.hindrances == old(fs.hindrances))
    ensures !ok && fs.alone && Bound(fs, first, firstRoot) && Bound(fs, second, secondRoot) ==>
              fs.hindrances > old(fs.hindrances)
  {
    var firstStat := fs.Lstat(first);
    var secondStat := fs.Lstat(second);
    ok := firstStat == Found(firstRoot) && secondStat == Found(secondRoot);
  }

  /** Exchanging back: only while both paths are seen as the exchange left them. */
  method Rollback(fs: Filesystem, staging: string, target: string, oldRoot: Root, staged: Root, cause: Cause)
    returns (outcome: Outcome)
    requires staging != target && staging !in fs.inside && target !in fs.inside
    modifies fs`bindings, fs`contents, fs`log, fs`hindrances
    ensures outcome == RolledBack(cause) || outcome == Stuck(cause)
    ensures old(fs.log) <= fs.log
    ensures outcome.RolledBack? ==>
              ExchangedBack(Since(fs, old(fs.log)), staging, target, oldRoot, staged) && Bound(fs, staging, staged)
    ensures fs.alone ==> fs.contents == old(fs.contents)
    ensures fs.alone && outcome.RolledBack? ==>
              && old(Bound(fs, staging, oldRoot)) && old(Bound(fs, target, staged))
              && fs.bindings == old(fs.bindings)[staging := staged][target := oldRoot]
    ensures fs.alone && outcome.Stuck? ==>
              || fs.bindings == old(fs.bindings)
              || (old(Bound(fs, staging, oldRoot)) && old(Bound(fs, target, staged))
                  && fs.bindings == old(fs.bindings)[staging := staged][target := oldRoot])
    ensures old(fs.hindrances) <= fs.hindrances
    ensures outcome.Stuck? && fs.alone && old(Bound(fs, staging, oldRoot)) && old(Bound(fs, target, staged)) ==>
              fs.hindrances > old(fs.hindrances)
  {
    var expected := BothSeen(fs, staging, oldRoot, target, staged);
    if !expected {
      return Stuck(cause);
    }
    var supported, failed := fs.Exchange(staging, target);
    if failed || !supported {
      return Stuck(cause);
    }
    var restored := BothSeen(fs, target, oldRoot, staging, staged);
    if !restored {
      return Stuck(cause);
    }
    return RolledBack(cause);
  }

  /** Whether the opened root may be cleared: a valid dump, or still no files at all. */
  method CleanupPlan(fs: Filesystem, root: Root, hadFiles: bool) returns (ok: bool)
    modifies fs`bindings, fs`contents, fs`log, fs`hindrances
    ensures fs.Undisturbed()
    ensures old(fs.log) <= fs.log
    ensures ok ==>
              var s := Since(fs, old(fs.log));
              && |s| == 1 && s[0].Examined? && s[0].root == root && Disposable(fs.valid, s[0].files, hadFiles)
              && (forall p :: p in fs.inside && p in fs.bindings && fs.bindings[p] == root ==>
                  Holds(fs, root, s[0].files))
              && (fs.alone ==> Holds(fs, root, s[0].files))
    ensures old(fs.hindrances) <= fs.hindrances && (ok ==> fs.hindrances == old(fs.hindrances))
    ensures !ok && fs.alone && root in fs.contents && Disposable(fs.valid, fs.contents[root], hadFiles) ==>
              fs.hindrances > old(fs.hindrances)
  {
    if hadFiles {
      ok := fs.ValidateDump(root);
    } else {
      var hasFiles := fs.InspectTree(root);
      ok := hasFiles == Some(false);
    }
    if ok {
      ok := fs.CleanupAllowed();
    }
  }

  predicate Disposable(valid: Tree -> bool, files: Tree, hadFiles: bool) {
    if hadFiles then valid(files) else files == map[]
  }

  predicate DisposableRoot(fs: Filesystem, root: Root, hadFiles: bool)
    reads fs
  {
    root in fs.contents && Disposable(fs.valid, fs.contents[root], hadFiles)
  }

  /** What the removal of the old root may have done. */
  datatype Removal = Removed | Kept(cause: Cause, rollbackSafe: bool)

  /** The second half of the removal: what was moved into the quarantine is cleared, or moved back. */
  method ClearQuarantined(fs: Filesystem, path: string, moved: string, oldRoot: Root, hadFiles: bool)
    returns (removal: Removal)
    requires path !in fs.inside && moved in fs.inside && moved in fs.bindings
    modifies fs`bindings, fs`contents, fs`log, fs`clearings, fs`hindrances
    ensures old(fs.log) <= fs.log
    ensures removal.Removed? ==> fs.clearings != old(fs.clearings)
    ensures removal.Kept? && removal.rollbackSafe ==> fs.clearings == old(fs.clearings)
    ensures fs.clearings == old(fs.clearings)
        || IdentifiedThenCleared(Since(fs, old(fs.log)), moved, oldRoot, hadFiles, fs.valid)
    ensures fs.alone ==> oldRoot in old(fs.contents) || fs.contents == old(fs.contents)
    ensures fs.alone && oldRoot in old(fs.contents) ==>
              oldRoot in fs.contents && fs.contents == old(fs.contents)[oldRoot := fs.contents[oldRoot]]
    ensures fs.alone && fs.clearings == old(fs.clearings) ==> fs.contents == old(fs.contents)
    ensures fs.alone && removal.Removed? ==> Holds(fs, oldRoot, map[])
    ensures fs.alone ==>
              fs.bindings == if removal.Kept? && removal.rollbackSafe
                             then (old(fs.bindings) - {moved})[path := old(fs.bindings)[moved]] else old(fs.bindings)
    ensures old(fs.hindrances) <= fs.hindrances && (removal.Removed? ==> fs.hindrances == old(fs.hindrances))
    ensures removal.Kept? && fs.alone
            && old(Bound(fs, moved, oldRoot)) && old(DisposableRoot(fs, oldRoot, hadFiles)) ==>
              fs.hindrances > old(fs.hindrances)
    ensures removal.Kept? && !removal.rollbackSafe && fs.clearings == old(fs.clearings) && fs.alone
            && path !in old(fs.bindings)
            && old(Bound(fs, moved, oldRoot)) && old(DisposableRoot(fs, oldRoot, hadFiles)) ==>
              fs.hindrances >= old(fs.hindrances) + 2
  {
    var stat := fs.Lstat(moved);
    if stat != Found(oldRoot) {
      var restored := fs.RenameNoReplace(moved, path);
      return Kept(IdentityChanged, restored);
    }
    var disposable := CleanupPlan(fs, oldRoot, hadFiles);
    if !disposable {
      var restored := fs.RenameNoReplace(moved, path);
      return Kept(Invalid, restored);
    }
    assert Holds(fs, oldRoot, fs.log[|fs.log| - 1].files);
    var cleared := fs.ClearRoot(oldRoot, moved);
    if !cleared {
      return Kept(ClearFailed, false);
    }
    return Removed;
  }

  /** The old tree is moved aside, identified and validated again there, and only then cleared. */
  method RemoveReplacedRoot(fs: Filesystem, path: string, quarantine: string, oldRoot: Root, hadFiles: bool)
    returns (removal: Removal)
    requires path !in fs.inside && path != quarantine + "/root"
    modifies fs`bindings, fs`contents, fs`inside, fs`log, fs`clearings, fs`hindrances
    ensures old(fs.log) <= fs.log && fs.inside <= old(fs.inside) + {quarantine + "/root"}
    // Whoever else acts, but not inside the quarantine: nothing is cleared, or the old root, moved, identified and
    // validated again.
    ensures var s := Since(fs, old(fs.log));
            fs.clearings == old(fs.clearings) || MovedThenCleared(s, path, quarantine, oldRoot, hadFiles, fs.valid)
    ensures removal.Removed? ==> fs.clearings != old(fs.clearings)
    ensures removal.Kept? && removal.rollbackSafe ==> fs.clearings == old(fs.clearings)
    // With nobody else acting:
    ensures fs.alone && fs.clearings == old(fs.clearings) ==>
              forall root :: root in old(fs.contents) ==> Holds(fs, root, old(fs.contents)[root])
    ensures fs.alone ==>
              forall root :: root in old(fs.contents) && root != oldRoot ==> Holds(fs, root, old(fs.contents)[root])
    ensures removal.Removed? && fs.alone ==> Holds(fs, oldRoot, map[])
    ensures fs.alone ==>
              forall p :: p in old(fs.bindings) && p != path ==> Bound(fs, p, old(fs.bindings)[p])
    ensures fs.alone && removal.Kept? && removal.rollbackSafe && path in old(fs.bindings) ==>
              Bound(fs, path, old(fs.bindings)[path])
    ensures old(fs.hindrances) <= fs.hindrances
    ensures fs.alone && old(Removable(fs, path, quarantine, oldRoot, hadFiles)) ==>
              && (removal.Kept? ==> fs.hindrances > old(fs.hindrances))
              && (removal.Kept? && !removal.rollbackSafe && fs.clearings == old(fs.clearings) ==>
                    fs.hindrances >= old(fs.hindrances) + 2)
  {
    var moved, cause := MoveAside(fs, path, quarantine);
    if moved.None? {
      return Kept(cause, true);
    }
    removal := ClearQuarantined(fs, path, moved.value, oldRoot, hadFiles);
  }

  /** The old root is at the path, may be cleared, and the name of the quarantine is free. */
  predicate Removable(fs: Filesystem, path: string, quarantine: string, oldRoot: Root, hadFiles: bool)
    reads fs
  {
    && Bound(fs, path, oldRoot) && DisposableRoot(fs, oldRoot, hadFiles)
    && quarantine !in fs.bindings && quarantine + "/root" !in fs.bindings
  }

  /** A new private directory, and the tree moved into it. */
  method MoveAside(fs: Filesystem, path: string, quarantine: string) returns (moved: Option<string>, cause: Cause)
    requires path !in fs.inside && path != quarantine + "/root"
    modifies fs`bindings, fs`contents, fs`inside, fs`log, fs`hindrances
    ensures fs.inside <= old(fs.inside) + {quarantine + "/root"}
    ensures moved.None? ==> fs.log == old(fs.log)
    ensures moved.Some? ==>
              && moved.value == quarantine + "/root" && moved.value in fs.inside && moved.value in fs.bindings
              && fs.log == old(fs.log) + [Moved(path, moved.value, fs.bindings[moved.value])]
    ensures fs.alone ==> forall root :: root in old(fs.contents) ==> Holds(fs, root, old(fs.contents)[root])
    ensures fs.alone ==> forall p :: p in old(fs.bindings) && p != path ==> Bound(fs, p, old(fs.bindings)[p])
    ensures fs.alone && moved.None? && path in old(fs.bindings) ==> Bound(fs, path, old(fs.bindings)[path])
    ensures fs.alone && moved.Some? ==>
              && moved.value !in old(fs.bindings) && path !in fs.bindings
              && (path in old(fs.bindings) ==> Bound(fs, moved.value, old(fs.bindings)[path]))
    ensures old(fs.hindrances) <= fs.hindrances && (moved.Some? ==> fs.hindrances == old(fs.hindrances))
    ensures moved.None? && fs.alone && path in old(fs.bindings)
            && quarantine !in old(fs.bindings) && quarantine + "/root" !in old(fs.bindings) ==>
              fs.hindrances > old(fs.hindrances)
  {
    moved, cause := None, NoQuarantine;
    var temp := fs.MakeTemp(quarantine);
    if temp.None? {
      return;
    }
    var allowed := fs.CleanupAllowed();
    if !allowed {
      return;
    }
    var relocated := fs.RenameNoReplace(path, temp.value + "/root");
    if !relocated {
      return None, Unmovable;
    }
    moved := Some(temp.value + "/root");
  }

  /** What the effect runner makes of one attempt: it may refuse it, leave it out without saying so, and
      fail to report a finished one. */
  datatype Attempt = Declined | Skipped | Ran(supported: bool, failed: bool, reported: bool)

  method RunExchange(fs: Filesystem, staging: string, target: string, expired: bool) returns (attempt: Attempt)
    requires staging != target && staging !in fs.inside && target !in fs.inside
    modifies fs`bindings, fs`contents, fs`log, fs`hindrances
    ensures if attempt.Ran? && attempt.supported && !attempt.failed
            then staging in fs.bindings && target in fs.bindings
                 && fs.log == old(fs.log) + [Exchanged(staging, target, fs.bindings[target], fs.bindings[staging])]
            else fs.log == old(fs.log)
    ensures fs.alone ==> fs.contents == old(fs.contents)
    ensures fs.alone ==>
              if attempt.Ran? && attempt.supported && !attempt.failed
              then staging in old(fs.bindings) && target in old(fs.bindings)
                   && fs.bindings
                   == old(fs.bindings)[staging := old(fs.bindings)[target]][target := old(fs.bindings)[staging]]
              else fs.bindings == old(fs.bindings)
    ensures attempt == Ran(true, false, true) <==> fs.hindrances == old(fs.hindrances)
    ensures old(fs.hindrances) <= fs.hindrances
    ensures expired ==> attempt.Declined?
  {
    var declined: bool, skipped: bool, reported: bool := *, *, *;
    if expired || declined {
      fs.hindrances := fs.hindrances + 1;
      return Declined;
    }
    if skipped {
      fs.hindrances := fs.hindrances + 1;
      return Skipped;
    }
    var supported, failed := fs.Exchange(staging, target);
    if !reported {
      fs.hindrances := fs.hindrances + 1;
    }
    return Ran(supported, failed, reported);
  }

  /** A target that does not exist yet: a plain move, which an existing one refuses. */
  method PublishNoReplace(fs: Filesystem, staging: string, target: string, expired: bool) returns (outcome: Outcome)
    modifies fs`bindings, fs`contents, fs`log, fs`hindrances
    ensures outcome.Published? || outcome.Refused? || outcome.EffectFailed?
    ensures old(fs.log) <= fs.log
    ensures outcome.Published? ==>
              target in fs.bindings && fs.log == old(fs.log) + [Moved(staging, target, fs.bindings[target])]
    ensures outcome.Refused? ==> fs.log == old(fs.log)
    ensures fs.alone ==> fs.contents == old(fs.contents)
    ensures fs.alone && outcome.Published? ==>
              && target !in old(fs.bindings) && staging in old(fs.bindings)
              && fs.bindings == (old(fs.bindings) - {staging})[target := old(fs.bindings)[staging]]
    ensures fs.alone && outcome.Refused? ==> fs.bindings == old(fs.bindings)
    ensures fs.alone && target in old(fs.bindings) ==> fs.bindings == old(fs.bindings)
    ensures expired ==> outcome.Refused?
    ensures old(fs.hindrances) <= fs.hindrances
    ensures fs.alone && !expired && staging in old(fs.bindings) && target !in old(fs.bindings) ==>
              (outcome.Published? <==> fs.hindrances == old(fs.hindrances))
  {
    var declined: bool, skipped: bool, reported: bool := *, *, *;
    if expired || declined {
      fs.hindrances := fs.hindrances + 1;
      return Refused;
    }
    if skipped {
      fs.hindrances := fs.hindrances + 1;
      return EffectFailed;
    }
    var moved := fs.RenameNoReplace(staging, target);
    if !moved {
      return Refused;
    }
    if !reported {
      fs.hindrances := fs.hindrances + 1;
      return EffectFailed;
    }
    return Published;
  }

  /** What was established before the exchange: the opened roots, and whether the old one held files. */
  datatype Checked = Checked(oldRoot: Root, staged: Root, hadFiles: bool) | Unsafe

  /** A directory that may be replaced: an empty one, or, if that is allowed, a valid dump. */
  predicate MayReplace(valid: Tree -> bool, files: Tree, allowOwnedDump: bool) {
    files == map[] || (allowOwnedDump && valid(files))
  }

  /** The target is opened, and what it holds is inspected and, if that is anything, validated. */
  method OpenTarget(fs: Filesystem, target: string, allowOwnedDump: bool) returns (handle: Option<Root>, hasFiles: bool)
    modifies fs`bindings, fs`contents, fs`log, fs`hindrances
    ensures fs.Undisturbed() && old(fs.log) <= fs.log && OnlyLooks(Since(fs, old(fs.log)))
    ensures handle.Some? ==>
              && OpenedInOrder(Since(fs, old(fs.log)), target, handle.value, hasFiles, fs.valid)
              && (hasFiles ==> allowOwnedDump)
    ensures handle.Some? && fs.alone ==>
              && Bound(fs, target, handle.value)
              && handle.value in fs.contents && hasFiles == (fs.contents[handle.value] != map[])
              && Disposable(fs.valid, fs.contents[handle.value], hasFiles)
    ensures old(fs.hindrances) <= fs.hindrances && (handle.Some? ==> fs.hindrances == old(fs.hindrances))
    ensures handle.None? && fs.alone && target in fs.bindings && fs.bindings[target] in fs.contents
            && MayReplace(fs.valid, fs.contents[fs.bindings[target]], allowOwnedDump) ==>
              fs.hindrances > old(fs.hindrances)
  {
    handle := fs.OpenRoot(target);
    if handle.None? {
      return None, false;
    }
    var inspected := fs.InspectTree(handle.value);
    if inspected.None? || (inspected.value && !allowOwnedDump) {
      return None, false;
    }
    hasFiles := inspected.value;
    if hasFiles {
      var valid := fs.ValidateDump(handle.value);
      if !valid {
        return None, true;
      }
    }
  }

  /** Everything that is looked at before the exchange; nothing changes. */
  method CheckTarget(fs: Filesystem, staging: string, target: string, allowOwnedDump: bool) returns (checked: Checked)
    modifies fs`bindings, fs`contents, fs`log, fs`hindrances
    ensures fs.Undisturbed()
    ensures old(fs.log) <= fs.log && OnlyLooks(Since(fs, old(fs.log)))
    ensures checked.Checked? ==>
              && CheckedInOrder(Since(fs, old(fs.log)), staging, target, checked, fs.valid)
              && Bound(fs, target, checked.oldRoot) && (checked.hadFiles ==> allowOwnedDump)
    ensures checked.Checked? && fs.alone ==>
              && Bound(fs, staging, checked.staged)
              && checked.oldRoot in fs.contents && checked.staged in fs.contents
              && checked.hadFiles == (fs.contents[checked.oldRoot] != map[])
              && Disposable(fs.valid, fs.contents[checked.oldRoot], checked.hadFiles)
    ensures old(fs.hindrances) <= fs.hindrances && (checked.Checked? ==> fs.hindrances == old(fs.hindrances))
    ensures checked.Unsafe? && fs.alone && Replaceable(fs, staging, target)
            && MayReplace(fs.valid, fs.contents[fs.bindings[target]], allowOwnedDump) ==>
              fs.hindrances > old(fs.hindrances)
  {
    var handle, hasFiles := OpenTarget(fs, target, allowOwnedDump);
    if handle.None? {
      return Unsafe;
    }
    var treeAllowed := fs.CleanupAllowed();
    var parentAllowed := fs.CleanupAllowed();
    if !treeAllowed || !parentAllowed {
      return Unsafe;
    }
    var staged := fs.OpenRoot(staging);
    if staged.None? {
      return Unsafe;
    }
    var current := fs.Lstat(target);
    if current != Found(handle.value) {
      return Unsafe;
    }
    return Checked(handle.value, staged.value, hasFiles);
  }

  /**
    Publishing a staged dump over an existing directory.  `dangerous` is the outcome of the checks on
    the target's name, `expired` that of the request's context.
  */
  method PublishReplacing(fs: Filesystem, staging: string, target: string, quarantine: string, allowOwnedDump: bool,
                          dangerous: bool, expired: bool) returns (outcome: Outcome)
    requires staging != target && staging !in fs.inside && target !in fs.inside
    requires staging != quarantine + "/root" && target != quarantine + "/root"
    modifies fs`bindings, fs`contents, fs`inside, fs`log, fs`clearings, fs`hindrances
    // Whoever else acts, and whenever, but not inside the quarantine (Filesystem.Undisturbed): nothing is cleared,
    // or the root that was opened at the target, checked, exchanged, moved into the quarantine, identified there
    // and validated again.
    ensures old(fs.log) <= fs.log
    ensures fs.clearings == old(fs.clearings)
            || (&& |fs.log| > |old(fs.log)| && fs.log[|old(fs.log)|].Seen? && fs.log[|old(fs.log)|].path == target
                && exists c: Checked ::
                     c.Checked?
                     && CheckedThenCleared(fs.log[|old(fs.log)| + 1..], staging, target, quarantine, c, fs.valid))
    ensures outcome.Published? ==>
              || fs.clearings != old(fs.clearings)
              || (target in fs.bindings && fs.log == old(fs.log) + [Moved(staging, target, fs.bindings[target])])
    ensures outcome.Refused? || outcome.RolledBack? || outcome.Unsupported? ==> fs.clearings == old(fs.clearings)
    // With nobody else acting, for a target and a staged directory that are different directories:
    ensures fs.alone && old(Replaceable(fs, staging, target)) ==>
              ReplacedOrKept(fs, target, old(fs.bindings)[target], old(fs.bindings)[staging], old(fs.contents), outcome)
    ensures fs.alone && target !in old(fs.bindings) && outcome.Published? ==>
              staging in old(fs.bindings) && Bound(fs, target, old(fs.bindings)[staging])
    ensures outcome.Refused? && fs.alone ==> fs.bindings == old(fs.bindings) && fs.contents == old(fs.contents)
    // A dangerous target is not even looked at, and after its context has ended nothing is changed.
    ensures allowOwnedDump && dangerous ==> outcome.Refused? && fs.log == old(fs.log)
    ensures expired ==> outcome.Refused? && OnlyLooks(fs.log[|old(fs.log)|..])
    // With nobody else acting and nothing failing, it is published exactly when it may be.
    ensures old(fs.hindrances) <= fs.hindrances
    ensures fs.alone && fs.hindrances == old(fs.hindrances) && !(allowOwnedDump && dangerous) && !expired
            && old(FreeNames(fs, quarantine)) && old(Replaceable(fs, staging, target)) ==>
              if old(MayReplace(fs.valid, fs.contents[fs.bindings[target]], allowOwnedDump))
              then outcome.Published? else outcome.Refused?
    ensures fs.alone && fs.hindrances == old(fs.hindrances) && !(allowOwnedDump && dangerous) && !expired
            && target !in old(fs.bindings) && staging in old(fs.bindings) ==>
              outcome.Published?
    // A single failure never leaves the roll-back stuck, and an old tree that is left over is one being cleared.
    ensures fs.alone && fs.hindrances <= old(fs.hindrances) + 1
            && old(FreeNames(fs, quarantine)) && old(Replaceable(fs, staging, target)) ==>
              !outcome.Stuck? && (outcome.Uncleaned? ==> fs.clearings != old(fs.clearings))
  {
    if allowOwnedDump && dangerous {
      return Refused;
    }
    var stat := fs.Lstat(target);
    if stat.NotExist? {
      outcome := PublishNoReplace(fs, staging, target, expired);
      return;
    }
    if stat.StatFailed? {
      return Refused;
    }
    outcome := ReplaceExisting(fs, staging, target, quarantine, allowOwnedDump, expired);
  }

  method ReplaceExisting(fs: Filesystem, staging: string, target: string, quarantine: string, allowOwnedDump: bool,
                         expired: bool) returns (outcome: Outcome)
    requires staging != target && staging !in fs.inside && target !in fs.inside
    requires staging != quarantine + "/root" && target != quarantine + "/root"
    modifies fs`bindings, fs`contents, fs`inside, fs`log, fs`clearings, fs`hindrances
    ensures old(fs.log) <= fs.log
    ensures fs.clearings == old(fs.clearings)
            || exists c: Checked ::
                 c.Checked? && CheckedThenCleared(Since(fs, old(fs.log)), staging, target, quarantine, c, fs.valid)
    ensures outcome.Published? ==> fs.clearings != old(fs.clearings)
    ensures outcome.Refused? || outcome.RolledBack? || outcome.Unsupported? ==> fs.clearings == old(fs.clearings)
    ensures fs.alone && old(Replaceable(fs, staging, target)) ==>
              ReplacedOrKept(fs, target, old(fs.bindings)[target], old(fs.bindings)[staging], old(fs.contents), outcome)
    ensures outcome.Refused? && fs.alone ==> fs.bindings == old(fs.bindings) && fs.contents == old(fs.contents)
    ensures fs.alone && outcome.Published? ==> target in old(fs.bindings)
    ensures expired ==> outcome.Refused? && OnlyLooks(Since(fs, old(fs.log)))
    ensures old(fs.hindrances) <= fs.hindrances
    ensures fs.alone && fs.hindrances == old(fs.hindrances) && !expired
            && old(FreeNames(fs, quarantine)) && old(Replaceable(fs, staging, target)) ==>
              if old(MayReplace(fs.valid, fs.contents[fs.bindings[target]], allowOwnedDump))
              then outcome.Published? else outcome.Refused?
    ensures fs.alone && fs.hindrances <= old(fs.hindrances) + 1
            && old(FreeNames(fs, quarantine)) && old(Replaceable(fs, staging, target)) ==>
              !outcome.Stuck? && (outcome.Uncleaned? ==> fs.clearings != old(fs.clearings))
  {
    var checked := CheckTarget(fs, staging, target, allowOwnedDump);
    if checked.Unsafe? || expired {
      return Refused;
    }
    ghost var before := fs.log;
    outcome := ExchangeAndClean(fs, staging, target, quarantine, checked.oldRoot, checked.staged, checked.hadFiles);
    if fs.clearings != old(fs.clearings) {
      Joined(old(fs.log), before, fs.log);
      assert CheckedThenCleared(Since(fs, old(fs.log)), staging, target, quarantine, checked, fs.valid);
    }
  }

  lemma Joined(start: seq<Event>, middle: seq<Event>, end: seq<Event>)
    requires start <= middle <= end
    ensures end[|start|..][..|middle| - |start|] == middle[|start|..]
    ensures end[|start|..][|middle| - |start|..] == end[|middle|..]
  {}

  predicate FreeNames(fs: Filesystem, quarantine: string)
    reads fs
  {
    quarantine !in fs.bindings && quarantine + "/root" !in fs.bindings
  }

  predicate OnlyLooks(s: seq<Event>) { forall k :: 0 <= k < |s| ==> s[k].Seen? || s[k].Opened? || s[k].Examined? }

  predicate Replaceable(fs: Filesystem, staging: string, target: string)
    reads fs
  {
    && staging in fs.bindings && target in fs.bindings
    && fs.bindings[staging] in fs.contents && fs.bindings[target] in fs.contents
    && fs.bindings[staging] != fs.bindings[target]
  }

  /** The target is bound to the staged root, or to the old one with every file in place; which of the
      two follows from the outcome, and no other root has lost anything. */
  ghost predicate ReplacedOrKept(fs: Filesystem, target: string, oldRoot: Root, staged: Root, before: map<Root, Tree>,
                                 outcome: Outcome)
    reads fs
    requires oldRoot in before
  {
    && (forall root :: root in before && root != oldRoot ==> Holds(fs, root, before[root]))
    && (Bound(fs, target, staged) || (Bound(fs, target, oldRoot) && Holds(fs, oldRoot, before[oldRoot])))
    && (outcome.Published? ==> Bound(fs, target, staged) && Holds(fs, oldRoot, map[]))
    && (outcome.RolledBack? || outcome.Refused? || outcome.Unsupported? ==>
          Bound(fs, target, oldRoot) && Holds(fs, oldRoot, before[oldRoot]))
    && (outcome.Uncleaned? ==> Bound(fs, target, staged))
  }

  method ExchangeAndClean(fs: Filesystem, staging: string, target: string, quarantine: string,
                          oldRoot: Root, staged: Root, hadFiles: bool) returns (outcome: Outcome)
    requires staging != target && staging !in fs.inside && target !in fs.inside
    requires staging != quarantine + "/root" && target != quarantine + "/root"
    modifies fs`bindings, fs`contents, fs`inside, fs`log, fs`clearings, fs`hindrances
    ensures old(fs.log) <= fs.log
    ensures var s := Since(fs, old(fs.log));
            || fs.clearings == old(fs.clearings)
            || ExchangedThenCleared(s, staging, target, quarantine, oldRoot, staged, hadFiles, fs.valid)
    ensures outcome.Published? ==> fs.clearings != old(fs.clearings)
    ensures outcome.Refused? || outcome.RolledBack? || outcome.Unsupported? ==> fs.clearings == old(fs.clearings)
    ensures fs.alone
            && old(Replaceable(fs, staging, target) && Bound(fs, target, oldRoot) && Bound(fs, staging, staged)) ==>
              ReplacedOrKept(fs, target, oldRoot, staged, old(fs.contents), outcome)
    ensures outcome.Refused? && fs.alone ==> fs.bindings == old(fs.bindings) && fs.contents == old(fs.contents)
    ensures old(fs.hindrances) <= fs.hindrances
    ensures fs.alone && old(Bound(fs, target, oldRoot)) && old(Bound(fs, staging, staged)) && oldRoot != staged
            && old(DisposableRoot(fs, oldRoot, hadFiles)) && old(FreeNames(fs, quarantine)) ==>
              && (!outcome.Published? ==> fs.hindrances > old(fs.hindrances))
              && (outcome.Stuck? || (outcome.Uncleaned? && fs.clearings == old(fs.clearings)) ==>
                    fs.hindrances >= old(fs.hindrances) + 2)
  {
    var attempt := RunExchange(fs, staging, target, false);
    match attempt {
      case Declined => return Refused;
      case Skipped => return Refused;
      case Ran(supported, failed, reported) =>
        if failed {
          return EffectFailed;
        }
        if !supported {
          return Unsupported;
        }
        if !reported {
          return EffectFailed;
        }
    }
    outcome := LookAndCleanUp(fs, staging, target, quarantine, oldRoot, staged, hadFiles);
  }

  /** After the exchange: nothing is done unless both paths are seen to be exchanged. */
  method LookAndCleanUp(fs: Filesystem, staging: string, target: string, quarantine: string,
                        oldRoot: Root, staged: Root, hadFiles: bool) returns (outcome: Outcome)
    requires staging != target && staging !in fs.inside && target !in fs.inside
    requires staging != quarantine + "/root" && target != quarantine + "/root"
    modifies fs`bindings, fs`contents, fs`inside, fs`log, fs`clearings, fs`hindrances
    ensures outcome.Published? || outcome.RolledBack? || outcome.Stuck? || outcome.Uncleaned? || outcome.PathsChanged?
    ensures old(fs.log) <= fs.log
    ensures fs.clearings == old(fs.clearings)
            || SeenThenCleared(Since(fs, old(fs.log)), staging, target, quarantine, oldRoot, staged, hadFiles, fs.valid)
    ensures outcome.Published? ==> fs.clearings != old(fs.clearings)
    ensures outcome.RolledBack? || outcome.PathsChanged? ==> fs.clearings == old(fs.clearings)
    ensures fs.alone && oldRoot in old(fs.contents) && oldRoot != staged
            && old(Bound(fs, staging, oldRoot)) && old(Bound(fs, target, staged)) ==>
              ReplacedOrKept(fs, target, oldRoot, staged, old(fs.contents), outcome)
    ensures old(fs.hindrances) <= fs.hindrances
    ensures fs.alone && old(Bound(fs, target, staged)) && oldRoot != staged && old(FreeNames(fs, quarantine))
            && old(Bound(fs, staging, oldRoot)) && old(DisposableRoot(fs, oldRoot, hadFiles)) ==>
              && (!outcome.Published? ==> fs.hindrances > old(fs.hindrances))
              && (outcome.Stuck? || (outcome.Uncleaned? && fs.clearings == old(fs.clearings)) ==>
                    fs.hindrances >= old(fs.hindrances) + 2)
  {
    var swapped := BothSeen(fs, staging, oldRoot, target, staged);
    if !swapped {
      return PathsChanged;
    }
    outcome := CleanUp(fs, staging, target, quarantine, oldRoot, staged, hadFiles);
  }

  /** After the exchange: the old tree is validated and removed, or the exchange is taken back. */
  method CleanUp(fs: Filesystem, staging: string, target: string, quarantine: string,
                 oldRoot: Root, staged: Root, hadFiles: bool) returns (outcome: Outcome)
    requires staging != target && staging !in fs.inside && target !in fs.inside
    requires staging != quarantine + "/root" && target != quarantine + "/root"
    modifies fs`bindings, fs`contents, fs`inside, fs`log, fs`clearings, fs`hindrances
    ensures outcome.Published? || outcome.RolledBack? || outcome.Stuck? || outcome.Uncleaned?
    ensures old(fs.log) <= fs.log
    ensures fs.clearings == old(fs.clearings)
            || ExaminedThenCleared(Since(fs, old(fs.log)), staging, quarantine, oldRoot, hadFiles, fs.valid)
    ensures outcome.Published? ==> fs.clearings != old(fs.clearings)
    ensures outcome.RolledBack? ==> fs.clearings == old(fs.clearings)
    ensures fs.alone && oldRoot in old(fs.contents) && oldRoot != staged
            && old(Bound(fs, staging, oldRoot)) && old(Bound(fs, target, staged)) ==>
              ReplacedOrKept(fs, target, oldRoot, staged, old(fs.contents), outcome)
    ensures old(fs.hindrances) <= fs.hindrances
    ensures fs.alone && old(Bound(fs, target, staged)) && oldRoot != staged && old(FreeNames(fs, quarantine))
            && old(Bound(fs, staging, oldRoot)) && old(DisposableRoot(fs, oldRoot, hadFiles)) ==>
              && (!outcome.Published? ==> fs.hindrances > old(fs.hindrances))
              && (outcome.Stuck? || (outcome.Uncleaned? && fs.clearings == old(fs.clearings)) ==>
                    fs.hindrances >= old(fs.hindrances) + 2)
  {
    var disposable := CleanupPlan(fs, oldRoot, hadFiles);
    if !disposable {
      outcome := Rollback(fs, staging, target, oldRoot, staged, Invalid);
      return;
    }
    var removal := RemoveReplacedRoot(fs, staging, quarantine, oldRoot, hadFiles);
    match removal
    case Removed => return Published;
    case Kept(cause, rollbackSafe) =>
      if rollbackSafe {
        outcome := Rollback(fs, staging, target, oldRoot, staged, cause);
      } else {
        return Uncleaned(cause);
      }
  }
}
