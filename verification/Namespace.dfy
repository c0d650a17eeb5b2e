/**
  Directories as the publisher sees them: paths bound to roots, roots holding files.  Every operation
  may fail; a failed exchange or rename has done nothing, a failed clearing may have removed some files.
*/
module Namespace {
  import opened Wire

  /** The identity of a directory or file, which a rename keeps. */
  type Root = nat

  type Tree = map<string, Bytes>

  datatype Stat = Found(root: Root) | NotExist | StatFailed

  /** What was done and seen through the operations below, at the moment it was done or seen. */
  datatype Event =
    | Seen(path: string, root: Root)
    | Opened(path: string, root: Root)
    | Examined(root: Root, files: Tree)
    | Exchanged(first: string, second: string, firstRoot: Root, secondRoot: Root)
    | Moved(from: string, to: string, root: Root)
    | Cleared(path: string, root: Root, files: Tree)

  /** What is found at a path, down to the files. */
  function At(bindings: map<string, Root>, contents: map<Root, Tree>, path: string): Option<(Root, Option<Tree>)> {
    if path !in bindings then None
    else Some((bindings[path], if bindings[path] in contents then Some(contents[bindings[path]]) else None))
  }

  /** Before every operation others may act, and change all that is not inside a private directory. */
  class Filesystem {
    var bindings: map<string, Root>
    var contents: map<Root, Tree>
    var inside: set<string>       // paths inside private directories, which nobody else reaches
    ghost var log: seq<Event>
    ghost var clearings: nat      // how often files were removed
    ghost var hindrances: nat     // how often something failed, or was refused, for reasons outside the namespace
    const alone: bool
    const valid: Tree -> bool

    /** `alone` says that nobody else changes the namespace; `valid` is the check that files are a dump. */
    constructor (bindings: map<string, Root>, contents: map<Root, Tree>, alone: bool, valid: Tree -> bool)
      ensures this.bindings == bindings && this.contents == contents && inside == {}
      ensures log == [] && clearings == 0 && hindrances == 0
      ensures this.alone == alone && this.valid == valid
    {
      this.bindings, this.contents, inside, log, this.alone, this.valid := bindings, contents, {}, [], alone, valid;
      clearings, hindrances := 0, 0;
    }

    /** All that an operation leaves alone that changes nothing itself. */
    twostate predicate Undisturbed()
      reads this
    {
      && inside == old(inside)
      && (alone ==> bindings == old(bindings) && contents == old(contents))
      && (forall p :: p in inside ==> At(bindings, contents, p) == At(old(bindings), old(contents), p))
    }

    method OthersAct()
      modifies this`bindings, this`contents
      ensures Undisturbed()
    {
      var newBindings: map<string, Root>, newContents: map<Root, Tree> := *, *;
      if !alone && forall p :: p in inside ==> At(newBindings, newContents, p) == At(bindings, contents, p) {
        bindings, contents := newBindings, newContents;
      }
    }

    method Lstat(path: string) returns (stat: Stat)
      modifies this`bindings, this`contents, this`log, this`hindrances
      ensures Undisturbed()
      ensures match stat
              case Found(root) => path in bindings && bindings[path] == root && log == old(log) + [Seen(path, root)]
              case NotExist => path !in bindings && log == old(log)
              case StatFailed => log == old(log)
      ensures hindrances == old(hindrances) + if stat.StatFailed? then 1 else 0
    {
      OthersAct();
      var failed: bool := *;
      if failed {
        hindrances := hindrances + 1;
        return StatFailed;
      }
      if path !in bindings {
        return NotExist;
      }
      log := log + [Seen(path, bindings[path])];
      return Found(bindings[path]);
    }

    /** Opening a directory: the identity that every later use of the handle has. */
    method OpenRoot(path: string) returns (root: Option<Root>)
      modifies this`bindings, this`contents, this`log, this`hindrances
      ensures Undisturbed()
      ensures root.Some? ==> path in bindings && bindings[path] == root.value && root.value in contents
      ensures log == old(log) + if root.Some? then [Opened(path, root.value)] else []
      ensures hindrances ==
              old(hindrances) + if root.None? && path in bindings && bindings[path] in contents then 1 else 0
    {
      OthersAct();
      var failed: bool := *;
      if path !in bindings || bindings[path] !in contents {
        return None;
      }
      if failed {
        hindrances := hindrances + 1;
        return None;
      }
      log := log + [Opened(path, bindings[path])];
      return Some(bindings[path]);
    }

    /** Walking an open directory: whether it holds files. */
    method InspectTree(root: Root) returns (hasFiles: Option<bool>)
      modifies this`bindings, this`contents, this`log, this`hindrances
      ensures Undisturbed()
      ensures hasFiles.Some? ==> root in contents && hasFiles.value == (contents[root] != map[])
      ensures log == old(log) + if hasFiles.Some? then [Examined(root, contents[root])] else []
      ensures hindrances == old(hindrances) + if hasFiles.Some? then 0 else 1
    {
      OthersAct();
      var failed: bool := *;
      if failed || root !in contents {
        hindrances := hindrances + 1;
        return None;
      }
      log := log + [Examined(root, contents[root])];
      return Some(contents[root] != map[]);
    }

    /** Full validation of an open directory as a dump. */
    method ValidateDump(root: Root) returns (ok: bool)
      modifies this`bindings, this`contents, this`log, this`hindrances
      ensures Undisturbed()
      ensures ok ==> root in contents && valid(contents[root])
      ensures log == old(log) + if ok then [Examined(root, contents[root])] else []
      ensures hindrances == old(hindrances) + if !ok && root in contents && valid(contents[root]) then 1 else 0
    {
      OthersAct();
      ok := *;
      if root !in contents || !valid(contents[root]) {
        ok := false;
      } else if !ok {
        hindrances := hindrances + 1;
      }
      if ok {
        log := log + [Examined(root, contents[root])];
      }
    }

    /** Checks of ownership, permissions and inode flags, which are not modelled further. */
    method CleanupAllowed() returns (ok: bool)
      modifies this`bindings, this`contents, this`hindrances
      ensures Undisturbed()
      ensures hindrances == old(hindrances) + if ok then 0 else 1
    {
      OthersAct();
      ok := *;
      if !ok {
        hindrances := hindrances + 1;
      }
    }

    /** Swaps what two paths are bound to, atomically. */
    method Exchange(first: string, second: string) returns (supported: bool, failed: bool)
      requires first !in inside && second !in inside
      modifies this`bindings, this`contents, this`log, this`hindrances
      ensures if supported && !failed
              then first in bindings && second in bindings
                   && log == old(log) + [Exchanged(first, second, bindings[second], bindings[first])]
              else Undisturbed() && log == old(log)
      ensures supported && !failed && alone ==>
                && first in old(bindings) && second in old(bindings) && contents == old(contents)
                && bindings == old(bindings)[first := old(bindings)[second]][second := old(bindings)[first]]
      ensures hindrances == old(hindrances) + if supported && !failed then 0 else 1
    {
      OthersAct();
      supported, failed := *, *;
      if first !in bindings || second !in bindings {
        failed := true;
      }
      if supported && !failed {
        bindings := bindings[first := bindings[second]][second := bindings[first]];
        log := log + [Exchanged(first, second, bindings[second], bindings[first])];
      } else {
        hindrances := hindrances + 1;
      }
    }

    /** Moves a binding to a free path. */
    method RenameNoReplace(from: string, to: string) returns (ok: bool)
      modifies this`bindings, this`contents, this`log, this`hindrances
      ensures inside == old(inside)
      ensures if ok
              then to in bindings && log == old(log) + [Moved(from, to, bindings[to])]
              else Undisturbed() && log == old(log)
      ensures ok && alone ==>
                && from in old(bindings) && to !in old(bindings) && contents == old(contents)
                && bindings == (old(bindings) - {from})[to := old(bindings)[from]]
      ensures ok && from in inside ==> from in old(bindings) && bindings[to] == old(bindings)[from]
      ensures hindrances == old(hindrances) + if !ok && from in bindings && to !in bindings then 1 else 0
    {
      OthersAct();
      ok := *;
      if from !in bindings || to in bindings {
        ok := false;
      } else if !ok {
        hindrances := hindrances + 1;
      }
      if ok {
        bindings := (bindings - {from})[to := bindings[from]];
        log := log + [Moved(from, to, bindings[to])];
      }
    }

    /** A new private directory under a name of its own, or nothing. */
    method MakeTemp(name: string) returns (path: Option<string>)
      modifies this`bindings, this`contents, this`inside, this`hindrances
      ensures path.None? ==> Undisturbed()
      ensures path.Some? ==>
                && path.value == name && name in bindings && name + "/root" !in bindings
                && inside == old(inside) + {name + "/root"}
      ensures path.Some? && alone ==>
                && name !in old(bindings) && name + "/root" !in old(bindings)
                && bindings == old(bindings)[name := bindings[name]]
                && bindings[name] !in old(contents) && bindings[name] !in old(bindings).Values
                && contents == old(contents)[bindings[name] := map[]]
      ensures path.Some? ==> hindrances == old(hindrances)
      ensures path.None? ==>
                hindrances == old(hindrances) + if name in bindings || name + "/root" in bindings then 0 else 1
    {
      OthersAct();
      var failed: bool := *;
      if name in bindings || name + "/root" in bindings {
        return None;
      }
      if failed {
        hindrances := hindrances + 1;
        return None;
      }
      var root := FreshRoot(contents.Keys + bindings.Values);
      bindings := bindings[name := root];
      contents := contents[root := map[]];
      inside := inside + {name + "/root"};
      return Some(name);
    }

    /** Removes the files of an open directory, all or some of them.  The directory is a private one: what is
        removed is what was there. */
    method ClearRoot(root: Root, path: string) returns (ok: bool)
      requires path in inside && path in bindings && bindings[path] == root && root in contents
      modifies this`bindings, this`contents, this`log, this`clearings, this`hindrances
      ensures root in contents && contents[root].Items <= old(contents)[root].Items
      ensures alone ==> bindings == old(bindings) && contents == old(contents)[root := contents[root]]
      ensures ok ==> contents[root] == map[]
      ensures hindrances == old(hindrances) + if ok then 0 else 1
      ensures log == old(log) + [Cleared(path, root, old(contents)[root])] && clearings == old(clearings) + 1
    {
      OthersAct();
      assert At(bindings, contents, path) == At(old(bindings), old(contents), path);
      log, clearings := log + [Cleared(path, root, contents[root])], clearings + 1;
      ok := *;
      if ok {
        contents := contents[root := map[]];
      } else {
        hindrances := hindrances + 1;
        var gone: set<string> := *;
        var rest := contents[root] - gone;
        assert rest.Items <= contents[root].Items;
        contents := contents[root := rest];
      }
    }
  }

  /** A root not in use. */
  method FreshRoot(used: set<Root>) returns (root: Root)
    ensures root !in used
  {
    root := 0;
    var rest := used;
    while rest != {}
      invariant rest <= used
      invariant forall r: Root :: r in used && r !in rest ==> r < root
      decreases |rest|
    {
      var r :| r in rest;
      rest := rest - {r};
      if r >= root {
        root := r + 1;
      }
    }
  }
}
