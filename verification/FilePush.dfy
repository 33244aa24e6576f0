/** The agent's side of a file push (client/upload.go), on a file system in which
    any call may fail.

    A path is its list of components below the root. A tree maps the paths that
    exist to what is there. A push comes with the faults it meets, so a statement
    about every push is a statement about every combination of faults. The
    functions say what each part of the push leaves behind; the methods of
    UploadManager are the source's, on one file system that they change. */
module FilePush {
  import opened Options

  type Path = seq<string>
  type Bytes = seq<int>

  datatype Node =
    | Folder
    | Regular(content: Bytes, mode: int, owner: string)
    | Special // neither a directory nor a regular file

  type File = n: Node | n.Regular? witness Regular([], 0, "")

  type Tree = map<Path, Node>

  /** filepath.Dir: the root is its own parent. */
  function Parent(p: Path): Path {
    if p == [] then [] else p[..|p| - 1]
  }

  predicate IsRegular(t: Tree, p: Path) {
    p in t && t[p].Regular?
  }

  predicate IsFolder(t: Tree, p: Path) {
    p in t && t[p].Folder?
  }

  /** Something on the way to `p` is not a directory. */
  predicate Blocked(t: Tree, p: Path) {
    exists n :: 0 <= n < |p| && p[..n] in t && !t[p[..n]].Folder?
  }

  /** Everything that is in the first tree is in the second, unchanged. */
  ghost predicate Keeps(t: Tree, t': Tree) {
    forall q :: q in t ==> q in t' && t'[q] == t[q]
  }

  predicate HasChildren(t: Tree, p: Path) {
    exists q :: q in t && q != [] && Parent(q) == p
  }

  /** How writing the staged file fails: it cannot be opened, or the write breaks
      off after so many bytes. */
  datatype WriteFault = Writes | CannotOpen | BreaksOff(after: nat)

  /** How Rename fails. Besides failing without effect: the copy made beside the
      destination when the two are on different file systems cannot be removed
      again; the destination has been replaced but the source cannot be removed;
      or the fallback to mv breaks off, with whatever it got to at the
      destination. */
  datatype RenameFault = Renames | Fails | LeavesCopy(name: string) | KeepsSource | Breaks(got: Option<File>)

  datatype Faults = Faults(
    stageDirStat: bool, stageDirMakes: nat, // how many directories can still be made
    stageStat: bool, stageRemove: bool, write: WriteFault, hash: bool,
    chmod: bool, lookup: bool, current: bool, chown: bool,
    walkStat: Option<nat>,                  // which stat of the walk up fails
    destDirStat: bool, destDirMakes: nat,
    destStat: bool, destMode: bool, destRemove: bool,
    rename: RenameFault,
    removeStaged: bool, removeDir: Option<nat>) // which removal of a directory fails

  datatype Step =
    | PrepareStaging | OpenSource | WriteStaged | HashMismatch
    | ChangeMode | ChangeOwner | PrepareDestination | RemoveOld | MoveFile

  datatype PushResult = Success(size: nat) | Failure(at: Step)

  /** What a part of the push leaves behind, and the step it failed at. */
  datatype Phase = Phase(tree: Tree, ok: bool, at: Step)

  /** models.UploadedFile, as far as the push reads it. */
  datatype Request = Request(base: string, md5: Bytes, dest: Path, mode: nat, owner: string, group: string)

  /** models.MaxPushedFileMode. */
  const MAX_MODE := 0x1FF

  /** files.DefaultMode. */
  const STAGED_MODE := 0x1F4

  // --- The file system calls -----------------------------------------------------------

  /** os.Stat, as Exist reads it. */
  function Exists(t: Tree, p: Path, fails: bool): Option<bool> {
    if fails || Blocked(t, p) then None else Some(p in t)
  }

  datatype RemoveResult = Removed | NotExist | NotEmpty | RemoveFailed

  /** os.Remove: refuses a directory that is not empty. */
  function RemovalOf(t: Tree, p: Path, fails: bool): RemoveResult {
    if fails then RemoveFailed
    else if p !in t then NotExist
    else if t[p].Folder? && HasChildren(t, p) then NotEmpty
    else Removed
  }

  function Without(t: Tree, p: Path, fails: bool): Tree {
    if RemovalOf(t, p, fails) == Removed then t - {p} else t
  }

  /** What os.MkdirAll leaves behind when `makes` directories can still be made:
      it creates downwards from the deepest ancestor that exists. */
  datatype Made = Made(tree: Tree, ok: bool, makes: nat)

  function MadeDirs(t: Tree, p: Path, makes: nat): (r: Made)
    ensures Keeps(t, r.tree)
    decreases |p|
  {
    if p in t then Made(t, t[p].Folder?, makes)
    else
      var above := if p == [] then Made(t, true, makes) else MadeDirs(t, Parent(p), makes);
      if !above.ok || above.makes == 0 then Made(above.tree, false, above.makes)
      else Made(above.tree[p := Folder], true, above.makes - 1)
  }

  /** CreateDirIfNotExists. */
  function EnsuredDir(t: Tree, p: Path, statFails: bool, makes: nat): (r: Made)
    ensures Keeps(t, r.tree)
  {
    match Exists(t, p, statFails)
    case None => Made(t, false, makes)
    case Some(there) => if there then Made(t, true, makes) else MadeDirs(t, p, makes)
  }

  function Cut(content: Bytes, n: nat): Bytes {
    if n < |content| then content[..n] else content
  }

  /** CreateFile. */
  function Written(t: Tree, p: Path, content: Bytes, fault: WriteFault): (r: (Tree, bool))
    ensures r.1 ==> IsRegular(r.0, p) && r.0[p].content == content
  {
    if fault.CannotOpen? || (p in t && t[p].Folder?) || !IsFolder(t, Parent(p)) then (t, false)
    else if fault.BreaksOff? then (t[p := Regular(Cut(content, fault.after), STAGED_MODE, "")], false)
    else (t[p := Regular(content, STAGED_MODE, "")], true)
  }

  /** Rename, with the copy and the mv it falls back to. */
  function RenamedTree(t: Tree, from: Path, to: Path, fault: RenameFault): (Tree, bool)
    requires from in t
  {
    if IsFolder(t, to) || !IsFolder(t, Parent(to)) then (t, false)
    else
      match fault
      case Renames => ((t - {from})[to := t[from]], true)
      case Fails => (t, false)
      case LeavesCopy(name) =>
        var copy := Parent(to) + [name];
        (if copy in t || copy == to then t else t[copy := t[from]], false)
      case KeepsSource => (t[to := t[from]], false)
      case Breaks(got) => (if got.Some? then t[to := got.value] else t - {to}, false)
  }

  // --- The parts of the push ---------------------------------------------------------------

  /** The walk up from a directory to the first ancestor that exists: what is
      missing, deepest first. */
  function Missing(t: Tree, dir: Path, n: nat, statAt: Option<nat>): Option<seq<Path>>
    decreases |dir|
  {
    match Exists(t, dir, statAt == Some(n))
    case None => None
    case Some(there) =>
      if there then Some([])
      else if dir == [] then Some([dir])
      else
        match Missing(t, Parent(dir), n + 1, statAt)
        case None => None
        case Some(above) => Some([dir] + above)
  }

  /** What a walk that has found some directories missing comes to. */
  ghost function Continued(found: seq<Path>, above: Option<seq<Path>>): Option<seq<Path>> {
    if above.None? then None else Some(found + above.value)
  }

  lemma WalkStep(t: Tree, dir: Path, found: seq<Path>, statAt: Option<nat>)
    ensures
      var walk := Continued(found, Missing(t, dir, |found|, statAt));
      match Exists(t, dir, statAt == Some(|found|))
      case None => walk == None
      case Some(there) =>
        if there then walk == Some(found)
        else if dir == [] then walk == Some(found + [dir])
        else walk == Continued(found + [dir], Missing(t, Parent(dir), |found| + 1, statAt))
  {
    hide Exists;
    assert found + [] == found;
    var above := Missing(t, Parent(dir), |found| + 1, statAt);
    if above.Some? {
      assert found + ([dir] + above.value) == (found + [dir]) + above.value;
    }
  }

  /** removeCreatedDirs, from the i-th directory on. */
  function DirsRemoved(t: Tree, dirs: seq<Path>, i: nat, failAt: Option<nat>): Tree
    requires i <= |dirs|
    decreases |dirs| - i
  {
    if i == |dirs| then t
    else if RemovalOf(t, dirs[i], failAt == Some(i)) in {RemoveFailed, NotEmpty} then t
    else DirsRemoved(Without(t, dirs[i], failAt == Some(i)), dirs, i + 1, failAt)
  }

  datatype Prepared = Prepared(tree: Tree, ok: bool, created: seq<Path>)

  /** prepareDestinationDir. */
  function DestinationDir(t: Tree, dest: Path, f: Faults): (r: Prepared)
    ensures r.ok ==> Keeps(t, r.tree)
  {
    match Missing(t, Parent(dest), 0, f.walkStat)
    case None => Prepared(t, false, [])
    case Some(missing) =>
      if missing == [] then Prepared(t, true, [])
      else
        var made := EnsuredDir(t, Parent(dest), f.destDirStat, f.destDirMakes);
        if made.ok then Prepared(made.tree, true, missing)
        else Prepared(DirsRemoved(made.tree, missing, 0, f.removeDir), false, [])
  }

  /** moveFileToDestination once the directory is there. */
  function Replaced(t: Tree, temp: Path, dest: Path, f: Faults): Phase
    requires IsRegular(t, temp)
  {
    match Exists(t, dest, f.destStat)
    case None => Phase(t, false, PrepareDestination)
    case Some(there) =>
      if there && f.destMode then Phase(t, false, PrepareDestination)
      else if there && !t[dest].Regular? && RemovalOf(t, dest, f.destRemove) != Removed then Phase(t, false, RemoveOld)
      else
        var cleared := if there && !t[dest].Regular? then t - {dest} else t;
        var moved := RenamedTree(cleared, temp, dest, f.rename);
        Phase(moved.0, moved.1, MoveFile)
  }

  /** moveFileToDestination. */
  function Moved(t: Tree, temp: Path, dest: Path, f: Faults): Phase
    requires IsRegular(t, temp)
  {
    var ready := DestinationDir(t, dest, f);
    if !ready.ok then Phase(ready.tree, false, PrepareDestination)
    else
      var done := Replaced(ready.tree, temp, dest, f);
      if done.ok then done else done.(tree := DirsRemoved(done.tree, ready.created, 0, f.removeDir))
  }

  /** copyFileToTempLocation. `source` is what the server's file holds, absent
      when it cannot be opened. */
  function Staged(uploadDir: Path, md5: Bytes -> Bytes, t: Tree, req: Request, source: Option<Bytes>, f: Faults): (r: Phase)
    ensures r.ok ==> source.Some? && IsRegular(r.tree, uploadDir + [req.base])
  {
    var temp := uploadDir + [req.base];
    var dir := EnsuredDir(t, uploadDir, f.stageDirStat, f.stageDirMakes);
    if !dir.ok then Phase(dir.tree, false, PrepareStaging)
    else
      match Exists(dir.tree, temp, f.stageStat)
      case None => Phase(dir.tree, false, PrepareStaging)
      case Some(there) =>
        if there && RemovalOf(dir.tree, temp, f.stageRemove) != Removed then Phase(dir.tree, false, PrepareStaging)
        else
          var cleared := if there then dir.tree - {temp} else dir.tree;
          if source.None? then Phase(cleared, false, OpenSource)
          else
            var written := Written(cleared, temp, source.value, f.write);
            if !written.1 then Phase(Without(written.0, temp, f.removeStaged), false, WriteStaged)
            else if f.hash || md5(source.value) != req.md5
            then Phase(Without(written.0, temp, f.removeStaged), false, HashMismatch)
            else Phase(written.0, true, WriteStaged)
  }

  /** chmodFile and chownFile. */
  function Attributed(t: Tree, temp: Path, req: Request, f: Faults): (r: Phase)
    requires IsRegular(t, temp)
    ensures IsRegular(r.tree, temp)
  {
    if req.mode > MAX_MODE || (req.mode != 0 && f.chmod) then Phase(t, false, ChangeMode)
    else
      var t1 := if req.mode == 0 then t else t[temp := t[temp].(mode := req.mode)];
      if req.owner == "" && req.group == "" then Phase(t1, true, ChangeOwner)
      else if f.lookup then Phase(t1, false, ChangeOwner)
      else if f.current then Phase(t1, true, ChangeOwner)
      else if f.chown then Phase(t1, false, ChangeOwner)
      else Phase(t1[temp := t1[temp].(owner := req.owner + ":" + req.group)], true, ChangeOwner)
  }

  /** handleWritingFile: what a push answers and what it leaves behind. */
  function Pushed(uploadDir: Path, md5: Bytes -> Bytes, t: Tree, req: Request, source: Option<Bytes>, f: Faults)
    : (PushResult, Tree)
  {
    var temp := uploadDir + [req.base];
    var staged := Staged(uploadDir, md5, t, req, source, f);
    if !staged.ok then (Failure(staged.at), staged.tree)
    else
      var set_ := Attributed(staged.tree, temp, req, f);
      if !set_.ok then (Failure(set_.at), Without(set_.tree, temp, f.removeStaged))
      else
        var moved := Moved(set_.tree, temp, req.dest, f);
        if !moved.ok then (Failure(moved.at), Without(moved.tree, temp, f.removeStaged))
        else (Success(|source.value|), moved.tree)
  }

  // --- The agent ----------------------------------------------------------------------------

  class UploadManager {
    /** The file system. */
    var tree: Tree
    const uploadDir: Path
    const md5: Bytes -> Bytes

    constructor (tree: Tree, uploadDir: Path, md5: Bytes -> Bytes)
      ensures this.tree == tree && this.uploadDir == uploadDir && this.md5 == md5
    {
      this.tree, this.uploadDir, this.md5 := tree, uploadDir, md5;
    }

    method Remove(p: Path, fails: bool) returns (r: RemoveResult)
      modifies this
      ensures r == RemovalOf(old(tree), p, fails) && tree == Without(old(tree), p, fails)
    {
      r := RemovalOf(tree, p, fails);
      if r == Removed {
        tree := tree - {p};
      }
    }

    method MkdirAll(p: Path, makes: nat) returns (ok: bool, left: nat)
      modifies this
      ensures var made := MadeDirs(old(tree), p, makes); tree == made.tree && ok == made.ok && left == made.makes
      decreases |p|
    {
      if p in tree {
        return tree[p].Folder?, makes;
      }
      ok, left := true, makes;
      if p != [] {
        ok, left := MkdirAll(Parent(p), makes);
      }
      if !ok || left == 0 {
        return false, left;
      }
      tree := tree[p := Folder];
      return true, left - 1;
    }

    method CreateDirIfNotExists(p: Path, statFails: bool, makes: nat) returns (ok: bool)
      modifies this
      ensures var made := EnsuredDir(old(tree), p, statFails, makes); tree == made.tree && ok == made.ok
    {
      var there := Exists(tree, p, statFails);
      if there.None? {
        return false;
      }
      if there.value {
        return true;
      }
      var left;
      ok, left := MkdirAll(p, makes);
    }

    method CreateFile(p: Path, content: Bytes, fault: WriteFault) returns (ok: bool)
      modifies this
      ensures tree == Written(old(tree), p, content, fault).0 && ok == Written(old(tree), p, content, fault).1
    {
      if fault.CannotOpen? || (p in tree && tree[p].Folder?) || !IsFolder(tree, Parent(p)) {
        return false;
      }
      if fault.BreaksOff? {
        tree := tree[p := Regular(Cut(content, fault.after), STAGED_MODE, "")];
        return false;
      }
      tree := tree[p := Regular(content, STAGED_MODE, "")];
      return true;
    }

    method Rename(from: Path, to: Path, fault: RenameFault) returns (ok: bool)
      requires from in tree
      modifies this
      ensures tree == RenamedTree(old(tree), from, to, fault).0 && ok == RenamedTree(old(tree), from, to, fault).1
    {
      if IsFolder(tree, to) || !IsFolder(tree, Parent(to)) {
        return false;
      }
      match fault
      case Renames =>
        tree := (tree - {from})[to := tree[from]];
        return true;
      case Fails =>
        return false;
      case LeavesCopy(name) =>
        var copy := Parent(to) + [name];
        if copy !in tree && copy != to {
          tree := tree[copy := tree[from]];
        }
        return false;
      case KeepsSource =>
        tree := tree[to := tree[from]];
        return false;
      case Breaks(got) =>
        tree := if got.Some? then tree[to := got.value] else tree - {to};
        return false;
    }

    method RemoveStagedFile(temp: Path, fails: bool)
      modifies this
      ensures tree == Without(old(tree), temp, fails)
    {
      var _ := Remove(temp, fails);
    }

    method RemoveCreatedDirs(created: seq<Path>, failAt: Option<nat>)
      modifies this
      ensures tree == DirsRemoved(old(tree), created, 0, failAt)
    {
      for i := 0 to |created|
        invariant DirsRemoved(tree, created, i, failAt) == DirsRemoved(old(tree), created, 0, failAt)
      {
        var r := Remove(created[i], failAt == Some(i));
        if r in {RemoveFailed, NotEmpty} {
          return;
        }
      }
    }

    method MissingDirs(destDir: Path, statAt: Option<nat>) returns (missing: Option<seq<Path>>)
      ensures missing == Missing(tree, destDir, 0, statAt)
    {
      hide Missing;
      var found := [];
      var dir := destDir;
      ghost var all := Missing(tree, destDir, 0, statAt);
      assert all.Some? ==> [] + all.value == all.value;
      while true
        invariant Continued(found, Missing(tree, dir, |found|, statAt)) == all
        decreases |dir|
      {
        WalkStep(tree, dir, found, statAt);
        var there := Exists(tree, dir, statAt == Some(|found|));
        if there.None? {
          return None;
        }
        if there.value {
          break;
        }
        found := found + [dir];
        if Parent(dir) == dir {
          break;
        }
        dir := Parent(dir);
      }
      return Some(found);
    }

    method PrepareDestinationDir(dest: Path, f: Faults) returns (ok: bool, created: seq<Path>)
      modifies this
      ensures var d := DestinationDir(old(tree), dest, f); tree == d.tree && ok == d.ok && created == d.created
    {
      var missing := MissingDirs(Parent(dest), f.walkStat);
      if missing.None? {
        return false, [];
      }
      if |missing.value| == 0 {
        return true, [];
      }
      ok := CreateDirIfNotExists(Parent(dest), f.destDirStat, f.destDirMakes);
      if !ok {
        RemoveCreatedDirs(missing.value, f.removeDir);
        return false, [];
      }
      return true, missing.value;
    }

    /** moveFileToDestination up to its deferred cleanup. */
    method ReplaceDestination(temp: Path, dest: Path, f: Faults) returns (ok: bool, at: Step)
      requires IsRegular(tree, temp)
      modifies this
      ensures var r := Replaced(old(tree), temp, dest, f); tree == r.tree && ok == r.ok && (!ok ==> at == r.at)
    {
      var there := Exists(tree, dest, f.destStat);
      if there.None? {
        return false, PrepareDestination;
      }
      if there.value {
        if f.destMode {
          return false, PrepareDestination;
        }
        if !tree[dest].Regular? {
          var r := Remove(dest, f.destRemove);
          if r != Removed {
            return false, RemoveOld;
          }
        }
      }
      ok := Rename(temp, dest, f.rename);
      at := MoveFile;
    }

    method MoveFileToDestination(temp: Path, dest: Path, f: Faults) returns (ok: bool, at: Step)
      requires IsRegular(tree, temp)
      modifies this
      ensures var m := Moved(old(tree), temp, dest, f); tree == m.tree && ok == m.ok && (!ok ==> at == m.at)
    {
      var created;
      ok, created := PrepareDestinationDir(dest, f);
      if !ok {
        return false, PrepareDestination;
      }
      ok, at := ReplaceDestination(temp, dest, f);
      if !ok {
        RemoveCreatedDirs(created, f.removeDir);
      }
    }

    method CopyFileToTempLocation(req: Request, source: Option<Bytes>, f: Faults)
      returns (ok: bool, copied: nat, temp: Path, at: Step)
      modifies this
      ensures temp == uploadDir + [req.base] && (ok ==> source.Some? && copied == |source.value|)
      ensures var s := Staged(uploadDir, md5, old(tree), req, source, f); tree == s.tree && ok == s.ok && (!ok ==> at == s.at)
    {
      hide EnsuredDir, Written, Exists, RemovalOf;
      temp, copied := uploadDir + [req.base], 0;
      ok := CreateDirIfNotExists(uploadDir, f.stageDirStat, f.stageDirMakes);
      if !ok {
        return false, 0, temp, PrepareStaging;
      }
      var there := Exists(tree, temp, f.stageStat);
      if there.None? {
        return false, 0, temp, PrepareStaging;
      }
      if there.value {
        var r := Remove(temp, f.stageRemove);
        if r != Removed {
          return false, 0, temp, PrepareStaging;
        }
      }
      if source.None? {
        return false, 0, temp, OpenSource;
      }
      ok := CreateFile(temp, source.value, f.write);
      if !ok {
        RemoveStagedFile(temp, f.removeStaged);
        return false, 0, temp, WriteStaged;
      }
      if f.hash || md5(tree[temp].content) != req.md5 {
        RemoveStagedFile(temp, f.removeStaged);
        return false, 0, temp, HashMismatch;
      }
      return true, |source.value|, temp, WriteStaged;
    }

    method ChmodFile(p: Path, mode: nat, fails: bool) returns (ok: bool)
      requires IsRegular(tree, p)
      modifies this
      ensures ok <==> mode == 0 || (mode <= MAX_MODE && !fails)
      ensures tree == if ok && mode != 0 then old(tree)[p := old(tree)[p].(mode := mode)] else old(tree)
    {
      if mode == 0 {
        return true;
      }
      if mode > MAX_MODE || fails {
        return false;
      }
      tree := tree[p := tree[p].(mode := mode)];
      return true;
    }

    /** Looking up the current user may show that there is nothing to change. */
    method ChownFile(p: Path, owner: string, group: string, f: Faults) returns (ok: bool)
      requires IsRegular(tree, p)
      modifies this
      ensures ok <==> (owner == "" && group == "") || (!f.lookup && (f.current || !f.chown))
      ensures tree == if ok && !(owner == "" && group == "") && !f.current
                      then old(tree)[p := old(tree)[p].(owner := owner + ":" + group)] else old(tree)
    {
      if owner == "" && group == "" {
        return true;
      }
      if f.lookup {
        return false;
      }
      if f.current {
        return true;
      }
      if f.chown {
        return false;
      }
      tree := tree[p := tree[p].(owner := owner + ":" + group)];
      return true;
    }

    /** Mode and owner of the staged file: chmodFile, then chownFile. */
    method SetAttributes(temp: Path, req: Request, f: Faults) returns (ok: bool, at: Step)
      requires IsRegular(tree, temp)
      modifies this
      ensures var a := Attributed(old(tree), temp, req, f); tree == a.tree && ok == a.ok && (!ok ==> at == a.at)
    {
      at := ChangeMode;
      ok := ChmodFile(temp, req.mode, f.chmod);
      if !ok {
        return;
      }
      at := ChangeOwner;
      ok := ChownFile(temp, req.owner, req.group, f);
    }

    method HandleWritingFile(req: Request, source: Option<Bytes>, f: Faults) returns (r: PushResult)
      modifies this
      ensures r == Pushed(uploadDir, md5, old(tree), req, source, f).0
      ensures tree == Pushed(uploadDir, md5, old(tree), req, source, f).1
    {
      hide Staged, Moved, Without, Attributed;
      var ok, copied, temp, at := CopyFileToTempLocation(req, source, f);
      if !ok {
        return Failure(at);
      }
      ok, at := SetAttributes(temp, req, f);
      if !ok {
        RemoveStagedFile(temp, f.removeStaged);
        return Failure(at);
      }
      ok, at := MoveFileToDestination(temp, req.dest, f);
      if !ok {
        RemoveStagedFile(temp, f.removeStaged);
        return Failure(at);
      }
      return Success(copied);
    }
  }
}
