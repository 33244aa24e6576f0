/** What every push promises, whatever faults it meets: the push as a transaction
    on the agent's file system, and exactly where it is none. */
module PushTransaction {
  import opened Options
  import opened FilePush

  /** Every path that exists is in a directory that exists. */
  ghost predicate ClosedUpward(t: Tree) {
    forall q :: q in t ==> Parent(q) in t && (q != [] ==> t[Parent(q)] == Folder)
  }

  ghost predicate Rooted(t: Tree) {
    IsFolder(t, []) && ClosedUpward(t)
  }

  lemma {:induction false} AncestorsAreFolders(t: Tree, p: Path, n: nat)
    requires ClosedUpward(t) && p in t && n < |p|
    ensures IsFolder(t, p[..n])
    decreases |p|
  {
    assert Parent(p) == p[..|p| - 1];
    if n < |p| - 1 {
      AncestorsAreFolders(t, Parent(p), n);
      assert p[..n] == Parent(p)[..n];
    }
  }

  lemma NotBlocked(t: Tree, p: Path)
    requires ClosedUpward(t) && p in t
    ensures !Blocked(t, p)
  {
    forall n | 0 <= n < |p| ensures IsFolder(t, p[..n]) {
      AncestorsAreFolders(t, p, n);
    }
  }

  // --- Directories that are made and removed again -----------------------------------------

  /** `q` is on the way to `p`, and nothing from `q` to `p` exists in `t`. */
  ghost predicate MissingTo(t: Tree, q: Path, p: Path) {
    q <= p && forall n :: |q| <= n <= |p| ==> p[..n] !in t
  }

  /** Nothing was added but folders on the way to `p`, each of them below every
      path on that way that was there before. */
  ghost predicate Grows(t: Tree, t': Tree, p: Path) {
    Keeps(t, t') && forall q :: q in t' && q !in t ==> t'[q] == Folder && MissingTo(t, q, p)
  }

  lemma GrowsTowards(t: Tree, t': Tree, p: Path)
    requires p != [] && p !in t && Grows(t, t', Parent(p))
    ensures Grows(t, t', p)
  {
    forall q | q in t' && q !in t ensures t'[q] == Folder && MissingTo(t, q, p) {
      assert MissingTo(t, q, Parent(p));
      forall n | |q| <= n <= |p| ensures p[..n] !in t {
        if n < |p| {
          assert p[..n] == Parent(p)[..n];
        } else {
          assert p[..n] == p;
        }
      }
    }
  }

  lemma {:induction false} MadeDirsGrow(t: Tree, p: Path, makes: nat)
    ensures
      var made := MadeDirs(t, p, makes);
      && Grows(t, made.tree, p) && (made.ok ==> IsFolder(made.tree, p))
      && (ClosedUpward(t) ==> ClosedUpward(made.tree))
    decreases |p|
  {
    if p !in t {
      assert p[..|p|] == p;
      if p != [] {
        MadeDirsGrow(t, Parent(p), makes);
        GrowsTowards(t, MadeDirs(t, Parent(p), makes).tree, p);
      }
    }
  }

  lemma EnsuredDirGrows(t: Tree, p: Path, statFails: bool, makes: nat)
    ensures
      var made := EnsuredDir(t, p, statFails, makes);
      && Grows(t, made.tree, p) && (made.ok ==> p in made.tree)
      && (ClosedUpward(t) ==> ClosedUpward(made.tree))
  {
    MadeDirsGrow(t, p, makes);
  }

  /** `missing` lists `p` and its ancestors up to the first that exists in `t`. */
  ghost predicate AllMissing(t: Tree, p: Path, missing: seq<Path>) {
    && |missing| <= |p| + 1
    && (forall k :: 0 <= k < |missing| ==> missing[k] == p[..|p| - k] && missing[k] !in t)
    && (|missing| <= |p| ==> p[..|p| - |missing|] in t)
  }

  /** The walk up finds exactly the missing ancestors, deepest first. */
  lemma {:induction false} MissingMeans(t: Tree, p: Path, n: nat, statAt: Option<nat>)
    requires Missing(t, p, n, statAt).Some?
    ensures AllMissing(t, p, Missing(t, p, n, statAt).value)
    decreases |p|
  {
    assert p[..|p|] == p;
    if p !in t && p != [] {
      MissingMeans(t, Parent(p), n + 1, statAt);
      OneMoreMissing(t, p, Missing(t, Parent(p), n + 1, statAt).value);
    }
  }

  lemma OneMoreMissing(t: Tree, p: Path, above: seq<Path>)
    requires p != [] && p !in t && AllMissing(t, Parent(p), above)
    ensures AllMissing(t, p, [p] + above)
  {
    var missing := [p] + above;
    forall k | 0 <= k < |missing| ensures missing[k] == p[..|p| - k] && missing[k] !in t {
      if k > 0 {
        assert missing[k] == above[k - 1] == Parent(p)[..|p| - k] == p[..|p| - k];
      }
    }
    if |missing| <= |p| {
      assert p[..|p| - |missing|] == Parent(p)[..|Parent(p)| - |above|];
    }
  }

  /** From the i-th directory on, the only thing inside a listed directory is the
      one listed before it. */
  ghost predicate Nested(t: Tree, dirs: seq<Path>, i: nat) {
    forall j, q :: i <= j < |dirs| && q in t && q != [] && Parent(q) == dirs[j] ==> j > i && q == dirs[j - 1]
  }

  lemma OnlyMissingAreNew(t: Tree, t': Tree, p: Path, missing: seq<Path>)
    requires ClosedUpward(t) && AllMissing(t, p, missing) && Grows(t, t', p)
    ensures forall q :: q in t' && q !in t ==> q in missing
    ensures Nested(t', missing, 0)
  {
    forall q | q in t' && q !in t ensures q in missing {
      assert MissingTo(t, q, p);
      assert q == p[..|q|];
      var k := |p| - |q|;
      assert k < |missing|;
      assert missing[k] == q;
    }
    forall i, q | 0 <= i < |missing| && q in t' && q != [] && Parent(q) == missing[i]
      ensures i > 0 && q == missing[i - 1]
    {
      assert q !in t;
      var j :| 0 <= j < |missing| && missing[j] == q;
      assert |q| == |p| - j && |Parent(q)| == |p| - i;
    }
  }

  /** Removing listed directories takes away nothing else; with nothing in them
      but each other and no failing removal, all of them go. */
  lemma {:induction false} DirsRemovedEffect(t: Tree, dirs: seq<Path>, i: nat, failAt: Option<nat>)
    requires i <= |dirs|
    ensures
      var t' := DirsRemoved(t, dirs, i, failAt);
      && Keeps(t', t) && (forall q :: q in t && q !in dirs ==> q in t')
      && (failAt.None? && Nested(t, dirs, i) ==> forall k :: i <= k < |dirs| ==> dirs[k] !in t')
    decreases |dirs| - i
  {
    if i < |dirs| {
      var fails := failAt == Some(i);
      var t1 := Without(t, dirs[i], fails);
      DirsRemovedEffect(t1, dirs, i + 1, failAt);
      if failAt.None? && Nested(t, dirs, i) {
        assert !HasChildren(t, dirs[i]);
        assert dirs[i] !in t1;
        forall j, q | i + 1 <= j < |dirs| && q in t1 && q != [] && Parent(q) == dirs[j]
          ensures j > i + 1 && q == dirs[j - 1]
        {
          assert q in t;
        }
      }
    }
  }

  /** What making the missing directories adds, and what undoing it leaves. */
  lemma MadeAndUndone(t: Tree, p: Path, missing: seq<Path>, t': Tree, failAt: Option<nat>)
    requires ClosedUpward(t) && AllMissing(t, p, missing) && Grows(t, t', p)
    ensures forall q :: q in missing ==> q !in t && q <= p
    ensures forall q :: q in t' && q !in t ==> q in missing && t'[q] == Folder
    ensures Nested(t', missing, 0)
    ensures
      var undone := DirsRemoved(t', missing, 0, failAt);
      && Keeps(t, undone) && (forall q :: q in undone && q !in t ==> q in missing && undone[q] == Folder)
      && (failAt.None? ==> undone == t)
  {
    OnlyMissingAreNew(t, t', p, missing);
    DirsRemovedEffect(t', missing, 0, failAt);
    forall q | q in missing ensures q !in t && q <= p {
      var k :| 0 <= k < |missing| && missing[k] == q;
    }
  }

  /** prepareDestinationDir: what was there stays; what is new is reported, or is
      taken back when it fails. */
  lemma DestinationDirEffect(t: Tree, dest: Path, f: Faults)
    requires Rooted(t)
    ensures
      var d := DestinationDir(t, dest, f);
      && Keeps(t, d.tree)
      && (forall q :: q in d.created ==> q !in t && q <= Parent(dest))
      && (d.ok ==> ClosedUpward(d.tree) && Nested(d.tree, d.created, 0)
                   && forall q :: q in d.tree && q !in t ==> q in d.created)
      && (!d.ok && f.removeDir.None? ==> d.tree == t)
  {
    hide ClosedUpward, Grows, AllMissing, EnsuredDir, DirsRemoved, Missing, Blocked;
    var missing := Missing(t, Parent(dest), 0, f.walkStat);
    if missing.Some? && missing.value != [] {
      MissingMeans(t, Parent(dest), 0, f.walkStat);
      EnsuredDirGrows(t, Parent(dest), f.destDirStat, f.destDirMakes);
      var made := EnsuredDir(t, Parent(dest), f.destDirStat, f.destDirMakes);
      MadeAndUndone(t, Parent(dest), missing.value, made.tree, f.removeDir);
    }
  }

  // --- Moving the staged file ------------------------------------------------------------------

  /** A rename that reports failure after the destination may have changed. */
  predicate Late(fault: RenameFault) {
    fault.KeepsSource? || fault.Breaks?
  }

  lemma RenamedEffect(t: Tree, from: Path, to: Path, fault: RenameFault)
    requires IsRegular(t, from)
    ensures
      var (t', ok) := RenamedTree(t, from, to, fault);
      && (forall q :: q in t && q != from && q != to ==> q in t' && t'[q] == t[q])
      && (ok ==> to in t' && t'[to] == t[from] && (from != to ==> from !in t'))
      && (!ok && from != to ==> from in t' && t'[from] == t[from])
      && (ok ==> forall q :: q in t' && q !in t ==> q == to)
      && (!ok ==> forall q :: q in t' && q !in t ==>
            if Late(fault) then q == to else fault.LeavesCopy? && q == Parent(to) + [fault.name])
  {}

  lemma ReplacedEffect(t: Tree, temp: Path, dest: Path, f: Faults)
    requires IsRegular(t, temp)
    ensures
      var r := Replaced(t, temp, dest, f);
      && (forall q :: q in t && q != temp && q != dest ==> q in r.tree && r.tree[q] == t[q])
      && (r.ok ==> dest in r.tree && r.tree[dest] == t[temp] && (temp != dest ==> temp !in r.tree))
      && (!r.ok && temp != dest ==> temp in r.tree && r.tree[temp] == t[temp])
      && (r.ok ==> forall q :: q in r.tree && q !in t ==> q == dest)
      && (!r.ok ==> forall q :: q in r.tree && q !in t ==>
            if Late(f.rename) then q == dest else f.rename.LeavesCopy? && q == Parent(dest) + [f.rename.name])
  {
    hide Blocked, HasChildren, RemovalOf, RenamedTree;
    var cleared := if dest in t && !t[dest].Regular? then t - {dest} else t;
    RenamedEffect(cleared, temp, dest, f.rename);
  }

  /** A rename that leaves something else than `kept` at the destination, where
      `staged` is the file that was to be moved there. */
  predicate Overwrites(fault: RenameFault, staged: Node, kept: Node) {
    match fault
    case KeepsSource => staged != kept
    case Breaks(got) => got != Some(kept)
    case _ => false
  }

  /** A failed replacement loses the destination that was there. */
  predicate LosesOld(t: Tree, temp: Path, dest: Path, f: Faults)
    requires IsRegular(t, temp) && dest in t
  {
    && !f.destStat && !f.destMode
    && if t[dest].Regular? then Overwrites(f.rename, t[temp], t[dest])
       else !f.destRemove && !(t[dest].Folder? && HasChildren(t, dest))
  }

  lemma RenameLosesIff(t: Tree, from: Path, to: Path, fault: RenameFault)
    requires IsRegular(t, from) && from != to && IsFolder(t, Parent(to)) && !IsFolder(t, to)
    requires !RenamedTree(t, from, to, fault).1
    ensures
      var t' := RenamedTree(t, from, to, fault).0;
      && (to in t ==> ((to in t' && t'[to] == t[to]) <==> !Overwrites(fault, t[from], t[to])))
      && (to !in t && to in t' ==> t'[to].Regular?)
  {}

  lemma ReplacedLosesIff(t: Tree, temp: Path, dest: Path, f: Faults)
    requires Rooted(t) && IsRegular(t, temp) && dest in t && dest != temp && !Replaced(t, temp, dest, f).ok
    ensures
      var r := Replaced(t, temp, dest, f);
      (dest in r.tree && r.tree[dest] == t[dest]) <==> !LosesOld(t, temp, dest, f)
  {
    NotBlocked(t, dest);
    if dest == [] {
      RootIsKept(t, temp, f);
    } else {
      assert IsFolder(t, Parent(dest));
      hide Blocked, ClosedUpward, HasChildren, RenamedTree, Overwrites;
      var cleared := if t[dest].Regular? then t else t - {dest};
      if !IsFolder(cleared, dest) && !RenamedTree(cleared, temp, dest, f.rename).1 {
        RenameLosesIff(cleared, temp, dest, f.rename);
      }
    }
  }

  lemma RootIsKept(t: Tree, temp: Path, f: Faults)
    requires Rooted(t) && IsRegular(t, temp)
    ensures Replaced(t, temp, [], f).tree == t && !Replaced(t, temp, [], f).ok && !LosesOld(t, temp, [], f)
  {
    FirstComponent(t, temp);
    hide ClosedUpward, HasChildren, Blocked;
  }

  /** Anything below the root means that the root is not empty. */
  lemma {:induction false} FirstComponent(t: Tree, p: Path)
    requires Rooted(t) && p in t && p != []
    ensures HasChildren(t, [])
    decreases |p|
  {
    if Parent(p) != [] {
      FirstComponent(t, Parent(p));
    }
  }

  lemma MovedEffect(t: Tree, temp: Path, dest: Path, f: Faults)
    requires Rooted(t) && IsRegular(t, temp)
    ensures
      var m := Moved(t, temp, dest, f);
      && (forall q :: q in t && q != temp && q != dest ==> q in m.tree && m.tree[q] == t[q])
      && (m.ok ==> dest in m.tree && m.tree[dest] == t[temp] && (temp != dest ==> temp !in m.tree))
      && (!m.ok && temp != dest ==> temp in m.tree && m.tree[temp] == t[temp])
      && (m.ok ==> forall q :: q in m.tree && q !in t ==> q <= dest)
  {
    hide DestinationDir, Replaced, ClosedUpward, Nested;
    DestinationDirEffect(t, dest, f);
    var ready := DestinationDir(t, dest, f);
    if ready.ok {
      ReplacedEffect(ready.tree, temp, dest, f);
      DirsRemovedEffect(Replaced(ready.tree, temp, dest, f).tree, ready.created, 0, f.removeDir);
      forall q | q in ready.created ensures q <= dest {
        PrefixOfParent(q, dest);
      }
    }
  }

  lemma PrefixOfParent(q: Path, p: Path)
    requires q <= Parent(p)
    ensures q <= p
  {}

  /** If no removal fails, a failed move leaves nothing new, unless the rename
      failed late and left something at the destination: then that is there, and
      so are the directories made for it. */
  lemma FailedMoveLeaves(t: Tree, temp: Path, dest: Path, f: Faults, q: Path)
    requires Rooted(t) && IsRegular(t, temp) && temp != dest && !Moved(t, temp, dest, f).ok
    requires f.removeDir.None? && !f.rename.LeavesCopy? && q in Moved(t, temp, dest, f).tree
    ensures q in t || (Late(f.rename) && dest in Moved(t, temp, dest, f).tree && q <= dest)
  {
    hide DestinationDir, Replaced, ClosedUpward;
    DestinationDirEffect(t, dest, f);
    var ready := DestinationDir(t, dest, f);
    if ready.ok {
      ReplacedEffect(ready.tree, temp, dest, f);
      var done := Replaced(ready.tree, temp, dest, f);
      DirsRemovedEffect(done.tree, ready.created, 0, f.removeDir);
      if Late(f.rename) && dest in done.tree {
        if q in ready.created {
          PrefixOfParent(q, dest);
        }
        NotItsOwnDir(t, ready.created, dest);
      } else {
        NestedInFewer(ready.tree, done.tree, ready.created);
      }
    }
  }

  lemma NotItsOwnDir(t: Tree, created: seq<Path>, dest: Path)
    requires Rooted(t) && forall q :: q in created ==> q !in t && q <= Parent(dest)
    ensures dest !in created
  {}

  lemma NestedInFewer(t: Tree, t': Tree, dirs: seq<Path>)
    requires Nested(t, dirs, 0) && forall q :: q in t' ==> q in t
    ensures Nested(t', dirs, 0)
  {}

  /** A failed move loses the destination that was there. An existing destination
      needs no directory made, so only the first stat of the walk matters. */
  predicate MoveLosesOld(t: Tree, temp: Path, dest: Path, f: Faults)
    requires IsRegular(t, temp) && dest in t
  {
    f.walkStat != Some(0) && LosesOld(t, temp, dest, f)
  }

  lemma MovedLosesIff(t: Tree, temp: Path, dest: Path, f: Faults)
    requires Rooted(t) && IsRegular(t, temp) && dest in t && dest != temp && !Moved(t, temp, dest, f).ok
    ensures
      var m := Moved(t, temp, dest, f);
      (dest in m.tree && m.tree[dest] == t[dest]) <==> !MoveLosesOld(t, temp, dest, f)
  {
    hide Replaced, LosesOld;
    NotBlocked(t, Parent(dest));
    hide Blocked;
    assert Parent(dest) in t;
    if f.walkStat != Some(0) {
      assert Missing(t, Parent(dest), 0, f.walkStat) == Some([]);
      ReplacedLosesIff(t, temp, dest, f);
    }
  }

  // --- Staging -----------------------------------------------------------------------------------

  lemma PutRegular(t: Tree, p: Path, node: Node)
    requires ClosedUpward(t) && IsFolder(t, Parent(p)) && !IsFolder(t, p) && node.Regular?
    ensures ClosedUpward(t[p := node])
  {
    forall q | q in t[p := node] ensures Parent(q) in t[p := node] && (q != [] ==> t[p := node][Parent(q)] == Folder) {
      if q == p {
        assert p != [];
      }
    }
  }

  lemma WithoutKeepsClosed(t: Tree, p: Path, fails: bool)
    requires ClosedUpward(t)
    ensures p != [] ==> ClosedUpward(Without(t, p, fails))
  {
    if p in t && p != [] && RemovalOf(t, p, fails) == Removed {
      forall q | q in t - {p} ensures Parent(q) in t - {p} && (q != [] ==> (t - {p})[Parent(q)] == Folder) {
        assert Parent(q) == p && q != [] ==> HasChildren(t, p);
      }
    }
  }

  /** The upload directory made, and the staged file's path cleared. */
  lemma ClearedEffect(uploadDir: Path, base: string, t: Tree, f: Faults)
    requires Rooted(t)
    ensures
      var temp, dir := uploadDir + [base], EnsuredDir(t, uploadDir, f.stageDirStat, f.stageDirMakes);
      && Keeps(t, dir.tree) && (forall q :: q in dir.tree && q !in t ==> q <= uploadDir)
      && Rooted(dir.tree) && (temp in dir.tree ==> temp in t)
      && (RemovalOf(dir.tree, temp, f.stageRemove) == Removed ==> Rooted(dir.tree - {temp}))
  {
    hide Blocked, HasChildren, EnsuredDir, ClosedUpward;
    var temp := uploadDir + [base];
    EnsuredDirGrows(t, uploadDir, f.stageDirStat, f.stageDirMakes);
    assert !(temp <= uploadDir);
    WithoutKeepsClosed(EnsuredDir(t, uploadDir, f.stageDirStat, f.stageDirMakes).tree, temp, f.stageRemove);
  }

  lemma WrittenEffect(t: Tree, uploadDir: Path, base: string, content: Bytes, fault: WriteFault, fails: bool)
    requires Rooted(t)
    ensures
      var temp := uploadDir + [base];
      var w := Written(t, temp, content, fault);
      var t' := Without(w.0, temp, fails);
      && (w.1 ==> Rooted(w.0) && w.0 == t[temp := Regular(content, STAGED_MODE, "")])
      && (forall q :: q in t && q != temp ==> q in w.0 && w.0[q] == t[q] && q in t' && t'[q] == t[q])
      && (forall q :: (q in w.0 || q in t') && q !in t ==> q == temp)
      && (!fails && temp !in t ==> temp !in t')
      && (!fails && w.1 ==> temp !in t')
  {
    var temp := uploadDir + [base];
    assert Parent(temp) == uploadDir;
    if IsFolder(t, uploadDir) && !IsFolder(t, temp) {
      PutRegular(t, temp, Regular(content, STAGED_MODE, ""));
    }
    hide ClosedUpward;
  }

  /** What staging leaves: everything else as it was, new directories only for the
      upload directory, and the staged file only if it succeeds. */
  lemma StagedEffect(uploadDir: Path, md5: Bytes -> Bytes, t: Tree, req: Request, source: Option<Bytes>, f: Faults)
    requires Rooted(t)
    ensures
      var temp := uploadDir + [req.base];
      var s := Staged(uploadDir, md5, t, req, source, f);
      && (forall q :: q in t && q != temp ==> q in s.tree && s.tree[q] == t[q])
      && (forall q :: q in s.tree && q !in t ==> q == temp || q <= uploadDir)
      && (s.ok ==> Rooted(s.tree) && md5(source.value) == req.md5 && s.tree[temp] == Regular(source.value, STAGED_MODE, ""))
      && (!s.ok && s.at in {WriteStaged, HashMismatch} && !f.removeStaged ==> temp !in s.tree)
      && (!s.ok && s.at in {PrepareStaging, OpenSource} && temp in s.tree ==> temp in t && s.tree[temp] == t[temp])
      && (!s.ok ==> s.at in {PrepareStaging, OpenSource, WriteStaged, HashMismatch})
  {
    hide Blocked, HasChildren, EnsuredDir, Written, Without, RemovalOf, Rooted;
    var temp := uploadDir + [req.base];
    ClearedEffect(uploadDir, req.base, t, f);
    var dir := EnsuredDir(t, uploadDir, f.stageDirStat, f.stageDirMakes).tree;
    var cleared := if temp in dir then dir - {temp} else dir;
    if source.Some? && Rooted(cleared) {
      WrittenEffect(cleared, uploadDir, req.base, source.value, f.write, f.removeStaged);
    }
  }

  lemma AttributedEffect(t: Tree, temp: Path, req: Request, f: Faults)
    requires Rooted(t) && IsRegular(t, temp)
    ensures
      var a := Attributed(t, temp, req, f);
      && Rooted(a.tree) && a.tree.Keys == t.Keys && a.tree[temp].content == t[temp].content
      && (forall q :: q in t && q != temp ==> a.tree[q] == t[q])
      && (!a.ok ==> a.at in {ChangeMode, ChangeOwner})
  {
    var a := Attributed(t, temp, req, f);
    forall q | q in a.tree ensures Parent(q) in a.tree && (q != [] ==> a.tree[Parent(q)] == Folder) {
      assert q in t;
    }
  }

  // --- The whole push ------------------------------------------------------------------------------

  function TempOf(uploadDir: Path, req: Request): Path {
    uploadDir + [req.base]
  }

  /** The tree once the file is staged and has its mode and owner. */
  function Ready(uploadDir: Path, md5: Bytes -> Bytes, t: Tree, req: Request, source: Option<Bytes>, f: Faults): (r: Phase)
    ensures r.ok ==> IsRegular(r.tree, TempOf(uploadDir, req))
  {
    var staged := Staged(uploadDir, md5, t, req, source, f);
    if !staged.ok then staged else Attributed(staged.tree, TempOf(uploadDir, req), req, f)
  }

  lemma ReadyEffect(uploadDir: Path, md5: Bytes -> Bytes, t: Tree, req: Request, source: Option<Bytes>, f: Faults)
    requires Rooted(t)
    ensures
      var temp, r := TempOf(uploadDir, req), Ready(uploadDir, md5, t, req, source, f);
      && (forall q :: q in t && q != temp ==> q in r.tree && r.tree[q] == t[q])
      && (forall q :: q in r.tree && q !in t ==> q == temp || q <= uploadDir)
      && (r.ok ==> Rooted(r.tree) && source.Some? && md5(source.value) == req.md5 && r.tree[temp].content == source.value)
      && (!r.ok && r.at in {WriteStaged, HashMismatch} && !f.removeStaged ==> temp !in r.tree)
      && (!r.ok && r.at in {PrepareStaging, OpenSource} && temp in r.tree ==> temp in t && r.tree[temp] == t[temp])
  {
    hide Staged, Attributed, ClosedUpward;
    StagedEffect(uploadDir, md5, t, req, source, f);
    var staged := Staged(uploadDir, md5, t, req, source, f);
    if staged.ok {
      AttributedEffect(staged.tree, TempOf(uploadDir, req), req, f);
    }
  }

  /** A push is: get the file ready, move it, and take the staged file away
      wherever that fails after staging. */
  lemma PushedIs(uploadDir: Path, md5: Bytes -> Bytes, t: Tree, req: Request, source: Option<Bytes>, f: Faults)
    ensures
      var temp, r := TempOf(uploadDir, req), Ready(uploadDir, md5, t, req, source, f);
      var staged, p := Staged(uploadDir, md5, t, req, source, f), Pushed(uploadDir, md5, t, req, source, f);
      && (!staged.ok ==> p.0 == Failure(staged.at) && p.1 == staged.tree)
      && (staged.ok && !r.ok ==> p.0 == Failure(r.at) && p.1 == Without(r.tree, temp, f.removeStaged))
      && (r.ok ==>
            var m := Moved(r.tree, temp, req.dest, f);
            && staged.ok && source.Some?
            && p.0 == (if m.ok then Success(|source.value|) else Failure(m.at))
            && p.1 == (if m.ok then m.tree else Without(m.tree, temp, f.removeStaged)))
  {
    hide Staged, Attributed, Moved;
  }

  /** A push that succeeds leaves content with the expected checksum at the
      destination, and no staged file. */
  lemma SuccessMeans(uploadDir: Path, md5: Bytes -> Bytes, t: Tree, req: Request, source: Option<Bytes>, f: Faults)
    requires Rooted(t) && Pushed(uploadDir, md5, t, req, source, f).0.Success?
    ensures
      var p := Pushed(uploadDir, md5, t, req, source, f);
      && IsRegular(p.1, req.dest) && source == Some(p.1[req.dest].content)
      && md5(p.1[req.dest].content) == req.md5 && p.0.size == |p.1[req.dest].content|
      && (TempOf(uploadDir, req) != req.dest ==> TempOf(uploadDir, req) !in p.1)
  {
    hide Pushed, Ready, Staged, Moved;
    PushedIs(uploadDir, md5, t, req, source, f);
    ReadyEffect(uploadDir, md5, t, req, source, f);
    MovedEffect(Ready(uploadDir, md5, t, req, source, f).tree, TempOf(uploadDir, req), req.dest, f);
  }

  /** No push, whatever its outcome, touches a file or directory that was there,
      other than the destination and the staged file's path. */
  lemma OthersUntouched(uploadDir: Path, md5: Bytes -> Bytes, t: Tree, req: Request, source: Option<Bytes>, f: Faults, q: Path)
    requires Rooted(t) && q in t && q != req.dest && q != TempOf(uploadDir, req)
    ensures
      var t' := Pushed(uploadDir, md5, t, req, source, f).1;
      q in t' && t'[q] == t[q]
  {
    hide Pushed, Ready, Staged, Moved, RemovalOf;
    PushedIs(uploadDir, md5, t, req, source, f);
    ReadyEffect(uploadDir, md5, t, req, source, f);
    var r := Ready(uploadDir, md5, t, req, source, f);
    if r.ok {
      MovedEffect(r.tree, TempOf(uploadDir, req), req.dest, f);
    } else {
      hide Rooted;
      StagedIsReady(uploadDir, md5, t, req, source, f);
    }
  }

  lemma StagedIsReady(uploadDir: Path, md5: Bytes -> Bytes, t: Tree, req: Request, source: Option<Bytes>, f: Faults)
    ensures
      var s, r := Staged(uploadDir, md5, t, req, source, f), Ready(uploadDir, md5, t, req, source, f);
      !s.ok ==> r == s
  {
    hide Staged, Attributed;
  }

  /** A push gets as far as the move and there loses the destination it found. */
  predicate Loses(uploadDir: Path, md5: Bytes -> Bytes, t: Tree, req: Request, source: Option<Bytes>, f: Faults) {
    var r := Ready(uploadDir, md5, t, req, source, f);
    r.ok && req.dest in r.tree && MoveLosesOld(r.tree, TempOf(uploadDir, req), req.dest, f)
  }

  /** After a failed push, an existing destination is unchanged exactly unless the
      push got its file ready and one of two things happened in the move: the
      rename of a regular file failed after the destination had changed, or the
      destination was no regular file and was removed before the rename. */
  lemma DestinationSurvivesIff(uploadDir: Path, md5: Bytes -> Bytes, t: Tree, req: Request, source: Option<Bytes>, f: Faults)
    requires Rooted(t) && req.dest in t && req.dest != TempOf(uploadDir, req)
    requires Pushed(uploadDir, md5, t, req, source, f).0.Failure?
    ensures
      var t' := Pushed(uploadDir, md5, t, req, source, f).1;
      (req.dest in t' && t'[req.dest] == t[req.dest]) <==> !Loses(uploadDir, md5, t, req, source, f)
  {
    hide Pushed, Ready, Staged, Moved, RemovalOf, MoveLosesOld;
    PushedIs(uploadDir, md5, t, req, source, f);
    ReadyEffect(uploadDir, md5, t, req, source, f);
    var r := Ready(uploadDir, md5, t, req, source, f);
    if r.ok {
      MovedLosesIff(r.tree, TempOf(uploadDir, req), req.dest, f);
    } else {
      hide Rooted;
      StagedIsReady(uploadDir, md5, t, req, source, f);
    }
  }

  /** In particular a regular destination survives every failure but a late one
      of the rename, whatever else fails. */
  lemma RegularDestinationSurvives(uploadDir: Path, md5: Bytes -> Bytes, t: Tree, req: Request, source: Option<Bytes>, f: Faults)
    requires Rooted(t) && IsRegular(t, req.dest) && req.dest != TempOf(uploadDir, req) && !Late(f.rename)
    requires Pushed(uploadDir, md5, t, req, source, f).0.Failure?
    ensures
      var t' := Pushed(uploadDir, md5, t, req, source, f).1;
      req.dest in t' && t'[req.dest] == t[req.dest]
  {
    hide Pushed, Ready;
    DestinationSurvivesIff(uploadDir, md5, t, req, source, f);
    ReadyEffect(uploadDir, md5, t, req, source, f);
  }

  /** No removal made while cleaning up fails. */
  predicate CleanRemovals(f: Faults) {
    !f.removeStaged && f.removeDir.None? && !f.rename.LeavesCopy?
  }

  /** If no removal fails, a failed push leaves nothing new but the upload
      directory, unless the rename failed late and left something at the
      destination: then that is there, with the directories made for it. */
  lemma FailureLeavesNothing(uploadDir: Path, md5: Bytes -> Bytes, t: Tree, req: Request, source: Option<Bytes>, f: Faults, q: Path)
    requires Rooted(t) && Pushed(uploadDir, md5, t, req, source, f).0.Failure? && CleanRemovals(f)
    requires q in Pushed(uploadDir, md5, t, req, source, f).1
    ensures q in t || q <= uploadDir
            || (Late(f.rename) && req.dest in Pushed(uploadDir, md5, t, req, source, f).1 && q <= req.dest)
  {
    hide Pushed, Ready, Moved, HasChildren, Staged, ClosedUpward;
    PushedIs(uploadDir, md5, t, req, source, f);
    ReadyEffect(uploadDir, md5, t, req, source, f);
    StagedIsReady(uploadDir, md5, t, req, source, f);
    ReadyKeepsTemp(uploadDir, md5, t, req, source, f);
    StagedFailure(uploadDir, md5, t, req, source, f);
    var temp, r := TempOf(uploadDir, req), Ready(uploadDir, md5, t, req, source, f);
    if r.ok {
      TempGoes(r.tree, temp, req.dest, f);
      if temp == req.dest {
        MovedOntoItself(r.tree, temp, f);
      } else {
        FailedMoveLeaves(r.tree, temp, req.dest, f, q);
      }
    }
  }

  lemma StagedFailure(uploadDir: Path, md5: Bytes -> Bytes, t: Tree, req: Request, source: Option<Bytes>, f: Faults)
    requires Rooted(t)
    ensures
      var s := Staged(uploadDir, md5, t, req, source, f);
      !s.ok ==> s.at in {PrepareStaging, OpenSource, WriteStaged, HashMismatch}
  {
    hide Staged, Rooted;
    StagedEffect(uploadDir, md5, t, req, source, f);
  }

  /** After a failed move the staged file is a plain file, and goes. */
  lemma TempGoes(t: Tree, temp: Path, dest: Path, f: Faults)
    requires Rooted(t) && IsRegular(t, temp) && !Moved(t, temp, dest, f).ok && !f.removeStaged
    ensures temp !in Without(Moved(t, temp, dest, f).tree, temp, f.removeStaged)
  {
    hide DestinationDir, Replaced, Moved, ClosedUpward, HasChildren;
    MovedEffect(t, temp, dest, f);
    if temp == dest {
      MovedOntoItself(t, temp, f);
    }
  }

  function At(t: Tree, p: Path): Option<Node> {
    if p in t then Some(t[p]) else None
  }

  /** The move gets to a rename that breaks off. */
  predicate MoveBreaks(f: Faults) {
    f.walkStat != Some(0) && !f.destStat && !f.destMode && f.rename.Breaks?
  }

  /** A failed move of a file onto itself leaves the file, or what a rename that
      breaks off got to. */
  lemma MovedOntoItself(t: Tree, temp: Path, f: Faults)
    requires Rooted(t) && IsRegular(t, temp) && !Moved(t, temp, temp, f).ok
    ensures At(Moved(t, temp, temp, f).tree, temp) == if MoveBreaks(f) then f.rename.got else Some(t[temp])
    ensures !f.rename.LeavesCopy? ==> forall q :: q in Moved(t, temp, temp, f).tree ==> q in t
  {
    NotBlocked(t, temp);
    NotBlocked(t, Parent(temp));
    assert temp != [] && IsFolder(t, Parent(temp));
    hide Blocked, ClosedUpward, HasChildren, RemovalOf;
    if f.walkStat != Some(0) {
      assert Missing(t, Parent(temp), 0, f.walkStat) == Some([]);
    }
  }

  /** If its removal does not fail, no staged file is left by a failed push, unless
      one was there before and staging did not get to replacing it. */
  lemma FailureLeavesNoStagedFile(uploadDir: Path, md5: Bytes -> Bytes, t: Tree, req: Request, source: Option<Bytes>, f: Faults)
    requires Rooted(t) && Pushed(uploadDir, md5, t, req, source, f).0.Failure? && !f.removeStaged
    requires TempOf(uploadDir, req) != req.dest
    ensures
      var temp, p := TempOf(uploadDir, req), Pushed(uploadDir, md5, t, req, source, f);
      temp in p.1 ==> temp in t && p.1[temp] == t[temp] && p.0.at in {PrepareStaging, OpenSource}
  {
    hide Pushed, Ready, Moved, HasChildren, Staged, ClosedUpward;
    PushedIs(uploadDir, md5, t, req, source, f);
    ReadyEffect(uploadDir, md5, t, req, source, f);
    StagedIsReady(uploadDir, md5, t, req, source, f);
    ReadyKeepsTemp(uploadDir, md5, t, req, source, f);
    StagedFailure(uploadDir, md5, t, req, source, f);
    var temp, r := TempOf(uploadDir, req), Ready(uploadDir, md5, t, req, source, f);
    if r.ok {
      TempGoes(r.tree, temp, req.dest, f);
    }
  }

  /** Staging gets to removing what is at the staged file's path. */
  predicate ClearsStaging(uploadDir: Path, t: Tree, req: Request, f: Faults)
    requires TempOf(uploadDir, req) in t
  {
    var temp := TempOf(uploadDir, req);
    !f.stageDirStat && !f.stageStat && !f.stageRemove && !(t[temp].Folder? && HasChildren(t, temp))
  }

  /** The staged file, as it is written in full. */
  function Payload(source: Bytes): Node {
    Regular(source, STAGED_MODE, "")
  }

  /** What a failed push has put at the staged file's path by the time it is to be
      removed there, when that path is also the destination. */
  function Remains(md5: Bytes -> Bytes, req: Request, source: Option<Bytes>, f: Faults): Option<Node> {
    if source.None? || f.write.CannotOpen? then None
    else if f.write.BreaksOff? then Some(Payload(Cut(source.value, f.write.after)))
    else if f.hash || md5(source.value) != req.md5 then Some(Payload(source.value))
    else
      var set_ := Attributed(map[req.dest := Payload(source.value)], req.dest, req, f);
      if set_.ok && MoveBreaks(f) then f.rename.got else Some(set_.tree[req.dest])
  }

  /** Setting mode and owner looks at nothing but the file. */
  lemma AttributedIsLocal(t: Tree, temp: Path, req: Request, f: Faults)
    requires IsRegular(t, temp)
    ensures
      var a, b := Attributed(t, temp, req, f), Attributed(map[temp := t[temp]], temp, req, f);
      a.ok == b.ok && a.tree[temp] == b.tree[temp]
  {}

  lemma StagingClearsIff(uploadDir: Path, md5: Bytes -> Bytes, t: Tree, req: Request, source: Option<Bytes>, f: Faults)
    requires Rooted(t) && TempOf(uploadDir, req) in t
    ensures
      var temp, s := TempOf(uploadDir, req), Staged(uploadDir, md5, t, req, source, f);
      if !ClearsStaging(uploadDir, t, req, f) then !s.ok && s.tree == t
      else
        && (s.ok <==> source.Some? && f.write.Writes? && !f.hash && md5(source.value) == req.md5)
        && (s.ok ==> s.tree[temp] == Payload(source.value))
        && (!s.ok ==> At(s.tree, temp) == if f.removeStaged then Remains(md5, req, source, f) else None)
  {
    var temp := TempOf(uploadDir, req);
    assert Parent(temp) == uploadDir;
    NotBlocked(t, temp);
    NotBlocked(t, uploadDir);
    assert EnsuredDir(t, uploadDir, f.stageDirStat, f.stageDirMakes).tree == t;
    hide Blocked, HasChildren, EnsuredDir, Written, Attributed;
    if source.Some? {
      WrittenAnew(t, temp, source.value, f.write);
    }
  }

  lemma WrittenAnew(t: Tree, temp: Path, content: Bytes, fault: WriteFault)
    requires temp in t && temp != [] && IsFolder(t, Parent(temp))
    ensures
      var w := Written(t - {temp}, temp, content, fault);
      && (w.1 <==> fault.Writes?) && w.0 - {temp} == t - {temp}
      && At(w.0, temp) == (match fault
                           case Writes => Some(Payload(content))
                           case CannotOpen => None
                           case BreaksOff(n) => Some(Payload(Cut(content, n))))
  {}

  /** What a failed push leaves at a destination that is the staged file's own
      path: the tree as it was if staging does not get to clearing that path,
      otherwise nothing, or what the push had put there if that cannot be removed. */
  lemma StagedDestinationHolds(uploadDir: Path, md5: Bytes -> Bytes, t: Tree, req: Request, source: Option<Bytes>, f: Faults)
    requires Rooted(t) && req.dest in t && req.dest == TempOf(uploadDir, req)
    requires Pushed(uploadDir, md5, t, req, source, f).0.Failure?
    ensures !ClearsStaging(uploadDir, t, req, f) ==> Pushed(uploadDir, md5, t, req, source, f).1 == t
    ensures ClearsStaging(uploadDir, t, req, f) ==>
              At(Pushed(uploadDir, md5, t, req, source, f).1, req.dest) ==
                if f.removeStaged then Remains(md5, req, source, f) else None
  {
    hide Pushed, Moved, HasChildren, Staged, ClosedUpward, ClearsStaging, Attributed;
    PushedIs(uploadDir, md5, t, req, source, f);
    StagingClearsIff(uploadDir, md5, t, req, source, f);
    ReadyEffect(uploadDir, md5, t, req, source, f);
    var temp, r := TempOf(uploadDir, req), Ready(uploadDir, md5, t, req, source, f);
    var staged := Staged(uploadDir, md5, t, req, source, f);
    if staged.ok {
      AttributedIsLocal(staged.tree, temp, req, f);
    }
    if r.ok {
      MovedOntoItself(r.tree, temp, f);
      if !f.removeStaged {
        TempGoes(r.tree, temp, req.dest, f);
      }
    }
  }

  /** A destination that is the staged file's own path is unchanged by a failed
      push exactly when staging does not get to clearing that path, or what the
      push put there instead is the same and could not be removed. */
  lemma StagedDestinationSurvivesIff(uploadDir: Path, md5: Bytes -> Bytes, t: Tree, req: Request, source: Option<Bytes>, f: Faults)
    requires Rooted(t) && req.dest in t && req.dest == TempOf(uploadDir, req)
    requires Pushed(uploadDir, md5, t, req, source, f).0.Failure?
    ensures
      var t' := Pushed(uploadDir, md5, t, req, source, f).1;
      (req.dest in t' && t'[req.dest] == t[req.dest]) <==>
        || !ClearsStaging(uploadDir, t, req, f)
        || (f.removeStaged && Remains(md5, req, source, f) == Some(t[req.dest]))
  {
    hide Pushed, Rooted, ClearsStaging, Remains;
    StagedDestinationHolds(uploadDir, md5, t, req, source, f);
  }

  lemma ReadyKeepsTemp(uploadDir: Path, md5: Bytes -> Bytes, t: Tree, req: Request, source: Option<Bytes>, f: Faults)
    ensures Staged(uploadDir, md5, t, req, source, f).ok ==>
              IsRegular(Ready(uploadDir, md5, t, req, source, f).tree, TempOf(uploadDir, req))
  {
    hide Staged, Attributed;
  }

  // --- When a push succeeds --------------------------------------------------------------------

  /** An owner or a group is asked for. */
  predicate OwnerAsked(req: Request) {
    req.owner != "" || req.group != ""
  }

  /** Mode and owner can be set exactly when the mode is allowed, setting it works,
      and, where an owner is asked for, the current user is known and has it already
      or can change it; the file then has them, and is otherwise as it was. */
  lemma AttributedIff(t: Tree, temp: Path, req: Request, f: Faults)
    requires IsRegular(t, temp)
    ensures
      var a := Attributed(t, temp, req, f);
      && (a.ok <==>
            && req.mode <= MAX_MODE && (req.mode != 0 ==> !f.chmod)
            && (OwnerAsked(req) ==> !f.lookup && (f.current || !f.chown)))
      && (a.ok ==> a.tree == t[temp := Regular(t[temp].content, if req.mode == 0 then t[temp].mode else req.mode,
                                               if OwnerAsked(req) && !f.current then req.owner + ":" + req.group
                                               else t[temp].owner)])
  {}

  /** A push that succeeds has given the destination the mode and the owner asked
      for; if they cannot be set it does not succeed. */
  lemma SuccessSetsAttributes(uploadDir: Path, md5: Bytes -> Bytes, t: Tree, req: Request, source: Option<Bytes>, f: Faults)
    requires Rooted(t) && Pushed(uploadDir, md5, t, req, source, f).0.Success?
    ensures
      var t' := Pushed(uploadDir, md5, t, req, source, f).1;
      && req.mode <= MAX_MODE && (req.mode != 0 ==> !f.chmod)
      && (OwnerAsked(req) ==> !f.lookup && (f.current || !f.chown))
      && IsRegular(t', req.dest)
      && t'[req.dest].mode == (if req.mode == 0 then STAGED_MODE else req.mode)
      && t'[req.dest].owner == if OwnerAsked(req) && !f.current then req.owner + ":" + req.group else ""
  {
    hide Pushed, Staged, Moved, Attributed;
    PushedIs(uploadDir, md5, t, req, source, f);
    StagedEffect(uploadDir, md5, t, req, source, f);
    ReadyEffect(uploadDir, md5, t, req, source, f);
    var temp := TempOf(uploadDir, req);
    AttributedIff(Staged(uploadDir, md5, t, req, source, f).tree, temp, req, f);
    MovedEffect(Ready(uploadDir, md5, t, req, source, f).tree, temp, req.dest, f);
  }

  lemma {:induction false} MadeDirsSucceed(t: Tree, p: Path, makes: nat)
    requires !Blocked(t, p) && (p in t ==> t[p].Folder?) && makes > |p|
    ensures var made := MadeDirs(t, p, makes); made.ok && made.makes + |p| + 1 >= makes
    decreases |p|
  {
    if p !in t && p != [] {
      ParentNotBlocked(t, p);
      MadeDirsSucceed(t, Parent(p), makes);
    }
  }

  lemma ParentNotBlocked(t: Tree, p: Path)
    requires !Blocked(t, p) && p != []
    ensures !Blocked(t, Parent(p)) && (Parent(p) in t ==> t[Parent(p)].Folder?)
  {
    assert p[..|p| - 1] == Parent(p);
    forall n | 0 <= n < |Parent(p)| && Parent(p)[..n] in t ensures t[Parent(p)[..n]].Folder? {
      assert p[..n] == Parent(p)[..n];
    }
  }

  lemma {:induction false} MissingSucceeds(t: Tree, p: Path, n: nat)
    requires !Blocked(t, p)
    ensures Missing(t, p, n, None).Some?
    decreases |p|
  {
    if p !in t && p != [] {
      ParentNotBlocked(t, p);
      MissingSucceeds(t, Parent(p), n + 1);
    }
  }

  /** What is new on the way to one path does not stand in the way of another. */
  lemma GrowthBlocksNothing(t: Tree, t': Tree, p: Path, q: Path)
    requires Grows(t, t', p) && !Blocked(t, q)
    ensures !Blocked(t', q)
  {
    forall n | 0 <= n < |q| && q[..n] in t' ensures t'[q[..n]].Folder? {
    }
  }

  lemma EnsuredDirSucceeds(t: Tree, p: Path, makes: nat)
    requires !Blocked(t, p) && (p in t ==> t[p].Folder?) && makes > |p|
    ensures var made := EnsuredDir(t, p, false, makes); made.ok && IsFolder(made.tree, p) && Grows(t, made.tree, p)
  {
    hide Blocked;
    MadeDirsSucceed(t, p, makes);
    MadeDirsGrow(t, p, makes);
    EnsuredDirGrows(t, p, false, makes);
  }

  /** Nothing that a push does fails, and there is room for the directories. */
  predicate Faultless(f: Faults, uploadDir: Path, dest: Path) {
    && StagesFaultlessly(f, uploadDir)
    && !f.chmod && !f.lookup && !f.chown
    && f.walkStat == None && !f.destDirStat && f.destDirMakes > |dest|
    && !f.destStat && !f.destMode && !f.destRemove && f.rename == Renames
  }

  predicate StagesFaultlessly(f: Faults, uploadDir: Path) {
    && !f.stageDirStat && f.stageDirMakes > |uploadDir| && !f.stageStat && !f.stageRemove
    && f.write == Writes && !f.hash
  }

  /** The path can be written: only directories lead to it, and it is not a
      directory with something in it. */
  ghost predicate Open(t: Tree, p: Path) {
    p != [] && !Blocked(t, p) && !(IsFolder(t, p) && HasChildren(t, p))
  }

  lemma StagingSucceeds(uploadDir: Path, md5: Bytes -> Bytes, t: Tree, req: Request, content: Bytes, f: Faults)
    requires Rooted(t) && Open(t, TempOf(uploadDir, req)) && StagesFaultlessly(f, uploadDir) && md5(content) == req.md5
    ensures
      var temp, dir := TempOf(uploadDir, req), EnsuredDir(t, uploadDir, false, f.stageDirMakes);
      var s := Staged(uploadDir, md5, t, req, Some(content), f);
      && s.ok && s.tree == dir.tree[temp := Payload(content)] && Grows(t, dir.tree, uploadDir)
  {
    var temp := TempOf(uploadDir, req);
    assert Parent(temp) == uploadDir && temp[..|uploadDir|] == uploadDir;
    ParentNotBlocked(t, temp);
    EnsuredDirSucceeds(t, uploadDir, f.stageDirMakes);
    var dir := EnsuredDir(t, uploadDir, false, f.stageDirMakes).tree;
    GrowthBlocksNothing(t, dir, uploadDir, temp);
    NothingInside(t, dir, uploadDir, temp);
    hide Blocked, EnsuredDir;
    var cleared := if temp in dir then dir - {temp} else dir;
    assert IsFolder(cleared, uploadDir);
    assert cleared[temp := Payload(content)] == dir[temp := Payload(content)];
  }

  lemma MoveSucceeds(t: Tree, temp: Path, dest: Path, f: Faults, uploadDir: Path)
    requires IsRegular(t, temp) && Open(t, dest) && Faultless(f, uploadDir, dest)
    ensures Moved(t, temp, dest, f).ok
  {
    ParentNotBlocked(t, dest);
    MissingSucceeds(t, Parent(dest), 0);
    EnsuredDirSucceeds(t, Parent(dest), f.destDirMakes);
    var ready := DestinationDir(t, dest, f).tree;
    assert Grows(t, ready, Parent(dest));
    GrowthBlocksNothing(t, ready, Parent(dest), dest);
    ParentIsThere(t, dest, f);
    NothingInside(t, ready, Parent(dest), dest);
    hide Blocked, EnsuredDir, Missing, Grows;
  }

  lemma ParentIsThere(t: Tree, dest: Path, f: Faults)
    requires Open(t, dest) && f.walkStat == None && !f.destDirStat && f.destDirMakes > |dest|
    ensures DestinationDir(t, dest, f).ok && IsFolder(DestinationDir(t, dest, f).tree, Parent(dest))
  {
    ParentNotBlocked(t, dest);
    MissingSucceeds(t, Parent(dest), 0);
    EnsuredDirSucceeds(t, Parent(dest), f.destDirMakes);
    var missing := Missing(t, Parent(dest), 0, None).value;
    assert missing == [] ==> Parent(dest) in t;
  }

  lemma NothingInside(t: Tree, t': Tree, p: Path, dest: Path)
    requires Grows(t, t', p) && p < dest && !(IsFolder(t, dest) && HasChildren(t, dest))
    ensures !(IsFolder(t', dest) && HasChildren(t', dest)) && (dest in t' ==> dest in t && t'[dest] == t[dest])
  {
    assert dest in t' ==> dest in t by {
      assert !MissingTo(t, dest, p);
    }
    forall q | q in t' && q != [] && Parent(q) == dest ensures q in t {
      assert !MissingTo(t, q, p);
    }
  }

  /** A push that meets no fault succeeds, if the server's file has the expected
      checksum, the mode is allowed, both paths can be written, and neither is on the
      way to the other. */
  lemma FaultlessPushSucceeds(uploadDir: Path, md5: Bytes -> Bytes, t: Tree, req: Request, content: Bytes, f: Faults)
    requires Rooted(t) && Faultless(f, uploadDir, req.dest) && md5(content) == req.md5 && req.mode <= MAX_MODE
    requires Open(t, TempOf(uploadDir, req)) && Open(t, req.dest)
    requires !(TempOf(uploadDir, req) < req.dest) && !(req.dest <= uploadDir)
    ensures Pushed(uploadDir, md5, t, req, Some(content), f).0 == Success(|content|)
  {
    var temp := TempOf(uploadDir, req);
    StagingSucceeds(uploadDir, md5, t, req, content, f);
    var s := Staged(uploadDir, md5, t, req, Some(content), f).tree;
    AttributedIff(s, temp, req, f);
    var r := Attributed(s, temp, req, f).tree;
    var dir := EnsuredDir(t, uploadDir, false, f.stageDirMakes).tree;
    StillOpen(t, dir, r, uploadDir, req);
    PushedIs(uploadDir, md5, t, req, Some(content), f);
    MoveSucceeds(r, temp, req.dest, f, uploadDir);
    hide Staged, Attributed, Moved, EnsuredDir;
  }

  lemma StillOpen(t: Tree, dir: Tree, r: Tree, uploadDir: Path, req: Request)
    requires Grows(t, dir, uploadDir) && Open(t, req.dest)
    requires !(TempOf(uploadDir, req) < req.dest) && !(req.dest <= uploadDir)
    requires IsRegular(r, TempOf(uploadDir, req)) && r == dir[TempOf(uploadDir, req) := r[TempOf(uploadDir, req)]]
    ensures Open(r, req.dest)
  {
    var temp, dest := TempOf(uploadDir, req), req.dest;
    GrowthBlocksNothing(t, dir, uploadDir, dest);
    forall n | 0 <= n < |dest| && dest[..n] in r ensures r[dest[..n]].Folder? {
      assert dest[..n] != temp;
    }
    assert Parent(temp) == uploadDir && !MissingTo(t, dest, uploadDir);
    forall q | q in r && q != [] && Parent(q) == dest ensures q in t {
      assert q <= uploadDir ==> dest <= uploadDir;
      assert !MissingTo(t, q, uploadDir);
    }
  }

  // --- Where it is no transaction -------------------------------------------------------------------

  const NO_FAULTS := Faults(false, 2, false, false, Writes, false, false, false, false, false, None, false, 1,
                            false, false, false, Renames, false, None)

  /** A small file system: an upload directory and a destination. */
  function Small(dest: Node): Tree {
    map[[] := Folder, ["up"] := Folder, ["f"] := dest]
  }

  const REQUEST := Request("x", [2], ["f"], 0, "", "")

  lemma SmallIsRooted(dest: Node)
    ensures Rooted(Small(dest))
  {
    assert Parent(["up"]) == [] && Parent(["f"]) == [];
  }

  const SMALL_TEMP: Path := ["up", "x"]

  lemma SmallIsReady(dest: Node, f: Faults)
    requires f == NO_FAULTS.(rename := f.rename)
    ensures
      var r := Ready(["up"], x => x, Small(dest), REQUEST, Some([2]), f);
      TempOf(["up"], REQUEST) == SMALL_TEMP && r.ok && r.tree == Small(dest)[SMALL_TEMP := Payload([2])]
  {
    var t := Small(dest);
    SmallIsRooted(dest);
    SmallIsOpen(dest);
    assert ["up"] + ["x"] == SMALL_TEMP;
    StagingSucceeds(["up"], x => x, t, REQUEST, [2], f);
    var s := Staged(["up"], x => x, t, REQUEST, Some([2]), f);
    AttributedIff(s.tree, SMALL_TEMP, REQUEST, f);
    NotBlocked(t, ["up"]);
    assert EnsuredDir(t, ["up"], false, 2).tree == t;
    hide Staged, Attributed, EnsuredDir, Blocked, ClosedUpward;
  }

  lemma SmallIsOpen(dest: Node)
    ensures Open(Small(dest), SMALL_TEMP)
  {
    assert SMALL_TEMP[..0] == [] && SMALL_TEMP[..1] == ["up"];
  }

  lemma SmallMoves(dest: Node, f: Faults)
    requires f == NO_FAULTS.(rename := f.rename) && (dest.Regular? || dest.Folder?)
    ensures
      var t := Small(dest)[SMALL_TEMP := Payload([2])];
      var cleared := if dest.Regular? then t else t - {["f"]};
      Moved(t, SMALL_TEMP, ["f"], f) ==
        var moved := RenamedTree(cleared, SMALL_TEMP, ["f"], f.rename);
        Phase(moved.0, moved.1, MoveFile)
  {
    var t := Small(dest)[SMALL_TEMP := Payload([2])];
    assert Parent(["f"]) == [] && Parent(SMALL_TEMP) == ["up"] && Parent(["up"]) == [];
    assert !Blocked(t, ["f"]) && !Blocked(t, []) by {
      assert ["f"][..0] == [];
    }
    assert !HasChildren(t, ["f"]);
    hide Blocked, HasChildren, RenamedTree;
    assert Missing(t, [], 0, None) == Some([]);
  }

  /** The copy that stands in for a rename replaces the destination, cannot remove
      the staged file and reports failure: the old file is gone. */
  lemma LateRenameOverwrites()
    ensures
      var t, f := Small(Regular([1], 0, "")), NO_FAULTS.(rename := KeepsSource);
      var p := Pushed(["up"], x => x, t, REQUEST, Some([2]), f);
      Rooted(t) && p.0 == Failure(MoveFile) && IsRegular(p.1, ["f"]) && p.1[["f"]].content == [2]
  {
    hide Pushed, Ready, Moved, Staged, ClosedUpward, HasChildren;
    var dest, f := Regular([1], 0, ""), NO_FAULTS.(rename := KeepsSource);
    SmallIsRooted(dest);
    SmallIsReady(dest, f);
    SmallMoves(dest, f);
    PushedIs(["up"], x => x, Small(dest), REQUEST, Some([2]), f);
    assert Parent(["f"]) == [];
  }

  /** An empty directory at the destination is removed first, and is gone when the
      rename then fails without any effect of its own. */
  lemma FailedMoveLosesFolder()
    ensures
      var t, f := Small(Folder), NO_FAULTS.(rename := Fails);
      var p := Pushed(["up"], x => x, t, REQUEST, Some([2]), f);
      Rooted(t) && p.0 == Failure(MoveFile) && ["f"] !in p.1
  {
    hide Pushed, Ready, Moved, Staged, ClosedUpward, HasChildren;
    var f := NO_FAULTS.(rename := Fails);
    SmallIsRooted(Folder);
    SmallIsReady(Folder, f);
    SmallMoves(Folder, f);
    PushedIs(["up"], x => x, Small(Folder), REQUEST, Some([2]), f);
    assert Parent(["f"]) == [];
  }

  /** A destination that is the staged file's own path is lost as soon as the
      server's file cannot be opened. */
  lemma StagedDestinationLost(uploadDir: Path, md5: Bytes -> Bytes, t: Tree, req: Request)
    requires Rooted(t) && IsRegular(t, req.dest) && req.dest == TempOf(uploadDir, req)
    ensures
      var p := Pushed(uploadDir, md5, t, req, None, NO_FAULTS);
      p.0.Failure? && req.dest !in p.1
  {
    hide Staged, Moved, Attributed, ClosedUpward;
    StagedDestinationHolds(uploadDir, md5, t, req, None, NO_FAULTS);
  }

  /** And if the checksum does not match and the file cannot be removed, a payload
      that was never verified stays at the destination of a push that failed. */
  lemma UnverifiedPayloadStays(uploadDir: Path, md5: Bytes -> Bytes, t: Tree, req: Request, content: Bytes)
    requires Rooted(t) && IsRegular(t, req.dest) && req.dest == TempOf(uploadDir, req) && md5(content) != req.md5
    ensures
      var p := Pushed(uploadDir, md5, t, req, Some(content), NO_FAULTS.(removeStaged := true));
      p.0.Failure? && req.dest in p.1 && p.1[req.dest] == Payload(content)
  {
    hide Staged, Moved, Attributed, ClosedUpward;
    var f := NO_FAULTS.(removeStaged := true);
    StagingClearsIff(uploadDir, md5, t, req, Some(content), f);
    StagedDestinationHolds(uploadDir, md5, t, req, Some(content), f);
  }

  /** Where something that is not a directory is on the way to the destination, the
      move stops before it changes anything. */
  lemma BlockedMoveStops(t: Tree, temp: Path, dest: Path, f: Faults)
    requires Rooted(t) && IsRegular(t, temp) && Blocked(t, dest)
    ensures Moved(t, temp, dest, f) == Phase(t, false, PrepareDestination)
  {
    BlockedAtParent(t, dest);
    if Blocked(t, Parent(dest)) {
      assert Missing(t, Parent(dest), 0, f.walkStat) == None;
    }
  }

  lemma BlockedAtParent(t: Tree, p: Path)
    requires Blocked(t, p)
    ensures Blocked(t, Parent(p)) || (Parent(p) in t && !t[Parent(p)].Folder?)
  {
    var n :| 0 <= n < |p| && p[..n] in t && !t[p[..n]].Folder?;
    if n == |p| - 1 {
      assert Parent(p) == p[..n];
    } else {
      assert Parent(p)[..n] == p[..n];
    }
  }
}
