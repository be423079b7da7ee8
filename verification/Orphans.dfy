/** The cgroup directories of the node and the cleanup of those that belong to no local job. */
module Orphans {
  import opened Collections
  import opened UnitNames

  type Path = string
  type Dirs = map<Path, set<Bytes>>

  // ---------- which names a cleanup may touch ----------

  /** A job directory whose job is not local and that does not already carry an orphan id. */
  predicate Renamable(n: Naming, local: set<Bytes>, name: Bytes) {
    IsJobName(n, name) && DirJob(n, name).Some? && DirJob(n, name).value !in local && !EndsWith(DirJob(n, name).value, ORPHAN)
  }

  /** A name that a cleanup neither renames nor removes. */
  predicate Spared(n: Naming, local: set<Bytes>, name: Bytes) {
    !Renamable(n, local, name) && !IsOrphanName(n, name)
  }

  lemma RenamableIsNoOrphan(n: Naming, local: set<Bytes>, name: Bytes)
    requires Renamable(n, local, name)
    ensures !EndsWith(name, ORPHAN) && !IsOrphanName(n, name)
  {
    if EndsWith(name, ORPHAN) {
      OrphanNameDecodes(n, name);
    }
  }

  /** The directory of a local job is spared, whatever else is going on. */
  lemma LocalIsSpared(n: Naming, local: set<Bytes>, jobid: Bytes)
    requires n.Valid() && jobid in local && !EndsWith(jobid, ORPHAN)
    ensures Spared(n, local, JobDir(n, jobid))
  {
    DirRoundTrip(n, jobid);
    NoOrphanDir(n, jobid);
  }

  lemma NoOrphanDir(n: Naming, jobid: Bytes)
    requires !EndsWith(jobid, ORPHAN)
    ensures !EndsWith(JobDir(n, jobid), ORPHAN) && !IsOrphanName(n, JobDir(n, jobid))
  {
    if n.slices {
      var name := JobDir(n, jobid);
      assert name[|name| - 1] == SLICE[5] == 'e';
      assert ORPHAN[6] == 'n';
      assert |name| >= 7 ==> name[|name| - 7..][6] == 'e';
    }
  }

  // ---------- what one visit of a directory does ----------

  /** Safety: spared names stay, and only renamed directories appear. */
  ghost predicate VisitSafe(n: Naming, local: set<Bytes>, b: set<Bytes>, c: set<Bytes>) {
    && (forall x :: x in b && Spared(n, local, x) ==> x in c)
    && (forall y :: y in c && y !in b ==> Orphaned(n, local, b, y))
  }

  ghost predicate Orphaned(n: Naming, local: set<Bytes>, b: set<Bytes>, y: Bytes) {
    exists x :: x in b && Renamable(n, local, x) && y == x + ORPHAN
  }

  /** Progress: what is left besides spared names was blocked by an orphan of the same name. */
  ghost predicate VisitClear(n: Naming, local: set<Bytes>, b: set<Bytes>, c: set<Bytes>) {
    forall x :: x in c && !Spared(n, local, x) ==> !IsOrphanName(n, x) && x in b && x + ORPHAN in b
  }

  /** Every job name under every path stands for some id. */
  ghost predicate Decodable(n: Naming, dirs: Dirs) {
    forall p, x :: p in dirs && x in dirs[p] && IsJobName(n, x) ==> DirJob(n, x).Some?
  }

  ghost predicate AllSafe(n: Naming, local: set<Bytes>, b: Dirs, c: Dirs) {
    b.Keys == c.Keys && forall p :: p in b ==> VisitSafe(n, local, b[p], c[p])
  }

  ghost predicate AllClear(n: Naming, local: set<Bytes>, b: Dirs, c: Dirs, paths: set<Path>) {
    forall p :: p in paths && p in b && p in c ==> VisitClear(n, local, b[p], c[p])
  }

  lemma RenamableIsNew(n: Naming, local: set<Bytes>, a: set<Bytes>, x: Bytes)
    requires Renamable(n, local, x)
    ensures !Orphaned(n, local, a, x)
  {
    RenamableIsNoOrphan(n, local, x);
    forall z | z in a ensures x != z + ORPHAN {
      assert EndsWith(z + ORPHAN, ORPHAN);
    }
  }

  lemma SafeTwice(n: Naming, local: set<Bytes>, a: set<Bytes>, b: set<Bytes>, c: set<Bytes>)
    requires VisitSafe(n, local, a, b) && VisitSafe(n, local, b, c)
    ensures VisitSafe(n, local, a, c)
  {
    forall y | y in c && y !in a ensures Orphaned(n, local, a, y) {
      if y !in b {
        var x :| x in b && Renamable(n, local, x) && y == x + ORPHAN;
        RenamableIsNew(n, local, a, x);
      }
    }
  }

  lemma ClearTwice(n: Naming, local: set<Bytes>, a: set<Bytes>, b: set<Bytes>, c: set<Bytes>)
    requires VisitClear(n, local, a, b) && VisitSafe(n, local, a, b) && VisitClear(n, local, b, c)
    ensures VisitClear(n, local, a, c)
  {
    forall x | x in c && !Spared(n, local, x) ensures !IsOrphanName(n, x) && x in a && x + ORPHAN in a {
      assert x in b && x + ORPHAN in b;
      OrphanOf(n, x);
    }
  }

  // ---------- the tree ----------

  /**
   * The directories under each controller path, with the kernel's answers left open. On a `reliable`
   * kernel removals succeed, renames fail only on an existing target, and nothing raises.
   */
  class CgroupTree {
    var dirs: Dirs
    const reliable: bool

    constructor (dirs: Dirs, reliable: bool)
      ensures this.dirs == dirs && this.reliable == reliable
    {
      this.dirs := dirs;
      this.reliable := reliable;
    }

    method Rename(path: Path, from: Bytes, target: Bytes) returns (ok: bool)
      requires path in dirs
      modifies this
      ensures ok ==> from in old(dirs[path]) && target !in old(dirs[path])
      ensures dirs == if ok then old(dirs)[path := old(dirs[path]) - {from} + {target}] else old(dirs)
      ensures reliable && from in old(dirs[path]) && target !in old(dirs[path]) ==> ok
    {
      ok := *;
      ok := (ok || reliable) && from in dirs[path] && target !in dirs[path];
      if ok {
        dirs := dirs[path := dirs[path] - {from} + {target}];
      }
    }

    /** Remove one directory. The result may be true although the directory is still there, but not the reverse. */
    method Remove(path: Path, name: Bytes) returns (result: bool, raised: bool)
      requires path in dirs
      modifies this
      ensures dirs == old(dirs) || dirs == old(dirs)[path := old(dirs[path]) - {name}]
      ensures !result ==> dirs == old(dirs)
      ensures reliable ==> !raised && result && name !in dirs[path]
    {
      var removed: bool := *;
      raised := *;
      result := *;
      removed, raised := removed || reliable, raised && !reliable;
      result := result || removed;
      if removed {
        dirs := dirs[path := dirs[path] - {name}];
      }
    }

    /** Remove every directory not associated with a local job, under each of the given paths in turn. */
    method CleanupOrphans(n: Naming, paths: seq<Path>, local: set<Bytes>) returns (remaining: nat, raised: bool)
      requires Elements(paths) <= dirs.Keys
      modifies this
      ensures AllSafe(n, local, old(dirs), dirs)
      ensures forall p :: p in dirs && p !in paths ==> dirs[p] == old(dirs[p])
      ensures reliable && !raised ==> AllClear(n, local, old(dirs), dirs, Elements(paths))
      ensures reliable && Decodable(n, old(dirs)) ==> !raised
      ensures reliable ==> remaining == 0
      ensures !raised && remaining > 0 && Distinct(paths) ==> OrphanLeft(n, dirs, Elements(paths))
    {
      remaining := 0;
      ghost var before := dirs;
      var i := 0;
      while i < |paths|
        invariant 0 <= i <= |paths| && Elements(paths) <= dirs.Keys
        invariant AllSafe(n, local, before, dirs)
        invariant forall p :: p in dirs && p !in paths[..i] ==> dirs[p] == before[p]
        invariant reliable ==> AllClear(n, local, before, dirs, Elements(paths[..i]))
        invariant reliable && Decodable(n, before) ==> Decodable(n, dirs)
        invariant reliable ==> remaining == 0
        invariant remaining > 0 && Distinct(paths) ==> OrphanLeft(n, dirs, Elements(paths[..i]))
      {
        var path := paths[i];
        assert path in Elements(paths);
        ghost var mid := dirs;
        var more;
        more, raised := VisitPath(n, path, local);
        VisitMore(n, local, before, mid, dirs, paths, i, reliable && !raised);
        if reliable && !raised {
          NothingAppears(n, local, mid[path], dirs[path]);
        }
        if !raised {
          OrphansStay(n, mid, dirs, paths, i, remaining > 0, more > 0);
        }
        remaining := remaining + more;
        i := i + 1;
        if raised {
          return;
        }
      }
      assert paths[..i] == paths;
      raised := false;
    }

    /** The two loops for one path: rename what is not local, then remove what carries the suffix. */
    method VisitPath(n: Naming, path: Path, local: set<Bytes>) returns (remaining: nat, raised: bool)
      requires path in dirs
      modifies this
      ensures dirs.Keys == old(dirs).Keys && forall p :: p in dirs && p != path ==> dirs[p] == old(dirs[p])
      ensures VisitSafe(n, local, old(dirs[path]), dirs[path])
      ensures reliable && !raised ==> VisitClear(n, local, old(dirs[path]), dirs[path])
      ensures reliable && (forall x :: x in old(dirs[path]) && IsJobName(n, x) ==> DirJob(n, x).Some?) ==> !raised
      ensures reliable ==> remaining == 0
      ensures !raised && remaining > 0 ==> OrphanLeft(n, dirs, {path})
    {
      remaining := 0;
      ghost var b := dirs[path];
      raised := RenameOrphans(n, path, local);
      if raised {
        return;
      }
      ghost var c := dirs[path];
      remaining, raised := RemoveOrphans(n, path);
      if !raised && remaining > 0 {
        SweptLeaves(n, c, dirs[path], remaining);
      }
      VisitBoth(n, local, b, c, dirs[path], reliable && !raised);
    }

    method RenameOrphans(n: Naming, path: Path, local: set<Bytes>) returns (raised: bool)
      requires path in dirs
      modifies this
      ensures dirs.Keys == old(dirs).Keys && forall p :: p in dirs && p != path ==> dirs[p] == old(dirs[p])
      ensures VisitSafe(n, local, old(dirs[path]), dirs[path])
      ensures reliable && !raised ==>
        forall x :: x in dirs[path] && Renamable(n, local, x) ==> x in old(dirs[path]) && x + ORPHAN in old(dirs[path])
      ensures (forall x :: x in old(dirs[path]) && IsJobName(n, x) ==> DirJob(n, x).Some?) ==> !raised
    {
      ghost var b := dirs[path];
      var names := set x | x in dirs[path] && IsJobName(n, x);
      var todo := names;
      while todo != {}
        invariant todo <= names <= b && forall x :: x in names ==> IsJobName(n, x)
        invariant dirs.Keys == old(dirs).Keys && forall p :: p in dirs && p != path ==> dirs[p] == old(dirs[p])
        invariant VisitSafe(n, local, b, dirs[path]) && todo <= dirs[path]
        invariant forall x :: x in todo && x + ORPHAN in dirs[path] ==> x + ORPHAN in b
        invariant reliable ==> forall x :: x in dirs[path] && Renamable(n, local, x) ==>
          x in b && (x in todo || x + ORPHAN in b)
      {
        var subdir :| subdir in todo;
        todo := todo - {subdir};
        var jobid := DirJob(n, subdir);
        if jobid.None? {
          return true;
        }
        if jobid.value in local || EndsWith(jobid.value, ORPHAN) {
          continue;
        }
        ghost var c := dirs[path];
        var ok := Rename(path, subdir, subdir + ORPHAN);
        RenamedSafe(n, local, b, c, subdir, ok, reliable, todo);
      }
      return false;
    }

    method RemoveOrphans(n: Naming, path: Path) returns (remaining: nat, raised: bool)
      requires path in dirs
      modifies this
      ensures dirs.Keys == old(dirs).Keys && forall p :: p in dirs && p != path ==> dirs[p] == old(dirs[p])
      ensures dirs[path] <= old(dirs[path])
      ensures forall x :: x in old(dirs[path]) && !IsOrphanName(n, x) ==> x in dirs[path]
      ensures reliable ==> !raised && remaining == 0 && forall x :: x in dirs[path] ==> !IsOrphanName(n, x)
      ensures !raised ==> Swept(n, old(dirs[path]), dirs[path], remaining)
    {
      remaining := 0;
      ghost var b := dirs[path];
      var todo := set x | x in dirs[path] && IsOrphanName(n, x);
      SweepStart(n, b, reliable);
      assert todo == OrphanNames(n, b);
      while todo != {}
        invariant dirs.Keys == old(dirs).Keys && forall p :: p in dirs && p != path ==> dirs[p] == old(dirs[p])
        invariant Sweeping(n, b, dirs[path], todo, remaining, reliable)
      {
        var subdir :| subdir in todo;
        var result;
        result, raised := RemoveOne(n, path, subdir, b, todo, remaining);
        todo := todo - {subdir};
        remaining := if result then remaining else remaining + 1;
        if raised {
          SweptSafe(n, b, dirs[path], todo, remaining, reliable);
          return;
        }
      }
      raised := false;
      SweepEnd(n, b, dirs[path], remaining, reliable);
    }

    method RemoveOne(n: Naming, path: Path, name: Bytes, ghost b: set<Bytes>, ghost todo: set<Bytes>, ghost remaining: nat)
      returns (result: bool, raised: bool)
      requires path in dirs && name in todo && Sweeping(n, b, dirs[path], todo, remaining, reliable)
      modifies this
      ensures dirs.Keys == old(dirs).Keys && forall p :: p in dirs && p != path ==> dirs[p] == old(dirs[p])
      ensures Sweeping(n, b, dirs[path], todo - {name}, if result then remaining else remaining + 1, reliable)
      ensures reliable ==> !raised
    {
      ghost var c := dirs[path];
      result, raised := Remove(path, name);
      SweepStep(n, b, c, dirs[path], todo, remaining, reliable, name, result);
    }
  }

  // ---------- what the count of failed removals means ----------

  ghost function OrphanNames(n: Naming, b: set<Bytes>): set<Bytes> {
    set x | x in b && IsOrphanName(n, x)
  }

  /** A sweep removes orphans only, and reports at most as many failures as it leaves orphans behind. */
  ghost predicate Swept(n: Naming, b: set<Bytes>, c: set<Bytes>, remaining: nat) {
    c <= b && b - OrphanNames(n, b) <= c && remaining <= |OrphanNames(n, c)|
  }

  ghost predicate OrphanLeft(n: Naming, dirs: Dirs, paths: set<Path>) {
    exists p :: p in paths && p in dirs && OrphanNames(n, dirs[p]) != {}
  }

  lemma SweptLeaves(n: Naming, b: set<Bytes>, c: set<Bytes>, remaining: nat)
    requires Swept(n, b, c, remaining) && remaining > 0
    ensures OrphanNames(n, c) != {}
  {
  }

  /** A count of zero does not mean clean: it is reported for whatever a sweep leaves, even for everything. */
  lemma ZeroIsNotClean(n: Naming, b: set<Bytes>, c: set<Bytes>)
    requires b - OrphanNames(n, b) <= c <= b
    ensures Swept(n, b, c, 0)
    ensures forall remaining: nat :: Swept(n, b, c, remaining) <==> remaining <= |OrphanNames(n, c)|
  {
  }

  /** A sweep of `b` under way: `c` is there, `todo` is still to be removed. */
  ghost predicate Sweeping(n: Naming, b: set<Bytes>, c: set<Bytes>, todo: set<Bytes>, remaining: nat, reliable: bool) {
    && c <= b && b - OrphanNames(n, b) <= c && todo <= OrphanNames(n, c)
    && remaining <= |OrphanNames(n, c) - todo|
    && (reliable ==> remaining == 0 && OrphanNames(n, c) <= todo)
  }

  lemma SweepStart(n: Naming, b: set<Bytes>, reliable: bool)
    ensures Sweeping(n, b, b, OrphanNames(n, b), 0, reliable)
  {
  }

  lemma SweepStep(n: Naming, b: set<Bytes>, c: set<Bytes>, d: set<Bytes>, todo: set<Bytes>, remaining: nat, reliable: bool,
                  x: Bytes, result: bool)
    requires Sweeping(n, b, c, todo, remaining, reliable) && x in todo && (d == c || d == c - {x})
    requires !result ==> d == c
    requires reliable ==> result && x !in d
    ensures Sweeping(n, b, d, todo - {x}, if result then remaining else remaining + 1, reliable)
  {
    if d == c {
      assert OrphanNames(n, d) - (todo - {x}) == (OrphanNames(n, c) - todo) + {x};
    } else {
      assert OrphanNames(n, d) - (todo - {x}) == OrphanNames(n, c) - todo;
    }
  }

  lemma SweptSafe(n: Naming, b: set<Bytes>, c: set<Bytes>, todo: set<Bytes>, remaining: nat, reliable: bool)
    requires Sweeping(n, b, c, todo, remaining, reliable)
    ensures c <= b && forall x :: x in b && !IsOrphanName(n, x) ==> x in c
  {
    assert forall x :: x in b && !IsOrphanName(n, x) ==> x in b - OrphanNames(n, b);
  }

  lemma SweepEnd(n: Naming, b: set<Bytes>, c: set<Bytes>, remaining: nat, reliable: bool)
    requires Sweeping(n, b, c, {}, remaining, reliable)
    ensures Swept(n, b, c, remaining)
    ensures forall x :: x in b && !IsOrphanName(n, x) ==> x in c
    ensures reliable ==> remaining == 0 && forall x :: x in c ==> !IsOrphanName(n, x)
  {
    assert OrphanNames(n, c) - {} == OrphanNames(n, c);
    assert forall x :: x in b && !IsOrphanName(n, x) ==> x in b - OrphanNames(n, b);
    assert forall x :: x in c && IsOrphanName(n, x) ==> x in OrphanNames(n, c);
  }

  /** What was left under earlier paths stays while another path is visited. */
  lemma OrphansStay(n: Naming, mid: Dirs, after: Dirs, paths: seq<Path>, i: nat, before: bool, now: bool)
    requires i < |paths| && paths[i] in mid && after.Keys == mid.Keys
    requires forall p :: p in mid && p != paths[i] ==> after[p] == mid[p]
    requires before && Distinct(paths) ==> OrphanLeft(n, mid, Elements(paths[..i]))
    requires now ==> OrphanLeft(n, after, {paths[i]})
    ensures (before || now) && Distinct(paths) ==> OrphanLeft(n, after, Elements(paths[..i + 1]))
  {
    assert paths[..i + 1] == paths[..i] + [paths[i]];
    if before && Distinct(paths) {
      var p :| p in Elements(paths[..i]) && p in mid && OrphanNames(n, mid[p]) != {};
      assert p in Elements(paths[..i + 1]) && OrphanNames(n, after[p]) != {};
    } else if now {
      assert paths[i] in Elements(paths[..i + 1]) && OrphanNames(n, after[paths[i]]) != {};
    }
  }

  lemma RenamedSafe(n: Naming, local: set<Bytes>, b: set<Bytes>, c: set<Bytes>, x: Bytes, ok: bool, reliable: bool, todo: set<Bytes>)
    requires VisitSafe(n, local, b, c) && x in b && Renamable(n, local, x) && todo + {x} <= c && x !in todo
    requires ok ==> x + ORPHAN !in c
    requires forall y :: y in todo + {x} && y + ORPHAN in c ==> y + ORPHAN in b
    ensures !Spared(n, local, x) && !Renamable(n, local, x + ORPHAN)
    ensures ok ==> VisitSafe(n, local, b, c - {x} + {x + ORPHAN}) && todo <= c - {x} + {x + ORPHAN}
    ensures forall y :: y in todo ==> y + ORPHAN != x + ORPHAN
  {
    if Renamable(n, local, x + ORPHAN) {
      RenamableIsNoOrphan(n, local, x + ORPHAN);
      assert EndsWith(x + ORPHAN, ORPHAN);
    }
    assert Orphaned(n, local, b, x + ORPHAN);
    forall y | y in todo ensures y + ORPHAN != x + ORPHAN {
      assert (y + ORPHAN)[..|y + ORPHAN| - |ORPHAN|] == y && (x + ORPHAN)[..|x + ORPHAN| - |ORPHAN|] == x;
    }
  }

  lemma VisitBoth(n: Naming, local: set<Bytes>, b: set<Bytes>, c: set<Bytes>, d: set<Bytes>, complete: bool)
    requires VisitSafe(n, local, b, c) && d <= c
    requires forall x :: x in c && !IsOrphanName(n, x) ==> x in d
    requires complete ==> forall x :: x in c && Renamable(n, local, x) ==> x in b && x + ORPHAN in b
    requires complete ==> forall x :: x in d ==> !IsOrphanName(n, x)
    ensures VisitSafe(n, local, b, d)
    ensures complete ==> VisitClear(n, local, b, d)
  {
  }

  /** After a complete visit no name is there that was not there before: what was renamed is removed again. */
  lemma NothingAppears(n: Naming, local: set<Bytes>, b: set<Bytes>, c: set<Bytes>)
    requires VisitSafe(n, local, b, c) && VisitClear(n, local, b, c)
    ensures c <= b
  {
    forall y | y in c ensures y in b {
      if y !in b {
        var x :| x in b && Renamable(n, local, x) && y == x + ORPHAN;
        OrphanOf(n, x);
      }
    }
  }

  lemma VisitMore(n: Naming, local: set<Bytes>, before: Dirs, mid: Dirs, after: Dirs, paths: seq<Path>, i: nat, complete: bool)
    requires i < |paths| && paths[i] in mid && after.Keys == mid.Keys && AllSafe(n, local, before, mid)
    requires forall p :: p in mid && p != paths[i] ==> after[p] == mid[p]
    requires forall p :: p in mid && p !in paths[..i] ==> mid[p] == before[p]
    requires VisitSafe(n, local, mid[paths[i]], after[paths[i]])
    requires complete ==> VisitClear(n, local, mid[paths[i]], after[paths[i]]) && AllClear(n, local, before, mid, Elements(paths[..i]))
    ensures AllSafe(n, local, before, after)
    ensures forall p :: p in after && p !in paths[..i + 1] ==> after[p] == before[p]
    ensures complete ==> AllClear(n, local, before, after, Elements(paths[..i + 1]))
  {
    var q := paths[i];
    assert paths[..i + 1] == paths[..i] + [q];
    forall p | p in before ensures VisitSafe(n, local, before[p], after[p]) {
      if p == q {
        SafeTwice(n, local, before[q], mid[q], after[q]);
      }
    }
    if complete {
      forall p | p in Elements(paths[..i + 1]) && p in before && p in after ensures VisitClear(n, local, before[p], after[p]) {
        if p == q && q in paths[..i] {
          ClearTwice(n, local, before[q], mid[q], after[q]);
        }
      }
    }
  }

  /** A cleanup never touches the directory of a local job. */
  lemma LocalJobsSurvive(n: Naming, local: set<Bytes>, b: Dirs, c: Dirs, jobid: Bytes, p: Path)
    requires n.Valid() && AllSafe(n, local, b, c) && p in b
    requires jobid in local && !EndsWith(jobid, ORPHAN)
    requires JobDir(n, jobid) in b[p]
    ensures JobDir(n, jobid) in c[p]
  {
    LocalIsSpared(n, local, jobid);
  }

  /**
   * After two complete cleanups nothing but spared names is left under the visited paths, even where a
   * directory and its orphan coexisted: the first call removes the orphan that blocks the rename.
   */
  lemma TwoCleanupsClear(n: Naming, local1: set<Bytes>, local2: set<Bytes>, a: Dirs, b: Dirs, c: Dirs, paths: set<Path>, p: Path)
    requires paths <= a.Keys && a.Keys == b.Keys == c.Keys && p in paths
    requires AllClear(n, local1, a, b, paths) && AllClear(n, local2, b, c, paths)
    ensures forall x :: x in c[p] ==> Spared(n, local2, x)
    ensures forall j: Bytes :: n.Valid() && j != [] && IsDigit(j[0]) && j !in local2 && !EndsWith(j, ORPHAN) ==> JobDir(n, j) !in c[p]
  {
    forall x | x in c[p] ensures Spared(n, local2, x) {
      if !Spared(n, local2, x) {
        assert x in b[p] && x + ORPHAN in b[p];
        OrphanOf(n, x);
      }
    }
    forall j: Bytes | n.Valid() && j != [] && IsDigit(j[0]) && j !in local2 && !EndsWith(j, ORPHAN)
      ensures JobDir(n, j) !in c[p]
    {
      JobDirFound(n, j);
      DirRoundTrip(n, j);
    }
  }

  /** A job id that ends in the orphan suffix escapes the cleanup for good when directories are slices. */
  lemma OrphanIdIsKept(n: Naming, local: set<Bytes>, jobid: Bytes)
    requires n.Valid() && n.slices && EndsWith(jobid, ORPHAN)
    ensures Spared(n, local, JobDir(n, jobid))
  {
    DirRoundTrip(n, jobid);
    var name := JobDir(n, jobid);
    assert name[|name| - 1] == SLICE[5] == 'e' && ORPHAN[6] == 'n';
    assert |name| >= 7 ==> name[|name| - 7..][6] == 'e';
  }
}
