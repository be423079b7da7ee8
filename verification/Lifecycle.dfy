/** The handlers as atomic steps of a protocol between jobs, the periodic cleanup and the server's job files. */
module Lifecycle {
  import opened Collections
  import opened UnitNames
  import opened JobsFile
  import opened Orphans

  /** The fixed surroundings: naming scheme, all controller paths in order, and the paths a job gets a directory in. */
  datatype Site = Site(n: Naming, paths: seq<Path>, jobPaths: set<Path>)

  /**
   * The state between two handler runs. `jb` are the jobs with a .JB file; `live` are those between their
   * completed begin and their epilogue or end, and `launched` those that have been launched or attached.
   */
  datatype World = World(file: Bytes, dirs: Dirs, jb: set<Bytes>, live: set<Bytes>, launched: set<Bytes>)

  /** Job ids are words, and none ends in the orphan suffix. */
  predicate GoodId(j: Bytes) {
    IsWord(j) && !EndsWith(j, ORPHAN)
  }

  ghost function Gathered(w: World): set<Bytes> {
    Ids(w.file) + w.jb
  }

  /**
   * `heard` says that every attempt of a begin or resize to gather the local jobs completed. `created` and
   * `cleaned` are the directories before and after a begin's resyncs.
   */
  datatype Event =
    | Begin(job: Bytes, ok: bool, heard: bool, deleted: Dirs, created: Dirs, cleaned: Dirs)
    | Resize(job: Bytes, heard: bool, cleaned: Dirs)
    | Launch(job: Bytes)
    | Attach(job: Bytes)
    | Epilogue(job: Bytes)
    | End(job: Bytes)
    | Periodic(snapshot: set<Bytes>)
    | WriteJobFile(job: Bytes)
    | RemoveJobFile(job: Bytes)

  /** Only directories of one job may have gone. */
  ghost predicate OnlyGone(s: Site, job: Bytes, b: Dirs, c: Dirs) {
    b.Keys == c.Keys && forall p :: p in b ==> c[p] <= b[p] <= c[p] + {JobDir(s.n, job)}
  }

  /** The job has a directory under each of its paths, and nothing else has changed. */
  ghost predicate Created(s: Site, job: Bytes, b: Dirs, c: Dirs) {
    b.Keys == c.Keys && forall p :: p in b ==> c[p] == if p in s.jobPaths then b[p] + {JobDir(s.n, job)} else b[p]
  }

  /** A begin that fails may have got anywhere with the job's directories. */
  ghost predicate PartlyCreated(s: Site, job: Bytes, b: Dirs, c: Dirs) {
    b.Keys == c.Keys && forall p :: p in b ==> b[p] <= c[p] <= b[p] + {JobDir(s.n, job)}
  }

  /** Name by name: creating adds the job's own directory under its paths, and deleting takes away at most that. */
  lemma OwnDirOnly(s: Site, job: Bytes, b: Dirs, c: Dirs, p: Path, x: Bytes)
    requires p in b
    ensures Created(s, job, b, c) ==> p in c && (x in c[p] <==> x in b[p] || (p in s.jobPaths && x == JobDir(s.n, job)))
    ensures OnlyGone(s, job, b, c) ==> p in c && (x in c[p] ==> x in b[p]) && (x in b[p] && x != JobDir(s.n, job) ==> x in c[p])
    ensures PartlyCreated(s, job, b, c) ==>
      p in c && (x in b[p] ==> x in c[p]) && (x in c[p] && x != JobDir(s.n, job) ==> x in b[p])
  {
  }

  /** The list a resync works from: a gathering that fails leaves it empty. */
  ghost function Listed(w: World, heard: bool): set<Bytes> {
    if heard then Gathered(w) else {}
  }

  /**
   * The resync after a failed placement: no cleanup if a nonempty job list lacks the job itself, else
   * cleanups with the gathered list.
   */
  ghost predicate Resynced(s: Site, job: Bytes, local: set<Bytes>, b: Dirs, c: Dirs) {
    c == b || ((local == {} || job in local) && AllSafe(s.n, local, b, c))
  }

  /**
   * The second attempt at a placement can only succeed where the first one failed if some job was suspended
   * or resumed in between, as both see the same table. Only jobs with a job file are ever seen suspended.
   */
  ghost predicate Reconsidered(w: World) {
    w.jb != {}
  }

  ghost predicate Step(s: Site, w: World, e: Event, t: World) {
    match e
    case Begin(j, ok, heard, deleted, created, cleaned) =>
      && GoodId(j)
      && OnlyGone(s, j, w.dirs, deleted)
      && (if ok then Created(s, j, deleted, created) else PartlyCreated(s, j, deleted, created))
      && Resynced(s, j, Listed(w, heard), created, cleaned) && (ok && cleaned != created ==> Reconsidered(w))
      && t.dirs == cleaned && t.jb == w.jb
      && (ok ==> Ids(t.file) == Ids(w.file) + {j}) && (!ok ==> t.file == w.file)
      && t.live == (if ok then w.live + {j} else w.live - {j}) && t.launched == w.launched - {j}
    case Resize(j, heard, cleaned) =>
      Resynced(s, j, Listed(w, heard), w.dirs, cleaned) && t == w.(dirs := cleaned)
    case Launch(j) =>
      j in w.jb && Ids(t.file) == Ids(w.file) - {j} && t == w.(file := t.file, launched := w.launched + {j})
    case Attach(j) =>
      j in w.jb && Ids(t.file) == Ids(w.file) - {j} && t == w.(file := t.file, launched := w.launched + {j})
    case Epilogue(j) => Finished(s, w, j, t)
    case End(j) => Finished(s, w, j, t)
    case Periodic(snapshot) =>
      AllSafe(s.n, snapshot + Gathered(w), w.dirs, t.dirs) && t == w.(dirs := t.dirs)
    case WriteJobFile(j) => t == w.(jb := w.jb + {j})
    case RemoveJobFile(j) =>
      !(j in w.live && j in w.launched) && t == w.(jb := w.jb - {j})
  }

  ghost predicate Finished(s: Site, w: World, j: Bytes, t: World) {
    && Ids(t.file) == Ids(w.file) - {j} && OnlyGone(s, j, w.dirs, t.dirs)
    && t == w.(file := t.file, dirs := t.dirs, live := w.live - {j}, launched := w.launched - {j})
  }

  /** Every live job is on record: in the side file until it is launched, with a job file afterwards. */
  ghost predicate Tracked(w: World) {
    forall j :: j in w.live ==> GoodId(j) && (if j in w.launched then j in w.jb else j in Ids(w.file))
  }

  lemma TrackedIsGathered(w: World, j: Bytes)
    requires Tracked(w) && j in w.live
    ensures j in Gathered(w)
  {
  }

  lemma {:induction false} StepTracked(s: Site, w: World, e: Event, t: World)
    requires Tracked(w) && Step(s, w, e, t)
    ensures Tracked(t)
  {
  }

  /** The job whose own begin, epilogue or end an event is. */
  predicate Concerns(e: Event, j: Bytes) {
    match e
    case Begin(k, _, _, _, _, _) => j == k
    case Epilogue(k) => j == k
    case End(k) => j == k
    case _ => false
  }

  /** No gathering failed. */
  predicate Heard(e: Event) {
    match e
    case Begin(_, _, heard, _, _, _) => heard
    case Resize(_, heard, _) => heard
    case _ => true
  }

  /** No step takes away the directory of a live job that it does not itself begin or finish. */
  lemma {:induction false} StepKeepsDirs(s: Site, w: World, e: Event, t: World, j: Bytes, p: Path)
    requires s.n.Valid() && Tracked(w) && Step(s, w, e, t) && j in w.live && !Concerns(e, j) && Heard(e)
    requires p in w.dirs && JobDir(s.n, j) in w.dirs[p]
    ensures j in t.live && p in t.dirs && JobDir(s.n, j) in t.dirs[p]
  {
    TrackedIsGathered(w, j);
    match e
    case Begin(k, ok, heard, deleted, created, cleaned) =>
      if JobDir(s.n, j) == JobDir(s.n, k) {
        DirInjective(s.n, j, k);
      }
      LocalIsSpared(s.n, Gathered(w), j);
    case Resize(k, heard, cleaned) =>
      LocalIsSpared(s.n, Gathered(w), j);
    case Periodic(snapshot) =>
      LocalIsSpared(s.n, snapshot + Gathered(w), j);
    case Epilogue(k) =>
      if JobDir(s.n, j) == JobDir(s.n, k) {
        DirInjective(s.n, j, k);
      }
    case End(k) =>
      if JobDir(s.n, j) == JobDir(s.n, k) {
        DirInjective(s.n, j, k);
      }
    case _ =>
  }

  ghost predicate Run(s: Site, states: seq<World>, events: seq<Event>) {
    |states| == |events| + 1 && forall i :: 0 <= i < |events| ==> Step(s, states[i], events[i], states[i + 1])
  }

  lemma {:induction false} TrackedForever(s: Site, states: seq<World>, events: seq<Event>, k: nat)
    requires Run(s, states, events) && k < |states| && Tracked(states[0])
    ensures Tracked(states[k])
  {
    if k > 0 {
      TrackedForever(s, states, events, k - 1);
      StepTracked(s, states[k - 1], events[k - 1], states[k]);
    }
  }

  /**
   * Orphan safety: in every interleaving of handlers, job-file updates and periodic cleanups with
   * arbitrarily stale snapshots, a live job keeps its directories until its own next begin, epilogue or end.
   */
  lemma {:induction false} LiveJobsKeepTheirCgroups(s: Site, states: seq<World>, events: seq<Event>, i: nat, k: nat, j: Bytes, p: Path)
    requires s.n.Valid() && Run(s, states, events) && i <= k < |states| && Tracked(states[0])
    requires j in states[i].live && p in states[i].dirs && JobDir(s.n, j) in states[i].dirs[p]
    requires forall x :: i <= x < k ==> !Concerns(events[x], j) && Heard(events[x])
    ensures j in states[k].live && p in states[k].dirs && JobDir(s.n, j) in states[k].dirs[p]
  {
    if i < k {
      LiveJobsKeepTheirCgroups(s, states, events, i, k - 1, j, p);
      TrackedForever(s, states, events, k - 1);
      StepKeepsDirs(s, states[k - 1], events[k - 1], states[k], j, p);
    }
  }

  /** A begin that resynced and was placed all the same found itself on its list, unless a gathering failed. */
  lemma ReconsideredIsListed(s: Site, w: World, e: Event, t: World)
    requires Step(s, w, e, t) && e.Begin? && e.ok && e.cleaned != e.created
    ensures Listed(w, e.heard) != {} <==> e.heard
    ensures e.heard ==> e.job in Gathered(w)
  {
    assert Any(w.jb) in Gathered(w);
  }

  /** A completed begin leaves the job with a directory under each of its paths. */
  lemma BeginLeavesDirs(s: Site, w: World, e: Event, t: World, p: Path)
    requires s.n.Valid() && Step(s, w, e, t) && e.Begin? && e.ok && e.heard && p in s.jobPaths && p in w.dirs
    ensures e.job in t.live && p in t.dirs && JobDir(s.n, e.job) in t.dirs[p]
  {
    if e.cleaned != e.created {
      ReconsideredIsListed(s, w, e, t);
      LocalIsSpared(s.n, Gathered(w), e.job);
    }
  }

  /** A begin that did its parts in order is a step, and leaves the directories. */
  lemma BeginSteps(s: Site, w: World, e: Event, t: World)
    requires s.n.Valid() && s.jobPaths <= w.dirs.Keys && e.Begin? && GoodId(e.job) && OnlyGone(s, e.job, w.dirs, e.deleted)
    requires Created(s, e.job, e.deleted, e.created) || (!e.ok && e.created == e.deleted)
    requires Resynced(s, e.job, Listed(w, e.heard), e.created, e.cleaned) && (e.ok && e.cleaned != e.created ==> Reconsidered(w))
    requires t.dirs == e.cleaned && t.jb == w.jb && t.launched == w.launched - {e.job}
    requires if e.ok then Ids(t.file) == Ids(w.file) + {e.job} && t.live == w.live - {e.job} + {e.job}
      else t.file == w.file && t.live == w.live - {e.job}
    ensures Step(s, w, e, t)
    ensures e.ok && e.heard ==> forall p :: p in s.jobPaths ==> p in t.dirs && JobDir(s.n, e.job) in t.dirs[p]
  {
    BeginLeavesAll(s, w, e, t);
  }

  lemma BeginLeavesAll(s: Site, w: World, e: Event, t: World)
    requires s.n.Valid() && Step(s, w, e, t) && e.Begin? && s.jobPaths <= w.dirs.Keys
    ensures e.ok && e.heard ==> forall p :: p in s.jobPaths ==> p in t.dirs && JobDir(s.n, e.job) in t.dirs[p]
  {
    if e.ok && e.heard {
      forall p | p in s.jobPaths ensures p in t.dirs && JobDir(s.n, e.job) in t.dirs[p] {
        BeginLeavesDirs(s, w, e, t, p);
      }
    }
  }

  /**
   * From its completed begin until its next begin, epilogue or end, a job has all its directories, in every
   * interleaving in which gathering completes.
   */
  lemma BegunJobsKeepTheirCgroups(s: Site, states: seq<World>, events: seq<Event>, i: nat, k: nat, p: Path)
    requires s.n.Valid() && Run(s, states, events) && i < k < |states| && Tracked(states[0])
    requires events[i].Begin? && events[i].ok && p in s.jobPaths && p in states[i].dirs
    requires forall x :: i <= x < k ==> Heard(events[x])
    requires forall x :: i < x < k ==> !Concerns(events[x], events[i].job)
    ensures events[i].job in states[k].live && p in states[k].dirs && JobDir(s.n, events[i].job) in states[k].dirs[p]
  {
    BeginLeavesDirs(s, states[i], events[i], states[i + 1], p);
    LiveJobsKeepTheirCgroups(s, states, events, i + 1, k, events[i].job, p);
  }

  /** Every live job has a directory under each of its paths. */
  ghost predicate OnDisk(s: Site, w: World) {
    s.jobPaths <= w.dirs.Keys && forall j, p :: j in w.live && p in s.jobPaths ==> JobDir(s.n, j) in w.dirs[p]
  }

  lemma {:induction false} StepOnDisk(s: Site, w: World, e: Event, t: World)
    requires s.n.Valid() && Tracked(w) && OnDisk(s, w) && Step(s, w, e, t) && Heard(e)
    ensures OnDisk(s, t)
  {
    forall j, p | j in t.live && p in s.jobPaths ensures p in t.dirs && JobDir(s.n, j) in t.dirs[p] {
      if Concerns(e, j) {
        BeginLeavesDirs(s, w, e, t, p);
      } else {
        StepKeepsDirs(s, w, e, t, j, p);
      }
    }
    KeysStay(s, w, e, t);
  }

  lemma KeysStay(s: Site, w: World, e: Event, t: World)
    requires Step(s, w, e, t)
    ensures t.dirs.Keys == w.dirs.Keys
  {
  }

  /** In every run in which gathering completes, every live job has all its directories at every moment. */
  lemma {:induction false} OnDiskForever(s: Site, states: seq<World>, events: seq<Event>, k: nat)
    requires s.n.Valid() && Run(s, states, events) && k < |states| && Tracked(states[0]) && OnDisk(s, states[0])
    requires forall x :: 0 <= x < k ==> Heard(events[x])
    ensures Tracked(states[k]) && OnDisk(s, states[k])
  {
    if k > 0 {
      OnDiskForever(s, states, events, k - 1);
      StepTracked(s, states[k - 1], events[k - 1], states[k]);
      StepOnDisk(s, states[k - 1], events[k - 1], states[k]);
    }
  }

  // ---------- what an incomplete list does ----------

  /** A complete visit keeps the directory of a job, not blocked by an orphan, exactly if the job is on the list. */
  lemma VisitDecides(s: Site, local: set<Bytes>, b: Dirs, c: Dirs, j: Bytes, p: Path)
    requires s.n.Valid() && GoodId(j) && IsDigit(j[0]) && p in b && p in c
    requires AllSafe(s.n, local, b, c) && AllClear(s.n, local, b, c, {p})
    requires JobDir(s.n, j) in b[p] && JobDir(s.n, j) + ORPHAN !in b[p]
    ensures JobDir(s.n, j) in c[p] <==> j in local
  {
    if j in local {
      LocalIsSpared(s.n, local, j);
    } else {
      Cleanable(s.n, local, j);
    }
  }

  lemma Cleanable(n: Naming, local: set<Bytes>, j: Bytes)
    requires n.Valid() && GoodId(j) && IsDigit(j[0]) && j !in local
    ensures !Spared(n, local, JobDir(n, j))
  {
    DirRoundTrip(n, j);
    JobDirFound(n, j);
  }

  /**
   * So a begin that is placed after a resync on a reliable kernel, because a suspension changed meanwhile,
   * keeps its own new directory exactly if gathering completed.
   */
  lemma OwnResyncIff(s: Site, w: World, e: Event, t: World, p: Path)
    requires s.n.Valid() && Step(s, w, e, t) && e.Begin? && e.ok && IsDigit(e.job[0])
    requires p in s.jobPaths && p in w.dirs && e.cleaned != e.created
    requires AllClear(s.n, Listed(w, e.heard), e.created, e.cleaned, {p}) && JobDir(s.n, e.job) + ORPHAN !in e.created[p]
    ensures JobDir(s.n, e.job) in t.dirs[p] <==> e.heard
  {
    ReconsideredIsListed(s, w, e, t);
    VisitDecides(s, Listed(w, e.heard), e.created, e.cleaned, e.job, p);
  }

  /** What complete cleanups with an empty list make of the directories. */
  ghost function Cleared(n: Naming, b: Dirs): Dirs {
    map p | p in b :: set x | x in b[p] && Spared(n, {}, x)
  }

  lemma ClearedIsClean(n: Naming, b: Dirs)
    ensures AllSafe(n, {}, b, Cleared(n, b)) && AllClear(n, {}, b, Cleared(n, b), b.Keys)
  {
  }

  /** The directories once those of a job are created. */
  ghost function WithDirs(s: Site, j: Bytes, b: Dirs): (c: Dirs)
    ensures Created(s, j, b, c)
  {
    map p | p in b :: if p in s.jobPaths then b[p] + {JobDir(s.n, j)} else b[p]
  }

  /** A begin of job `k` that creates its directories, fails to place it, hears of no job, and resyncs completely. */
  ghost function DeafBegin(s: Site, w: World, k: Bytes): Event {
    var created := WithDirs(s, k, w.dirs);
    Begin(k, false, false, w.dirs, created, Cleared(s.n, created))
  }

  /**
   * The hypothesis that gathering completes is needed: in every world in which all live jobs are on record,
   * the begin of another job whose gathering fails may take away the directory of any live job.
   */
  lemma EmptyListOrphansEveryone(s: Site, w: World, j: Bytes, k: Bytes, p: Path)
    requires s.n.Valid() && Tracked(w) && j in w.live && IsDigit(j[0]) && GoodId(k) && k != j
    requires p in w.dirs && JobDir(s.n, j) in w.dirs[p]
    ensures var e := DeafBegin(s, w, k);
      var t := w.(dirs := e.cleaned, live := w.live - {k}, launched := w.launched - {k});
      && Step(s, w, e, t) && !Concerns(e, j) && Tracked(t)
      && j in t.live && p in t.dirs && JobDir(s.n, j) !in t.dirs[p]
  {
    var e := DeafBegin(s, w, k);
    ClearedIsClean(s.n, e.created);
    Cleanable(s.n, {}, j);
    DeafStep(s, w, e, w.(dirs := e.cleaned, live := w.live - {k}, launched := w.launched - {k}));
  }

  lemma DeafStep(s: Site, w: World, e: Event, t: World)
    requires Tracked(w) && e.Begin? && !e.ok && !e.heard && GoodId(e.job) && e.deleted == w.dirs
    requires Created(s, e.job, w.dirs, e.created) && AllSafe(s.n, {}, e.created, e.cleaned)
    requires t == w.(dirs := e.cleaned, live := w.live - {e.job}, launched := w.launched - {e.job})
    ensures Step(s, w, e, t) && Tracked(t)
  {
  }

  // ---------- the handlers ----------

  /** What a begin or resize meets: whether each placement succeeds, and whether the side file opens for each resync. */
  datatype Chances = Chances(first: bool, second: bool, opens1: bool, opens2: bool)

  /** Unless the list lacks the job, what it does not spare is gone, if not blocked by an orphan. */
  ghost predicate CleanedUp(s: Site, job: Bytes, list: set<Bytes>, b: Dirs, c: Dirs) {
    list == {} || job in list ==> AllClear(s.n, list, b, c, Elements(s.paths))
  }

  /**
   * What two attempts at a placement come to, from the directories `b` to `c`. The last resync, after the
   * second attempt if that fails, decides what is left on a reliable kernel.
   */
  ghost predicate Configured(s: Site, w: World, job: Bytes, m: Chances, reliable: bool, ok: bool, heard: bool, raised: bool,
                             b: Dirs, c: Dirs) {
    && Resynced(s, job, Listed(w, heard), b, c)
    && (ok <==> !raised && if w.jb == {} then m.first else m.second)
    && (!raised ==> (heard <==> (m.first || m.opens1) && (ok || m.opens2)))
    && ((ok && m.first) || (heard && Gathered(w) != {} && job !in Gathered(w)) ==> c == b)
    && (reliable && !raised && !(ok && m.first) ==> CleanedUp(s, job, Listed(w, if ok then m.opens1 else m.opens2), b, c))
  }

  /** Only the side file and the job files matter to the attempts. */
  lemma SameLists(s: Site, w: World, v: World, job: Bytes, m: Chances, reliable: bool, ok: bool, heard: bool, raised: bool, c: Dirs)
    requires w.file == v.file && w.jb == v.jb && Configured(s, v, job, m, reliable, ok, heard, raised, v.dirs, c)
    ensures Configured(s, w, job, m, reliable, ok, heard, raised, v.dirs, c)
  {
  }

  /** The hook's persistent surroundings on one node, with its handlers as methods. */
  class Mom {
    const s: Site
    const file: SideFile
    const tree: CgroupTree
    var jb: set<Bytes>
    ghost var live: set<Bytes>
    ghost var launched: set<Bytes>

    ghost predicate Valid()
      reads this, tree
    {
      s.n.Valid() && Elements(s.paths) == tree.dirs.Keys && s.jobPaths <= tree.dirs.Keys
    }

    ghost function Now(): World
      reads this, file, tree
    {
      World(file.content, tree.dirs, jb, live, launched)
    }

    /** A node without jobs: every live job is trivially on record. */
    constructor (s: Site, reliable: bool)
      requires s.n.Valid() && s.jobPaths <= Elements(s.paths)
      ensures Valid() && Tracked(Now()) && OnDisk(s, Now()) && this.s == s && tree.reliable == reliable
      ensures fresh(file) && fresh(tree)
    {
      this.s := s;
      file := new SideFile();
      tree := new CgroupTree(map p | p in Elements(s.paths) :: {}, reliable);
      jb, live, launched := {}, {}, {};
    }

    /** The ids in the side file and the job files; nothing if the side file cannot be opened. */
    method Gather(opens: bool) returns (jobs: Option<set<Bytes>>)
      ensures jobs == if opens then Some(Gathered(Now())) else None
    {
      if !opens {
        return None;
      }
      var ids := file.Read();
      return Some(Elements(ids) + jb);
    }

    /** All removals and decodings succeed. */
    ghost predicate Sound()
      reads this, tree
    {
      tree.reliable && Decodable(s.n, tree.dirs)
    }

    /** Besides, the pattern finds the job's directories. */
    ghost predicate Deletable(job: Bytes)
      reads this, tree
    {
      Sound() && s.n.Valid() && IsJobName(s.n, JobDir(s.n, job))
    }

    /** Delete the job's directories: all paths are searched, and only the job's own directory is removed. */
    method Delete(job: Bytes) returns (raised: bool)
      requires Valid()
      modifies tree
      ensures Valid() && OnlyGone(s, job, old(tree.dirs), tree.dirs)
      ensures old(Sound()) ==> !raised
      ensures old(Deletable(job)) ==> forall p :: p in tree.dirs ==> JobDir(s.n, job) !in tree.dirs[p]
    {
      var i := 0;
      while i < |s.paths|
        invariant 0 <= i <= |s.paths| && Valid() && OnlyGone(s, job, old(tree.dirs), tree.dirs)
        invariant old(Sound()) ==> Sound()
        invariant old(Deletable(job)) ==> forall p :: p in s.paths[..i] ==> p in tree.dirs && JobDir(s.n, job) !in tree.dirs[p]
      {
        assert s.paths[i] in Elements(s.paths);
        assert s.paths[..i + 1] == s.paths[..i] + [s.paths[i]];
        raised := DeleteUnder(s.paths[i], job);
        if raised {
          return;
        }
        i := i + 1;
      }
      raised := false;
      assert s.paths[..i] == s.paths;
      assert forall p :: p in tree.dirs ==> p in Elements(s.paths);
    }

    method DeleteUnder(path: Path, job: Bytes) returns (raised: bool)
      requires path in tree.dirs
      modifies tree
      ensures tree.dirs.Keys == old(tree.dirs).Keys
      ensures OnlyGone(s, job, old(tree.dirs), tree.dirs)
      ensures old(Sound()) ==> !raised
      ensures old(Deletable(job)) ==> JobDir(s.n, job) !in tree.dirs[path]
    {
      var todo := set x | x in tree.dirs[path] && IsJobName(s.n, x);
      if s.n.Valid() {
        DirRoundTrip(s.n, job);
      }
      while todo != {}
        invariant todo <= old(tree.dirs[path]) && forall x :: x in todo ==> IsJobName(s.n, x)
        invariant OnlyGone(s, job, old(tree.dirs), tree.dirs)
        invariant old(Deletable(job)) && JobDir(s.n, job) in tree.dirs[path] ==> JobDir(s.n, job) in todo
      {
        var subdir :| subdir in todo;
        todo := todo - {subdir};
        var id := DirJob(s.n, subdir);
        if id.None? {
          return true;
        }
        if id.value != job {
          continue;
        }
        var result;
        result, raised := tree.Remove(path, JobDir(s.n, job));
        if raised {
          return;
        }
      }
      raised := false;
    }

    method Create(job: Bytes)
      requires Valid()
      modifies tree
      ensures Valid() && Created(s, job, old(tree.dirs), tree.dirs)
      ensures forall p :: p in s.jobPaths ==> JobDir(s.n, job) in tree.dirs[p]
    {
      tree.dirs := map p | p in tree.dirs ::
        if p in s.jobPaths then tree.dirs[p] + {JobDir(s.n, job)} else tree.dirs[p];
    }

    /**
     * The two placement attempts; a failed one resyncs. The second is made even if the first one succeeds, and
     * agrees with it unless a suspension changes in between.
     */
    method Configure(job: Bytes, c: Chances) returns (ok: bool, ghost heard: bool, raised: bool)
      requires Valid()
      modifies tree
      ensures Valid() && Configured(s, old(Now()), job, c, tree.reliable, ok, heard, raised, old(tree.dirs), tree.dirs)
      ensures old(Sound()) ==> !raised
    {
      ghost var w := Now();
      var second := if jb == {} then c.first else c.second;
      ok, heard, raised := c.first, true, false;
      if !c.first {
        var failed := Resync(job, c.opens1, heard, w);
        heard := c.opens1;
        if failed {
          return false, heard, true;
        }
      }
      ok := second;
      ghost var mid := tree.dirs;
      if !second {
        var failed := Resync(job, c.opens2, heard, w);
        ClearedAfter(s, job, Listed(w, c.opens1), Listed(w, c.opens2), w.dirs, mid, tree.dirs);
        heard, raised := heard && c.opens2, failed;
      }
    }

    /** The resync after a failed attempt; `w` is the state in which the handler started to configure. */
    method Resync(job: Bytes, opens: bool, ghost before: bool, ghost w: World) returns (raised: bool)
      requires Valid() && Gathered(Now()) == Gathered(w) && Resynced(s, job, Listed(w, before), w.dirs, tree.dirs)
      modifies tree
      ensures Valid() && Resynced(s, job, Listed(w, before && opens), w.dirs, tree.dirs)
      ensures tree.reliable && !raised ==> CleanedUp(s, job, Listed(w, opens), old(tree.dirs), tree.dirs)
      ensures opens && Gathered(w) != {} && job !in Gathered(w) ==> !raised && tree.dirs == old(tree.dirs)
      ensures tree.reliable && Decodable(s.n, old(tree.dirs)) ==> !raised && Decodable(s.n, tree.dirs)
    {
      var gathered := Gather(opens);
      var joblist := if gathered.Some? then gathered.value else {};
      raised := false;
      ghost var mid := tree.dirs;
      ResyncedLess(s, job, Listed(w, before), Listed(w, before && opens), w.dirs, mid);
      if joblist == {} || job in joblist {
        var remaining;
        remaining, raised := tree.CleanupOrphans(s.n, s.paths, joblist);
        ResyncedTwice(s, job, joblist, Listed(w, before && opens), w.dirs, mid, tree.dirs);
        if tree.reliable && !raised {
          StillDecodable(s.n, joblist, mid, tree.dirs);
        }
      }
    }

    method Begin(job: Bytes, c: Chances) returns (ok: bool, raised: bool, ghost e: Event)
      requires Valid() && GoodId(job)
      modifies this, file, tree
      ensures Valid() && Step(s, old(Now()), e, Now()) && e.Begin? && e.job == job && e.ok == ok
      ensures Configured(s, old(Now()), job, c, tree.reliable, ok, e.heard, raised, e.created, tree.dirs)
      ensures old(Sound()) ==> !raised
      ensures if ok then Ids(file.content) == old(Ids(file.content)) + {job} else file.content == old(file.content)
      ensures ok && e.heard ==> forall p :: p in s.jobPaths ==> JobDir(s.n, job) in tree.dirs[p]
      ensures !raised ==> Created(s, job, e.deleted, e.created)
      ensures old(Deletable(job)) ==> forall p :: p in e.deleted ==> JobDir(s.n, job) !in e.deleted[p]
    {
      ghost var w := World(file.content, tree.dirs, jb, live, launched);
      ghost var deleted, heard;
      raised, deleted := Renew(job);
      live, launched := live - {job}, launched - {job};
      ghost var created := tree.dirs;
      if raised {
        ok, heard := false, true;
      } else {
        ok, heard, raised := Settle(job, c, w);
      }
      e := Event.Begin(job, ok, heard, deleted, created, tree.dirs);
      BeginSteps(s, w, e, World(file.content, tree.dirs, jb, live, launched));
    }

    /** Configure the job, and put it on record if it was placed. */
    method Settle(job: Bytes, c: Chances, ghost w: World) returns (ok: bool, ghost heard: bool, raised: bool)
      requires Valid() && GoodId(job) && w.file == file.content && w.jb == jb
      modifies this, file, tree
      ensures Valid() && Configured(s, w, job, c, tree.reliable, ok, heard, raised, old(tree.dirs), tree.dirs)
      ensures old(Sound()) ==> !raised
      ensures if ok then Ids(file.content) == old(Ids(file.content)) + {job} else file.content == old(file.content)
      ensures jb == old(jb) && launched == old(launched) && live == old(live) + if ok then {job} else {}
    {
      ghost var v := Now();
      ok, heard, raised := Configure(job, c);
      SameLists(s, w, v, job, c, tree.reliable, ok, heard, raised, tree.dirs);
      if ok {
        file.Add(job);
        live := live + {job};
      }
    }

    /** Delete what is left of the job and create its directories anew. */
    method Renew(job: Bytes) returns (raised: bool, ghost deleted: Dirs)
      requires Valid()
      modifies tree
      ensures Valid() && OnlyGone(s, job, old(tree.dirs), deleted)
      ensures raised ==> tree.dirs == deleted
      ensures !raised ==> Created(s, job, deleted, tree.dirs)
      ensures old(Sound()) ==> !raised && Sound()
      ensures old(Deletable(job)) ==> forall p :: p in deleted ==> JobDir(s.n, job) !in deleted[p]
    {
      ghost var before := tree.dirs;
      raised := Delete(job);
      deleted := tree.dirs;
      if !raised {
        Create(job);
        CreatedDecodable(s, job, before, deleted, tree.dirs);
      }
    }

    method Resize(job: Bytes, c: Chances) returns (ok: bool, raised: bool, ghost e: Event)
      requires Valid()
      modifies tree
      ensures Valid() && Step(s, old(Now()), e, Now()) && e.Resize? && e.job == job
      ensures Configured(s, old(Now()), job, c, tree.reliable, ok, e.heard, raised, old(tree.dirs), tree.dirs)
      ensures old(Sound()) ==> !raised
    {
      ghost var heard;
      ok, heard, raised := Configure(job, c);
      e := Event.Resize(job, heard, tree.dirs);
    }

    method Launch(job: Bytes) returns (ghost e: Event)
      requires Valid() && job in jb
      modifies this, file
      ensures Valid() && Step(s, old(Now()), e, Now()) && e == Event.Launch(job)
      ensures Ids(file.content) == old(Ids(file.content)) - {job} && launched == old(launched) + {job}
    {
      file.Discard(job);
      launched := launched + {job};
      e := Event.Launch(job);
    }

    method Attach(job: Bytes) returns (ghost e: Event)
      requires Valid() && job in jb
      modifies this, file
      ensures Valid() && Step(s, old(Now()), e, Now()) && e == Event.Attach(job)
      ensures Ids(file.content) == old(Ids(file.content)) - {job} && launched == old(launched) + {job}
    {
      file.Discard(job);
      launched := launched + {job};
      e := Event.Attach(job);
    }

    /** The epilogue and the end handler treat the side file and the directories alike. */
    method Finish(job: Bytes, end: bool) returns (ghost e: Event)
      requires Valid()
      modifies this, file, tree
      ensures Valid() && Step(s, old(Now()), e, Now()) && e == if end then Event.End(job) else Event.Epilogue(job)
      ensures Ids(file.content) == old(Ids(file.content)) - {job} && live == old(live) - {job}
      ensures old(Deletable(job)) ==> forall p :: p in tree.dirs ==> JobDir(s.n, job) !in tree.dirs[p]
    {
      file.Discard(job);
      live, launched := live - {job}, launched - {job};
      var raised := Delete(job);
      e := if end then Event.End(job) else Event.Epilogue(job);
    }

    /**
     * The periodic handler combines the stale snapshot with what is gathered now. If gathering fails, it
     * raises before it touches anything. A node taken offline comes back when nothing is reported to remain.
     */
    method Periodic(snapshot: set<Bytes>, opens: bool) returns (raised: bool, remaining: nat, ghost e: Event)
      requires Valid()
      modifies tree
      ensures Valid() && Step(s, old(Now()), e, Now()) && e == Event.Periodic(snapshot)
      ensures AllSafe(s.n, snapshot + Gathered(old(Now())), old(tree.dirs), tree.dirs)
      ensures !opens ==> raised && tree.dirs == old(tree.dirs)
      ensures opens && tree.reliable ==>
        remaining == 0 && (!raised ==> AllClear(s.n, snapshot + Gathered(old(Now())), old(tree.dirs), tree.dirs, Elements(s.paths)))
      ensures opens && tree.reliable && Decodable(s.n, old(tree.dirs)) ==> !raised
      ensures !raised && remaining > 0 && Distinct(s.paths) ==> OrphanLeft(s.n, tree.dirs, Elements(s.paths))
    {
      e := Event.Periodic(snapshot);
      var gathered := Gather(opens);
      if gathered.None? {
        return true, 0, e;
      }
      remaining, raised := tree.CleanupOrphans(s.n, s.paths, snapshot + gathered.value);
    }
  }

  /** A complete cleanup before a second one leaves no orphans to block it. */
  lemma ClearedAfter(s: Site, job: Bytes, first: set<Bytes>, second: set<Bytes>, a: Dirs, b: Dirs, c: Dirs)
    ensures var paths := Elements(s.paths);
      b.Keys == a.Keys && (b == a || AllClear(s.n, first, a, b, paths)) && AllClear(s.n, second, b, c, paths) ==>
        AllClear(s.n, second, a, c, paths)
  {
    var paths := Elements(s.paths);
    if b.Keys == a.Keys && b != a && AllClear(s.n, first, a, b, paths) && AllClear(s.n, second, b, c, paths) {
      forall p | p in paths && p in a && p in c ensures VisitClear(s.n, second, a[p], c[p]) {
        NothingBlocks(s.n, first, second, a[p], b[p], c[p]);
      }
    }
  }

  lemma NothingBlocks(n: Naming, first: set<Bytes>, second: set<Bytes>, a: set<Bytes>, b: set<Bytes>, c: set<Bytes>)
    requires VisitClear(n, first, a, b) && VisitClear(n, second, b, c)
    ensures forall x :: x in c ==> Spared(n, second, x)
  {
    forall x | x in c ensures Spared(n, second, x) {
      if !Spared(n, second, x) {
        assert x in b && x + ORPHAN in b;
        OrphanOf(n, x);
      }
    }
  }

  lemma StillDecodable(n: Naming, list: set<Bytes>, b: Dirs, c: Dirs)
    requires AllSafe(n, list, b, c) && AllClear(n, list, b, c, b.Keys)
    ensures Decodable(n, b) ==> Decodable(n, c)
  {
    forall p | p in c ensures c[p] <= b[p] {
      NothingAppears(n, list, b[p], c[p]);
    }
  }

  lemma CreatedDecodable(s: Site, job: Bytes, a: Dirs, b: Dirs, c: Dirs)
    requires s.n.Valid() && OnlyGone(s, job, a, b) && Created(s, job, b, c)
    ensures Decodable(s.n, a) ==> Decodable(s.n, c)
  {
    DirRoundTrip(s.n, job);
  }

  /** What is safe for a longer list is safe for a shorter one, which spares less. */
  lemma ResyncedLess(s: Site, job: Bytes, more: set<Bytes>, less: set<Bytes>, b: Dirs, c: Dirs)
    requires Resynced(s, job, more, b, c) && (less == more || less == {})
    ensures Resynced(s, job, less, b, c)
  {
    if c != b {
      SafeForLess(s.n, more, less, b, c);
    }
  }

  lemma SafeForLess(n: Naming, more: set<Bytes>, less: set<Bytes>, b: Dirs, c: Dirs)
    requires less <= more && AllSafe(n, more, b, c)
    ensures AllSafe(n, less, b, c)
  {
    forall p, y | p in b && y in c[p] && y !in b[p] ensures Orphaned(n, less, b[p], y) {
      var x :| x in b[p] && Renamable(n, more, x) && y == x + ORPHAN;
      assert Renamable(n, less, x);
    }
  }

  lemma ResyncedTwice(s: Site, job: Bytes, list: set<Bytes>, local: set<Bytes>, a: Dirs, b: Dirs, c: Dirs)
    requires Resynced(s, job, local, a, b) && AllSafe(s.n, list, b, c)
    requires local <= list && (local == {} || job in local)
    ensures Resynced(s, job, local, a, c)
  {
    SafeForLess(s.n, list, local, b, c);
    if a != b {
      forall p | p in a ensures VisitSafe(s.n, local, a[p], c[p]) {
        SafeTwice(s.n, local, a[p], b[p], c[p]);
      }
    }
  }
}
