/** The allocator and the protocol of the handlers together: which cleanups the allocator ever sees. */
module Cleanups {
  import opened Collections
  import opened UnitNames
  import opened Orphans
  import A = Allocator
  import L = Lifecycle
  import P = Placement

  /** The job ids that the reader of the cgroup tree finds under some path; orphans are not left out. */
  ghost function Seen(n: Naming, dirs: Dirs): set<Bytes> {
    set p, x | p in dirs && x in dirs[p] && IsJobName(n, x) && DirJob(n, x).Some? :: DirJob(n, x).value
  }

  /** A job with its own directory is seen, if the pattern finds it. */
  lemma OwnDirSeen(n: Naming, dirs: Dirs, p: Path, j: Bytes)
    requires n.Valid() && j != [] && IsDigit(j[0]) && p in dirs && JobDir(n, j) in dirs[p]
    ensures j in Seen(n, dirs)
  {
    JobDirFound(n, j);
    DirRoundTrip(n, j);
  }

  /** The ids of live jobs start with a digit, as the server's do, and each job has some directory. */
  ghost predicate Findable(s: L.Site, w: L.World) {
    s.jobPaths != {} && forall j :: j in w.live ==> j != [] && IsDigit(j[0])
  }

  lemma LiveAreSeen(s: L.Site, w: L.World)
    requires s.n.Valid() && L.OnDisk(s, w) && Findable(s, w)
    ensures w.live <= Seen(s.n, w.dirs)
  {
    var p := Any(s.jobPaths);
    forall j | j in w.live ensures j in Seen(s.n, w.dirs) {
      OwnDirSeen(s.n, w.dirs, p, j);
    }
  }

  /** The allocator's live jobs are live in the world, and what a cleanup removed or renamed is not seen there any more. */
  ghost predicate Observed(s: L.Site, w: L.World, st: A.State, e: A.Event) {
    && st.live <= w.live
    && (e.Clear? ==> e.ids !! Seen(s.n, w.dirs))
    && (e.Rename? ==> e.from !in Seen(s.n, w.dirs))
  }

  /** In a run in which gathering completes, no cleanup takes the cgroup of a live job. */
  lemma CleanupsSpareLive(s: L.Site, worlds: seq<L.World>, moves: seq<L.Event>, k: nat, st: A.State, e: A.Event)
    requires s.n.Valid() && L.Run(s, worlds, moves) && k < |worlds| && L.Tracked(worlds[0]) && L.OnDisk(s, worlds[0])
    requires forall x :: 0 <= x < k ==> L.Heard(moves[x])
    requires Findable(s, worlds[k]) && Observed(s, worlds[k], st, e)
    ensures A.SparesLive(st, e)
  {
    L.OnDiskForever(s, worlds, moves, k);
    LiveAreSeen(s, worlds[k]);
  }

  /** Each event of the allocator's run is observed in some world of the handlers' run. */
  ghost predicate Together(s: L.Site, worlds: seq<L.World>, states: seq<A.State>, events: seq<A.Event>, at: seq<nat>) {
    && |at| == |events| <= |states|
    && forall i :: 0 <= i < |events| ==>
      at[i] < |worlds| && Findable(s, worlds[at[i]]) && Observed(s, worlds[at[i]], states[i], events[i])
  }

  /**
   * Where gathering completes, exclusivity of CPUs and devices over whole runs hinges on resumptions alone:
   * live jobs stay on record, and their holdings disjoint, exactly as long as no job is resumed whose
   * holdings were given away.
   */
  lemma ExclusiveTogether(s: L.Site, worlds: seq<L.World>, moves: seq<L.Event>, m: P.Machine, states: seq<A.State>,
                          events: seq<A.Event>, at: seq<nat>)
    requires s.n.Valid() && L.Run(s, worlds, moves) && L.Tracked(worlds[0]) && L.OnDisk(s, worlds[0])
    requires forall x :: 0 <= x < |moves| ==> L.Heard(moves[x])
    requires m.Valid() && A.DisjointNuma(m.node) && A.Run(m, states, events) && Together(s, worlds, states, events, at)
    requires A.Exclusive(m, states[0])
    ensures (forall k :: 0 <= k <= |events| ==> A.Exclusive(m, states[k])) <==>
      forall i :: 0 <= i < |events| && events[i].Resume? ==> A.CpusKept(states[i], events[i].id)
    ensures A.DevicesExclusive(m, states[0]) && (forall i :: 0 <= i < |events| ==> A.EventCovers(events[i])) ==>
      ((forall k :: 0 <= k <= |events| ==> A.DevicesExclusive(m, states[k])) <==>
       forall i :: 0 <= i < |events| && events[i].Resume? ==> A.DevicesKept(states[i], events[i].id))
  {
    forall i | 0 <= i < |events| ensures A.SparesLive(states[i], events[i]) {
      CleanupsSpareLive(s, worlds, moves, at[i], states[i], events[i]);
    }
    A.ExclusiveForever(m, states, events, |events|);
    if A.DevicesExclusive(m, states[0]) && forall i :: 0 <= i < |events| ==> A.EventCovers(events[i]) {
      A.DevicesExclusiveForever(m, states, events, |events|);
    }
  }

  // ---------- both sides of each handler run as one step ----------

  /** What the handlers and the allocator see between two handler runs. */
  datatype Joint = Joint(w: L.World, st: A.State)

  /**
   * A handler run is one step of the protocol, at most one event of the allocator, and the cleanups it makes;
   * suspensions and resumptions come from outside.
   */
  datatype Move =
    | Handler(e: L.Event, act: Option<A.Event>, mids: seq<A.State>, cleanups: seq<A.Event>)
    | Outside(change: A.Event)

  /** The event of the allocator that a step of the protocol stands for. */
  ghost predicate Acts(e: L.Event, act: Option<A.Event>) {
    match e
    case Begin(j, ok, _, _, _, _) => act.Some? && (
        || (act.value.Begin? && act.value.id == j && (act.value.result.Some? <==> ok))
        || (act.value.Refuse? && act.value.id == j && !ok))
    case Resize(j, _, _) => act.Some? ==> act.value.Resize? && act.value.id == j
    case Epilogue(j) => act.Some? && act.value.End? && act.value.id == j
    case End(j) => act.Some? && act.value.End? && act.value.id == j
    case _ => act.None?
  }

  /** A cleanup event about cgroups that are not seen in the world any more. */
  ghost predicate Gone(s: L.Site, w: L.World, e: A.Event) {
    (e.Clear? && e.ids !! Seen(s.n, w.dirs)) || (e.Rename? && e.from !in Seen(s.n, w.dirs))
  }

  ghost predicate JointStep(s: L.Site, m: P.Machine, a: Joint, mv: Move, b: Joint)
    requires m.Valid()
  {
    match mv
    case Outside(change) => (change.Suspend? || change.Resume?) && A.Step(m, a.st, change, b.st) && b.w == a.w
    case Handler(e, act, mids, cleanups) =>
      && L.Step(s, a.w, e, b.w) && (e.Begin? ==> IsDigit(e.job[0])) && Acts(e, act)
      && A.Run(m, mids, cleanups) && b.st == mids[|cleanups|]
      && (if act.Some? then A.Step(m, a.st, act.value, mids[0]) else mids[0] == a.st)
      && forall i :: 0 <= i < |cleanups| ==> Gone(s, b.w, cleanups[i])
  }

  /** Gathering completed. */
  predicate HeardMove(mv: Move) {
    mv.Handler? ==> L.Heard(mv.e)
  }

  /** A resumption, if the move is one, finds the job's CPUs where they were. */
  ghost predicate FitMove(mv: Move, st: A.State) {
    mv.Outside? && mv.change.Resume? ==> A.CpusKept(st, mv.change.id)
  }

  /** Both sides know the same live jobs, which are on record and have their directories. */
  ghost predicate Sane(s: L.Site, a: Joint) {
    L.Tracked(a.w) && L.OnDisk(s, a.w) && Findable(s, a.w) && a.st.live == a.w.live
  }

  lemma {:induction false} CleanupsKeepLive(s: L.Site, m: P.Machine, w: L.World, mids: seq<A.State>, cleanups: seq<A.Event>, k: nat)
    requires m.Valid() && A.Run(m, mids, cleanups) && k <= |cleanups|
    requires forall i :: 0 <= i < |cleanups| ==> Gone(s, w, cleanups[i])
    ensures mids[k].live == mids[0].live
  {
    if k > 0 {
      CleanupsKeepLive(s, m, w, mids, cleanups, k - 1);
      assert Gone(s, w, cleanups[k - 1]) && A.Step(m, mids[k - 1], cleanups[k - 1], mids[k]);
    }
  }

  /** The live jobs change alike on both sides. */
  lemma ActKeepsPace(s: L.Site, m: P.Machine, w: L.World, e: L.Event, t: L.World, st: A.State, act: Option<A.Event>, u: A.State)
    requires m.Valid() && L.Step(s, w, e, t) && Acts(e, act) && st.live == w.live
    requires if act.Some? then A.Step(m, st, act.value, u) else u == st
    ensures u.live == t.live
  {
  }

  lemma JointSane(s: L.Site, m: P.Machine, a: Joint, mv: Move, b: Joint)
    requires s.n.Valid() && m.Valid() && Sane(s, a) && JointStep(s, m, a, mv, b) && HeardMove(mv)
    ensures Sane(s, b)
  {
    match mv
    case Outside(_) =>
    case Handler(e, act, mids, cleanups) =>
      L.StepTracked(s, a.w, e, b.w);
      L.StepOnDisk(s, a.w, e, b.w);
      ActKeepsPace(s, m, a.w, e, b.w, a.st, act, mids[0]);
      CleanupsKeepLive(s, m, b.w, mids, cleanups, |cleanups|);
      LiveFindable(s, a.w, e, b.w);
  }

  lemma LiveFindable(s: L.Site, w: L.World, e: L.Event, t: L.World)
    requires Findable(s, w) && L.Step(s, w, e, t) && (e.Begin? ==> IsDigit(e.job[0]))
    ensures Findable(s, t)
  {
  }

  lemma {:induction false} CleanupsKeepExclusive(s: L.Site, m: P.Machine, w: L.World, mids: seq<A.State>,
                                                 cleanups: seq<A.Event>, k: nat)
    requires m.Valid() && A.DisjointNuma(m.node) && A.Run(m, mids, cleanups) && k <= |cleanups|
    requires forall i :: 0 <= i < |cleanups| ==> Gone(s, w, cleanups[i])
    requires mids[0].live <= Seen(s.n, w.dirs) && A.Exclusive(m, mids[0])
    ensures A.Exclusive(m, mids[k])
  {
    if k > 0 {
      CleanupsKeepExclusive(s, m, w, mids, cleanups, k - 1);
      CleanupsKeepLive(s, m, w, mids, cleanups, k - 1);
      assert Gone(s, w, cleanups[k - 1]);
      A.StepExclusive(m, mids[k - 1], cleanups[k - 1], mids[k]);
    }
  }

  /** One move keeps exclusivity unless it resumes a job whose CPUs were given away. */
  lemma JointExclusive(s: L.Site, m: P.Machine, a: Joint, mv: Move, b: Joint)
    requires s.n.Valid() && m.Valid() && A.DisjointNuma(m.node)
    requires Sane(s, a) && JointStep(s, m, a, mv, b) && HeardMove(mv) && A.Exclusive(m, a.st)
    ensures A.Exclusive(m, b.st) <==> FitMove(mv, a.st)
  {
    match mv
    case Outside(change) => A.StepExclusive(m, a.st, change, b.st);
    case Handler(e, act, mids, cleanups) =>
      JointSane(s, m, a, mv, b);
      LiveAreSeen(s, b.w);
      ActKeepsPace(s, m, a.w, e, b.w, a.st, act, mids[0]);
      if act.Some? {
        A.StepExclusive(m, a.st, act.value, mids[0]);
      }
      CleanupsKeepExclusive(s, m, b.w, mids, cleanups, |cleanups|);
  }

  ghost predicate JointRun(s: L.Site, m: P.Machine, states: seq<Joint>, moves: seq<Move>)
    requires m.Valid()
  {
    |states| == |moves| + 1 && forall i :: 0 <= i < |moves| ==> JointStep(s, m, states[i], moves[i], states[i + 1]) && HeardMove(moves[i])
  }

  lemma {:induction false} SaneForever(s: L.Site, m: P.Machine, states: seq<Joint>, moves: seq<Move>, n: nat)
    requires s.n.Valid() && m.Valid() && JointRun(s, m, states, moves) && n < |states| && Sane(s, states[0])
    ensures Sane(s, states[n])
  {
    if n > 0 {
      SaneForever(s, m, states, moves, n - 1);
      JointSane(s, m, states[n - 1], moves[n - 1], states[n]);
    }
  }

  lemma {:induction false} FitMoves(s: L.Site, m: P.Machine, states: seq<Joint>, moves: seq<Move>, n: nat)
    requires s.n.Valid() && m.Valid() && A.DisjointNuma(m.node) && JointRun(s, m, states, moves) && n < |states|
    requires Sane(s, states[0]) && A.Exclusive(m, states[0].st)
    requires forall i :: 0 <= i < n ==> FitMove(moves[i], states[i].st)
    ensures A.Exclusive(m, states[n].st)
  {
    if n > 0 {
      FitMoves(s, m, states, moves, n - 1);
      SaneForever(s, m, states, moves, n - 1);
      JointExclusive(s, m, states[n - 1], moves[n - 1], states[n]);
    }
  }

  /**
   * Handlers, cleanups and allocator as one system: where gathering completes, both sides always know the same
   * live jobs, all of them on record and with their directories, and the CPU sets of holding jobs stay
   * disjoint exactly as long as no job is resumed whose CPUs were given away.
   */
  lemma JointForever(s: L.Site, m: P.Machine, states: seq<Joint>, moves: seq<Move>, n: nat)
    requires s.n.Valid() && m.Valid() && A.DisjointNuma(m.node) && JointRun(s, m, states, moves) && n < |states|
    requires Sane(s, states[0]) && A.Exclusive(m, states[0].st)
    ensures forall k :: 0 <= k <= n ==> Sane(s, states[k])
    ensures (forall k :: 0 <= k <= n ==> A.Exclusive(m, states[k].st)) <==>
      forall i :: 0 <= i < n ==> FitMove(moves[i], states[i].st)
  {
    forall k | 0 <= k <= n ensures Sane(s, states[k]) {
      SaneForever(s, m, states, moves, k);
    }
    if forall i :: 0 <= i < n ==> FitMove(moves[i], states[i].st) {
      forall k | 0 <= k <= n ensures A.Exclusive(m, states[k].st) {
        FitMoves(s, m, states, moves, k);
      }
    }
    if forall k :: 0 <= k <= n ==> A.Exclusive(m, states[k].st) {
      forall i | 0 <= i < n ensures FitMove(moves[i], states[i].st) {
        JointExclusive(s, m, states[i], moves[i], states[i + 1]);
      }
    }
  }
}
