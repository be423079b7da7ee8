/** The idle watchdog of a compute node: one run of the script per poll, with its state in two files. */
module Autostop {
  import opened Collections

  /** The timeouts and the re-check interval, in seconds. */
  datatype Settings = Settings(afterJobs: int, beforeJobs: int, throttle: int)

  /** The KeepAlive field of a node in the cluster status: absent or null, false, or any other value. */
  datatype Answer = Nil | False | Other

  predicate Truthy(a: Answer) {
    a.Other?
  }

  /** The answer of the web server: no readable reply, or the nodes in its list. */
  datatype Reply = Unreadable | Status(nodes: seq<(string, Answer)>)

  /**
   * What one run of the script meets: the clock when idleness is judged, when the keep-alive file is looked
   * at and when it is written, whether jobs are there or ever were, and the server's reply if it is asked.
   */
  datatype Poll = Poll(now: real, checkTime: real, touchTime: real, active: bool, beenActive: bool, name: string, reply: Reply)

  /** The two files: the stored start of idleness, and the time stamp of the keep-alive file. */
  datatype Memory = Memory(idleStart: Option<int>, keepalive: Option<real>)

  /** What a run did: whether it asked the server, what it made of the answer, and whether it shut the node down. */
  datatype Outcome = Outcome(asked: bool, keptAlive: bool, shutdown: bool)

  function Timeout(s: Settings, p: Poll): int {
    if p.beenActive then s.afterJobs else s.beforeJobs
  }

  /** Whether an idle node has been idle long enough at this poll. */
  predicate LongIdle(s: Settings, idleStart: Option<int>, p: Poll) {
    !p.active && idleStart.Some? && p.now - idleStart.value as real > Timeout(s, p) as real
  }

  /** The last entry under the node's own name decides; a node that is not listed counts as kept alive. */
  function KeepAlive(nodes: seq<(string, Answer)>, name: string): bool {
    if nodes == [] then true
    else
      var last := nodes[|nodes| - 1];
      if last.0 == name then Truthy(last.1) else KeepAlive(nodes[..|nodes| - 1], name)
  }

  /** The last entry of a list under a name. */
  ghost predicate LastNamed(nodes: seq<(string, Answer)>, name: string, i: int) {
    0 <= i < |nodes| && nodes[i].0 == name && forall k :: i < k < |nodes| ==> nodes[k].0 != name
  }

  /** Only an entry of the node's own, the last one, can say no: by a field that is absent, null or false. */
  ghost predicate Denied(reply: Reply, name: string) {
    reply.Status? && exists i :: LastNamed(reply.nodes, name, i) && (reply.nodes[i].1 == Nil || reply.nodes[i].1 == False)
  }

  lemma {:induction false} ListedIs(nodes: seq<(string, Answer)>, name: string, i: int)
    requires LastNamed(nodes, name, i)
    ensures KeepAlive(nodes, name) <==> nodes[i].1 == Other
  {
    var n := |nodes| - 1;
    if i < n {
      ListedIs(nodes[..n], name, i);
    }
  }

  lemma {:induction false} LastListed(nodes: seq<(string, Answer)>, name: string) returns (i: int)
    ensures if i < 0 then KeepAlive(nodes, name) && forall k :: 0 <= k < |nodes| ==> nodes[k].0 != name
      else LastNamed(nodes, name, i)
  {
    i := |nodes| - 1;
    if nodes != [] && nodes[i].0 != name {
      i := LastListed(nodes[..i], name);
    }
  }

  /** A node is kept alive unless its last entry says no, and so in particular if it is not listed. */
  lemma KeepAliveIs(nodes: seq<(string, Answer)>, name: string)
    ensures KeepAlive(nodes, name) <==> !Denied(Status(nodes), name)
    ensures (forall i :: 0 <= i < |nodes| ==> nodes[i].0 != name) ==> KeepAlive(nodes, name)
  {
    var i := LastListed(nodes, name);
    if i >= 0 {
      ListedIs(nodes, name, i);
      forall j | LastNamed(nodes, name, j) ensures j == i {
      }
    }
  }

  /** The node has been idle for longer than the timeout that applies to it. */
  ghost predicate IdleTooLong(s: Settings, idleStart: Option<int>, p: Poll) {
    && !p.active && idleStart.Some?
    && (p.beenActive ==> p.now > (idleStart.value + s.afterJobs) as real)
    && (!p.beenActive ==> p.now > (idleStart.value + s.beforeJobs) as real)
  }

  /** One poll as a transition. */
  function Step(s: Settings, m: Memory, p: Poll): (Memory, Outcome) {
    var idle := if p.active then None else if m.idleStart.None? then Some(p.now.Floor) else m.idleStart;
    if !LongIdle(s, m.idleStart, p) then (Memory(idle, m.keepalive), Outcome(false, false, false))
    else if m.keepalive.Some? then
      var expired := p.checkTime - m.keepalive.value > s.throttle as real;
      (Memory(idle, if expired then None else m.keepalive), Outcome(false, true, false))
    else if p.reply.Unreadable? then (Memory(idle, None), Outcome(true, false, false))
    else if KeepAlive(p.reply.nodes, p.name) then (Memory(idle, Some(p.touchTime)), Outcome(true, true, false))
    else (Memory(idle, None), Outcome(true, false, true))
  }

  /**
   * What one run does to the two files. The start of idleness is set once and dropped when jobs are there. Only
   * a node that has been idle for too long looks at the keep-alive file: it deletes one older than the throttle,
   * and writes one unless the reply is unreadable or says no.
   */
  ghost predicate IsFate(s: Settings, m: Memory, p: Poll, t: Memory) {
    && (p.active ==> t.idleStart == None)
    && (!p.active && m.idleStart == None ==> t.idleStart == Some(p.now.Floor))
    && (!p.active && m.idleStart != None ==> t.idleStart == m.idleStart)
    && (!IdleTooLong(s, m.idleStart, p) ==> t.keepalive == m.keepalive)
    && (IdleTooLong(s, m.idleStart, p) && m.keepalive.Some? ==>
        t.keepalive == if p.checkTime <= m.keepalive.value + s.throttle as real then m.keepalive else None)
    && (IdleTooLong(s, m.idleStart, p) && m.keepalive.None? ==>
        t.keepalive == if p.reply == Unreadable || Denied(p.reply, p.name) then None else Some(p.touchTime))
  }

  /** The transition in terms of the reply and the clock: who is shut down, who asks, and what happens to the files. */
  lemma StepIs(s: Settings, m: Memory, p: Poll)
    ensures var (t, o) := Step(s, m, p);
      && (o.shutdown <==> IdleTooLong(s, m.idleStart, p) && m.keepalive.None? && Denied(p.reply, p.name))
      && (o.asked <==> IdleTooLong(s, m.idleStart, p) && m.keepalive.None?)
      && (o.keptAlive <==> IdleTooLong(s, m.idleStart, p) && (m.keepalive.Some? || t.keepalive.Some?))
      && IsFate(s, m, p, t)
  {
    if p.reply.Status? {
      KeepAliveIs(p.reply.nodes, p.name);
    }
  }

  class Node {
    const s: Settings
    var idleStart: Option<int>
    var keepalive: Option<real>

    constructor (s: Settings)
      ensures Stored() == Memory(None, None) && this.s == s
    {
      this.s := s;
      idleStart, keepalive := None, None;
    }

    function Stored(): Memory
      reads this
    {
      Memory(idleStart, keepalive)
    }

    /** The keep-alive check; nothing if the reply cannot be parsed, which ends the script. */
    method IsKeepAlive(p: Poll) returns (r: Option<bool>, asked: bool)
      modifies this`keepalive
      ensures asked <==> old(keepalive).None?
      ensures !asked ==> r == Some(true)
      ensures !asked ==> keepalive == if p.checkTime - old(keepalive).value > s.throttle as real then None else old(keepalive)
      ensures asked && p.reply.Unreadable? ==> r == None && keepalive == None
      ensures asked && p.reply.Status? ==> r == Some(KeepAlive(p.reply.nodes, p.name))
      ensures r == Some(false) <==> asked && Denied(p.reply, p.name)
      ensures asked && p.reply.Status? ==> keepalive == if r.value then Some(p.touchTime) else None
    {
      if keepalive.Some? {
        if p.checkTime - keepalive.value > s.throttle as real {
          keepalive := None;
        }
        return Some(true), false;
      }
      if p.reply.Unreadable? {
        return None, true;
      }
      var amIKeepAlive := true;
      var nodes := p.reply.nodes;
      var i := 0;
      while i < |nodes|
        invariant 0 <= i <= |nodes| && amIKeepAlive == KeepAlive(nodes[..i], p.name)
      {
        assert nodes[..i + 1][..i] == nodes[..i];
        if nodes[i].0 == p.name {
          amIKeepAlive := Truthy(nodes[i].1);
        }
        i := i + 1;
      }
      assert nodes[..i] == nodes;
      KeepAliveIs(nodes, p.name);
      if amIKeepAlive {
        keepalive := Some(p.touchTime);
      }
      return Some(amIKeepAlive), true;
    }

    /** One run of the script: update and store the start of idleness, then decide about the shutdown. */
    method Run(p: Poll) returns (o: Outcome)
      modifies this
      ensures (Stored(), o) == Step(s, old(Stored()), p)
      ensures o.shutdown <==> IdleTooLong(s, old(idleStart), p) && old(keepalive).None? && Denied(p.reply, p.name)
      ensures IsFate(s, old(Stored()), p, Stored())
    {
      StepIs(s, Stored(), p);
      var idleLongEnough := false;
      if p.active {
        idleStart := None;
      } else if idleStart.None? {
        idleStart := Some(p.now.Floor);
      } else {
        var idleSeconds := p.now - idleStart.value as real;
        var timeout := if p.beenActive then s.afterJobs else s.beforeJobs;
        idleLongEnough := idleSeconds > timeout as real;
      }
      o := Outcome(false, false, false);
      if idleLongEnough {
        var r, asked := IsKeepAlive(p);
        o := Outcome(asked, r == Some(true), r == Some(false));
      }
    }
  }

  // ---------- sequences of polls ----------

  /** The memory after a sequence of polls. */
  function After(s: Settings, m: Memory, polls: seq<Poll>): Memory {
    if polls == [] then m else Step(s, After(s, m, polls[..|polls| - 1]), polls[|polls| - 1]).0
  }

  /** The outcome of the poll at position i. */
  function OutcomeAt(s: Settings, m: Memory, polls: seq<Poll>, i: nat): Outcome
    requires i < |polls|
  {
    Step(s, After(s, m, polls[..i]), polls[i]).1
  }

  /** The position of the first poll of the idle run that the sequence ends in. */
  function RunStart(polls: seq<Poll>): (i: nat)
    ensures i <= |polls|
    ensures forall k :: i <= k < |polls| ==> !polls[k].active
    ensures i > 0 ==> polls[i - 1].active
  {
    if polls == [] || polls[|polls| - 1].active then |polls| else RunStart(polls[..|polls| - 1])
  }

  /**
   * The stored start of idleness is absent before the first poll and after a poll that saw a job, and is
   * otherwise the time of the first poll of the current unbroken idle run.
   */
  lemma {:induction false} StoredIdleStart(s: Settings, file: Option<real>, polls: seq<Poll>)
    ensures var i := RunStart(polls);
      After(s, Memory(None, file), polls).idleStart == if i == |polls| then None else Some(polls[i].now.Floor)
  {
    if polls != [] {
      var front := polls[..|polls| - 1];
      StoredIdleStart(s, file, front);
      assert forall k :: 0 <= k < |front| ==> front[k] == polls[k];
    }
  }

  /**
   * A node is shut down at a poll exactly when its idle run began at an earlier poll and has lasted longer
   * than the timeout, no keep-alive file is there, and this poll's own query is answered with false.
   */
  lemma ShutdownRule(s: Settings, file: Option<real>, polls: seq<Poll>, n: nat)
    requires n < |polls|
    ensures var p := polls[n];
      var i := RunStart(polls[..n]);
      OutcomeAt(s, Memory(None, file), polls, n).shutdown <==>
        && !p.active && i < n
        && p.now - polls[i].now.Floor as real > (if p.beenActive then s.afterJobs else s.beforeJobs) as real
        && After(s, Memory(None, file), polls[..n]).keepalive.None?
        && Denied(p.reply, p.name)
  {
    StoredIdleStart(s, file, polls[..n]);
    StepIs(s, After(s, Memory(None, file), polls[..n]), polls[n]);
  }

  /** The clock never goes back, within a poll or from one to the next. */
  predicate Ordered(polls: seq<Poll>) {
    && (forall i :: 0 <= i < |polls| ==> polls[i].now <= polls[i].checkTime <= polls[i].touchTime)
    && (forall i, j :: 0 <= i < j < |polls| ==> polls[i].touchTime <= polls[j].now)
  }

  /**
   * From a query answered true until the keep-alive file is deleted, the file carries the query's time; it
   * is deleted only at a poll more than the throttle later.
   */
  lemma {:induction false} FileOutlivesThrottle(s: Settings, m: Memory, polls: seq<Poll>, i: nat, n: nat)
    requires i < n <= |polls| && Ordered(polls)
    requires OutcomeAt(s, m, polls, i) == Outcome(true, true, false)
    ensures After(s, m, polls[..n]).keepalive == Some(polls[i].touchTime)
      || exists k :: i < k < n && polls[k].checkTime - polls[i].touchTime > s.throttle as real
    decreases n
  {
    assert polls[..n][..n - 1] == polls[..n - 1] && polls[..n][n - 1] == polls[n - 1];
    if n > i + 1 {
      FileOutlivesThrottle(s, m, polls, i, n - 1);
    }
  }

  /** After a query answered true, the next query comes more than the throttle later. */
  lemma NextQueryIsThrottled(s: Settings, m: Memory, polls: seq<Poll>, i: nat, n: nat)
    requires i < n < |polls| && Ordered(polls)
    requires OutcomeAt(s, m, polls, i) == Outcome(true, true, false) && OutcomeAt(s, m, polls, n).asked
    ensures polls[n].now - polls[i].touchTime > s.throttle as real
  {
    FileOutlivesThrottle(s, m, polls, i, n);
    var k :| i < k < n && polls[k].checkTime - polls[i].touchTime > s.throttle as real;
    assert polls[k].touchTime <= polls[n].now;
  }
}
