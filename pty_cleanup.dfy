/**
 * The backend's process reaper (pty-cleanup.service.ts): a registry from
 * pid to process handle, kept in the insertion order of a JavaScript `Map`,
 * and one timeout per pid that kills the process when it fires.
 *
 * A handle's `kill` is code outside the model: a handle says only whether it
 * has a `kill` function and whether calling it throws, and `kills` records
 * the pids whose `kill` was called, oldest first. Timers are deadlines on an
 * abstract millisecond clock `now`; `AdvanceTime` lets time pass and fires
 * the timers that fall due.
 */
module PtyCleanup {

  /** What calling `process.kill` does. */
  datatype KillBehaviour =
    | NoKill   // `typeof process.kill !== 'function'`: nothing is called
    | Kills    // `kill()` returns normally
    | Throws   // `kill()` is called and throws

  /** A registered process (`ProcessLike`). */
  datatype Handle = Handle(pid: int, kill: KillBehaviour)

  /**
   * A timer stored in `timeouts`: its deadline, and whether it is still
   * waiting to fire. A timer that has fired stays in the map until
   * `killProcess` or `cleanupAll` removes it, as the `Timeout` object does.
   */
  datatype Timer = Timer(deadline: int, pending: bool)

  /** Node's `setTimeout` runs a delay outside 1 .. 2^31 - 1 milliseconds after 1 millisecond. */
  function Delay(timeout: int): (d: int)
    ensures 1 <= d <= 0x7FFF_FFFF
    ensures 1 <= timeout <= 0x7FFF_FFFF ==> d == timeout
  {
    if 1 <= timeout <= 0x7FFF_FFFF then timeout else 1
  }

  predicate Distinct(s: seq<int>) {
    forall i, j | 0 <= i < j < |s| :: s[i] != s[j]
  }

  /** `s` without the elements in `gone`, in the same order. */
  function Drop(s: seq<int>, gone: set<int>): (r: seq<int>)
    ensures forall x :: x in r <==> x in s && x !in gone
    ensures Distinct(s) ==> Distinct(r)
  {
    if s == [] then []
    else
      var rest := Drop(s[1..], gone);
      assert Distinct(s) ==> s[0] !in s[1..];
      if s[0] in gone then rest else [s[0]] + rest
  }

  lemma DropNothing(s: seq<int>)
    ensures Drop(s, {}) == s
  {
  }

  /** Dropping in two steps is dropping the union. */
  lemma {:induction false} DropTwice(s: seq<int>, a: set<int>, b: set<int>)
    ensures Drop(Drop(s, a), b) == Drop(s, a + b)
  {
    if s != [] {
      DropTwice(s[1..], a, b);
    }
  }

  /** The handles of `pids` in `m`, in the order of `pids`. */
  function Handles(pids: seq<int>, m: map<int, Handle>): (r: seq<Handle>)
    requires forall i | 0 <= i < |pids| :: pids[i] in m
    ensures |r| == |pids|
    ensures forall i | 0 <= i < |r| :: r[i] == m[pids[i]]
  {
    if pids == [] then [] else [m[pids[0]]] + Handles(pids[1..], m)
  }

  /** `[pid]` when `killProcess` or `cleanupAll` calls the `kill` of the handle of `pid` in `m`, else `[]`. */
  function KillCall(m: map<int, Handle>, pid: int): (r: seq<int>)
    ensures r == [pid] || r == []
    ensures r == [pid] <==> pid in m && m[pid].kill != NoKill
  {
    if pid in m && m[pid].kill != NoKill then [pid] else []
  }

  /** The pids of `s`, in order, whose handle in `m` has a `kill` to call. */
  function KillCalls(s: seq<int>, m: map<int, Handle>): (r: seq<int>)
    ensures forall x :: x in r <==> x in s && x in m && m[x].kill != NoKill
    ensures Distinct(s) ==> Distinct(r)
  {
    if s == [] then []
    else
      var init := KillCalls(s[..|s| - 1], m);
      var x := s[|s| - 1];
      assert forall y :: y in s <==> y in s[..|s| - 1] || y == x by {
        assert s == s[..|s| - 1] + [x];
      }
      init + KillCall(m, x)
  }

  /** One more pid of `s` looked at. */
  lemma KillCallsStep(s: seq<int>, i: nat, m: map<int, Handle>)
    requires i < |s|
    ensures KillCalls(s[..i + 1], m) == KillCalls(s[..i], m) + KillCall(m, s[i])
  {
    assert s[..i + 1][..i] == s[..i];
  }

  /** `killProcess(pid)` removes the entry: it is registered and its `kill` does not throw. */
  predicate Reaps(m: map<int, Handle>, pid: int) {
    pid in m && m[pid].kill != Throws
  }

  /** The pids whose timer is waiting and due by time `t`. */
  function Due(timeouts: map<int, Timer>, t: int): (r: set<int>)
    ensures forall p :: p in r <==> p in timeouts && timeouts[p].pending && timeouts[p].deadline <= t
  {
    set p | p in timeouts && timeouts[p].pending && timeouts[p].deadline <= t
  }

  /** Of the pids in `fired`, those whose entry `killProcess` removes. */
  function Reaped(m: map<int, Handle>, fired: set<int>): (r: set<int>)
    ensures forall p :: p in r <==> p in fired && Reaps(m, p)
  {
    set p | p in fired && Reaps(m, p)
  }

  /**
   * The timers after the timers of `fired` have run: those whose process was
   * reaped are removed, the other fired ones stay as spent timers.
   */
  function AfterFiring(timeouts: map<int, Timer>, fired: set<int>, reaped: set<int>): (r: map<int, Timer>)
    ensures forall p :: p in r <==> p in timeouts && p !in reaped
  {
    map p | p in timeouts && p !in reaped ::
      if p in fired then timeouts[p].(pending := false) else timeouts[p]
  }

  class PtyCleanupService {
    var processes: map<int, Handle>
    /** The keys of `processes` in the order a `Map` iterates them: by first insertion. */
    var order: seq<int>
    var timeouts: map<int, Timer>
    var now: int
    var kills: seq<int>

    ghost predicate Valid()
      reads this
    {
      && Distinct(order)
      && (forall i | 0 <= i < |order| :: order[i] in processes)
      && (forall p | p in order :: p in processes)
      && (forall p | p in processes :: p in order)
    }

    constructor(now: int)
      ensures Valid() && processes == map[] && order == [] && timeouts == map[]
      ensures this.now == now && kills == []
    {
      processes := map[];
      order := [];
      timeouts := map[];
      this.now := now;
      kills := [];
    }

    /** `registerProcess`: a new pid goes last; a known pid keeps its place and gets the new handle. */
    method RegisterProcess(pid: int, handle: Handle)
      requires Valid()
      modifies this
      ensures Valid() && processes == old(processes)[pid := handle]
      ensures order == if pid in old(processes) then old(order) else old(order) + [pid]
      ensures timeouts == old(timeouts) && now == old(now) && kills == old(kills)
    {
      if pid !in processes {
        order := order + [pid];
      }
      processes := processes[pid := handle];
    }

    /** `hasProcess`. */
    predicate HasProcess(pid: int)
      reads this
    {
      pid in processes
    }

    /** `getAllProcesses`: the handles in iteration order. */
    function GetAllProcesses(): (r: seq<Handle>)
      requires Valid()
      reads this
      ensures |r| == |order|
      ensures forall i | 0 <= i < |r| :: r[i] == processes[order[i]]
    {
      Handles(order, processes)
    }

    /** Every registered handle is listed, and the list has one entry per pid. */
    lemma AllProcessesListed()
      requires Valid()
      ensures |GetAllProcesses()| == |processes|
      ensures forall p | p in processes :: exists i | 0 <= i < |order| :: order[i] == p && GetAllProcesses()[i] == processes[p]
    {
      var keys := set i | 0 <= i < |order| :: order[i];
      forall p | p in processes ensures p in keys {
        var i :| 0 <= i < |order| && order[i] == p;
      }
      assert keys == processes.Keys;
      DistinctCard(order);
    }

    /**
     * `killProcess`: for a registered pid, `kill` is called if there is one;
     * unless it throws, the pid is removed together with its timer. An
     * exception is swallowed and leaves the entry and its timer in place.
     */
    method KillProcess(pid: int)
      requires Valid()
      modifies this
      ensures Valid() && now == old(now)
      ensures kills == old(kills) + KillCall(old(processes), pid)
      ensures Reaps(old(processes), pid) ==>
        && processes == old(processes) - {pid}
        && order == Drop(old(order), {pid})
        && timeouts == old(timeouts) - {pid}
      ensures !Reaps(old(processes), pid) ==>
        processes == old(processes) && order == old(order) && timeouts == old(timeouts)
    {
      if pid in processes {
        var handle := processes[pid];
        if handle.kill != NoKill {
          kills := kills + [pid];
        }
        if handle.kill != Throws {
          processes := processes - {pid};
          order := Drop(order, {pid});
          assert forall p :: p in order <==> p in processes;
          assert forall i | 0 <= i < |order| :: order[i] in order;
          if pid in timeouts {
            timeouts := timeouts - {pid};
          } else {
            assert timeouts == timeouts - {pid};
          }
        }
      }
    }

    /**
     * `cleanupAll`: `kill` is called on every registered process in
     * iteration order, past any that throw; then every timer is cancelled
     * and both maps are emptied.
     */
    method CleanupAll()
      requires Valid()
      modifies this
      ensures Valid() && processes == map[] && order == [] && timeouts == map[]
      ensures kills == old(kills) + KillCalls(old(order), old(processes)) && now == old(now)
    {
      var pids, handles := order, processes;
      var calls := [];
      var i := 0;
      while i < |pids|
        invariant 0 <= i <= |pids|
        invariant calls == KillCalls(pids[..i], handles)
        invariant unchanged(this)
      {
        var pid := pids[i];
        KillCallsStep(pids, i, handles);
        if pid in handles && handles[pid].kill != NoKill {
          calls := calls + [pid];
        }
        i := i + 1;
      }
      assert pids[..i] == pids;
      kills := kills + calls;
      timeouts := map[];
      processes := map[];
      order := [];
    }

    /** `setProcessTimeout`: the pid's earlier timer, if any, is cancelled and replaced. */
    method SetProcessTimeout(pid: int, timeout: int)
      modifies this
      ensures timeouts == old(timeouts)[pid := Timer(now + Delay(timeout), true)]
      ensures processes == old(processes) && order == old(order) && now == old(now) && kills == old(kills)
    {
      timeouts := timeouts[pid := Timer(now + Delay(timeout), true)];
    }

    /** The callback of the timer of `pid` runs: it is spent, and `killProcess(pid)` follows. */
    method Fire(pid: int)
      requires Valid() && pid in timeouts
      modifies this
      ensures Valid() && now == old(now)
      ensures kills == old(kills) + KillCall(old(processes), pid)
      ensures Reaps(old(processes), pid) ==>
        && processes == old(processes) - {pid}
        && order == Drop(old(order), {pid})
        && timeouts == old(timeouts) - {pid}
      ensures !Reaps(old(processes), pid) ==>
        && processes == old(processes) && order == old(order)
        && timeouts == old(timeouts)[pid := old(timeouts)[pid].(pending := false)]
    {
      timeouts := timeouts[pid := timeouts[pid].(pending := false)];
      KillProcess(pid);
    }

    /**
     * `ms` milliseconds pass: every waiting timer whose deadline is reached
     * fires once, in some order, and the clock moves on.
     */
    method AdvanceTime(ms: nat)
      requires Valid()
      modifies this
      ensures Valid() && now == old(now) + ms
      ensures Fired(old(processes), old(order), old(timeouts), old(kills), Due(old(timeouts), now),
        processes, order, timeouts, kills)
      ensures Due(timeouts, now) == {}
    {
      var target := now + ms;
      var due := Due(timeouts, target);
      ghost var processes0, order0, timeouts0, kills0 := processes, order, timeouts, kills;
      var pids := Enumerate(due);
      FiredNone(processes0, order0, timeouts0, kills0);
      assert Elements(pids[..0]) == {};
      var i := 0;
      while i < |pids|
        invariant 0 <= i <= |pids|
        invariant Valid() && now == old(now)
        invariant Fired(processes0, order0, timeouts0, kills0, Elements(pids[..i]), processes, order, timeouts, kills)
      {
        var pid := pids[i];
        assert pid !in Elements(pids[..i]);
        FireNext(processes0, order0, timeouts0, kills0, Elements(pids[..i]), pid);
        assert Elements(pids[..i + 1]) == Elements(pids[..i]) + {pid} by {
          assert pids[..i + 1] == pids[..i] + [pid];
        }
        i := i + 1;
      }
      assert Elements(pids[..i]) == due by {
        assert pids[..i] == pids;
        forall x ensures x in Elements(pids) <==> x in due {
          assert x in Elements(pids) <==> x in pids;
        }
      }
      now := target;
    }

    /** One step of `AdvanceTime`: the timer of one more due pid fires. */
    method FireNext(ghost processes0: map<int, Handle>, ghost order0: seq<int>, ghost timeouts0: map<int, Timer>,
                    ghost kills0: seq<int>, ghost fired: set<int>, pid: int)
      requires Valid()
      requires Fired(processes0, order0, timeouts0, kills0, fired, processes, order, timeouts, kills)
      requires pid !in fired && pid in timeouts0
      modifies this
      ensures Valid() && now == old(now)
      ensures Fired(processes0, order0, timeouts0, kills0, fired + {pid}, processes, order, timeouts, kills)
    {
      FiredStep(processes0, order0, timeouts0, kills0, fired, pid, processes, order, timeouts, kills);
      Fire(pid);
    }

    /** `onApplicationShutdown`: the same as `cleanupAll`. */
    method OnApplicationShutdown()
      requires Valid()
      modifies this
      ensures Valid() && processes == map[] && order == [] && timeouts == map[]
      ensures kills == old(kills) + KillCalls(old(order), old(processes)) && now == old(now)
    {
      CleanupAll();
    }
  }

  /**
   * The state after the timers of `fired` ran, starting from `processes0`,
   * `order0`, `timeouts0` and `kills0`: the reaped pids are gone from the
   * registry and the timer map, the other fired timers are spent, and the
   * new part of the kill log lists each fired pid with a `kill` once.
   */
  ghost predicate Fired(
    processes0: map<int, Handle>, order0: seq<int>, timeouts0: map<int, Timer>, kills0: seq<int>, fired: set<int>,
    processes: map<int, Handle>, order: seq<int>, timeouts: map<int, Timer>, kills: seq<int>)
  {
    var gone := Reaped(processes0, fired);
    && processes == processes0 - gone
    && order == Drop(order0, gone)
    && timeouts == AfterFiring(timeouts0, fired, gone)
    && KillLog(processes0, kills0, fired, kills)
  }

  /** `kills` extends `kills0` by each pid of `fired` with a `kill` in `processes0`, once. */
  ghost predicate KillLog(processes0: map<int, Handle>, kills0: seq<int>, fired: set<int>, kills: seq<int>) {
    && |kills| >= |kills0| && kills[..|kills0|] == kills0 && Distinct(kills[|kills0|..])
    && forall p :: p in kills[|kills0|..] <==> p in fired && p in processes0 && processes0[p].kill != NoKill
  }

  /** Calling the `kill` of one more fired pid, if it has one, extends `KillLog` by that pid. */
  lemma KillLogStep(processes0: map<int, Handle>, kills0: seq<int>, fired: set<int>, kills: seq<int>,
                    pid: int, processes: map<int, Handle>)
    requires KillLog(processes0, kills0, fired, kills)
    requires pid !in fired && KillCall(processes, pid) == KillCall(processes0, pid)
    ensures KillLog(processes0, kills0, fired + {pid}, kills + KillCall(processes, pid))
  {
    var calls := kills + KillCall(processes, pid);
    assert calls[..|kills0|] == kills0;
    assert calls[|kills0|..] == kills[|kills0|..] + KillCall(processes, pid);
  }

  /** Nothing has fired yet. */
  lemma FiredNone(processes0: map<int, Handle>, order0: seq<int>, timeouts0: map<int, Timer>, kills0: seq<int>)
    ensures Fired(processes0, order0, timeouts0, kills0, {}, processes0, order0, timeouts0, kills0)
  {
    assert Reaped(processes0, {}) == {};
    DropNothing(order0);
  }

  /** Firing the timer of one more pid, as `Fire` does, extends `Fired` by that pid. */
  lemma FiredStep(
    processes0: map<int, Handle>, order0: seq<int>, timeouts0: map<int, Timer>, kills0: seq<int>, fired: set<int>, pid: int,
    processes: map<int, Handle>, order: seq<int>, timeouts: map<int, Timer>, kills: seq<int>)
    requires Fired(processes0, order0, timeouts0, kills0, fired, processes, order, timeouts, kills)
    requires pid !in fired && pid in timeouts0
    ensures pid in timeouts
    ensures var spent := timeouts[pid := timeouts[pid].(pending := false)];
      var calls := kills + KillCall(processes, pid);
      if Reaps(processes, pid) then
        Fired(processes0, order0, timeouts0, kills0, fired + {pid},
          processes - {pid}, Drop(order, {pid}), timeouts - {pid}, calls)
      else
        Fired(processes0, order0, timeouts0, kills0, fired + {pid}, processes, order, spent, calls)
  {
    var gone := Reaped(processes0, fired);
    assert pid !in gone;
    assert Reaps(processes, pid) == Reaps(processes0, pid);
    assert KillCall(processes, pid) == KillCall(processes0, pid);
    KillLogStep(processes0, kills0, fired, kills, pid, processes);
    if Reaps(processes0, pid) {
      assert Reaped(processes0, fired + {pid}) == gone + {pid};
      DropTwice(order0, gone, {pid});
    } else {
      assert Reaped(processes0, fired + {pid}) == gone;
    }
  }

  /** The elements of `s`. */
  ghost function Elements(s: seq<int>): set<int> {
    set x | x in s
  }

  /** A non-empty set has an element. */
  lemma Witness(s: set<int>) returns (x: int)
    requires s != {}
    ensures x in s
  {
    if forall y :: y !in s {
      assert false;
    }
    x :| x in s;
  }

  /** The elements of `s`, each once, in some order. */
  method Enumerate(s: set<int>) returns (r: seq<int>)
    ensures Distinct(r) && forall x :: x in r <==> x in s
  {
    r := [];
    var rest := s;
    while rest != {}
      invariant Distinct(r) && rest <= s
      invariant forall x :: x in r <==> x in s && x !in rest
      decreases rest
    {
      ghost var y := Witness(rest);
      var x :| x in rest;
      r := r + [x];
      rest := rest - {x};
    }
  }

  /** A sequence without repetitions has as many elements as the set of its elements. */
  lemma {:induction false} DistinctCard(s: seq<int>)
    requires Distinct(s)
    ensures |set i | 0 <= i < |s| :: s[i]| == |s|
  {
    if s != [] {
      var init := s[..|s| - 1];
      DistinctCard(init);
      var a := set i | 0 <= i < |init| :: init[i];
      var b := set i | 0 <= i < |s| :: s[i];
      assert b == a + {s[|s| - 1]};
      assert s[|s| - 1] !in a;
    }
  }

  /** When every pid has a `kill` to call, all of them are called, in order. */
  lemma {:induction false} AllKilled(s: seq<int>, m: map<int, Handle>)
    requires forall x :: x in s ==> x in m && m[x].kill != NoKill
    ensures KillCalls(s, m) == s
  {
    if s != [] {
      var init := s[..|s| - 1];
      AllKilled(init, m);
      assert s == init + [s[|s| - 1]];
    }
  }

  lemma FirstTwoDiffer(s: seq<int>)
    requires Distinct(s) && 1 < |s|
    ensures s[0] != s[1]
  {
  }

  /** A log without repetitions that mentions only `x`, and `x`, is `[x]`. */
  lemma SingletonLog(s: seq<int>, x: int)
    requires Distinct(s) && forall p :: p in s <==> p == x
    ensures s == [x]
  {
    assert x in s;
    forall i | 0 <= i < |s| ensures s[i] == x {
      assert s[i] in s;
    }
    if 1 < |s| {
      FirstTwoDiffer(s);
      assert false;
    }
  }

  /** The registry of the listing and clean-up tests: three processes with a working `kill`. */
  method ThreeProcesses() returns (service: PtyCleanupService)
    ensures fresh(service) && service.Valid()
    ensures service.order == [1001, 1002, 1003] && service.kills == []
    ensures forall x | x in service.order :: x in service.processes && service.processes[x] == Handle(x, Kills)
  {
    service := new PtyCleanupService(0);
    service.RegisterProcess(1001, Handle(1001, Kills));
    service.RegisterProcess(1002, Handle(1002, Kills));
    service.RegisterProcess(1003, Handle(1003, Kills));
  }

  /** The listing test: three registered processes are listed in registration order. */
  method ListingScenario() returns (listed: seq<int>)
    ensures listed == [1001, 1002, 1003]
  {
    var service := ThreeProcesses();
    var all := service.GetAllProcesses();
    listed := [all[0].pid, all[1].pid, all[2].pid];
  }

  /** The kill tests: killing a process calls its `kill` and unlists it; an unknown pid changes nothing. */
  method KillScenario() returns (afterKill: nat, killLog: seq<int>)
    ensures afterKill == 0 && killLog == [1001]
  {
    var service := new PtyCleanupService(0);
    service.RegisterProcess(1001, Handle(1001, Kills));
    service.KillProcess(1001);
    service.KillProcess(9999);
    afterKill, killLog := |service.GetAllProcesses()|, service.kills;
  }

  /** The clean-up test: every registered `kill` is called, in order, and nothing stays listed. */
  method CleanupScenario() returns (cleaned: nat, cleanupLog: seq<int>)
    ensures cleaned == 0 && cleanupLog == [1001, 1002, 1003]
  {
    var service := ThreeProcesses();
    AllKilled(service.order, service.processes);
    service.CleanupAll();
    cleaned, cleanupLog := |service.GetAllProcesses()|, service.kills;
  }

  /**
   * A process whose `kill` throws stays registered, timer included, and a
   * second attempt calls `kill` again.
   */
  method ThrowingKillScenario() returns (registered: bool, timerKept: bool, attempts: seq<int>)
    ensures registered && timerKept && attempts == [7, 7]
  {
    var service := new PtyCleanupService(0);
    service.RegisterProcess(7, Handle(7, Throws));
    service.SetProcessTimeout(7, 1000);
    service.KillProcess(7);
    service.KillProcess(7);
    registered, timerKept, attempts := service.HasProcess(7), 7 in service.timeouts, service.kills;
  }

  /** The timeout test: a 30-minute timer kills its process once 31 minutes have passed. */
  method TimeoutScenario() returns (killLog: seq<int>, registered: bool, timerLeft: bool)
    ensures killLog == [1001] && !registered && !timerLeft
  {
    var service := new PtyCleanupService(0);
    service.RegisterProcess(1001, Handle(1001, Kills));
    service.SetProcessTimeout(1001, 30 * 60 * 1000);
    assert Due(service.timeouts, 31 * 60 * 1000) == {1001};
    service.AdvanceTime(31 * 60 * 1000);
    SingletonLog(service.kills, 1001);
    killLog, registered, timerLeft := service.kills, service.HasProcess(1001), 1001 in service.timeouts;
  }
}
