/**
 * The backend's session manager (pty-manager.service.ts) as it stands: a
 * counter that numbers sessions `process-1`, `process-2`, ..., and a map
 * from id to session kept in creation order. No process is started, the
 * session's `write`, `resize`, `terminate` and event hooks do nothing, and
 * the two terminate operations of the manager do nothing either.
 *
 * Clock readings (`new Date()`) are parameters, in milliseconds; the ISO
 * text `getProcessInfo` makes of them is that number here.
 */
module PtyManager {
  import opened Wrappers
  import opened JsText

  datatype ProcessState = Running | Terminated

  /** `PTYProcessCreateRequest`; `createProcess` does not look at it. */
  datatype CreateRequest = CreateRequest(command: string, args: seq<string>, cols: int, rows: int)

  /** The data part of `ProcessSession`; its function members are all no-ops. */
  datatype ProcessSession = ProcessSession(processId: string, state: ProcessState, createdAt: int, terminatedAt: Option<int>)

  /** `PTYProcessInfo`. */
  datatype ProcessInfo = ProcessInfo(processId: string, state: ProcessState, createdAt: int, terminatedAt: Option<int>)

  /** `process-${n}`. */
  function ProcessId(n: nat): string {
    "process-" + Decimal(n)
  }

  /** Different counter values give different ids. */
  lemma ProcessIdInjective(a: nat, b: nat)
    requires ProcessId(a) == ProcessId(b)
    ensures a == b
  {
    assert Decimal(a) == ProcessId(a)[8..] == ProcessId(b)[8..] == Decimal(b);
    DecimalInjective(a, b);
  }

  /** The ids the first `n` calls of `createProcess` hand out, in order. */
  function IdsUpTo(n: nat): (r: seq<string>)
    ensures |r| == n
  {
    if n == 0 then [] else IdsUpTo(n - 1) + [ProcessId(n)]
  }

  lemma {:induction false} IdsUpToAt(n: nat, i: nat)
    requires i < n
    ensures IdsUpTo(n)[i] == ProcessId(i + 1)
  {
    if i < n - 1 {
      IdsUpToAt(n - 1, i);
    }
  }

  /** The ids handed out so far are pairwise distinct. */
  lemma IdsUpToDistinct(n: nat)
    ensures forall i, j | 0 <= i < j < n :: IdsUpTo(n)[i] != IdsUpTo(n)[j]
  {
    forall i, j | 0 <= i < j < n ensures IdsUpTo(n)[i] != IdsUpTo(n)[j] {
      IdsUpToAt(n, i);
      IdsUpToAt(n, j);
      if IdsUpTo(n)[i] == IdsUpTo(n)[j] {
        ProcessIdInjective(i + 1, j + 1);
      }
    }
  }

  /** The next id has not been handed out before. */
  lemma NextIdIsNew(n: nat)
    ensures ProcessId(n + 1) !in IdsUpTo(n)
  {
    if ProcessId(n + 1) in IdsUpTo(n) {
      var i :| 0 <= i < n && IdsUpTo(n)[i] == ProcessId(n + 1);
      IdsUpToAt(n, i);
      ProcessIdInjective(i + 1, n + 1);
    }
  }

  /** `PTYManagerService`. */
  class PTYManagerService {
    var processes: map<string, ProcessSession>
    /** The keys of `processes` in the order a `Map` iterates them. */
    var order: seq<string>
    var processIdCounter: nat

    /**
     * Every id handed out is still in the map, in creation order, under
     * itself, in the state it was created in.
     */
    ghost predicate Valid()
      reads this
    {
      && order == IdsUpTo(processIdCounter)
      && (forall id :: id in processes <==> id in order)
      && (forall id | id in processes ::
            processes[id].processId == id && processes[id].state == Running && processes[id].terminatedAt.None?)
    }

    constructor()
      ensures Valid() && processIdCounter == 0 && processes == map[]
    {
      processes := map[];
      order := [];
      processIdCounter := 0;
    }

    /**
     * `createProcess`: the counter goes up by one and names a new running
     * session created at `now`, which is stored under that name; no
     * earlier session is touched.
     */
    method CreateProcess(request: CreateRequest, now: int) returns (session: ProcessSession)
      requires Valid()
      modifies this
      ensures Valid() && processIdCounter == old(processIdCounter) + 1
      ensures session == ProcessSession(ProcessId(processIdCounter), Running, now, None)
      ensures session.processId !in old(processes)
      ensures processes == old(processes)[session.processId := session]
      ensures order == old(order) + [session.processId]
    {
      processIdCounter := processIdCounter + 1;
      var processId := ProcessId(processIdCounter);
      NextIdIsNew(processIdCounter - 1);
      session := ProcessSession(processId, Running, now, None);
      processes := processes[processId := session];
      order := order + [processId];
    }

    /** `getProcess`. */
    function GetProcess(processId: string): (r: Option<ProcessSession>)
      reads this
      ensures r.Some? <==> processId in processes
      ensures r.Some? ==> r.value == processes[processId]
    {
      if processId in processes then Some(processes[processId]) else None
    }

    /** `getAllProcesses`: one session per `createProcess` call, oldest first. */
    function GetAllProcesses(): (r: seq<ProcessSession>)
      requires Valid()
      reads this
      ensures |r| == processIdCounter
      ensures forall i | 0 <= i < |r| :: r[i] == processes[order[i]] && r[i].processId == ProcessId(i + 1)
    {
      assert forall i | 0 <= i < |order| :: order[i] in processes;
      forall i | 0 <= i < |order| ensures order[i] == ProcessId(i + 1) {
        IdsUpToAt(processIdCounter, i);
      }
      var ps, ids := processes, order;
      seq(|ids|, i requires 0 <= i < |ids| && ids[i] in ps => ps[ids[i]])
    }

    /** `terminateProcess`: not implemented yet; the session stays, running. */
    method TerminateProcess(processId: string, force: Option<bool>)
      requires Valid()
      ensures Valid() && GetProcess(processId) == old(GetProcess(processId))
    {
    }

    /** `terminateAllProcesses`: not implemented yet; every session stays, running. */
    method TerminateAllProcesses(force: Option<bool>)
      requires Valid()
      ensures Valid() && GetAllProcesses() == old(GetAllProcesses())
    {
    }

    /** `getProcessInfo`: the session's id, state and timestamps, or nothing for an unknown id. */
    function GetProcessInfo(processId: string): (r: Option<ProcessInfo>)
      requires Valid()
      reads this
      ensures r.None? <==> processId !in processes
      ensures r.Some? ==> r.value.processId == processId && r.value.state == Running && r.value.terminatedAt.None?
      ensures r.Some? ==> r.value.createdAt == processes[processId].createdAt
    {
      match GetProcess(processId)
      case None => None
      case Some(p) => Some(ProcessInfo(p.processId, p.state, p.createdAt, p.terminatedAt))
    }
  }

  /** Two sessions in a row are `process-1` and `process-2`; both are listed and can be looked up. */
  method TwoSessions() returns (first: ProcessSession, second: ProcessSession, listed: nat, unknown: Option<ProcessSession>)
    ensures first.processId == "process-1" && second.processId == "process-2"
    ensures first.state == Running && first.terminatedAt == None
    ensures listed == 2 && unknown == None
  {
    var manager := new PTYManagerService();
    var request := CreateRequest("echo", ["test"], 80, 24);
    first := manager.CreateProcess(request, 0);
    second := manager.CreateProcess(request, 1);
    assert Decimal(1) == "1" && Decimal(2) == "2";
    listed := |manager.GetAllProcesses()|;
    assert manager.order == [first.processId, second.processId];
    assert "process-0" != first.processId && "process-0" != second.processId by {
      assert "process-0"[8] == '0';
    }
    unknown := manager.GetProcess("process-0");
  }
}
