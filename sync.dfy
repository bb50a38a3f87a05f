/**
 * The mobile client's sync service (`SyncService` in
 * mobile/services/SyncService.ts): the connectivity check, the
 * execute-or-queue dispatcher and the sync pass that replays the offline
 * queue, guarded by the `isSyncing` flag.
 *
 * What the service learns from the outside world is passed in:
 * - `probe`: what the network-state query returned, `None` when it threw;
 * - `response`: the outcome of the one HTTP request `executeOrQueue` makes,
 *   `Some(data)` for a 2xx reply, `None` for any failure;
 * - `replay`: what happened to each queued action replayed in a pass;
 * - `fetchFails`: whether reading the queue threw.
 * Every HTTP request made is returned in `sent`, in the order it was made.
 */
module Sync {
  import opened Rows
  import opened Database

  datatype Option<T> = None | Some(value: T)

  /** The fields of expo-network's state that the check reads; either can be missing. */
  datatype NetworkState = NetworkState(isConnected: Option<bool>, isInternetReachable: Option<bool>)

  /** The methods `executeOrQueue` accepts. */
  datatype HttpMethod = POST | PUT | DELETE
  {
    function Name(): string {
      match this
      case POST => "POST"
      case PUT => "PUT"
      case DELETE => "DELETE"
    }
  }

  /** An HTTP request the client sends to the backend. */
  datatype Request = Request(httpMethod: string, endpoint: string, body: string)

  /** What `executeOrQueue` returns: `{success: true, data}` or `{success: false, queued: true}`. */
  datatype DispatchResult = Success(data: string) | Queued

  /**
   * What became of one action replayed by `sync`: the request failed; it
   * succeeded and its row was deleted; or it succeeded but deleting the row
   * threw, so the row stays and the action will be sent again.
   */
  datatype Replay = Failed | Delivered | DeliveredNotRemoved

  /** `checkConnectivity`: online only when the state says connected and reachable; an exception means offline. */
  function CheckConnectivity(probe: Option<NetworkState>): (online: bool)
    ensures online <==> probe.Some? && probe.value.isConnected == Some(true)
                        && probe.value.isInternetReachable == Some(true)
  {
    match probe
    case None => false
    case Some(state) => state.isConnected == Some(true) && state.isInternetReachable == Some(true)
  }

  /** The request that replays a queued action: its own method, endpoint and body. */
  function ReplayRequest(a: QueuedAction): Request {
    Request(a.httpMethod, a.endpoint, a.body)
  }

  /** The requests one pass sends: each fetched action exactly once, in fetched order. */
  function Replays(fetched: seq<QueuedAction>): (sent: seq<Request>)
    ensures |sent| == |fetched|
    ensures forall i :: 0 <= i < |fetched| ==> sent[i] == ReplayRequest(fetched[i])
  {
    if fetched == [] then []
    else Replays(fetched[..|fetched| - 1]) + [ReplayRequest(fetched[|fetched| - 1])]
  }

  /** The actions a pass leaves queued: those not delivered and deleted, in their fetched order. */
  function Survivors(fetched: seq<QueuedAction>, replay: QueuedAction -> Replay): (kept: seq<QueuedAction>)
    ensures IsSubsequence(kept, fetched)
    decreases |fetched|
  {
    if fetched == [] then []
    else
      var front := Survivors(fetched[..|fetched| - 1], replay);
      var last := fetched[|fetched| - 1];
      if replay(last) == Delivered then front
      else
        var kept := front + [last];
        assert kept[..|kept| - 1] == front;
        kept
  }

  /** An action stays queued exactly when its replay did not both succeed and get deleted. */
  lemma {:induction false} SurvivorsMembers(fetched: seq<QueuedAction>, replay: QueuedAction -> Replay)
    ensures forall i :: 0 <= i < |Survivors(fetched, replay)| ==>
              Survivors(fetched, replay)[i] in fetched && replay(Survivors(fetched, replay)[i]) != Delivered
    ensures forall i :: 0 <= i < |fetched| && replay(fetched[i]) != Delivered ==> fetched[i] in Survivors(fetched, replay)
    decreases |fetched|
  {
    if fetched != [] {
      var front := fetched[..|fetched| - 1];
      SurvivorsMembers(front, replay);
      assert fetched == front + [fetched[|fetched| - 1]];
    }
  }

  /** When every replay is delivered, the pass drains the queue. */
  lemma {:induction false} AllDeliveredDrains(fetched: seq<QueuedAction>, replay: QueuedAction -> Replay)
    requires forall i :: 0 <= i < |fetched| ==> replay(fetched[i]) == Delivered
    ensures Survivors(fetched, replay) == []
    decreases |fetched|
  {
    if fetched != [] {
      AllDeliveredDrains(fetched[..|fetched| - 1], replay);
    }
  }

  /** When no replay is delivered, the pass leaves the queue as it was. */
  lemma {:induction false} NoneDeliveredKeepsAll(fetched: seq<QueuedAction>, replay: QueuedAction -> Replay)
    requires forall i :: 0 <= i < |fetched| ==> replay(fetched[i]) != Delivered
    ensures Survivors(fetched, replay) == fetched
    decreases |fetched|
  {
    if fetched != [] {
      NoneDeliveredKeepsAll(fetched[..|fetched| - 1], replay);
      assert fetched == fetched[..|fetched| - 1] + [fetched[|fetched| - 1]];
    }
  }

  /** A queue left by a pass is still a valid table: ordered by creation time, ids unique and issued. */
  lemma SurvivorsValid(f: DatabaseFile, replay: QueuedAction -> Replay)
    requires f.Valid()
    ensures f.(actions := Survivors(f.actions, replay)).Valid()
  {
    var kept := Survivors(f.actions, replay);
    SubsequenceAscending(kept, f.actions, CreatedAt);
    SubsequenceUnique(kept, f.actions, ActionId);
    SurvivorsMembers(f.actions, replay);
    forall i | 0 <= i < |kept| ensures 0 < kept[i].id <= f.actionSeq {
      var j :| 0 <= j < |f.actions| && f.actions[j] == kept[i];
    }
  }

  /** Replaying the same queue again with the same outcomes removes nothing more: a pass is idempotent. */
  lemma {:induction false} SecondPassChangesNothing(fetched: seq<QueuedAction>, replay: QueuedAction -> Replay)
    ensures Survivors(Survivors(fetched, replay), replay) == Survivors(fetched, replay)
  {
    var kept := Survivors(fetched, replay);
    SurvivorsMembers(fetched, replay);
    NoneDeliveredKeepsAll(kept, replay);
  }

  /** Actions [A, B, C] where A fails and B and C are delivered leave [A] queued. */
  lemma PartialFailureKeepsFailed(a: QueuedAction, b: QueuedAction, c: QueuedAction, replay: QueuedAction -> Replay)
    requires replay(a) == Failed && replay(b) == Delivered && replay(c) == Delivered
    ensures Survivors([a, b, c], replay) == [a]
  {
    assert [a, b, c][..2] == [a, b];
    assert [a, b][..1] == [a];
    assert [a][..0] == [];
    assert Survivors([a], replay) == [a];
    assert Survivors([a, b], replay) == [a];
  }

  /** Before a pass has replayed anything, nothing is sent and the whole queue is pending. */
  lemma PassStarts(fetched: seq<QueuedAction>, replay: QueuedAction -> Replay)
    ensures Replays(fetched[..0]) == []
    ensures Survivors(fetched[..0], replay) + fetched[0..] == fetched
  {
    assert fetched[..0] == [];
  }

  /** After a pass has replayed every action, what was sent and what is left are those of the whole queue. */
  lemma PassEnds(fetched: seq<QueuedAction>, replay: QueuedAction -> Replay)
    ensures Replays(fetched[..|fetched|]) == Replays(fetched)
    ensures Survivors(fetched[..|fetched|], replay) + fetched[|fetched|..] == Survivors(fetched, replay)
  {
    assert fetched[..|fetched|] == fetched;
  }

  /** One step of a pass: the requests sent so far grow by the replay of the next action. */
  lemma ReplaysStep(fetched: seq<QueuedAction>, i: nat)
    requires i < |fetched|
    ensures Replays(fetched[..i + 1]) == Replays(fetched[..i]) + [ReplayRequest(fetched[i])]
  {
    assert fetched[..i + 1][..i] == fetched[..i];
  }

  /** How the survivors of a pass grow by one step. */
  lemma SurvivorsExtend(fetched: seq<QueuedAction>, i: nat, replay: QueuedAction -> Replay)
    requires i < |fetched|
    ensures replay(fetched[i]) == Delivered ==> Survivors(fetched[..i + 1], replay) == Survivors(fetched[..i], replay)
    ensures replay(fetched[i]) != Delivered ==>
              Survivors(fetched[..i + 1], replay) == Survivors(fetched[..i], replay) + [fetched[i]]
  {
    assert fetched[..i + 1][..i] == fetched[..i];
  }

  /** Taking out the row at the seam of `front + [x] + rest`. */
  lemma RemoveAtSeam(front: seq<QueuedAction>, x: QueuedAction, rest: seq<QueuedAction>)
    ensures var table := front + [x] + rest;
      |front| < |table| && table[|front|] == x && table[..|front|] + table[|front| + 1..] == front + rest
  {
    var table := front + [x] + rest;
    assert table[..|front|] == front;
    assert table[|front| + 1..] == rest;
  }

  /**
   * One step of a pass on the store: with the actions before `i` settled and
   * the rest still queued, a delivered action's row is the one deletion
   * removes, and an undelivered one stays where it is.
   */
  lemma SurvivorsStep(start: DatabaseFile, fetched: seq<QueuedAction>, i: nat, replay: QueuedAction -> Replay)
    requires i < |fetched|
    requires start.(actions := Survivors(fetched[..i], replay) + fetched[i..]).Valid()
    ensures replay(fetched[i]) == Delivered ==>
              RemoveQueued(start.(actions := Survivors(fetched[..i], replay) + fetched[i..]), fetched[i].id)
                == start.(actions := Survivors(fetched[..i + 1], replay) + fetched[i + 1..])
    ensures replay(fetched[i]) != Delivered ==>
              Survivors(fetched[..i], replay) + fetched[i..] == Survivors(fetched[..i + 1], replay) + fetched[i + 1..]
  {
    var front := Survivors(fetched[..i], replay);
    var rest := fetched[i + 1..];
    SurvivorsExtend(fetched, i, replay);
    assert fetched[i..] == [fetched[i]] + rest;
    assert front + fetched[i..] == front + [fetched[i]] + rest;
    if replay(fetched[i]) == Delivered {
      RemoveAtSeam(front, fetched[i], rest);
    }
  }

  /**
   * The `SyncService` object. `database` is the store it queues into; the
   * source reaches the same store through a module-level singleton.
   */
  class SyncService {
    var isSyncing: bool
    const database: DatabaseService

    ghost predicate Valid()
      reads this, database
    {
      database.Valid()
    }

    /** A new service is idle. The 30-second timer the constructor starts is not modelled; call `Sync` for each tick. */
    constructor (database: DatabaseService)
      requires database.Valid()
      ensures Valid() && !isSyncing && this.database == database
    {
      isSyncing := false;
      this.database := database;
    }

    /**
     * `executeOrQueue`: online, one request is sent; a 2xx reply is returned
     * and nothing is queued, a failure queues the action. Offline, nothing is
     * sent and the action is queued. Either way at most one row is added.
     */
    method ExecuteOrQueue(endpoint: string, httpMethod: HttpMethod, body: string,
                          probe: Option<NetworkState>, response: Option<string>, now: int)
      returns (result: DispatchResult, sent: seq<Request>)
      requires Valid()
      modifies database
      ensures Valid()
      ensures sent == if CheckConnectivity(probe) then [Request(httpMethod.Name(), endpoint, body)] else []
      ensures result == if CheckConnectivity(probe) && response.Some? then Success(response.value) else Queued
      ensures result.Success? ==> database.file == old(database.file) && database.handleOpen == old(database.handleOpen)
      ensures result.Queued? ==> database.file == Enqueue(old(database.file), endpoint, httpMethod.Name(), body, now)
    {
      var connected := CheckConnectivity(probe);
      sent := [];
      if connected {
        sent := [Request(httpMethod.Name(), endpoint, body)];
        match response {
          case Some(data) =>
            return Success(data), sent;
          case None =>
            database.QueueAction(endpoint, httpMethod.Name(), body, now);
            return Queued, sent;
        }
      } else {
        database.QueueAction(endpoint, httpMethod.Name(), body, now);
        result := Queued;
      }
    }

    /**
     * `sync`: one pass over the offline queue. A call made while a pass is in
     * progress, or while offline, sends nothing and changes nothing. Otherwise
     * the queue is read, each action replayed once in order and its row
     * deleted right after it is delivered; the queue left is the fetched one
     * minus the delivered actions, in order. A failure to read the queue is
     * swallowed. The flag is cleared at the end of every pass.
     */
    method Sync(probe: Option<NetworkState>, fetchFails: bool, replay: QueuedAction -> Replay)
      returns (sent: seq<Request>)
      requires Valid()
      modifies this, database
      ensures Valid()
      ensures isSyncing == old(isSyncing)
      ensures old(isSyncing) || !CheckConnectivity(probe) || fetchFails ==>
                sent == [] && database.file == old(database.file)
      ensures old(isSyncing) || !CheckConnectivity(probe) ==> database.handleOpen == old(database.handleOpen)
      ensures !old(isSyncing) && CheckConnectivity(probe) && !fetchFails ==>
                && sent == Replays(old(database.file.actions))
                && database.file == old(database.file).(actions := Survivors(old(database.file.actions), replay))
    {
      sent := [];
      if isSyncing { return; }
      var connected := CheckConnectivity(probe);
      if !connected { return; }

      isSyncing := true;
      if !fetchFails {
        sent := ReplayQueue(replay);
      }
      isSyncing := false;
    }

    /**
     * The body of `sync`'s try block after the queue is fetched: each action is
     * replayed once, in order, and its row deleted straight after its own
     * replay is delivered.
     */
    method ReplayQueue(replay: QueuedAction -> Replay) returns (sent: seq<Request>)
      requires Valid()
      modifies database
      ensures Valid()
      ensures sent == Replays(old(database.file.actions))
      ensures database.file == old(database.file).(actions := Survivors(old(database.file.actions), replay))
    {
      var actions := database.GetQueuedActions();
      ghost var start := database.file;
      PassStarts(actions, replay);
      sent := [];
      var i := 0;
      while i < |actions|
        invariant 0 <= i <= |actions|
        invariant database.Valid()
        invariant sent == Replays(actions[..i])
        invariant database.file == start.(actions := Survivors(actions[..i], replay) + actions[i..])
      {
        sent := sent + [ReplayRequest(actions[i])];
        ReplaysStep(actions, i);
        ReplayOne(actions, i, replay, start);
        i := i + 1;
      }
      PassEnds(actions, replay);
    }

    /** One iteration of `sync`'s loop: the next action's row is deleted exactly when its replay is delivered. */
    method ReplayOne(actions: seq<QueuedAction>, i: nat, replay: QueuedAction -> Replay, ghost start: DatabaseFile)
      requires i < |actions| && database.Valid()
      requires database.file == start.(actions := Survivors(actions[..i], replay) + actions[i..])
      modifies database
      ensures database.Valid()
      ensures database.file == start.(actions := Survivors(actions[..i + 1], replay) + actions[i + 1..])
    {
      SurvivorsStep(start, actions, i, replay);
      if replay(actions[i]) == Delivered {
        database.RemoveAction(actions[i].id);
      }
    }
  }

  /** A replay outcome under which every request succeeds and every row is deleted. */
  function AlwaysDelivered(a: QueuedAction): Replay { Delivered }

  /**
   * The offline scenario end to end, on a fresh install: a request made
   * while the network probe throws is queued under id 1, not sent, and
   * answered with `Queued`; the
   * next pass, online and with every replay succeeding, sends it once and
   * leaves the queue empty and the audit log untouched.
   */
  method OfflineThenOnline(body: string, now: int, online: NetworkState)
    returns (firstResult: DispatchResult, firstSent: seq<Request>, queued: seq<QueuedAction>, replayed: seq<Request>, after: DatabaseFile)
    requires online.isConnected == Some(true) && online.isInternetReachable == Some(true)
    ensures firstResult == Queued && firstSent == []
    ensures queued == [QueuedAction(1, "/api/analyze", "POST", body, now)]
    ensures replayed == [Request("POST", "/api/analyze", body)]
    ensures after.actions == [] && after.actionSeq == 1 && after.audit == [] && after.patients == []
  {
    EmptyFileValid();
    FreshInstallQueue(body, now);
    var store := new DatabaseService(EmptyFile);
    var service := new SyncService(store);
    firstResult, firstSent := service.ExecuteOrQueue("/api/analyze", POST, body, None, None, now);
    var row := QueuedAction(1, "/api/analyze", "POST", body, now);
    assert store.file == DatabaseFile([row], 1, [], [], 0);
    queued := store.file.actions;
    SinglePass(row);
    replayed := service.Sync(Some(online), false, AlwaysDelivered);
    after := store.file;
  }

  /** On a fresh install, queueing one request gives a queue of that one row under id 1, and nothing else. */
  lemma FreshInstallQueue(body: string, now: int)
    ensures EmptyFile.Valid()
    ensures Enqueue(EmptyFile, "/api/analyze", "POST", body, now)
              == DatabaseFile([QueuedAction(1, "/api/analyze", "POST", body, now)], 1, [], [], 0)
  {
    assert [] + [QueuedAction(1, "/api/analyze", "POST", body, now)] == [QueuedAction(1, "/api/analyze", "POST", body, now)];
  }

  /** A pass over a one-action queue where every replay is delivered sends that action and leaves nothing. */
  lemma SinglePass(a: QueuedAction)
    ensures Replays([a]) == [ReplayRequest(a)] && Survivors([a], AlwaysDelivered) == []
  {
    assert [a][..0] == [];
  }
}
