/**
 The steps of concurrent calls on the two backends (agentboard/inmemory.go,
 agentboard/local.go): each locked section or transaction is a call of the backend, the
 steps between them leave it alone. A backend driven by any events is at the world that
 the protocol reaches by them, so what holds in every interleaving holds of the backends.
 */
module ProtocolBackends {
  import opened Common
  import opened BoardTypes
  import opened BoardRows
  import opened BoardRules
  import opened BoardStore
  import opened PostProtocol
  import opened MemoryCaches
  import opened InMemoryBoard
  import opened LocalBoards

  type Calls = map<nat, Call>

  type Upserts = map<nat, Upserting>

  /** The events of posts that touch no board. */
  predicate AwayFromBoard(e: Event) {
    e.Arrive? || e.AgentPath? || e.HostReply?
  }

  predicate UpsertAway(e: UpsertEvent) {
    e.Begin? || e.Path? || e.Clock?
  }

  /** The steps of a post outside the lock. */
  method HostStep(calls: Calls, e: Event, ghost fold: Fold) returns (calls': Calls)
    requires AwayFromBoard(e)
    ensures forall w: World | w.calls == calls :: Next(w, e, fold) == w.(calls := calls')
  {
    match e {
      case Arrive(call, caller, request, behavior) =>
        if call in calls {
          return calls;
        }
        return calls[call := Call(caller, request, behavior, Arrived)];
      case AgentPath(call, author) =>
        if call !in calls || !calls[call].phase.Arrived? {
          return calls;
        }
        var phase := Finished(Err(InvalidPost), false);
        if ValidPostRequest(calls[call].request) {
          phase := if author.None? then Finished(Err(HostFailed), false) else Named(author.value);
        }
        return calls[call := calls[call].(phase := phase)];
      case HostReply(call, host) =>
        if call !in calls || !calls[call].phase.Pending? {
          return calls;
        }
        var recipients: Option<set<string>> := Some({});
        if calls[call].behavior == Discussion {
          recipients := ResolveAgents(host, calls[call].request.agentsToNotify);
        }
        var phase := Finished(Err(HostFailed), false);
        if recipients.Some? && host.now.Some? {
          phase := Ready(calls[call].phase.author, recipients.value, host.now.value);
        }
        return calls[call := calls[call].(phase := phase)];
    }
  }

  /** The steps of an upsert outside the lock. */
  method UpsertHostStep(upserts: Upserts, call: nat, e: UpsertEvent, ghost fold: Fold) returns (upserts': Upserts)
    requires UpsertAway(e)
    ensures forall w: World | w.upserts == upserts :: UpsertStep(w, call, e, fold) == w.(upserts := upserts')
  {
    match e {
      case Begin(name, description) =>
        if call in upserts {
          return upserts;
        }
        return upserts[call := Upserting(name, description, Begun)];
      case Path(author) =>
        if call !in upserts || !upserts[call].phase.Begun? {
          return upserts;
        }
        var phase := Ended(Err(InvalidChannelName));
        if ValidChannelName(upserts[call].name) {
          phase := if !ValidDescription(Some(upserts[call].description)) then Ended(Err(InvalidDescription))
                   else if author.None? then Ended(Err(HostFailed)) else Known(author.value);
        }
        return upserts[call := upserts[call].(phase := phase)];
      case Clock(now) =>
        if call !in upserts || !upserts[call].phase.Missing? {
          return upserts;
        }
        var phase := if now.None? then Ended(Err(HostFailed)) else Clocked(upserts[call].phase.author, now.value);
        return upserts[call := upserts[call].(phase := phase)];
    }
  }

  // The in-memory board

  /** The world consists of this board and these calls. */
  ghost predicate AtMemory(w: World, mem: MemoryBoard, calls: Calls, upserts: Upserts)
    reads mem
  {
    mem.Valid() && w == World(mem.table, w.nextSeq, calls, upserts)
  }

  method CheckMemory(mem: MemoryBoard, calls: Calls, call: nat, ghost w: World) returns (calls': Calls)
    requires mem.Valid() && call in calls && calls[call].phase.Named? && w.rows == mem.table && w.calls == calls
    ensures CheckStep(w, call, calls[call].phase.author) == w.(calls := calls')
  {
    var c := calls[call];
    var existing := mem.ExistingPost(c.caller, c.request, c.behavior);
    calls' := Checked(calls, call, existing);
  }

  /** What a check leaves of its call. */
  method Checked(calls: Calls, call: nat, existing: Outcome<Option<Metadata>>) returns (calls': Calls)
    requires call in calls && calls[call].phase.Named?
    ensures calls' == calls[call := calls[call].(phase := match existing
      case Err(error) => Finished(Err(error), false)
      case Ok(Some(metadata)) => Finished(Ok(Posted(metadata, {})), false)
      case Ok(None) => Pending(calls[call].phase.author))]
  {
    var phase := Pending(calls[call].phase.author);
    if existing.Err? {
      phase := Finished(Err(existing.error), false);
    } else if existing.value.Some? {
      phase := Finished(Ok(Posted(existing.value.value, {})), false);
    }
    return calls[call := calls[call].(phase := phase)];
  }

  method CommitMemory(mem: MemoryBoard, calls: Calls, call: nat, id: string, ghost w: World) returns (calls': Calls)
    requires mem.Valid() && call in calls && calls[call].phase.Ready? && w.rows == mem.table && w.calls == calls
    requires FreshPost(mem.table, w.nextSeq, id)
    modifies mem
    ensures mem.Valid()
    ensures var p := calls[call].phase;
      var next := CommitStep(w, call, p.author, p.recipients, p.now, id, mem.fold);
      next == World(mem.table, next.nextSeq, calls', w.upserts)
  {
    hide CommitPost, FreshPost, Good;
    var c, before := calls[call], |mem.posts|;
    var p := c.phase;
    LogLength(mem);
    CommitLength(mem.table, w.nextSeq, c.caller, c.request, c.behavior, p.author, p.now, id, p.recipients, mem.fold);
    var outcome := mem.CommitPost(c.caller, c.request, c.behavior, p.author, p.now, id, p.recipients, w.nextSeq);
    LogLength(mem);
    return calls[call := c.(phase := Finished(outcome, |mem.posts| != before))];
  }

  lemma LogLength(mem: MemoryBoard)
    requires mem.Valid()
    ensures |mem.posts| == |mem.table.posts|
  {
  }

  /** The post table changed iff it is longer. */
  lemma CommitLength(r: Rows, seqNo: nat, caller: string, request: PostRequest, behavior: Behavior, author: string, now: int,
                     id: string, named: set<string>, fold: Fold)
    ensures var s := CommitPost(r, seqNo, caller, request, behavior, author, now, id, named, fold).0;
      s.posts != r.posts <==> |s.posts| != |r.posts|
  {
    CommitGrows(r, seqNo, caller, request, behavior, author, now, id, named, fold);
  }

  /** The two locked sections of an upsert. */
  method UpsertMemory(mem: MemoryBoard, upserts: Upserts, call: nat, e: UpsertEvent, ghost w: World) returns (upserts': Upserts)
    requires mem.Valid() && w.rows == mem.table && w.upserts == upserts && UpsertsHold(w) && !UpsertAway(e)
    modifies mem
    ensures mem.Valid() && UpsertStep(w, call, e, mem.fold) == w.(rows := mem.table, upserts := upserts')
  {
    hide Good, ValidChannelName;
    upserts' := upserts;
    if call in upserts {
      var u := upserts[call];
      if e.Try? && u.phase.Known? {
        var found := mem.DescribePresent(u.name, u.description);
        upserts' := upserts[call := u.(phase := if found then Ended(Ok(())) else Missing(u.phase.author))];
      } else if e.Again? && u.phase.Clocked? {
        var result := mem.UpsertAgain(u.name, u.description, u.phase.author, u.phase.now);
        upserts' := upserts[call := u.(phase := Ended(result))];
      }
    }
  }

  method OtherMemory(mem: MemoryBoard, op: Op)
    requires mem.Valid() && OneSection(op)
    modifies mem
    ensures mem.Valid() && mem.table == Apply(old(mem.table), op, mem.fold)
  {
    match op {
      case Create(caller, name, description, subscription, host) =>
        var _ := mem.CreateChannel(caller, name, description, subscription, host);
      case SetSub(change, host) =>
        var _ := mem.SetSubscription(change, host);
    }
  }

  /** One event at the in-memory board: the board and the calls are then at the next world. */
  method StepMemory(mem: MemoryBoard, calls: Calls, upserts: Upserts, e: Event, ghost w: World)
      returns (calls': Calls, upserts': Upserts)
    requires AtMemory(w, mem, calls, upserts) && WorldInv(w) && Possible(w, e)
    modifies mem
    ensures AtMemory(Next(w, e, mem.fold), mem, calls', upserts')
  {
    hide Good, CallInv, CommitStep, CheckStep, UpsertStep, Apply;
    calls', upserts' := calls, upserts;
    if AwayFromBoard(e) {
      calls' := HostStep(calls, e, mem.fold);
    } else if e.Check? {
      if e.call in calls && calls[e.call].phase.Named? {
        calls' := CheckMemory(mem, calls, e.call, w);
      }
    } else if e.Commit? {
      if e.call in calls && calls[e.call].phase.Ready? {
        calls' := CommitMemory(mem, calls, e.call, e.id, w);
      }
    } else if e.Upsert? {
      if UpsertAway(e.step) {
        upserts' := UpsertHostStep(upserts, e.call, e.step, mem.fold);
      } else {
        upserts' := UpsertMemory(mem, upserts, e.call, e.step, w);
      }
    } else if OneSection(e.op) {
      OtherMemory(mem, e.op);
    }
  }

  /** A new in-memory board driven by any events is at the world they lead to. */
  method RunMemory(mem: MemoryBoard, events: seq<Event>) returns (calls: Calls, upserts: Upserts)
    requires mem.Valid() && mem.table == EMPTY_ROWS && PossibleRun(events, mem.fold)
    modifies mem
    ensures AtMemory(After(events, mem.fold), mem, calls, upserts)
    decreases |events|
  {
    if events == [] {
      return map[], map[];
    }
    var front, last := events[..|events| - 1], events[|events| - 1];
    calls, upserts := RunMemory(mem, front);
    EveryInterleaving(front, mem.fold);
    calls, upserts := StepMemory(mem, calls, upserts, last, After(front, mem.fold));
  }

  // The board of the SQLite backend

  /** The world consists of this board of the database and these calls. */
  ghost predicate AtStore(w: World, store: LocalStore, board: string, calls: Calls, upserts: Upserts)
    reads store
  {
    && store.Valid() && store.fileExists && board !in store.db.deleted
    && w == World(BoardAt(store.db, board), store.db.nextSeq, calls, upserts)
  }

  method CheckStore(store: LocalStore, board: string, calls: Calls, call: nat, ghost w: World) returns (calls': Calls)
    requires store.Valid() && call in calls && calls[call].phase.Named?
    requires w.rows == BoardAt(store.db, board) && w.calls == calls
    ensures CheckStep(w, call, calls[call].phase.author) == w.(calls := calls')
  {
    var c := calls[call];
    var existing := store.ExistingPost(board, c.caller, c.request, c.behavior);
    calls' := Checked(calls, call, existing);
  }

  method CommitStore(store: LocalStore, board: string, calls: Calls, call: nat, id: string, ghost w: World) returns (calls': Calls)
    requires AtStore(w, store, board, calls, w.upserts) && call in calls && calls[call].phase.Ready? && FreshID(store.db, board, id)
    modifies store
    ensures var p := calls[call].phase;
      AtStore(CommitStep(w, call, p.author, p.recipients, p.now, id, store.fold), store, board, calls', w.upserts)
  {
    hide CommitPost, FreshID, StoreInv, Holds, BoardOf;
    var c := calls[call];
    var p := c.phase;
    CommitLength(w.rows, w.nextSeq, c.caller, c.request, c.behavior, p.author, p.now, id, p.recipients, store.fold);
    CommitGrows(w.rows, w.nextSeq, c.caller, c.request, c.behavior, p.author, p.now, id, p.recipients, store.fold);
    var before := store.nextSeq;
    var outcome := store.CommitPost(board, c.caller, c.request, c.behavior, p.author, p.now, id, p.recipients);
    return calls[call := c.(phase := Finished(outcome, store.nextSeq != before))];
  }

  /** The two transactions of an upsert. */
  method UpsertStore(store: LocalStore, board: string, upserts: Upserts, call: nat, e: UpsertEvent, ghost w: World)
      returns (upserts': Upserts)
    requires AtStore(w, store, board, w.calls, upserts) && !UpsertAway(e)
    modifies store
    ensures AtStore(UpsertStep(w, call, e, store.fold), store, board, w.calls, upserts')
  {
    hide StoreInv, Holds, BoardOf;
    upserts' := upserts;
    if call in upserts {
      var u := upserts[call];
      if e.Try? && u.phase.Known? {
        var found := store.UpdateChannel(board, u.name, u.description);
        upserts' := upserts[call := u.(phase := if found.Ok? && found.value then Ended(Ok(())) else Missing(u.phase.author))];
      } else if e.Again? && u.phase.Clocked? {
        var result := store.InsertChannelAgain(board, u.name, u.description, u.phase.author, u.phase.now);
        upserts' := upserts[call := u.(phase := Ended(result))];
      }
    }
  }

  method OtherStore(store: LocalStore, board: string, op: Op, ghost w: World)
    requires AtStore(w, store, board, w.calls, w.upserts) && OneSection(op)
    modifies store
    ensures AtStore(w.(rows := Apply(w.rows, op, store.fold)), store, board, w.calls, w.upserts)
  {
    hide StoreInv, Holds, BoardOf, CreateChannel, SetSubscription;
    ApplyLength(w.rows, op, store.fold);
    match op {
      case Create(caller, name, description, subscription, host) =>
        var _ := store.CreateChannel(board, caller, name, description, subscription, host);
      case SetSub(change, host) =>
        var _ := store.SetSubscription(board, change, host);
    }
  }

  lemma ApplyLength(r: Rows, op: Op, fold: Fold)
    requires OneSection(op)
    ensures Apply(r, op, fold).posts == r.posts
  {
  }

  /** One event at a board of the SQLite backend. */
  method StepStore(store: LocalStore, board: string, calls: Calls, upserts: Upserts, e: Event, ghost w: World)
      returns (calls': Calls, upserts': Upserts)
    requires AtStore(w, store, board, calls, upserts) && Possible(w, e)
    modifies store
    ensures AtStore(Next(w, e, store.fold), store, board, calls', upserts')
  {
    hide StoreInv, Holds, BoardOf, CommitStep, CheckStep, UpsertStep, Apply;
    calls', upserts' := calls, upserts;
    if AwayFromBoard(e) {
      calls' := HostStep(calls, e, store.fold);
    } else if e.Check? {
      if e.call in calls && calls[e.call].phase.Named? {
        calls' := CheckStore(store, board, calls, e.call, w);
      }
    } else if e.Commit? {
      if e.call in calls && calls[e.call].phase.Ready? {
        calls' := CommitStore(store, board, calls, e.call, e.id, w);
      }
    } else if e.Upsert? {
      if UpsertAway(e.step) {
        upserts' := UpsertHostStep(upserts, e.call, e.step, store.fold);
      } else {
        upserts' := UpsertStore(store, board, upserts, e.call, e.step, w);
      }
    } else if OneSection(e.op) {
      OtherStore(store, board, e.op, w);
    }
  }

  /** A new database driven on one board by any events is at the world they lead to. */
  method RunOnStore(store: LocalStore, board: string, events: seq<Event>) returns (calls: Calls, upserts: Upserts)
    requires store.Valid() && store.db == EMPTY_DB.(fileExists := true) && PossibleRun(events, store.fold)
    modifies store
    ensures AtStore(After(events, store.fold), store, board, calls, upserts)
    decreases |events|
  {
    if events == [] {
      return map[], map[];
    }
    var front, last := events[..|events| - 1], events[|events| - 1];
    calls, upserts := RunOnStore(store, board, front);
    calls, upserts := StepStore(store, board, calls, upserts, last, After(front, store.fold));
  }
}
