/**
 The two backends side by side (agentboard/inmemory.go, agentboard/local.go): driven by
 the same calls with the same answers of the host, they hold the same board, give the
 same outcomes and answer every read alike, except for the order in which two errors of
 one call are noticed.
 */
module BoardAgreement {
  import opened Common
  import opened Paging
  import opened BoardTypes
  import opened BoardRows
  import opened BoardRules
  import opened BoardQueries
  import opened BoardStore
  import opened InMemoryBoard
  import opened LocalBoards

  /** The in-memory board holds the board of this name in the database. */
  ghost predicate Agree(mem: MemoryBoard, store: LocalStore, board: string)
    reads mem, store
  {
    && mem.Valid() && store.Valid() && store.fileExists && mem.fold == store.fold
    && board !in store.db.deleted && mem.table == BoardAt(store.db, board)
  }

  /** A call with two faults: the in-memory board notices the description or the host first. */
  predicate TwoFaults(op: Op) {
    op.Create? && !ValidChannelName(op.name) && (!ValidDescription(op.description) || op.host.agentPath.None? || op.host.now.None?)
  }

  /** What a call reports. */
  datatype Report =
    | ChannelMade(created: Outcome<ChannelSummary>)
    | Upserted(upserted: Outcome<()>)
    | Wrote(wrote: Outcome<Posted>)
    | Changed(changed: Outcome<SubscriptionState>)

  predicate Failed(r: Report) {
    match r
    case ChannelMade(o) => o.Err?
    case Upserted(o) => o.Err?
    case Wrote(o) => o.Err?
    case Changed(o) => o.Err?
  }

  method ApplyBoth(mem: MemoryBoard, store: LocalStore, board: string, op: Op) returns (a: Report, b: Report)
    requires Agree(mem, store, board) && Allowed(store.db, OnBoard(board, op))
    modifies mem, store
    ensures Agree(mem, store, board)
    ensures store.db == Step(old(store.db), OnBoard(board, op), store.fold)
    ensures a == b <==> !TwoFaults(op)
    ensures a != b ==> Failed(a) && Failed(b)
  {
    assert BoardInv(store.db, board);
    match op {
      case Create(caller, name, description, subscription, host) =>
        var x := mem.CreateChannel(caller, name, description, subscription, host);
        var y := store.CreateChannel(board, caller, name, description, subscription, host);
        a, b := ChannelMade(x), ChannelMade(y);
      case Upsert(name, description, host) =>
        var x := mem.UpsertChannel(name, description, host);
        var y := store.UpsertChannel(board, name, description, host);
        a, b := Upserted(x), Upserted(y);
      case Write(_, caller, request, behavior, host, id) =>
        var x := mem.PostInner(caller, request, behavior, host, id, store.db.nextSeq);
        var y := store.PostInner(board, caller, request, behavior, host, id);
        a, b := Wrote(x), Wrote(y);
      case SetSub(change, host) =>
        var x := mem.SetSubscription(change, host);
        var y := store.SetSubscription(board, change, host);
        a, b := Changed(x), Changed(y);
    }
  }

  /** A transaction that leaves the board of this name to the calls driven on both backends. */
  predicate Elsewhere(op: StoreOp, board: string) {
    match op
    case OnBoard(other, _) => other != board
    case Delete(roots) => board !in roots
    case Pin(other, _, _, _) => other != board
  }

  lemma ElsewhereKeeps(db: Db, op: StoreOp, board: string, fold: Fold)
    requires Elsewhere(op, board)
    ensures BoardAt(Step(db, op, fold), board) == BoardAt(db, board)
    ensures board in Step(db, op, fold).deleted <==> board in db.deleted
  {
    match op
    case OnBoard(other, write) => WriteElsewhere(db, other, write, board, fold);
    case Delete(roots) => DeleteEachClears(db, roots, board);
    case Pin(other, template, bytes, now) => PinElsewhere(db, other, template, bytes, now, board, fold);
  }

  lemma WriteElsewhere(db: Db, other: string, op: Op, board: string, fold: Fold)
    requires other != board
    ensures BoardAt(Step(db, OnBoard(other, op), fold), board) == BoardAt(db, board)
    ensures Step(db, OnBoard(other, op), fold).deleted == db.deleted
  {
  }

  lemma PinElsewhere(db: Db, other: string, t: Template, bytes: nat, now: int, board: string, fold: Fold)
    requires other != board
    ensures BoardAt(Configure(db, other, t, bytes, now, fold).0, board) == BoardAt(db, board)
    ensures Configure(db, other, t, bytes, now, fold).0.deleted == db.deleted
  {
  }

  /** One transaction on the database alone. */
  method ApplyStore(store: LocalStore, op: StoreOp)
    requires store.Valid() && store.fileExists && Allowed(store.db, op)
    requires op.Pin? ==> op.bytes == store.encodedBytes(op.template)
    modifies store
    ensures store.Valid() && store.fileExists && store.db == Step(old(store.db), op, store.fold)
  {
    match op {
      case OnBoard(board, Create(caller, name, description, subscription, host)) =>
        var _ := store.CreateChannel(board, caller, name, description, subscription, host);
      case OnBoard(board, Upsert(name, description, host)) =>
        var _ := store.UpsertChannel(board, name, description, host);
      case OnBoard(board, Write(_, caller, request, behavior, host, id)) =>
        var _ := store.PostInner(board, caller, request, behavior, host, id);
      case OnBoard(board, SetSub(change, host)) =>
        var _ := store.SetSubscription(board, change, host);
      case Delete(roots) =>
        DeleteEachCounts(store.db, roots);
        store.DeleteBoards(roots);
      case Pin(board, template, bytes, now) =>
        var _ := store.Configure(board, template, now);
    }
  }

  /** One transaction, on both backends if it is a call on the board. */
  method StepBoth(mem: MemoryBoard, store: LocalStore, board: string, op: StoreOp) returns (a: seq<Report>, b: seq<Report>)
    requires Agree(mem, store, board) && Allowed(store.db, op) && Drives(store, board, op)
    modifies mem, store
    ensures Agree(mem, store, board) && store.db == Step(old(store.db), op, store.fold)
    ensures Alike(a, b) && (a == b <==> !Faulty(op, board))
  {
    if op.OnBoard? && op.board == board {
      var x, y := ApplyBoth(mem, store, board, op.op);
      OneReport(op, board, x, y);
      a, b := [x], [y];
    } else {
      ElsewhereKeeps(store.db, op, board, store.fold);
      ApplyStore(store, op);
      a, b := [], [];
    }
  }

  /** The operation is a call on the board, or leaves it alone. */
  ghost predicate Drives(store: LocalStore, board: string, op: StoreOp) {
    && ((op.OnBoard? && op.board == board) || Elsewhere(op, board))
    && (op.Pin? ==> op.bytes == store.encodedBytes(op.template))
  }

  /** A call on this board with two faults. */
  predicate Faulty(op: StoreOp, board: string) {
    op.OnBoard? && op.board == board && TwoFaults(op.op)
  }

  /** Reports that differ at most in which error they name. */
  ghost predicate Alike(a: seq<Report>, b: seq<Report>) {
    |a| == |b| && forall k :: 0 <= k < |a| ==> a[k] == b[k] || (Failed(a[k]) && Failed(b[k]))
  }

  ghost predicate NoFaults(ops: seq<StoreOp>, board: string) {
    forall op | op in ops :: !Faulty(op, board)
  }

  ghost predicate DrivesAll(store: LocalStore, board: string, ops: seq<StoreOp>) {
    forall op | op in ops :: Drives(store, board, op)
  }

  lemma DrivesFront(store: LocalStore, board: string, ops: seq<StoreOp>)
    requires DrivesAll(store, board, ops) && ops != []
    ensures DrivesAll(store, board, ops[..|ops| - 1]) && Drives(store, board, ops[|ops| - 1])
  {
  }

  lemma OneReport(op: StoreOp, board: string, x: Report, y: Report)
    requires x == y <==> !Faulty(op, board)
    requires x != y ==> Failed(x) && Failed(y)
    ensures Alike([x], [y]) && ([x] == [y] <==> !Faulty(op, board))
  {
    assert [x] == [y] <==> x == y by {
      assert [x][0] == x && [y][0] == y;
    }
  }

  lemma AlikeJoined(ops: seq<StoreOp>, board: string, a: seq<Report>, b: seq<Report>, x: seq<Report>, y: seq<Report>)
    requires ops != [] && Alike(a, b) && Alike(x, y)
    requires a == b <==> NoFaults(ops[..|ops| - 1], board)
    requires x == y <==> !Faulty(ops[|ops| - 1], board)
    ensures Alike(a + x, b + y) && (a + x == b + y <==> NoFaults(ops, board))
  {
    assert (a + x)[..|a|] == a && (b + y)[..|b|] == b && (a + x)[|a|..] == x && (b + y)[|b|..] == y;
    assert forall op :: op in ops <==> op in ops[..|ops| - 1] || op == ops[|ops| - 1];
  }

  /**
   Any run: calls on the board go to both backends, with any transactions on other boards
   in between. The backends hold the same board at the end, and reported the same on the
   way exactly if no call on the board had two faults.
   */
  method RunBoth(mem: MemoryBoard, store: LocalStore, board: string, ops: seq<StoreOp>) returns (a: seq<Report>, b: seq<Report>)
    requires Agree(mem, store, board) && AllowedRun(store.db, ops, store.fold)
    requires DrivesAll(store, board, ops)
    modifies mem, store
    ensures Agree(mem, store, board) && store.db == RunStore(old(store.db), ops, store.fold)
    ensures Alike(a, b) && (a == b <==> NoFaults(ops, board))
    decreases |ops|
  {
    if ops == [] {
      return [], [];
    }
    var front, last := ops[..|ops| - 1], ops[|ops| - 1];
    DrivesFront(store, board, ops);
    a, b := RunBoth(mem, store, board, front);
    var x, y := StepBoth(mem, store, board, last);
    AlikeJoined(ops, board, a, b, x, y);
    a, b := a + x, b + y;
  }

  datatype Reads = Reads(channels: ChannelQuery, threads: ThreadQuery, posts: PostQuery, thread: ReadThreadRequest,
                         id: string, offsetChars: int, limitChars: int)

  datatype Answers = Answers(channels: Outcome<Page<ChannelSummary>>, threads: Outcome<Page<ThreadSummary>>,
                             posts: Outcome<Page<PostPreview>>, thread: Outcome<ThreadPage>, post: Outcome<(Metadata, Slice)>)

  /** A search with a cursor that does not decode, after a message that does not exist. */
  predicate FaultySearch(r: Rows, q: PostQuery) {
    q.afterMessageID.Some? && FindPost(r.posts, q.afterMessageID.value) == None && DecodeCursor(q.page.cursor).Err?
  }

  /** Both backends give every read the same answer; of two errors of a search each reports one. */
  method ReadBoth(mem: MemoryBoard, store: LocalStore, board: string, q: Reads) returns (a: Answers, b: Answers)
    requires Agree(mem, store, board)
    ensures a == b <==> !FaultySearch(mem.table, q.posts)
    ensures a == b.(posts := a.posts) && (a.posts.Err? <==> b.posts.Err?)
  {
    var channels, channels' := ReadChannels(mem, store, board, q.channels);
    var threads := mem.ListThreads(q.threads);
    var posts := mem.SearchPosts(q.posts);
    var thread := mem.ReadThread(q.thread);
    var post := mem.ReadPost(q.id, q.offsetChars, q.limitChars);
    a := Answers(channels, threads, posts, thread, post);
    threads := store.ListThreads(board, q.threads);
    posts := store.SearchPosts(board, q.posts);
    thread := store.ReadThread(board, q.thread);
    post := store.ReadPost(board, q.id, q.offsetChars, q.limitChars);
    b := Answers(channels', threads, posts, thread, post);
  }

  method ReadChannels(mem: MemoryBoard, store: LocalStore, board: string, q: ChannelQuery)
      returns (a: Outcome<Page<ChannelSummary>>, b: Outcome<Page<ChannelSummary>>)
    requires Agree(mem, store, board)
    ensures a == b
  {
    a := mem.ListChannels(q);
    b := store.ListChannels(board, q);
    ChannelPageUnique(mem.table, q, mem.fold, a, b);
  }

  // Inputs on which the backends do differ

  /** An empty channel name, from a caller that the host does not know. */
  const TWO_FAULTS: Op := Create("agent", "", None, Subscribe, Host(None, (path: string) => None, None))

  /** On an empty board, a search after a message that does not exist, with an empty cursor. */
  const FAULTY_SEARCH: PostQuery := PostQuery(None, None, Some("m"), None, PageRequest(Some(""), 0), 0)

  lemma FaultsHappen()
    ensures TwoFaults(TWO_FAULTS) && FaultySearch(EMPTY_ROWS, FAULTY_SEARCH)
  {
    assert TrimSpace("") == "";
  }

  /** New backends agree on the empty board. */
  method NewBackends(fold: Fold, encodedBytes: Template -> nat, board: string) returns (mem: MemoryBoard, store: LocalStore)
    requires TrimSpace(board) != ""
    ensures Agree(mem, store, board) && mem.table == EMPTY_ROWS && fresh(mem) && fresh(store)
  {
    mem := new MemoryBoard(fold);
    store := new LocalStore(fold, encodedBytes);
    var handle := store.Open(board);
  }

  /** There the two calls get different answers from them. */
  method BackendsDiffer(mem: MemoryBoard, store: LocalStore, board: string, q: Reads)
      returns (a: Report, b: Report, x: Answers, y: Answers)
    requires Agree(mem, store, board) && mem.table == EMPTY_ROWS && q.posts == FAULTY_SEARCH
    modifies mem, store
    ensures a != b && x.posts != y.posts
  {
    hide TwoFaults, FaultySearch;
    FaultsHappen();
    x, y := ReadBoth(mem, store, board, q);
    a, b := ApplyBoth(mem, store, board, TWO_FAULTS);
  }
}
