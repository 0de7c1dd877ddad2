/**
 The database of all boards (agentboard/local.go, agentboard/configure_local_board.go) as
 a machine: writes scoped by board and refused on tombstoned boards, permanent deletion,
 and pinned templates; and what every sequence of transactions keeps.
 */
module BoardStore {
  import opened Common
  import opened BoardTypes
  import opened BoardRows
  import opened BoardRules
  import AgentPath

  const TEMPLATE_VERSION: int := 1
  const MAX_TEMPLATE_BYTES: nat := 64 * 1024
  const MAX_TEMPLATE_CHANNELS: nat := 64

  /** A template: its channels with their descriptions. */
  datatype Template = Template(version: int, channels: map<string, Option<string>>)

  /**
   The database. `fileExists` says whether it has been created; sequence numbers are never
   used twice, whatever is deleted.
   */
  datatype Db = Db(fileExists: bool, boards: map<string, Rows>, nextSeq: nat, templates: map<string, Template>,
                   deleted: set<string>)

  const EMPTY_DB := Db(false, map[], 1, map[], {})

  function BoardAt(db: Db, board: string): Rows {
    if board in db.boards then db.boards[board] else EMPTY_ROWS
  }

  // Writes of one board

  /** A write that went through: the rows of the board, and its sequence number if it was a post. */
  function Store(db: Db, board: string, s: Rows): Db {
    db.(fileExists := true, boards := db.boards[board := s],
        nextSeq := if |s.posts| > |BoardAt(db, board).posts| then db.nextSeq + 1 else db.nextSeq)
  }

  /** A write checks its request and asks the host first; then the tombstone stops it, or it runs. */
  function Guarded<T>(db: Db, board: string, check: Option<BoardError>, result: (Rows, Outcome<T>)): (Db, Outcome<T>) {
    if board in db.deleted then (db.(fileExists := true), Err(if check.Some? then check.value else BoardDeleted))
    else (Store(db, board, result.0), result.1)
  }

  function CreateCheck(name: string, description: Option<string>, host: Host): Option<BoardError> {
    if !ValidChannelName(name) then Some(InvalidChannelName)
    else if !ValidDescription(description) then Some(InvalidDescription)
    else if host.agentPath.None? || host.now.None? then Some(HostFailed)
    else None
  }

  function UpsertCheck(name: string, description: string, host: Host): Option<BoardError> {
    if !ValidChannelName(name) then Some(InvalidChannelName)
    else if !ValidDescription(Some(description)) then Some(InvalidDescription)
    else if host.agentPath.None? then Some(HostFailed)
    else None
  }

  function PostCheck(request: PostRequest, behavior: Behavior, host: Host): Option<BoardError> {
    if !ValidPostRequest(request) then Some(InvalidPost)
    else if host.agentPath.None? then Some(HostFailed)
    else if behavior == Discussion && ResolveAll(host, request.agentsToNotify).None? then Some(HostFailed)
    else if host.now.None? then Some(HostFailed)
    else None
  }

  function SubscriptionCheck(request: SubscriptionRequest, host: Host): Option<BoardError> {
    if host.agentPath.None? then Some(HostFailed)
    else
      var path := if request.targetAgent.Some? then request.targetAgent.value else host.agentPath.value;
      if host.resolve(path).None? then Some(HostFailed) else None
  }

  function CreateOn(db: Db, board: string, caller: string, name: string, description: Option<string>, subscription: Change,
                    host: Host, fold: Fold): (Db, Outcome<ChannelSummary>) {
    Guarded(db, board, CreateCheck(name, description, host),
            CreateChannel(BoardAt(db, board), caller, name, description, subscription, host, fold))
  }

  function UpsertOn(db: Db, board: string, name: string, description: string, host: Host, fold: Fold): (Db, Outcome<()>) {
    Guarded(db, board, UpsertCheck(name, description, host), UpsertChannel(BoardAt(db, board), name, description, host, fold))
  }

  function PostOn(db: Db, board: string, caller: string, request: PostRequest, behavior: Behavior, host: Host, id: string,
                  fold: Fold): (Db, Outcome<Posted>) {
    Guarded(db, board, PostCheck(request, behavior, host),
            PostInner(BoardAt(db, board), db.nextSeq, caller, request, behavior, host, id, fold))
  }

  // The transactions of one call, between which the host is asked

  function CommitOn(db: Db, board: string, caller: string, request: PostRequest, behavior: Behavior, author: string, now: int,
                    id: string, named: set<string>, fold: Fold): (Db, Outcome<Posted>) {
    Guarded(db, board, None, CommitPost(BoardAt(db, board), db.nextSeq, caller, request, behavior, author, now, id, named, fold))
  }

  function Updated(r: Rows, name: string, description: string): (Rows, Outcome<bool>) {
    (if name in r.channels then Describe(r, name, description) else r, Ok(name in r.channels))
  }

  function UpdateOn(db: Db, board: string, name: string, description: string): (Db, Outcome<bool>) {
    Guarded(db, board, None, Updated(BoardAt(db, board), name, description))
  }

  function InsertOn(db: Db, board: string, name: string, description: string, author: string, now: int, fold: Fold): (Db, Outcome<()>) {
    Guarded(db, board, None, (UpsertRow(BoardAt(db, board), name, description, author, now, fold), Ok(())))
  }

  function SubscribeOn(db: Db, board: string, request: SubscriptionRequest, host: Host): (Db, Outcome<SubscriptionState>) {
    Guarded(db, board, SubscriptionCheck(request, host), SetSubscription(BoardAt(db, board), request, host))
  }

  // Deletion and templates

  function DeleteBoard(db: Db, root: string): Db {
    db.(deleted := db.deleted + {root}, boards := db.boards - {root}, templates := db.templates - {root})
  }

  function DeleteEach(db: Db, roots: seq<string>): Db {
    if roots == [] then db else DeleteBoard(DeleteEach(db, roots[..|roots| - 1]), roots[|roots| - 1])
  }

  /** Without a database file there is nothing to delete, and no tombstone is left. */
  function DeleteBoards(db: Db, roots: seq<string>): Db {
    if db.fileExists then DeleteEach(db, roots) else db
  }

  /** `bytes` is the length of the encoded template. */
  predicate ValidTemplate(t: Template, bytes: nat) {
    && t.version == TEMPLATE_VERSION && |t.channels| <= MAX_TEMPLATE_CHANNELS && bytes <= MAX_TEMPLATE_BYTES
    && forall name | name in t.channels :: ValidChannelName(name) && ValidDescription(t.channels[name])
  }

  function TemplateRows(r: Rows, t: Template, now: int, fold: Fold): Rows {
    r.(channels := map name | name in t.channels :: ChannelRow(fold(name), now, AgentPath.ROOT, t.channels[name]))
  }

  function Pinned(db: Db, board: string, t: Template, now: int, fold: Fold): Db {
    db.(templates := db.templates[board := t], boards := db.boards[board := TemplateRows(BoardAt(db, board), t, now, fold)])
  }

  /** `ConfigureLocalBoardWithOptions`: pin the template and create its channels, accept a retry, or refuse. */
  function Configure(db: Db, board: string, t: Template, bytes: nat, now: int, fold: Fold): (Db, Outcome<()>) {
    if TrimSpace(board) == "" then (db, Err(InvalidBoard))
    else if !ValidTemplate(t, bytes) then (db, Err(InvalidTemplate))
    else
      var live := db.(fileExists := true);
      if board in db.deleted then (live, Err(BoardDeleted))
      else if board in db.templates then (live, if db.templates[board] == t then Ok(()) else Err(TemplatePinned))
      else if BoardAt(db, board).channels != map[] then (live, Err(BoardUsed))
      else (Pinned(live, board, t, now, fold), Ok(()))
  }

  // Runs

  datatype StoreOp =
    | OnBoard(board: string, op: Op)
    | Delete(roots: seq<string>)
    | Pin(board: string, template: Template, bytes: nat, now: int)

  function Step(db: Db, op: StoreOp, fold: Fold): Db {
    match op
    case OnBoard(board, Create(caller, name, description, subscription, host)) =>
      CreateOn(db, board, caller, name, description, subscription, host, fold).0
    case OnBoard(board, Upsert(name, description, host)) => UpsertOn(db, board, name, description, host, fold).0
    case OnBoard(board, Write(_, caller, request, behavior, host, id)) =>
      PostOn(db, board, caller, request, behavior, host, id, fold).0
    case OnBoard(board, SetSub(change, host)) => SubscribeOn(db, board, change, host).0
    case Delete(roots) => DeleteBoards(db, roots)
    case Pin(board, template, bytes, now) => Configure(db, board, template, bytes, now, fold).0
  }

  /** Post ids are new to their board. */
  ghost predicate FreshID(db: Db, board: string, id: string) {
    forall i :: 0 <= i < |BoardAt(db, board).posts| ==> BoardAt(db, board).posts[i].metadata.messageID != id
  }

  ghost predicate Allowed(db: Db, op: StoreOp) {
    op.OnBoard? && op.op.Write? ==> FreshID(db, op.board, op.op.id)
  }

  function RunStore(db: Db, ops: seq<StoreOp>, fold: Fold): Db {
    if ops == [] then db else Step(RunStore(db, ops[..|ops| - 1], fold), ops[|ops| - 1], fold)
  }

  ghost predicate AllowedRun(db: Db, ops: seq<StoreOp>, fold: Fold) {
    ops != [] ==>
      AllowedRun(db, ops[..|ops| - 1], fold) && Allowed(RunStore(db, ops[..|ops| - 1], fold), ops[|ops| - 1])
  }

  /** What holds of one board: its rows are sound, a tombstone leaves nothing, a pinned template has its channels. */
  ghost predicate BoardInv(db: Db, board: string) {
    && RowsInv(BoardAt(db, board))
    && (forall i :: 0 <= i < |BoardAt(db, board).posts| ==> BoardAt(db, board).posts[i].seqNo < db.nextSeq)
    && (board in db.deleted ==> BoardAt(db, board) == EMPTY_ROWS && board !in db.templates)
    && (board in db.templates ==> db.templates[board].channels.Keys <= BoardAt(db, board).channels.Keys)
  }

  ghost predicate StoreInv(db: Db) {
    forall board :: BoardInv(db, board)
  }

  /** A write on one board, as an operation on its rows with the next sequence number. */
  function Numbered(db: Db, op: Op): Op {
    if op.Write? then op.(seqNo := db.nextSeq) else op
  }

  /** A write touches the rows of its board alone, and only while there is no tombstone. */
  lemma WriteStep(db: Db, board: string, op: Op, fold: Fold)
    ensures Step(db, OnBoard(board, op), fold)
      == if board in db.deleted then db.(fileExists := true)
         else Store(db, board, Apply(BoardAt(db, board), Numbered(db, op), fold))
  {
  }

  /** Sound rows that extend those of a board, with the next sequence number on a new post. */
  ghost predicate Extends(db: Db, r: Rows, s: Rows) {
    && RowsInv(s) && r.posts <= s.posts && |s.posts| <= |r.posts| + 1 && r.channels.Keys <= s.channels.Keys
    && (|s.posts| > |r.posts| ==> s.posts[|r.posts|].seqNo == db.nextSeq)
  }

  /** Storing such rows keeps the rules of every board. */
  lemma StoredKeeps(db: Db, board: string, s: Rows)
    requires StoreInv(db) && board !in db.deleted && Extends(db, BoardAt(db, board), s)
    ensures StoreInv(Store(db, board, s))
  {
    hide RowsInv;
    forall other ensures BoardInv(Store(db, board, s), other) {
      assert BoardInv(db, other);
    }
  }

  lemma CommitOnKeeps(db: Db, board: string, caller: string, request: PostRequest, behavior: Behavior, author: string, now: int,
                      id: string, named: set<string>, fold: Fold)
    requires StoreInv(db) && FreshID(db, board, id)
    ensures StoreInv(CommitOn(db, board, caller, request, behavior, author, now, id, named, fold).0)
  {
    hide RowsInv, CommitPost, Store;
    var r := BoardAt(db, board);
    assert BoardInv(db, board);
    if board in db.deleted {
      MarkedKeeps(db);
    } else {
      CommitKeeps(r, db.nextSeq, caller, request, behavior, author, now, id, named, fold);
      CommitGrows(r, db.nextSeq, caller, request, behavior, author, now, id, named, fold);
      CommitNumbered(r, db.nextSeq, caller, request, behavior, author, now, id, named, fold);
      StoredKeeps(db, board, CommitPost(r, db.nextSeq, caller, request, behavior, author, now, id, named, fold).0);
    }
  }

  lemma MarkedKeeps(db: Db)
    requires StoreInv(db)
    ensures StoreInv(db.(fileExists := true))
  {
    hide RowsInv;
    forall board ensures BoardInv(db.(fileExists := true), board) {
      assert BoardInv(db, board);
    }
  }

  lemma UpdateOnKeeps(db: Db, board: string, name: string, description: string)
    requires StoreInv(db)
    ensures StoreInv(UpdateOn(db, board, name, description).0) && UpdateOn(db, board, name, description).0.nextSeq == db.nextSeq
  {
    assert BoardInv(db, board);
    if board in db.deleted {
      MarkedKeeps(db);
    } else {
      StoredKeeps(db, board, Updated(BoardAt(db, board), name, description).0);
    }
  }

  lemma InsertOnKeeps(db: Db, board: string, name: string, description: string, author: string, now: int, fold: Fold)
    requires StoreInv(db)
    ensures StoreInv(InsertOn(db, board, name, description, author, now, fold).0)
    ensures InsertOn(db, board, name, description, author, now, fold).0.nextSeq == db.nextSeq
  {
    assert BoardInv(db, board);
    if board in db.deleted {
      MarkedKeeps(db);
    } else {
      StoredKeeps(db, board, UpsertRow(BoardAt(db, board), name, description, author, now, fold));
    }
  }

  /** Sequence numbers of a written board stay below the counter. */
  lemma StoreKeepsBoard(db: Db, board: string, op: Op, fold: Fold)
    requires BoardInv(db, board) && board !in db.deleted && Allowed(db, OnBoard(board, op))
    ensures BoardInv(Store(db, board, Apply(BoardAt(db, board), Numbered(db, op), fold)), board)
  {
    hide RowsInv, Apply;
    var r := BoardAt(db, board);
    var s := Apply(r, Numbered(db, op), fold);
    ApplyKeeps(r, Numbered(db, op), fold);
    ApplyGrows(r, Numbered(db, op), fold);
    if |s.posts| > |r.posts| {
      NewPostNumbered(r, Numbered(db, op), fold);
    }
  }

  /** A post added by an operation carries its sequence number. */
  lemma NewPostNumbered(r: Rows, op: Op, fold: Fold)
    requires |Apply(r, op, fold).posts| > |r.posts|
    ensures op.Write? && Apply(r, op, fold).posts[|r.posts|].seqNo == op.seqNo
    ensures |Apply(r, op, fold).posts| == |r.posts| + 1
  {
  }

  /** What a deletion leaves of one board, named in it or not. */
  ghost predicate AfterDeletion(db: Db, s: Db, board: string, named: bool) {
    && (board in s.deleted <==> board in db.deleted || named)
    && (board in s.templates <==> board in db.templates && !named)
    && (board in s.templates ==> s.templates[board] == db.templates[board])
    && BoardAt(s, board) == if named then EMPTY_ROWS else BoardAt(db, board)
  }

  lemma {:induction false} DeleteEachCounts(db: Db, roots: seq<string>)
    ensures DeleteEach(db, roots).nextSeq == db.nextSeq && DeleteEach(db, roots).fileExists == db.fileExists
  {
    if roots != [] {
      DeleteEachCounts(db, roots[..|roots| - 1]);
    }
  }

  lemma {:induction false} DeleteEachClears(db: Db, roots: seq<string>, board: string)
    ensures AfterDeletion(db, DeleteEach(db, roots), board, board in roots)
  {
    if roots != [] {
      var front, last := roots[..|roots| - 1], roots[|roots| - 1];
      DeleteEachClears(db, front, board);
      assert roots == front + [last];
    }
  }

  lemma WriteKeepsBoard(db: Db, own: string, op: Op, fold: Fold, board: string)
    requires BoardInv(db, board) && Allowed(db, OnBoard(own, op))
    ensures BoardInv(Step(db, OnBoard(own, op), fold), board)
  {
    WriteStep(db, own, op, fold);
    if own == board && own !in db.deleted { StoreKeepsBoard(db, board, op, fold); }
  }

  lemma DeleteKeepsBoard(db: Db, roots: seq<string>, board: string)
    requires BoardInv(db, board)
    ensures BoardInv(DeleteBoards(db, roots), board)
  {
    DeleteEachCounts(db, roots);
    DeleteEachClears(db, roots, board);
  }

  lemma PinKeepsBoard(db: Db, own: string, t: Template, bytes: nat, now: int, fold: Fold, board: string)
    requires BoardInv(db, board)
    ensures BoardInv(Configure(db, own, t, bytes, now, fold).0, board)
  {
    hide ValidTemplate, Increasing, UniqueIds, UniqueKeys, Rooted;
  }

  /** Every transaction keeps the rules of every board. */
  lemma StepKeepsStore(db: Db, op: StoreOp, fold: Fold)
    requires StoreInv(db) && Allowed(db, op)
    ensures StoreInv(Step(db, op, fold))
  {
    forall board ensures BoardInv(Step(db, op, fold), board) {
      assert BoardInv(db, board);
      match op
      case OnBoard(own, write) => WriteKeepsBoard(db, own, write, fold, board);
      case Delete(roots) => DeleteKeepsBoard(db, roots, board);
      case Pin(own, template, bytes, now) => PinKeepsBoard(db, own, template, bytes, now, fold, board);
    }
  }

  lemma {:induction false} RunKeepsStore(ops: seq<StoreOp>, fold: Fold)
    requires AllowedRun(EMPTY_DB, ops, fold)
    ensures StoreInv(RunStore(EMPTY_DB, ops, fold))
    decreases |ops|
  {
    if ops != [] {
      RunKeepsStore(ops[..|ops| - 1], fold);
      StepKeepsStore(RunStore(EMPTY_DB, ops[..|ops| - 1], fold), ops[|ops| - 1], fold);
    }
  }

  // Tombstones

  /** A deleted board stays deleted and never again has a row in any table. */
  lemma {:induction false} DeletedForever(db: Db, ops: seq<StoreOp>, fold: Fold, board: string)
    requires StoreInv(db) && AllowedRun(db, ops, fold) && board in db.deleted
    ensures var s := RunStore(db, ops, fold);
      StoreInv(s) && board in s.deleted && BoardAt(s, board) == EMPTY_ROWS && board !in s.templates
    decreases |ops|
  {
    assert BoardInv(db, board);
    if ops != [] {
      var front, last := RunStore(db, ops[..|ops| - 1], fold), ops[|ops| - 1];
      DeletedForever(db, ops[..|ops| - 1], fold, board);
      StepKeepsStore(front, last, fold);
      StaysDeleted(front, last, fold, board);
      assert BoardInv(RunStore(db, ops, fold), board);
    }
  }

  lemma StaysDeleted(db: Db, op: StoreOp, fold: Fold, board: string)
    requires board in db.deleted
    ensures board in Step(db, op, fold).deleted
  {
    match op
    case OnBoard(own, write) => WriteKeepsMarks(db, own, write, fold);
    case Delete(roots) => DeleteEachClears(db, roots, board);
    case Pin(own, template, bytes, now) => PinKeepsMarks(db, own, template, bytes, now, fold);
  }

  lemma PinKeepsMarks(db: Db, own: string, t: Template, bytes: nat, now: int, fold: Fold)
    ensures Configure(db, own, t, bytes, now, fold).0.deleted == db.deleted
  {
  }

  lemma WriteKeepsMarks(db: Db, own: string, op: Op, fold: Fold)
    ensures Step(db, OnBoard(own, op), fold).deleted == db.deleted && Step(db, OnBoard(own, op), fold).templates == db.templates
  {
  }

  /** An error that leaves the tables as they were. */
  predicate Refused<T>(db: Db, result: (Db, Outcome<T>)) {
    result.1.Err? && result.0 == db.(fileExists := true)
  }

  /** On a deleted board every write is an error that changes nothing. */
  lemma DeletedRefuses(db: Db, board: string, caller: string, name: string, description: Option<string>, subscription: Change,
                       text: string, request: PostRequest, behavior: Behavior, id: string, change: SubscriptionRequest,
                       host: Host, fold: Fold)
    requires board in db.deleted
    ensures Refused(db, CreateOn(db, board, caller, name, description, subscription, host, fold))
    ensures Refused(db, UpsertOn(db, board, name, text, host, fold))
    ensures Refused(db, PostOn(db, board, caller, request, behavior, host, id, fold))
    ensures Refused(db, SubscribeOn(db, board, change, host))
  {
  }

  /** Nor can a deleted board be configured. */
  lemma DeletedUnconfigurable(db: Db, board: string, t: Template, bytes: nat, now: int, fold: Fold)
    requires board in db.deleted
    ensures var (s, out) := Configure(db, board, t, bytes, now, fold); out.Err? && (s == db || s == db.(fileExists := true))
  {
  }

  /** A deletion tombstones exactly the boards named, if the database exists, and empties them. */
  lemma DeletionTombstones(db: Db, roots: seq<string>, board: string)
    requires StoreInv(db)
    ensures var s := DeleteBoards(db, roots);
      && (board in s.deleted <==> board in db.deleted || (db.fileExists && board in roots))
      && (board in s.deleted ==> BoardAt(s, board) == EMPTY_ROWS && board !in s.templates)
      && (board !in roots ==>
            && BoardAt(s, board) == BoardAt(db, board) && (board in s.templates <==> board in db.templates)
            && (board in s.templates ==> s.templates[board] == db.templates[board]))
  {
    assert BoardInv(db, board);
    DeleteEachClears(db, roots, board);
  }

  // Pinned templates

  predicate Deletes(op: StoreOp, board: string) {
    op.Delete? && board in op.roots
  }

  /** A pinned template does not change before deletion, and its channels remain. */
  lemma {:induction false} PinnedStays(db: Db, ops: seq<StoreOp>, fold: Fold, board: string)
    requires StoreInv(db) && AllowedRun(db, ops, fold) && board in db.templates
    requires forall i :: 0 <= i < |ops| ==> !Deletes(ops[i], board)
    ensures var s := RunStore(db, ops, fold);
      && StoreInv(s) && board in s.templates && s.templates[board] == db.templates[board]
      && db.templates[board].channels.Keys <= BoardAt(s, board).channels.Keys
    decreases |ops|
  {
    if ops == [] {
      assert BoardInv(db, board);
    } else {
      var front, last := RunStore(db, ops[..|ops| - 1], fold), ops[|ops| - 1];
      PinnedStays(db, ops[..|ops| - 1], fold, board);
      StepKeepsStore(front, last, fold);
      TemplateStep(front, last, fold, board);
      assert BoardInv(RunStore(db, ops, fold), board);
    }
  }

  /** Until the board is deleted, configuring it again accepts the pinned template, changes nothing, and refuses any other. */
  lemma ConfiguredAgain(db: Db, ops: seq<StoreOp>, fold: Fold, board: string, t: Template, bytes: nat, now: int)
    requires StoreInv(db) && AllowedRun(db, ops, fold) && board in db.templates
    requires forall i :: 0 <= i < |ops| ==> !Deletes(ops[i], board)
    requires TrimSpace(board) != "" && ValidTemplate(t, bytes)
    ensures var (s, outcome) := Configure(RunStore(db, ops, fold), board, t, bytes, now, fold);
      && outcome == (if t == db.templates[board] then Ok(()) else Err(TemplatePinned))
      && s == RunStore(db, ops, fold).(fileExists := true)
  {
    PinnedStays(db, ops, fold, board);
    assert BoardInv(RunStore(db, ops, fold), board);
  }

  /** How one transaction can change the template of a board: by deletion, or by pinning it on an unused board. */
  lemma TemplateStep(db: Db, op: StoreOp, fold: Fold, board: string)
    ensures board in db.templates && !Deletes(op, board) ==>
      board in Step(db, op, fold).templates && Step(db, op, fold).templates[board] == db.templates[board]
    ensures board in Step(db, op, fold).templates && board !in db.templates ==>
      PinsUnused(db, op, fold, board, Step(db, op, fold).templates[board])
  {
    match op
    case OnBoard(own, write) => WriteKeepsMarks(db, own, write, fold);
    case Delete(roots) =>
      DeleteEachClears(db, roots, board);
      assert board in Step(db, op, fold).templates ==> board in db.templates;
    case Pin(own, template, bytes, now) =>
      PinStep(db, own, template, bytes, now, fold, board);
  }

  lemma PinStep(db: Db, own: string, t: Template, bytes: nat, now: int, fold: Fold, board: string)
    ensures var s := Configure(db, own, t, bytes, now, fold).0;
      && (board in db.templates ==> board in s.templates && s.templates[board] == db.templates[board])
      && (board in s.templates && board !in db.templates ==>
            PinsUnused(db, Pin(own, t, bytes, now), fold, board, s.templates[board]))
  {
    hide ValidTemplate, TemplateRows, TrimSpace;
  }

  /** The operation pins this template on a board without channels, and creates exactly its channels. */
  ghost predicate PinsUnused(db: Db, op: StoreOp, fold: Fold, board: string, t: Template) {
    && op.Pin? && op.board == board && op.template == t && ValidTemplate(t, op.bytes)
    && BoardAt(db, board).channels == map[] && board !in db.deleted
    && BoardAt(Step(db, op, fold), board) == TemplateRows(BoardAt(db, board), t, op.now, fold)
  }

  /** Every pinned template was pinned by a transaction that found no channel on the board. */
  lemma {:induction false} PinnedWhenUnused(ops: seq<StoreOp>, fold: Fold, board: string)
    requires board in RunStore(EMPTY_DB, ops, fold).templates
    ensures exists k :: 0 <= k < |ops| && PinsUnused(RunStore(EMPTY_DB, ops[..k], fold), ops[k], fold, board,
                                                     RunStore(EMPTY_DB, ops, fold).templates[board])
    decreases |ops|
  {
    if ops != [] {
      var n := |ops| - 1;
      var front := RunStore(EMPTY_DB, ops[..n], fold);
      TemplateStep(front, ops[n], fold, board);
      if board in front.templates && front.templates[board] == RunStore(EMPTY_DB, ops, fold).templates[board] {
        PinnedWhenUnused(ops[..n], fold, board);
        var k :| 0 <= k < n && PinsUnused(RunStore(EMPTY_DB, ops[..n][..k], fold), ops[..n][k], fold, board, front.templates[board]);
        assert ops[..n][..k] == ops[..k];
      } else {
        if board in front.templates && Deletes(ops[n], board) { DeleteEachClears(front, ops[n].roots, board); }
      }
    }
  }
}
