/**
 What a post, a search and a configuration do on either backend, written out: the
 promises about one board carried to the in-memory board and to the database.
 */
module BackendPromises {
  import opened Common
  import opened Paging
  import opened BoardTypes
  import opened BoardRows
  import opened BoardRules
  import opened BoardQueries
  import opened BoardPromises
  import opened ReadPromises
  import opened BoardStore
  import opened BoardAgreement
  import opened InMemoryBoard
  import opened LocalBoards

  // Templates

  /** Version 1, at most 64 channels and 65536 bytes; names and descriptions as for any channel. */
  predicate TemplateFits(t: Template, bytes: nat) {
    && t.version == 1 && |t.channels| <= 64 && bytes <= 65536
    && forall name | name in t.channels ::
         NameFits(name) && (t.channels[name].Some? ==> ByteLen(t.channels[name].value) <= 512)
  }

  lemma TemplateFitsIff(t: Template, bytes: nat)
    ensures ValidTemplate(t, bytes) <==> TemplateFits(t, bytes)
  {
    forall name ensures ValidChannelName(name) <==> NameFits(name) { NameFitsIff(name); }
  }

  /**
   A configuration pins a fitting template on a board that is neither deleted nor pinned
   nor has channels, and gives it exactly the template's channels, created by the root
   agent; the pinned template is accepted again; anything else is refused. No other board
   changes, and this one only by being pinned.
   */
  lemma ConfigureAnswers(db: Db, board: string, t: Template, bytes: nat, now: int, fold: Fold)
    ensures var (s, out) := BoardStore.Configure(db, board, t, bytes, now, fold);
      var r, q := BoardAt(db, board), BoardAt(s, board);
      var pins := out.Ok? && board !in db.templates;
      && (out.Ok? <==> TrimSpace(board) != "" && TemplateFits(t, bytes) && board !in db.deleted
                       && if board in db.templates then db.templates[board] == t else r.channels == map[])
      && (out == Err(TemplatePinned) <==> TrimSpace(board) != "" && TemplateFits(t, bytes) && board !in db.deleted
                                          && board in db.templates && db.templates[board] != t)
      && s.deleted == db.deleted && s.nextSeq == db.nextSeq
      && (forall other | other != board :: BoardAt(s, other) == BoardAt(db, other))
      && (if pins then
            && s.templates == db.templates[board := t] && q == r.(channels := q.channels) && q.channels.Keys == t.channels.Keys
            && forall name | name in t.channels :: q.channels[name] == ChannelRow(fold(name), now, "/root", t.channels[name])
          else s.templates == db.templates && q == r)
  {
    hide TrimSpace, TemplateFits, ValidTemplate;
    TemplateFitsIff(t, bytes);
  }

  /** A call that nothing else is wrong with is told that its board has been deleted. */
  lemma DeletedReports(db: Db, board: string, caller: string, name: string, description: string, subscription: Change,
                       request: PostRequest, behavior: Behavior, id: string, change: SubscriptionRequest, host: Host, fold: Fold)
    requires board in db.deleted && host.agentPath.Some? && host.now.Some?
    ensures NameFits(name) && ByteLen(description) <= 512 ==>
      && CreateOn(db, board, caller, name, Some(description), subscription, host, fold).1 == Err(BoardDeleted)
      && UpsertOn(db, board, name, description, host, fold).1 == Err(BoardDeleted)
    ensures RequestFits(request) && HostAnswers(host, request, behavior) ==>
      PostOn(db, board, caller, request, behavior, host, id, fold).1 == Err(BoardDeleted)
    ensures host.resolve(if change.targetAgent.Some? then change.targetAgent.value else host.agentPath.value).Some? ==>
      SubscribeOn(db, board, change, host).1 == Err(BoardDeleted)
  {
    hide ValidChannelName, NameFits, ResolveAll;
    NameFitsIff(name);
    ResolveAllExact(host, request.agentsToNotify);
  }

  // Search columns

  ghost predicate AllIndexed(db: Db, fold: Fold) {
    forall board :: Indexed(BoardAt(db, board), fold)
  }

  lemma StepIndexes(db: Db, op: StoreOp, fold: Fold)
    requires AllIndexed(db, fold)
    ensures AllIndexed(Step(db, op, fold), fold)
  {
    hide Indexed;
    forall board ensures Indexed(BoardAt(Step(db, op, fold), board), fold) {
      assert Indexed(BoardAt(db, board), fold);
      match op
      case OnBoard(own, write) =>
        WriteStep(db, own, write, fold);
        ApplyIndexes(BoardAt(db, own), Numbered(db, write), fold);
      case Delete(roots) =>
        DeleteEachClears(db, roots, board);
        NothingIndexed(fold);
      case Pin(own, template, bytes, now) => PinIndexes(db, own, template, bytes, now, fold, board);
    }
  }

  lemma NothingIndexed(fold: Fold)
    ensures Indexed(EMPTY_ROWS, fold)
  {
  }

  lemma PinIndexes(db: Db, own: string, t: Template, bytes: nat, now: int, fold: Fold, board: string)
    requires Indexed(BoardAt(db, board), fold)
    ensures Indexed(BoardAt(BoardStore.Configure(db, own, t, bytes, now, fold).0, board), fold)
  {
    hide TrimSpace, ValidTemplate;
  }

  /** After every run every board's search columns are the folded texts and names. */
  lemma {:induction false} RunStoreIndexes(ops: seq<StoreOp>, fold: Fold)
    ensures AllIndexed(RunStore(EMPTY_DB, ops, fold), fold)
    decreases |ops|
  {
    NothingIndexed(fold);
    if ops != [] {
      RunStoreIndexes(ops[..|ops| - 1], fold);
      StepIndexes(RunStore(EMPTY_DB, ops[..|ops| - 1], fold), ops[|ops| - 1], fold);
    }
  }

  // Both backends

  /** A post on both backends: if they store it, it is the post asked for on either, handed to the same agents. */
  method PostBoth(mem: MemoryBoard, store: LocalStore, board: string, caller: string, request: PostRequest, behavior: Behavior,
                  host: Host, id: string) returns (a: Outcome<Posted>, b: Outcome<Posted>)
    requires Agree(mem, store, board) && FreshID(store.db, board, id)
    modifies mem, store
    ensures Agree(mem, store, board) && a == b
    ensures mem.table.posts != old(mem.table).posts <==>
      && RequestFits(request) && host.agentPath.Some? && !Used(old(mem.table), caller, request.requestID)
      && HostAnswers(host, request, behavior) && DestinationFault(old(mem.table), request.destination) == None
    ensures mem.table.posts != old(mem.table).posts ==>
      && a.Ok?
      && Delivers(old(mem.table), mem.table, a.value.metadata, old(store.db.nextSeq), caller, request, behavior,
                  host.agentPath.value, host.now.value, id, store.fold)
      && forall agent :: agent in a.value.notified <==>
           && behavior == Discussion && agent != caller
           && ((exists x :: x in request.agentsToNotify && host.resolve(x) == Some(agent))
               || Listens(old(mem.table), request.destination, agent))
  {
    hide RowsInv, BoardRows.PostInner, Delivers, Listens, Used, DestinationFault, RequestFits, HostAnswers, PostOn, BoardAt, Store;
    ghost var r, seqNo := mem.table, store.db.nextSeq;
    assert BoardInv(store.db, board);
    BoardPromises.PostAnswers(r, seqNo, caller, request, behavior, host, id, store.fold);
    PostDelivers(r, seqNo, caller, request, behavior, host, id, store.fold);
    PostOnBoard(store.db, board, caller, request, behavior, host, id, store.fold);
    a := mem.PostInner(caller, request, behavior, host, id, store.db.nextSeq);
    b := store.PostInner(board, caller, request, behavior, host, id);
  }

  /** On a board without a tombstone a post is that of its rows. */
  lemma PostOnBoard(db: Db, board: string, caller: string, request: PostRequest, behavior: Behavior, host: Host, id: string, fold: Fold)
    requires board !in db.deleted
    ensures var (s, out) := BoardRows.PostInner(BoardAt(db, board), db.nextSeq, caller, request, behavior, host, id, fold);
      var (after, reported) := PostOn(db, board, caller, request, behavior, host, id, fold);
      reported == out && BoardAt(after, board) == s && after.deleted == db.deleted
  {
  }

  /** A search on both backends: the posts asked for, on either; of two faults each names its own. */
  method SearchBoth(mem: MemoryBoard, store: LocalStore, board: string, q: PostQuery)
      returns (a: Outcome<Page<PostPreview>>, b: Outcome<Page<PostPreview>>)
    requires Agree(mem, store, board) && Indexed(mem.table, mem.fold)
    ensures var r, lost := mem.table, q.afterMessageID.Some? && !IsStored(mem.table, q.afterMessageID.value);
      var bad := DecodeCursor(q.page.cursor).Err?;
      && (if lost then a == Err(PostNotFound) else if bad then a == Err(BadPage(InvalidCursor))
          else exists after, listing :: AnswersSearch(r, q, mem.fold, after, listing, a))
      && (if bad then b == Err(BadPage(InvalidCursor)) else if lost then b == Err(PostNotFound)
          else exists after, listing :: AnswersSearch(r, q, mem.fold, after, listing, b))
  {
    hide RowsInv, Indexed, AnswersSearch, DecodeCursor, BoardQueries.SearchPosts;
    assert BoardInv(store.db, board);
    SearchAnswers(mem.table, q, mem.fold);
    a := mem.SearchPosts(q);
    b := store.SearchPosts(board, q);
  }
}
