/**
 The SQLite backend (agentboard/local.go, agentboard/configure_local_board.go) as an
 object holding the flat tables of all boards. Each immediate transaction is one method;
 each statement is scoped by the board it names. The ghost field `db` is the database as
 a machine over boards, and `Valid` says that the tables are exactly its boards.
 */
module LocalBoards {
  import opened Common
  import opened Sorting
  import opened Paging
  import opened BoardTypes
  import opened BoardRows
  import opened BoardRules
  import opened BoardQueries
  import opened BoardStore
  import AgentPath

  datatype StoredPost = StoredPost(board: string, row: PostRow)

  type Pairs = set<(string, Target, string)>

  datatype Tables = Tables(channels: map<(string, string), ChannelRow>, posts: seq<StoredPost>, subscriptions: Pairs, optOuts: Pairs)

  // The rows of one board: SELECT ... WHERE board=?

  function ChannelsOf(channels: map<(string, string), ChannelRow>, board: string): map<string, ChannelRow> {
    map key | key in channels && key.0 == board :: key.1 := channels[key]
  }

  function PostsOf(posts: seq<StoredPost>, board: string): seq<PostRow> {
    if posts == [] then []
    else
      var last := posts[|posts| - 1];
      PostsOf(posts[..|posts| - 1], board) + (if last.board == board then [last.row] else [])
  }

  function PairsOf(pairs: Pairs, board: string): set<(Target, string)> {
    set p | p in pairs && p.0 == board :: (p.1, p.2)
  }

  function BoardOf(t: Tables, board: string): Rows {
    Rows(ChannelsOf(t.channels, board), PostsOf(t.posts, board), PairsOf(t.subscriptions, board), PairsOf(t.optOuts, board))
  }

  /** The tables changed on one board only, whose rows are now `s`. */
  ghost predicate Rewrites(before: Tables, after: Tables, board: string, s: Rows) {
    BoardOf(after, board) == s && forall other | other != board :: BoardOf(after, other) == BoardOf(before, other)
  }

  ghost predicate Holds(t: Tables, db: Db) {
    forall board :: BoardOf(t, board) == BoardAt(db, board)
  }

  lemma HoldsAt(t: Tables, db: Db, board: string)
    requires Holds(t, db)
    ensures BoardOf(t, board) == BoardAt(db, board)
  {
  }

  lemma InPairs(pairs: Pairs, board: string, target: Target, agent: string)
    ensures (target, agent) in PairsOf(pairs, board) <==> (board, target, agent) in pairs
  {
  }

  lemma ChannelWritten(t: Tables, board: string, name: string, row: ChannelRow)
    ensures var r := BoardOf(t, board);
      Rewrites(t, t.(channels := t.channels[(board, name) := row]), board, r.(channels := r.channels[name := row]))
  {
    forall b ensures ChannelsOf(t.channels[(board, name) := row], b)
      == if b == board then ChannelsOf(t.channels, b)[name := row] else ChannelsOf(t.channels, b)
    {
    }
  }

  lemma PostWritten(t: Tables, board: string, row: PostRow)
    ensures var r := BoardOf(t, board);
      Rewrites(t, t.(posts := t.posts + [StoredPost(board, row)]), board, r.(posts := r.posts + [row]))
  {
  }

  lemma PairAdded(pairs: Pairs, board: string, target: Target, agent: string, b: string)
    ensures PairsOf(pairs + {(board, target, agent)}, b)
      == if b == board then PairsOf(pairs, b) + {(target, agent)} else PairsOf(pairs, b)
  {
  }

  lemma PairMoved(t: Tables, board: string, target: Target, agent: string, change: Change)
    ensures var pair := {(board, target, agent)};
      Rewrites(t, if change == Subscribe then t.(subscriptions := t.subscriptions + pair, optOuts := t.optOuts - pair)
                  else t.(subscriptions := t.subscriptions - pair, optOuts := t.optOuts + pair),
               board, ChangeSubscription(BoardOf(t, board), target, agent, change))
  {
  }

  // DELETE ... WHERE board=?

  function Without(t: Tables, root: string): Tables {
    Tables(map key | key in t.channels && key.0 != root :: t.channels[key], PostsWithout(t.posts, root),
           set p | p in t.subscriptions && p.0 != root, set p | p in t.optOuts && p.0 != root)
  }

  function PostsWithout(posts: seq<StoredPost>, root: string): seq<StoredPost> {
    if posts == [] then []
    else
      var last := posts[|posts| - 1];
      PostsWithout(posts[..|posts| - 1], root) + (if last.board == root then [] else [last])
  }

  lemma {:induction false} PostsRemoved(posts: seq<StoredPost>, root: string, b: string)
    ensures PostsOf(PostsWithout(posts, root), b) == if b == root then [] else PostsOf(posts, b)
  {
    if posts != [] {
      var front, last := posts[..|posts| - 1], posts[|posts| - 1];
      PostsRemoved(front, root, b);
      var kept := PostsWithout(front, root);
      if last.board == root {
        assert PostsWithout(posts, root) == kept;
      } else {
        assert PostsWithout(posts, root)[..|kept|] == kept;
      }
    }
  }

  lemma BoardRemoved(t: Tables, root: string)
    ensures Rewrites(t, Without(t, root), root, EMPTY_ROWS)
  {
    forall b ensures PostsOf(Without(t, root).posts, b) == if b == root then [] else PostsOf(t.posts, b) {
      PostsRemoved(t.posts, root, b);
    }
    forall b | b != root
      ensures ChannelsOf(Without(t, root).channels, b) == ChannelsOf(t.channels, b)
      ensures PairsOf(Without(t, root).subscriptions, b) == PairsOf(t.subscriptions, b)
      ensures PairsOf(Without(t, root).optOuts, b) == PairsOf(t.optOuts, b)
    {
    }
    assert ChannelsOf(Without(t, root).channels, root) == map[];
  }

  lemma SortedDistinct(names: seq<string>)
    requires StrictlySorted(names, LexLess)
    ensures NoDuplicates(names)
  {
    forall i, j | 0 <= i < j < |names| ensures names[i] != names[j] {
      LexTrichotomy(names[i], names[j]);
    }
  }

  /** The rows of a board after some of the channels of its template. */
  ghost function PartRows(r: Rows, t: Template, names: seq<string>, now: int, fold: Fold): Rows {
    r.(channels := map name | name in t.channels && name in names :: ChannelRow(fold(name), now, AgentPath.ROOT, t.channels[name]))
  }

  lemma PartRowsEnds(r: Rows, t: Template, names: seq<string>, now: int, fold: Fold)
    requires r.channels == map[] && forall name :: name in names <==> name in t.channels
    ensures PartRows(r, t, [], now, fold) == r && PartRows(r, t, names, now, fold) == TemplateRows(r, t, now, fold)
  {
  }

  lemma PartRowsStep(r: Rows, t: Template, names: seq<string>, i: nat, now: int, fold: Fold)
    requires i < |names| && NoDuplicates(names) && forall name | name in names :: name in t.channels
    ensures names[i] in t.channels && names[i] !in PartRows(r, t, names[..i], now, fold).channels
    ensures var before := PartRows(r, t, names[..i], now, fold);
      PartRows(r, t, names[..i + 1], now, fold) == before.(channels := before.channels[
        names[i] := ChannelRow(fold(names[i]), now, AgentPath.ROOT, t.channels[names[i]])])
  {
  }

  // Queries

  /** Computing previews before the page is cut is cutting the page first. */
  lemma FinishMapped<S, T>(offset: nat, limit: nat, rows: seq<S>, mapped: seq<T>)
    requires |mapped| == |rows|
    ensures FinishPage(offset, limit, mapped)
      == match FinishPage(offset, limit, rows)
         case Err(error) => Err(error)
         case Ok(page) => Ok(Page(mapped[..|page.results|], page.nextCursor))
    ensures FinishPage(offset, limit, rows).Ok? ==> FinishPage(offset, limit, rows).value.results == rows[..Min(|rows|, limit)]
  {
    assert mapped[..|mapped|] == mapped && rows[..|rows|] == rows;
  }

  lemma PreviewsCut(r: Rows, items: seq<nat>, chars: nat, n: nat)
    requires Within(items, |r.posts|) && n <= |items|
    ensures Previews(r, items, chars)[..n] == Previews(r, items[..n], chars)
    ensures ThreadSummaries(r, items, chars)[..n] == ThreadSummaries(r, items[..n], chars)
  {
  }

  lemma FetchedWithin(listing: seq<nat>, offset: nat, limit: nat, n: nat)
    requires forall i | i in listing :: i < n
    ensures Within(Window(listing, offset, limit), n)
  {
    assert forall k :: 0 <= k < |listing| ==> listing[k] in listing;
  }

  method SummarizeRows(r: Rows, fetched: seq<nat>, chars: nat) returns (threads: seq<ThreadSummary>)
    requires Within(fetched, |r.posts|)
    ensures threads == ThreadSummaries(r, fetched, chars)
  {
    threads := [];
    for k := 0 to |fetched|
      invariant |threads| == k && forall i :: 0 <= i < k ==> threads[i] == ThreadSummaryAt(r, fetched[i], chars)
    {
      var root := r.posts[fetched[k]];
      var last := Latest(RepliesTo(root.metadata.messageID), r.posts);
      var activity := root.metadata.createdAt;
      var latest: Option<PostPreview> := None;
      if last.Some? {
        var preview := Preview(r.posts[last.value].metadata, r.posts[last.value].text, chars);
        latest := Some(preview);
        if preview.metadata.createdAt > activity {
          activity := preview.metadata.createdAt;
        }
      }
      threads := threads + [ThreadSummary(root.metadata.messageID, Preview(root.metadata, root.text, chars),
                                          |Select(RepliesTo(root.metadata.messageID), r.posts)|, activity, latest)];
    }
  }

  method PreviewRows(r: Rows, fetched: seq<nat>, chars: nat) returns (previews: seq<PostPreview>)
    requires Within(fetched, |r.posts|)
    ensures previews == Previews(r, fetched, chars)
  {
    previews := [];
    for k := 0 to |fetched|
      invariant |previews| == k && forall i :: 0 <= i < k ==> previews[i] == PreviewAt(r, fetched[i], chars)
    {
      previews := previews + [Preview(r.posts[fetched[k]].metadata, r.posts[fetched[k]].text, chars)];
    }
  }

  method QueryThreads(r: Rows, q: ThreadQuery) returns (answer: Outcome<Page<ThreadSummary>>)
    ensures answer == BoardQueries.ListThreads(r, q)
  {
    if q.channelName !in r.channels {
      return Err(ChannelNotFound);
    }
    var decoded := DecodeCursor(q.page.cursor);
    if decoded.Err? {
      return Err(BadPage(decoded.error));
    }
    var offset, limit := decoded.value, EffectiveLimit(q.page.limit);
    var listing := ThreadListing(r, q.channelName, q.sort, q.direction);
    ListingWithin(r, q.channelName, q.sort, q.direction, "");
    FetchedWithin(listing, offset, limit + 1, |r.posts|);
    var fetched := Window(listing, offset, limit + 1);
    var chars := ThreadPreviewChars(q.maxCharsPerPost, Min(|fetched|, limit));
    var threads := SummarizeRows(r, fetched, chars);
    FinishMapped(offset, limit, fetched, threads);
    PreviewsCut(r, fetched, chars, Min(|fetched|, limit));
    var page := FinishPage(offset, limit, threads);
    if page.Err? {
      return Err(BadPage(page.error));
    }
    return Ok(page.value);
  }

  method QueryPosts(r: Rows, q: PostQuery, fold: Fold) returns (answer: Outcome<Page<PostPreview>>)
    ensures answer == BoardQueries.SearchPosts(r, q, fold)
  {
    var decoded := DecodeCursor(q.page.cursor);
    if decoded.Err? {
      return Err(BadPage(decoded.error));
    }
    var offset, limit := decoded.value, EffectiveLimit(q.page.limit);
    var after: Option<nat> := None;
    if q.afterMessageID.Some? {
      after := FindPost(r.posts, q.afterMessageID.value);
      if after.None? {
        return Err(PostNotFound);
      }
    }
    var listing := SearchListing(r, q, after, fold);
    SearchWithin(r, q, after, fold);
    FetchedWithin(listing, offset, limit + 1, |r.posts|);
    var fetched := Window(listing, offset, limit + 1);
    var chars := SearchPreviewChars(q.maxCharsPerPost, Min(|fetched|, limit));
    var previews := PreviewRows(r, fetched, chars);
    FinishMapped(offset, limit, fetched, previews);
    PreviewsCut(r, fetched, chars, Min(|fetched|, limit));
    var page := FinishPage(offset, limit, previews);
    if page.Err? {
      return Err(BadPage(page.error));
    }
    return Ok(page.value);
  }

  method QueryThread(r: Rows, q: ReadThreadRequest) returns (answer: Outcome<ThreadPage>)
    ensures answer == BoardQueries.ReadThread(r, q)
  {
    var root := FindThread(r.posts, q.threadID);
    if root.Err? {
      return Err(root.error);
    }
    var decoded := DecodeCursor(q.page.cursor);
    if decoded.Err? {
      return Err(BadPage(decoded.error));
    }
    var offset, limit := decoded.value, EffectiveLimit(q.page.limit);
    var listing := ReplyListing(r, q.threadID);
    ListingWithin(r, "", Created, OldestFirst, q.threadID);
    FetchedWithin(listing, offset, limit + 1, |r.posts|);
    var fetched := Window(listing, offset, limit + 1);
    var chars := ReadPreviewChars(q.maxCharsPerPost, Min(|fetched|, limit));
    var previews := PreviewRows(r, fetched, chars);
    FinishMapped(offset, limit, fetched, previews);
    PreviewsCut(r, fetched, chars, Min(|fetched|, limit));
    var page := FinishPage(offset, limit, previews);
    if page.Err? {
      return Err(BadPage(page.error));
    }
    return Ok(ThreadPage(Preview(r.posts[root.value].metadata, r.posts[root.value].text, chars), page.value));
  }

  /** The channels whose folded name contains the query, in the order asked for. */
  method QueryNames(r: Rows, q: ChannelQuery, fold: Fold) returns (names: seq<string>)
    ensures IsChannelListing(r, q.query, q.direction, fold, names)
  {
    var search := if q.query.Some? then fold(q.query.value) else "";
    names := [];
    var remaining := r.channels.Keys;
    while remaining != {}
      invariant remaining <= r.channels.Keys && NoDuplicates(names)
      invariant forall name :: name in names <==> name in r.channels.Keys - remaining && Contains(r.channels[name].search, search)
      decreases |remaining|
    {
      var name :| name in remaining;
      remaining := remaining - {name};
      if Contains(r.channels[name].search, search) {
        names := names + [name];
      }
    }
    ChannelBeforeTotal(r, names);
    SortSorts(names, Directed(ChannelBefore(r), q.direction));
    names := Sort(names, Directed(ChannelBefore(r), q.direction));
  }

  method SummarizeNames(r: Rows, fetched: seq<string>) returns (summaries: seq<ChannelSummary>)
    requires forall k :: 0 <= k < |fetched| ==> fetched[k] in r.channels
    ensures summaries == Summaries(r, fetched)
  {
    summaries := [];
    for k := 0 to |fetched|
      invariant |summaries| == k && forall i :: 0 <= i < k ==> summaries[i] == Summary(r, fetched[i])
    {
      summaries := summaries + [Summary(r, fetched[k])];
    }
  }

  method QueryChannels(r: Rows, q: ChannelQuery, fold: Fold) returns (answer: Outcome<Page<ChannelSummary>>)
    ensures IsChannelPage(r, q, fold, answer)
  {
    var decoded := DecodeCursor(q.page.cursor);
    var names := QueryNames(r, q, fold);
    assert forall k :: 0 <= k < |names| ==> names[k] in names;
    if decoded.Err? {
      answer := Err(BadPage(decoded.error));
    } else {
      var offset, limit := decoded.value, EffectiveLimit(q.page.limit);
      var fetched := Window(names, offset, limit + 1);
      var summaries := SummarizeNames(r, fetched);
      FinishMapped(offset, limit, fetched, summaries);
      assert Summaries(r, fetched)[..Min(|fetched|, limit)] == Summaries(r, fetched[..Min(|fetched|, limit)]);
      var page := FinishPage(offset, limit, summaries);
      answer := if page.Err? then Err(BadPage(page.error)) else Ok(page.value);
    }
    assert answer == ChannelPageOf(r, q, names);
  }

  // Whole transactions

  lemma OpenKeeps(t: Tables, db: Db)
    requires StoreInv(db) && Holds(t, db)
    ensures StoreInv(db.(fileExists := true)) && Holds(t, db.(fileExists := true))
  {
    forall board ensures BoardInv(db.(fileExists := true), board) { assert BoardInv(db, board); }
    forall board ensures BoardOf(t, board) == BoardAt(db.(fileExists := true), board) {
      assert BoardOf(t, board) == BoardAt(db, board);
    }
  }

  /** After a transaction the tables hold the database it computes. */
  lemma TransactionHolds<T>(before: Tables, after: Tables, db: Db, board: string, check: Option<BoardError>,
                            result: (Rows, Outcome<T>))
    requires Holds(before, db)
    requires if board in db.deleted then after == before else Rewrites(before, after, board, result.0)
    ensures Holds(after, Guarded(db, board, check, result).0)
  {
  }

  lemma DeletionHolds(t: Tables, db: Db, root: string)
    requires StoreInv(db) && Holds(t, db)
    ensures StoreInv(DeleteBoard(db, root)) && Holds(Without(t, root), DeleteBoard(db, root))
  {
    BoardRemoved(t, root);
    var s := DeleteBoard(db, root);
    forall b ensures BoardInv(s, b) && BoardOf(Without(t, root), b) == BoardAt(s, b) {
      assert BoardInv(db, b) && BoardOf(t, b) == BoardAt(db, b);
    }
  }

  lemma TemplateHolds(before: Tables, after: Tables, db: Db, board: string, t: Template, now: int, fold: Fold)
    requires Holds(before, db) && Rewrites(before, after, board, TemplateRows(BoardOf(before, board), t, now, fold))
    ensures Holds(after, Pinned(db, board, t, now, fold))
  {
  }

  lemma PinnedFields(db: Db, board: string, t: Template, now: int, fold: Fold)
    ensures Pinned(db, board, t, now, fold)
      == db.(boards := Pinned(db, board, t, now, fold).boards, templates := db.templates[board := t])
  {
  }

  lemma PinnedKeeps(db: Db, board: string, t: Template, bytes: nat, now: int, fold: Fold)
    requires StoreInv(db) && db.fileExists && TrimSpace(board) != "" && ValidTemplate(t, bytes)
    requires board !in db.deleted && board !in db.templates && BoardAt(db, board).channels == map[]
    ensures StoreInv(Pinned(db, board, t, now, fold))
  {
    StepKeepsStore(db, Pin(board, t, bytes, now), fold);
  }

  class LocalStore {
    const fold: Fold
    /** The length of a template's JSON encoding. */
    const encodedBytes: Template -> nat
    var fileExists: bool
    var channels: map<(string, string), ChannelRow>
    var posts: seq<StoredPost>
    var nextSeq: nat
    var subscriptions: Pairs
    var optOuts: Pairs
    var templates: map<string, Template>
    var deleted: set<string>
    ghost var db: Db

    ghost function View(): Tables
      reads this
    {
      Tables(channels, posts, subscriptions, optOuts)
    }

    ghost predicate Counts()
      reads this
    {
      fileExists == db.fileExists && nextSeq == db.nextSeq && templates == db.templates && deleted == db.deleted
    }

    ghost predicate Valid()
      reads this
    {
      StoreInv(db) && Holds(View(), db) && Counts()
    }

    constructor (fold: Fold, encodedBytes: Template -> nat)
      ensures Valid() && db == EMPTY_DB && this.fold == fold && this.encodedBytes == encodedBytes
    {
      this.fold := fold;
      this.encodedBytes := encodedBytes;
      fileExists, channels, posts, nextSeq, subscriptions, optOuts, templates, deleted := false, map[], [], 1, {}, {}, map[], {};
      db := EMPTY_DB;
    }

    /** The rows a query on this board sees. */
    function Board(board: string): (r: Rows)
      reads this
      ensures r == BoardOf(View(), board)
    {
      Rows(ChannelsOf(channels, board), PostsOf(posts, board), PairsOf(subscriptions, board), PairsOf(optOuts, board))
    }

    // Statements

    /** INSERT OR IGNORE INTO channels. */
    method InsertChannel(board: string, name: string, author: string, now: int, description: Option<string>) returns (inserted: bool)
      modifies `channels
      ensures inserted <==> name !in BoardOf(old(View()), board).channels
      ensures !inserted ==> View() == old(View())
      ensures var r := BoardOf(old(View()), board);
        inserted ==> Rewrites(old(View()), View(), board,
                              r.(channels := r.channels[name := ChannelRow(fold(name), now, author, description)]))
    {
      if (board, name) in channels {
        return false;
      }
      ChannelWritten(View(), board, name, ChannelRow(fold(name), now, author, description));
      channels := channels[(board, name) := ChannelRow(fold(name), now, author, description)];
      return true;
    }

    /** UPDATE channels SET description. */
    method UpdateDescription(board: string, name: string, description: string) returns (updated: bool)
      modifies `channels
      ensures updated <==> name in BoardOf(old(View()), board).channels
      ensures !updated ==> View() == old(View())
      ensures updated ==> Rewrites(old(View()), View(), board, Describe(BoardOf(old(View()), board), name, description))
    {
      if (board, name) !in channels {
        return false;
      }
      var row := channels[(board, name)].(description := Some(description));
      ChannelWritten(View(), board, name, row);
      channels := channels[(board, name) := row];
      return true;
    }

    /** INSERT INTO channels ... ON CONFLICT DO UPDATE SET description. */
    method InsertOrUpdate(board: string, name: string, description: string, author: string, now: int)
      modifies `channels
      ensures Rewrites(old(View()), View(), board, UpsertRow(BoardOf(old(View()), board), name, description, author, now, fold))
    {
      var row := if (board, name) in channels then channels[(board, name)].(description := Some(description))
                 else ChannelRow(fold(name), now, author, Some(description));
      ChannelWritten(View(), board, name, row);
      channels := channels[(board, name) := row];
    }

    /** INSERT OR IGNORE INTO subscriptions ... WHERE NOT EXISTS an opt-out. */
    method Subscribe(board: string, target: Target, agent: string)
      modifies `subscriptions
      ensures Rewrites(old(View()), View(), board, SubscribeRow(BoardOf(old(View()), board), target, agent))
    {
      InPairs(optOuts, board, target, agent);
      if (board, target, agent) !in optOuts {
        forall b { PairAdded(subscriptions, board, target, agent, b); }
        subscriptions := subscriptions + {(board, target, agent)};
      }
    }

    /** INSERT INTO posts; the database numbers the row. */
    method InsertPost(board: string, metadata: Metadata, request: PostRequest, caller: string, behavior: Behavior)
      modifies `posts, `nextSeq
      ensures nextSeq == old(nextSeq) + 1
      ensures var r := BoardOf(old(View()), board);
        Rewrites(old(View()), View(), board, r.(posts := r.posts +
          [PostRow(old(nextSeq), metadata, request.text, fold(request.text), caller, request, behavior)]))
    {
      var row := PostRow(nextSeq, metadata, request.text, fold(request.text), caller, request, behavior);
      PostWritten(View(), board, row);
      posts := posts + [StoredPost(board, row)];
      nextSeq := nextSeq + 1;
    }

    // Transactions on the tables

    /** The tables after a transaction that computes `result`, or the refusal of a tombstoned board. */
    ghost predicate Ran<T>(before: Tables, seqNo: nat, board: string, check: Option<BoardError>, result: (Rows, Outcome<T>),
                           r: Outcome<T>)
      reads this
    {
      if board in deleted then
        View() == before && nextSeq == seqNo && r == Err(if check.Some? then check.value else BoardDeleted)
      else
        && Rewrites(before, View(), board, result.0) && r == result.1
        && nextSeq == if |result.0.posts| > |BoardOf(before, board).posts| then seqNo + 1 else seqNo
    }

    method ResolveDestination(board: string, destination: Destination, author: string, now: int, caller: string, id: string,
                              behavior: Behavior)
        returns (r: Outcome<(string, string, Target)>)
      modifies `channels, `subscriptions
      ensures var spec := Resolve(BoardOf(old(View()), board), destination, author, now, caller, id, behavior, fold);
        if spec.Err? then r == Err(spec.error) && View() == old(View())
        else r == Ok((spec.value.channel, spec.value.root, spec.value.target)) && Rewrites(old(View()), View(), board, spec.value.rows)
    {
      match destination {
        case ToChannel(name) =>
          if name !in Board(board).channels {
            return Err(ChannelNotFound);
          }
          return Ok((name, id, ChannelTarget(name)));
        case ToNewChannel(name) =>
          if !ValidChannelName(name) {
            return Err(InvalidChannelName);
          }
          var inserted := InsertChannel(board, name, author, now, None);
          if !inserted {
            return Err(ChannelExists);
          }
          if behavior == Discussion {
            Subscribe(board, ChannelTarget(name), caller);
          }
          return Ok((name, id, ChannelTarget(name)));
        case ToThread(threadID) =>
          var root := FindThread(Board(board).posts, threadID);
          if root.Err? {
            return Err(root.error);
          }
          return Ok((Board(board).posts[root.value].metadata.channelName, threadID, ThreadTarget(threadID)));
      }
    }

    method WritePost(board: string, caller: string, request: PostRequest, behavior: Behavior, author: string, now: int, id: string,
                     named: set<string>)
        returns (r: Outcome<Posted>)
      modifies `channels, `posts, `nextSeq, `subscriptions
      requires board !in deleted
      ensures Ran(old(View()), old(nextSeq), board, None,
                  BoardRows.CommitPost(BoardOf(old(View()), board), old(nextSeq), caller, request, behavior, author, now, id, named, fold), r)
    {
      var existing := Existing(Board(board), caller, request, behavior);
      if existing.Err? {
        return Err(existing.error);
      }
      if existing.value.Some? {
        return Ok(Posted(existing.value.value, {}));
      }
      var resolved := ResolveDestination(board, request.destination, author, now, caller, id, behavior);
      if resolved.Err? {
        return Err(resolved.error);
      }
      var (channelName, root, target) := resolved.value;
      var recipients := named;
      if behavior == Discussion {
        recipients := recipients + Subscribers(Board(board), target);
      }
      recipients := recipients - {caller};
      var metadata := Metadata(id, channelName, author, root, now);
      InsertPost(board, metadata, request, caller, behavior);
      if behavior == Discussion {
        Subscribe(board, ThreadTarget(root), caller);
      }
      if behavior == SilentAppend {
        return Ok(Posted(metadata, {}));
      }
      return Ok(Posted(metadata, recipients));
    }

    method PostTransaction(board: string, caller: string, request: PostRequest, behavior: Behavior, host: Host, id: string)
        returns (r: Outcome<Posted>)
      requires board in deleted ==> BoardOf(View(), board) == EMPTY_ROWS
      modifies `channels, `posts, `nextSeq, `subscriptions
      ensures Ran(old(View()), old(nextSeq), board, PostCheck(request, behavior, host),
                  BoardRows.PostInner(BoardOf(old(View()), board), old(nextSeq), caller, request, behavior, host, id, fold), r)
    {
      if !ValidPostRequest(request) {
        return Err(InvalidPost);
      }
      if host.agentPath.None? {
        return Err(HostFailed);
      }
      var existing := Existing(Board(board), caller, request, behavior);
      if existing.Err? {
        return Err(existing.error);
      }
      if existing.value.Some? {
        return Ok(Posted(existing.value.value, {}));
      }
      var named: set<string> := {};
      if behavior == Discussion {
        var resolved := ResolveAgents(host, request.agentsToNotify);
        if resolved.None? {
          return Err(HostFailed);
        }
        named := resolved.value;
      }
      if host.now.None? {
        return Err(HostFailed);
      }
      if board in deleted {
        return Err(BoardDeleted);
      }
      r := WritePost(board, caller, request, behavior, host.agentPath.value, host.now.value, id, named);
    }

    method CreateTransaction(board: string, caller: string, name: string, description: Option<string>, subscription: Change,
                             host: Host)
        returns (r: Outcome<ChannelSummary>)
      modifies `channels, `subscriptions
      ensures Ran(old(View()), old(nextSeq), board, CreateCheck(name, description, host),
                  BoardRows.CreateChannel(BoardOf(old(View()), board), caller, name, description, subscription, host, fold), r)
    {
      hide ValidChannelName, ValidDescription, BoardOf, Summary;
      if !ValidChannelName(name) {
        return Err(InvalidChannelName);
      }
      if !ValidDescription(description) {
        return Err(InvalidDescription);
      }
      if host.agentPath.None? || host.now.None? {
        return Err(HostFailed);
      }
      if board in deleted {
        return Err(BoardDeleted);
      }
      var inserted := InsertChannel(board, name, host.agentPath.value, host.now.value, description);
      if !inserted {
        return Err(ChannelExists);
      }
      if subscription == BoardTypes.Subscribe {
        Subscribe(board, ChannelTarget(name), caller);
      }
      return Ok(Summary(Board(board), name));
    }

    /** Both transactions of an upsert, when no other call intervenes. */
    method UpsertTransaction(board: string, name: string, description: string, host: Host) returns (r: Outcome<()>)
      modifies `channels
      ensures Ran(old(View()), old(nextSeq), board, UpsertCheck(name, description, host),
                  BoardRows.UpsertChannel(BoardOf(old(View()), board), name, description, host, fold), r)
    {
      if !ValidChannelName(name) {
        return Err(InvalidChannelName);
      }
      if !ValidDescription(Some(description)) {
        return Err(InvalidDescription);
      }
      if host.agentPath.None? {
        return Err(HostFailed);
      }
      if board in deleted {
        return Err(BoardDeleted);
      }
      var updated := UpdateDescription(board, name, description);
      if updated {
        return Ok(());
      }
      if host.now.None? {
        return Err(HostFailed);
      }
      InsertOrUpdate(board, name, description, host.agentPath.value, host.now.value);
      return Ok(());
    }

    method SubscriptionTransaction(board: string, request: SubscriptionRequest, host: Host) returns (r: Outcome<SubscriptionState>)
      modifies `subscriptions, `optOuts
      ensures Ran(old(View()), old(nextSeq), board, SubscriptionCheck(request, host),
                  BoardRows.SetSubscription(BoardOf(old(View()), board), request, host), r)
    {
      if host.agentPath.None? {
        return Err(HostFailed);
      }
      var targetPath := host.agentPath.value;
      if request.targetAgent.Some? {
        targetPath := request.targetAgent.value;
      }
      var agent := host.resolve(targetPath);
      if agent.None? {
        return Err(HostFailed);
      }
      if board in deleted {
        return Err(BoardDeleted);
      }
      var described := DescribeTarget(Board(board), request.target);
      if described.Err? {
        return Err(described.error);
      }
      var (channelName, threadID, lastMessageID) := described.value;
      var pair := (board, request.target, agent.value);
      PairMoved(View(), board, request.target, agent.value, request.change);
      if request.change == BoardTypes.Subscribe {
        optOuts := optOuts - {pair};
        subscriptions := subscriptions + {pair};
      } else {
        subscriptions := subscriptions - {pair};
        optOuts := optOuts + {pair};
      }
      return Ok(SubscriptionState(channelName, threadID, targetPath, request.change == BoardTypes.Subscribe, lastMessageID));
    }

    // The reads of a handle

    method ListChannels(board: string, q: ChannelQuery) returns (answer: Outcome<Page<ChannelSummary>>)
      requires Valid()
      ensures IsChannelPage(BoardAt(db, board), q, fold, answer)
    {
      assert BoardOf(View(), board) == BoardAt(db, board);
      answer := QueryChannels(Board(board), q, fold);
    }

    method ListThreads(board: string, q: ThreadQuery) returns (answer: Outcome<Page<ThreadSummary>>)
      requires Valid()
      ensures answer == BoardQueries.ListThreads(BoardAt(db, board), q)
    {
      assert BoardOf(View(), board) == BoardAt(db, board);
      answer := QueryThreads(Board(board), q);
    }

    method SearchPosts(board: string, q: PostQuery) returns (answer: Outcome<Page<PostPreview>>)
      requires Valid()
      ensures answer == BoardQueries.SearchPosts(BoardAt(db, board), q, fold)
    {
      assert BoardOf(View(), board) == BoardAt(db, board);
      answer := QueryPosts(Board(board), q, fold);
    }

    method ReadThread(board: string, q: ReadThreadRequest) returns (answer: Outcome<ThreadPage>)
      requires Valid()
      ensures answer == BoardQueries.ReadThread(BoardAt(db, board), q)
    {
      assert BoardOf(View(), board) == BoardAt(db, board);
      answer := QueryThread(Board(board), q);
    }

    method ReadPost(board: string, id: string, offsetChars: int, limitChars: int) returns (answer: Outcome<(Metadata, Slice)>)
      requires Valid()
      ensures answer == BoardQueries.ReadPost(BoardAt(db, board), id, offsetChars, limitChars)
    {
      assert BoardOf(View(), board) == BoardAt(db, board);
      var rows := Board(board);
      var found := FindPost(rows.posts, id);
      if found.None? {
        return Err(PostNotFound);
      }
      var post := rows.posts[found.value];
      var slice := SliceText(post.text, |post.text|, offsetChars, limitChars);
      return Ok((post.metadata, slice));
    }

    // The operations of a handle

    /** Opening a handle creates the database. */
    method Open(board: string) returns (r: Outcome<()>)
      requires Valid()
      modifies `fileExists, `db
      ensures Valid() && (TrimSpace(board) != "" ==> fileExists)
      ensures db == if TrimSpace(board) == "" then old(db) else old(db).(fileExists := true)
      ensures r == if TrimSpace(board) == "" then Err(InvalidBoard) else Ok(())
    {
      if TrimSpace(board) == "" {
        return Err(InvalidBoard);
      }
      OpenKeeps(View(), db);
      fileExists := true;
      db := db.(fileExists := true);
      return Ok(());
    }

    method PostInner(board: string, caller: string, request: PostRequest, behavior: Behavior, host: Host, id: string)
        returns (r: Outcome<Posted>)
      requires Valid() && fileExists && FreshID(db, board, id)
      modifies this
      ensures Valid() && fileExists
      ensures (db, r) == PostOn(old(db), board, caller, request, behavior, host, id, fold)
    {
      assert BoardOf(View(), board) == BoardAt(db, board) && BoardInv(db, board);
      StepKeepsStore(db, OnBoard(board, Write(0, caller, request, behavior, host, id)), fold);
      r := PostTransaction(board, caller, request, behavior, host, id);
      TransactionHolds(old(View()), View(), db, board, PostCheck(request, behavior, host),
                       BoardRows.PostInner(BoardAt(db, board), db.nextSeq, caller, request, behavior, host, id, fold));
      db := PostOn(db, board, caller, request, behavior, host, id, fold).0;
    }

    // The sections of a call between which other calls may run

    /** The check before the host is asked: a query. */
    method ExistingPost(board: string, caller: string, request: PostRequest, behavior: Behavior)
        returns (r: Outcome<Option<Metadata>>)
      requires Valid()
      ensures r == Existing(BoardAt(db, board), caller, request, behavior)
    {
      HoldsAt(View(), db, board);
      r := Existing(Board(board), caller, request, behavior);
    }

    /** The writing transaction of a post, after the host has answered. */
    method CommitPost(board: string, caller: string, request: PostRequest, behavior: Behavior, author: string, now: int, id: string,
                      named: set<string>)
        returns (r: Outcome<Posted>)
      requires Valid() && fileExists && FreshID(db, board, id)
      modifies this
      ensures Valid() && fileExists
      ensures (db, r) == CommitOn(old(db), board, caller, request, behavior, author, now, id, named, fold)
    {
      hide RowsInv, BoardRows.CommitPost, BoardOf, FreshID;
      HoldsAt(View(), db, board);
      ghost var spec := CommitOn(db, board, caller, request, behavior, author, now, id, named, fold);
      CommitOnKeeps(db, board, caller, request, behavior, author, now, id, named, fold);
      if board in deleted {
        r := Err(BoardDeleted);
      } else {
        r := WritePost(board, caller, request, behavior, author, now, id, named);
      }
      TransactionHolds(old(View()), View(), db, board, None,
                       BoardRows.CommitPost(BoardAt(db, board), db.nextSeq, caller, request, behavior, author, now, id, named, fold));
      db := spec.0;
    }

    method CreateChannel(board: string, caller: string, name: string, description: Option<string>, subscription: Change, host: Host)
        returns (r: Outcome<ChannelSummary>)
      requires Valid() && fileExists
      modifies this
      ensures Valid() && fileExists
      ensures (db, r) == CreateOn(old(db), board, caller, name, description, subscription, host, fold)
    {
      assert BoardOf(View(), board) == BoardAt(db, board) && BoardInv(db, board);
      StepKeepsStore(db, OnBoard(board, Create(caller, name, description, subscription, host)), fold);
      r := CreateTransaction(board, caller, name, description, subscription, host);
      TransactionHolds(old(View()), View(), db, board, CreateCheck(name, description, host),
                       BoardRows.CreateChannel(BoardAt(db, board), caller, name, description, subscription, host, fold));
      db := CreateOn(db, board, caller, name, description, subscription, host, fold).0;
    }

    method UpsertChannel(board: string, name: string, description: string, host: Host) returns (r: Outcome<()>)
      requires Valid() && fileExists
      modifies this
      ensures Valid() && fileExists
      ensures (db, r) == UpsertOn(old(db), board, name, description, host, fold)
    {
      assert BoardOf(View(), board) == BoardAt(db, board) && BoardInv(db, board);
      StepKeepsStore(db, OnBoard(board, Upsert(name, description, host)), fold);
      r := UpsertTransaction(board, name, description, host);
      TransactionHolds(old(View()), View(), db, board, UpsertCheck(name, description, host),
                       BoardRows.UpsertChannel(BoardAt(db, board), name, description, host, fold));
      db := UpsertOn(db, board, name, description, host, fold).0;
    }

    /** The first transaction of an upsert. */
    method UpdateChannel(board: string, name: string, description: string) returns (r: Outcome<bool>)
      requires Valid() && fileExists
      modifies this
      ensures Valid() && fileExists
      ensures (db, r) == UpdateOn(old(db), board, name, description)
    {
      hide RowsInv, Describe, BoardOf;
      HoldsAt(View(), db, board);
      UpdateOnKeeps(db, board, name, description);
      if board in deleted {
        r := Err(BoardDeleted);
      } else {
        var updated := UpdateDescription(board, name, description);
        r := Ok(updated);
      }
      TransactionHolds(old(View()), View(), db, board, None, Updated(BoardAt(db, board), name, description));
      db := UpdateOn(db, board, name, description).0;
    }

    /** The second transaction of an upsert, after the clock was asked. */
    method InsertChannelAgain(board: string, name: string, description: string, author: string, now: int) returns (r: Outcome<()>)
      requires Valid() && fileExists
      modifies this
      ensures Valid() && fileExists
      ensures (db, r) == InsertOn(old(db), board, name, description, author, now, fold)
    {
      hide RowsInv, UpsertRow, BoardOf;
      HoldsAt(View(), db, board);
      InsertOnKeeps(db, board, name, description, author, now, fold);
      if board in deleted {
        r := Err(BoardDeleted);
      } else {
        InsertOrUpdate(board, name, description, author, now);
        r := Ok(());
      }
      TransactionHolds(old(View()), View(), db, board, None,
                       (UpsertRow(BoardAt(db, board), name, description, author, now, fold), Ok(())));
      db := InsertOn(db, board, name, description, author, now, fold).0;
    }

    method SetSubscription(board: string, request: SubscriptionRequest, host: Host) returns (r: Outcome<SubscriptionState>)
      requires Valid() && fileExists
      modifies this
      ensures Valid() && fileExists
      ensures (db, r) == SubscribeOn(old(db), board, request, host)
    {
      assert BoardOf(View(), board) == BoardAt(db, board) && BoardInv(db, board);
      StepKeepsStore(db, OnBoard(board, SetSub(request, host)), fold);
      r := SubscriptionTransaction(board, request, host);
      TransactionHolds(old(View()), View(), db, board, SubscriptionCheck(request, host),
                       BoardRows.SetSubscription(BoardAt(db, board), request, host));
      db := SubscribeOn(db, board, request, host).0;
    }

    /** `DeleteLocalBoardsWithOptions`. */
    method DeleteBoards(roots: seq<string>)
      requires Valid()
      modifies this
      ensures Valid() && db == BoardStore.DeleteBoards(old(db), roots)
    {
      if roots == [] || !fileExists {
        return;
      }
      for i := 0 to |roots|
        invariant Valid() && fileExists && db == DeleteEach(old(db), roots[..i])
      {
        assert roots[..i + 1][..i] == roots[..i];
        DeleteRoot(roots[i]);
      }
      assert roots[..|roots|] == roots;
    }

    /** The tombstone, and the deletions from every table. */
    method DeleteRoot(root: string)
      requires Valid() && fileExists
      modifies this
      ensures Valid() && fileExists && db == DeleteBoard(old(db), root)
    {
      DeletionHolds(View(), db, root);
      deleted := deleted + {root};
      subscriptions := set p | p in subscriptions && p.0 != root;
      optOuts := set p | p in optOuts && p.0 != root;
      posts := PostsWithout(posts, root);
      channels := map key | key in channels && key.0 != root :: channels[key];
      templates := templates - {root};
      db := DeleteBoard(db, root);
    }

    /** `ConfigureLocalBoardWithOptions`. */
    method Configure(board: string, template: Template, now: int) returns (r: Outcome<()>)
      requires Valid()
      modifies this
      ensures Valid()
      ensures (db, r) == BoardStore.Configure(old(db), board, template, encodedBytes(template), now, fold)
    {
      if TrimSpace(board) == "" {
        return Err(InvalidBoard);
      }
      if !ValidTemplate(template, encodedBytes(template)) {
        return Err(InvalidTemplate);
      }
      var handle := Open(board);
      if board in deleted {
        return Err(BoardDeleted);
      }
      if board in templates {
        return if templates[board] == template then Ok(()) else Err(TemplatePinned);
      }
      if Board(board).channels != map[] {
        return Err(BoardUsed);
      }
      assert BoardOf(View(), board) == BoardAt(db, board);
      PinnedKeeps(db, board, template, encodedBytes(template), now, fold);
      PinTemplate(board, template, now);
      return Ok(());
    }

    method PinTemplate(board: string, template: Template, now: int)
      requires Holds(View(), db) && Counts() && BoardAt(db, board).channels == map[]
      modifies this
      ensures Holds(View(), db) && Counts() && db == Pinned(old(db), board, template, now, fold)
    {
      hide Holds, Rewrites, BoardOf, TemplateRows, BoardAt, Pinned;
      ghost var before, pinned := View(), Pinned(db, board, template, now, fold);
      HoldsAt(before, db, board);
      PinnedFields(db, board, template, now, fold);
      InsertTemplate(board, template, now);
      TemplateHolds(before, View(), db, board, template, now, fold);
      templates := templates[board := template];
      db := pinned;
    }

    /** The channels of the template, inserted in the order of their names. */
    method InsertTemplate(board: string, template: Template, now: int)
      requires BoardOf(View(), board).channels == map[]
      modifies `channels
      ensures Rewrites(old(View()), View(), board, TemplateRows(BoardOf(old(View()), board), template, now, fold))
    {
      hide BoardOf, PartRows, TemplateRows;
      var names := SortedNames(template.channels.Keys);
      ghost var before, r := View(), BoardOf(View(), board);
      PartRowsEnds(r, template, names, now, fold);
      for i := 0 to |names|
        invariant Rewrites(before, View(), board, PartRows(r, template, names[..i], now, fold))
      {
        PartRowsStep(r, template, names, i, now, fold);
        var inserted := InsertChannel(board, names[i], AgentPath.ROOT, now, template.channels[names[i]]);
        if !inserted {
          assert false;
        }
      }
      assert names[..|names|] == names;
    }
  }

  /** `sortedLocalBoardChannelNames`. */
  method SortedNames(keys: set<string>) returns (names: seq<string>)
    ensures NoDuplicates(names) && forall name :: name in names <==> name in keys
  {
    names := [];
    var remaining := keys;
    while remaining != {}
      invariant remaining <= keys && NoDuplicates(names)
      invariant forall name :: name in names <==> name in keys - remaining
      decreases |remaining|
    {
      var name :| name in remaining;
      assert name !in names;
      remaining := remaining - {name};
      names := names + [name];
    }
    LexTotalOn(names);
    SortSorts(names, LexLess);
    names := Sort(names, LexLess);
    SortedDistinct(names);
  }
}
