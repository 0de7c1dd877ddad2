/**
 The state of the in-memory backend (agentboard/inmemory.go, `boardState`) as a value, and
 the relation that ties its hand-maintained indexes and caches to the rows of one board:
 everything cached equals its recomputation from the post log.
 */
module MemoryCaches {
  import opened Common
  import opened Sorting
  import opened BoardTypes
  import opened BoardRows
  import opened BoardRules
  import opened BoardQueries

  datatype BoardChannel = BoardChannel(summary: ChannelSummary, search: string, posts: seq<nat>, roots: seq<nat>)

  datatype BoardPost = BoardPost(metadata: Metadata, request: PostRequest, behavior: Behavior, search: string, nChars: nat,
                                 replies: seq<nat>, latestReply: Option<nat>)

  datatype Memory = Memory(
    channels: map<string, BoardChannel>,
    posts: seq<BoardPost>,
    byID: map<string, nat>,
    requests: map<(string, string), nat>,
    subscriptions: map<Target, map<string, Change>>)

  // Single entries

  ghost predicate PostMatches(p: BoardPost, row: PostRow) {
    && p.metadata == row.metadata && p.request == row.request && p.behavior == row.behavior
    && p.search == row.search && p.request.text == row.text && p.nChars == |row.text|
  }

  ghost predicate ThreadMatches(p: BoardPost, posts: seq<PostRow>) {
    && p.replies == Select(RepliesTo(p.metadata.messageID), posts)
    && p.latestReply == Latest(RepliesTo(p.metadata.messageID), posts)
  }

  ghost predicate ChannelMatches(c: BoardChannel, r: Rows, name: string)
    requires name in r.channels
  {
    && c.summary == Summary(r, name) && c.search == r.channels[name].search
    && c.posts == Select(InChannel(name), r.posts) && c.roots == Select(RootsIn(name), r.posts)
  }

  /** The tri-state subscription of an agent to a target. */
  function TriState(m: map<Target, map<string, Change>>, t: Target, a: string): Option<Change> {
    if t in m && a in m[t] then Some(m[t][a]) else None
  }

  function RowState(r: Rows, t: Target, a: string): Option<Change> {
    if (t, a) in r.subs then Some(Subscribe) else if (t, a) in r.optOuts then Some(Unsubscribe) else None
  }

  // The relation

  ghost predicate PostsMatch(m: Memory, posts: seq<PostRow>) {
    |m.posts| == |posts| && forall i | 0 <= i < |posts| :: PostMatches(m.posts[i], posts[i]) && ThreadMatches(m.posts[i], posts)
  }

  ghost predicate IdsMatch(byID: map<string, nat>, posts: seq<PostRow>) {
    && (forall i | 0 <= i < |posts| :: posts[i].metadata.messageID in byID && byID[posts[i].metadata.messageID] == i)
    && (forall id | id in byID :: byID[id] < |posts| && posts[byID[id]].metadata.messageID == id)
  }

  ghost predicate RequestsMatch(requests: map<(string, string), nat>, posts: seq<PostRow>) {
    && (forall i | 0 <= i < |posts| ::
          var key := (posts[i].caller, posts[i].request.requestID); key in requests && requests[key] == i)
    && (forall key | key in requests :: requests[key] < |posts| && HasKey(posts[requests[key]], key.0, key.1))
  }

  ghost predicate ChannelsMatch(m: Memory, r: Rows) {
    m.channels.Keys == r.channels.Keys && forall name | name in r.channels :: ChannelMatches(m.channels[name], r, name)
  }

  ghost predicate SubscriptionsMatch(m: map<Target, map<string, Change>>, r: Rows) {
    forall t, a :: TriState(m, t, a) == RowState(r, t, a)
  }

  ghost predicate Caches(m: Memory, r: Rows) {
    && PostsMatch(m, r.posts) && IdsMatch(m.byID, r.posts) && RequestsMatch(m.requests, r.posts)
    && ChannelsMatch(m, r) && SubscriptionsMatch(m.subscriptions, r)
  }

  /** The indexes and caches of `m` are those of the board `r`. */
  ghost predicate Good(m: Memory, r: Rows) {
    RowsInv(r) && Caches(m, r)
  }

  // Reading the log through the indexes

  /** `keyGreater`: the post at `index` is newer than the post with this id, ties broken by index. */
  function KeyGreater(posts: seq<BoardPost>, byID: map<string, nat>, index: nat, id: string): bool
    requires index < |posts| && (id in byID ==> byID[id] < |posts|)
  {
    if id !in byID then true
    else
      var created, other := Micro(posts[index].metadata.createdAt), Micro(posts[byID[id]].metadata.createdAt);
      if created != other then created > other else index > byID[id]
  }

  lemma FindById(byID: map<string, nat>, posts: seq<PostRow>, id: string)
    requires IdsMatch(byID, posts)
    ensures FindPost(posts, id) == if id in byID then Some(byID[id]) else None
  {
  }

  lemma FindByKey(requests: map<(string, string), nat>, posts: seq<PostRow>, caller: string, requestID: string)
    requires RequestsMatch(requests, posts)
    ensures FindRequest(posts, caller, requestID)
      == if (caller, requestID) in requests then Some(requests[(caller, requestID)]) else None
  {
  }

  // Appending a post

  /** No post refers to an id that does not exist yet. */
  lemma NoThreadYet(r: Rows, seqNo: nat, id: string)
    requires RowsInv(r) && FreshPost(r, seqNo, id)
    ensures Select(RepliesTo(id), r.posts) == [] && Latest(RepliesTo(id), r.posts) == None
  {
    forall i | 0 <= i < |r.posts| ensures !Picks(RepliesTo(id), r.posts[i]) {
      if r.posts[i].metadata.threadID != r.posts[i].metadata.messageID {
        var j :| 0 <= j < i && IsRootOf(r.posts, j, i);
        assert r.posts[j].metadata.messageID != id;
      }
    }
    SelectNone(RepliesTo(id), r.posts);
  }

  /** The new entry of the log. */
  function FreshEntry(row: PostRow): BoardPost {
    BoardPost(row.metadata, row.request, row.behavior, row.search, |row.text|, [], None)
  }

  /** The thread entry of a root after a reply at `index`. */
  function WithReply(p: BoardPost, index: nat, newest: bool): BoardPost {
    p.(replies := p.replies + [index], latestReply := if newest then Some(index) else p.latestReply)
  }

  /** The channel entry after a post at `index`. */
  function WithPost(c: BoardChannel, index: nat, id: string, isRoot: bool, newest: bool): BoardChannel {
    c.(posts := c.posts + [index], roots := if isRoot then c.roots + [index] else c.roots,
       summary := c.summary.(messageCount := c.summary.messageCount + 1,
                             lastMessageID := if newest then Some(id) else c.summary.lastMessageID))
  }

  /** Whether a reply is newer than the newest so far, in the terms of the rows. */
  function NewestReply(p: BoardPost, posts: seq<PostRow>, row: PostRow): bool
    requires p.latestReply.Some? ==> p.latestReply.value < |posts|
  {
    p.latestReply.None? || Stamp(posts[p.latestReply.value]) <= Stamp(row)
  }

  /** A thread entry stays right when the new row is not its reply, and when it is. */
  lemma ThreadAppend(p: BoardPost, posts: seq<PostRow>, row: PostRow)
    requires ThreadMatches(p, posts)
    ensures var reply := Picks(RepliesTo(p.metadata.messageID), row);
      ThreadMatches(if reply then WithReply(p, |posts|, NewestReply(p, posts, row)) else p, posts + [row])
  {
  }

  lemma RootAppend(m: Memory, m': Memory, r: Rows, row: PostRow)
    requires RowsInv(r) && PostsMatch(m, r.posts)
    requires FreshPost(r, row.seqNo, row.metadata.messageID) && row.request.text == row.text
    requires row.metadata.threadID == row.metadata.messageID && m'.posts == m.posts + [FreshEntry(row)]
    ensures PostsMatch(m', r.posts + [row])
  {
    NewEntryMatches(r, row);
    forall i | 0 <= i < |r.posts| ensures ThreadMatches(m.posts[i], r.posts + [row]) {
      assert PostMatches(m.posts[i], r.posts[i]);
      ThreadAppend(m.posts[i], r.posts, row);
    }
  }

  lemma NewEntryMatches(r: Rows, row: PostRow)
    requires RowsInv(r) && FreshPost(r, row.seqNo, row.metadata.messageID) && row.request.text == row.text
    ensures PostMatches(FreshEntry(row), row) && ThreadMatches(FreshEntry(row), r.posts + [row])
  {
    NoThreadYet(r, row.seqNo, row.metadata.messageID);
    SelectAppend(RepliesTo(row.metadata.messageID), r.posts, row);
  }

  lemma ReplyAppend(m: Memory, m': Memory, r: Rows, row: PostRow, k: nat)
    requires RowsInv(r) && PostsMatch(m, r.posts)
    requires FreshPost(r, row.seqNo, row.metadata.messageID) && row.request.text == row.text
    requires k < |r.posts| && row.metadata.threadID == r.posts[k].metadata.messageID
    requires m'.posts == (m.posts + [FreshEntry(row)])[k := WithReply(m.posts[k], |m.posts|, NewestReply(m.posts[k], r.posts, row))]
    ensures PostsMatch(m', r.posts + [row])
  {
    NewEntryMatches(r, row);
    var posts := r.posts + [row];
    forall i | 0 <= i < |r.posts| ensures PostMatches(m'.posts[i], posts[i]) && ThreadMatches(m'.posts[i], posts) {
      assert PostMatches(m.posts[i], r.posts[i]);
      ThreadAppend(m.posts[i], r.posts, row);
      assert Picks(RepliesTo(m.posts[i].metadata.messageID), row) <==> i == k;
    }
  }

  lemma IdsAppend(byID: map<string, nat>, r: Rows, row: PostRow)
    requires IdsMatch(byID, r.posts) && FreshPost(r, row.seqNo, row.metadata.messageID)
    ensures IdsMatch(byID[row.metadata.messageID := |r.posts|], r.posts + [row])
  {
  }

  lemma RequestsAppend(requests: map<(string, string), nat>, posts: seq<PostRow>, row: PostRow)
    requires RequestsMatch(requests, posts) && FindRequest(posts, row.caller, row.request.requestID) == None
    ensures RequestsMatch(requests[(row.caller, row.request.requestID) := |posts|], posts + [row])
  {
    hide FindRequest;
    var more := posts + [row];
    var requests' := requests[(row.caller, row.request.requestID) := |posts|];
    forall i | 0 <= i < |more|
      ensures var key := (more[i].caller, more[i].request.requestID); key in requests' && requests'[key] == i
    {
      if i < |posts| { assert !HasKey(posts[i], row.caller, row.request.requestID); }
    }
  }

  lemma ChannelAppend(c: BoardChannel, r: Rows, row: PostRow)
    requires row.metadata.channelName in r.channels && ChannelMatches(c, r, row.metadata.channelName)
    ensures var name := row.metadata.channelName; var last := Latest(InChannel(name), r.posts);
      var newest := last.None? || Stamp(r.posts[last.value]) <= Stamp(row);
      ChannelMatches(WithPost(c, |r.posts|, row.metadata.messageID, row.metadata.threadID == row.metadata.messageID, newest),
                     r.(posts := r.posts + [row]), name)
  {
  }

  lemma OtherChannel(c: BoardChannel, r: Rows, row: PostRow, name: string)
    requires name in r.channels && name != row.metadata.channelName && ChannelMatches(c, r, name)
    ensures ChannelMatches(c, r.(posts := r.posts + [row]), name)
  {
  }

  lemma ChannelsAppend(m: Memory, m': Memory, r: Rows, row: PostRow)
    requires ChannelsMatch(m, r) && row.metadata.channelName in r.channels
    requires var name := row.metadata.channelName; var last := Latest(InChannel(name), r.posts);
      m'.channels == m.channels[name := WithPost(m.channels[name], |r.posts|, row.metadata.messageID,
        row.metadata.threadID == row.metadata.messageID, last.None? || Stamp(r.posts[last.value]) <= Stamp(row))]
    ensures ChannelsMatch(m', r.(posts := r.posts + [row]))
  {
    forall name | name in r.channels ensures ChannelMatches(m'.channels[name], r.(posts := r.posts + [row]), name) {
      if name == row.metadata.channelName {
        ChannelAppend(m.channels[name], r, row);
      } else {
        OtherChannel(m.channels[name], r, row, name);
      }
    }
  }

  /** A new or redescribed channel row that leaves the posts alone. */
  lemma ChannelsUpdate(m: Memory, m': Memory, r: Rows, name: string, row: ChannelRow, entry: BoardChannel)
    requires ChannelsMatch(m, r) && m'.channels == m.channels[name := entry]
    requires ChannelMatches(entry, r.(channels := r.channels[name := row]), name)
    ensures ChannelsMatch(m', r.(channels := r.channels[name := row]))
  {
  }

  /** A channel that does not exist has no posts. */
  lemma NoPostsYet(r: Rows, name: string)
    requires RowsInv(r) && name !in r.channels
    ensures Select(InChannel(name), r.posts) == [] && Select(RootsIn(name), r.posts) == []
    ensures Latest(InChannel(name), r.posts) == None
  {
    SelectNone(InChannel(name), r.posts);
    SelectNone(RootsIn(name), r.posts);
  }

  /** `keyGreater` of the post being appended against an earlier one. */
  lemma NewerThan(m: Memory, r: Rows, row: PostRow, l: nat)
    requires PostsMatch(m, r.posts) && IdsMatch(m.byID, r.posts) && FreshPost(r, row.seqNo, row.metadata.messageID)
    requires l < |r.posts|
    ensures var byID := m.byID[row.metadata.messageID := |r.posts|];
      && (forall id | id in byID :: byID[id] <= |r.posts|)
      && KeyGreater(m.posts + [FreshEntry(row)], byID, |r.posts|, r.posts[l].metadata.messageID)
         == (Stamp(r.posts[l]) <= Stamp(row))
  {
  }

  // Subscriptions

  /** The subscribers of one target after an implicit subscription. */
  function Joined(m: map<Target, map<string, Change>>, target: Target, caller: string): map<string, Change> {
    var subscribers := if target in m then m[target] else map[];
    if caller in subscribers then subscribers else subscribers[caller := Subscribe]
  }

  lemma ImplicitSubscription(m: map<Target, map<string, Change>>, r: Rows, target: Target, caller: string)
    requires SubscriptionsMatch(m, r)
    ensures SubscriptionsMatch(m[target := Joined(m, target, caller)], SubscribeRow(r, target, caller))
  {
    var m', s := m[target := Joined(m, target, caller)], SubscribeRow(r, target, caller);
    assert TriState(m, target, caller) == RowState(r, target, caller);
    forall t, a ensures TriState(m', t, a) == RowState(s, t, a) {
      assert TriState(m, t, a) == RowState(r, t, a);
    }
  }

  lemma ExplicitSubscription(m: map<Target, map<string, Change>>, r: Rows, target: Target, agent: string, change: Change)
    requires SubscriptionsMatch(m, r)
    ensures var subscribers := (if target in m then m[target] else map[])[agent := change];
      SubscriptionsMatch(m[target := subscribers], ChangeSubscription(r, target, agent, change))
  {
    var subscribers := (if target in m then m[target] else map[])[agent := change];
    var m', s := m[target := subscribers], ChangeSubscription(r, target, agent, change);
    forall t, a ensures TriState(m', t, a) == RowState(s, t, a) {
      assert TriState(m, t, a) == RowState(r, t, a);
    }
  }

  // Whole updates

  /** Positions in the indexes are positions of the log. */
  ghost predicate Indexed(m: Memory) {
    && (forall id | id in m.byID :: m.byID[id] < |m.posts|)
    && (forall i | 0 <= i < |m.posts| && m.posts[i].latestReply.Some? :: m.posts[i].latestReply.value < |m.posts|)
  }

  /** The log, the indexes, the channel and the thread after a post. */
  function AppendTo(m: Memory, caller: string, post: BoardPost): Memory
    requires Indexed(m) && post.metadata.channelName in m.channels && post.latestReply == None
    requires post.metadata.threadID != post.metadata.messageID ==>
      post.metadata.threadID in m.byID && m.byID[post.metadata.threadID] < |m.posts|
  {
    var n, id, root := |m.posts|, post.metadata.messageID, post.metadata.threadID;
    var byID, posts, c := m.byID[id := n], m.posts + [post], m.channels[post.metadata.channelName];
    var newest := c.summary.lastMessageID.None? || KeyGreater(posts, byID, n, c.summary.lastMessageID.value);
    Memory(m.channels[post.metadata.channelName := WithPost(c, n, id, root == id, newest)],
           if root == id then posts else posts[m.byID[root] := ThreadAfter(posts, byID, m.byID[root], n)],
           byID, m.requests[(caller, post.request.requestID) := n], m.subscriptions)
  }

  function ThreadAfter(posts: seq<BoardPost>, byID: map<string, nat>, k: nat, n: nat): BoardPost
    requires k < |posts| && n < |posts| && (forall id | id in byID :: byID[id] < |posts|)
    requires posts[k].latestReply.Some? ==> posts[k].latestReply.value < |posts|
  {
    var newest := posts[k].latestReply.None? || KeyGreater(posts, byID, n, posts[posts[k].latestReply.value].metadata.messageID);
    WithReply(posts[k], n, newest)
  }

  lemma GoodIndexed(m: Memory, r: Rows)
    requires Good(m, r)
    ensures Indexed(m)
  {
  }

  /** The caching test for the newest message of a channel, in the terms of the rows. */
  lemma NewestInChannel(m: Memory, r: Rows, row: PostRow)
    requires PostsMatch(m, r.posts) && IdsMatch(m.byID, r.posts) && FreshPost(r, row.seqNo, row.metadata.messageID)
    requires row.metadata.channelName in r.channels && row.metadata.channelName in m.channels
    requires ChannelMatches(m.channels[row.metadata.channelName], r, row.metadata.channelName)
    ensures var byID, cached := m.byID[row.metadata.messageID := |r.posts|], m.channels[row.metadata.channelName].summary.lastMessageID;
      var last := Latest(InChannel(row.metadata.channelName), r.posts);
      && (forall id | id in byID :: byID[id] <= |r.posts|)
      && (cached.None? || KeyGreater(m.posts + [FreshEntry(row)], byID, |r.posts|, cached.value))
         == (last.None? || Stamp(r.posts[last.value]) <= Stamp(row))
  {
  }

  lemma AppendChannels(m: Memory, r: Rows, row: PostRow)
    requires PostsMatch(m, r.posts) && IdsMatch(m.byID, r.posts) && ChannelsMatch(m, r)
    requires Indexed(m) && FreshPost(r, row.seqNo, row.metadata.messageID)
    requires row.metadata.channelName in r.channels
    requires row.metadata.threadID != row.metadata.messageID ==> row.metadata.threadID in m.byID
    ensures ChannelsMatch(AppendTo(m, row.caller, FreshEntry(row)), r.(posts := r.posts + [row]))
  {
    hide IdsMatch, FreshPost, PostMatches, ThreadMatches, ChannelMatches, WithPost, KeyGreater, ThreadAfter;
    NewestInChannel(m, r, row);
    ChannelsAppend(m, AppendTo(m, row.caller, FreshEntry(row)), r, row);
  }

  lemma AppendPosts(m: Memory, r: Rows, row: PostRow)
    requires Good(m, r) && Indexed(m) && FreshPost(r, row.seqNo, row.metadata.messageID) && row.request.text == row.text
    requires row.metadata.channelName in m.channels
    requires row.metadata.threadID != row.metadata.messageID ==> row.metadata.threadID in m.byID
    ensures PostsMatch(AppendTo(m, row.caller, FreshEntry(row)), r.posts + [row])
  {
    var t := AppendTo(m, row.caller, FreshEntry(row));
    if row.metadata.threadID == row.metadata.messageID {
      RootAppend(m, t, r, row);
    } else {
      var k := m.byID[row.metadata.threadID];
      assert PostMatches(m.posts[k], r.posts[k]) && ThreadMatches(m.posts[k], r.posts);
      var reply := m.posts[k].latestReply;
      if reply.Some? {
        NewerThan(m, r, row, reply.value);
        assert PostMatches(m.posts[reply.value], r.posts[reply.value]);
      }
      ReplyAppend(m, t, r, row, k);
    }
  }

  /** Appending a post keeps every index and cache right. */
  lemma AppendGood(m: Memory, r: Rows, row: PostRow)
    requires Good(m, r) && Indexed(m) && FreshPost(r, row.seqNo, row.metadata.messageID) && row.request.text == row.text
    requires FindRequest(r.posts, row.caller, row.request.requestID) == None && row.metadata.channelName in r.channels
    requires row.metadata.threadID != row.metadata.messageID ==> row.metadata.threadID in m.byID
    requires RowsInv(r.(posts := r.posts + [row]))
    ensures Good(AppendTo(m, row.caller, FreshEntry(row)), r.(posts := r.posts + [row]))
  {
    hide RowsInv, PostsMatch, IdsMatch, RequestsMatch, ChannelMatches, SubscriptionsMatch, FreshPost, FindRequest;
    AppendPosts(m, r, row);
    AppendChannels(m, r, row);
    IdsAppend(m.byID, r, row);
    RequestsAppend(m.requests, r.posts, row);
    SameSubscriptions(m.subscriptions, r, r.(posts := r.posts + [row]));
  }

  lemma InsertGood(m: Memory, r: Rows, name: string, row: ChannelRow)
    requires Good(m, r) && name !in r.channels
    ensures var summary := ChannelSummary(name, row.description, row.createdAt, row.author, 0, None);
      Good(m.(channels := m.channels[name := BoardChannel(summary, row.search, [], [])]), r.(channels := r.channels[name := row]))
  {
    var summary := ChannelSummary(name, row.description, row.createdAt, row.author, 0, None);
    var entry := BoardChannel(summary, row.search, [], []);
    NoPostsYet(r, name);
    ChannelsUpdate(m, m.(channels := m.channels[name := entry]), r, name, row, entry);
    SameSubscriptions(m.subscriptions, r, r.(channels := r.channels[name := row]));
  }

  lemma SameSubscriptions(m: map<Target, map<string, Change>>, r: Rows, s: Rows)
    requires SubscriptionsMatch(m, r) && s.subs == r.subs && s.optOuts == r.optOuts
    ensures SubscriptionsMatch(m, s)
  {
  }

  lemma DescribeGood(m: Memory, r: Rows, name: string, description: string)
    requires Good(m, r) && name in r.channels
    ensures var c := m.channels[name]; var row := r.channels[name].(description := Some(description));
      Good(m.(channels := m.channels[name := c.(summary := c.summary.(description := Some(description)))]),
           r.(channels := r.channels[name := row]))
  {
    var c, row := m.channels[name], r.channels[name].(description := Some(description));
    var entry := c.(summary := c.summary.(description := Some(description)));
    assert ChannelMatches(c, r, name);
    ChannelsUpdate(m, m.(channels := m.channels[name := entry]), r, name, row, entry);
    SameSubscriptions(m.subscriptions, r, r.(channels := r.channels[name := row]));
  }

  lemma JoinGood(m: Memory, r: Rows, target: Target, caller: string)
    requires Good(m, r)
    ensures Good(m.(subscriptions := m.subscriptions[target := Joined(m.subscriptions, target, caller)]),
                 SubscribeRow(r, target, caller))
  {
    hide RowsInv, PostsMatch, IdsMatch, RequestsMatch, ChannelsMatch, SubscriptionsMatch, Joined;
    var joined := m.subscriptions[target := Joined(m.subscriptions, target, caller)];
    var s := SubscribeRow(r, target, caller);
    ImplicitSubscription(m.subscriptions, r, target, caller);
    assert RowsInv(s) by { SubscribeKeeps(r, target, caller); }
    ResubscribedGood(m, joined, r, s);
  }

  /** A change of subscriptions alone. */
  lemma ResubscribedGood(m: Memory, subscriptions: map<Target, map<string, Change>>, r: Rows, s: Rows)
    requires Caches(m, r) && s.posts == r.posts && s.channels == r.channels
    requires SubscriptionsMatch(subscriptions, s) && RowsInv(s)
    ensures Good(m.(subscriptions := subscriptions), s)
  {
  }

  lemma ChangeGood(m: Memory, r: Rows, target: Target, agent: string, change: Change)
    requires Good(m, r)
    ensures var subscribers := (if target in m.subscriptions then m.subscriptions[target] else map[])[agent := change];
      Good(m.(subscriptions := m.subscriptions[target := subscribers]), ChangeSubscription(r, target, agent, change))
  {
    hide RowsInv, PostsMatch, IdsMatch, RequestsMatch, ChannelsMatch, SubscriptionsMatch;
    var subscribers := (if target in m.subscriptions then m.subscriptions[target] else map[])[agent := change];
    ExplicitSubscription(m.subscriptions, r, target, agent, change);
    ChangeTakesEffect(r, target, agent, change);
    ResubscribedGood(m, m.subscriptions[target := subscribers], r, ChangeSubscription(r, target, agent, change));
  }

  /** The newest message of a thread, as the in-memory board finds it. */
  function ThreadLast(m: Memory, index: nat): nat
    requires Indexed(m) && index < |m.posts|
  {
    var reply := m.posts[index].latestReply;
    if reply.Some? && KeyGreater(m.posts, m.byID, reply.value, m.posts[index].metadata.messageID) then reply.value else index
  }

  lemma ThreadLastIsLatest(m: Memory, r: Rows, index: nat)
    requires RowsInv(r) && PostsMatch(m, r.posts) && IdsMatch(m.byID, r.posts) && Indexed(m) && index < |r.posts|
    requires r.posts[index].metadata.messageID == r.posts[index].metadata.threadID
    ensures var id := r.posts[index].metadata.messageID;
      Latest(InThread(id), r.posts) == Some(ThreadLast(m, index))
  {
    hide RowsInv, FreshPost, KeyGreater, IdsMatch;
    ThreadLatest(r, index);
    assert PostMatches(m.posts[index], r.posts[index]) && ThreadMatches(m.posts[index], r.posts);
    var reply := m.posts[index].latestReply;
    if reply.Some? {
      ReplyAfterRoot(r, index, reply.value);
      OlderReply(m, r, index, reply.value);
    }
  }

  lemma OlderReply(m: Memory, r: Rows, index: nat, reply: nat)
    requires PostsMatch(m, r.posts) && IdsMatch(m.byID, r.posts) && index < reply < |r.posts|
    requires forall id | id in m.byID :: m.byID[id] < |m.posts|
    ensures KeyGreater(m.posts, m.byID, reply, m.posts[index].metadata.messageID) <==> Stamp(r.posts[reply]) >= Stamp(r.posts[index])
  {
  }
}
