/**
 The in-memory message board (agentboard/inmemory.go) as an object. The ghost field
 `table` is the board as rows; `Valid` ties every index and cache to it, and every
 method is the corresponding transaction or query on the rows. Methods that take the
 lock once are one method here; calls into the host are arguments.
 */
module InMemoryBoard {
  import opened Common
  import opened Sorting
  import opened Paging
  import opened BoardTypes
  import opened BoardRows
  import opened BoardRules
  import opened BoardQueries
  import opened MemoryCaches
  import opened MemoryQueries

  class MemoryBoard {
    const fold: Fold
    var channels: map<string, BoardChannel>
    var posts: seq<BoardPost>
    var byID: map<string, nat>
    var requests: map<(string, string), nat>
    var subscriptions: map<Target, map<string, Change>>
    ghost var table: Rows

    ghost function View(): Memory
      reads this
    {
      Memory(channels, posts, byID, requests, subscriptions)
    }

    ghost predicate Valid()
      reads this
    {
      Good(View(), table)
    }

    constructor (fold: Fold)
      ensures Valid() && table == EMPTY_ROWS && this.fold == fold
    {
      this.fold := fold;
      channels, posts, byID, requests, subscriptions := map[], [], map[], map[], map[];
      table := EMPTY_ROWS;
    }

    method ExistingPost(caller: string, request: PostRequest, behavior: Behavior) returns (r: Outcome<Option<Metadata>>)
      requires Valid()
      ensures r == Existing(table, caller, request, behavior)
    {
      hide RowsInv, IdsMatch, ChannelsMatch, SubscriptionsMatch, ThreadMatches, FindRequest;
      FindByKey(requests, table.posts, caller, request.requestID);
      if (caller, request.requestID) !in requests {
        return Ok(None);
      }
      var post := posts[requests[(caller, request.requestID)]];
      if post.request != request || post.behavior != behavior {
        return Err(RequestReused);
      }
      return Ok(Some(post.metadata));
    }

    method ThreadIndex(id: string) returns (r: Outcome<nat>)
      requires Valid()
      ensures r == FindThread(table.posts, id)
    {
      FindById(byID, table.posts, id);
      if id !in byID {
        return Err(PostNotFound);
      }
      var index := byID[id];
      if posts[index].metadata.threadID != id {
        return Err(NotTopLevel);
      }
      return Ok(index);
    }

    method InsertChannel(name: string, author: string, now: int, description: Option<string>) returns (r: Outcome<()>)
      requires Valid()
      modifies `channels, `table
      ensures Valid()
      ensures var spec := BoardRows.InsertChannel(old(table), name, author, now, description, fold);
        if spec.Err? then r == Err(spec.error) && View() == old(View()) && table == old(table)
        else r == Ok(()) && table == spec.value
    {
      if !ValidChannelName(name) {
        return Err(InvalidChannelName);
      }
      if name in channels {
        return Err(ChannelExists);
      }
      var entry := BoardChannel(ChannelSummary(name, description, now, author, 0, None), fold(name), [], []);
      ghost var row := ChannelRow(fold(name), now, author, description);
      InsertGood(View(), table, name, row);
      channels := channels[name := entry];
      table := table.(channels := table.channels[name := row]);
      return Ok(());
    }

    /** The implicit subscription of a participant. */
    method SubscribeCaller(target: Target, caller: string)
      requires Valid()
      modifies `subscriptions, `table
      ensures Valid() && table == SubscribeRow(old(table), target, caller)
    {
      JoinGood(View(), table, target, caller);
      var subscribers := if target in subscriptions then subscriptions[target] else map[];
      if caller !in subscribers {
        subscribers := subscribers[caller := Subscribe];
      }
      subscriptions := subscriptions[target := subscribers];
      table := SubscribeRow(table, target, caller);
    }

    method ResolveDestination(destination: Destination, author: string, now: int, caller: string, id: string, behavior: Behavior)
        returns (r: Outcome<(string, string, Target)>)
      requires Valid()
      modifies `channels, `subscriptions, `table
      ensures Valid()
      ensures var spec := Resolve(old(table), destination, author, now, caller, id, behavior, fold);
        if spec.Err? then r == Err(spec.error) && View() == old(View()) && table == old(table)
        else r == Ok((spec.value.channel, spec.value.root, spec.value.target)) && table == spec.value.rows
    {
      match destination {
        case ToChannel(name) =>
          if name !in channels {
            return Err(ChannelNotFound);
          }
          return Ok((name, id, ChannelTarget(name)));
        case ToNewChannel(name) =>
          var created := InsertChannel(name, author, now, None);
          if created.Err? {
            return Err(created.error);
          }
          if behavior == Discussion {
            SubscribeCaller(ChannelTarget(name), caller);
          }
          return Ok((name, id, ChannelTarget(name)));
        case ToThread(threadID) =>
          var index := ThreadIndex(threadID);
          if index.Err? {
            return Err(index.error);
          }
          return Ok((posts[index.value].metadata.channelName, threadID, ThreadTarget(threadID)));
      }
    }

    /** Appending the post to the log, the indexes, its channel and its thread. */
    method AppendPost(metadata: Metadata, caller: string, request: PostRequest, behavior: Behavior)
      requires Indexed(View()) && metadata.channelName in channels
      requires metadata.threadID != metadata.messageID ==> metadata.threadID in byID
      modifies `posts, `byID, `requests, `channels
      ensures View() == AppendTo(old(View()), caller,
                                 BoardPost(metadata, request, behavior, fold(request.text), |request.text|, [], None))
    {
      var id, root := metadata.messageID, metadata.threadID;
      var index := |posts|;
      var rootIndex := if root in byID then byID[root] else index;
      requests := requests[(caller, request.requestID) := index];
      byID := byID[id := index];
      posts := posts + [BoardPost(metadata, request, behavior, fold(request.text), |request.text|, [], None)];
      var channel := channels[metadata.channelName];
      var newest := channel.summary.lastMessageID.None? || KeyGreater(posts, byID, index, channel.summary.lastMessageID.value);
      channel := channel.(posts := channel.posts + [index],
                          summary := channel.summary.(messageCount := channel.summary.messageCount + 1));
      if newest {
        channel := channel.(summary := channel.summary.(lastMessageID := Some(id)));
      }
      if root == id {
        channel := channel.(roots := channel.roots + [index]);
      } else {
        var thread := posts[rootIndex];
        var replyNewest := thread.latestReply.None?
          || KeyGreater(posts, byID, index, posts[thread.latestReply.value].metadata.messageID);
        thread := thread.(replies := thread.replies + [index]);
        if replyNewest {
          thread := thread.(latestReply := Some(index));
        }
        posts := posts[rootIndex := thread];
      }
      channels := channels[metadata.channelName := channel];
    }

    /** The same, with the row it adds to the board. */
    method AddPost(metadata: Metadata, caller: string, request: PostRequest, behavior: Behavior, ghost row: PostRow)
      requires Valid()
      requires row == PostRow(row.seqNo, metadata, request.text, fold(request.text), caller, request, behavior)
      requires FreshPost(table, row.seqNo, metadata.messageID) && FindRequest(table.posts, caller, request.requestID) == None
      requires metadata.channelName in table.channels
      requires metadata.threadID != metadata.messageID ==> FindThread(table.posts, metadata.threadID).Ok?
      requires RowsInv(table.(posts := table.posts + [row]))
      modifies `posts, `byID, `requests, `channels, `table
      ensures Valid() && table == old(table).(posts := old(table).posts + [row])
    {
      hide RowsInv, PostsMatch, IdsMatch, RequestsMatch, ChannelMatches, SubscriptionsMatch, FreshPost, FindRequest, AppendTo;
      FindById(byID, table.posts, metadata.threadID);
      GoodIndexed(View(), table);
      AppendGood(View(), table, row);
      AppendPost(metadata, caller, request, behavior);
      table := table.(posts := table.posts + [row]);
    }

    /** The second locked section of `postInner`: check again, resolve, select recipients, write. */
    method CommitPost(caller: string, request: PostRequest, behavior: Behavior, author: string, now: int, id: string,
                      named: set<string>, ghost seqNo: nat)
        returns (r: Outcome<Posted>)
      requires Valid() && FreshPost(table, seqNo, id)
      modifies this
      ensures Valid()
      ensures (table, r) == BoardRows.CommitPost(old(table), seqNo, caller, request, behavior, author, now, id, named, fold)
    {
      hide Caches, RowsInv, Resolve, FindRequest, FindThread, Subscribers;
      var existing := ExistingPost(caller, request, behavior);
      if existing.Err? {
        return Err(existing.error);
      }
      if existing.value.Some? {
        return Ok(Posted(existing.value.value, {}));
      }
      assert FindRequest(table.posts, caller, request.requestID) == None;
      ghost var before, place := table, Resolve(table, request.destination, author, now, caller, id, behavior, fold);
      var resolved := ResolveDestination(request.destination, author, now, caller, id, behavior);
      if resolved.Err? {
        return Err(resolved.error);
      }
      var (channelName, root, target) := resolved.value;
      var recipients := named;
      if behavior == Discussion {
        var members := MembersOf(target);
        recipients := recipients + members;
      }
      recipients := recipients - {caller};
      var metadata := Metadata(id, channelName, author, root, now);
      ghost var row := PostRow(seqNo, metadata, request.text, fold(request.text), caller, request, behavior);
      PlacedRowKeeps(before, seqNo, caller, request, behavior, author, now, id, place.value, row, fold);
      AddPost(metadata, caller, request, behavior, row);
      if behavior == Discussion {
        SubscribeCaller(ThreadTarget(root), caller);
      }
      if behavior == SilentAppend || recipients == {} {
        return Ok(Posted(metadata, {}));
      }
      return Ok(Posted(metadata, recipients));
    }

    /** The members subscribed to a target. */
    method MembersOf(target: Target) returns (members: set<string>)
      requires Valid()
      ensures members == Subscribers(table, target)
    {
      members := {};
      if target in subscriptions {
        var subscribers := subscriptions[target];
        members := set a | a in subscribers && subscribers[a] == Subscribe;
      }
      forall a ensures a in members <==> a in Subscribers(table, target) {
        assert TriState(subscriptions, target, a) == RowState(table, target, a);
        if (target, a) in table.subs { assert (target, a).1 in Subscribers(table, target); }
      }
    }

    /** A post or append from start to end, when no other call intervenes. */
    method PostInner(caller: string, request: PostRequest, behavior: Behavior, host: Host, id: string, ghost seqNo: nat)
        returns (r: Outcome<Posted>)
      requires Valid() && FreshPost(table, seqNo, id)
      modifies this
      ensures Valid()
      ensures (table, r) == BoardRows.PostInner(old(table), seqNo, caller, request, behavior, host, id, fold)
    {
      if !ValidPostRequest(request) {
        return Err(InvalidPost);
      }
      if host.agentPath.None? {
        return Err(HostFailed);
      }
      var existing := ExistingPost(caller, request, behavior);
      if existing.Err? {
        return Err(existing.error);
      }
      if existing.value.Some? {
        return Ok(Posted(existing.value.value, {}));
      }
      var named: set<string> := {};
      if behavior == Discussion {
        var resolved := ResolveAgents(host, request.agentsToNotify);
        if resolved.None? {
          return Err(HostFailed);
        }
        named := resolved.value;
      }
      if host.now.None? {
        return Err(HostFailed);
      }
      r := CommitPost(caller, request, behavior, host.agentPath.value, host.now.value, id, named, seqNo);
    }

    /** The description and the host are looked at before the name; the row tables start with the name. */
    method CreateChannel(caller: string, name: string, description: Option<string>, subscription: Change, host: Host)
        returns (r: Outcome<ChannelSummary>)
      requires Valid()
      modifies this
      ensures Valid()
      ensures var (s, spec) := BoardRows.CreateChannel(old(table), caller, name, description, subscription, host, fold);
        && table == s
        && r == if ValidChannelName(name) then spec
                else if !ValidDescription(description) then Err(InvalidDescription)
                else if host.agentPath.None? || host.now.None? then Err(HostFailed)
                else spec
    {
      if !ValidDescription(description) {
        return Err(InvalidDescription);
      }
      if host.agentPath.None? || host.now.None? {
        return Err(HostFailed);
      }
      var inserted := InsertChannel(name, host.agentPath.value, host.now.value, description);
      if inserted.Err? {
        return Err(inserted.error);
      }
      if subscription == Subscribe {
        SubscribeCaller(ChannelTarget(name), caller);
      }
      return Ok(channels[name].summary);
    }

    /** The first locked section of an upsert: an existing channel gets the description. */
    method DescribePresent(name: string, description: string) returns (found: bool)
      requires Valid()
      modifies `channels, `table
      ensures Valid() && (found <==> name in old(table).channels)
      ensures table == if found then Describe(old(table), name, description) else old(table)
    {
      if name !in channels {
        return false;
      }
      DescribeGood(View(), table, name, description);
      var channel := channels[name];
      channel := channel.(summary := channel.summary.(description := Some(description)));
      channels := channels[name := channel];
      table := Describe(table, name, description);
      return true;
    }

    /** The second locked section: the channel may have been created while the clock was asked. */
    method UpsertAgain(name: string, description: string, author: string, now: int) returns (r: Outcome<()>)
      requires Valid() && ValidChannelName(name)
      modifies `channels, `table
      ensures Valid() && table == UpsertRow(old(table), name, description, author, now, fold) && r == Ok(())
    {
      var found := DescribePresent(name, description);
      if found {
        return Ok(());
      }
      r := InsertChannel(name, author, now, Some(description));
    }

    method UpsertChannel(name: string, description: string, host: Host) returns (r: Outcome<()>)
      requires Valid()
      modifies this
      ensures Valid()
      ensures (table, r) == BoardRows.UpsertChannel(old(table), name, description, host, fold)
    {
      if !ValidChannelName(name) {
        return Err(InvalidChannelName);
      }
      if !ValidDescription(Some(description)) {
        return Err(InvalidDescription);
      }
      if host.agentPath.None? {
        return Err(HostFailed);
      }
      var found := DescribePresent(name, description);
      if found {
        return Ok(());
      }
      if host.now.None? {
        return Err(HostFailed);
      }
      r := UpsertAgain(name, description, host.agentPath.value, host.now.value);
    }

    method SetSubscription(request: SubscriptionRequest, host: Host) returns (r: Outcome<SubscriptionState>)
      requires Valid()
      modifies this
      ensures Valid()
      ensures (table, r) == BoardRows.SetSubscription(old(table), request, host)
    {
      if host.agentPath.None? {
        return Err(HostFailed);
      }
      var targetPath := host.agentPath.value;
      if request.targetAgent.Some? {
        targetPath := request.targetAgent.value;
      }
      var targetAgent := host.resolve(targetPath);
      if targetAgent.None? {
        return Err(HostFailed);
      }
      var described := DescribeTarget(request.target);
      if described.Err? {
        return Err(described.error);
      }
      var (channelName, threadID, lastMessageID) := described.value;
      ChangeGood(View(), table, request.target, targetAgent.value, request.change);
      var subscribers := if request.target in subscriptions then subscriptions[request.target] else map[];
      subscribers := subscribers[targetAgent.value := request.change];
      subscriptions := subscriptions[request.target := subscribers];
      table := ChangeSubscription(table, request.target, targetAgent.value, request.change);
      return Ok(SubscriptionState(channelName, threadID, targetPath, request.change == Subscribe, lastMessageID));
    }

    /** Channel, thread and newest message of a target. */
    method DescribeTarget(target: Target) returns (r: Outcome<(string, Option<string>, Option<string>)>)
      requires Valid()
      ensures r == BoardRows.DescribeTarget(table, target)
    {
      match target {
        case ChannelTarget(name) =>
          if name !in channels {
            return Err(ChannelNotFound);
          }
          assert ChannelMatches(channels[name], table, name);
          return Ok((name, None, channels[name].summary.lastMessageID));
        case ThreadTarget(id) =>
          var index := ThreadIndex(id);
          if index.Err? {
            return Err(index.error);
          }
          GoodIndexed(View(), table);
          ThreadLastIsLatest(View(), table, index.value);
          var post := posts[index.value];
          var last := index.value;
          if post.latestReply.Some? && KeyGreater(posts, byID, post.latestReply.value, post.metadata.messageID) {
            last := post.latestReply.value;
          }
          assert PostMatches(posts[last], table.posts[last]);
          return Ok((post.metadata.channelName, Some(post.metadata.messageID), Some(posts[last].metadata.messageID)));
      }
    }

    // Reads

    method ReadPost(id: string, offsetChars: int, limitChars: int) returns (r: Outcome<(Metadata, Slice)>)
      requires Valid()
      ensures r == BoardQueries.ReadPost(table, id, offsetChars, limitChars)
    {
      FindById(byID, table.posts, id);
      if id !in byID {
        return Err(PostNotFound);
      }
      var post := posts[byID[id]];
      assert PostMatches(post, table.posts[byID[id]]);
      var slice := SliceText(post.request.text, post.nChars, offsetChars, limitChars);
      return Ok((post.metadata, slice));
    }

    method ListChannels(q: ChannelQuery) returns (r: Outcome<Page<ChannelSummary>>)
      requires Valid()
      ensures IsChannelPage(table, q, fold, r)
    {
      hide RowsInv, PostsMatch, IdsMatch, RequestsMatch, ChannelMatches, SubscriptionsMatch, IsChannelListing;
      var search := "";
      if q.query.Some? {
        search := fold(q.query.value);
      }
      var names := MatchingNames(channels, search);
      NamesSorted(View(), table, q, fold, names);
      names := Sort(names, ByName(ActivityKey(channels, posts, byID)));
      if q.direction == NewestFirst {
        names := ReverseSeq(names);
      }
      ChannelPageAgrees(View(), table, q, fold, names);
      var page := PageItems(q.page, names);
      if page.Err? {
        r := Err(BadPage(page.error));
      } else {
        var results := SummariesOf(channels, page.value.results);
        ChannelsAgree(View(), table, page.value.results, results);
        r := Ok(Page(results, page.value.nextCursor));
      }
      assert r == ChannelPageOf(table, q, names);
    }

    method ListThreads(q: ThreadQuery) returns (r: Outcome<Page<ThreadSummary>>)
      requires Valid()
      ensures r == BoardQueries.ListThreads(table, q)
    {
      if q.channelName !in channels {
        return Err(ChannelNotFound);
      }
      RootsSorted(View(), table, q.channelName, q.sort, q.direction);
      var roots := Sort(channels[q.channelName].roots, ByStamp(ThreadKey(posts, q.sort)));
      if q.direction == NewestFirst {
        roots := ReverseSeq(roots);
      }
      GoodIndexed(View(), table);
      ThreadsFromAgrees(View(), table, q);
      r := PageOfThreads(posts, roots, q);
    }

    /** The in-memory board looks up the message to start after before it decodes the cursor. */
    method SearchPosts(q: PostQuery) returns (r: Outcome<Page<PostPreview>>)
      requires Valid()
      ensures var lost := q.afterMessageID.Some? && FindPost(table.posts, q.afterMessageID.value) == None;
        r == if lost then Err(PostNotFound) else BoardQueries.SearchPosts(table, q, fold)
    {
      var after: Option<nat> := None;
      if q.afterMessageID.Some? {
        FindById(byID, table.posts, q.afterMessageID.value);
        if q.afterMessageID.value !in byID {
          return Err(PostNotFound);
        }
        after := Some(byID[q.afterMessageID.value]);
      }
      var listing := Found(q, after);
      PostsFromAgrees(View(), table, q, after, fold);
      r := PageOfPosts(posts, listing, q);
    }

    method Found(q: PostQuery, after: Option<nat>) returns (listing: seq<nat>)
      requires Valid() && (after.Some? ==> after.value < |table.posts|)
      ensures listing == SearchListing(table, q, after, fold)
    {
      var candidates := Candidates(q.channelName);
      SelectExact(if q.channelName.Some? then InChannel(q.channelName.value) else All, table.posts);
      var search: Option<string> := None;
      if q.query.Some? {
        search := Some(fold(q.query.value));
      }
      var filtered := Filtered(posts, candidates, q, search, after);
      FilteredIsMatching(View(), table, q, after, filtered, fold);
      NewestSorted(View(), table, filtered);
      listing := Sort(filtered, Flip(ByStamp(Key(posts))));
    }

    /** The posts of the channel asked for, or all. */
    method Candidates(channelName: Option<string>) returns (candidates: seq<nat>)
      requires Valid()
      ensures candidates == Select(if channelName.Some? then InChannel(channelName.value) else All, table.posts)
    {
      candidates := [];
      if channelName.Some? {
        if channelName.value in channels {
          assert ChannelMatches(channels[channelName.value], table, channelName.value);
          candidates := channels[channelName.value].posts;
        } else {
          NoPostsYet(table, channelName.value);
        }
      } else {
        for index := 0 to |posts|
          invariant candidates == Select(All, table.posts[..index])
        {
          assert table.posts[..index + 1][..index] == table.posts[..index];
          candidates := candidates + [index];
        }
        assert table.posts[..|posts|] == table.posts;
      }
    }

    method ReadThread(q: ReadThreadRequest) returns (r: Outcome<ThreadPage>)
      requires Valid()
      ensures r == BoardQueries.ReadThread(table, q)
    {
      var found := ThreadIndex(q.threadID);
      if found.Err? {
        return Err(found.error);
      }
      var root := posts[found.value];
      assert PostMatches(root, table.posts[found.value]) && ThreadMatches(root, table.posts);
      NewestSorted(View(), table, root.replies);
      var replies := Sort(root.replies, Flip(ByStamp(Key(posts))));
      ThreadFromAgrees(View(), table, q, found.value);
      r := PageOfReplies(posts, found.value, replies, q);
    }
  }

  /** The channels whose folded name contains the query, in no particular order. */
  method MatchingNames(channels: map<string, BoardChannel>, search: string) returns (names: seq<string>)
    ensures NoDuplicates(names)
    ensures forall name :: name in names <==> name in channels && Contains(channels[name].search, search)
  {
    names := [];
    var remaining := channels.Keys;
    while remaining != {}
      invariant remaining <= channels.Keys && NoDuplicates(names)
      invariant forall name :: name in names <==> name in channels.Keys - remaining && Contains(channels[name].search, search)
      decreases |remaining|
    {
      var name :| name in remaining;
      remaining := remaining - {name};
      if Contains(channels[name].search, search) {
        names := names + [name];
      }
    }
  }

  method SummariesOf(channels: map<string, BoardChannel>, names: seq<string>) returns (results: seq<ChannelSummary>)
    requires forall name | name in names :: name in channels
    ensures |results| == |names| && forall k :: 0 <= k < |names| ==> results[k] == channels[names[k]].summary
  {
    results := [];
    for k := 0 to |names|
      invariant |results| == k && forall i :: 0 <= i < k ==> results[i] == channels[names[i]].summary
    {
      results := results + [channels[names[k]].summary];
    }
  }

  method PageOfThreads(posts: seq<BoardPost>, listing: seq<nat>, q: ThreadQuery) returns (r: Outcome<Page<ThreadSummary>>)
    requires RepliesIndexed(posts) && Within(listing, |posts|)
    ensures r == ThreadsFrom(posts, listing, q)
  {
    WithinPage(q.page, listing, |posts|);
    var page := PageItems(q.page, listing);
    if page.Err? {
      return Err(BadPage(page.error));
    }
    var results := SummarizeThreads(posts, page.value.results, ThreadPreviewChars(q.maxCharsPerPost, |page.value.results|));
    return Ok(Page(results, page.value.nextCursor));
  }

  method PageOfPosts(posts: seq<BoardPost>, listing: seq<nat>, q: PostQuery) returns (r: Outcome<Page<PostPreview>>)
    requires Within(listing, |posts|)
    ensures r == PostsFrom(posts, listing, q)
  {
    WithinPage(q.page, listing, |posts|);
    var page := PageItems(q.page, listing);
    if page.Err? {
      return Err(BadPage(page.error));
    }
    var results := PreviewsOf(posts, page.value.results, SearchPreviewChars(q.maxCharsPerPost, |page.value.results|));
    return Ok(Page(results, page.value.nextCursor));
  }

  method PageOfReplies(posts: seq<BoardPost>, root: nat, listing: seq<nat>, q: ReadThreadRequest) returns (r: Outcome<ThreadPage>)
    requires root < |posts| && Within(listing, |posts|)
    ensures r == ThreadFrom(posts, root, listing, q)
  {
    WithinPage(q.page, listing, |posts|);
    var page := PageItems(q.page, listing);
    if page.Err? {
      return Err(BadPage(page.error));
    }
    var chars := ReadPreviewChars(q.maxCharsPerPost, |page.value.results|);
    var results := PreviewsOf(posts, page.value.results, chars);
    return Ok(ThreadPage(Preview(posts[root].metadata, posts[root].request.text, chars), Page(results, page.value.nextCursor)));
  }

  method PreviewsOf(posts: seq<BoardPost>, items: seq<nat>, chars: nat) returns (results: seq<PostPreview>)
    requires Within(items, |posts|)
    ensures results == PreviewsIn(posts, items, chars)
  {
    results := [];
    for k := 0 to |items|
      invariant |results| == k && forall i :: 0 <= i < k ==> results[i] == PreviewIn(posts, items[i], chars)
    {
      results := results + [Preview(posts[items[k]].metadata, posts[items[k]].request.text, chars)];
    }
  }

  method SummarizeThreads(posts: seq<BoardPost>, items: seq<nat>, chars: nat) returns (results: seq<ThreadSummary>)
    requires RepliesIndexed(posts) && Within(items, |posts|)
    ensures results == SummariesIn(posts, items, chars)
  {
    results := [];
    for k := 0 to |items|
      invariant |results| == k && forall i :: 0 <= i < k ==> results[i] == SummaryIn(posts, items[i], chars)
    {
      var root := posts[items[k]];
      var latest: Option<PostPreview> := None;
      var lastActivity := root.metadata.createdAt;
      if root.latestReply.Some? {
        var reply := posts[root.latestReply.value];
        latest := Some(Preview(reply.metadata, reply.request.text, chars));
        if reply.metadata.createdAt > lastActivity {
          lastActivity := reply.metadata.createdAt;
        }
      }
      results := results + [ThreadSummary(root.metadata.messageID, Preview(root.metadata, root.request.text, chars),
                                          |root.replies|, lastActivity, latest)];
    }
  }

  /** The candidates that pass the other conditions of a search. */
  method Filtered(posts: seq<BoardPost>, candidates: seq<nat>, q: PostQuery, search: Option<string>, after: Option<nat>)
      returns (filtered: seq<nat>)
    requires Ascending(candidates) && Within(candidates, |posts|)
    requires after.Some? ==> after.value < |posts|
    ensures Ascending(filtered)
    ensures forall i :: i in filtered <==> i in candidates && Keeps(posts, q, search, after, i)
  {
    filtered := [];
    for k := 0 to |candidates|
      invariant Ascending(filtered)
      invariant k < |candidates| ==> forall x :: 0 <= x < |filtered| ==> filtered[x] < candidates[k]
      invariant forall i :: i in filtered <==> i in candidates[..k] && Keeps(posts, q, search, after, i)
    {
      var index := candidates[k];
      assert forall i :: i in candidates[..k + 1] <==> i in candidates[..k] || i == index;
      if q.author.Some? && q.author.value != posts[index].metadata.author {
        continue;
      }
      if search.Some? && !Contains(posts[index].search, search.value) {
        continue;
      }
      if after.Some? {
        var created, other := Key(posts)(index), Key(posts)(after.value);
        if created < other || (created == other && index <= after.value) {
          continue;
        }
      }
      filtered := filtered + [index];
    }
    assert candidates[..|candidates|] == candidates;
  }
}
