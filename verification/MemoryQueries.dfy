/**
 The orders in which the in-memory board sorts (agentboard/inmemory.go), computed from
 its caches, agree with the orders of the queries over the rows.
 */
module MemoryQueries {
  import opened Common
  import opened Sorting
  import opened Paging
  import opened BoardTypes
  import opened BoardRows
  import opened BoardRules
  import opened BoardQueries
  import opened MemoryCaches

  /** `key`: the timestamp of a post; ties are broken by position. */
  function Key(posts: seq<BoardPost>): nat -> int {
    (i: nat) => if i >= |posts| then 0 else Micro(posts[i].metadata.createdAt)
  }

  /** The timestamp a thread is sorted by: of its root, or of a newer latest reply. */
  function ThreadKey(posts: seq<BoardPost>, sort: ThreadSort): nat -> int {
    (i: nat) =>
      if i >= |posts| then 0
      else
        var created, reply := Micro(posts[i].metadata.createdAt), posts[i].latestReply;
        if sort == Activity && reply.Some? && Key(posts)(reply.value) > created then Key(posts)(reply.value) else created
  }

  /** The activity of a channel: of its newest message, or its creation. */
  function ActivityKey(channels: map<string, BoardChannel>, posts: seq<BoardPost>, byID: map<string, nat>): string -> int {
    (name: string) =>
      if name !in channels then 0
      else
        var summary := channels[name].summary;
        if summary.lastMessageID.Some? && summary.lastMessageID.value in byID then Key(posts)(byID[summary.lastMessageID.value])
        else Micro(summary.createdAt)
  }

  function ByName(activity: string -> int): (string, string) -> bool {
    (a, b) => activity(a) < activity(b) || (activity(a) == activity(b) && LexLess(a, b))
  }

  lemma KeysAgree(m: Memory, r: Rows)
    requires PostsMatch(m, r.posts)
    ensures forall i: nat :: Key(m.posts)(i) == PostStamp(r)(i)
  {
  }

  lemma ThreadKeysAgree(m: Memory, r: Rows, sort: ThreadSort, i: nat)
    requires Good(m, r) && i < |r.posts| && r.posts[i].metadata.messageID == r.posts[i].metadata.threadID
    ensures ThreadKey(m.posts, sort)(i) == ThreadStamp(r, sort)(i)
  {
    hide RowsInv, IdsMatch, RequestsMatch, ChannelsMatch, SubscriptionsMatch;
    KeysAgree(m, r);
    ThreadLatest(r, i);
    assert PostMatches(m.posts[i], r.posts[i]) && ThreadMatches(m.posts[i], r.posts);
    var reply := m.posts[i].latestReply;
    if reply.Some? { assert Key(m.posts)(reply.value) == Stamp(r.posts[reply.value]); }
  }

  lemma ActivitiesAgree(m: Memory, r: Rows, name: string)
    requires Good(m, r)
    ensures ActivityKey(m.channels, m.posts, m.byID)(name) == ChannelActivity(r, name)
  {
    KeysAgree(m, r);
    if name in r.channels {
      assert ChannelMatches(m.channels[name], r, name);
    } else {
      NoPostsYet(r, name);
    }
  }

  /** Sorting the cached roots gives the thread listing. */
  lemma RootsSorted(m: Memory, r: Rows, channel: string, sort: ThreadSort, direction: Direction)
    requires Good(m, r) && channel in r.channels
    ensures var roots := Sort(m.channels[channel].roots, ByStamp(ThreadKey(m.posts, sort)));
      (if direction == NewestFirst then ReverseSeq(roots) else roots) == ThreadListing(r, channel, sort, direction)
  {
    hide RowsInv, PostMatches, ThreadMatches, IdsMatch, RequestsMatch, SubscriptionsMatch, Summary, ThreadKey, ThreadStamp, ByStamp, Sort;
    var roots := m.channels[channel].roots;
    assert ChannelMatches(m.channels[channel], r, channel);
    SelectExact(RootsIn(channel), r.posts);
    forall i | i in roots ensures ThreadKey(m.posts, sort)(i) == ThreadStamp(r, sort)(i) {
      ThreadKeysAgree(m, r, sort, i);
    }
    RootsListed(r, channel, sort, direction, roots, ThreadKey(m.posts, sort));
  }

  lemma RootsListed(r: Rows, channel: string, sort: ThreadSort, direction: Direction, roots: seq<nat>, key: nat -> int)
    requires roots == Select(RootsIn(channel), r.posts) && NoDuplicates(roots)
    requires forall i | i in roots :: key(i) == ThreadStamp(r, sort)(i)
    ensures (if direction == NewestFirst then ReverseSeq(Sort(roots, ByStamp(key))) else Sort(roots, ByStamp(key)))
      == ThreadListing(r, channel, sort, direction)
  {
    StampsAgree(roots, key, ThreadStamp(r, sort));
    ByStampTotal(roots, ThreadStamp(r, sort));
    SortedEitherWay(roots, ByStamp(key), ByStamp(ThreadStamp(r, sort)));
  }

  lemma StampsAgree(s: seq<nat>, key: nat -> int, stamp: nat -> int)
    requires forall i | i in s :: key(i) == stamp(i)
    ensures forall i, j | i in s && j in s :: ByStamp(key)(i, j) == ByStamp(stamp)(i, j)
  {
  }

  /** Sorting positions by key, newest first. */
  lemma NewestSorted(m: Memory, r: Rows, s: seq<nat>)
    requires PostsMatch(m, r.posts)
    ensures Sort(s, Flip(ByStamp(Key(m.posts)))) == Sort(s, Flip(ByStamp(PostStamp(r))))
  {
    KeysAgree(m, r);
    SortAgrees(s, Flip(ByStamp(Key(m.posts))), Flip(ByStamp(PostStamp(r))));
  }

  /** Sorting the matching names gives the channel listing. */
  lemma NamesSorted(m: Memory, r: Rows, q: ChannelQuery, fold: Fold, names: seq<string>)
    requires Good(m, r) && NoDuplicates(names)
    requires forall name :: name in names <==>
      name in m.channels && Contains(m.channels[name].search, if q.query.Some? then fold(q.query.value) else "")
    ensures var sorted := Sort(names, ByName(ActivityKey(m.channels, m.posts, m.byID)));
      IsChannelListing(r, q.query, q.direction, fold, if q.direction == NewestFirst then ReverseSeq(sorted) else sorted)
  {
    forall name ensures ActivityKey(m.channels, m.posts, m.byID)(name) == ChannelActivity(r, name) {
      ActivitiesAgree(m, r, name);
    }
    assert forall name | name in r.channels :: ChannelMatches(m.channels[name], r, name);
    NamesListed(r, q, fold, names, ByName(ActivityKey(m.channels, m.posts, m.byID)));
  }

  lemma NamesListed(r: Rows, q: ChannelQuery, fold: Fold, names: seq<string>, order: (string, string) -> bool)
    requires NoDuplicates(names) && forall a, b :: order(a, b) == ChannelBefore(r)(a, b)
    requires forall name :: name in names <==>
      name in r.channels && Contains(r.channels[name].search, if q.query.Some? then fold(q.query.value) else "")
    ensures var sorted := Sort(names, order);
      IsChannelListing(r, q.query, q.direction, fold, if q.direction == NewestFirst then ReverseSeq(sorted) else sorted)
  {
    ChannelBeforeTotal(r, names);
    SortedEitherWay(names, order, ChannelBefore(r));
    SortSorts(names, ChannelBefore(r));
    SortSorts(names, Flip(ChannelBefore(r)));
  }

  predicate Ascending(s: seq<nat>) {
    forall j, k :: 0 <= j < k < |s| ==> s[j] < s[k]
  }

  /** Ascending positions are determined by which they are. */
  lemma AscendingUnique(a: seq<nat>, b: seq<nat>)
    requires Ascending(a) && Ascending(b) && SameElements(a, b)
    ensures a == b
  {
    SortedUnique(a, b, (i: nat, j: nat) => i < j);
  }

  /** The test of one post in the search loop. */
  predicate Keeps(posts: seq<BoardPost>, q: PostQuery, search: Option<string>, after: Option<nat>, index: nat)
    requires index < |posts| && (after.Some? ==> after.value < |posts|)
  {
    && !(q.author.Some? && q.author.value != posts[index].metadata.author)
    && !(search.Some? && !Contains(posts[index].search, search.value))
    && !(after.Some? && (Key(posts)(index) < Key(posts)(after.value)
                         || (Key(posts)(index) == Key(posts)(after.value) && index <= after.value)))
  }

  lemma KeepsMatches(m: Memory, r: Rows, q: PostQuery, after: Option<nat>, index: nat, fold: Fold)
    requires Good(m, r) && index < |r.posts| && (after.Some? ==> after.value < |r.posts|)
    ensures var search := if q.query.Some? then Some(fold(q.query.value)) else None;
      Matches(r, q, after, index, fold) <==>
        Keeps(m.posts, q, search, after, index)
        && (q.channelName.Some? ==> r.posts[index].metadata.channelName == q.channelName.value)
  {
    hide IdsMatch, RequestsMatch, ChannelsMatch, SubscriptionsMatch, Contains, ThreadMatches;
    KeysAgree(m, r);
    assert PostMatches(m.posts[index], r.posts[index]);
    if after.Some? { RowOrderByPosition(r, after.value, index); }
  }

  /** The search loop keeps exactly the matching rows. */
  lemma FilteredIsMatching(m: Memory, r: Rows, q: PostQuery, after: Option<nat>, filtered: seq<nat>, fold: Fold)
    requires Good(m, r) && (after.Some? ==> after.value < |r.posts|) && Ascending(filtered)
    requires var search := if q.query.Some? then Some(fold(q.query.value)) else None;
      forall i :: i in filtered <==>
        i in Select(if q.channelName.Some? then InChannel(q.channelName.value) else All, r.posts)
        && Keeps(m.posts, q, search, after, i)
    ensures filtered == Matching(r, q, after, |r.posts|, fold)
  {
    hide RowsInv, PostMatches, ThreadMatches, IdsMatch, RequestsMatch, ChannelsMatch, SubscriptionsMatch, Keeps, Matches, Key, Contains;
    SelectExact(if q.channelName.Some? then InChannel(q.channelName.value) else All, r.posts);
    MatchingExact(r, q, after, |r.posts|, fold);
    forall i | 0 <= i < |r.posts| ensures i in filtered <==> Matches(r, q, after, i, fold) {
      KeepsMatches(m, r, q, after, i, fold);
    }
    AscendingUnique(filtered, Matching(r, q, after, |r.posts|, fold));
  }

  // Results

  function PreviewIn(posts: seq<BoardPost>, i: nat, chars: nat): PostPreview
    requires i < |posts|
  {
    Preview(posts[i].metadata, posts[i].request.text, chars)
  }

  ghost predicate RepliesIndexed(posts: seq<BoardPost>) {
    forall i | 0 <= i < |posts| && posts[i].latestReply.Some? :: posts[i].latestReply.value < |posts|
  }

  ghost function SummaryIn(posts: seq<BoardPost>, i: nat, chars: nat): ThreadSummary
    requires i < |posts| && RepliesIndexed(posts)
  {
    var root, reply := posts[i].metadata, posts[i].latestReply;
    ThreadSummary(root.messageID, PreviewIn(posts, i, chars), |posts[i].replies|,
                  if reply.Some? && posts[reply.value].metadata.createdAt > root.createdAt
                  then posts[reply.value].metadata.createdAt else root.createdAt,
                  if reply.Some? then Some(PreviewIn(posts, reply.value, chars)) else None)
  }

  function PreviewsIn(posts: seq<BoardPost>, items: seq<nat>, chars: nat): seq<PostPreview>
    requires forall k :: 0 <= k < |items| ==> items[k] < |posts|
  {
    seq(|items|, k requires 0 <= k < |items| => PreviewIn(posts, items[k], chars))
  }

  ghost function SummariesIn(posts: seq<BoardPost>, items: seq<nat>, chars: nat): seq<ThreadSummary>
    requires RepliesIndexed(posts) && forall k :: 0 <= k < |items| ==> items[k] < |posts|
  {
    seq(|items|, k requires 0 <= k < |items| => SummaryIn(posts, items[k], chars))
  }

  lemma PreviewsAgree(m: Memory, r: Rows, items: seq<nat>, chars: nat)
    requires PostsMatch(m, r.posts) && forall k :: 0 <= k < |items| ==> items[k] < |r.posts|
    ensures PreviewsIn(m.posts, items, chars) == Previews(r, items, chars)
  {
  }

  lemma SummariesAgree(m: Memory, r: Rows, items: seq<nat>, chars: nat)
    requires PostsMatch(m, r.posts) && RepliesIndexed(m.posts) && forall k :: 0 <= k < |items| ==> items[k] < |r.posts|
    ensures SummariesIn(m.posts, items, chars) == ThreadSummaries(r, items, chars)
  {
  }

  lemma ChannelsAgree(m: Memory, r: Rows, names: seq<string>, results: seq<ChannelSummary>)
    requires ChannelsMatch(m, r) && |results| == |names|
    requires forall k :: 0 <= k < |names| ==> names[k] in m.channels && results[k] == m.channels[names[k]].summary
    ensures results == Summaries(r, names)
  {
  }

  // Answers cut out of a listing held in memory

  lemma AllWithin(items: seq<nat>, n: nat)
    requires forall i | i in items :: i < n
    ensures Within(items, n)
  {
    assert forall k :: 0 <= k < |items| ==> items[k] in items;
  }

  lemma WithinPage(request: PageRequest, items: seq<nat>, n: nat)
    requires Within(items, n)
    ensures QueryPage(request, items) == PageItems(request, items)
    ensures PageItems(request, items).Ok? ==> Within(PageItems(request, items).value.results, n)
  {
    QueryPageIsPageItems(request, items);
    PageWithin(request, items);
  }

  ghost function ThreadsFrom(posts: seq<BoardPost>, listing: seq<nat>, q: ThreadQuery): Outcome<Page<ThreadSummary>>
    requires RepliesIndexed(posts) && Within(listing, |posts|)
  {
    WithinPage(q.page, listing, |posts|);
    match PageItems(q.page, listing)
    case Err(error) => Err(BadPage(error))
    case Ok(page) =>
      Ok(Page(SummariesIn(posts, page.results, ThreadPreviewChars(q.maxCharsPerPost, |page.results|)), page.nextCursor))
  }

  ghost function PostsFrom(posts: seq<BoardPost>, listing: seq<nat>, q: PostQuery): Outcome<Page<PostPreview>>
    requires Within(listing, |posts|)
  {
    WithinPage(q.page, listing, |posts|);
    match PageItems(q.page, listing)
    case Err(error) => Err(BadPage(error))
    case Ok(page) =>
      Ok(Page(PreviewsIn(posts, page.results, SearchPreviewChars(q.maxCharsPerPost, |page.results|)), page.nextCursor))
  }

  ghost function ThreadFrom(posts: seq<BoardPost>, root: nat, listing: seq<nat>, q: ReadThreadRequest): Outcome<ThreadPage>
    requires root < |posts| && Within(listing, |posts|)
  {
    WithinPage(q.page, listing, |posts|);
    match PageItems(q.page, listing)
    case Err(error) => Err(BadPage(error))
    case Ok(page) =>
      var chars := ReadPreviewChars(q.maxCharsPerPost, |page.results|);
      Ok(ThreadPage(PreviewIn(posts, root, chars), Page(PreviewsIn(posts, page.results, chars), page.nextCursor)))
  }

  lemma ThreadsFromAgrees(m: Memory, r: Rows, q: ThreadQuery)
    requires PostsMatch(m, r.posts) && RepliesIndexed(m.posts) && q.channelName in r.channels
    ensures var listing := ThreadListing(r, q.channelName, q.sort, q.direction);
      Within(listing, |m.posts|) && ThreadsFrom(m.posts, listing, q) == BoardQueries.ListThreads(r, q)
  {
    var listing := ThreadListing(r, q.channelName, q.sort, q.direction);
    ListingWithin(r, q.channelName, q.sort, q.direction, "");
    AllWithin(listing, |r.posts|);
    WithinPage(q.page, listing, |r.posts|);
    var page := PageItems(q.page, listing);
    if page.Ok? {
      SummariesAgree(m, r, page.value.results, ThreadPreviewChars(q.maxCharsPerPost, |page.value.results|));
    }
  }

  lemma PostsFromAgrees(m: Memory, r: Rows, q: PostQuery, after: Option<nat>, fold: Fold)
    requires PostsMatch(m, r.posts) && (after.Some? ==> after.value < |r.posts|)
    requires if q.afterMessageID.Some? then after.Some? && after == FindPost(r.posts, q.afterMessageID.value) else after == None
    ensures var listing := SearchListing(r, q, after, fold);
      Within(listing, |m.posts|) && PostsFrom(m.posts, listing, q) == BoardQueries.SearchPosts(r, q, fold)
  {
    var listing := SearchListing(r, q, after, fold);
    SearchWithin(r, q, after, fold);
    AllWithin(listing, |r.posts|);
    WithinPage(q.page, listing, |r.posts|);
    var page := PageItems(q.page, listing);
    if page.Ok? {
      PreviewsAgree(m, r, page.value.results, SearchPreviewChars(q.maxCharsPerPost, |page.value.results|));
    }
  }

  lemma ThreadFromAgrees(m: Memory, r: Rows, q: ReadThreadRequest, root: nat)
    requires PostsMatch(m, r.posts) && FindThread(r.posts, q.threadID) == Ok(root)
    ensures var listing := ReplyListing(r, q.threadID);
      Within(listing, |m.posts|) && ThreadFrom(m.posts, root, listing, q) == BoardQueries.ReadThread(r, q)
  {
    var listing := ReplyListing(r, q.threadID);
    ListingWithin(r, "", Created, OldestFirst, q.threadID);
    AllWithin(listing, |r.posts|);
    WithinPage(q.page, listing, |r.posts|);
    var page := PageItems(q.page, listing);
    assert PostMatches(m.posts[root], r.posts[root]);
    if page.Ok? {
      PreviewsAgree(m, r, page.value.results, ReadPreviewChars(q.maxCharsPerPost, |page.value.results|));
    }
  }

  /** The channel listing computed in memory answers the channel query. */
  lemma ChannelPageAgrees(m: Memory, r: Rows, q: ChannelQuery, fold: Fold, names: seq<string>)
    requires ChannelsMatch(m, r) && IsChannelListing(r, q.query, q.direction, fold, names)
    ensures forall k :: 0 <= k < |names| ==> names[k] in r.channels
    ensures QueryPage(q.page, names) == PageItems(q.page, names)
    ensures PageItems(q.page, names).Ok? ==> forall name | name in PageItems(q.page, names).value.results :: name in m.channels
    ensures IsChannelPage(r, q, fold, ChannelPageOf(r, q, names))
  {
    QueryPageIsPageItems(q.page, names);
    PageWithin(q.page, names);
  }
}
