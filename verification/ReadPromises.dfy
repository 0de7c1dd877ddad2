/**
 What the reads of a board answer, written out in terms of the stored posts: which posts
 and channels, in which order, with which counts, previews and newest messages.
 */
module ReadPromises {
  import opened Common
  import opened Sorting
  import opened Paging
  import opened BoardTypes
  import opened BoardRows
  import opened BoardRules
  import opened BoardQueries
  import opened BoardPromises

  /** Positions of posts. */
  type Which = nat -> bool

  function PostsOf(r: Rows, channel: string): Which {
    (i: nat) => i < |r.posts| && r.posts[i].metadata.channelName == channel
  }

  function ThreadsOf(r: Rows, channel: string): Which {
    (i: nat) => i < |r.posts| && r.posts[i].metadata.channelName == channel && r.posts[i].metadata.threadID == r.posts[i].metadata.messageID
  }

  function RepliesOf(r: Rows, id: string): Which {
    (i: nat) => i < |r.posts| && r.posts[i].metadata.threadID == id && r.posts[i].metadata.messageID != id
  }

  function Participation(r: Rows, id: string): Which {
    (i: nat) => i < |r.posts| && r.posts[i].metadata.threadID == id
  }

  /** Newer by microseconds; of two posts in one microsecond the one stored later. */
  predicate Newer(r: Rows, i: nat, j: nat) {
    && i < |r.posts| && j < |r.posts|
    && var a, b := r.posts[i].metadata.createdAt / 1000, r.posts[j].metadata.createdAt / 1000;
       a > b || (a == b && i > j)
  }

  /** The newest of some posts, none if there are none. */
  ghost predicate IsNewest(r: Rows, which: Which, newest: Option<nat>) {
    if newest.None? then forall i: nat :: !which(i)
    else which(newest.value) && forall i: nat :: which(i) && i != newest.value ==> Newer(r, newest.value, i)
  }

  /** Exactly these posts, from the newest to the oldest. */
  ghost predicate ListsNewest(r: Rows, which: nat -> bool, listing: seq<nat>) {
    && (forall i: nat :: i in listing <==> which(i))
    && (forall j, k :: 0 <= j < k < |listing| ==> Newer(r, listing[j], listing[k]))
  }

  /** A filter of the post table that picks certain posts counts them and finds the newest. */
  lemma FilterMeans(r: Rows, f: Filter, which: Which)
    requires RowsInv(r) && forall i: nat :: which(i) <==> i < |r.posts| && Picks(f, r.posts[i])
    ensures IsNewest(r, which, Latest(f, r.posts))
    ensures |Select(f, r.posts)| == |set i: nat | i < |r.posts| && which(i)|
  {
    var rows := Select(f, r.posts);
    SelectExact(f, r.posts);
    CountAscending(rows, set i: nat | i < |r.posts| && which(i));
    LatestIsMaximum(f, r.posts);
    var last := Latest(f, r.posts);
    if last.Some? {
      forall i: nat | which(i) && i != last.value ensures Newer(r, last.value, i) {
        RowOrderByPosition(r, i, last.value);
      }
    } else {
      forall i: nat ensures !which(i) {
        assert which(i) ==> i in rows;
      }
    }
  }

  lemma {:induction false} CountAscending(s: seq<nat>, elements: set<nat>)
    requires forall j, k :: 0 <= j < k < |s| ==> s[j] < s[k]
    requires forall i: nat :: i in s <==> i in elements
    ensures |s| == |elements|
  {
    if s == [] {
      assert elements == {};
    } else {
      var front, last := s[..|s| - 1], s[|s| - 1];
      assert s == front + [last];
      CountAscending(front, elements - {last});
    }
  }

  // Previews

  /** The first characters of a stored post, at most `chars`, its length, and whether anything is missing. */
  predicate Shows(preview: PostPreview, row: PostRow, chars: nat) {
    && preview.metadata == row.metadata && preview.nChars == |row.text|
    && preview.textPreview == (if |row.text| > chars then row.text[..chars] else row.text)
    && (preview.truncated <==> |row.text| > chars)
  }

  /** The characters shown of each post: as asked for, within an even share of the output. */
  function Share(requested: int, posts: nat): nat {
    var share := 20000 / (if posts == 0 then 1 else posts);
    if 1 <= requested <= share then requested else if share < 1 then 1 else share
  }

  ghost predicate ShowsAll(r: Rows, previews: seq<PostPreview>, items: seq<nat>, chars: nat) {
    && |previews| == |items|
    && forall k :: 0 <= k < |items| ==> items[k] < |r.posts| && Shows(previews[k], r.posts[items[k]], chars)
  }

  // Searching

  /** The search columns hold the folded texts and names. */
  ghost predicate Indexed(r: Rows, fold: Fold) {
    && (forall i :: 0 <= i < |r.posts| ==> r.posts[i].search == fold(r.posts[i].text) && r.posts[i].text == r.posts[i].request.text)
    && (forall name | name in r.channels :: r.channels[name].search == fold(name))
  }

  lemma ApplyIndexes(r: Rows, op: Op, fold: Fold)
    requires Indexed(r, fold)
    ensures Indexed(Apply(r, op, fold), fold)
  {
    match op
    case Write(seqNo, caller, request, behavior, host, id) =>
      var s := PostInner(r, seqNo, caller, request, behavior, host, id, fold).0;
      if s.posts != r.posts {
        PostDelivers(r, seqNo, caller, request, behavior, host, id, fold);
      } else {
        KeepsChannels(r, seqNo, caller, request, behavior, host, id, fold);
      }
    case _ =>
  }

  lemma KeepsChannels(r: Rows, seqNo: nat, caller: string, request: PostRequest, behavior: Behavior, host: Host, id: string, fold: Fold)
    ensures var s := PostInner(r, seqNo, caller, request, behavior, host, id, fold).0; s.posts == r.posts ==> s == r
  {
    hide Existing, Resolve, ResolveAll;
  }

  /** The posts that a search asks for. */
  function Asked(r: Rows, q: PostQuery, after: Option<nat>, fold: Fold): Which {
    (i: nat) =>
      && i < |r.posts|
      && (q.channelName.Some? ==> r.posts[i].metadata.channelName == q.channelName.value)
      && (q.author.Some? ==> r.posts[i].metadata.author == q.author.value)
      && (q.query.Some? ==> Contains(fold(r.posts[i].text), fold(q.query.value)))
      && (after.Some? ==> Newer(r, i, after.value))
  }

  /** The message to search after, by id. */
  predicate IsAfter(r: Rows, id: Option<string>, after: Option<nat>) {
    if id.None? then after.None? else after.Some? && after.value < |r.posts| && r.posts[after.value].metadata.messageID == id.value
  }

  lemma MatchesAsked(r: Rows, q: PostQuery, after: Option<nat>, fold: Fold, i: nat)
    requires RowsInv(r) && Indexed(r, fold) && IsAfter(r, q.afterMessageID, after) && i < |r.posts|
    ensures Matches(r, q, after, i, fold) <==> Asked(r, q, after, fold)(i)
  {
    hide RowsInv, Contains;
    if after.Some? { RowOrderByPosition(r, after.value, i); }
  }

  /** Sorting ascending positions by their stamps, newest first. */
  lemma SortsNewest(r: Rows, rows: seq<nat>, which: Which)
    requires forall j, k :: 0 <= j < k < |rows| ==> rows[j] < rows[k]
    requires forall i: nat :: (i in rows <==> which(i)) && (which(i) ==> i < |r.posts|)
    ensures ListsNewest(r, which, Sort(rows, Flip(ByStamp(PostStamp(r)))))
  {
    var order := Flip(ByStamp(PostStamp(r)));
    var listing := Sort(rows, order);
    ByStampTotal(rows, PostStamp(r));
    SortSorts(rows, order);
    forall j, k | 0 <= j < k < |listing| ensures Newer(r, listing[j], listing[k]) {
      assert listing[j] in rows && listing[k] in rows && order(listing[j], listing[k]);
    }
  }

  lemma SearchLists(r: Rows, q: PostQuery, after: Option<nat>, fold: Fold)
    requires RowsInv(r) && Indexed(r, fold) && IsAfter(r, q.afterMessageID, after)
    ensures ListsNewest(r, Asked(r, q, after, fold), SearchListing(r, q, after, fold))
  {
    hide Matches, ListsNewest, RowsInv, Indexed, Sort;
    MatchingExact(r, q, after, |r.posts|, fold);
    forall i: nat | i < |r.posts| ensures Matches(r, q, after, i, fold) <==> Asked(r, q, after, fold)(i) {
      MatchesAsked(r, q, after, fold, i);
    }
    SortsNewest(r, Matching(r, q, after, |r.posts|, fold), Asked(r, q, after, fold));
  }

  /** The page of a listing of posts, each as a preview. */
  ghost predicate ShowsPage(r: Rows, request: PageRequest, listing: seq<nat>, requested: int, out: Outcome<Page<PostPreview>>) {
    match PageItems(request, listing)
    case Err(error) => out == Err(BadPage(error))
    case Ok(page) =>
      && out.Ok? && out.value.nextCursor == page.nextCursor
      && ShowsAll(r, out.value.results, page.results, Share(requested, |page.results|))
  }

  /** The page of all posts asked for, from the newest to the oldest. */
  ghost predicate AnswersSearch(r: Rows, q: PostQuery, fold: Fold, after: Option<nat>, listing: seq<nat>, out: Outcome<Page<PostPreview>>) {
    && IsAfter(r, q.afterMessageID, after) && ListsNewest(r, Asked(r, q, after, fold), listing)
    && ShowsPage(r, q.page, listing, q.maxCharsPerPost, out)
  }

  lemma ShowsPreviews(r: Rows, items: seq<nat>, requested: int)
    requires forall k :: 0 <= k < |items| ==> items[k] < |r.posts|
    ensures ShowsAll(r, Previews(r, items, SearchPreviewChars(requested, |items|)), items, Share(requested, |items|))
  {
  }

  /** A search answers with exactly the posts asked for, page by page. */
  lemma SearchAnswers(r: Rows, q: PostQuery, fold: Fold)
    requires RowsInv(r) && Indexed(r, fold)
    ensures var out := SearchPosts(r, q, fold);
      if DecodeCursor(q.page.cursor).Err? then out == Err(BadPage(InvalidCursor))
      else if q.afterMessageID.Some? && !IsStored(r, q.afterMessageID.value) then out == Err(PostNotFound)
      else exists after, listing :: AnswersSearch(r, q, fold, after, listing, out)
  {
    hide RowsInv, Indexed, DecodeCursor, ListsNewest, Asked, ShowsAll, PageItems, QueryPage, SearchListing, Share, SearchPreviewChars, Previews;
    CursorFaults(q.page.cursor);
    var after := if q.afterMessageID.Some? then FindPost(r.posts, q.afterMessageID.value) else None;
    if DecodeCursor(q.page.cursor).Ok? && (q.afterMessageID.None? || after.Some?) {
      var listing := SearchListing(r, q, after, fold);
      SearchLists(r, q, after, fold);
      QueryPageIsPageItems(q.page, listing);
      SearchWithin(r, q, after, fold);
      PageWithin(q.page, listing);
      var page := PageItems(q.page, listing);
      if page.Ok? { ShowsPreviews(r, page.value.results, q.maxCharsPerPost); }
      CursorDecoded(q.page, listing);
      assert AnswersSearch(r, q, fold, after, listing, SearchPosts(r, q, fold));
    }
  }

  lemma CursorDecoded<T>(request: PageRequest, items: seq<T>)
    ensures DecodeCursor(request.cursor).Err? ==> PageItems(request, items).Err?
  {
  }

  // Threads

  /** The time of the newest post of the thread that a post starts. */
  ghost predicate IsActivity(r: Rows, i: nat, time: int) {
    && i < |r.posts|
    && (exists j: nat :: Participation(r, r.posts[i].metadata.messageID)(j) && r.posts[j].metadata.createdAt / 1000 == time)
    && forall j: nat :: Participation(r, r.posts[i].metadata.messageID)(j) ==> r.posts[j].metadata.createdAt / 1000 <= time
  }

  /** The time that a thread is ordered by. */
  ghost predicate IsThreadTime(r: Rows, sort: ThreadSort, i: nat, time: int) {
    if sort == Created then i < |r.posts| && time == r.posts[i].metadata.createdAt / 1000 else IsActivity(r, i, time)
  }

  /** Exactly the threads of the channel, strictly ordered by time and position in the direction asked for. */
  ghost predicate ListsThreads(r: Rows, q: ThreadQuery, listing: seq<nat>) {
    && (forall i: nat :: i in listing <==> ThreadsOf(r, q.channelName)(i))
    && forall j, k, s, t | 0 <= j < k < |listing| && IsThreadTime(r, q.sort, listing[j], s) && IsThreadTime(r, q.sort, listing[k], t) ::
         if q.direction == NewestFirst then s > t || (s == t && listing[j] > listing[k])
         else s < t || (s == t && listing[j] < listing[k])
  }

  lemma ThreadTimeIs(r: Rows, sort: ThreadSort, i: nat, channel: string, time: int)
    requires RowsInv(r) && ThreadsOf(r, channel)(i)
    ensures IsThreadTime(r, sort, i, time) <==> time == ThreadStamp(r, sort)(i)
  {
    if sort == Activity {
      var id := r.posts[i].metadata.messageID;
      FilterMeans(r, InThread(id), Participation(r, id));
      assert Participation(r, id)(i);
      var newest := Latest(InThread(id), r.posts);
      assert Participation(r, id)(newest.value);
    }
  }

  lemma ThreadsListed(r: Rows, q: ThreadQuery)
    requires RowsInv(r)
    ensures ListsThreads(r, q, ThreadListing(r, q.channelName, q.sort, q.direction))
  {
    hide RowsInv, IsThreadTime, ThreadStamp;
    var listing := ThreadListing(r, q.channelName, q.sort, q.direction);
    SelectExact(RootsIn(q.channelName), r.posts);
    ListingsExact(r, q.channelName, q.sort, q.direction, "");
    forall j, k, s, t | 0 <= j < k < |listing| && IsThreadTime(r, q.sort, listing[j], s) && IsThreadTime(r, q.sort, listing[k], t)
      ensures if q.direction == NewestFirst then s > t || (s == t && listing[j] > listing[k])
              else s < t || (s == t && listing[j] < listing[k])
    {
      assert listing[j] in listing && listing[k] in listing;
      ThreadTimeIs(r, q.sort, listing[j], q.channelName, s);
      ThreadTimeIs(r, q.sort, listing[k], q.channelName, t);
    }
  }

  /** A thread: its first post, how many replies it has, the newest of them, and the later of their two times. */
  ghost predicate Summarizes(r: Rows, summary: ThreadSummary, root: nat, chars: nat) {
    && root < |r.posts| && summary.threadID == r.posts[root].metadata.messageID
    && Shows(summary.rootPost, r.posts[root], chars)
    && summary.replyCount == |set i: nat | i < |r.posts| && RepliesOf(r, summary.threadID)(i)|
    && exists newest :: IsNewest(r, RepliesOf(r, summary.threadID), newest) && ShowsNewest(r, summary, root, newest, chars)
  }

  predicate ShowsNewest(r: Rows, summary: ThreadSummary, root: nat, newest: Option<nat>, chars: nat)
    requires root < |r.posts|
  {
    var created := r.posts[root].metadata.createdAt;
    match newest
    case None => summary.latestReply == None && summary.lastActivityAt == created
    case Some(i) =>
      && i < |r.posts| && summary.latestReply.Some? && Shows(summary.latestReply.value, r.posts[i], chars)
      && summary.lastActivityAt == if r.posts[i].metadata.createdAt > created then r.posts[i].metadata.createdAt else created
  }

  lemma SummaryMeans(r: Rows, root: nat, chars: nat)
    requires RowsInv(r) && root < |r.posts|
    ensures Summarizes(r, ThreadSummaryAt(r, root, chars), root, chars)
  {
    hide RowsInv;
    var id := r.posts[root].metadata.messageID;
    FilterMeans(r, RepliesTo(id), RepliesOf(r, id));
    assert ShowsNewest(r, ThreadSummaryAt(r, root, chars), root, Latest(RepliesTo(id), r.posts), chars);
  }

  ghost predicate AnswersThreads(r: Rows, q: ThreadQuery, listing: seq<nat>, out: Outcome<Page<ThreadSummary>>) {
    && ListsThreads(r, q, listing)
    && match PageItems(q.page, listing)
       case Err(error) => out == Err(BadPage(error))
       case Ok(page) =>
         && out.Ok? && out.value.nextCursor == page.nextCursor && |out.value.results| == |page.results|
         && forall k :: 0 <= k < |page.results| ==>
              Summarizes(r, out.value.results[k], page.results[k], ThreadShare(q.maxCharsPerPost, |page.results|))
  }

  /** Two previews a thread share the output. */
  function ThreadShare(requested: int, threads: nat): nat {
    Share(requested, 2 * (if threads == 0 then 1 else threads))
  }

  /** A thread query answers with exactly the threads of the channel, page by page. */
  lemma ThreadListAnswers(r: Rows, q: ThreadQuery)
    requires RowsInv(r)
    ensures var out := ListThreads(r, q);
      if q.channelName !in r.channels then out == Err(ChannelNotFound) else exists listing :: AnswersThreads(r, q, listing, out)
  {
    hide RowsInv, ListsThreads, Summarizes, PageItems, QueryPage, ThreadListing, ThreadSummaryAt;
    if q.channelName in r.channels {
      var listing := ThreadListing(r, q.channelName, q.sort, q.direction);
      ThreadsListed(r, q);
      QueryPageIsPageItems(q.page, listing);
      ListingWithin(r, q.channelName, q.sort, q.direction, "");
      PageWithin(q.page, listing);
      forall i: nat, chars: nat | i < |r.posts| ensures Summarizes(r, ThreadSummaryAt(r, i, chars), i, chars) { SummaryMeans(r, i, chars); }
      assert AnswersThreads(r, q, listing, ListThreads(r, q));
    }
  }

  // One thread, one post

  ghost predicate AnswersThread(r: Rows, q: ReadThreadRequest, root: nat, listing: seq<nat>, out: Outcome<ThreadPage>) {
    && root < |r.posts| && r.posts[root].metadata.messageID == q.threadID == r.posts[root].metadata.threadID
    && ListsNewest(r, RepliesOf(r, q.threadID), listing)
    && match PageItems(q.page, listing)
       case Err(error) => out == Err(BadPage(error))
       case Ok(page) =>
         var chars := Share(q.maxCharsPerPost, |page.results| + 1);
         && out.Ok? && Shows(out.value.rootPost, r.posts[root], chars)
         && out.value.replies.nextCursor == page.nextCursor && ShowsAll(r, out.value.replies.results, page.results, chars)
  }

  /** A thread is read with its first post and exactly its replies, from the newest to the oldest. */
  lemma ThreadReadAnswers(r: Rows, q: ReadThreadRequest)
    requires RowsInv(r)
    ensures var out := ReadThread(r, q);
      if IsThread(r, q.threadID) then exists root, listing :: AnswersThread(r, q, root, listing, out)
      else out == Err(if IsStored(r, q.threadID) then NotTopLevel else PostNotFound)
  {
    hide ListsNewest, PageItems, QueryPage, ReplyListing, Rooted, UniqueKeys;
    var found := FindThread(r.posts, q.threadID);
    if found.Ok? {
      assert StartsThread(r.posts[found.value], q.threadID, r.posts[found.value].metadata.channelName);
      var listing := ReplyListing(r, q.threadID);
      RepliesListed(r, q.threadID);
      QueryPageIsPageItems(q.page, listing);
      ListingWithin(r, "", Created, OldestFirst, q.threadID);
      PageWithin(q.page, listing);
      assert AnswersThread(r, q, found.value, listing, ReadThread(r, q));
    }
  }

  lemma RepliesListed(r: Rows, id: string)
    ensures ListsNewest(r, RepliesOf(r, id), ReplyListing(r, id))
  {
    SelectExact(RepliesTo(id), r.posts);
    SortsNewest(r, Select(RepliesTo(id), r.posts), RepliesOf(r, id));
  }

  /** One post is read with its metadata and the slice of its text. */
  lemma PostReadAnswers(r: Rows, id: string, offsetChars: int, limitChars: int, i: nat)
    requires RowsInv(r) && i < |r.posts|
    ensures r.posts[i].metadata.messageID == id ==>
      ReadPost(r, id, offsetChars, limitChars) == Ok((r.posts[i].metadata, ReadSlice(r.posts[i].text, offsetChars, limitChars)))
    ensures !IsStored(r, id) ==> ReadPost(r, id, offsetChars, limitChars) == Err(PostNotFound)
  {
  }

  // Channels

  /** The time of the newest post of a channel, of its creation if it has none. */
  ghost predicate IsChannelTime(r: Rows, name: string, time: int) {
    && name in r.channels
    && exists newest :: IsNewest(r, PostsOf(r, name), newest) && time == TimeOf(r, newest, r.channels[name].createdAt)
  }

  function TimeOf(r: Rows, newest: Option<nat>, otherwise: int): int {
    if newest.Some? && newest.value < |r.posts| then r.posts[newest.value].metadata.createdAt / 1000 else otherwise / 1000
  }

  /** Exactly the channels whose folded name contains the folded query, strictly ordered by time and name. */
  ghost predicate ListsChannels(r: Rows, q: ChannelQuery, fold: Fold, names: seq<string>) {
    && (forall name :: name in names <==> name in r.channels && (q.query.Some? ==> Contains(fold(name), fold(q.query.value))))
    && forall j, k, s, t | 0 <= j < k < |names| && IsChannelTime(r, names[j], s) && IsChannelTime(r, names[k], t) ::
         if q.direction == NewestFirst then s > t || (s == t && LexLess(names[k], names[j]))
         else s < t || (s == t && LexLess(names[j], names[k]))
  }

  lemma NewestUnique(r: Rows, which: Which, a: Option<nat>, b: Option<nat>)
    requires IsNewest(r, which, a) && IsNewest(r, which, b)
    ensures a == b
  {
  }

  lemma ChannelTimeIs(r: Rows, name: string, time: int)
    requires RowsInv(r) && name in r.channels
    ensures IsChannelTime(r, name, time) <==> time == ChannelActivity(r, name)
  {
    hide RowsInv;
    var newest := Latest(InChannel(name), r.posts);
    FilterMeans(r, InChannel(name), PostsOf(r, name));
    forall other | IsNewest(r, PostsOf(r, name), other) ensures other == newest {
      NewestUnique(r, PostsOf(r, name), other, newest);
    }
    assert TimeOf(r, newest, r.channels[name].createdAt) == ChannelActivity(r, name);
  }

  /** A channel: its creation data, how many posts it has, and the newest of them. */
  ghost predicate SummarizesChannel(r: Rows, summary: ChannelSummary, name: string) {
    && name in r.channels && summary.channelName == name && summary.description == r.channels[name].description
    && summary.createdAt == r.channels[name].createdAt && summary.createdBy == r.channels[name].author
    && summary.messageCount == |set i: nat | i < |r.posts| && PostsOf(r, name)(i)|
    && exists newest :: IsNewest(r, PostsOf(r, name), newest) && summary.lastMessageID == IdOf(r, newest)
  }

  function IdOf(r: Rows, newest: Option<nat>): Option<string> {
    if newest.Some? && newest.value < |r.posts| then Some(r.posts[newest.value].metadata.messageID) else None
  }

  lemma ChannelMeans(r: Rows, name: string)
    requires RowsInv(r) && name in r.channels
    ensures SummarizesChannel(r, Summary(r, name), name)
  {
    hide RowsInv;
    FilterMeans(r, InChannel(name), PostsOf(r, name));
    assert Summary(r, name).lastMessageID == IdOf(r, Latest(InChannel(name), r.posts));
  }

  lemma ChannelsListed(r: Rows, q: ChannelQuery, fold: Fold, names: seq<string>)
    requires RowsInv(r) && Indexed(r, fold) && IsChannelListing(r, q.query, q.direction, fold, names)
    ensures ListsChannels(r, q, fold, names)
  {
    hide RowsInv, IsChannelTime, ChannelActivity;
    assert forall name | name in r.channels && q.query.None? :: Contains(r.channels[name].search, "") by {
      forall name | name in r.channels ensures Contains(r.channels[name].search, "") { assert "" <= r.channels[name].search[0..]; }
    }
    forall j, k, s, t | 0 <= j < k < |names| && IsChannelTime(r, names[j], s) && IsChannelTime(r, names[k], t)
      ensures if q.direction == NewestFirst then s > t || (s == t && LexLess(names[k], names[j]))
              else s < t || (s == t && LexLess(names[j], names[k]))
    {
      assert names[j] in names && names[k] in names;
      ChannelTimeIs(r, names[j], s);
      ChannelTimeIs(r, names[k], t);
    }
  }

  ghost predicate AnswersChannels(r: Rows, q: ChannelQuery, fold: Fold, names: seq<string>, out: Outcome<Page<ChannelSummary>>) {
    && ListsChannels(r, q, fold, names)
    && match PageItems(q.page, names)
       case Err(error) => out == Err(BadPage(error))
       case Ok(page) =>
         && out.Ok? && out.value.nextCursor == page.nextCursor && |out.value.results| == |page.results|
         && forall k :: 0 <= k < |page.results| ==> SummarizesChannel(r, out.value.results[k], page.results[k])
  }

  /** A channel query answers with exactly the channels asked for, page by page. */
  lemma ChannelListAnswers(r: Rows, q: ChannelQuery, fold: Fold, out: Outcome<Page<ChannelSummary>>)
    requires RowsInv(r) && Indexed(r, fold) && IsChannelPage(r, q, fold, out)
    ensures exists names :: AnswersChannels(r, q, fold, names, out)
  {
    hide RowsInv, Indexed, SummarizesChannel, ListsChannels, PageItems, QueryPage, Summary;
    var names :| IsChannelListing(r, q.query, q.direction, fold, names) && out == ChannelPageOf(r, q, names);
    ChannelsListed(r, q, fold, names);
    QueryPageIsPageItems(q.page, names);
    PageWithin(q.page, names);
    forall name | name in r.channels ensures SummarizesChannel(r, Summary(r, name), name) { ChannelMeans(r, name); }
    assert AnswersChannels(r, q, fold, names, out);
  }

  /** A subscription change reports the newest message of its channel or thread. */
  lemma SubscriptionReports(r: Rows, request: SubscriptionRequest, host: Host)
    requires RowsInv(r) && SetSubscription(r, request, host).1.Ok?
    ensures var out := SetSubscription(r, request, host).1.value;
      var which := match request.target case ChannelTarget(name) => PostsOf(r, name) case ThreadTarget(id) => Participation(r, id);
      exists newest :: IsNewest(r, which, newest) && out.lastMessageID == IdOf(r, newest)
  {
    hide RowsInv;
    match request.target
    case ChannelTarget(name) =>
      FilterMeans(r, InChannel(name), PostsOf(r, name));
      assert SetSubscription(r, request, host).1.value.lastMessageID == IdOf(r, Latest(InChannel(name), r.posts));
    case ThreadTarget(id) =>
      FilterMeans(r, InThread(id), Participation(r, id));
      assert SetSubscription(r, request, host).1.value.lastMessageID == IdOf(r, Latest(InThread(id), r.posts));
  }
}
