/**
 The reads of a board as queries over its rows (agentboard/local.go), and what the
 queries mean: exact selections, newest messages as maxima, strictly ordered listings.
 */
module BoardQueries {
  import opened Common
  import opened Sorting
  import opened Paging
  import opened BoardTypes
  import opened BoardRows
  import opened BoardRules

  // Selections

  lemma {:induction false} SelectExact(f: Filter, posts: seq<PostRow>)
    ensures forall i :: i in Select(f, posts) <==> 0 <= i < |posts| && Picks(f, posts[i])
    ensures forall j, k :: 0 <= j < k < |Select(f, posts)| ==> Select(f, posts)[j] < Select(f, posts)[k]
  {
    if posts != [] {
      SelectExact(f, posts[..|posts| - 1]);
    }
  }

  lemma {:induction false} SelectNone(f: Filter, posts: seq<PostRow>)
    requires forall i :: 0 <= i < |posts| ==> !Picks(f, posts[i])
    ensures Select(f, posts) == [] && Latest(f, posts) == None
  {
    if posts != [] {
      SelectNone(f, posts[..|posts| - 1]);
    }
  }

  lemma SelectAppend(f: Filter, posts: seq<PostRow>, row: PostRow)
    ensures Select(f, posts + [row]) == Select(f, posts) + (if Picks(f, row) then [|posts|] else [])
    ensures Latest(f, posts + [row])
      == if !Picks(f, row) then Latest(f, posts)
         else if Latest(f, posts).Some? && Stamp(posts[Latest(f, posts).value]) > Stamp(row) then Latest(f, posts)
         else Some(|posts|)
  {
  }

  /** `Latest` is the maximum of the picked rows in the query order, whatever the clock did. */
  lemma {:induction false} LatestIsMaximum(f: Filter, posts: seq<PostRow>)
    requires Increasing(posts)
    ensures Latest(f, posts) == None <==> Select(f, posts) == []
    ensures Latest(f, posts).Some? ==> forall i | 0 <= i < |posts| && Picks(f, posts[i]) ::
      i == Latest(f, posts).value || RowBefore(posts[i], posts[Latest(f, posts).value])
  {
    if posts != [] {
      var front := posts[..|posts| - 1];
      LatestIsMaximum(f, front);
      forall i | Latest(f, posts).Some? && 0 <= i < |posts| && Picks(f, posts[i])
        ensures i == Latest(f, posts).value || RowBefore(posts[i], posts[Latest(f, posts).value])
      {
        if i < |front| {
          assert front[i] == posts[i];
          SelectExact(f, front);
          assert i in Select(f, front);
        }
      }
    }
  }

  /** The newest row of a thread is the newer of its root and its newest reply. */
  lemma ThreadLatest(r: Rows, root: nat)
    requires RowsInv(r) && root < |r.posts| && r.posts[root].metadata.messageID == r.posts[root].metadata.threadID
    ensures var id := r.posts[root].metadata.messageID;
      var reply, last := Latest(RepliesTo(id), r.posts), Latest(InThread(id), r.posts);
      last == Some(if reply.Some? && Stamp(r.posts[reply.value]) >= Stamp(r.posts[root]) then reply.value else root)
  {
    var id := r.posts[root].metadata.messageID;
    LatestIsMaximum(RepliesTo(id), r.posts);
    LatestIsMaximum(InThread(id), r.posts);
    SelectExact(InThread(id), r.posts);
    assert Picks(InThread(id), r.posts[root]) && root in Select(InThread(id), r.posts);
    var last := Latest(InThread(id), r.posts).value;
    if last != root {
      assert Picks(RepliesTo(id), r.posts[last]);
      SelectExact(RepliesTo(id), r.posts);
      assert last in Select(RepliesTo(id), r.posts);
      ReplyAfterRoot(r, root, last);
    }
    var reply := Latest(RepliesTo(id), r.posts);
    if reply.Some? {
      assert Picks(InThread(id), r.posts[reply.value]);
      ReplyAfterRoot(r, root, reply.value);
    }
  }

  /** A reply comes after the root of its thread. */
  lemma ReplyAfterRoot(r: Rows, root: nat, i: nat)
    requires RowsInv(r) && root < |r.posts| && i < |r.posts| && i != root
    requires r.posts[root].metadata.messageID == r.posts[root].metadata.threadID == r.posts[i].metadata.threadID
    ensures root < i && r.posts[i].metadata.channelName == r.posts[root].metadata.channelName
  {
  }

  // Listings

  /** Ascending order of positions by a timestamp, then by position. */
  function ByStamp(stamp: nat -> int): (nat, nat) -> bool {
    (i: nat, j: nat) => stamp(i) < stamp(j) || (stamp(i) == stamp(j) && i < j)
  }

  function Directed<T>(less: (T, T) -> bool, direction: Direction): (T, T) -> bool {
    if direction == OldestFirst then less else Flip(less)
  }

  lemma ByStampTotal(s: seq<nat>, stamp: nat -> int)
    ensures TotalOn(s, ByStamp(stamp)) && TotalOn(s, Flip(ByStamp(stamp)))
  {
  }

  /** The timestamp a thread is ordered by: of its root, or of the newest row of the thread. */
  function ThreadStamp(r: Rows, sort: ThreadSort): nat -> int {
    (i: nat) =>
      if i >= |r.posts| then 0
      else
        var last := Latest(InThread(r.posts[i].metadata.messageID), r.posts);
        if sort == Activity && last.Some? then Stamp(r.posts[last.value]) else Stamp(r.posts[i])
  }

  function PostStamp(r: Rows): nat -> int {
    (i: nat) => if i >= |r.posts| then 0 else Stamp(r.posts[i])
  }

  function ThreadListing(r: Rows, channel: string, sort: ThreadSort, direction: Direction): seq<nat> {
    Sort(Select(RootsIn(channel), r.posts), Directed(ByStamp(ThreadStamp(r, sort)), direction))
  }

  function ReplyListing(r: Rows, root: string): seq<nat> {
    Sort(Select(RepliesTo(root), r.posts), Flip(ByStamp(PostStamp(r))))
  }

  predicate Matches(r: Rows, q: PostQuery, after: Option<nat>, i: nat, fold: Fold)
    requires i < |r.posts| && (after.Some? ==> after.value < |r.posts|)
  {
    var p := r.posts[i];
    && (q.channelName.Some? ==> p.metadata.channelName == q.channelName.value)
    && (q.author.Some? ==> p.metadata.author == q.author.value)
    && (q.query.Some? ==> Contains(p.search, fold(q.query.value)))
    && (after.Some? ==> RowBefore(r.posts[after.value], p))
  }

  /** Matching rows among the first `n`, in sequence order. */
  function Matching(r: Rows, q: PostQuery, after: Option<nat>, n: nat, fold: Fold): (s: seq<nat>)
    requires n <= |r.posts| && (after.Some? ==> after.value < |r.posts|)
    ensures forall k :: 0 <= k < |s| ==> s[k] < n
  {
    if n == 0 then []
    else Matching(r, q, after, n - 1, fold) + (if Matches(r, q, after, n - 1, fold) then [n - 1] else [])
  }

  function SearchListing(r: Rows, q: PostQuery, after: Option<nat>, fold: Fold): seq<nat>
    requires after.Some? ==> after.value < |r.posts|
  {
    Sort(Matching(r, q, after, |r.posts|, fold), Flip(ByStamp(PostStamp(r))))
  }

  /** Last activity of a channel: COALESCE(MAX(timestamp), creation). */
  function ChannelActivity(r: Rows, name: string): int {
    var last := Latest(InChannel(name), r.posts);
    if last.Some? then Stamp(r.posts[last.value])
    else if name in r.channels then Micro(r.channels[name].createdAt)
    else 0
  }

  function ChannelBefore(r: Rows): (string, string) -> bool {
    (a, b) => ChannelActivity(r, a) < ChannelActivity(r, b)
              || (ChannelActivity(r, a) == ChannelActivity(r, b) && LexLess(a, b))
  }

  /** The strictly ordered arrangement of the channels whose folded name contains the folded query. */
  ghost predicate IsChannelListing(r: Rows, query: Option<string>, direction: Direction, fold: Fold, names: seq<string>) {
    && StrictlySorted(names, Directed(ChannelBefore(r), direction))
    && forall name :: name in names <==>
         name in r.channels && Contains(r.channels[name].search, if query.Some? then fold(query.value) else "")
  }

  lemma ChannelBeforeTotal(r: Rows, s: seq<string>)
    ensures TotalOn(s, ChannelBefore(r)) && TotalOn(s, Flip(ChannelBefore(r)))
  {
    forall x, y { LexTrichotomy(x, y); }
    forall x, y, z | LexLess(x, y) && LexLess(y, z) ensures LexLess(x, z) { LexTransitive(x, y, z); }
  }

  /** A channel listing is determined by the rows and the query. */
  lemma ChannelListingUnique(r: Rows, query: Option<string>, direction: Direction, fold: Fold, a: seq<string>, b: seq<string>)
    requires IsChannelListing(r, query, direction, fold, a) && IsChannelListing(r, query, direction, fold, b)
    ensures a == b
  {
    ChannelBeforeTotal(r, a);
    SortedUnique(a, b, Directed(ChannelBefore(r), direction));
  }

  /**
   Thread listings and replies: exactly the rows selected, each once, strictly in the
   order of timestamp and sequence number in the given direction.
   */
  lemma ListingsExact(r: Rows, channel: string, sort: ThreadSort, direction: Direction, root: string)
    ensures StrictlySorted(ThreadListing(r, channel, sort, direction), Directed(ByStamp(ThreadStamp(r, sort)), direction))
    ensures SameElements(ThreadListing(r, channel, sort, direction), Select(RootsIn(channel), r.posts))
    ensures StrictlySorted(ReplyListing(r, root), Flip(ByStamp(PostStamp(r))))
    ensures SameElements(ReplyListing(r, root), Select(RepliesTo(root), r.posts))
  {
    var roots, replies := Select(RootsIn(channel), r.posts), Select(RepliesTo(root), r.posts);
    SelectExact(RootsIn(channel), r.posts);
    SelectExact(RepliesTo(root), r.posts);
    ByStampTotal(roots, ThreadStamp(r, sort));
    ByStampTotal(replies, PostStamp(r));
    SortSorts(roots, Directed(ByStamp(ThreadStamp(r, sort)), direction));
    SortSorts(replies, Flip(ByStamp(PostStamp(r))));
  }

  lemma {:induction false} MatchingExact(r: Rows, q: PostQuery, after: Option<nat>, n: nat, fold: Fold)
    requires n <= |r.posts| && (after.Some? ==> after.value < |r.posts|)
    ensures forall i :: i in Matching(r, q, after, n, fold) <==> 0 <= i < n && Matches(r, q, after, i, fold)
    ensures forall j, k :: 0 <= j < k < |Matching(r, q, after, n, fold)| ==>
      Matching(r, q, after, n, fold)[j] < Matching(r, q, after, n, fold)[k]
  {
    if n > 0 { MatchingExact(r, q, after, n - 1, fold); }
  }

  /** Position order and sequence-number order of rows with equal timestamps are the same. */
  lemma RowOrderByPosition(r: Rows, i: nat, j: nat)
    requires RowsInv(r) && i < |r.posts| && j < |r.posts|
    ensures RowBefore(r.posts[i], r.posts[j]) <==> ByStamp(PostStamp(r))(i, j)
  {
  }

  // Reads

  ghost predicate Within(items: seq<nat>, n: nat) {
    forall k :: 0 <= k < |items| ==> items[k] < n
  }

  function PreviewAt(r: Rows, i: nat, chars: nat): PostPreview
    requires i < |r.posts|
  {
    Preview(r.posts[i].metadata, r.posts[i].text, chars)
  }

  function ThreadSummaryAt(r: Rows, i: nat, chars: nat): ThreadSummary
    requires i < |r.posts|
  {
    var id := r.posts[i].metadata.messageID;
    var reply := Latest(RepliesTo(id), r.posts);
    ThreadSummary(id, PreviewAt(r, i, chars), |Select(RepliesTo(id), r.posts)|,
                  if reply.Some? && r.posts[reply.value].metadata.createdAt > r.posts[i].metadata.createdAt
                  then r.posts[reply.value].metadata.createdAt else r.posts[i].metadata.createdAt,
                  if reply.Some? then Some(PreviewAt(r, reply.value, chars)) else None)
  }

  function Previews(r: Rows, items: seq<nat>, chars: nat): (s: seq<PostPreview>)
    requires forall k :: 0 <= k < |items| ==> items[k] < |r.posts|
  {
    seq(|items|, k requires 0 <= k < |items| => PreviewAt(r, items[k], chars))
  }

  function ThreadSummaries(r: Rows, items: seq<nat>, chars: nat): seq<ThreadSummary>
    requires forall k :: 0 <= k < |items| ==> items[k] < |r.posts|
  {
    seq(|items|, k requires 0 <= k < |items| => ThreadSummaryAt(r, items[k], chars))
  }

  lemma PageWithin<T>(request: PageRequest, items: seq<T>)
    ensures QueryPage(request, items).Ok? ==>
      forall k :: 0 <= k < |QueryPage(request, items).value.results| ==> QueryPage(request, items).value.results[k] in items
  {
  }

  lemma ListingWithin(r: Rows, channel: string, sort: ThreadSort, direction: Direction, root: string)
    ensures forall i | i in ThreadListing(r, channel, sort, direction) :: i < |r.posts|
    ensures forall i | i in ReplyListing(r, root) :: i < |r.posts|
  {
    SortElements(Select(RootsIn(channel), r.posts), Directed(ByStamp(ThreadStamp(r, sort)), direction));
    SortElements(Select(RepliesTo(root), r.posts), Flip(ByStamp(PostStamp(r))));
  }

  lemma SearchWithin(r: Rows, q: PostQuery, after: Option<nat>, fold: Fold)
    requires after.Some? ==> after.value < |r.posts|
    ensures forall i | i in SearchListing(r, q, after, fold) :: i < |r.posts|
  {
    SortElements(Matching(r, q, after, |r.posts|, fold), Flip(ByStamp(PostStamp(r))));
  }

  function ListThreads(r: Rows, q: ThreadQuery): Outcome<Page<ThreadSummary>> {
    if q.channelName !in r.channels then Err(ChannelNotFound)
    else
      var listing := ThreadListing(r, q.channelName, q.sort, q.direction);
      match QueryPage(q.page, listing)
      case Err(error) => Err(BadPage(error))
      case Ok(page) =>
        ListingWithin(r, q.channelName, q.sort, q.direction, "");
        PageWithin(q.page, listing);
        Ok(Page(ThreadSummaries(r, page.results, ThreadPreviewChars(q.maxCharsPerPost, |page.results|)), page.nextCursor))
  }

  function SearchPosts(r: Rows, q: PostQuery, fold: Fold): Outcome<Page<PostPreview>> {
    var decoded := DecodeCursor(q.page.cursor);
    if decoded.Err? then Err(BadPage(decoded.error))
    else
      var after := if q.afterMessageID.Some? then FindPost(r.posts, q.afterMessageID.value) else None;
      if q.afterMessageID.Some? && after.None? then Err(PostNotFound)
      else
        var listing := SearchListing(r, q, after, fold);
        match QueryPage(q.page, listing)
        case Err(error) => Err(BadPage(error))
        case Ok(page) =>
          SearchWithin(r, q, after, fold);
          PageWithin(q.page, listing);
          Ok(Page(Previews(r, page.results, SearchPreviewChars(q.maxCharsPerPost, |page.results|)), page.nextCursor))
  }

  function ReadThread(r: Rows, q: ReadThreadRequest): Outcome<ThreadPage> {
    match FindThread(r.posts, q.threadID)
    case Err(error) => Err(error)
    case Ok(root) =>
      var listing := ReplyListing(r, q.threadID);
      match QueryPage(q.page, listing)
      case Err(error) => Err(BadPage(error))
      case Ok(page) =>
        ListingWithin(r, "", Created, OldestFirst, q.threadID);
        PageWithin(q.page, listing);
        var chars := ReadPreviewChars(q.maxCharsPerPost, |page.results|);
        Ok(ThreadPage(PreviewAt(r, root, chars), Page(Previews(r, page.results, chars), page.nextCursor)))
  }

  function ReadPost(r: Rows, id: string, offsetChars: int, limitChars: int): Outcome<(Metadata, Slice)> {
    match FindPost(r.posts, id)
    case None => Err(PostNotFound)
    case Some(i) => Ok((r.posts[i].metadata, ReadSlice(r.posts[i].text, offsetChars, limitChars)))
  }

  function Summaries(r: Rows, names: seq<string>): seq<ChannelSummary>
    requires forall k :: 0 <= k < |names| ==> names[k] in r.channels
  {
    seq(|names|, k requires 0 <= k < |names| => Summary(r, names[k]))
  }

  /** The page of channel summaries that a channel query answers. */
  ghost predicate IsChannelPage(r: Rows, q: ChannelQuery, fold: Fold, answer: Outcome<Page<ChannelSummary>>) {
    exists names | IsChannelListing(r, q.query, q.direction, fold, names) :: answer == ChannelPageOf(r, q, names)
  }

  function ChannelPageOf(r: Rows, q: ChannelQuery, names: seq<string>): Outcome<Page<ChannelSummary>>
    requires forall k :: 0 <= k < |names| ==> names[k] in r.channels
  {
    match QueryPage(q.page, names)
    case Err(error) => Err(BadPage(error))
    case Ok(page) =>
      PageWithin(q.page, names);
      Ok(Page(Summaries(r, page.results), page.nextCursor))
  }

  /** A channel query has one answer. */
  lemma ChannelPageUnique(r: Rows, q: ChannelQuery, fold: Fold, a: Outcome<Page<ChannelSummary>>, b: Outcome<Page<ChannelSummary>>)
    requires IsChannelPage(r, q, fold, a) && IsChannelPage(r, q, fold, b)
    ensures a == b
  {
    var x :| IsChannelListing(r, q.query, q.direction, fold, x) && a == ChannelPageOf(r, q, x);
    var y :| IsChannelListing(r, q.query, q.direction, fold, y) && b == ChannelPageOf(r, q, y);
    ChannelListingUnique(r, q.query, q.direction, fold, x, y);
  }
}
