/** Records of the message board shared by both backends (agentboard/types.go, agentboard/api.go). */
module BoardTypes {
  import opened Common
  import opened Paging

  const MAX_POST_TEXT_BYTES: nat := 64 * 1024
  const MAX_CHANNEL_NAME_BYTES: nat := 128
  const MAX_REQUEST_ID_BYTES: nat := 512
  const MAX_AGENTS_TO_NOTIFY: nat := 256
  const MAX_DESCRIPTION_BYTES: nat := 512
  const OUTPUT_BUDGET_CHARS: int := 20000

  datatype BoardError =
    | InvalidPost | RequestReused
    | InvalidChannelName | InvalidDescription | ChannelExists | ChannelNotFound
    | PostNotFound | NotTopLevel
    | BadPage(page: PageError)
    | HostFailed
    | BoardDeleted | InvalidBoard | InvalidTemplate | TemplatePinned | BoardUsed

  type Outcome<T> = Result<T, BoardError>

  /** Exactly one destination; a thread is named by its root post. */
  datatype Destination = ToChannel(name: string) | ToNewChannel(name: string) | ToThread(threadID: string)

  datatype Target = ChannelTarget(name: string) | ThreadTarget(threadID: string)

  datatype Change = Subscribe | Unsubscribe

  datatype Behavior = Discussion | SilentAppend

  datatype PostRequest = PostRequest(requestID: string, destination: Destination, text: string, agentsToNotify: seq<string>)

  /** Times are nanoseconds. */
  datatype Metadata = Metadata(messageID: string, channelName: string, author: string, threadID: string, createdAt: int)

  datatype ChannelSummary = ChannelSummary(
    channelName: string, description: Option<string>, createdAt: int, createdBy: string,
    messageCount: nat, lastMessageID: Option<string>)

  datatype PostPreview = PostPreview(metadata: Metadata, textPreview: string, nChars: nat, truncated: bool)

  datatype ThreadSummary = ThreadSummary(
    threadID: string, rootPost: PostPreview, replyCount: nat, lastActivityAt: int, latestReply: Option<PostPreview>)

  datatype ThreadPage = ThreadPage(rootPost: PostPreview, replies: Page<PostPreview>)

  datatype SubscriptionState = SubscriptionState(
    channelName: string, threadID: Option<string>, targetAgent: string, enabled: bool, lastMessageID: Option<string>)

  datatype Direction = NewestFirst | OldestFirst

  datatype ThreadSort = Created | Activity

  datatype ChannelQuery = ChannelQuery(query: Option<string>, direction: Direction, page: PageRequest)

  datatype ThreadQuery = ThreadQuery(channelName: string, sort: ThreadSort, direction: Direction, page: PageRequest, maxCharsPerPost: int)

  datatype PostQuery = PostQuery(
    channelName: Option<string>, query: Option<string>, afterMessageID: Option<string>, author: Option<string>,
    page: PageRequest, maxCharsPerPost: int)

  datatype ReadThreadRequest = ReadThreadRequest(threadID: string, page: PageRequest, maxCharsPerPost: int)

  datatype SubscriptionRequest = SubscriptionRequest(target: Target, targetAgent: Option<string>, change: Change)

  /** What a committed or retried post reports: its metadata, and the agents handed to notification. */
  datatype Posted = Posted(metadata: Metadata, notified: set<string>)

  /** The answers of the host to one call: the caller's path, agent ids by path, the clock. */
  datatype Host = Host(agentPath: Option<string>, resolve: string -> Option<string>, now: Option<int>)

  /** `UnixMicro`. */
  function Micro(time: int): int {
    time / 1000
  }

  predicate ContainsControlChar(s: string) {
    exists i :: 0 <= i < |s| && (s[i] < '\U{20}' || s[i] == '\U{7F}')
  }

  predicate ValidChannelName(name: string) {
    name != "" && ByteLen(name) <= MAX_CHANNEL_NAME_BYTES && TrimSpace(name) == name && !ContainsControlChar(name)
  }

  predicate ValidDescription(description: Option<string>) {
    description.Some? ==> ByteLen(description.value) <= MAX_DESCRIPTION_BYTES
  }

  predicate ValidPostRequest(request: PostRequest) {
    && request.text != "" && ByteLen(request.text) <= MAX_POST_TEXT_BYTES
    && request.requestID != "" && ByteLen(request.requestID) <= MAX_REQUEST_ID_BYTES
    && |request.agentsToNotify| <= MAX_AGENTS_TO_NOTIFY
  }

  /** `minPositive`. */
  function MinPositive(requested: int, budget: int): (n: nat)
    ensures n >= 1
  {
    var limit := if requested <= 0 || requested > budget then budget else requested;
    if limit < 1 then 1 else limit
  }

  function ThreadPreviewChars(requested: int, count: nat): nat {
    MinPositive(requested, OUTPUT_BUDGET_CHARS / (2 * Max(count, 1)))
  }

  function SearchPreviewChars(requested: int, count: nat): nat {
    MinPositive(requested, OUTPUT_BUDGET_CHARS / Max(count, 1))
  }

  function ReadPreviewChars(requested: int, count: nat): nat {
    MinPositive(requested, OUTPUT_BUDGET_CHARS / (count + 1))
  }

  /** The first characters of a text, at most as many as given, with its length and whether anything is missing. */
  function Preview(metadata: Metadata, text: string, maxChars: nat): (p: PostPreview)
    ensures p.metadata == metadata && p.textPreview <= text && p.nChars == |text|
    ensures |p.textPreview| <= maxChars && (p.truncated <==> p.textPreview != text)
    ensures |p.textPreview| == maxChars || p.textPreview == text
  {
    PostPreview(metadata, text[..Min(maxChars, |text|)], |text|, |text| > maxChars)
  }

  /** Agents named in a request, resolved; the host may fail on any of them. */
  function ResolveAll(host: Host, agents: seq<string>): Option<set<string>> {
    if agents == [] then Some({})
    else
      var front := ResolveAll(host, agents[..|agents| - 1]);
      var id := host.resolve(agents[|agents| - 1]);
      if front.None? || id.None? then None else Some(front.value + {id.value})
  }

  /** Resolving succeeds iff every agent named resolves, and gives exactly their ids. */
  lemma {:induction false} ResolveAllExact(host: Host, agents: seq<string>)
    ensures ResolveAll(host, agents).Some? <==> forall a | a in agents :: host.resolve(a).Some?
    ensures ResolveAll(host, agents).Some? ==>
      forall id :: id in ResolveAll(host, agents).value <==> exists a :: a in agents && host.resolve(a) == Some(id)
  {
    if agents != [] {
      var front, last := agents[..|agents| - 1], agents[|agents| - 1];
      ResolveAllExact(host, front);
      assert agents == front + [last];
      assert last in agents;
    }
  }

  /** The loop over the agents to notify. */
  method ResolveAgents(host: Host, agents: seq<string>) returns (r: Option<set<string>>)
    ensures r == ResolveAll(host, agents)
    ensures r.Some? <==> forall a | a in agents :: host.resolve(a).Some?
    ensures r.Some? ==> forall id :: id in r.value <==> exists a :: a in agents && host.resolve(a) == Some(id)
  {
    ResolveAllExact(host, agents);
    var recipients: set<string> := {};
    for i := 0 to |agents|
      invariant ResolveAll(host, agents[..i]) == Some(recipients)
    {
      assert agents[..i + 1][..i] == agents[..i];
      var resolved := host.resolve(agents[i]);
      if resolved.None? {
        ResolveFails(host, agents, i + 1);
        return None;
      }
      recipients := recipients + {resolved.value};
    }
    assert agents[..|agents|] == agents;
    return Some(recipients);
  }

  lemma {:induction false} ResolveFails(host: Host, agents: seq<string>, n: nat)
    requires n <= |agents| && ResolveAll(host, agents[..n]) == None
    ensures ResolveAll(host, agents) == None
    decreases |agents| - n
  {
    if n == |agents| {
      assert agents[..n] == agents;
    } else {
      assert agents[..n + 1][..n] == agents[..n];
      ResolveFails(host, agents, n + 1);
    }
  }

  // Request keys

  /** The key under which a request is filed: caller, separator, request id. */
  function RequestKey(caller: string, separator: char, requestID: string): string {
    caller + [separator] + requestID
  }

  /** Some two different pairs of these callers have one joined key. */
  ghost predicate SharesKey(separator: char, a: string, b: string) {
    exists x, y :: (a, x) != (b, y) && RequestKey(a, separator, x) == RequestKey(b, separator, y)
  }

  lemma JoinedKeys(separator: char, a: string, x: string, b: string, y: string)
    requires |a| <= |b| && RequestKey(a, separator, x) == RequestKey(b, separator, y)
    ensures (a == b && x == y) || a + [separator] <= b
  {
    var k := RequestKey(a, separator, x);
    assert k[..|a|] == a && k[|a|] == separator && k[|a| + 1..] == x;
    assert k[..|b|] == b && k[|b| + 1..] == y;
    if |a| < |b| {
      assert b[..|a| + 1] == k[..|a| + 1] == a + [separator];
    } else {
      assert a == b;
    }
  }

  /** Two callers share a key exactly when one continues the other with the separator. */
  lemma SharesKeyIff(separator: char, a: string, b: string)
    ensures SharesKey(separator, a, b) <==> a + [separator] <= b || b + [separator] <= a
  {
    if x, y :| (a, x) != (b, y) && RequestKey(a, separator, x) == RequestKey(b, separator, y) {
      if |a| <= |b| { JoinedKeys(separator, a, x, b, y); } else { JoinedKeys(separator, b, y, a, x); }
    }
    if a + [separator] <= b { Extended(separator, a, b); }
    if b + [separator] <= a { Extended(separator, b, a); }
  }

  lemma Extended(separator: char, a: string, b: string)
    requires a + [separator] <= b
    ensures SharesKey(separator, a, b) && SharesKey(separator, b, a)
  {
    var x := b[|a| + 1..] + [separator];
    assert b == a + [separator] + b[|a| + 1..];
    assert RequestKey(a, separator, x) == RequestKey(b, separator, "");
    assert a != b;
  }

  /** Joined keys name the pair for a set of callers iff no caller continues another with the separator. */
  lemma KeysNamePairsIff(separator: char, callers: set<string>)
    ensures (forall a, b | a in callers && b in callers :: !SharesKey(separator, a, b))
      <==> forall a, b | a in callers && b in callers :: !(a + [separator] <= b)
  {
    forall a, b ensures SharesKey(separator, a, b) <==> a + [separator] <= b || b + [separator] <= a {
      SharesKeyIff(separator, a, b);
    }
  }

  /** So they do for callers without the separator. */
  lemma RequestKeyIsPair(separator: char, a: string, x: string, b: string, y: string)
    requires separator !in a && separator !in b
    ensures RequestKey(a, separator, x) == RequestKey(b, separator, y) <==> a == b && x == y
  {
    SharesKeyIff(separator, a, b);
    assert (a + [separator])[|a|] == separator && (b + [separator])[|b|] == separator;
  }

  /** With the separator in a caller two pairs can share a key. */
  lemma RequestKeyCollides()
    ensures RequestKey("a", ':', "b:c") == RequestKey("a:b", ':', "c")
  {
  }
}
