/**
 The spawn registry as a value (agent/registry.go): what each call does to the two maps,
 the counter and the nickname pool, and what every run of calls keeps.
 The classes of module Registry are proved to do exactly this.
 */
module RegistryState {
  import opened Common
  import opened Nicknames

  const ROOT_PATH: string := "/root"
  const UINT64: nat := 0x1_0000_0000_0000_0000

  datatype Metadata = Metadata(threadID: string, path: string, nickname: string, role: string, lastTaskMessage: string)

  datatype State = State(
    agents: map<string, Metadata>,   // agentsByPath
    paths: map<string, string>,      // pathByThread
    used: set<string>,               // usedNicknames
    resets: nat,                     // nicknameResetCount
    total: nat,                      // totalCount
    next: nat)                       // position of the round-robin chooser

  datatype Reservation = Reservation(active: bool, nickname: string, path: string)

  const EMPTY_STATE := State(map[], map[], {}, 0, 0, 0)

  /** The key of an agent committed without a path. */
  function ThreadKey(threadID: string): string {
    "thread:" + threadID
  }

  function Increment(r: State, maxThreads: int): Option<State> {
    if maxThreads > 0 && r.total >= maxThreads then None
    else Some(r.(total := (r.total + 1) % UINT64))
  }

  function Decrement(r: State): State {
    if r.total == 0 then r else r.(total := r.total - 1)
  }

  function RegisterRoot(r: State, threadID: string): State {
    if ROOT_PATH in r.agents then
      var existing := r.agents[ROOT_PATH].threadID;
      if existing != "" then r.(paths := r.paths[existing := ROOT_PATH]) else r
    else
      var agents := r.agents[ROOT_PATH := Metadata(threadID, ROOT_PATH, "", "", "")];
      if threadID != "" then r.(agents := agents, paths := r.paths[threadID := ROOT_PATH]) else r.(agents := agents)
  }

  function Release(r: State, threadID: string): State {
    if threadID !in r.paths then r
    else
      var path := r.paths[threadID];
      var s := r.(paths := r.paths - {threadID});
      if path !in r.agents || r.agents[path].threadID != threadID then s
      else
        var nickname := r.agents[path].nickname;
        var t := s.(agents := r.agents - {path}, used := if nickname != "" then r.used - {nickname} else r.used);
        if path != ROOT_PATH then Decrement(t) else t
  }

  function RegisterSpawned(r: State, m: Metadata): State {
    if m.threadID == "" then r
    else
      var key := if m.path == "" then ThreadKey(m.threadID) else m.path;
      var used := if m.nickname != "" then r.used + {m.nickname} else r.used;
      var agents := if m.threadID in r.paths && r.paths[m.threadID] != key then r.agents - {r.paths[m.threadID]} else r.agents;
      var displaced := if key in agents && agents[key].threadID != "" && agents[key].threadID != m.threadID
                       then {agents[key].threadID} else {};
      r.(used := used, agents := agents[key := m.(path := key)], paths := (r.paths - displaced)[m.threadID := key])
  }

  function UpdateLastTask(r: State, threadID: string, message: string): State {
    if threadID in r.paths && r.paths[threadID] in r.agents && r.agents[r.paths[threadID]].threadID == threadID then
      var path := r.paths[threadID];
      r.(agents := r.agents[path := r.agents[path].(lastTaskMessage := message)])
    else r
  }

  /** The unused names of the current generation, in order. */
  function Unused(names: seq<string>, resets: nat, used: set<string>): seq<string> {
    if names == [] then []
    else
      var rest := Unused(names[..|names| - 1], resets, used);
      var name := Format(names[|names| - 1], resets);
      if name in used then rest else rest + [name]
  }

  function AllFormatted(names: seq<string>, resets: nat): (s: seq<string>)
    ensures |s| == |names| && forall i :: 0 <= i < |s| ==> s[i] == Format(names[i], resets)
  {
    seq(|names|, i requires 0 <= i < |names| => Format(names[i], resets))
  }

  function Choose(candidates: seq<string>, next: nat): string {
    if candidates == [] then "" else candidates[next % |candidates|]
  }

  function ReserveNickname(r: State, names: seq<string>, preferred: string): Option<(State, string)> {
    if preferred != "" then Some((r.(used := r.used + {preferred}), preferred))
    else if names == [] then None
    else
      var unused := Unused(names, r.resets, r.used);
      var renewed := if unused == [] then r.(used := {}, resets := r.resets + 1) else r;
      var candidates := if unused == [] then AllFormatted(names, r.resets + 1) else unused;
      var nickname := Choose(candidates, r.next);
      Some((renewed.(used := renewed.used + {nickname}, next := (r.next + 1) % UINT64), nickname))
  }

  function ReservePath(r: State, path: string): Option<State> {
    if path == "" then Some(r)
    else if path in r.agents then None
    else Some(r.(agents := r.agents[path := Metadata("", path, "", "", "")]))
  }

  function ReleasePath(r: State, path: string): State {
    if path in r.agents && r.agents[path].threadID == "" && path != "" then r.(agents := r.agents - {path}) else r
  }

  function Cancel(r: State, v: Reservation): State {
    var s := if v.nickname != "" then r.(used := r.used - {v.nickname}) else r;
    Decrement(ReleasePath(s, v.path))
  }

  /** What a commit registers. */
  function Filled(m: Metadata, v: Reservation): Metadata {
    m.(nickname := if m.nickname == "" then v.nickname else m.nickname,
       path := if m.path == "" then v.path else m.path)
  }

  // Runs: a registry together with the reservations handed out

  datatype System = System(reg: State, res: map<nat, Reservation>)

  datatype Call =
    | ReserveSlot(id: nat)
    | ReserveName(id: nat, names: seq<string>)
    | ReserveAgentPath(id: nat, path: string)
    | Commit(id: nat, metadata: Metadata)
    | CancelSlot(id: nat)
    | ReleaseThread(threadID: string)
    | RegisterRootThread(threadID: string)
    | UpdateMessage(threadID: string, message: string)

  predicate IsActive(s: System, id: nat) {
    id in s.res && s.res[id].active
  }

  /** One call; calls on inactive reservations and refused calls change nothing. */
  function Apply(s: System, call: Call, limit: nat): System {
    match call
    case ReserveSlot(id) =>
      var r := Increment(s.reg, limit);
      if r.None? then s else System(r.value, s.res[id := Reservation(true, "", "")])
    case ReserveName(id, names) =>
      if !IsActive(s, id) then s
      else
        var r := ReserveNickname(s.reg, names, "");
        if r.None? then s else System(r.value.0, s.res[id := s.res[id].(nickname := r.value.1)])
    case ReserveAgentPath(id, path) =>
      if !IsActive(s, id) then s
      else
        var r := ReservePath(s.reg, path);
        if r.None? then s else System(r.value, s.res[id := s.res[id].(path := path)])
    case Commit(id, m) =>
      if !IsActive(s, id) then s
      else System(RegisterSpawned(s.reg, Filled(m, s.res[id])), s.res[id := Reservation(false, "", "")])
    case CancelSlot(id) =>
      if !IsActive(s, id) then s
      else System(Cancel(s.reg, s.res[id]), s.res[id := s.res[id].(active := false)])
    case ReleaseThread(threadID) => s.(reg := Release(s.reg, threadID))
    case RegisterRootThread(threadID) => s.(reg := RegisterRoot(s.reg, threadID))
    case UpdateMessage(threadID, message) => s.(reg := UpdateLastTask(s.reg, threadID, message))
  }

  /**
   The discipline of the callers: reservations are new objects, take at most one path
   (not the root, not the shape of a thread key) and at most one name from the pool, and
   commit a fresh thread id under what they reserved; a root thread is new.
   */
  ghost predicate Disciplined(s: System, call: Call, pool: set<string>) {
    match call
    case ReserveSlot(id) => id !in s.res
    case ReserveName(id, names) =>
      (IsActive(s, id) ==> s.res[id].nickname == "") && forall i :: 0 <= i < |names| ==> names[i] in pool
    case ReserveAgentPath(id, path) =>
      IsActive(s, id) ==> s.res[id].path == "" && path != ROOT_PATH && !IsThreadKey(path)
    case Commit(id, m) =>
      IsActive(s, id) ==>
        && m.threadID != "" && m.threadID !in s.reg.paths
        && (m.path == "" || m.path == s.res[id].path) && (m.nickname == "" || m.nickname == s.res[id].nickname)
    case CancelSlot(id) => true
    case ReleaseThread(threadID) => true
    case RegisterRootThread(threadID) => ROOT_PATH in s.reg.agents || threadID !in s.reg.paths
    case UpdateMessage(threadID, message) => true
  }

  // What every disciplined run keeps

  predicate IsLive(r: State, path: string) {
    path in r.agents && r.agents[path].threadID != ""
  }

  /** The two maps are inverse to each other on live agents. */
  ghost predicate Inverse(r: State) {
    && (forall t | t in r.paths :: t != "" && r.paths[t] in r.agents && r.agents[r.paths[t]].threadID == t)
    && (forall p | IsLive(r, p) :: r.agents[p].threadID in r.paths && r.paths[r.agents[p].threadID] == p)
    && (forall p | p in r.agents :: p != "" && r.agents[p].path == p)
  }

  predicate IsThreadKey(p: string) {
    |p| >= 7 && p[..7] == "thread:"
  }

  /** Only live agents sit under a thread key, their own. */
  ghost predicate Keyed(r: State) {
    forall p | p in r.agents && IsThreadKey(p) :: r.agents[p].threadID != "" && p == ThreadKey(r.agents[p].threadID)
  }

  /** Placeholders are exactly the paths of active reservations, each of one reservation. */
  ghost predicate Placeholders(s: System) {
    && (forall i | IsActive(s, i) && s.res[i].path != "" ::
          s.res[i].path in s.reg.agents && !IsLive(s.reg, s.res[i].path) && s.res[i].path != ROOT_PATH)
    && (forall i, j | IsActive(s, i) && IsActive(s, j) && i != j && s.res[i].path != "" :: s.res[i].path != s.res[j].path)
    && (forall p | p in s.reg.agents && !IsLive(s.reg, p) && p != ROOT_PATH :: exists i :: IsActive(s, i) && s.res[i].path == p)
  }

  function Actives(s: System): set<nat> {
    set i | i in s.res && s.res[i].active
  }

  function LiveSpawned(r: State): set<string> {
    set p | p in r.agents && r.agents[p].threadID != "" && p != ROOT_PATH
  }

  /** Every counted slot is an active reservation or a live agent other than the root. */
  ghost predicate Conserved(s: System, limit: nat) {
    s.reg.total == |Actives(s)| + |LiveSpawned(s.reg)| && s.reg.total <= limit
  }

  ghost predicate Consistent(s: System, limit: nat) {
    Inverse(s.reg) && Placeholders(s) && Conserved(s, limit)
  }

  lemma FreshKey(r: State, threadID: string)
    requires Inverse(r) && Keyed(r) && threadID !in r.paths
    ensures ThreadKey(threadID) !in r.agents && ThreadKey(threadID) != "" && ThreadKey(threadID) != ROOT_PATH
  {
  }

  lemma StepKeyed(s: System, call: Call, limit: nat, pool: set<string>)
    requires Keyed(s.reg) && Disciplined(s, call, pool)
    requires Placeholders(s)
    ensures Keyed(Apply(s, call, limit).reg)
  {
    assert !IsThreadKey(ROOT_PATH);
  }

  /** A placeholder keeps its owner when neither the reservation nor the path changes. */
  lemma OwnerOf(s: System, p: string) returns (i: nat)
    requires Placeholders(s) && p in s.reg.agents && !IsLive(s.reg, p) && p != ROOT_PATH
    ensures IsActive(s, i) && s.res[i].path == p
  {
    i :| IsActive(s, i) && s.res[i].path == p;
  }

  /** A new reservation, or one that drops or changes its nickname: the paths do not move. */
  lemma SamePaths(s: System, t: System, limit: nat)
    requires Consistent(s, limit) && t.reg.agents == s.reg.agents && t.reg.paths == s.reg.paths
    requires forall i | IsActive(t, i) :: if IsActive(s, i) then t.res[i].path == s.res[i].path else t.res[i].path == ""
    requires forall i | IsActive(s, i) :: IsActive(t, i)
    ensures Inverse(t.reg) && Placeholders(t) && LiveSpawned(t.reg) == LiveSpawned(s.reg)
  {
  }

  lemma PathInverse(r: State, q: State, path: string, m: Metadata)
    requires Inverse(r) && path !in r.agents && path != "" && m.threadID == "" && m.path == path
    requires q.agents == r.agents[path := m] && q.paths == r.paths
    ensures Inverse(q) && LiveSpawned(q) == LiveSpawned(r)
  {
  }

  /** A reservation takes a path. */
  lemma PathTaken(s: System, t: System, id: nat, path: string, m: Metadata, limit: nat)
    requires Consistent(s, limit) && IsActive(s, id) && s.res[id].path == ""
    requires path !in s.reg.agents && path != "" && path != ROOT_PATH && m.threadID == "" && m.path == path
    requires t.reg.agents == s.reg.agents[path := m] && t.reg.paths == s.reg.paths
    requires t.res == s.res[id := s.res[id].(path := path)]
    ensures Inverse(t.reg) && Placeholders(t) && LiveSpawned(t.reg) == LiveSpawned(s.reg)
  {
    hide Inverse, Conserved, LiveSpawned;
    PathInverse(s.reg, t.reg, path, m);
    forall p | p in t.reg.agents && !IsLive(t.reg, p) && p != ROOT_PATH
      ensures exists i :: IsActive(t, i) && t.res[i].path == p
    {
      if p == path {
        assert IsActive(t, id) && t.res[id].path == p;
      } else {
        var i := OwnerOf(s, p);
        assert IsActive(t, i) && t.res[i].path == p;
      }
    }
  }

  /** A reservation ends, and its placeholder becomes a live agent (at `key`) or goes away. */
  lemma ReservationEnds(s: System, t: System, id: nat, limit: nat)
    requires Consistent(s, limit) && IsActive(s, id)
    requires forall i :: IsActive(t, i) <==> IsActive(s, i) && i != id
    requires forall i | IsActive(t, i) :: t.res[i].path == s.res[i].path
    requires forall p | p in t.reg.agents && !IsLive(t.reg, p) :: p in s.reg.agents && !IsLive(s.reg, p) && p != s.res[id].path
    requires forall p | p in s.reg.agents && !IsLive(s.reg, p) && p != s.res[id].path :: p in t.reg.agents && !IsLive(t.reg, p)
    ensures Placeholders(t)
  {
  }

  /** A live agent appears at a key that was free or a placeholder. */
  lemma AgentAppears(r: State, q: State, key: string, m: Metadata)
    requires Inverse(r) && !IsLive(r, key) && key != "" && m.threadID != "" && m.threadID !in r.paths && m.path == key
    requires q.agents == r.agents[key := m] && q.paths == r.paths[m.threadID := key]
    ensures Inverse(q)
    ensures key != ROOT_PATH ==> LiveSpawned(q) == LiveSpawned(r) + {key} && key !in LiveSpawned(r)
    ensures key == ROOT_PATH ==> LiveSpawned(q) == LiveSpawned(r)
  {
  }

  /** A live agent or a placeholder disappears. */
  lemma AgentDisappears(r: State, q: State, key: string)
    requires Inverse(r) && key in r.agents
    requires q.agents == r.agents - {key}
    requires q.paths == if IsLive(r, key) then r.paths - {r.agents[key].threadID} else r.paths
    ensures Inverse(q) && LiveSpawned(q) == LiveSpawned(r) - {key}
  {
  }

  lemma ActivesGrow(s: System, t: System, id: nat)
    requires id !in s.res && t.res == s.res[id := Reservation(true, "", "")]
    ensures Actives(t) == Actives(s) + {id} && |Actives(t)| == |Actives(s)| + 1
  {
  }

  lemma SlotTaken(s: System, t: System, id: nat, limit: nat)
    requires Consistent(s, limit) && id !in s.res && t.res == s.res[id := Reservation(true, "", "")]
    requires t.reg == s.reg.(total := s.reg.total + 1) && s.reg.total < limit
    ensures Consistent(t, limit)
  {
    hide Inverse, Placeholders, LiveSpawned, Actives;
    SamePaths(s, t, limit);
    ActivesGrow(s, t, id);
  }

  lemma SlotConsistent(s: System, id: nat, limit: nat)
    requires Consistent(s, limit) && 0 < limit < UINT64 && id !in s.res
    ensures Consistent(Apply(s, ReserveSlot(id), limit), limit)
  {
    var t := Apply(s, ReserveSlot(id), limit);
    if t != s {
      SlotTaken(s, t, id, limit);
    }
  }

  lemma NameConsistent(s: System, id: nat, names: seq<string>, limit: nat)
    requires Consistent(s, limit)
    ensures Consistent(Apply(s, ReserveName(id, names), limit), limit)
  {
    var t := Apply(s, ReserveName(id, names), limit);
    if t != s {
      assert t.reg.agents == s.reg.agents && t.reg.paths == s.reg.paths && t.reg.total == s.reg.total;
      Renamed(s, t, id, t.res[id].nickname, limit);
    }
  }

  lemma Renamed(s: System, t: System, id: nat, nickname: string, limit: nat)
    requires Consistent(s, limit) && IsActive(s, id)
    requires t.reg.agents == s.reg.agents && t.reg.paths == s.reg.paths && t.reg.total == s.reg.total
    requires t.res == s.res[id := s.res[id].(nickname := nickname)]
    ensures Consistent(t, limit)
  {
    SamePaths(s, t, limit);
    assert Actives(t) == Actives(s);
  }

  lemma PathConsistent(s: System, id: nat, path: string, limit: nat)
    requires Consistent(s, limit)
    requires IsActive(s, id) ==> s.res[id].path == "" && path != ROOT_PATH
    ensures Consistent(Apply(s, ReserveAgentPath(id, path), limit), limit)
  {
    hide Inverse, Placeholders, LiveSpawned;
    var t := Apply(s, ReserveAgentPath(id, path), limit);
    if t.reg == s.reg {
      SamePaths(s, t, limit);
    } else {
      PathTaken(s, t, id, path, Metadata("", path, "", "", ""), limit);
    }
    assert Actives(t) == Actives(s);
  }

  lemma CommitConsistent(s: System, id: nat, m: Metadata, limit: nat)
    requires Consistent(s, limit) && Keyed(s.reg) && IsActive(s, id)
    requires m.threadID != "" && m.threadID !in s.reg.paths && (m.path == "" || m.path == s.res[id].path)
    ensures Consistent(Apply(s, Commit(id, m), limit), limit)
  {
    var t := Apply(s, Commit(id, m), limit);
    var path := s.res[id].path;
    var key := if path == "" then ThreadKey(m.threadID) else path;
    FreshKey(s.reg, m.threadID);
    CommitEffect(s, t, id, key, m, limit);
    AgentAppears(s.reg, t.reg, key, Filled(m, s.res[id]).(path := key));
    SlotBecomesAgent(s, t, id, key, Filled(m, s.res[id]).(path := key), limit);
  }

  lemma ActivesShrink(s: System, t: System, id: nat)
    requires IsActive(s, id) && forall i :: IsActive(t, i) <==> IsActive(s, i) && i != id
    ensures Actives(t) == Actives(s) - {id} && |Actives(t)| == |Actives(s)| - 1
  {
    forall i ensures i in Actives(t) <==> i in Actives(s) - {id} {
      assert IsActive(t, i) <==> IsActive(s, i) && i != id;
    }
  }

  /** The slot of a reservation passes to the agent that appears. */
  lemma SlotBecomesAgent(s: System, t: System, id: nat, key: string, m: Metadata, limit: nat)
    requires Consistent(s, limit) && IsActive(s, id) && !IsLive(s.reg, key) && key != ROOT_PATH && m.threadID != ""
    requires if s.res[id].path == "" then key !in s.reg.agents else key == s.res[id].path
    requires t.reg.agents == s.reg.agents[key := m] && t.reg.total == s.reg.total
    requires t.res == s.res[id := Reservation(false, "", "")]
    requires LiveSpawned(t.reg) == LiveSpawned(s.reg) + {key} && key !in LiveSpawned(s.reg)
    ensures Placeholders(t) && Conserved(t, limit)
  {
    ActivesShrink(s, t, id);
    ReservationEnds(s, t, id, limit);
  }

  lemma CommitEffect(s: System, t: System, id: nat, key: string, m: Metadata, limit: nat)
    requires IsActive(s, id) && t == Apply(s, Commit(id, m), limit)
    requires m.threadID != "" && m.threadID !in s.reg.paths && (m.path == "" || m.path == s.res[id].path)
    requires !IsLive(s.reg, key) && key == if s.res[id].path == "" then ThreadKey(m.threadID) else s.res[id].path
    ensures t.reg.agents == s.reg.agents[key := Filled(m, s.res[id]).(path := key)]
    ensures t.reg.paths == s.reg.paths[m.threadID := key] && t.reg.total == s.reg.total
    ensures t.res == s.res[id := Reservation(false, "", "")]
  {
  }

  lemma CancelConsistent(s: System, id: nat, limit: nat)
    requires Consistent(s, limit) && IsActive(s, id)
    ensures Consistent(Apply(s, CancelSlot(id), limit), limit)
  {
    var t := Apply(s, CancelSlot(id), limit);
    assert id in Actives(s);
    assert t.reg.total == s.reg.total - 1;
    if s.res[id].path != "" {
      AgentDisappears(s.reg, t.reg, s.res[id].path);
    } else {
      assert t.reg.agents == s.reg.agents && t.reg.paths == s.reg.paths;
    }
    SlotReturned(s, t, id, limit);
  }

  /** The slot of a cancelled reservation is given back, with its placeholder. */
  lemma SlotReturned(s: System, t: System, id: nat, limit: nat)
    requires Consistent(s, limit) && IsActive(s, id) && t.reg.total == s.reg.total - 1
    requires t.reg.agents == (if s.res[id].path == "" then s.reg.agents else s.reg.agents - {s.res[id].path})
    requires t.res == s.res[id := s.res[id].(active := false)]
    ensures Placeholders(t) && Conserved(t, limit)
  {
    ActivesShrink(s, t, id);
    assert LiveSpawned(t.reg) == LiveSpawned(s.reg);
    ReservationEnds(s, t, id, limit);
  }

  lemma ReleaseConsistent(s: System, threadID: string, limit: nat)
    requires Consistent(s, limit)
    ensures Consistent(Apply(s, ReleaseThread(threadID), limit), limit)
  {
    hide Placeholders;
    var t := Apply(s, ReleaseThread(threadID), limit);
    assert Actives(t) == Actives(s);
    if threadID in s.reg.paths {
      AgentDisappears(s.reg, t.reg, s.reg.paths[threadID]);
      LivePlaceholders(s, t, limit);
    }
  }

  /** Only live agents and the root moved: placeholders are as they were. */
  lemma LivePlaceholders(s: System, t: System, limit: nat)
    requires Consistent(s, limit) && t.res == s.res
    requires forall p | p != ROOT_PATH :: (p in t.reg.agents && !IsLive(t.reg, p)) <==> (p in s.reg.agents && !IsLive(s.reg, p))
    ensures Placeholders(t)
  {
  }

  lemma RootConsistent(s: System, threadID: string, limit: nat)
    requires Consistent(s, limit) && (ROOT_PATH in s.reg.agents || threadID !in s.reg.paths)
    ensures Consistent(Apply(s, RegisterRootThread(threadID), limit), limit)
  {
    hide Placeholders, Conserved;
    var t := Apply(s, RegisterRootThread(threadID), limit);
    if ROOT_PATH in s.reg.agents {
      assert t.reg.paths == s.reg.paths;
    } else {
      NewRoot(s, t, threadID, limit);
    }
  }

  /** The first registration of the root, with or without a thread. */
  lemma NewRoot(s: System, t: System, threadID: string, limit: nat)
    requires Consistent(s, limit) && ROOT_PATH !in s.reg.agents && threadID !in s.reg.paths && t.res == s.res
    requires t.reg.agents == s.reg.agents[ROOT_PATH := Metadata(threadID, ROOT_PATH, "", "", "")] && t.reg.total == s.reg.total
    requires t.reg.paths == if threadID == "" then s.reg.paths else s.reg.paths[threadID := ROOT_PATH]
    ensures Consistent(t, limit)
  {
    hide Placeholders, Inverse, LiveSpawned;
    assert Actives(t) == Actives(s);
    var m := Metadata(threadID, ROOT_PATH, "", "", "");
    if threadID == "" {
      PathInverse(s.reg, t.reg, ROOT_PATH, m);
    } else {
      AgentAppears(s.reg, t.reg, ROOT_PATH, m);
    }
    LivePlaceholders(s, t, limit);
  }

  lemma MessageConsistent(s: System, threadID: string, message: string, limit: nat)
    requires Consistent(s, limit)
    ensures Consistent(Apply(s, UpdateMessage(threadID, message), limit), limit)
  {
    var t := Apply(s, UpdateMessage(threadID, message), limit);
    if t != s {
      hide Consistent;
      MessageChanged(s, t, s.reg.paths[threadID], message, limit);
    }
  }

  lemma MessageChanged(s: System, t: System, path: string, message: string, limit: nat)
    requires Consistent(s, limit) && path in s.reg.agents
    requires t == s.(reg := s.reg.(agents := s.reg.agents[path := s.reg.agents[path].(lastTaskMessage := message)]))
    ensures Consistent(t, limit)
  {
    hide Placeholders, Inverse, LiveSpawned;
    assert Actives(t) == Actives(s);
    MessageInverse(s.reg, t.reg, path, message);
    LivePlaceholders(s, t, limit);
  }

  lemma MessageInverse(r: State, q: State, path: string, message: string)
    requires Inverse(r) && path in r.agents && q == r.(agents := r.agents[path := r.agents[path].(lastTaskMessage := message)])
    ensures Inverse(q) && LiveSpawned(q) == LiveSpawned(r)
  {
    assert forall p :: IsLive(q, p) <==> IsLive(r, p);
  }

  lemma StepConsistent(s: System, call: Call, limit: nat, pool: set<string>)
    requires Consistent(s, limit) && Keyed(s.reg) && 0 < limit < UINT64 && Disciplined(s, call, pool)
    ensures Consistent(Apply(s, call, limit), limit)
  {
    match call
    case ReserveSlot(id) => SlotConsistent(s, id, limit);
    case ReserveName(id, names) => NameConsistent(s, id, names, limit);
    case ReserveAgentPath(id, path) => PathConsistent(s, id, path, limit);
    case Commit(id, m) => if IsActive(s, id) { CommitConsistent(s, id, m, limit); }
    case CancelSlot(id) => if IsActive(s, id) { CancelConsistent(s, id, limit); }
    case ReleaseThread(threadID) => ReleaseConsistent(s, threadID, limit);
    case RegisterRootThread(threadID) => RootConsistent(s, threadID, limit);
    case UpdateMessage(threadID, message) => MessageConsistent(s, threadID, message, limit);
  }

  // Nicknames

  /** Whoever can hold a nickname: an active reservation or an agent. */
  datatype Holder = Slot(id: nat) | Agent(path: string)

  function NameOf(s: System, h: Holder): string {
    match h
    case Slot(id) => if IsActive(s, id) then s.res[id].nickname else ""
    case Agent(path) => if path in s.reg.agents then s.reg.agents[path].nickname else ""
  }

  /** A name of some generation up to the current one; those of the current one are marked used. */
  ghost predicate Tracked(r: State, pool: set<string>, name: string) {
    && (exists a, g: nat :: a in pool && g <= r.resets && name == Format(a, g))
    && (forall a | a in pool && name == Format(a, r.resets) :: name in r.used)
  }

  /** No name is held twice. */
  ghost predicate NamesDiffer(s: System) {
    forall h, k | NameOf(s, h) != "" && h != k :: NameOf(s, h) != NameOf(s, k)
  }

  /** What keeps names different: names held are tracked, and placeholders hold none. */
  ghost predicate Distinct(s: System, pool: set<string>) {
    && (forall h | NameOf(s, h) != "" :: Tracked(s.reg, pool, NameOf(s, h)))
    && NamesDiffer(s)
    && (forall p | p in s.reg.agents && !IsLive(s.reg, p) :: s.reg.agents[p].nickname == "")
  }

  /** Holders only leave, and the names that remain stay marked. */
  lemma HoldersLeave(s: System, t: System, pool: set<string>)
    requires Distinct(s, pool) && t.reg.resets == s.reg.resets
    requires forall h | NameOf(t, h) != "" :: NameOf(t, h) == NameOf(s, h)
    requires forall h | NameOf(t, h) != "" && NameOf(t, h) in s.reg.used :: NameOf(t, h) in t.reg.used
    requires forall p | p in t.reg.agents && !IsLive(t.reg, p) :: t.reg.agents[p].nickname == ""
    ensures Distinct(t, pool)
  {
  }

  lemma {:induction false} UnusedNames(names: seq<string>, resets: nat, used: set<string>)
    ensures forall n | n in Unused(names, resets, used) :: n !in used && exists a :: a in names && n == Format(a, resets)
  {
    if names != [] {
      UnusedNames(names[..|names| - 1], resets, used);
    }
  }

  /** The name chosen: of the current generation, and not marked before. */
  lemma ChosenName(r: State, names: seq<string>, pool: set<string>)
    requires names != [] && forall i :: 0 <= i < |names| ==> names[i] in pool
    ensures var (q, name) := ReserveNickname(r, names, "").value;
      && (exists a :: a in pool && name == Format(a, q.resets))
      && q.used == (if q.resets == r.resets then r.used else {}) + {name}
      && (q.resets == r.resets ==> name !in r.used)
      && r.resets <= q.resets <= r.resets + 1
      && q.agents == r.agents
  {
    hide Format;
    var unused := Unused(names, r.resets, r.used);
    UnusedNames(names, r.resets, r.used);
    if unused == [] {
      var candidates := AllFormatted(names, r.resets + 1);
      assert candidates[r.next % |candidates|] == Format(names[r.next % |candidates|], r.resets + 1);
    } else {
      assert unused[r.next % |unused|] in unused;
    }
  }

  lemma NameDistinct(s: System, id: nat, names: seq<string>, limit: nat, pool: set<string>)
    requires Distinct(s, pool) && Unambiguous(pool)
    requires IsActive(s, id) ==> s.res[id].nickname == ""
    requires forall i :: 0 <= i < |names| ==> names[i] in pool
    ensures Distinct(Apply(s, ReserveName(id, names), limit), pool)
  {
    var t := Apply(s, ReserveName(id, names), limit);
    if t != s {
      ChosenName(s.reg, names, pool);
      NameTaken(s, t, id, t.res[id].nickname, pool);
    }
  }

  /** A reservation takes a name of the current generation that nobody holds. */
  lemma NameTaken(s: System, t: System, id: nat, name: string, pool: set<string>)
    requires Distinct(s, pool) && Unambiguous(pool) && IsActive(s, id) && s.res[id].nickname == ""
    requires t.res == s.res[id := s.res[id].(nickname := name)] && t.reg.agents == s.reg.agents
    requires exists a :: a in pool && name == Format(a, t.reg.resets)
    requires t.reg.used == (if t.reg.resets == s.reg.resets then s.reg.used else {}) + {name}
    requires t.reg.resets == s.reg.resets ==> name !in s.reg.used
    requires s.reg.resets <= t.reg.resets <= s.reg.resets + 1
    ensures Distinct(t, pool)
  {
    FormatInjectiveIff(pool);
    assert NameOf(t, Slot(id)) == name;
    assert forall h | h != Slot(id) :: NameOf(t, h) == NameOf(s, h);
    forall h | h != Slot(id) && NameOf(s, h) != ""
      ensures Tracked(t.reg, pool, NameOf(s, h)) && NameOf(s, h) != name
    {
      assert Tracked(s.reg, pool, NameOf(s, h));
    }
  }

  lemma CommitDistinct(s: System, id: nat, m: Metadata, limit: nat, pool: set<string>)
    requires Consistent(s, limit) && Keyed(s.reg) && IsActive(s, id) && Distinct(s, pool)
    requires m.threadID != "" && m.threadID !in s.reg.paths && (m.path == "" || m.path == s.res[id].path)
    requires m.nickname == "" || m.nickname == s.res[id].nickname
    ensures Distinct(Apply(s, Commit(id, m), limit), pool)
  {
    var t := Apply(s, Commit(id, m), limit);
    var path := s.res[id].path;
    var key := if path == "" then ThreadKey(m.threadID) else path;
    FreshKey(s.reg, m.threadID);
    CommitEffect(s, t, id, key, m, limit);
    NameMoves(s, t, id, key, Filled(m, s.res[id]).(path := key), pool);
  }

  /** At a commit the name passes from the reservation to the agent. */
  lemma NameMoves(s: System, t: System, id: nat, key: string, m: Metadata, pool: set<string>)
    requires Distinct(s, pool) && IsActive(s, id) && !IsLive(s.reg, key)
    requires m.threadID != "" && m.nickname == s.res[id].nickname
    requires t.reg.agents == s.reg.agents[key := m] && t.reg.resets == s.reg.resets
    requires t.reg.used == if m.nickname != "" then s.reg.used + {m.nickname} else s.reg.used
    requires t.res == s.res[id := Reservation(false, "", "")]
    ensures Distinct(t, pool)
  {
    assert NameOf(t, Agent(key)) == NameOf(s, Slot(id)) && NameOf(t, Slot(id)) == "" && NameOf(s, Agent(key)) == "";
    forall h | h != Slot(id) && h != Agent(key) ensures NameOf(t, h) == NameOf(s, h) {}
    forall h | NameOf(t, h) != "" ensures Tracked(t.reg, pool, NameOf(t, h)) {
      var k := if h == Agent(key) then Slot(id) else h;
      assert NameOf(s, k) == NameOf(t, h) && Tracked(s.reg, pool, NameOf(s, k));
    }
  }

  lemma CancelDistinct(s: System, id: nat, limit: nat, pool: set<string>)
    requires Distinct(s, pool) && IsActive(s, id)
    ensures Distinct(Apply(s, CancelSlot(id), limit), pool)
  {
    var t := Apply(s, CancelSlot(id), limit);
    assert NameOf(s, Slot(id)) == s.res[id].nickname;
    forall h | NameOf(t, h) != "" ensures NameOf(t, h) == NameOf(s, h) && h != Slot(id) {}
    HoldersLeave(s, t, pool);
  }

  lemma ReleaseDistinct(s: System, threadID: string, limit: nat, pool: set<string>)
    requires Distinct(s, pool)
    ensures Distinct(Apply(s, ReleaseThread(threadID), limit), pool)
  {
    var t := Apply(s, ReleaseThread(threadID), limit);
    if threadID in s.reg.paths {
      var path := s.reg.paths[threadID];
      assert path in s.reg.agents ==> NameOf(s, Agent(path)) == s.reg.agents[path].nickname;
      forall h | NameOf(t, h) != "" ensures NameOf(t, h) == NameOf(s, h) {}
      HoldersLeave(s, t, pool);
    }
  }

  lemma OthersDistinct(s: System, call: Call, limit: nat, pool: set<string>)
    requires Distinct(s, pool) && Disciplined(s, call, pool)
    requires call.ReserveSlot? || call.ReserveAgentPath? || call.RegisterRootThread? || call.UpdateMessage?
    ensures Distinct(Apply(s, call, limit), pool)
  {
    var t := Apply(s, call, limit);
    assert t.reg.used == s.reg.used && t.reg.resets == s.reg.resets;
    forall h | NameOf(t, h) != "" ensures NameOf(t, h) == NameOf(s, h) {}
    HoldersLeave(s, t, pool);
  }

  lemma StepDistinct(s: System, call: Call, limit: nat, pool: set<string>)
    requires Consistent(s, limit) && Keyed(s.reg) && Distinct(s, pool) && Unambiguous(pool) && Disciplined(s, call, pool)
    ensures Distinct(Apply(s, call, limit), pool)
  {
    match call
    case ReserveName(id, names) => NameDistinct(s, id, names, limit, pool);
    case Commit(id, m) => if IsActive(s, id) { CommitDistinct(s, id, m, limit, pool); }
    case CancelSlot(id) => if IsActive(s, id) { CancelDistinct(s, id, limit, pool); }
    case ReleaseThread(threadID) => ReleaseDistinct(s, threadID, limit, pool);
    case _ => OthersDistinct(s, call, limit, pool);
  }

  // Runs

  function Run(s: System, calls: seq<Call>, limit: nat): System {
    if calls == [] then s else Apply(Run(s, calls[..|calls| - 1], limit), calls[|calls| - 1], limit)
  }

  ghost predicate DisciplinedRun(s: System, calls: seq<Call>, limit: nat, pool: set<string>) {
    calls != [] ==>
      && DisciplinedRun(s, calls[..|calls| - 1], limit, pool)
      && Disciplined(Run(s, calls[..|calls| - 1], limit), calls[|calls| - 1], pool)
  }

  const START := System(EMPTY_STATE, map[])

  /**
   After every disciplined run from an empty registry: the maps are inverse on live
   agents, the counter is the number of active reservations plus live spawned agents and
   within the limit, and all nicknames held are different, whatever the pool resets.
   */
  lemma {:induction false} RunsKeep(calls: seq<Call>, limit: nat, pool: set<string>)
    requires 0 < limit < UINT64 && Unambiguous(pool) && DisciplinedRun(START, calls, limit, pool)
    ensures var s := Run(START, calls, limit);
      Consistent(s, limit) && Keyed(s.reg) && Distinct(s, pool)
    decreases |calls|
  {
    if calls == [] {
      assert Actives(START) == {} && LiveSpawned(EMPTY_STATE) == {};
    } else {
      var front, call := calls[..|calls| - 1], calls[|calls| - 1];
      RunsKeep(front, limit, pool);
      var s := Run(START, front, limit);
      StepConsistent(s, call, limit, pool);
      StepKeyed(s, call, limit, pool);
      StepDistinct(s, call, limit, pool);
    }
  }

  // The condition on the pool is exact.

  /** One reservation keeps the name `a`; then `j` others, one after the other, take a name from `b` alone. */
  function ClashCalls(a: string, b: string, j: nat): seq<Call> {
    if j == 0 then [ReserveSlot(0), ReserveName(0, [a])]
    else ClashCalls(a, b, j - 1) + [ReserveSlot(j), ReserveName(j, [b])] + (if j == 1 then [] else [CancelSlot(j - 1)])
  }

  ghost predicate AfterClashCalls(s: System, a: string, b: string, j: nat) {
    && (forall i: nat :: i in s.res <==> i <= j)
    && IsActive(s, 0) && s.res[0].nickname == a && s.res[0].path == ""
    && if j == 0 then s.reg.total == 1 && s.reg.resets == 0 && s.reg.used == {a}
       else s.reg.total == 2 && s.reg.resets == j - 1 && Format(b, j - 1) in s.reg.used
            && IsActive(s, j) && s.res[j] == Reservation(true, Format(b, j - 1), "")
  }

  lemma OnlyName(r: State, b: string)
    ensures var (q, name) := ReserveNickname(r, [b], "").value;
      && q.total == r.total && name == Format(b, q.resets) && name in q.used
      && q.resets == (if Format(b, r.resets) in r.used then r.resets + 1 else r.resets)
      && (Format(b, r.resets) !in r.used ==> q.used == r.used + {name})
  {
    assert [b][..0] == [];
    assert Unused([b], r.resets, r.used) == if Format(b, r.resets) in r.used then [] else [Format(b, r.resets)];
  }

  /** A slot is reserved and takes a name from `b` alone. */
  lemma ClashTake(s: System, b: string, j: nat)
    requires s.reg.total < 3 && j + 1 !in s.res
    ensures var t := Apply(Apply(s, ReserveSlot(j + 1), 3), ReserveName(j + 1, [b]), 3);
      var taken := Format(b, s.reg.resets) in s.reg.used;
      && t.reg.total == s.reg.total + 1
      && t.reg.resets == (if taken then s.reg.resets + 1 else s.reg.resets)
      && t.res == s.res[j + 1 := Reservation(true, Format(b, t.reg.resets), "")]
      && Format(b, t.reg.resets) in t.reg.used
  {
    var u := Apply(s, ReserveSlot(j + 1), 3);
    assert u.reg == s.reg.(total := s.reg.total + 1) && u.res == s.res[j + 1 := Reservation(true, "", "")];
    OnlyName(u.reg, b);
  }

  lemma ClashStep(s: System, a: string, b: string, j: nat)
    requires AfterClashCalls(s, a, b, j) && a != b
    ensures var t := Apply(Apply(s, ReserveSlot(j + 1), 3), ReserveName(j + 1, [b]), 3);
      AfterClashCalls(if j == 0 then t else Apply(t, CancelSlot(j), 3), a, b, j + 1)
  {
    hide Format;
    FirstGeneration(b);
    ClashTake(s, b, j);
    if j > 0 {
      var t := Apply(Apply(s, ReserveSlot(j + 1), 3), ReserveName(j + 1, [b]), 3);
      ClashCancel(t, s.res[j].nickname, Format(b, j), j);
      if Format(b, j - 1) == Format(b, j) { FormatGenerations(b, j - 1, j); }
    }
  }

  lemma FirstGeneration(name: string)
    ensures Format(name, 0) == name
  {
  }

  lemma ClashCancel(t: System, dropped: string, name: string, j: nat)
    requires IsActive(t, j) && t.res[j] == Reservation(true, dropped, "") && t.reg.total > 0
    ensures var v := Apply(t, CancelSlot(j), 3);
      && v.res == t.res[j := t.res[j].(active := false)]
      && v.reg.total == t.reg.total - 1 && v.reg.resets == t.reg.resets
      && (name in t.reg.used && name != dropped ==> name in v.reg.used)
  {
  }

  lemma FormatGenerations(b: string, j: nat, k: nat)
    requires Format(b, j) == Format(b, k)
    ensures j == k
  {
    if j >= 1 && k >= 1 { SuffixInjective(b, j, b, k); }
  }

  lemma {:induction false} ClashRun(a: string, b: string, j: nat, pool: set<string>)
    requires a != b && a in pool && b in pool
    ensures DisciplinedRun(START, ClashCalls(a, b, j), 3, pool)
    ensures AfterClashCalls(Run(START, ClashCalls(a, b, j), 3), a, b, j)
    decreases j
  {
    if j == 0 {
      ClashStart(a, b, pool);
    } else {
      ClashRun(a, b, j - 1, pool);
      ClashStep(Run(START, ClashCalls(a, b, j - 1), 3), a, b, j - 1);
      ClashMore(a, b, j, pool);
    }
  }

  lemma ClashStart(a: string, b: string, pool: set<string>)
    requires a in pool
    ensures DisciplinedRun(START, ClashCalls(a, b, 0), 3, pool)
    ensures AfterClashCalls(Run(START, ClashCalls(a, b, 0), 3), a, b, 0)
  {
    RunTwo([], ReserveSlot(0), ReserveName(0, [a]), 3, pool);
    OnlyName(Apply(START, ReserveSlot(0), 3).reg, a);
    assert [] + [ReserveSlot(0), ReserveName(0, [a])] == ClashCalls(a, b, 0);
  }

  lemma ClashMore(a: string, b: string, j: nat, pool: set<string>)
    requires j > 0 && b in pool && DisciplinedRun(START, ClashCalls(a, b, j - 1), 3, pool)
    requires AfterClashCalls(Run(START, ClashCalls(a, b, j - 1), 3), a, b, j - 1)
    ensures DisciplinedRun(START, ClashCalls(a, b, j), 3, pool)
    ensures var t := Apply(Apply(Run(START, ClashCalls(a, b, j - 1), 3), ReserveSlot(j), 3), ReserveName(j, [b]), 3);
      Run(START, ClashCalls(a, b, j), 3) == if j == 1 then t else Apply(t, CancelSlot(j - 1), 3)
  {
    var front := ClashCalls(a, b, j - 1);
    RunTwo(front, ReserveSlot(j), ReserveName(j, [b]), 3, pool);
    var both := front + [ReserveSlot(j), ReserveName(j, [b])];
    if j == 1 {
      assert ClashCalls(a, b, j) == both;
    } else {
      RunOne(both, CancelSlot(j - 1), 3, pool);
    }
  }

  lemma RunOne(front: seq<Call>, c: Call, limit: nat, pool: set<string>)
    requires DisciplinedRun(START, front, limit, pool) && Disciplined(Run(START, front, limit), c, pool)
    ensures DisciplinedRun(START, front + [c], limit, pool)
    ensures Run(START, front + [c], limit) == Apply(Run(START, front, limit), c, limit)
  {
  }

  lemma RunTwo(front: seq<Call>, c: Call, d: Call, limit: nat, pool: set<string>)
    requires DisciplinedRun(START, front, limit, pool)
    requires Disciplined(Run(START, front, limit), c, pool)
    requires Disciplined(Apply(Run(START, front, limit), c, limit), d, pool)
    ensures DisciplinedRun(START, front + [c, d], limit, pool)
    ensures Run(START, front + [c, d], limit) == Apply(Apply(Run(START, front, limit), c, limit), d, limit)
  {
    RunOne(front, c, limit, pool);
    RunOne(front + [c], d, limit, pool);
    assert front + [c] + [d] == front + [c, d];
  }

  lemma AmbiguousClashes(pool: set<string>, a: string, b: string, k: nat)
    requires a in pool && b in pool && k >= 1 && a == Format(b, k)
    ensures DisciplinedRun(START, ClashCalls(a, b, k + 1), 3, pool)
    ensures var s := Run(START, ClashCalls(a, b, k + 1), 3);
      && a != "" && NameOf(s, Slot(0)) == NameOf(s, Slot(k + 1)) == a && !NamesDiffer(s)
  {
    hide ClashCalls, Run, DisciplinedRun, NamesDiffer;
    assert |a| > |b|;
    ClashRun(a, b, k + 1, pool);
    TwoHolders(Run(START, ClashCalls(a, b, k + 1), 3), a, b, k);
  }

  lemma TwoHolders(s: System, a: string, b: string, k: nat)
    requires AfterClashCalls(s, a, b, k + 1) && a == Format(b, k) && a != ""
    ensures NameOf(s, Slot(0)) == NameOf(s, Slot(k + 1)) == a && !NamesDiffer(s)
  {
  }

  /** Nicknames stay distinct through all disciplined runs exactly when the pool is unambiguous. */
  lemma DistinctIffUnambiguous(pool: set<string>)
    ensures Unambiguous(pool) <==>
      forall calls, limit: nat | 0 < limit < UINT64 && DisciplinedRun(START, calls, limit, pool) ::
        NamesDiffer(Run(START, calls, limit))
  {
    if Unambiguous(pool) {
      forall calls, limit: nat | 0 < limit < UINT64 && DisciplinedRun(START, calls, limit, pool)
        ensures NamesDiffer(Run(START, calls, limit))
      {
        RunsKeep(calls, limit, pool);
      }
    } else {
      var a, b, k: nat :| a in pool && b in pool && k >= 1 && a == Format(b, k);
      AmbiguousClashes(pool, a, b, k);
    }
  }
}
