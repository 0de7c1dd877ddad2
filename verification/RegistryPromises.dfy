/**
 What one call on the spawn registry does (agent/registry.go), written out in terms of
 its two maps, the used nicknames and the count: what is entered and removed, and what
 stays as it was.
 */
module RegistryPromises {
  import opened Common
  import opened Nicknames
  import opened RegistryState

  /** The maps agree everywhere but possibly at one key. */
  ghost predicate SameBut<V(!new)>(a: map<string, V>, b: map<string, V>, key: string) {
    forall k | k != key :: (k in a <==> k in b) && (k in a ==> a[k] == b[k])
  }

  /** A slot is granted iff there is no limit or the count is below it. */
  lemma SlotGranted(r: State, maxThreads: int)
    requires r.total <= 0xFFFF_FFFF_FFFF_FFFF
    ensures var granted := Increment(r, maxThreads);
      && (granted.Some? <==> maxThreads <= 0 || r.total < maxThreads)
      && (granted.Some? ==> granted.value == r.(total := if r.total == 0xFFFF_FFFF_FFFF_FFFF then 0 else r.total + 1))
  {
  }

  /** The root agent is entered once, under `/root`, and its thread leads to it. */
  lemma RootRegistered(r: State, threadID: string)
    ensures var s := RegisterRoot(r, threadID);
      && "/root" in s.agents && SameBut(s.agents, r.agents, "/root") && s == r.(agents := s.agents, paths := s.paths)
      && s.agents["/root"] == (if "/root" in r.agents then r.agents["/root"] else Metadata(threadID, "/root", "", "", ""))
      && var root := s.agents["/root"].threadID;
         SameBut(s.paths, r.paths, root) && (if root != "" then root in s.paths && s.paths[root] == "/root" else s.paths == r.paths)
  {
  }

  /** The agent that a release of this thread ends. */
  predicate Ends(r: State, threadID: string) {
    threadID in r.paths && r.paths[threadID] in r.agents && r.agents[r.paths[threadID]].threadID == threadID
  }

  /**
   A release forgets the thread. If a live agent was registered for it, the agent and its
   nickname go as well, and the count falls by one unless it was the root.
   */
  lemma ThreadReleased(r: State, threadID: string)
    ensures var s := Release(r, threadID);
      && threadID !in s.paths && SameBut(s.paths, r.paths, threadID) && s.resets == r.resets && s.next == r.next
      && (!Ends(r, threadID) ==> s == r.(paths := s.paths))
      && (Ends(r, threadID) ==>
            var path := r.paths[threadID];
            && path !in s.agents && SameBut(s.agents, r.agents, path)
            && s.used == (if r.agents[path].nickname == "" then r.used else r.used - {r.agents[path].nickname})
            && s.total == (if path == "/root" || r.total == 0 then r.total else r.total - 1))
  {
  }

  /**
   A registration enters the agent as given under its path, or under `thread:` and its
   thread id, and leads the thread there. The path it had before and the thread that held
   the key before are forgotten; nothing else changes.
   */
  lemma ThreadRegistered(r: State, m: Metadata)
    requires m.threadID != ""
    ensures var s := RegisterSpawned(r, m);
      var key := if m.path == "" then "thread:" + m.threadID else m.path;
      var moved := if m.threadID in r.paths then {r.paths[m.threadID]} - {key} else {};
      && s == r.(agents := s.agents, paths := s.paths, used := s.used)
      && key in s.agents && s.agents[key] == Metadata(m.threadID, key, m.nickname, m.role, m.lastTaskMessage)
      && m.threadID in s.paths && s.paths[m.threadID] == key
      && s.used == (if m.nickname == "" then r.used else r.used + {m.nickname})
      && (forall p | p != key :: p in s.agents <==> p in r.agents && p !in moved)
      && (forall p | p != key && p in s.agents :: s.agents[p] == r.agents[p])
      && (forall t | t != m.threadID ::
            t in s.paths <==> t in r.paths && !(t != "" && key in r.agents && r.agents[key].threadID == t))
      && (forall t | t != m.threadID && t in s.paths :: s.paths[t] == r.paths[t])
  {
  }

  /** Without a thread id nothing is registered. */
  lemma NoThreadNoAgent(r: State, m: Metadata)
    requires m.threadID == ""
    ensures RegisterSpawned(r, m) == r
  {
  }

  /** Only the last task message of the live agent of the thread changes. */
  lemma MessageUpdated(r: State, threadID: string, message: string)
    ensures var s := UpdateLastTask(r, threadID, message);
      && s == r.(agents := s.agents) && s.agents.Keys == r.agents.Keys
      && forall p | p in r.agents ::
           s.agents[p] == if Ends(r, threadID) && p == r.paths[threadID] then r.agents[p].(lastTaskMessage := message) else r.agents[p]
  {
  }

  // Nicknames

  /** Exactly the positions of names that are free in this generation, in order. */
  ghost predicate ListsFree(names: seq<string>, resets: nat, used: set<string>, free: seq<nat>) {
    && (forall i, j :: 0 <= i < j < |free| ==> free[i] < free[j])
    && forall i: nat :: i in free <==> i < |names| && Format(names[i], resets) !in used
  }

  lemma {:induction false} UnusedPositions(names: seq<string>, resets: nat, used: set<string>) returns (free: seq<nat>)
    ensures ListsFree(names, resets, used, free) && |free| == |Unused(names, resets, used)|
    ensures forall k :: 0 <= k < |free| ==> free[k] < |names| && Unused(names, resets, used)[k] == Format(names[free[k]], resets)
  {
    hide Format, ListsFree;
    if names == [] {
      free := [];
      NoneFree(resets, used);
    } else {
      var n := |names| - 1;
      var front := UnusedPositions(names[..n], resets, used);
      free := if Format(names[n], resets) in used then front else front + [n];
      FreeStep(names, resets, used, front);
    }
  }

  lemma NoneFree(resets: nat, used: set<string>)
    ensures ListsFree([], resets, used, [])
  {
  }

  lemma FreeStep(names: seq<string>, resets: nat, used: set<string>, front: seq<nat>)
    requires names != [] && ListsFree(names[..|names| - 1], resets, used, front)
    ensures var n := |names| - 1;
      ListsFree(names, resets, used, if Format(names[n], resets) in used then front else front + [n])
  {
    hide Format;
    var n := |names| - 1;
    var free := if Format(names[n], resets) in used then front else front + [n];
    forall i: nat ensures i in free <==> i < |names| && Format(names[i], resets) !in used {
      assert i < n ==> names[..n][i] == names[i];
      assert i in front <==> i < n && Format(names[..n][i], resets) !in used;
    }
    forall k | 0 <= k < |front| ensures front[k] < n { assert front[k] in front; }
  }

  /**
   A reserved nickname is the preferred one, else a free name of the pool in the current
   generation, the next in turn; when none is free a new generation starts, with every
   name free again. Without names there is none.
   */
  lemma NicknameReserved(r: State, names: seq<string>, preferred: string)
    ensures var reserved := ReserveNickname(r, names, preferred);
      if preferred != "" then reserved == Some((r.(used := r.used + {preferred}), preferred))
      else if names == [] then reserved == None
      else reserved.Some? && exists free :: TakesTurn(r, names, free, reserved.value.0, reserved.value.1)
  {
    if preferred == "" && names != [] {
      var free := UnusedPositions(names, r.resets, r.used);
      var reserved := ReserveNickname(r, names, preferred).value;
      assert TakesTurn(r, names, free, reserved.0, reserved.1);
    }
  }

  /** The nickname taken, given the positions of the free names. */
  ghost predicate TakesTurn(r: State, names: seq<string>, free: seq<nat>, s: State, nickname: string) {
    && names != [] && ListsFree(names, r.resets, r.used, free)
    && s == r.(used := s.used, resets := s.resets, next := (r.next + 1) % 0x1_0000_0000_0000_0000)
    && (if free == [] then
          nickname == Format(names[r.next % |names|], r.resets + 1) && s.used == {nickname} && s.resets == r.resets + 1
        else
          && free[r.next % |free|] < |names| && nickname == Format(names[free[r.next % |free|]], r.resets)
          && nickname !in r.used && s.used == r.used + {nickname} && s.resets == r.resets)
  }

  // Reservations

  /** A path is reserved iff nothing is registered there; the placeholder has no thread. */
  lemma PathReserved(r: State, path: string)
    ensures var reserved := ReservePath(r, path);
      && (reserved.Some? <==> path == "" || path !in r.agents)
      && (reserved.Some? && path == "" ==> reserved.value == r)
      && (reserved.Some? && path != "" ==>
            && reserved.value == r.(agents := reserved.value.agents) && SameBut(reserved.value.agents, r.agents, path)
            && path in reserved.value.agents && reserved.value.agents[path] == Metadata("", path, "", "", ""))
  {
  }

  /** A cancellation frees the nickname and the placeholder, if it is one still, and returns the slot. */
  lemma SlotCancelled(r: State, v: Reservation)
    ensures var s := Cancel(r, v);
      var freed := v.path != "" && v.path in r.agents && r.agents[v.path].threadID == "";
      && s == r.(agents := s.agents, used := s.used, total := s.total)
      && s.used == (if v.nickname == "" then r.used else r.used - {v.nickname})
      && SameBut(s.agents, r.agents, v.path) && s.total == (if r.total == 0 then 0 else r.total - 1)
      && (if freed then v.path !in s.agents else s.agents == r.agents)
  {
  }

  /** A commit registers what is given, and what was reserved where nothing is given. */
  lemma CommitFills(m: Metadata, v: Reservation)
    ensures var f := Filled(m, v);
      && f.threadID == m.threadID && f.role == m.role && f.lastTaskMessage == m.lastTaskMessage
      && (m.nickname != "" ==> f.nickname == m.nickname) && (m.nickname == "" ==> f.nickname == v.nickname)
      && (m.path != "" ==> f.path == m.path) && (m.path == "" ==> f.path == v.path)
  {
  }
}
