/**
 The spawn registry and its reservations as objects (agent/registry.go). Every method
 does to the fields what module RegistryState says it does to the value.
 */
module Registry {
  import opened Common
  import opened Nicknames
  import opened RegistryState

  datatype SpawnError = LimitReached | PathExists | NoNicknames | Inactive

  /** The first candidate loop of a nickname reservation. */
  method CollectUnused(names: seq<string>, resets: nat, used: set<string>) returns (candidates: seq<string>)
    ensures candidates == Unused(names, resets, used)
  {
    candidates := [];
    for i := 0 to |names|
      invariant candidates == Unused(names[..i], resets, used)
    {
      assert names[..i + 1][..i] == names[..i];
      var formatted := Format(names[i], resets);
      if formatted !in used {
        candidates := candidates + [formatted];
      }
    }
    assert names[..|names|] == names;
  }

  /** The candidate loop after a pool reset. */
  method CollectAll(names: seq<string>, resets: nat) returns (candidates: seq<string>)
    ensures candidates == AllFormatted(names, resets)
  {
    candidates := [];
    for i := 0 to |names|
      invariant candidates == AllFormatted(names, resets)[..i]
    {
      candidates := candidates + [Format(names[i], resets)];
    }
  }

  class AgentRegistry {
    var agentsByPath: map<string, Metadata>
    var pathByThread: map<string, string>
    var usedNicknames: set<string>
    var nicknameResetCount: nat
    var totalCount: nat
    var chooserNext: nat

    ghost function View(): State
      reads this
    {
      State(agentsByPath, pathByThread, usedNicknames, nicknameResetCount, totalCount, chooserNext)
    }

    constructor ()
      ensures View() == EMPTY_STATE
    {
      agentsByPath, pathByThread, usedNicknames := map[], map[], {};
      nicknameResetCount, totalCount, chooserNext := 0, 0, 0;
    }

    method TryIncrementSpawned(maxThreads: int) returns (ok: bool)
      requires maxThreads > 0
      modifies `totalCount
      ensures ok == Increment(old(View()), maxThreads).Some?
      ensures View() == if ok then Increment(old(View()), maxThreads).value else old(View())
    {
      var current := totalCount;
      if current >= maxThreads {
        return false;
      }
      totalCount := (current + 1) % UINT64;
      return true;
    }

    method ReserveSpawnSlot(maxThreads: int) returns (r: Result<SpawnReservation, SpawnError>)
      modifies `totalCount
      ensures r.Ok? <==> Increment(old(View()), maxThreads).Some?
      ensures r.Ok? ==> fresh(r.value) && r.value.registry == this && r.value.View() == Reservation(true, "", "")
      ensures r.Ok? ==> View() == Increment(old(View()), maxThreads).value
      ensures r.Err? ==> r.error == LimitReached && View() == old(View())
    {
      if maxThreads > 0 {
        var ok := TryIncrementSpawned(maxThreads);
        if !ok {
          return Err(LimitReached);
        }
      } else {
        totalCount := (totalCount + 1) % UINT64;
      }
      var reservation := new SpawnReservation(this);
      return Ok(reservation);
    }

    method RegisterRootThread(threadID: string)
      modifies this
      ensures View() == RegisterRoot(old(View()), threadID)
    {
      if ROOT_PATH in agentsByPath {
        var existing := agentsByPath[ROOT_PATH];
        if existing.threadID != "" {
          pathByThread := pathByThread[existing.threadID := ROOT_PATH];
        }
        return;
      }
      agentsByPath := agentsByPath[ROOT_PATH := Metadata(threadID, ROOT_PATH, "", "", "")];
      if threadID != "" {
        pathByThread := pathByThread[threadID := ROOT_PATH];
      }
    }

    method DecrementSpawned()
      modifies `totalCount
      ensures View() == Decrement(old(View()))
    {
      if totalCount != 0 {
        totalCount := totalCount - 1;
      }
    }

    method ReleaseSpawnedThread(threadID: string)
      modifies this
      ensures View() == Release(old(View()), threadID)
    {
      if threadID !in pathByThread {
        return;
      }
      var path := pathByThread[threadID];
      pathByThread := pathByThread - {threadID};
      if path !in agentsByPath || agentsByPath[path].threadID != threadID {
        return;
      }
      var metadata := agentsByPath[path];
      agentsByPath := agentsByPath - {path};
      if metadata.nickname != "" {
        usedNicknames := usedNicknames - {metadata.nickname};
      }
      if path != ROOT_PATH {
        DecrementSpawned();
      }
    }

    method RegisterSpawnedThread(metadata: Metadata)
      modifies this
      ensures View() == RegisterSpawned(old(View()), metadata)
    {
      if metadata.threadID == "" {
        return;
      }
      var key := metadata.path;
      if key == "" {
        key := ThreadKey(metadata.threadID);
      }
      if metadata.nickname != "" {
        usedNicknames := usedNicknames + {metadata.nickname};
      }
      if metadata.threadID in pathByThread && pathByThread[metadata.threadID] != key {
        agentsByPath := agentsByPath - {pathByThread[metadata.threadID]};
      }
      if key in agentsByPath && agentsByPath[key].threadID != "" && agentsByPath[key].threadID != metadata.threadID {
        pathByThread := pathByThread - {agentsByPath[key].threadID};
      }
      agentsByPath := agentsByPath[key := metadata.(path := key)];
      pathByThread := pathByThread[metadata.threadID := key];
      assert old(pathByThread) - {} == old(pathByThread);
    }

    method UpdateLastTaskMessage(threadID: string, message: string)
      modifies `agentsByPath
      ensures View() == UpdateLastTask(old(View()), threadID, message)
    {
      if threadID !in pathByThread {
        return;
      }
      var path := pathByThread[threadID];
      if path !in agentsByPath || agentsByPath[path].threadID != threadID {
        return;
      }
      agentsByPath := agentsByPath[path := agentsByPath[path].(lastTaskMessage := message)];
    }

    method ReserveAgentNickname(names: seq<string>, preferred: string) returns (r: Option<string>)
      modifies this
      ensures var spec := ReserveNickname(old(View()), names, preferred);
        if spec.None? then r == None && View() == old(View())
        else r == Some(spec.value.1) && View() == spec.value.0
    {
      var nickname := preferred;
      if nickname == "" {
        if names == [] {
          return None;
        }
        var candidates := CollectUnused(names, nicknameResetCount, usedNicknames);
        if candidates == [] {
          usedNicknames := {};
          nicknameResetCount := nicknameResetCount + 1;
          candidates := CollectAll(names, nicknameResetCount);
        }
        nickname := Choose(candidates, chooserNext);
        chooserNext := (chooserNext + 1) % UINT64;
      }
      usedNicknames := usedNicknames + {nickname};
      return Some(nickname);
    }

    method ReserveAgentPath(path: string) returns (ok: bool)
      modifies `agentsByPath
      ensures ok == ReservePath(old(View()), path).Some?
      ensures View() == if ok then ReservePath(old(View()), path).value else old(View())
    {
      if path == "" {
        return true;
      }
      if path in agentsByPath {
        return false;
      }
      agentsByPath := agentsByPath[path := Metadata("", path, "", "", "")];
      return true;
    }

    method ReleaseReservedAgentPath(path: string)
      modifies `agentsByPath
      ensures View() == ReleasePath(old(View()), path)
    {
      if path == "" {
        return;
      }
      if path in agentsByPath && agentsByPath[path].threadID == "" {
        agentsByPath := agentsByPath - {path};
      }
    }

    /** The two lookups; by `Inverse`, they undo each other on live agents. */
    method AgentIDForPath(path: string) returns (r: Option<string>)
      ensures r == if IsLive(View(), path) then Some(agentsByPath[path].threadID) else None
      ensures Inverse(View()) && r.Some? ==> r.value in pathByThread && pathByThread[r.value] == path
    {
      if path in agentsByPath && agentsByPath[path].threadID != "" {
        return Some(agentsByPath[path].threadID);
      }
      return None;
    }

    method MetadataForThread(threadID: string) returns (r: Option<Metadata>)
      ensures Inverse(View()) ==> (r.Some? <==> threadID in pathByThread)
      ensures r.Some? ==> r.value.threadID == threadID && threadID in pathByThread
      ensures r.Some? ==> pathByThread[threadID] in agentsByPath && r.value == agentsByPath[pathByThread[threadID]]
    {
      if threadID !in pathByThread {
        return None;
      }
      var path := pathByThread[threadID];
      if path in agentsByPath && agentsByPath[path].threadID == threadID {
        return Some(agentsByPath[path]);
      }
      return None;
    }
  }

  class SpawnReservation {
    const registry: AgentRegistry
    var active: bool
    var reservedNickname: string
    var reservedPath: string

    ghost function View(): Reservation
      reads this
    {
      Reservation(active, reservedNickname, reservedPath)
    }

    constructor (r: AgentRegistry)
      ensures registry == r && View() == Reservation(true, "", "")
    {
      registry := r;
      active, reservedNickname, reservedPath := true, "", "";
    }

    method ReserveAgentNickname(names: seq<string>, preferred: string) returns (r: Result<string, SpawnError>)
      modifies this, registry
      ensures var spec := ReserveNickname(old(registry.View()), names, preferred);
        if !old(active) || spec.None? then
          r == Err(if old(active) then NoNicknames else Inactive)
          && View() == old(View()) && registry.View() == old(registry.View())
        else
          r == Ok(spec.value.1)
          && View() == old(View()).(nickname := spec.value.1) && registry.View() == spec.value.0
    {
      if !active {
        return Err(Inactive);
      }
      var nickname := registry.ReserveAgentNickname(names, preferred);
      if nickname == None {
        return Err(NoNicknames);
      }
      reservedNickname := nickname.value;
      return Ok(nickname.value);
    }

    method ReserveAgentPath(path: string) returns (error: Option<SpawnError>)
      modifies this, registry
      ensures var spec := ReservePath(old(registry.View()), path);
        if !old(active) || spec.None? then
          error == Some(if old(active) then PathExists else Inactive)
          && View() == old(View()) && registry.View() == old(registry.View())
        else
          error == None && View() == old(View()).(path := path) && registry.View() == spec.value
    {
      if !active {
        return Some(Inactive);
      }
      var ok := registry.ReserveAgentPath(path);
      if !ok {
        return Some(PathExists);
      }
      reservedPath := path;
      return None;
    }

    method Commit(metadata: Metadata)
      modifies this, registry
      ensures if !old(active) then View() == old(View()) && registry.View() == old(registry.View())
        else View() == Reservation(false, "", "")
             && registry.View() == RegisterSpawned(old(registry.View()), Filled(metadata, old(View())))
    {
      if !active {
        return;
      }
      var filled := metadata;
      if filled.nickname == "" {
        filled := filled.(nickname := reservedNickname);
      }
      if filled.path == "" {
        filled := filled.(path := reservedPath);
      }
      registry.RegisterSpawnedThread(filled);
      active := false;
      reservedPath := "";
      reservedNickname := "";
    }

    method CancelReservation()
      modifies this, registry
      ensures if !old(active) then View() == old(View()) && registry.View() == old(registry.View())
        else View() == old(View()).(active := false)
             && registry.View() == Cancel(old(registry.View()), old(View()))
    {
      if !active {
        return;
      }
      if reservedNickname != "" {
        registry.usedNicknames := registry.usedNicknames - {reservedNickname};
      }
      if reservedPath != "" {
        registry.ReleaseReservedAgentPath(reservedPath);
      }
      registry.DecrementSpawned();
      active := false;
    }
  }
}
