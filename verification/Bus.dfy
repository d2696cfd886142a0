/** Several devices behind one panel: the channel locks and the round-robin of
    osdp_cp_refresh (osdp_cp.c). */
module Bus {
  import opened CpStateMachine

  /** A device as the panel sees it, the number of the channel it hangs on, and
      whether others hang there too. */
  datatype Port = Port(cp: Cp, channel: int, shared: bool)

  /** The lock of a port holds its channel's number while the port owns the channel,
      0 otherwise. */
  datatype Context = Context(ports: seq<Port>, lock: seq<int>, current: nat, numChannels: nat)

  // ----- Locks -----

  /** cp_channel_acquire, after the test whether the port owns the channel already. */
  function Acquire(lock: seq<int>, idx: nat, id: int): (seq<int>, bool)
    requires idx < |lock|
  {
    if lock[idx] == id then (lock, true)
    else if id in lock then (lock, false)
    else (lock[idx := id], true)
  }

  /** cp_channel_release */
  function Release(lock: seq<int>, idx: nat, id: int): (seq<int>, bool)
    requires idx < |lock|
  {
    if lock[idx] != id then (lock, false) else (lock[idx := 0], true)
  }

  // ----- One port, all ports -----

  datatype Turn = Turn(bus: Context, stop: bool)

  /** cp_refresh */
  function Refresh(b: Context, idx: nat, env: Env): Turn
    requires idx < |b.ports| == |b.lock|
  {
    var p := b.ports[idx];
    if !p.shared then
      Turn(b.(ports := b.ports[idx := p.(cp := Update(p.cp, env).0)]), false)
    else if !Acquire(b.lock, idx, p.channel).1 then
      Turn(b, false)
    else
      var lock := Acquire(b.lock, idx, p.channel).0;
      var (cp, rc) := Update(p.cp, env);
      var b' := b.(ports := b.ports[idx := p.(cp := cp)]);
      if rc == CanYield then Turn(b'.(lock := Release(lock, idx, p.channel).0), false)
      else Turn(b'.(lock := lock), b.numChannels == 1)
  }

  function After(idx: nat, n: nat): nat { if idx + 1 >= n then 0 else idx + 1 }

  /** osdp_cp_refresh: every port once, from the current one on, unless one port
      keeps the only channel. */
  function RefreshAll(b: Context, envs: seq<Env>): Context
    requires |b.ports| == |b.lock| && b.current < |b.ports|
    decreases |envs|
  {
    if envs == [] then b
    else
      var t := Refresh(b, b.current, envs[0]);
      if t.stop then t.bus
      else RefreshAll(t.bus.(current := After(b.current, |b.ports|)), envs[1..])
  }

  // ----- The invariant -----

  /** A port is marked as shared exactly when another one has its channel, and shared
      channels have numbers other than 0. */
  ghost predicate Wired(ports: seq<Port>) {
    && (forall i, j :: 0 <= i < |ports| && 0 <= j < |ports| && i != j && ports[i].channel == ports[j].channel ==>
          ports[i].shared && ports[j].shared)
    && (forall i :: 0 <= i < |ports| && ports[i].shared ==> ports[i].channel != 0)
  }

  /** A port on a shared channel owns it exactly while it waits for a reply. */
  ghost predicate LockExact(p: Port, lock: int) {
    lock == if p.shared && p.cp.phy == ReplyWait then p.channel else 0
  }

  /** No two ports own the same channel. */
  ghost predicate Exclusive(lock: seq<int>) {
    forall i, j :: 0 <= i < |lock| && 0 <= j < |lock| && i != j && lock[i] != 0 ==> lock[i] != lock[j]
  }

  ghost predicate Consistent(b: Context) {
    && |b.ports| == |b.lock| && b.current < |b.ports| && Wired(b.ports)
    && (forall i :: 0 <= i < |b.ports| ==> Safe(b.ports[i].cp) && LockExact(b.ports[i], b.lock[i]))
    && Exclusive(b.lock)
  }

  /** What is claimed of the devices themselves: on one channel at most one awaits a
      reply at any time. */
  ghost predicate OneSpeaker(ports: seq<Port>) {
    forall i, j :: 0 <= i < |ports| && 0 <= j < |ports| && i != j ==>
      !(ports[i].channel == ports[j].channel && ports[i].cp.phy == ReplyWait && ports[j].cp.phy == ReplyWait)
  }

  lemma ExclusiveMeansOneSpeaker(b: Context)
    requires Consistent(b)
    ensures OneSpeaker(b.ports)
  {
    hide Safe;
    forall i, j | 0 <= i < |b.ports| && 0 <= j < |b.ports| && i != j
      ensures !(b.ports[i].channel == b.ports[j].channel
                && b.ports[i].cp.phy == ReplyWait && b.ports[j].cp.phy == ReplyWait)
    {
      assert LockExact(b.ports[i], b.lock[i]) && LockExact(b.ports[j], b.lock[j]);
    }
  }

  // ----- What every call keeps -----

  lemma WiringStays(ports: seq<Port>, idx: nat, cp: Cp)
    requires Wired(ports) && idx < |ports|
    ensures Wired(ports[idx := ports[idx].(cp := cp)])
  {
  }

  lemma AcquireKeeps(lock: seq<int>, idx: nat, id: int)
    requires Exclusive(lock) && idx < |lock| && (lock[idx] == 0 || lock[idx] == id) && id != 0
    ensures var (lock', ok) := Acquire(lock, idx, id);
      && |lock'| == |lock| && Exclusive(lock')
      && (forall i :: 0 <= i < |lock| && i != idx ==> lock'[i] == lock[i])
      && (ok ==> lock'[idx] == id) && (lock[idx] == id ==> ok) && (!ok ==> lock' == lock)
  {
  }

  lemma ReleaseKeeps(lock: seq<int>, idx: nat)
    requires Exclusive(lock) && idx < |lock|
    ensures Exclusive(lock[idx := 0])
  {
  }

  /** The assertion in cp_channel_acquire holds: a port's entry is free or its own. */
  lemma EntryFreeOrOwn(b: Context, idx: nat)
    requires Consistent(b) && idx < |b.ports|
    ensures b.lock[idx] == 0 || b.lock[idx] == b.ports[idx].channel
    ensures !b.ports[idx].shared ==> b.lock[idx] == 0
  {
    assert LockExact(b.ports[idx], b.lock[idx]);
  }

  lemma EntryReplaced(b: Context, idx: nat, cp: Cp, lock: seq<int>)
    requires Consistent(b) && idx < |b.ports| && |lock| == |b.lock| && Exclusive(lock)
    requires forall i :: 0 <= i < |lock| && i != idx ==> lock[i] == b.lock[i]
    requires Safe(cp) && LockExact(b.ports[idx].(cp := cp), lock[idx])
    ensures Consistent(b.(ports := b.ports[idx := b.ports[idx].(cp := cp)], lock := lock))
  {
    hide Safe, Exclusive, Wired, LockExact;
    WiringStays(b.ports, idx, cp);
  }

  /** One port's turn: the locks stay exact, a lock that is given back was the port's
      own, and the round stops only while this port waits for its reply. */
  lemma RefreshKeeps(b: Context, idx: nat, env: Env)
    requires Consistent(b) && idx < |b.ports| && KnownQueue(env)
    ensures var t := Refresh(b, idx, env);
      && Consistent(t.bus) && t.bus.current == b.current && |t.bus.ports| == |b.ports|
      && t.bus.numChannels == b.numChannels
      && (t.stop ==> t.bus.ports[idx].cp.phy == ReplyWait && b.numChannels == 1)
      && |t.bus.lock| == |b.lock|
      && (forall i :: 0 <= i < |b.lock| && i != idx ==> t.bus.lock[i] == b.lock[i])
  {
    hide Safe, Update, Exclusive, Wired, Acquire;
    var p := b.ports[idx];
    EntryFreeOrOwn(b, idx);
    UpdateKeeps(p.cp, env);
    if !p.shared {
      EntryReplaced(b, idx, Update(p.cp, env).0, b.lock);
    } else {
      WiredChannel(b.ports, idx);
      AcquireKeeps(b.lock, idx, p.channel);
      var (lock, ok) := Acquire(b.lock, idx, p.channel);
      if ok {
        if Update(p.cp, env).1 == CanYield {
          ReleaseKeeps(lock, idx);
          EntryReplaced(b, idx, Update(p.cp, env).0, lock[idx := 0]);
        } else {
          EntryReplaced(b, idx, Update(p.cp, env).0, lock);
        }
      }
    }
  }

  lemma WiredChannel(ports: seq<Port>, idx: nat)
    requires Wired(ports) && idx < |ports| && ports[idx].shared
    ensures ports[idx].channel != 0
  {
  }

  lemma {:induction false} RefreshAllKeeps(b: Context, envs: seq<Env>)
    requires Consistent(b) && forall i :: 0 <= i < |envs| ==> KnownQueue(envs[i])
    ensures Consistent(RefreshAll(b, envs))
    decreases |envs|
  {
    hide Refresh, Consistent, KnownQueue;
    if envs != [] {
      CurrentInRange(b);
      RefreshKeeps(b, b.current, envs[0]);
      var t := Refresh(b, b.current, envs[0]);
      if !t.stop {
        Moved(t.bus, After(b.current, |b.ports|));
        RefreshAllKeeps(t.bus.(current := After(b.current, |b.ports|)), envs[1..]);
      }
    }
  }

  lemma CurrentInRange(b: Context)
    requires Consistent(b)
    ensures b.current < |b.ports| == |b.lock|
  {
  }

  lemma Moved(b: Context, current: nat)
    requires Consistent(b) && current < |b.ports|
    ensures Consistent(b.(current := current))
  {
  }

  /** Any number of calls of osdp_cp_refresh, each with its own replies and clock. */
  function RunAll(b: Context, calls: seq<seq<Env>>): Context
    requires |b.ports| == |b.lock| && b.current < |b.ports|
    decreases |calls|
  {
    if calls == [] then b
    else
      var b' := RefreshAll(b, calls[0]);
      if |b'.ports| == |b'.lock| && b'.current < |b'.ports| then RunAll(b', calls[1..]) else b'
  }

  /** In every state between calls: on one channel at most one device awaits a reply,
      every port holds its lock exactly then, and every device is in a safe state. */
  lemma {:induction false} MutualExclusion(b: Context, calls: seq<seq<Env>>)
    requires Consistent(b)
    requires forall k, i :: 0 <= k < |calls| && 0 <= i < |calls[k]| ==> KnownQueue(calls[k][i])
    ensures Consistent(RunAll(b, calls)) && OneSpeaker(RunAll(b, calls).ports)
    decreases |calls|
  {
    hide RefreshAll, KnownQueue, OneSpeaker, Consistent;
    CurrentInRange(b);
    if calls == [] {
      ExclusiveMeansOneSpeaker(b);
    } else {
      RefreshAllKeeps(b, calls[0]);
      CurrentInRange(RefreshAll(b, calls[0]));
      MutualExclusion(RefreshAll(b, calls[0]), calls[1..]);
    }
  }

  /** A context as osdp_cp_setup leaves it. */
  lemma SetupConsistent(b: Context)
    requires |b.ports| == |b.lock| && b.current < |b.ports| && Wired(b.ports)
    requires forall i :: 0 <= i < |b.ports| ==> b.lock[i] == 0 && Safe(b.ports[i].cp) && b.ports[i].cp.phy == Idle
    ensures Consistent(b)
  {
  }

  // ----- Whose turn it is -----

  /** Another device on the same channel awaits its reply. */
  ghost predicate Blocked(ports: seq<Port>, idx: nat)
    requires idx < |ports|
  {
    exists j :: 0 <= j < |ports| && j != idx && ports[j].channel == ports[idx].channel && ports[j].cp.phy == ReplyWait
  }

  lemma BlockedShared(b: Context, idx: nat)
    requires Consistent(b) && idx < |b.ports|
    ensures Blocked(b.ports, idx) <==> b.ports[idx].shared && !Acquire(b.lock, idx, b.ports[idx].channel).1
  {
    hide Safe;
    var id := b.ports[idx].channel;
    if Blocked(b.ports, idx) {
      var j :| 0 <= j < |b.ports| && j != idx && b.ports[j].channel == id && b.ports[j].cp.phy == ReplyWait;
      assert LockExact(b.ports[j], b.lock[j]) && b.lock[j] == id;
      assert b.lock[idx] != b.lock[j];
    }
    if b.ports[idx].shared && id in b.lock && b.lock[idx] != id {
      var j :| 0 <= j < |b.lock| && b.lock[j] == id;
      assert LockExact(b.ports[j], b.lock[j]);
      assert b.ports[j].channel == id && j != idx;
    }
  }

  /** A device has its turn exactly while no other on its channel awaits a reply; the turn is
      one call of its automaton, and no other device changes. The round stops exactly where a
      device with its turn on a shared channel, the only one, awaits its reply. */
  lemma TurnTaken(b: Context, idx: nat, env: Env)
    requires Consistent(b) && idx < |b.ports| && KnownQueue(env)
    ensures var p, t := b.ports[idx], Refresh(b, idx, env);
            var after := Update(p.cp, env).0;
      && t.bus.ports == (if Blocked(b.ports, idx) then b.ports else b.ports[idx := p.(cp := after)])
      && (t.stop <==> p.shared && !Blocked(b.ports, idx) && b.numChannels == 1 && after.phy == ReplyWait)
  {
    hide Safe, Update, Acquire, Consistent, Blocked;
    CurrentSafe(b, idx);
    BlockedShared(b, idx);
    UpdateKeeps(b.ports[idx].cp, env);
    TwoResults(b.ports[idx].cp, env);
    assert b.ports[idx := b.ports[idx]] == b.ports;
  }

  lemma CurrentSafe(b: Context, idx: nat)
    requires Consistent(b) && idx < |b.ports|
    ensures Safe(b.ports[idx].cp)
  {
  }

  lemma TwoResults(cp: Cp, env: Env)
    requires Safe(cp)
    ensures Update(cp, env).1 == InProg || Update(cp, env).1 == CanYield
  {
    hide Safe, ProcessReply, Settle, Advance, StateCommand;
  }

  /** A device that awaits its reply is never kept from its turn. */
  lemma WaitingNotBlocked(b: Context, idx: nat)
    requires Consistent(b) && idx < |b.ports| && b.ports[idx].cp.phy == ReplyWait
    ensures !Blocked(b.ports, idx)
  {
    hide Consistent;
    ExclusiveMeansOneSpeaker(b);
  }

  /** The device that is k places behind, round about. */
  function Behind(current: nat, k: nat, n: nat): nat {
    if current + k < n then current + k else current + k - n
  }

  /** Unless the round can stop, its turns are those of the current device and of those behind
      it, round about, each once; the next round begins where this one did. */
  lemma {:induction false} RoundOrder(b: Context, envs: seq<Env>, k: nat)
    requires Consistent(b) && b.numChannels != 1 && k < |envs| == |b.ports|
    requires forall i :: 0 <= i < |envs| ==> KnownQueue(envs[i])
    ensures var c := RefreshAll(b, envs[..k]);
      && Consistent(c) && |c.ports| == |b.ports| && c.current == Behind(b.current, k, |b.ports|)
      && RefreshAll(b, envs[..k + 1]) ==
           Refresh(c, c.current, envs[k]).bus.(current := Behind(b.current, k + 1, |b.ports|))
    ensures RefreshAll(b, envs).current == b.current
  {
    TurnsInOrder(b, envs, k);
    TurnsInOrder(b, envs, |envs| - 1);
    CurrentInRange(b);
    assert envs[..|envs|] == envs;
  }

  lemma {:induction false} TurnsInOrder(b: Context, envs: seq<Env>, k: nat)
    requires Consistent(b) && b.numChannels != 1 && k < |envs| && k < |b.ports|
    requires forall i :: 0 <= i < |envs| ==> KnownQueue(envs[i])
    ensures var c := RefreshAll(b, envs[..k]);
      && Consistent(c) && |c.ports| == |b.ports| && c.current == Behind(b.current, k, |b.ports|)
      && RefreshAll(b, envs[..k + 1]) ==
           Refresh(c, c.current, envs[k]).bus.(current := Behind(b.current, k + 1, |b.ports|))
    decreases k
  {
    hide Refresh, Consistent, KnownQueue;
    var n := |b.ports|;
    CurrentInRange(b);
    RefreshKeeps(b, b.current, envs[0]);
    var next := Refresh(b, b.current, envs[0]).bus.(current := After(b.current, n));
    assert envs[..k + 1][1..] == envs[1..][..k] && envs[..k + 1][0] == envs[0];
    if k == 0 {
      assert RefreshAll(next, []) == next;
    } else {
      Moved(Refresh(b, b.current, envs[0]).bus, After(b.current, n));
      TurnsInOrder(next, envs[1..], k - 1);
      assert envs[..k][1..] == envs[1..][..k - 1] && envs[..k][0] == envs[0];
    }
  }

  // ----- The same in place -----

  class Controller {
    var ports: seq<Port>
    const channelLock: array<int>
    var current: nat
    var numChannels: nat

    ghost function State(): Context
      reads this, channelLock
    {
      Context(ports, channelLock[..], current, numChannels)
    }

    constructor (ports: seq<Port>, numChannels: nat)
      ensures fresh(channelLock) && State() == Context(ports, seq(|ports|, _ => 0), 0, numChannels)
    {
      this.ports := ports;
      this.numChannels := numChannels;
      this.current := 0;
      channelLock := new int[|ports|](i => 0);
    }

    /** cp_channel_acquire: the port's own entry is free or already its own. */
    method AcquireChannel(idx: nat) returns (ok: bool)
      requires idx < |ports| == channelLock.Length
      requires channelLock[idx] == ports[idx].channel || channelLock[idx] == 0
      modifies channelLock
      ensures (channelLock[..], ok) == Acquire(old(channelLock[..]), idx, ports[idx].channel)
    {
      var id := ports[idx].channel;
      if channelLock[idx] == id {
        return true;
      }
      assert channelLock[idx] == 0;
      for i := 0 to |ports|
        invariant channelLock[..] == old(channelLock[..])
        invariant id !in channelLock[..i]
      {
        if channelLock[i] == id {
          assert id == channelLock[..][i];
          return false;
        }
      }
      assert channelLock[..] == channelLock[..|ports|];
      channelLock[idx] := id;
      return true;
    }

    /** cp_channel_release */
    method ReleaseChannel(idx: nat) returns (ok: bool)
      requires idx < |ports| == channelLock.Length
      modifies channelLock
      ensures (channelLock[..], ok) == Release(old(channelLock[..]), idx, ports[idx].channel)
    {
      if channelLock[idx] != ports[idx].channel {
        return false;
      }
      channelLock[idx] := 0;
      return true;
    }

    /** cp_refresh */
    method RefreshPort(idx: nat, env: Env) returns (stop: bool)
      requires Consistent(State()) && idx < |ports| && KnownQueue(env)
      modifies this`ports, channelLock
      ensures Turn(State(), stop) == Refresh(old(State()), idx, env)
      ensures Consistent(State())
    {
      hide Update, Consistent, Acquire, Release;
      CurrentInRange(State());
      RefreshKeeps(State(), idx, env);
      EntryFreeOrOwn(State(), idx);
      if ports[idx].shared {
        var ok := AcquireChannel(idx);
        if !ok {
          AcquireRefused(old(channelLock[..]), idx, ports[idx].channel);
          return false;
        }
      }
      var (cp, rc) := Update(ports[idx].cp, env);
      ports := ports[idx := ports[idx].(cp := cp)];
      if ports[idx].shared {
        if rc == CanYield {
          var _ := ReleaseChannel(idx);
        } else if numChannels == 1 {
          return true;
        }
      }
      return false;
    }

    /** osdp_cp_refresh */
    method RefreshAllPorts(envs: seq<Env>)
      requires Consistent(State()) && |envs| == |ports|
      requires forall i :: 0 <= i < |envs| ==> KnownQueue(envs[i])
      modifies this`ports, this`current, channelLock
      ensures State() == RefreshAll(old(State()), envs) && Consistent(State())
    {
      hide Refresh, Consistent, KnownQueue;
      CurrentInRange(State());
      var count := 0;
      assert envs[0..] == envs;
      while count < |envs|
        invariant 0 <= count <= |envs| && Consistent(State()) && current < |ports| == channelLock.Length
        invariant RefreshAll(State(), envs[count..]) == RefreshAll(old(State()), envs)
      {
        assert envs[count..][0] == envs[count] && envs[count..][1..] == envs[count + 1..];
        RefreshKeeps(State(), current, envs[count]);
        var stop := RefreshPort(current, envs[count]);
        CurrentInRange(State());
        if stop {
          break;
        }
        var next := current + 1;
        if next >= |ports| {
          next := 0;
        }
        Moved(State(), next);
        current := next;
        count := count + 1;
      }
    }
  }

  lemma AcquireRefused(lock: seq<int>, idx: nat, id: int)
    requires idx < |lock|
    ensures !Acquire(lock, idx, id).1 ==> Acquire(lock, idx, id).0 == lock
  {
  }
}
