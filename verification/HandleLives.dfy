/** Whole lives of threads: what a connect, a disconnect and a worker do from the
    moment they are started, and that each is over after a bounded number of steps. */
module HandleLives {
  import opened Basics
  import opened HandleProtocol
  import opened HandleSafety
  import opened HandleLiveness
  import opened Connection

  /** Steps a thread still takes before it is done. */
  function LifeLeft(th: Thread): nat {
    match th.pc
    case Ready => (match th.kind case Connect(_) => 12 case Disconnect => 5 case Worker(_, calls) => calls + 2)
    case Preparing(_) => 11
    case Prepared(_) => 10
    case _ => StepsLeft(th)
  }

  lemma OwnStepShortensLife(s: State, l: Label)
    requires Inv(s) && Enabled(s, l) && !l.Spawn?
    ensures LifeLeft(Apply(s, l).threads[l.t]) < LifeLeft(s.threads[l.t])
  {
    assert ThreadOk(s, l.t);
  }

  /** However the others interleave, every step of a thread brings its end closer, from
      its start on: opening and binding included, nothing is repeated forever. */
  lemma {:induction false} LifeIsBounded(s: State, ls: seq<Label>, t: Tid)
    requires Inv(s) && Legal(s, ls) && t in s.threads
    ensures t in After(s, ls).threads
    ensures StepsOf(ls, t) + LifeLeft(After(s, ls).threads[t]) <= LifeLeft(s.threads[t])
    decreases |ls|
  {
    if ls != [] {
      StepKeeps(s, ls[0]);
      OthersStay(s, ls[0]);
      if ls[0].t == t {
        OwnStepShortensLife(s, ls[0]);
      }
      LifeIsBounded(Apply(s, ls[0]), ls[1..], t);
    }
  }

  lemma Then(s: State, l: Label, ls: seq<Label>)
    requires Enabled(s, l) && Legal(Apply(s, l), ls)
    ensures Legal(s, [l] + ls) && After(s, [l] + ls) == After(Apply(s, l), ls)
  {
    assert ([l] + ls)[1..] == ls;
  }

  // ---- Connecting ------------------------------------------------------------------

  /** The rest of a connect whose handle is open: bind, lock, swap, unlock. */
  function Bound(t: Tid): seq<Label> {
    [BindSucceeds(t)] + ([Lock(t)] + Solo(t, 8))
  }

  /** From any reachable state with the mutex free, a connect that binds and then runs
      alone ends with its own handle installed, marked connected and described by its own
      profile, after unbinding the handle installed before, if any. */
  lemma ConnectInstalls(before: seq<Label>, t: Tid)
    requires Legal(Initial, before)
    requires var s := After(Initial, before); s.conn.mutex == None && t in s.threads && s.threads[t].pc.Preparing?
    ensures var s := After(Initial, before);
            Legal(s, Bound(t)) && s.threads[t].kind.Connect? &&
            var s' := After(s, Bound(t));
            && s'.conn.mutex == None && s'.conn.ld == Some(s.threads[t].pc.own) && s'.conn.connected
            && BelongsTo(s'.conn, s.threads[t].kind.target)
            && s'.unbound == s.unbound + (if s.conn.ld.Some? then [s.conn.ld.value] else [])
            && t in s'.threads && s'.threads[t].pc == Done
  {
    RunKeeps(Initial, before);
    BoundInstalls(After(Initial, before), t);
  }

  lemma BoundInstalls(s: State, t: Tid)
    requires s.conn.mutex == None && t in s.threads && s.threads[t].pc.Preparing? && ThreadOk(s, t)
    ensures Legal(s, Bound(t))
    ensures var s' := After(s, Bound(t));
            var p := s.threads[t].kind.target;
            && s'.conn == Conn(None, Some(s.threads[t].pc.own), true, Some(p.host), p.port, Some(p.baseDn), Some(p))
            && s'.unbound == s.unbound + (if s.conn.ld.Some? then [s.conn.ld.value] else [])
            && t in s'.threads && s'.threads[t].pc == Done
  {
    var s1 := Apply(s, BindSucceeds(t));
    InstallIsSoloRun(s1, t);
    Then(s, BindSucceeds(t), [Lock(t)] + Solo(t, 8));
  }

  function WholeConnect(t: Tid, p: Profile, h: Handle): seq<Label> {
    [Spawn(t, Connect(p))] + ([InitSucceeds(t, h)] + Bound(t))
  }

  /** A connect from its start to its end, in any state with the mutex free. */
  lemma ConnectFromStart(s: State, t: Tid, p: Profile, h: Handle)
    requires s.conn.mutex == None && t !in s.threads && h !in s.openedBy
    ensures var ls := WholeConnect(t, p, h);
            && Legal(s, ls)
            && After(s, ls).conn == Conn(None, Some(h), true, Some(p.host), p.port, Some(p.baseDn), Some(p))
            && After(s, ls).unbound == s.unbound + (if s.conn.ld.Some? then [s.conn.ld.value] else [])
            && t in After(s, ls).threads && After(s, ls).threads[t].pc == Done
  {
    var s1 := Apply(s, Spawn(t, Connect(p)));
    var s2 := Apply(s1, InitSucceeds(t, h));
    assert ThreadOk(s2, t);
    BoundInstalls(s2, t);
    Then(s1, InitSucceeds(t, h), Bound(t));
    Then(s, Spawn(t, Connect(p)), [InitSucceeds(t, h)] + Bound(t));
  }

  /** A connect that fails never touches the connection; the handle it opened, if it got
      that far, is unbound. */
  lemma FailedConnects(s: State, t: Tid, p: Profile, h: Handle)
    requires t !in s.threads && h !in s.openedBy
    ensures var early, late := [Spawn(t, Connect(p))] + ([InitFails(t)] + []),
                               [Spawn(t, Connect(p))] + ([InitSucceeds(t, h)] + ([BindFails(t)] + []));
            && Legal(s, early) && After(s, early).conn == s.conn && After(s, early).unbound == s.unbound
            && After(s, early).threads == s.threads[t := Thread(Connect(p), Done, false)]
            && Legal(s, late) && After(s, late).conn == s.conn && After(s, late).unbound == s.unbound + [h]
            && After(s, late).threads == s.threads[t := Thread(Connect(p), Done, false)]
  {
    var s1 := Apply(s, Spawn(t, Connect(p)));
    Then(s1, InitFails(t), []);
    Then(s, Spawn(t, Connect(p)), [InitFails(t)] + []);
    var s2 := Apply(s1, InitSucceeds(t, h));
    Then(s2, BindFails(t), []);
    Then(s1, InitSucceeds(t, h), [BindFails(t)] + []);
    Then(s, Spawn(t, Connect(p)), [InitSucceeds(t, h)] + ([BindFails(t)] + []));
  }

  // ---- Disconnecting and working ---------------------------------------------------------

  function WholeDisconnect(t: Tid, installed: bool): seq<Label> {
    [Spawn(t, Disconnect)] + ([Lock(t)] + Solo(t, if installed then 3 else 2))
  }

  lemma DisconnectFromStart(s: State, t: Tid)
    requires s.conn.mutex == None && t !in s.threads
    ensures var ls := WholeDisconnect(t, s.conn.ld.Some?);
            && Legal(s, ls)
            && After(s, ls).conn == s.conn.(ld := None, connected := false)
            && After(s, ls).unbound == s.unbound + (if s.conn.ld.Some? then [s.conn.ld.value] else [])
            && t in After(s, ls).threads && After(s, ls).threads[t].pc == Done
  {
    var s1 := Apply(s, Spawn(t, Disconnect));
    DisconnectIsSoloRun(s1, t);
    Then(s, Spawn(t, Disconnect), [Lock(t)] + Solo(t, if s.conn.ld.Some? then 3 else 2));
  }

  /** `n` calls on the handle and the return. */
  function Calls(t: Tid, n: nat): seq<Label> {
    if n == 0 then [Leave(t)] else [Use(t)] + Calls(t, n - 1)
  }

  lemma {:induction false} CallsThenLeave(s: State, t: Tid, n: nat)
    requires t in s.threads && s.threads[t].kind.Worker? && s.threads[t].pc.Holding?
    requires s.threads[t].pc.seen.Some? && n <= s.threads[t].pc.left
    ensures Legal(s, Calls(t, n))
    ensures var s' := After(s, Calls(t, n));
            s'.conn == s.conn.(mutex := None) && s'.unbound == s.unbound && t in s'.threads && s'.threads[t].pc == Done
    decreases n
  {
    if n == 0 {
      Then(s, Leave(t), []);
      assert [Leave(t)] + [] == [Leave(t)];
    } else {
      CallsThenLeave(Apply(s, Use(t)), t, n - 1);
      Then(s, Use(t), Calls(t, n - 1));
    }
  }

  /** A worker with a handle makes its calls, at most as many as it has to make, and leaves
      the connection as it found it. One that meets NULL makes none and still gives the
      lock back, unless it is one of the two that do not. */
  lemma WorkerFromStart(s: State, t: Tid, releasesOnNull: bool, calls: nat, n: nat)
    requires s.conn.mutex == None && t !in s.threads && n <= calls
    ensures var ls := [Spawn(t, Worker(releasesOnNull, calls))] + ([Lock(t)] + Calls(t, if s.conn.ld.Some? then n else 0));
            && Legal(s, ls) && After(s, ls).unbound == s.unbound
            && After(s, ls).conn == s.conn.(mutex := if s.conn.ld.Some? || releasesOnNull then None else Some(t))
            && t in After(s, ls).threads && After(s, ls).threads[t].pc == Done
  {
    var kind := Worker(releasesOnNull, calls);
    var s1 := Apply(s, Spawn(t, kind));
    var s2 := Apply(s1, Lock(t));
    var rest := Calls(t, if s.conn.ld.Some? then n else 0);
    if s.conn.ld.Some? {
      CallsThenLeave(s2, t, n);
    } else {
      Then(s2, Leave(t), []);
      assert [Leave(t)] + [] == [Leave(t)];
    }
    Then(s1, Lock(t), rest);
    Then(s, Spawn(t, kind), [Lock(t)] + rest);
  }
}
