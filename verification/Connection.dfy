/** The connection object as its own code sees it: sequential methods over mutable
    fields, proved to do exactly what one thread's uninterrupted run of the
    interleaved protocol does. */
module Connection {
  import opened Basics
  import opened HandleProtocol
  import opened HandleSafety

  /** The rest of `connect_thread`'s critical section from `st` on, and the unlock. */
  function SwapSection(c: Conn, unbound: seq<Handle>, own: Handle, p: Profile, st: SwapStage): (Conn, seq<Handle>)
    decreases 8 - Rank(st)
  {
    if st == ProfileSet then (c.(mutex := None), unbound)
    else SwapSection(SwapConn(c, own, p, st),
                     unbound + if st == SwapLocked then UnbindInstalled(c) else [], own, p, NextSwap(st))
  }

  function DropSection(c: Conn, unbound: seq<Handle>, st: DropStage): (Conn, seq<Handle>)
    decreases match st case DropLocked => 3 case DropUnbound => 2 case HandleCleared => 1 case FlagCleared => 0
  {
    if st == FlagCleared then (c.(mutex := None), unbound)
    else DropSection(DropConn(c, st), unbound + if st == DropLocked then UnbindInstalled(c) else [], NextDrop(c, st))
  }

  datatype Reply = Identity(text: string) | NotConnected | CallFailed

  class SbvConnection {
    var mutex: Option<Tid>
    var ld: Option<Handle>
    var connected: bool
    var host: Option<string>
    var port: int
    var baseDn: Option<string>
    var profile: Option<Profile>
    /** Every handle passed to `ldap_unbind_ext_s`, in order. */
    var unbound: seq<Handle>

    function View(): Conn
      reads this
    {
      Conn(mutex, ld, connected, host, port, baseDn, profile)
    }

    constructor ()
      ensures View() == Initial.conn && unbound == []
    {
      mutex, ld, connected, host, port, baseDn, profile, unbound := None, None, false, None, 0, None, None, [];
    }

    /** Returns once the lock is free; the caller then holds it, also when the result is NULL. */
    method AcquireLdap(t: Tid) returns (h: Option<Handle>)
      requires mutex == None
      modifies this`mutex
      ensures View() == old(View()).(mutex := Some(t)) && h == ld
    {
      mutex := Some(t);
      h := ld;
    }

    method ReleaseLdap()
      modifies this`mutex
      ensures View() == old(View()).(mutex := None)
    {
      mutex := None;
    }

    method DisconnectLdap(t: Tid)
      requires mutex == None
      modifies this
      ensures (View(), unbound) == DropSection(old(View()).(mutex := Some(t)), old(unbound), DropLocked)
      ensures View() == old(View()).(ld := None, connected := false)
      ensures unbound == old(unbound) + UnbindInstalled(old(View()))
    {
      mutex := Some(t);
      if ld.Some? {
        unbound := unbound + [ld.value];
        ld := None;
      }
      connected := false;
      mutex := None;
      DropUnrolled(old(View()).(mutex := Some(t)), old(unbound));
      assert unbound == old(unbound) + UnbindInstalled(old(View()));
    }

    /** The tail of `connect_thread`: publish a bound handle and its identity. */
    method Install(t: Tid, own: Handle, p: Profile)
      requires mutex == None
      modifies this
      ensures (View(), unbound) == SwapSection(old(View()).(mutex := Some(t)), old(unbound), own, p, SwapLocked)
      ensures mutex == None && ld == Some(own) && connected && BelongsTo(View(), p)
      ensures unbound == old(unbound) + UnbindInstalled(old(View()))
    {
      mutex := Some(t);
      if ld.Some? {
        unbound := unbound + [ld.value];
      }
      ld := Some(own);
      connected := true;
      host := Some(p.host);
      port := p.port;
      baseDn := Some(p.baseDn);
      profile := None;
      profile := Some(p);
      mutex := None;
      assert unbound == old(unbound) + UnbindInstalled(old(View()));
      SwapUnrolled(old(View()).(mutex := Some(t)), old(unbound), own, p);
    }

    /** A worker that keeps the acquire/release contract on all its paths. */
    method WhoAmI(t: Tid, answer: Option<string>) returns (r: Reply)
      requires mutex == None
      modifies this`mutex
      ensures View() == old(View())
      ensures r == if ld.None? then NotConnected else if answer.None? then CallFailed else Identity(answer.value)
    {
      var h := AcquireLdap(t);
      if h.None? {
        ReleaseLdap();
        return NotConnected;
      }
      ReleaseLdap();
      return if answer.None? then CallFailed else Identity(answer.value);
    }

    /** The lock path of the Unix-attribute workers: the NULL path returns without releasing. */
    method SetUnixAttrs(t: Tid, accepted: bool) returns (r: Reply)
      requires mutex == None
      modifies this`mutex
      ensures View() == old(View()).(mutex := if ld.None? then Some(t) else None)
      ensures r == if ld.None? then NotConnected else if accepted then Identity("") else CallFailed
    {
      var h := AcquireLdap(t);
      if h.None? {
        return NotConnected;
      }
      ReleaseLdap();
      return if accepted then Identity("") else CallFailed;
    }
  }

  lemma DropUnrolled(c: Conn, unbound: seq<Handle>)
    ensures DropSection(c, unbound, DropLocked) ==
            (c.(mutex := None, ld := None, connected := false), unbound + UnbindInstalled(c))
  {
    var u := unbound + UnbindInstalled(c);
    assert u + [] == u;
    var c1 := c.(ld := None);
    assert DropSection(c1, u, HandleCleared) == (c.(mutex := None, ld := None, connected := false), u);
    if c.ld.Some? {
      assert DropSection(c, u, DropUnbound) == DropSection(c1, u, HandleCleared);
    }
  }

  lemma SwapUnrolled(c: Conn, unbound: seq<Handle>, own: Handle, p: Profile)
    ensures SwapSection(c, unbound, own, p, SwapLocked) ==
            (Conn(None, Some(own), true, Some(p.host), p.port, Some(p.baseDn), Some(p)),
             unbound + UnbindInstalled(c))
  {
    var c1 := c.(ld := Some(own));
    var c2 := c1.(connected := true);
    var c3 := c2.(host := Some(p.host), port := p.port);
    var u := unbound + UnbindInstalled(c);
    assert u + [] == u;
    var c5 := c3.(baseDn := Some(p.baseDn));
    var c6 := c5.(profile := None);
    assert SwapSection(c5, u, own, p, BaseSet) == SwapSection(c6, u, own, p, ProfileCleared);
    assert SwapSection(c2, u, own, p, FlagSet) == SwapSection(c3, u, own, p, PortSet);
    assert SwapSection(c, unbound, own, p, SwapLocked) == SwapSection(c1, u, own, p, HandleSet);
  }

  // ---- The methods are the machine's uninterrupted runs -----------------------

  function Solo(t: Tid, n: nat): seq<Label> {
    if n == 0 then [Leave(t)] else [Advance(t)] + Solo(t, n - 1)
  }

  /** From any point of the section, running thread `t` alone to the end of its
      critical section leaves the connection as the sequential code does. */
  lemma {:induction false} SoloSwap(s: State, t: Tid)
    requires t in s.threads && s.threads[t].kind.Connect? && s.threads[t].pc.Swapping?
    ensures var th := s.threads[t];
            var ls := Solo(t, 8 - Rank(th.pc.swap));
            && Legal(s, ls)
            && (After(s, ls).conn, After(s, ls).unbound) ==
               SwapSection(s.conn, s.unbound, th.pc.own, th.kind.target, th.pc.swap)
            && t in After(s, ls).threads && After(s, ls).threads[t].pc == Done
    decreases 8 - Rank(s.threads[t].pc.swap)
  {
    var st := s.threads[t].pc.swap;
    var ls := Solo(t, 8 - Rank(st));
    if st == ProfileSet {
      assert ls[1..] == [];
    } else {
      assert Enabled(s, Advance(t));
      var s' := Apply(s, Advance(t));
      assert ls[1..] == Solo(t, 8 - Rank(NextSwap(st)));
      SoloSwap(s', t);
    }
  }

  /** A whole install: taking the free lock and running alone equals `Install`. */
  lemma InstallIsSoloRun(s: State, t: Tid)
    requires t in s.threads && s.conn.mutex == None
    requires s.threads[t].kind.Connect? && s.threads[t].pc.Prepared?
    ensures var th := s.threads[t];
            var ls := [Lock(t)] + Solo(t, 8);
            && Legal(s, ls)
            && After(s, ls).conn == Conn(None, Some(th.pc.own), true, Some(th.kind.target.host), th.kind.target.port,
                                         Some(th.kind.target.baseDn), Some(th.kind.target))
            && After(s, ls).unbound == s.unbound + UnbindInstalled(s.conn)
            && t in After(s, ls).threads && After(s, ls).threads[t].pc == Done
  {
    var s' := Apply(s, Lock(t));
    SoloSwap(s', t);
    assert ([Lock(t)] + Solo(t, 8))[1..] == Solo(t, 8);
    SwapUnrolled(s'.conn, s'.unbound, s.threads[t].pc.own, s.threads[t].kind.target);
  }

  /** Likewise a whole disconnect, with or without a handle to unbind. */
  lemma DisconnectIsSoloRun(s: State, t: Tid)
    requires t in s.threads && s.conn.mutex == None && s.threads[t].kind.Disconnect? && s.threads[t].pc == Ready
    ensures var ls := [Lock(t)] + Solo(t, if s.conn.ld.Some? then 3 else 2);
            && Legal(s, ls)
            && After(s, ls).conn == s.conn.(ld := None, connected := false)
            && After(s, ls).unbound == s.unbound + UnbindInstalled(s.conn)
            && t in After(s, ls).threads && After(s, ls).threads[t].pc == Done
  {
    var n := if s.conn.ld.Some? then 3 else 2;
    var s' := Apply(s, Lock(t));
    SoloDrop(s', t);
    assert ([Lock(t)] + Solo(t, n))[1..] == Solo(t, n);
    DropUnrolled(s'.conn, s'.unbound);
  }

  function DropStepsLeft(c: Conn, st: DropStage): nat {
    match st
    case DropLocked => if c.ld.Some? then 3 else 2
    case DropUnbound => 2
    case HandleCleared => 1
    case FlagCleared => 0
  }

  lemma {:induction false} SoloDrop(s: State, t: Tid)
    requires t in s.threads && s.threads[t].pc.Dropping?
    ensures var st := s.threads[t].pc.drop;
            var ls := Solo(t, DropStepsLeft(s.conn, st));
            && Legal(s, ls)
            && (After(s, ls).conn, After(s, ls).unbound) == DropSection(s.conn, s.unbound, st)
            && t in After(s, ls).threads && After(s, ls).threads[t].pc == Done
    decreases DropStepsLeft(s.conn, s.threads[t].pc.drop)
  {
    var st := s.threads[t].pc.drop;
    var ls := Solo(t, DropStepsLeft(s.conn, st));
    if st == FlagCleared {
      assert ls[1..] == [];
    } else {
      var s' := Apply(s, Advance(t));
      assert ls[1..] == Solo(t, DropStepsLeft(s'.conn, NextDrop(s.conn, st)));
      SoloDrop(s', t);
    }
  }
}
