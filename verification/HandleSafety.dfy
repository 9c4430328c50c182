/** What every interleaving of the shared-handle protocol keeps: handles are used
    only while installed, unbound at most once and never lost, the identity fields
    belong to the installed handle, and the lock is lost in exactly one way. */
module HandleSafety {
  import opened Basics
  import opened HandleProtocol

  predicate InCritical(th: Thread) {
    th.pc.Swapping? || th.pc.Dropping? || th.pc.Holding?
  }

  /** A Unix-attribute worker that met a NULL handle and returned. */
  predicate LeakedLock(th: Thread) {
    th.pc.Done? && th.kind.Worker? && !th.kind.releasesOnNull && th.sawNull
  }

  function Rank(st: SwapStage): nat {
    match st
    case SwapLocked => 0
    case OldUnbound => 1
    case HandleSet => 2
    case FlagSet => 3
    case HostSet => 4
    case PortSet => 5
    case BaseSet => 6
    case ProfileCleared => 7
    case ProfileSet => 8
  }

  /** The handle a connect thread has opened and not yet published. */
  function PrivateHandle(th: Thread): Option<Handle> {
    match th.pc
    case Preparing(h) => Some(h)
    case Prepared(h) => Some(h)
    case Swapping(h, st) => if Rank(st) < 2 then Some(h) else None
    case _ => None
  }

  predicate Private(s: State, h: Handle) {
    h in s.openedBy && s.openedBy[h] in s.threads && PrivateHandle(s.threads[s.openedBy[h]]) == Some(h)
  }

  /** The holder has unbound the installed handle and not yet overwritten `ld`. */
  predicate Dangling(s: State) {
    s.conn.mutex.Some? && s.conn.mutex.value in s.threads &&
    var pc := s.threads[s.conn.mutex.value].pc;
    (pc.Swapping? && pc.swap == OldUnbound) || (pc.Dropping? && pc.drop == DropUnbound)
  }

  predicate BelongsTo(c: Conn, p: Profile) {
    c.host == Some(p.host) && c.port == p.port && c.baseDn == Some(p.baseDn) && c.profile == Some(p)
  }

  /** `connected` tells the truth, and the identity fields are those of the
      profile whose connect opened the installed handle. */
  ghost predicate Truthful(s: State) {
    (s.conn.connected <==> s.conn.ld.Some?) &&
    forall h :: s.conn.ld == Some(h) ==>
      h in s.openedBy && s.openedBy[h] in s.threads && s.threads[s.openedBy[h]].kind.Connect? &&
      BelongsTo(s.conn, s.threads[s.openedBy[h]].kind.target)
  }

  // ---- The invariant ---------------------------------------------------------

  ghost predicate LockInv(s: State) {
    (s.conn.mutex.Some? ==> s.conn.mutex.value in s.threads) &&
    forall t :: t in s.threads ==>
      ((InCritical(s.threads[t]) || LeakedLock(s.threads[t])) <==> s.conn.mutex == Some(t))
  }

  predicate ThreadOk(s: State, t: Tid)
    requires t in s.threads
  {
    var th := s.threads[t];
    && (th.sawNull ==> th.kind.Worker? && (th.pc.Holding? || th.pc.Done?))
    && match th.pc
       case Ready => true
       case Preparing(h) => th.kind.Connect?
       case Prepared(h) => th.kind.Connect?
       case Swapping(h, st) => th.kind.Connect? && (Rank(st) >= 2 ==> s.conn.ld == Some(h) && h in s.openedBy && s.openedBy[h] == t)
       case Dropping(st) => th.kind.Disconnect? && (st == DropUnbound ==> s.conn.ld.Some?)
       case Holding(seen, _) => th.kind.Worker? && seen == s.conn.ld && (th.sawNull <==> seen.None?)
       case Done => true
  }

  ghost predicate ThreadsInv(s: State) {
    forall t {:trigger ThreadOk(s, t)} :: t in s.threads ==> ThreadOk(s, t)
  }

  /** A handle still private to thread `t` is its own, alive, and not the installed one. */
  predicate OwnOk(s: State, t: Tid)
    requires t in s.threads
  {
    match PrivateHandle(s.threads[t])
    case None => true
    case Some(h) => h in s.openedBy && s.openedBy[h] == t && h !in s.unbound && s.conn.ld != Some(h)
  }

  /** An opened handle has a connect thread as opener and is never lost. */
  predicate HandleOk(s: State, h: Handle)
    requires h in s.openedBy
  {
    && s.openedBy[h] in s.threads && s.threads[s.openedBy[h]].kind.Connect?
    && (PrivateHandle(s.threads[s.openedBy[h]]) == Some(h) || s.conn.ld == Some(h) || h in s.unbound)
  }

  predicate InstalledOk(s: State) {
    s.conn.ld.Some? ==> s.conn.ld.value in s.openedBy && (s.conn.ld.value in s.unbound <==> Dangling(s))
  }

  ghost predicate HandleInv(s: State) {
    && (forall t {:trigger OwnOk(s, t)} :: t in s.threads ==> OwnOk(s, t))
    && (forall h {:trigger HandleOk(s, h)} :: h in s.openedBy ==> HandleOk(s, h))
    && (forall h :: h in s.unbound ==> h in s.openedBy)
    && NoDup(s.unbound)
    && InstalledOk(s)
  }

  predicate SwapProgress(c: Conn, p: Profile, st: SwapStage) {
    && (Rank(st) >= 3 ==> c.connected)
    && (Rank(st) >= 4 ==> c.host == Some(p.host))
    && (Rank(st) >= 5 ==> c.port == p.port)
    && (Rank(st) >= 6 ==> c.baseDn == Some(p.baseDn))
    && (Rank(st) >= 8 ==> c.profile == Some(p))
  }

  predicate DropProgress(c: Conn, st: DropStage) {
    && (st == HandleCleared || st == FlagCleared ==> c.ld == None)
    && (st == FlagCleared ==> !c.connected)
  }

  ghost predicate IdentityInv(s: State) {
    if s.conn.mutex.Some? && s.conn.mutex.value in s.threads then
      var th := s.threads[s.conn.mutex.value];
      if th.pc.Swapping? && th.kind.Connect? then SwapProgress(s.conn, th.kind.target, th.pc.swap)
      else if th.pc.Dropping? then DropProgress(s.conn, th.pc.drop)
      else Truthful(s)
    else Truthful(s)
  }

  ghost predicate Inv(s: State) {
    LockInv(s) && ThreadsInv(s) && HandleInv(s) && IdentityInv(s)
  }

  /** No label touches a thread other than its own. */
  lemma OthersStay(s: State, l: Label)
    requires Enabled(s, l)
    ensures forall t :: t in s.threads && t != l.t ==> t in Apply(s, l).threads && Apply(s, l).threads[t] == s.threads[t]
    ensures Apply(s, l).threads.Keys == s.threads.Keys + {l.t}
    ensures l.t in s.threads ==> Apply(s, l).threads[l.t].kind == s.threads[l.t].kind
    ensures !l.InitSucceeds? ==> Apply(s, l).openedBy == s.openedBy
    ensures l.InitSucceeds? ==> l.h !in s.openedBy && Apply(s, l).openedBy == s.openedBy[l.h := l.t]
    ensures !l.Lock? && !l.Advance? && !l.Leave? ==> Apply(s, l).conn == s.conn
    ensures !l.BindFails? && !l.Advance? ==> Apply(s, l).unbound == s.unbound
  {
  }

  lemma LockInvKept(s: State, l: Label)
    requires Inv(s) && Enabled(s, l)
    ensures LockInv(Apply(s, l))
  {
    OthersStay(s, l);
    if l.t in s.threads {
      assert ThreadOk(s, l.t);
    }
  }

  lemma ThreadsInvKept(s: State, l: Label)
    requires Inv(s) && Enabled(s, l)
    ensures ThreadsInv(Apply(s, l))
  {
    OthersStay(s, l);
    var s' := Apply(s, l);
    forall t | t in s'.threads ensures ThreadOk(s', t) {
      if t in s.threads {
        assert ThreadOk(s, t) && OwnOk(s, t);
      }
    }
  }

  lemma AppendKeepsNoDup<T>(s: seq<T>, x: T)
    requires NoDup(s) && x !in s
    ensures NoDup(s + [x])
  {
  }

  /** Other threads' private handles are none of this step's business. */
  lemma OtherOwnKept(s: State, l: Label, t: Tid)
    requires Inv(s) && Enabled(s, l) && t in s.threads && t != l.t
    ensures OwnOk(Apply(s, l), t)
  {
    OthersStay(s, l);
    assert OwnOk(s, t) && ThreadOk(s, t);
    if l.t in s.threads {
      assert OwnOk(s, l.t) && ThreadOk(s, l.t);
    }
  }

  lemma OwnKept(s: State, l: Label)
    requires Inv(s) && Enabled(s, l)
    ensures OwnOk(Apply(s, l), l.t)
  {
    OthersStay(s, l);
    if l.t in s.threads {
      assert OwnOk(s, l.t) && ThreadOk(s, l.t);
    }
  }

  lemma HandleKept(s: State, l: Label, h: Handle)
    requires Inv(s) && Enabled(s, l) && h in Apply(s, l).openedBy
    ensures HandleOk(Apply(s, l), h)
  {
    OthersStay(s, l);
    if h in s.openedBy {
      assert HandleOk(s, h);
    }
    if l.t in s.threads {
      assert OwnOk(s, l.t) && ThreadOk(s, l.t);
    }
  }

  lemma InstalledKeptInside(s: State, l: Label)
    requires Inv(s) && Enabled(s, l) && l.Advance?
    ensures InstalledOk(Apply(s, l))
  {
    OthersStay(s, l);
    assert OwnOk(s, l.t) && ThreadOk(s, l.t);
  }

  lemma InstalledKept(s: State, l: Label)
    requires Inv(s) && Enabled(s, l)
    ensures InstalledOk(Apply(s, l))
  {
    if l.Advance? {
      InstalledKeptInside(s, l);
    } else {
      OthersStay(s, l);
      if l.t in s.threads {
        assert OwnOk(s, l.t) && ThreadOk(s, l.t);
      }
    }
  }

  lemma UnboundKept(s: State, l: Label)
    requires Inv(s) && Enabled(s, l)
    ensures forall h :: h in Apply(s, l).unbound ==> h in Apply(s, l).openedBy
    ensures NoDup(Apply(s, l).unbound)
  {
    OthersStay(s, l);
    if l.t in s.threads {
      assert OwnOk(s, l.t) && ThreadOk(s, l.t);
    }
    if l.BindFails? {
      AppendKeepsNoDup(s.unbound, s.threads[l.t].pc.own);
    } else if l.Advance? && s.conn.ld.Some? && s.conn.ld.value !in s.unbound {
      AppendKeepsNoDup(s.unbound, s.conn.ld.value);
    }
  }

  lemma HandleInvKept(s: State, l: Label)
    requires Inv(s) && Enabled(s, l)
    ensures HandleInv(Apply(s, l))
  {
    var s' := Apply(s, l);
    forall t | t in s'.threads ensures OwnOk(s', t) {
      if t == l.t { OwnKept(s, l); } else { OtherOwnKept(s, l, t); }
    }
    forall h | h in s'.openedBy ensures HandleOk(s', h) { HandleKept(s, l, h); }
    InstalledKept(s, l);
    UnboundKept(s, l);
  }

  /** Steps that leave the fields alone cannot make them lie. */
  lemma TruthKept(s: State, s': State)
    requires Inv(s) && Truthful(s)
    requires s'.conn == s.conn.(mutex := s'.conn.mutex)
    requires forall h :: h in s.openedBy ==> h in s'.openedBy && s'.openedBy[h] == s.openedBy[h]
    requires forall t :: t in s.threads ==> t in s'.threads && s'.threads[t].kind == s.threads[t].kind
    ensures Truthful(s')
  {
  }

  lemma IdentityKeptInside(s: State, l: Label)
    requires Inv(s) && Enabled(s, l) && l.Advance?
    ensures IdentityInv(Apply(s, l))
  {
    OthersStay(s, l);
    assert ThreadOk(s, l.t);
  }

  lemma IdentityKeptOnLeave(s: State, l: Label)
    requires Inv(s) && Enabled(s, l) && l.Leave?
    ensures IdentityInv(Apply(s, l))
  {
    OthersStay(s, l);
    assert ThreadOk(s, l.t);
    var s' := Apply(s, l);
    var th := s.threads[l.t];
    if th.pc.Swapping? {
      assert s'.conn.ld == Some(th.pc.own) && BelongsTo(s'.conn, th.kind.target);
    } else if th.pc.Holding? {
      TruthKept(s, s');
    }
    assert Truthful(s');
  }

  lemma IdentityKeptOnLock(s: State, l: Label)
    requires Inv(s) && Enabled(s, l) && l.Lock?
    ensures IdentityInv(Apply(s, l))
  {
    OthersStay(s, l);
    TruthKept(s, Apply(s, l));
  }

  lemma IdentityKeptOutside(s: State, l: Label)
    requires Inv(s) && Enabled(s, l) && !l.Advance? && !l.Leave? && !l.Lock?
    ensures IdentityInv(Apply(s, l))
  {
    OthersStay(s, l);
    if Truthful(s) {
      TruthKept(s, Apply(s, l));
    }
    if s.conn.mutex.Some? {
      assert ThreadOk(s, s.conn.mutex.value);
      assert l.t == s.conn.mutex.value ==> l.Use?;
    }
  }

  lemma StepKeeps(s: State, l: Label)
    requires Inv(s) && Enabled(s, l)
    ensures Inv(Apply(s, l))
  {
    LockInvKept(s, l);
    ThreadsInvKept(s, l);
    HandleInvKept(s, l);
    match l {
      case Advance(_) => IdentityKeptInside(s, l);
      case Leave(_) => IdentityKeptOnLeave(s, l);
      case Lock(_) => IdentityKeptOnLock(s, l);
      case _ => IdentityKeptOutside(s, l);
    }
  }

  lemma {:induction false} RunKeeps(s: State, ls: seq<Label>)
    requires Inv(s) && Legal(s, ls)
    ensures Inv(After(s, ls))
    decreases |ls|
  {
    if ls != [] {
      StepKeeps(s, ls[0]);
      RunKeeps(Apply(s, ls[0]), ls[1..]);
    }
  }

  // ---- Main results ----------------------------------------------------------

  /** The handle in `ld`, unless its holder has just unbound it and is about to overwrite it. */
  predicate Installed(s: State, h: Handle) {
    s.conn.ld == Some(h) && !Dangling(s)
  }

  function Tally(b: bool): nat { if b then 1 else 0 }

  /** In every interleaving each opened handle is exactly one of private to its
      connect thread, installed, or unbound, and it is unbound at most once. */
  lemma EveryHandleHasOneFate(ls: seq<Label>, h: Handle)
    requires Legal(Initial, ls) && h in After(Initial, ls).openedBy
    ensures var s := After(Initial, ls);
            NoDup(s.unbound) && Tally(Private(s, h)) + Tally(Installed(s, h)) + Tally(h in s.unbound) == 1
  {
    RunKeeps(Initial, ls);
    var s := After(Initial, ls);
    assert HandleOk(s, h) && OwnOk(s, s.openedBy[h]);
  }

  /** A worker about to call libldap holds the lock, and its handle is the installed
      one, not unbound, with the base DN it searches being that of its own bind. */
  lemma UsedHandleIsInstalled(ls: seq<Label>, t: Tid)
    requires Legal(Initial, ls) && Enabled(After(Initial, ls), Use(t))
    ensures var s := After(Initial, ls);
            var h := s.threads[t].pc.seen.value;
            && s.conn.mutex == Some(t) && Installed(s, h) && h !in s.unbound
            && h in s.openedBy && s.openedBy[h] in s.threads && s.threads[s.openedBy[h]].kind.Connect?
            && s.conn.baseDn == Some(s.threads[s.openedBy[h]].kind.target.baseDn)
            && (forall u :: u in s.threads && u != t ==> !InCritical(s.threads[u]))
  {
    RunKeeps(Initial, ls);
    assert ThreadOk(After(Initial, ls), t);
  }

  /** While nobody holds the lock the connection object describes its handle truthfully. */
  lemma FreeLockMeansTruthful(ls: seq<Label>)
    requires Legal(Initial, ls) && After(Initial, ls).conn.mutex == None
    ensures Truthful(After(Initial, ls))
  {
    RunKeeps(Initial, ls);
  }

  /** A reader that does not take the lock sees fields that do not belong together only
      while a connect or a disconnect is inside its critical section. */
  lemma UnlockedReadCanLieOnlyMidSection(ls: seq<Label>)
    requires Legal(Initial, ls) && !Truthful(After(Initial, ls))
    ensures var s := After(Initial, ls);
            s.conn.mutex.Some? && s.conn.mutex.value in s.threads &&
            (s.threads[s.conn.mutex.value].pc.Swapping? || s.threads[s.conn.mutex.value].pc.Dropping?)
  {
    RunKeeps(Initial, ls);
  }

  /** And there they do: between installing the handle and setting the base DN, that
      reader pairs a new handle with the base DN of the old one. */
  lemma MidSwapReadLies(s: State, t: Tid)
    requires Inv(s) && t in s.threads && s.threads[t].kind.Connect? && s.threads[t].pc.Swapping?
    requires 2 <= Rank(s.threads[t].pc.swap) < 6 && s.conn.baseDn != Some(s.threads[t].kind.target.baseDn)
    ensures s.conn.ld == Some(s.threads[t].pc.own) && !Truthful(s)
  {
    assert ThreadOk(s, t);
  }

  /** A finished thread holds the lock exactly if it was a Unix-attribute worker
      that acquired a NULL handle. */
  lemma WhoLosesTheLock(ls: seq<Label>, t: Tid)
    requires Legal(Initial, ls) && t in After(Initial, ls).threads && After(Initial, ls).threads[t].pc == Done
    ensures var s := After(Initial, ls);
            s.conn.mutex == Some(t) <==>
            s.threads[t].kind.Worker? && !s.threads[t].kind.releasesOnNull && s.threads[t].sawNull
  {
    RunKeeps(Initial, ls);
  }

  predicate LockLost(s: State) {
    s.conn.mutex.Some? && s.conn.mutex.value in s.threads && LeakedLock(s.threads[s.conn.mutex.value])
  }

  /** Once lost, the lock stays lost: the connection object never changes again and
      no thread ever enters or moves inside a critical section. */
  lemma {:induction false} LostLockStaysLost(s: State, ls: seq<Label>)
    requires Inv(s) && LockLost(s) && Legal(s, ls)
    ensures After(s, ls).conn == s.conn && LockLost(After(s, ls))
    ensures forall l :: l in ls ==> !l.Lock? && !l.Advance? && !l.Use? && !l.Leave?
    decreases |ls|
  {
    if ls != [] {
      StepKeeps(s, ls[0]);
      OthersStay(s, ls[0]);
      LostLockStaysLost(Apply(s, ls[0]), ls[1..]);
      assert ls == [ls[0]] + ls[1..];
    }
  }

  /** One Unix-attribute save before any connect loses the lock. */
  lemma LockCanBeLost()
    ensures var ls := [Spawn(0, Worker(false, 1)), Lock(0), Leave(0)];
            Legal(Initial, ls) && LockLost(After(Initial, ls))
  {
    var l0, l1, l2 := Spawn(0, Worker(false, 1)), Lock(0), Leave(0);
    var s1 := Apply(Initial, l0);
    var s2 := Apply(s1, l1);
    assert [l0, l1, l2][1..] == [l1, l2] && [l1, l2][1..] == [l2] && [l2][1..] == [];
    assert Legal(s2, [l2]);
    assert Legal(s1, [l1, l2]);
  }
}
