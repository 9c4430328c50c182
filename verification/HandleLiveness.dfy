/** Why the lock comes back: the holder is never blocked, needs a bounded number of
    its own steps, and after the first successful connect of a run without
    disconnects the lock can no longer be lost. */
module HandleLiveness {
  import opened Basics
  import opened HandleProtocol
  import opened HandleSafety

  /** Steps the thread still takes before it returns from its critical section. */
  function StepsLeft(th: Thread): nat {
    match th.pc
    case Swapping(_, st) => 9 - Rank(st)
    case Dropping(DropLocked) => 4
    case Dropping(DropUnbound) => 3
    case Dropping(HandleCleared) => 2
    case Dropping(FlagCleared) => 1
    case Holding(Some(_), left) => left + 1
    case Holding(None, _) => 1
    case _ => 0
  }

  function NextLabel(th: Thread, t: Tid): Label {
    match th.pc
    case Swapping(_, st) => if st == ProfileSet then Leave(t) else Advance(t)
    case Dropping(st) => if st == FlagCleared then Leave(t) else Advance(t)
    case Holding(Some(_), left) => if left > 0 then Use(t) else Leave(t)
    case _ => Leave(t)
  }

  lemma HolderStep(s: State, t: Tid)
    requires t in s.threads && s.conn.mutex == Some(t) && InCritical(s.threads[t]) && ThreadOk(s, t)
    ensures var l := NextLabel(s.threads[t], t);
            && l.t == t && Enabled(s, l) && t in Apply(s, l).threads
            && StepsLeft(Apply(s, l).threads[t]) < StepsLeft(s.threads[t])
            && (StepsLeft(s.threads[t]) == 1 ==>
                  Apply(s, l).conn.mutex == None || LockLost(Apply(s, l)))
  {
  }

  /** The holder can always take its next step, which brings the release closer;
      the last one frees the lock unless it is the NULL path that keeps it. */
  lemma HolderIsNeverBlocked(ls: seq<Label>, t: Tid)
    requires Legal(Initial, ls)
    requires var s := After(Initial, ls); t in s.threads && InCritical(s.threads[t])
    ensures var s := After(Initial, ls);
            var l := NextLabel(s.threads[t], t);
            && s.conn.mutex == Some(t) && l.t == t && Enabled(s, l)
            && StepsLeft(Apply(s, l).threads[t]) < StepsLeft(s.threads[t])
            && (StepsLeft(s.threads[t]) == 1 ==>
                  Apply(s, l).conn.mutex == None || LockLost(Apply(s, l)))
  {
    RunKeeps(Initial, ls);
    var s := After(Initial, ls);
    assert ThreadOk(s, t);
    HolderStep(s, t);
  }

  function StepsOf(ls: seq<Label>, t: Tid): nat {
    if ls == [] then 0 else Tally(ls[0].t == t) + StepsOf(ls[1..], t)
  }

  lemma StepShortensSection(s: State, l: Label, t: Tid)
    requires Inv(s) && Enabled(s, l) && t in s.threads && InCritical(s.threads[t])
    ensures l.t != t ==> Apply(s, l).threads[t] == s.threads[t]
    ensures l.t == t ==> StepsLeft(Apply(s, l).threads[t]) < StepsLeft(s.threads[t])
    ensures l.t == t ==> InCritical(Apply(s, l).threads[t]) || Apply(s, l).threads[t].pc == Done
  {
    OthersStay(s, l);
    assert ThreadOk(s, t);
  }

  lemma {:induction false} DoneStaysDone(s: State, ls: seq<Label>, t: Tid)
    requires Legal(s, ls) && t in s.threads && s.threads[t].pc == Done
    ensures t in After(s, ls).threads && After(s, ls).threads[t].pc == Done
    decreases |ls|
  {
    if ls != [] {
      OthersStay(s, ls[0]);
      DoneStaysDone(Apply(s, ls[0]), ls[1..], t);
    }
  }

  /** However the others interleave, a critical section lasts at most `StepsLeft`
      steps of its own thread: LDAP calls included, nobody keeps the lock forever. */
  lemma {:induction false} SectionIsBounded(s: State, ls: seq<Label>, t: Tid)
    requires Inv(s) && Legal(s, ls) && t in s.threads && InCritical(s.threads[t])
    ensures t in After(s, ls).threads
    ensures InCritical(After(s, ls).threads[t]) ==>
              StepsOf(ls, t) + StepsLeft(After(s, ls).threads[t]) <= StepsLeft(s.threads[t])
    decreases |ls|
  {
    if ls != [] {
      var s' := Apply(s, ls[0]);
      StepKeeps(s, ls[0]);
      OthersStay(s, ls[0]);
      StepShortensSection(s, ls[0], t);
      if InCritical(s'.threads[t]) {
        SectionIsBounded(s', ls[1..], t);
      } else {
        DoneStaysDone(s', ls[1..], t);
      }
    }
  }

  /** As long as the lock is not lost, unfinished threads never all wait for each other. */
  lemma NoDeadlock(ls: seq<Label>, t: Tid)
    requires Legal(Initial, ls) && !LockLost(After(Initial, ls))
    requires t in After(Initial, ls).threads && After(Initial, ls).threads[t].pc != Done
    ensures exists l: Label :: !l.Spawn? && Enabled(After(Initial, ls), l)
  {
    RunKeeps(Initial, ls);
    var s := After(Initial, ls);
    if s.conn.mutex.Some? {
      var holder := s.conn.mutex.value;
      assert ThreadOk(s, holder);
      assert Enabled(s, NextLabel(s.threads[holder], holder));
    } else {
      assert ThreadOk(s, t);
      var th := s.threads[t];
      if th.pc.Preparing? {
        assert Enabled(s, BindFails(t));
      } else if th.pc == Ready && th.kind.Connect? {
        assert Enabled(s, InitFails(t));
      } else {
        assert Enabled(s, Lock(t));
      }
    }
  }

  predicate NoDisconnects(ls: seq<Label>) {
    forall l: Label :: l in ls && l.Spawn? ==> !l.kind.Disconnect?
  }

  ghost predicate NoDisconnecting(s: State) {
    forall t :: t in s.threads ==> !s.threads[t].kind.Disconnect?
  }

  ghost predicate Settled(s: State) {
    Inv(s) && s.conn.ld.Some? && NoDisconnecting(s) && !LockLost(s)
  }

  lemma SettledStep(s: State, l: Label)
    requires Settled(s) && Enabled(s, l) && (l.Spawn? ==> !l.kind.Disconnect?)
    ensures Settled(Apply(s, l))
    ensures forall t :: t in Apply(s, l).threads && Apply(s, l).threads[t].sawNull ==>
              t in s.threads && s.threads[t].sawNull
  {
    StepKeeps(s, l);
    OthersStay(s, l);
    if l.t in s.threads {
      assert ThreadOk(s, l.t);
    }
  }

  lemma {:induction false} SettledRun(s: State, ls: seq<Label>)
    requires Settled(s) && Legal(s, ls) && NoDisconnects(ls)
    ensures Settled(After(s, ls))
    ensures forall t :: t in After(s, ls).threads && After(s, ls).threads[t].sawNull ==>
              t in s.threads && s.threads[t].sawNull
    decreases |ls|
  {
    if ls != [] {
      assert ls[0] in ls;
      SettledStep(s, ls[0]);
      assert forall l :: l in ls[1..] ==> l in ls;
      SettledRun(Apply(s, ls[0]), ls[1..]);
    }
  }

  lemma {:induction false} NoDisconnectsNoThread(s: State, ls: seq<Label>)
    requires Legal(s, ls) && NoDisconnects(ls) && NoDisconnecting(s)
    ensures NoDisconnecting(After(s, ls))
    decreases |ls|
  {
    if ls != [] {
      assert ls[0] in ls;
      OthersStay(s, ls[0]);
      assert forall l :: l in ls[1..] ==> l in ls;
      NoDisconnectsNoThread(Apply(s, ls[0]), ls[1..]);
    }
  }

  /** In a run without disconnects, once a connect has completed no worker that
      locks later meets NULL, and the lock is always free or held by a thread
      that is still inside its critical section. */
  lemma AfterFirstConnect(before: seq<Label>, later: seq<Label>)
    requires Legal(Initial, before) && Legal(After(Initial, before), later)
    requires NoDisconnects(before) && NoDisconnects(later)
    requires After(Initial, before).conn.mutex == None && After(Initial, before).conn.ld.Some?
    ensures var s, s' := After(Initial, before), After(After(Initial, before), later);
            && s'.conn.ld.Some?
            && (forall t :: t in s'.threads && s'.threads[t].sawNull ==> t in s.threads && s.threads[t].sawNull)
            && (s'.conn.mutex.Some? ==>
                  s'.conn.mutex.value in s'.threads && InCritical(s'.threads[s'.conn.mutex.value]))
  {
    RunKeeps(Initial, before);
    NoDisconnectsNoThread(Initial, before);
    SettledRun(After(Initial, before), later);
  }
}
