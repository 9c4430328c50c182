/** The shared LDAP handle: one mutex guards the handle and the identity of the
    bound connection, and any number of threads (connects, disconnects, backend
    workers) run against it. Every assignment inside a critical section is a step
    of its own, so what a reader without the lock may see is the fields of any state. */
module HandleProtocol {
  import opened Basics

  type Tid = nat
  type Handle = nat

  datatype Profile = Profile(host: string, port: int, baseDn: string)

  /** What a thread was started to do. A worker makes at most `calls` libldap
      calls. `releasesOnNull` is false for the two Unix-attribute workers only. */
  datatype Kind =
    | Connect(target: Profile)
    | Disconnect
    | Worker(releasesOnNull: bool, calls: nat)

  /** Points inside `connect_thread`'s critical section, named by the last statement run. */
  datatype SwapStage =
    | SwapLocked | OldUnbound | HandleSet | FlagSet | HostSet | PortSet | BaseSet | ProfileCleared | ProfileSet

  /** Points inside `sbv_connection_disconnect`'s critical section. */
  datatype DropStage = DropLocked | DropUnbound | HandleCleared | FlagCleared

  datatype Pc =
    | Ready
    | Preparing(own: Handle)
    | Prepared(own: Handle)
    | Swapping(own: Handle, swap: SwapStage)
    | Dropping(drop: DropStage)
    | Holding(seen: Option<Handle>, left: nat)
    | Done

  /** `sawNull` is history: the thread acquired the lock as a worker and got NULL. */
  datatype Thread = Thread(kind: Kind, pc: Pc, sawNull: bool)

  /** The fields of the connection object. */
  datatype Conn = Conn(mutex: Option<Tid>, ld: Option<Handle>, connected: bool,
                       host: Option<string>, port: int, baseDn: Option<string>,
                       profile: Option<Profile>)

  /** `openedBy` and `unbound` record what libldap was asked to do: which thread
      openedBy each handle, and the handles unbound so far, in order. */
  datatype State = State(conn: Conn, threads: map<Tid, Thread>,
                         openedBy: map<Handle, Tid>, unbound: seq<Handle>)

  const Initial: State :=
    State(Conn(None, None, false, None, 0, None, None), map[], map[], [])

  datatype Label =
    | Spawn(t: Tid, kind: Kind)
    | InitFails(t: Tid)
    | InitSucceeds(t: Tid, h: Handle)
    | BindFails(t: Tid)
    | BindSucceeds(t: Tid)
    | Lock(t: Tid)
    | Advance(t: Tid)
    | Use(t: Tid)
    | Leave(t: Tid)

  // ---- The statements of the two critical sections --------------------------

  function NextSwap(st: SwapStage): SwapStage {
    match st
    case SwapLocked => OldUnbound
    case OldUnbound => HandleSet
    case HandleSet => FlagSet
    case FlagSet => HostSet
    case HostSet => PortSet
    case PortSet => BaseSet
    case BaseSet => ProfileCleared
    case ProfileCleared => ProfileSet
    case ProfileSet => ProfileSet
  }

  function SwapConn(c: Conn, own: Handle, p: Profile, st: SwapStage): Conn {
    match st
    case SwapLocked => c
    case OldUnbound => c.(ld := Some(own))
    case HandleSet => c.(connected := true)
    case FlagSet => c.(host := Some(p.host))
    case HostSet => c.(port := p.port)
    case PortSet => c.(baseDn := Some(p.baseDn))
    case BaseSet => c.(profile := None)
    case ProfileCleared => c.(profile := Some(p))
    case ProfileSet => c
  }

  function NextDrop(c: Conn, st: DropStage): DropStage {
    match st
    case DropLocked => if c.ld.Some? then DropUnbound else HandleCleared
    case DropUnbound => HandleCleared
    case HandleCleared => FlagCleared
    case FlagCleared => FlagCleared
  }

  function DropConn(c: Conn, st: DropStage): Conn {
    match st
    case DropLocked => c
    case DropUnbound => c.(ld := None)
    case HandleCleared => c.(connected := false)
    case FlagCleared => c
  }

  /** `ldap_unbind_ext_s` on the installed handle, if there is one. */
  function UnbindInstalled(c: Conn): seq<Handle> {
    if c.ld.Some? then [c.ld.value] else []
  }

  // ---- The machine ----------------------------------------------------------

  predicate CanLock(th: Thread) {
    match th.kind
    case Connect(_) => th.pc.Prepared?
    case Disconnect => th.pc == Ready
    case Worker(_, _) => th.pc == Ready
  }

  predicate Enabled(s: State, l: Label) {
    if l.Spawn? then l.t !in s.threads
    else if l.t !in s.threads then false
    else
      var th := s.threads[l.t];
      match l
      case Spawn(_, _) => false
      case InitFails(_) => th.kind.Connect? && th.pc == Ready
      case InitSucceeds(_, h) => th.kind.Connect? && th.pc == Ready && h !in s.openedBy
      case BindFails(_) => th.pc.Preparing?
      case BindSucceeds(_) => th.pc.Preparing?
      case Lock(_) => s.conn.mutex == None && CanLock(th)
      case Advance(_) => (th.pc.Swapping? && th.kind.Connect? && th.pc.swap != ProfileSet)
                         || (th.pc.Dropping? && th.pc.drop != FlagCleared)
      case Use(_) => th.pc.Holding? && th.pc.seen.Some? && th.pc.left > 0
      case Leave(_) => (th.pc.Holding? && th.kind.Worker?)
                       || (th.pc.Swapping? && th.pc.swap == ProfileSet)
                       || (th.pc.Dropping? && th.pc.drop == FlagCleared)
  }

  function Goto(s: State, t: Tid, pc: Pc): State
    requires t in s.threads
  {
    s.(threads := s.threads[t := s.threads[t].(pc := pc)])
  }

  function Apply(s: State, l: Label): State
    requires Enabled(s, l)
  {
    if l.Spawn? then s.(threads := s.threads[l.t := Thread(l.kind, Ready, false)])
    else
      var th := s.threads[l.t];
      match l
      case InitFails(t) => Goto(s, t, Done)
      case InitSucceeds(t, h) => Goto(s, t, Preparing(h)).(openedBy := s.openedBy[h := t])
      case BindFails(t) => Goto(s, t, Done).(unbound := s.unbound + [th.pc.own])
      case BindSucceeds(t) => Goto(s, t, Prepared(th.pc.own))
      case Lock(t) => Locked(s, t)
      case Advance(t) => Advanced(s, t)
      case Use(t) => Goto(s, t, Holding(th.pc.seen, th.pc.left - 1))
      case Leave(t) => Left(s, t)
  }

  function Locked(s: State, t: Tid): State
    requires t in s.threads && CanLock(s.threads[t])
  {
    var s' := s.(conn := s.conn.(mutex := Some(t)));
    var th := s.threads[t];
    match th.kind
    case Connect(_) => Goto(s', t, Swapping(th.pc.own, SwapLocked))
    case Disconnect => Goto(s', t, Dropping(DropLocked))
    case Worker(_, calls) =>
      s'.(threads := s.threads[t := Thread(th.kind, Holding(s.conn.ld, calls), s.conn.ld.None?)])
  }

  function Advanced(s: State, t: Tid): State
    requires t in s.threads && Enabled(s, Advance(t))
  {
    var th := s.threads[t];
    if th.pc.Swapping? then
      Goto(s, t, Swapping(th.pc.own, NextSwap(th.pc.swap)))
      .(conn := SwapConn(s.conn, th.pc.own, th.kind.target, th.pc.swap),
        unbound := s.unbound + if th.pc.swap == SwapLocked then UnbindInstalled(s.conn) else [])
    else
      Goto(s, t, Dropping(NextDrop(s.conn, th.pc.drop)))
      .(conn := DropConn(s.conn, th.pc.drop),
        unbound := s.unbound + if th.pc.drop == DropLocked then UnbindInstalled(s.conn) else [])
  }

  /** The thread returns; every path unlocks except a Unix-attribute worker's NULL path. */
  function Left(s: State, t: Tid): State
    requires t in s.threads && Enabled(s, Leave(t))
  {
    var th := s.threads[t];
    var keeps := th.pc.Holding? && th.pc.seen.None? && !th.kind.releasesOnNull;
    Goto(s, t, Done).(conn := if keeps then s.conn else s.conn.(mutex := None))
  }

  // ---- Runs -----------------------------------------------------------------

  predicate Legal(s: State, ls: seq<Label>)
    decreases |ls|
  {
    ls == [] || (Enabled(s, ls[0]) && Legal(Apply(s, ls[0]), ls[1..]))
  }

  function After(s: State, ls: seq<Label>): State
    requires Legal(s, ls)
    decreases |ls|
  {
    if ls == [] then s else After(Apply(s, ls[0]), ls[1..])
  }
}
