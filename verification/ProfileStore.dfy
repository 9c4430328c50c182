/** The in-memory list of profiles: upsert, remove and rename, each followed by a
    save, and what any sequence of them keeps. */
module ProfileStore {
  import opened Basics
  import opened ProfileFile

  function IndexOfName(items: seq<Profile>, name: string): (i: nat)
    ensures i <= |items| && (i < |items| ==> NameOf(items[i]) == name)
    ensures forall j :: 0 <= j < i ==> NameOf(items[j]) != name
  {
    if items == [] || NameOf(items[0]) == name then 0 else 1 + IndexOfName(items[1..], name)
  }

  function Upserted(items: seq<Profile>, p: Profile): seq<Profile> {
    var i := IndexOfName(items, NameOf(p));
    if i < |items| then items[i := p] else items + [p]
  }

  function Removed(items: seq<Profile>, name: string): seq<Profile> {
    var i := IndexOfName(items, name);
    if i < |items| then items[..i] + items[i + 1..] else items
  }

  /** The edit dialog's save: drop the old name if it changed, then upsert. */
  function Renamed(items: seq<Profile>, original: Option<string>, p: Profile): seq<Profile> {
    Upserted(if original.Some? && original.value != NameOf(p) then Removed(items, original.value) else items, p)
  }

  /** The invariant of the list: every profile named, no name twice. */
  predicate WellNamed(items: seq<Profile>) {
    Named(items) && UniqueNames(items)
  }

  /** The profiles under none of the given names, in order. */
  function Others(items: seq<Profile>, names: set<string>): seq<Profile> {
    if items == [] then []
    else (if NameOf(items[0]) in names then [] else [items[0]]) + Others(items[1..], names)
  }

  lemma {:induction false} OthersAppend(a: seq<Profile>, b: seq<Profile>, names: set<string>)
    ensures Others(a + b, names) == Others(a, names) + Others(b, names)
    decreases |a|
  {
    if a == [] {
      assert a + b == b;
    } else {
      assert (a + b)[1..] == a[1..] + b;
      OthersAppend(a[1..], b, names);
    }
  }

  lemma OthersOfNamed(a: seq<Profile>, names: set<string>)
    requires |a| <= 1 && forall p :: p in a ==> NameOf(p) in names
    ensures Others(a, names) == []
  {
    if a != [] {
      assert a[0] in a && a[1..] == [];
    }
  }

  /** Dropping or replacing one profile under a given name does not disturb the others. */
  lemma OthersWithout(a: seq<Profile>, old1: seq<Profile>, new1: seq<Profile>, b: seq<Profile>, names: set<string>)
    requires |old1| <= 1 && |new1| <= 1
    requires forall p :: p in old1 || p in new1 ==> NameOf(p) in names
    ensures Others(a + old1 + b, names) == Others(a + new1 + b, names)
  {
    OthersAppend(a + old1, b, names);
    OthersAppend(a + new1, b, names);
    OthersAppend(a, old1, names);
    OthersAppend(a, new1, names);
    OthersOfNamed(old1, names);
    OthersOfNamed(new1, names);
  }

  lemma UpsertOthers(items: seq<Profile>, p: Profile, names: set<string>)
    requires NameOf(p) in names
    ensures Others(Upserted(items, p), names) == Others(items, names)
  {
    var i := IndexOfName(items, NameOf(p));
    if i < |items| {
      OthersWithout(items[..i], [items[i]], [p], items[i + 1..], names);
      assert items == items[..i] + [items[i]] + items[i + 1..];
      assert items[i := p] == items[..i] + [p] + items[i + 1..];
    } else {
      OthersWithout(items, [], [p], [], names);
      assert items + [] + [] == items && items + [p] + [] == items + [p];
    }
  }

  lemma UpsertNames(items: seq<Profile>, p: Profile)
    requires WellNamed(items) && NameOf(p) != ""
    ensures WellNamed(Upserted(items, p)) && p in Upserted(items, p)
    ensures forall q :: q in Upserted(items, p) ==> q == p || (q in items && NameOf(q) != NameOf(p))
  {
    var i := IndexOfName(items, NameOf(p));
    var r := Upserted(items, p);
    assert r[i] == p;
    assert forall j :: 0 <= j < |r| && j != i ==> r[j] == items[j] && NameOf(r[j]) != NameOf(p);
  }

  lemma RemoveOthers(items: seq<Profile>, name: string, names: set<string>)
    requires name in names
    ensures Others(Removed(items, name), names) == Others(items, names)
  {
    var i := IndexOfName(items, name);
    if i < |items| {
      OthersWithout(items[..i], [items[i]], [], items[i + 1..], names);
      assert items == items[..i] + [items[i]] + items[i + 1..];
      assert Removed(items, name) == items[..i] + [] + items[i + 1..];
    }
  }

  lemma RemoveNames(items: seq<Profile>, name: string)
    requires WellNamed(items)
    ensures WellNamed(Removed(items, name))
    ensures forall q :: q in Removed(items, name) ==> q in items && NameOf(q) != name
    ensures forall q :: q in items && NameOf(q) != name ==> q in Removed(items, name)
  {
    RemovedHas(items, name);
    RemovedFrom(items, name);
    forall i, j | 0 <= i < j < |Removed(items, name)|
      ensures NameOf(Removed(items, name)[i]) != NameOf(Removed(items, name)[j])
    {
      RemovedAt(items, name, i);
      RemovedAt(items, name, j);
    }
  }

  lemma RemovedAt(items: seq<Profile>, name: string, j: nat)
    requires j < |Removed(items, name)|
    ensures var i := IndexOfName(items, name);
            var k := if i < |items| && j >= i then j + 1 else j;
            k < |items| && Removed(items, name)[j] == items[k]
  {
    WithoutAt(items, IndexOfName(items, name), j);
  }

  lemma WithoutAt(items: seq<Profile>, i: nat, j: nat)
    requires i <= |items| && (if i < |items| then j < |items| - 1 else j < |items|)
    ensures i < |items| ==> (items[..i] + items[i + 1..])[j] == if j < i then items[j] else items[j + 1]
  {
  }

  lemma RemovedFrom(items: seq<Profile>, name: string)
    requires WellNamed(items)
    ensures forall q :: q in Removed(items, name) ==> q in items && NameOf(q) != name && NameOf(q) != ""
  {
    forall q | q in Removed(items, name) ensures q in items && NameOf(q) != name && NameOf(q) != "" {
      var j :| 0 <= j < |Removed(items, name)| && Removed(items, name)[j] == q;
      RemovedAt(items, name, j);
    }
  }

  lemma RemovedHas(items: seq<Profile>, name: string)
    ensures forall q :: q in items && NameOf(q) != name ==> q in Removed(items, name)
  {
    var i := IndexOfName(items, name);
    if i < |items| {
      assert items == items[..i] + [items[i]] + items[i + 1..];
    }
  }

  /** A rename leaves exactly the edited profile under the new name, none under the
      old one, and all others as they were and in the same order, also when the new
      name was in use. */
  lemma RenameEffect(items: seq<Profile>, original: string, p: Profile)
    requires WellNamed(items) && NameOf(p) != ""
    ensures var r := Renamed(items, Some(original), p);
            && WellNamed(r)
            && (forall q :: q in r && NameOf(q) == NameOf(p) <==> q == p)
            && (original != NameOf(p) ==> forall q :: q in r ==> NameOf(q) != original)
            && Others(r, {original, NameOf(p)}) == Others(items, {original, NameOf(p)})
  {
    var names := {original, NameOf(p)};
    var kept := if original != NameOf(p) then Removed(items, original) else items;
    RemoveOthers(items, original, names);
    RemoveNames(items, original);
    UpsertOthers(kept, p, names);
    UpsertNames(kept, p);
  }

  /** Where things go: a profile whose name is in use takes the place of the first that
      has it, a new one comes last, and a removal closes the gap. */
  lemma PlaceInList(a: seq<Profile>, q: Profile, b: seq<Profile>, p: Profile)
    requires NameOf(q) == NameOf(p) && forall i :: 0 <= i < |a| ==> NameOf(a[i]) != NameOf(p)
    ensures Upserted(a + [q] + b, p) == a + [p] + b
    ensures Removed(a + [q] + b, NameOf(p)) == a + b
    ensures Upserted(a, p) == a + [p]
    ensures Removed(a, NameOf(p)) == a
  {
    var all := a + [q] + b;
    assert all[|a|] == q && forall i :: 0 <= i < |a| ==> all[i] == a[i];
    var i := IndexOfName(all, NameOf(p));
    assert i == |a|;
    assert IndexOfName(a, NameOf(p)) == |a|;
  }

  /** A rename to an unused name takes the profile out of its place and puts it last. */
  lemma RenamedComesLast(a: seq<Profile>, q: Profile, b: seq<Profile>, p: Profile)
    requires NameOf(q) != NameOf(p)
    requires forall i :: 0 <= i < |a| ==> NameOf(a[i]) != NameOf(q)
    requires forall i :: 0 <= i < |a + b| ==> NameOf((a + b)[i]) != NameOf(p)
    ensures Renamed(a + [q] + b, Some(NameOf(q)), p) == a + b + [p]
    ensures Renamed(a + [q] + b, Some(NameOf(q)), p.(name := q.name)) == a + [p.(name := q.name)] + b
    ensures Renamed(a + b, None, p) == a + b + [p]
  {
    PlaceInList(a, q, b, q);
    PlaceInList(a + b, p, [], p);
    PlaceInList(a, q, b, p.(name := q.name));
  }

  datatype Op =
    | Upsert(p: Profile)
    | Remove(name: string)
    | Rename(original: Option<string>, p: Profile)

  /** The dialogs only ever store profiles with a name. */
  predicate Stores(op: Op) {
    op.Remove? || NameOf(op.p) != ""
  }

  function RunOp(items: seq<Profile>, op: Op): seq<Profile> {
    match op
    case Upsert(p) => Upserted(items, p)
    case Remove(name) => Removed(items, name)
    case Rename(original, p) => Renamed(items, original, p)
  }

  function RunOps(items: seq<Profile>, ops: seq<Op>): seq<Profile>
    decreases |ops|
  {
    if ops == [] then items else RunOps(RunOp(items, ops[0]), ops[1..])
  }

  lemma {:induction false} OpsKeepNames(items: seq<Profile>, ops: seq<Op>)
    requires WellNamed(items) && forall op :: op in ops ==> Stores(op)
    ensures WellNamed(RunOps(items, ops))
    decreases |ops|
  {
    if ops != [] {
      assert ops[0] in ops;
      match ops[0] {
        case Upsert(p) => UpsertNames(items, p);
        case Remove(name) => RemoveNames(items, name);
        case Rename(original, p) =>
          if original.Some? {
            RenameEffect(items, original.value, p);
          } else {
            UpsertNames(items, p);
          }
      }
      assert forall op :: op in ops[1..] ==> op in ops;
      OpsKeepNames(RunOp(items, ops[0]), ops[1..]);
    }
  }

  /** A file GKeyFile can hold: acceptable group names, none twice. */
  predicate ProperFile(kf: KeyFile) {
    (forall i :: 0 <= i < |kf| ==> IsGroupName(kf[i].name)) &&
    forall i, j :: 0 <= i < j < |kf| ==> kf[i].name != kf[j].name
  }

  /** From any loaded file, any sequence of upserts, removes and renames keeps names
      present and unique, so that the next load gives back all profiles the file can
      carry, normalised and in order. */
  lemma StoreSurvivesAnyRun(kf: KeyFile, ops: seq<Op>)
    requires ProperFile(kf) && forall op :: op in ops ==> Stores(op)
    ensures var items := RunOps(LoadAll(kf), ops);
            WellNamed(items) && LoadAll(SaveAll(items)) == Carried(items)
  {
    OpsKeepNames(LoadAll(kf), ops);
    LoadAfterSave(RunOps(LoadAll(kf), ops));
  }

  /** The file after a save of the edit dialog, which writes it once for the removal, if
      there is one, and once for the upsert; either write may fail. */
  function FileAfterEdit(file: KeyFile, items: seq<Profile>, original: Option<string>, p: Profile,
                         removalWritten: bool, upsertWritten: bool): KeyFile {
    if upsertWritten then SaveAll(Renamed(items, original, p))
    else if original.Some? && original.value != NameOf(p) && Occurs(items, original.value) && removalWritten
    then SaveAll(Removed(items, original.value))
    else file
  }

  predicate Stored(kf: KeyFile, name: string) {
    Find(kf, name) < |kf|
  }

  /** A profile renamed to an unused name is in the file under neither name exactly if
      the removal was written and the upsert was not, or the new name is none a group can
      have. In the list it is under the new name either way. */
  lemma FailedRenameLosesProfile(items: seq<Profile>, original: string, p: Profile, removalWritten: bool, upsertWritten: bool)
    requires WellNamed(items) && Occurs(items, original) && IsGroupName(original)
    requires NameOf(p) != "" && !Occurs(items, NameOf(p))
    ensures var kf := FileAfterEdit(SaveAll(items), items, Some(original), p, removalWritten, upsertWritten);
            !Stored(kf, original) && !Stored(kf, NameOf(p)) <==>
            (removalWritten && !upsertWritten) || (upsertWritten && !IsGroupName(NameOf(p)))
    ensures p in Renamed(items, Some(original), p)
  {
    RenamedNames(items, original, p);
    if upsertWritten {
      StoredIfPossible(Renamed(items, Some(original), p), original);
      StoredIfPossible(Renamed(items, Some(original), p), NameOf(p));
    } else if removalWritten {
      StoredIfPossible(Removed(items, original), original);
      StoredIfPossible(Removed(items, original), NameOf(p));
    } else {
      StoredIfPossible(items, original);
    }
  }

  lemma RenamedNames(items: seq<Profile>, original: string, p: Profile)
    requires WellNamed(items) && Occurs(items, original) && NameOf(p) != "" && !Occurs(items, NameOf(p))
    ensures var dropped, renamed := Removed(items, original), Renamed(items, Some(original), p);
            && !Occurs(dropped, original) && !Occurs(dropped, NameOf(p))
            && p in renamed && Occurs(renamed, NameOf(p)) && !Occurs(renamed, original)
  {
    var dropped := Removed(items, original);
    RemoveNames(items, original);
    UpsertNames(dropped, p);
    assert Renamed(items, Some(original), p) == Upserted(dropped, p);
  }

  lemma StoredIfPossible(items: seq<Profile>, name: string)
    ensures Stored(SaveAll(items), name) <==> Occurs(items, name) && IsGroupName(name)
  {
    if IsGroupName(name) {
      SavedGroup(items, name);
    } else {
      OnlyGroupNames(items, name);
    }
  }

  lemma {:induction false} OnlyGroupNames(items: seq<Profile>, name: string)
    requires !IsGroupName(name)
    ensures Lacks(SaveAll(items), name)
    decreases |items|
  {
    if items != [] {
      OnlyGroupNames(items[..|items| - 1], name);
    }
  }

  // ---- The code ----------------------------------------------------------------------

  lemma MergeOne(kf: KeyFile, g: string, ks: Keys, k: Key, v: Value)
    ensures Merge(Merge(kf, g, ks), g, map[k := v]) == Merge(kf, g, ks[k := v])
  {
    MergeTwice(kf, g, ks, map[k := v]);
    assert ks + map[k := v] == ks[k := v];
  }

  /** One `g_key_file_set_*` call. */
  function SetKey(kf: KeyFile, g: string, k: Key, v: Value): KeyFile {
    Merge(kf, g, map[k := v])
  }

  class Form {
    var name: string
    var host: string
    var port: int
    var baseDn: string
    var simple: bool
    var bindDn: string
    var useTls: bool
    var useLdaps: bool
    var skipCert: bool
    var uidMin: int
    var uidMax: int
    var gidMin: int
    var gidMax: int

    /** `validate_inputs` without the password: host and base DN present, and a range
        with both bounds set not upside down. */
    function ValidForSaving(): bool
      reads this
    {
      host != "" && baseDn != "" &&
      !(uidMin > 0 && uidMax > 0 && uidMax < uidMin) && !(gidMin > 0 && gidMax > 0 && gidMax < gidMin)
    }

    /** The profile says what the form says: a bind DN only for simple binds, and a bound
        only if the spinner is not at 0. */
    predicate Describes(p: Profile)
      reads this
    {
      && (if name == "" then p.name == None else p.name == Some(name)) && p.host == Some(host) && p.port == port && p.baseDn == Some(baseDn)
      && (p.auth == Simple <==> simple) && (simple ==> p.bindDn == Some(bindDn)) && (!simple ==> p.bindDn == None)
      && p.useTls == useTls && p.useLdaps == useLdaps && p.skipCert == skipCert
      && (if uidMin > 0 then p.uidMin == uidMin else p.uidMin == -1)
      && (if uidMax > 0 then p.uidMax == uidMax else p.uidMax == -1)
      && (if gidMin > 0 then p.gidMin == gidMin else p.gidMin == -1)
      && (if gidMax > 0 then p.gidMax == gidMax else p.gidMax == -1)
    }

    /** The profile built from the form. */
    function Typed(): (p: Profile)
      reads this
      ensures Describes(p)
    {
      Profile(if name != "" then Some(name) else None, Some(host), port, Some(baseDn),
              if simple then Simple else Kerberos, if simple then Some(bindDn) else None,
              useTls, useLdaps, skipCert,
              if uidMin > 0 then uidMin else -1, if uidMax > 0 then uidMax else -1,
              if gidMin > 0 then gidMin else -1, if gidMax > 0 then gidMax else -1)
    }
  }

  class Store {
    var items: seq<Profile>
    var file: KeyFile

    /** Load: one profile per group, in file order. */
    constructor Load(kf: KeyFile)
      ensures items == LoadAll(kf) && file == kf
    {
      file := kf;
      items := [];
      new;
      var i := 0;
      while i < |kf|
        invariant 0 <= i <= |kf| && file == kf
        invariant items == LoadAll(kf)[..i]
      {
        items := items + [LoadOne(kf[i])];
        i := i + 1;
      }
    }

    /** Save: key by key, profile by profile; nameless profiles are skipped. */
    method Save(writable: bool) returns (ok: bool)
      modifies this`file
      ensures ok == writable && file == if writable then SaveAll(items) else old(file)
    {
      var kf: KeyFile := [];
      var i := 0;
      while i < |items|
        invariant 0 <= i <= |items| && kf == SaveAll(items[..i])
        invariant file == old(file)
      {
        var p := items[i];
        assert items[..i + 1][..i] == items[..i];
        assert SaveAll(items[..i + 1]) == SaveOne(kf, p);
        if NameOf(p) != "" {
          kf := WriteProfile(kf, p);
        }
        i := i + 1;
      }
      assert items[..i] == items;
      if writable {
        file := kf;
      }
      ok := writable;
    }

    static method WriteProfile(kf0: KeyFile, p: Profile) returns (kf: KeyFile)
      ensures kf == SaveOne(kf0, p)
    {
      var name := NameOf(p);
      ghost var ks: Keys := map[HostKey := Str(OrEmpty(p.host))];
      kf := SetKey(kf0, name, HostKey, Str(OrEmpty(p.host)));
      MergeOne(kf0, name, ks, PortKey, Int(p.port));
      kf := SetKey(kf, name, PortKey, Int(p.port));
      ks := ks[PortKey := Int(p.port)];
      MergeOne(kf0, name, ks, BaseDnKey, Str(OrEmpty(p.baseDn)));
      kf := SetKey(kf, name, BaseDnKey, Str(OrEmpty(p.baseDn)));
      ks := ks[BaseDnKey := Str(OrEmpty(p.baseDn))];
      MergeOne(kf0, name, ks, AuthTypeKey, Str(AuthWord(p.auth)));
      kf := SetKey(kf, name, AuthTypeKey, Str(AuthWord(p.auth)));
      ks := ks[AuthTypeKey := Str(AuthWord(p.auth))];
      MergeOne(kf0, name, ks, BindDnKey, Str(OrEmpty(p.bindDn)));
      kf := SetKey(kf, name, BindDnKey, Str(OrEmpty(p.bindDn)));
      ks := ks[BindDnKey := Str(OrEmpty(p.bindDn))];
      MergeOne(kf0, name, ks, UseTlsKey, Bool(p.useTls));
      kf := SetKey(kf, name, UseTlsKey, Bool(p.useTls));
      ks := ks[UseTlsKey := Bool(p.useTls)];
      MergeOne(kf0, name, ks, UseLdapsKey, Bool(p.useLdaps));
      kf := SetKey(kf, name, UseLdapsKey, Bool(p.useLdaps));
      ks := ks[UseLdapsKey := Bool(p.useLdaps)];
      MergeOne(kf0, name, ks, SkipCertKey, Bool(p.skipCert));
      kf := SetKey(kf, name, SkipCertKey, Bool(p.skipCert));
      ks := ks[SkipCertKey := Bool(p.skipCert)];
      assert ks == PlainKeys(p);
      kf := WriteRanges(kf0, kf, p);
    }

    static method WriteRanges(ghost kf0: KeyFile, kf1: KeyFile, p: Profile) returns (kf: KeyFile)
      requires kf1 == Merge(kf0, NameOf(p), PlainKeys(p))
      ensures kf == SaveOne(kf0, p)
    {
      var name := NameOf(p);
      ghost var plain := PlainKeys(p);
      ghost var a := Bounded(UidMinKey, p.uidMin);
      ghost var b := a + Bounded(UidMaxKey, p.uidMax);
      ghost var c := b + Bounded(GidMinKey, p.gidMin);
      assert plain + map[] == plain && map[] + a == a;
      kf := WriteBound(kf0, kf1, name, plain, map[], UidMinKey, p.uidMin);
      kf := WriteBound(kf0, kf, name, plain, a, UidMaxKey, p.uidMax);
      kf := WriteBound(kf0, kf, name, plain, b, GidMinKey, p.gidMin);
      kf := WriteBound(kf0, kf, name, plain, c, GidMaxKey, p.gidMax);
      assert c + Bounded(GidMaxKey, p.gidMax) == RangeKeys(p);
    }

    static function Bounded(k: Key, x: int): Keys {
      if x >= 0 then map[k := Int(x)] else map[]
    }

    static method WriteBound(ghost kf0: KeyFile, kf1: KeyFile, name: string, ghost plain: Keys, ghost r: Keys, k: Key, x: int)
      returns (kf: KeyFile)
      requires kf1 == Merge(kf0, name, plain + r)
      ensures kf == Merge(kf0, name, plain + (r + Bounded(k, x)))
    {
      kf := kf1;
      if x >= 0 {
        MergeOne(kf0, name, plain + r, k, Int(x));
        assert (plain + r)[k := Int(x)] == plain + (r + Bounded(k, x));
        kf := SetKey(kf, name, k, Int(x));
      } else {
        assert r + Bounded(k, x) == r;
      }
    }

    method FindName(name: string) returns (i: nat)
      ensures i == IndexOfName(items, name)
    {
      i := 0;
      while i < |items| && NameOf(items[i]) != name
        invariant 0 <= i <= |items| && forall j :: 0 <= j < i ==> NameOf(items[j]) != name
      {
        i := i + 1;
      }
    }

    /** The list changes even if the file cannot be written. */
    method UpsertProfile(p: Profile, writable: bool) returns (ok: bool)
      modifies this
      ensures items == Upserted(old(items), p)
      ensures ok == writable && file == if writable then SaveAll(items) else old(file)
    {
      var i := FindName(NameOf(p));
      if i < |items| {
        items := items[..i] + items[i + 1..];
        items := items[..i] + [p] + items[i..];
        ok := Save(writable);
      } else {
        items := items + [p];
        ok := Save(writable);
      }
    }

    /** An unknown name is no error and saves nothing. */
    method RemoveProfile(name: string, writable: bool) returns (ok: bool)
      modifies this
      ensures items == Removed(old(items), name)
      ensures ok == (writable || IndexOfName(old(items), name) == |old(items)|)
      ensures file == if writable && IndexOfName(old(items), name) < |old(items)| then SaveAll(items) else old(file)
    {
      var i := FindName(name);
      if i < |items| {
        items := items[..i] + items[i + 1..];
        ok := Save(writable);
      } else {
        ok := true;
      }
    }

    /** Save in the edit dialog; a failed removal is only logged. */
    method SaveEdit(form: Form, original: Option<string>, removalWritable: bool, upsertWritable: bool) returns (ok: bool)
      requires WellNamed(items)
      modifies this
      ensures WellNamed(items)
      ensures form.host == "" || form.baseDn == "" || form.name == "" ||
              (0 < form.uidMax < form.uidMin) || (0 < form.gidMax < form.gidMin) ==>
                !ok && items == old(items) && file == old(file)
      ensures form.host != "" && form.baseDn != "" && form.name != "" &&
              !(0 < form.uidMax < form.uidMin) && !(0 < form.gidMax < form.gidMin) ==>
                ok == upsertWritable && form.Typed() in items
      ensures if !form.ValidForSaving() || form.name == "" then !ok && items == old(items) && file == old(file)
              else ok == upsertWritable && items == Renamed(old(items), original, form.Typed()) &&
                   file == FileAfterEdit(old(file), old(items), original, form.Typed(), removalWritable, upsertWritable)
    {
      if !form.ValidForSaving() {
        return false;
      }
      var p := form.Typed();
      if p.name == None {
        return false;
      }
      OpsKeepNames(items, [Rename(original, p)]);
      assert RunOps(items, [Rename(original, p)]) == Renamed(items, original, p);
      if original.Some? && original.value != NameOf(p) {
        OccursAtIndex(items, original.value);
        var _ := RemoveProfile(original.value, removalWritable);
      }
      UpsertedHas(items, p);
      ok := UpsertProfile(p, upsertWritable);
      assert p in items;
    }
  }

  lemma OccursAtIndex(items: seq<Profile>, name: string)
    ensures Occurs(items, name) <==> IndexOfName(items, name) < |items|
  {
  }

  lemma UpsertedHas(items: seq<Profile>, p: Profile)
    ensures p in Upserted(items, p)
  {
    assert Upserted(items, p)[IndexOfName(items, NameOf(p))] == p;
  }
}
