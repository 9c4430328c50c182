/** Connection profiles and their key file: what saving writes, what loading reads
    back, and when the two agree. */
module ProfileFile {
  import opened Basics

  datatype AuthType = Kerberos | Simple

  datatype Profile = Profile(
    name: Option<string>, host: Option<string>, port: int, baseDn: Option<string>,
    auth: AuthType, bindDn: Option<string>, useTls: bool, useLdaps: bool, skipCert: bool,
    uidMin: int, uidMax: int, gidMin: int, gidMax: int)

  function NameOf(p: Profile): string {
    if p.name.Some? then p.name.value else ""
  }

  // ---- The key file -------------------------------------------------------------

  /** The key strings of `connections.ini`. */
  datatype Key =
    | HostKey | PortKey | BaseDnKey | AuthTypeKey | BindDnKey | UseTlsKey | UseLdapsKey | SkipCertKey
    | UidMinKey | UidMaxKey | GidMinKey | GidMaxKey

  datatype Value = Str(s: string) | Int(i: int) | Bool(b: bool)
  type Keys = map<Key, Value>
  datatype Group = Group(name: string, keys: Keys)
  type KeyFile = seq<Group>

  /** Group names GKeyFile accepts: not empty, no brackets, no control characters. */
  predicate IsGroupName(g: string) {
    g != "" && forall i :: 0 <= i < |g| ==> g[i] != '[' && g[i] != ']' && g[i] >= ' ' && g[i] != 127 as char
  }

  function Find(kf: KeyFile, g: string): (i: nat)
    ensures i <= |kf| && (i < |kf| ==> kf[i].name == g)
    ensures forall j :: 0 <= j < i ==> kf[j].name != g
  {
    if kf == [] || kf[0].name == g then 0 else 1 + Find(kf[1..], g)
  }

  /** Setting keys of one group: a group GKeyFile rejects is ignored, a known one is
      updated in place, a new one comes last. */
  function Merge(kf: KeyFile, g: string, ks: Keys): KeyFile {
    var i := Find(kf, g);
    if !IsGroupName(g) then kf
    else if i < |kf| then kf[i := Group(g, kf[i].keys + ks)]
    else kf + [Group(g, ks)]
  }

  lemma FindAppended(kf: KeyFile, x: Group)
    requires Find(kf, x.name) == |kf|
    ensures Find(kf + [x], x.name) == |kf|
  {
    assert forall j :: 0 <= j < |kf| ==> (kf + [x])[j].name != x.name;
    assert (kf + [x])[|kf|] == x;
  }

  lemma MergeTwice(kf: KeyFile, g: string, a: Keys, b: Keys)
    ensures Merge(Merge(kf, g, a), g, b) == Merge(kf, g, a + b)
  {
    var i := Find(kf, g);
    if IsGroupName(g) {
      if i < |kf| {
        var kf' := Merge(kf, g, a);
        assert Find(kf', g) == i by {
          assert forall j :: 0 <= j < |kf| ==> kf'[j].name == kf[j].name;
        }
        assert kf[i].keys + a + b == kf[i].keys + (a + b);
      } else {
        FindAppended(kf, Group(g, a));
      }
    }
  }

  // ---- One profile ---------------------------------------------------------------

  function OrEmpty(s: Option<string>): string {
    if s.Some? then s.value else ""
  }

  function AuthWord(a: AuthType): string {
    if a == Simple then "simple" else "kerberos"
  }

  /** Range keys are written only if set. */
  function RangeKeys(p: Profile): Keys {
    (if p.uidMin >= 0 then map[UidMinKey := Int(p.uidMin)] else map[]) +
    (if p.uidMax >= 0 then map[UidMaxKey := Int(p.uidMax)] else map[]) +
    (if p.gidMin >= 0 then map[GidMinKey := Int(p.gidMin)] else map[]) +
    (if p.gidMax >= 0 then map[GidMaxKey := Int(p.gidMax)] else map[])
  }

  function PlainKeys(p: Profile): Keys {
    map[HostKey := Str(OrEmpty(p.host)), PortKey := Int(p.port), BaseDnKey := Str(OrEmpty(p.baseDn)),
        AuthTypeKey := Str(AuthWord(p.auth)), BindDnKey := Str(OrEmpty(p.bindDn)),
        UseTlsKey := Bool(p.useTls), UseLdapsKey := Bool(p.useLdaps), SkipCertKey := Bool(p.skipCert)]
  }

  function SaveOne(kf: KeyFile, p: Profile): KeyFile {
    Merge(kf, NameOf(p), PlainKeys(p) + RangeKeys(p))
  }

  function GetStr(ks: Keys, k: Key): Option<string> {
    if k in ks && ks[k].Str? then Some(ks[k].s) else None
  }

  function GetInt(ks: Keys, k: Key, unset: int): int {
    if k in ks && ks[k].Int? then ks[k].i else unset
  }

  function GetBool(ks: Keys, k: Key): bool {
    k in ks && ks[k].Bool? && ks[k].b
  }

  function LoadOne(g: Group): Profile {
    Profile(Some(g.name), GetStr(g.keys, HostKey), GetInt(g.keys, PortKey, 389), GetStr(g.keys, BaseDnKey),
            if GetStr(g.keys, AuthTypeKey) == Some("simple") then Simple else Kerberos,
            GetStr(g.keys, BindDnKey),
            GetBool(g.keys, UseTlsKey), GetBool(g.keys, UseLdapsKey), GetBool(g.keys, SkipCertKey),
            GetInt(g.keys, UidMinKey, -1), GetInt(g.keys, UidMaxKey, -1),
            GetInt(g.keys, GidMinKey, -1), GetInt(g.keys, GidMaxKey, -1))
  }

  // ---- The whole store -------------------------------------------------------------

  function SaveAll(items: seq<Profile>): KeyFile {
    if items == [] then [] else SaveOne(SaveAll(items[..|items| - 1]), items[|items| - 1])
  }

  function LoadAll(kf: KeyFile): seq<Profile> {
    seq(|kf|, i requires 0 <= i < |kf| => LoadOne(kf[i]))
  }

  /** What a save and a load make of a profile: no NULL strings, no negative bounds but -1. */
  function Normalise(p: Profile): Profile {
    p.(host := Some(OrEmpty(p.host)), baseDn := Some(OrEmpty(p.baseDn)), bindDn := Some(OrEmpty(p.bindDn)),
       uidMin := if p.uidMin >= 0 then p.uidMin else -1, uidMax := if p.uidMax >= 0 then p.uidMax else -1,
       gidMin := if p.gidMin >= 0 then p.gidMin else -1, gidMax := if p.gidMax >= 0 then p.gidMax else -1)
  }

  /** The stored profiles a save can carry, normalised, in order. */
  function Carried(items: seq<Profile>): seq<Profile> {
    if items == [] then []
    else
      var p := items[|items| - 1];
      Carried(items[..|items| - 1]) + if IsGroupName(NameOf(p)) then [Normalise(p)] else []
  }

  predicate Named(items: seq<Profile>) {
    forall i :: 0 <= i < |items| ==> NameOf(items[i]) != ""
  }

  predicate UniqueNames(items: seq<Profile>) {
    forall i, j :: 0 <= i < j < |items| ==> NameOf(items[i]) != NameOf(items[j])
  }

  /** The plain keys of the last profile written to a group are the ones read. */
  lemma PlainReads(earlier: Keys, p: Profile)
    ensures var ks := earlier + PlainKeys(p);
            && GetStr(ks, HostKey) == Some(OrEmpty(p.host)) && GetInt(ks, PortKey, 389) == p.port
            && GetStr(ks, BaseDnKey) == Some(OrEmpty(p.baseDn))
            && GetStr(ks, AuthTypeKey) == Some(if p.auth == Simple then "simple" else "kerberos")
            && GetStr(ks, BindDnKey) == Some(OrEmpty(p.bindDn)) && GetBool(ks, UseTlsKey) == p.useTls
            && GetBool(ks, UseLdapsKey) == p.useLdaps && GetBool(ks, SkipCertKey) == p.skipCert
  {
  }

  function Written(x: int): Option<Value> {
    if x >= 0 then Some(Int(x)) else None
  }

  /** Each range key is overwritten if the profile sets it and kept otherwise. */
  lemma RangeReads(earlier: Keys, p: Profile, k: Key)
    ensures var now := if k == UidMinKey then Written(p.uidMin) else if k == UidMaxKey then Written(p.uidMax)
                       else if k == GidMinKey then Written(p.gidMin) else if k == GidMaxKey then Written(p.gidMax) else None;
            && (k in earlier + RangeKeys(p) <==> k in earlier || now.Some?)
            && (k in earlier + RangeKeys(p) ==>
                  (earlier + RangeKeys(p))[k] == if now.Some? then now.value else earlier[k])
  {
  }

  lemma RangeKeysLeavePlain(m: Keys, p: Profile, k: Key)
    requires !(k.UidMinKey? || k.UidMaxKey? || k.GidMinKey? || k.GidMaxKey?)
    ensures var ks := m + RangeKeys(p);
            GetStr(ks, k) == GetStr(m, k) && GetInt(ks, k, 389) == GetInt(m, k, 389) && GetBool(ks, k) == GetBool(m, k)
  {
    RangeReads(m, p, k);
  }

  lemma BoundReads(earlier: Keys, p: Profile, k: Key, own: int)
    requires (k == UidMinKey && own == p.uidMin) || (k == UidMaxKey && own == p.uidMax)
             || (k == GidMinKey && own == p.gidMin) || (k == GidMaxKey && own == p.gidMax)
    ensures GetInt(earlier + PlainKeys(p) + RangeKeys(p), k, -1) == if own >= 0 then own else GetInt(earlier, k, -1)
  {
    RangeReads(earlier + PlainKeys(p), p, k);
    assert k !in PlainKeys(p);
  }

  /** The profile read from a group that `p` was written to last. */
  lemma GroupReads(g: string, earlier: Keys, p: Profile)
    requires p.name == Some(g)
    ensures LoadOne(Group(g, earlier + (PlainKeys(p) + RangeKeys(p)))) ==
            Normalise(p).(uidMin := if p.uidMin >= 0 then p.uidMin else GetInt(earlier, UidMinKey, -1),
                          uidMax := if p.uidMax >= 0 then p.uidMax else GetInt(earlier, UidMaxKey, -1),
                          gidMin := if p.gidMin >= 0 then p.gidMin else GetInt(earlier, GidMinKey, -1),
                          gidMax := if p.gidMax >= 0 then p.gidMax else GetInt(earlier, GidMaxKey, -1))
  {
    var plain := earlier + PlainKeys(p);
    assert earlier + (PlainKeys(p) + RangeKeys(p)) == plain + RangeKeys(p);
    PlainReads(earlier, p);
    forall k: Key | !(k.UidMinKey? || k.UidMaxKey? || k.GidMinKey? || k.GidMaxKey?)
      ensures GetStr(plain + RangeKeys(p), k) == GetStr(plain, k)
      ensures GetInt(plain + RangeKeys(p), k, 389) == GetInt(plain, k, 389)
      ensures GetBool(plain + RangeKeys(p), k) == GetBool(plain, k)
    {
      RangeKeysLeavePlain(plain, p, k);
    }
    BoundReads(earlier, p, UidMinKey, p.uidMin);
    BoundReads(earlier, p, UidMaxKey, p.uidMax);
    BoundReads(earlier, p, GidMinKey, p.gidMin);
    BoundReads(earlier, p, GidMaxKey, p.gidMax);
    assert "kerberos" != "simple";
  }

  lemma OneRoundTrip(p: Profile)
    requires p.name.Some?
    ensures LoadOne(Group(NameOf(p), PlainKeys(p) + RangeKeys(p))) == Normalise(p)
  {
    GroupReads(NameOf(p), map[], p);
    assert map[] + (PlainKeys(p) + RangeKeys(p)) == PlainKeys(p) + RangeKeys(p);
  }

  /** Every field of a saved profile comes back: text as it is, NULL as "", bounds as they
      are if not negative and -1 otherwise. */
  lemma EveryFieldComesBack(p: Profile)
    requires p.name.Some? && IsGroupName(p.name.value)
    ensures var back := LoadAll(SaveAll([p]));
            |back| == 1 && var q := back[0];
            && q.name == p.name && q.port == p.port && q.auth == p.auth
            && q.host == Some(if p.host.Some? then p.host.value else "")
            && q.baseDn == Some(if p.baseDn.Some? then p.baseDn.value else "")
            && q.bindDn == Some(if p.bindDn.Some? then p.bindDn.value else "")
            && q.useTls == p.useTls && q.useLdaps == p.useLdaps && q.skipCert == p.skipCert
            && q.uidMin == (if p.uidMin >= 0 then p.uidMin else -1) && q.uidMax == (if p.uidMax >= 0 then p.uidMax else -1)
            && q.gidMin == (if p.gidMin >= 0 then p.gidMin else -1) && q.gidMax == (if p.gidMax >= 0 then p.gidMax else -1)
  {
    LoadAfterSave([p]);
    assert [p][..0] == [];
    assert Carried([p]) == Carried([]) + [Normalise(p)];
  }

  /** What a hand-written group without keys loads as, and which values are not taken. */
  lemma DefaultsOfAGroup(g: string, ks: Keys)
    ensures LoadOne(Group(g, map[])) ==
            Profile(Some(g), None, 389, None, Kerberos, None, false, false, false, -1, -1, -1, -1)
    ensures LoadOne(Group(g, ks)).auth == Simple <==> AuthTypeKey in ks && ks[AuthTypeKey] == Str("simple")
    ensures PortKey in ks && !ks[PortKey].Int? ==> LoadOne(Group(g, ks)).port == 389
    ensures UidMinKey in ks && !ks[UidMinKey].Int? ==> LoadOne(Group(g, ks)).uidMin == -1
  {
  }

  predicate Lacks(kf: KeyFile, g: string) {
    forall j :: 0 <= j < |kf| ==> kf[j].name != g
  }

  lemma MergeElsewhere(kf: KeyFile, g: string, ks: Keys, other: string)
    requires Lacks(kf, other) && g != other
    ensures Lacks(Merge(kf, g, ks), other)
  {
    var kf' := Merge(kf, g, ks);
    forall j | 0 <= j < |kf'| ensures kf'[j].name != other {
    }
  }

  lemma {:induction false} SavedNames(items: seq<Profile>, g: string)
    requires forall i :: 0 <= i < |items| ==> NameOf(items[i]) != g
    ensures Lacks(SaveAll(items), g)
    decreases |items|
  {
    if items != [] {
      var n := |items| - 1;
      assert forall i :: 0 <= i < n ==> items[..n][i] == items[i];
      SavedNames(items[..n], g);
      MergeElsewhere(SaveAll(items[..n]), NameOf(items[n]), PlainKeys(items[n]) + RangeKeys(items[n]), g);
    }
  }

  /** Load after save: for stores with unique names the list comes back normalised, in
      order, without the profiles whose name no key file group can have. */
  lemma {:induction false} LoadAfterSave(items: seq<Profile>)
    requires UniqueNames(items)
    ensures LoadAll(SaveAll(items)) == Carried(items)
    decreases |items|
  {
    if items != [] {
      var n := |items| - 1;
      var before, p := items[..n], items[n];
      LoadAfterSave(before);
      assert forall i :: 0 <= i < n ==> before[i] == items[i];
      SavedNames(before, NameOf(p));
      if IsGroupName(NameOf(p)) {
        SavedLast(SaveAll(before), p);
      }
    }
  }

  lemma SavedLast(kf: KeyFile, p: Profile)
    requires Lacks(kf, NameOf(p)) && IsGroupName(NameOf(p))
    ensures LoadAll(SaveOne(kf, p)) == LoadAll(kf) + [Normalise(p)]
  {
    OneRoundTrip(p);
    assert SaveOne(kf, p) == kf + [Group(NameOf(p), PlainKeys(p) + RangeKeys(p))];
  }

  function NormaliseAll(items: seq<Profile>): seq<Profile> {
    seq(|items|, i requires 0 <= i < |items| => Normalise(items[i]))
  }

  /** Every profile's name can be the name of a group. */
  predicate AllPossible(items: seq<Profile>) {
    forall i :: 0 <= i < |items| ==> IsGroupName(NameOf(items[i]))
  }

  lemma {:induction false} CarriedIsAll(items: seq<Profile>)
    ensures |Carried(items)| <= |items|
    ensures AllPossible(items) ==> Carried(items) == NormaliseAll(items)
    ensures |Carried(items)| == |items| ==> AllPossible(items)
    decreases |items|
  {
    if items != [] {
      var n := |items| - 1;
      CarriedIsAll(items[..n]);
      assert forall i :: 0 <= i < n ==> items[..n][i] == items[i];
      if AllPossible(items) {
        assert NormaliseAll(items) == NormaliseAll(items[..n]) + [Normalise(items[n])];
      }
    }
  }

  lemma {:induction false} SavedGroupsDiffer(items: seq<Profile>)
    ensures forall i, j :: 0 <= i < j < |SaveAll(items)| ==> SaveAll(items)[i].name != SaveAll(items)[j].name
    decreases |items|
  {
    if items != [] {
      SavedGroupsDiffer(items[..|items| - 1]);
    }
  }

  /** The file agrees with the store exactly if no name occurs twice and every name is a
      possible group name. */
  lemma FileAgreesWithStore(items: seq<Profile>)
    ensures LoadAll(SaveAll(items)) == NormaliseAll(items) <==> UniqueNames(items) && AllPossible(items)
  {
    if UniqueNames(items) {
      LoadAfterSave(items);
      CarriedIsAll(items);
    } else if LoadAll(SaveAll(items)) == NormaliseAll(items) {
      var kf := SaveAll(items);
      SavedGroupsDiffer(items);
      assert |kf| == |items|;
      forall i, j | 0 <= i < j < |items| ensures NameOf(items[i]) != NameOf(items[j]) {
        assert LoadOne(kf[i]) == LoadAll(kf)[i] == Normalise(items[i]);
        assert LoadOne(kf[j]) == LoadAll(kf)[j] == Normalise(items[j]);
      }
    }
  }

  /** A profile is silently left out of the file exactly if its name is empty or holds a
      bracket or a control character. */
  lemma NameIsLostExactly(p: Profile)
    requires p.name.Some?
    ensures LoadAll(SaveAll([p])) == [] <==>
            p.name.value == "" ||
            exists i :: 0 <= i < |p.name.value| && (p.name.value[i] == '[' || p.name.value[i] == ']' ||
                                                    p.name.value[i] < ' ' || p.name.value[i] == 127 as char)
  {
    LoadAfterSave([p]);
    assert [p][..0] == [];
    assert Carried([p]) == Carried([]) + if IsGroupName(NameOf(p)) then [Normalise(p)] else [];
  }

  /** A profile called "a[b" stays in the list and leaves the file. */
  lemma BracketNameIsLost(p: Profile)
    requires p.name == Some("a[b")
    ensures LoadAll(SaveAll([p])) == []
  {
    assert "a[b"[1] == '[';
    NameIsLostExactly(p);
  }

  lemma NormalisedNames(items: seq<Profile>)
    ensures UniqueNames(items) ==> UniqueNames(NormaliseAll(items))
    ensures AllPossible(items) ==> AllPossible(NormaliseAll(items))
    ensures NormaliseAll(NormaliseAll(items)) == NormaliseAll(items)
  {
    var once := NormaliseAll(items);
    assert |once| == |items|;
    assert forall i :: 0 <= i < |items| ==> once[i] == Normalise(items[i]) && NameOf(once[i]) == NameOf(items[i]);
    assert forall i :: 0 <= i < |items| ==> Normalise(once[i]) == once[i];
  }

  /** Saving and loading again changes nothing more. */
  lemma NormaliseIsStable(items: seq<Profile>)
    requires UniqueNames(items) && AllPossible(items)
    ensures LoadAll(SaveAll(LoadAll(SaveAll(items)))) == LoadAll(SaveAll(items))
  {
    NormalisedNames(items);
    FileAgreesWithStore(items);
    FileAgreesWithStore(NormaliseAll(items));
  }

  // ---- Shared names -----------------------------------------------------------------

  function KeysWritten(p: Profile): Keys {
    PlainKeys(p) + RangeKeys(p)
  }

  /** All keys written to group `g`, a later profile's over an earlier one's. */
  function KeysOf(items: seq<Profile>, g: string): Keys {
    if items == [] then map[]
    else
      var p := items[|items| - 1];
      if NameOf(p) == g then KeysOf(items[..|items| - 1], g) + KeysWritten(p)
      else KeysOf(items[..|items| - 1], g)
  }

  predicate Occurs(items: seq<Profile>, g: string) {
    exists k :: 0 <= k < |items| && NameOf(items[k]) == g
  }

  lemma OccursLast(items: seq<Profile>, g: string)
    requires items != []
    ensures Occurs(items, g) <==> Occurs(items[..|items| - 1], g) || NameOf(items[|items| - 1]) == g
  {
    var n := |items| - 1;
    if Occurs(items[..n], g) {
      var k :| 0 <= k < n && NameOf(items[..n][k]) == g;
      assert NameOf(items[k]) == g;
    }
    if Occurs(items, g) {
      var k :| 0 <= k < |items| && NameOf(items[k]) == g;
      assert k < n ==> NameOf(items[..n][k]) == g;
    }
  }

  /** The group of that name holds these keys, or there is none and no key. */
  predicate Holds(kf: KeyFile, g: string, ks: Keys) {
    var i := Find(kf, g);
    if i < |kf| then kf[i] == Group(g, ks) else ks == map[]
  }

  lemma {:induction false} FirstAt(kf: KeyFile, g: string, i: nat)
    requires i <= |kf| && (i < |kf| ==> kf[i].name == g) && forall j :: 0 <= j < i ==> kf[j].name != g
    ensures Find(kf, g) == i
  {
  }

  /** Writing to one group moves no other. */
  lemma MergeHolds(kf: KeyFile, name: string, ks: Keys, g: string, was: Keys)
    requires IsGroupName(g) && Holds(kf, g, was)
    ensures var kf' := Merge(kf, name, ks);
            && Holds(kf', g, if name == g then was + ks else was)
            && (Find(kf', g) < |kf'| <==> name == g || Find(kf, g) < |kf|)
  {
    var kf', i := Merge(kf, name, ks), Find(kf, g);
    assert forall j :: 0 <= j < |kf| ==> j < |kf'| && kf'[j].name == kf[j].name;
    FirstAt(kf', g, if name == g || i < |kf| then i else |kf'|);
    assert map[] + ks == ks;
  }

  lemma {:induction false} SavedGroup(items: seq<Profile>, g: string)
    requires IsGroupName(g)
    ensures Holds(SaveAll(items), g, KeysOf(items, g))
    ensures Find(SaveAll(items), g) < |SaveAll(items)| <==> Occurs(items, g)
    decreases |items|
  {
    if items != [] {
      var before, p := items[..|items| - 1], items[|items| - 1];
      SavedGroup(before, g);
      OccursLast(items, g);
      MergeHolds(SaveAll(before), NameOf(p), KeysWritten(p), g, KeysOf(before, g));
    }
  }

  /** The bound a profile has under a range key. */
  function BoundOf(p: Profile, k: Key): int {
    match k
    case UidMinKey => p.uidMin
    case UidMaxKey => p.uidMax
    case GidMinKey => p.gidMin
    case GidMaxKey => p.gidMax
    case _ => -1
  }

  predicate IsRangeKey(k: Key) {
    k.UidMinKey? || k.UidMaxKey? || k.GidMinKey? || k.GidMaxKey?
  }

  /** The bound that counts for name `g`: the last one set. */
  function LastSet(items: seq<Profile>, g: string, k: Key): int {
    if items == [] then -1
    else
      var p := items[|items| - 1];
      if NameOf(p) == g && BoundOf(p, k) >= 0 then BoundOf(p, k) else LastSet(items[..|items| - 1], g, k)
  }

  lemma {:induction false} BoundOfKeys(items: seq<Profile>, g: string, k: Key)
    requires IsRangeKey(k)
    ensures GetInt(KeysOf(items, g), k, -1) == LastSet(items, g, k)
    decreases |items|
  {
    if items != [] {
      var before, p := items[..|items| - 1], items[|items| - 1];
      BoundOfKeys(before, g, k);
      if NameOf(p) == g {
        var earlier := KeysOf(before, g);
        BoundReads(earlier, p, k, BoundOf(p, k));
        assert earlier + KeysWritten(p) == earlier + PlainKeys(p) + RangeKeys(p);
      }
    }
  }

  /** No profile after the `n`-th has its name. */
  predicate LastOfItsName(items: seq<Profile>, n: nat)
    requires n < |items|
  {
    forall j :: n < j < |items| ==> NameOf(items[j]) != NameOf(items[n])
  }

  lemma {:induction false} KeysOfLast(items: seq<Profile>, n: nat)
    requires n < |items| && LastOfItsName(items, n)
    ensures KeysOf(items, NameOf(items[n])) == KeysOf(items[..n], NameOf(items[n])) + KeysWritten(items[n])
    decreases |items|
  {
    var before := items[..|items| - 1];
    if n < |before| {
      assert before[n] == items[n] && before[..n] == items[..n];
      KeysOfLast(before, n);
    }
  }

  /** Why names must be unique: of all profiles with one name only the last is read back,
      and each bound it leaves unset is the last one any of the others set. */
  lemma SharedNameLeaksRanges(items: seq<Profile>, n: nat)
    requires n < |items| && LastOfItsName(items, n) && IsGroupName(NameOf(items[n]))
    ensures var kf, g := SaveAll(items), NameOf(items[n]);
            Find(kf, g) < |kf| &&
            LoadOne(kf[Find(kf, g)]) ==
            Normalise(items[n]).(uidMin := LastSet(items, g, UidMinKey), uidMax := LastSet(items, g, UidMaxKey),
                                 gidMin := LastSet(items, g, GidMinKey), gidMax := LastSet(items, g, GidMaxKey))
  {
    var g := NameOf(items[n]);
    SavedGroup(items, g);
    assert Occurs(items, g);
    KeysOfLast(items, n);
    GroupReads(g, KeysOf(items[..n], g), items[n]);
    BoundThatCounts(items, n, UidMinKey);
    BoundThatCounts(items, n, UidMaxKey);
    BoundThatCounts(items, n, GidMinKey);
    BoundThatCounts(items, n, GidMaxKey);
  }

  lemma BoundThatCounts(items: seq<Profile>, n: nat, k: Key)
    requires n < |items| && LastOfItsName(items, n) && IsRangeKey(k)
    ensures LastSet(items, NameOf(items[n]), k) ==
            if BoundOf(items[n], k) >= 0 then BoundOf(items[n], k) else GetInt(KeysOf(items[..n], NameOf(items[n])), k, -1)
  {
    BoundOfKeys(items[..n], NameOf(items[n]), k);
    LastSetAt(items, n, k);
  }

  lemma {:induction false} LastSetAt(items: seq<Profile>, n: nat, k: Key)
    requires n < |items| && LastOfItsName(items, n)
    ensures LastSet(items, NameOf(items[n]), k) ==
            if BoundOf(items[n], k) >= 0 then BoundOf(items[n], k) else LastSet(items[..n], NameOf(items[n]), k)
    decreases |items|
  {
    var before := items[..|items| - 1];
    if n < |before| {
      assert before[n] == items[n] && before[..n] == items[..n];
      LastSetAt(before, n, k);
    }
  }
}
