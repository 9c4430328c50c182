/** A modify request and its meaning: section 4.6 of RFC 4511 on one entry, and
    the marshalling that carries the editor's list of modifications into it. */
module LdapModify {
  import opened Basics

  datatype Op = Add | Replace | Delete

  /** A staged modification; no values is the NULL vector. */
  datatype Mod = Mod(op: Op, attr: string, values: seq<string>)

  /** An entry: attribute types (lower-cased, as they match without regard to
      case) with their sets of values. An attribute without values is absent. */
  type Entry = map<string, set<string>>

  datatype Refusal = NoSuchAttribute | AttributeOrValueExists | ProtocolError | NotConnected | Unwilling
  datatype Outcome = Applied(entry: Entry) | Refused(why: Refusal)

  ghost predicate WellFormed(e: Entry) {
    forall k :: k in e ==> e[k] != {}
  }

  function Values(e: Entry, attr: string): set<string> {
    if Fold(attr) in e then e[Fold(attr)] else {}
  }

  function SetValues(e: Entry, attr: string, vs: set<string>): Entry {
    if vs == {} then e - {Fold(attr)} else e[Fold(attr) := vs]
  }

  function ApplyMod(e: Entry, m: Mod): Outcome {
    match m.op
    case Add =>
      if m.values == [] then Refused(ProtocolError)
      else if !NoDup(m.values) || exists x :: x in m.values && x in Values(e, m.attr) then Refused(AttributeOrValueExists)
      else Applied(SetValues(e, m.attr, Values(e, m.attr) + Elements(m.values)))
    case Replace =>
      if !NoDup(m.values) then Refused(AttributeOrValueExists)
      else Applied(SetValues(e, m.attr, Elements(m.values)))
    case Delete =>
      if m.values == [] then
        if Fold(m.attr) in e then Applied(SetValues(e, m.attr, {})) else Refused(NoSuchAttribute)
      else if exists x :: x in m.values && x !in Values(e, m.attr) then Refused(NoSuchAttribute)
      else Applied(SetValues(e, m.attr, Values(e, m.attr) - Elements(m.values)))
  }

  /** In order, and all or nothing. */
  function ApplyMods(e: Entry, ms: seq<Mod>): Outcome
    decreases |ms|
  {
    if ms == [] then Applied(e)
    else
      match ApplyMod(e, ms[0])
      case Refused(why) => Refused(why)
      case Applied(e') => ApplyMods(e', ms[1..])
  }

  lemma {:induction false} ApplyAppend(e: Entry, ms: seq<Mod>, m: Mod)
    ensures ApplyMods(e, ms + [m]) ==
            match ApplyMods(e, ms) case Refused(why) => Refused(why) case Applied(e') => ApplyMod(e', m)
    decreases |ms|
  {
    if ms == [] {
      assert ms + [m] == [m] && [m][1..] == [];
    } else {
      assert (ms + [m])[1..] == ms[1..] + [m];
      match ApplyMod(e, ms[0])
      case Refused(_) =>
      case Applied(e') => ApplyAppend(e', ms[1..], m);
    }
  }

  /** A modification concerns one attribute only. */
  lemma OneAttribute(e: Entry, m: Mod, k: string)
    requires ApplyMod(e, m).Applied? && k != Fold(m.attr)
    ensures (k in ApplyMod(e, m).entry <==> k in e) && (k in e ==> ApplyMod(e, m).entry[k] == e[k])
  {
  }

  /** What it makes of that attribute, and what it needs. */
  lemma NewValues(e: Entry, m: Mod)
    requires WellFormed(e)
    ensures var r := ApplyMod(e, m);
            var was, vs := Values(e, m.attr), Elements(m.values);
            && (r.Applied? ==> WellFormed(r.entry))
            && (m.op.Add? ==> (r.Applied? <==> m.values != [] && NoDup(m.values) && was !! vs) &&
                              (r.Applied? ==> Values(r.entry, m.attr) == was + vs))
            && (m.op.Replace? ==> (r.Applied? <==> NoDup(m.values)) && (r.Applied? ==> Values(r.entry, m.attr) == vs))
            && (m.op.Delete? && m.values == [] ==> (r.Applied? <==> was != {}) &&
                                                   (r.Applied? ==> Values(r.entry, m.attr) == {}))
            && (m.op.Delete? && m.values != [] ==> (r.Applied? <==> vs <= was) &&
                                                   (r.Applied? ==> Values(r.entry, m.attr) == was - vs))
  {
    assert forall x :: x in m.values <==> x in Elements(m.values);
    if m.values != [] { assert m.values[0] in Elements(m.values); }
  }

  /** Deleting the values just added restores the entry. */
  lemma DeleteUndoesAdd(e: Entry, attr: string, values: seq<string>)
    requires WellFormed(e) && ApplyMod(e, Mod(Add, attr, values)).Applied?
    ensures ApplyMod(ApplyMod(e, Mod(Add, attr, values)).entry, Mod(Delete, attr, values)) == Applied(e)
  {
    var added := ApplyMod(e, Mod(Add, attr, values)).entry;
    NewValues(e, Mod(Add, attr, values));
    NewValues(added, Mod(Delete, attr, values));
    assert values[0] in Elements(values);
    assert Values(added, attr) - Elements(values) == Values(e, attr);
    assert Fold(attr) !in e ==> Values(e, attr) == {};
  }

  // ---- From the staged list to libldap's array --------------------------------

  const LDAP_MOD_ADD := 0
  const LDAP_MOD_DELETE := 1
  const LDAP_MOD_REPLACE := 2

  datatype LdapMod = LdapMod(modOp: int, modType: string, modValues: Option<seq<string>>)

  function OpToLdap(op: Op): int {
    match op
    case Add => LDAP_MOD_ADD
    case Replace => LDAP_MOD_REPLACE
    case Delete => LDAP_MOD_DELETE
  }

  function ToLdap(m: Mod): LdapMod {
    LdapMod(OpToLdap(m.op), m.attr, if m.values == [] then None else Some(m.values))
  }

  /** On the wire add, delete and replace are 0, 1 and 2, section 4.6 of RFC 4511, and no
      values are a NULL vector. */
  lemma OnTheWire(m: Mod)
    ensures ToLdap(m).modOp == (match m.op case Add => 0 case Delete => 1 case Replace => 2)
    ensures ToLdap(m).modType == m.attr && (ToLdap(m).modValues == None <==> m.values == [])
  {
  }

  /** How libldap reads the array: entries up to the first NULL. */
  function ReadArray(a: seq<Option<LdapMod>>): seq<Mod> {
    if a == [] || a[0].None? then []
    else
      var lm := a[0].value;
      [Mod(if lm.modOp == LDAP_MOD_ADD then Add else if lm.modOp == LDAP_MOD_DELETE then Delete else Replace,
           lm.modType, if lm.modValues.None? then [] else lm.modValues.value)]
      + ReadArray(a[1..])
  }

  lemma {:induction false} ReadBack(ms: seq<Mod>, a: seq<Option<LdapMod>>)
    requires |a| == |ms| + 1 && a[|ms|] == None
    requires forall i :: 0 <= i < |ms| ==> a[i] == Some(ToLdap(ms[i]))
    ensures ReadArray(a) == ms
    decreases |ms|
  {
    if ms != [] {
      ReadBack(ms[1..], a[1..]);
      assert ms == [ms[0]] + ms[1..];
    }
  }

  /** A staged modification on the heap, owning its vector of values; an empty vector
      stands for NULL. */
  class SbvLdapMod {
    const op: Op
    const attr: string
    const values: array<string>

    function View(): Mod
      reads this, values
    {
      Mod(op, attr, values[..])
    }

    /** Copies the values into a vector of its own. */
    constructor (op: Op, attr: string, values: array<string>)
      ensures fresh(this.values) && View() == Mod(op, attr, values[..])
    {
      var copy := new string[values.Length](_ => "");
      this.op, this.attr, this.values := op, attr, copy;
      new;
      var i := 0;
      while i < values.Length
        invariant 0 <= i <= values.Length && this.op == op && this.attr == attr
        invariant fresh(this.values) && this.values.Length == values.Length
        invariant forall k :: 0 <= k < i ==> this.values[k] == values[k]
        modifies this.values
      {
        this.values[i] := values[i];
        i := i + 1;
      }
      assert this.values[..] == values[..];
    }
  }

  /** The list a sequence of descriptors stands for. */
  function Views(ms: seq<SbvLdapMod>): seq<Mod>
    reads ms, set m | m in ms :: m.values
  {
    seq(|ms|, i requires 0 <= i < |ms| reads ms, set m | m in ms :: m.values => ms[i].View())
  }

  /** The request's deep copy keeps order and content and shares no vector with the
      list it was taken from, so what the caller does with that list afterwards does not
      reach the worker. */
  method CopyMods(src: seq<SbvLdapMod>) returns (dst: seq<SbvLdapMod>)
    ensures Views(dst) == Views(src)
    ensures forall m :: m in dst ==> fresh(m) && fresh(m.values)
  {
    dst := [];
    var i := 0;
    while i < |src|
      invariant 0 <= i <= |src| && |dst| == i
      invariant forall k :: 0 <= k < i ==> dst[k].View() == src[k].View()
      invariant forall m :: m in dst ==> fresh(m) && fresh(m.values)
    {
      var m := new SbvLdapMod(src[i].op, src[i].attr, src[i].values);
      dst := dst + [m];
      i := i + 1;
    }
    assert Views(dst) == Views(src);
  }

  /** The NULL-terminated array handed to `ldap_modify_ext_s` reads back as the
      staged list: same operations, same attributes, same values, same order. */
  method BuildArray(mods: seq<SbvLdapMod>) returns (lmods: array<Option<LdapMod>>)
    ensures fresh(lmods) && lmods.Length == |mods| + 1
    ensures ReadArray(lmods[..]) == Views(mods)
  {
    var n := |mods|;
    lmods := new Option<LdapMod>[n + 1](_ => None);
    var i := 0;
    while i < n
      invariant 0 <= i <= n
      invariant forall k :: 0 <= k < i ==> lmods[k] == Some(ToLdap(Views(mods)[k]))
      invariant forall k :: i <= k <= n ==> lmods[k] == None
    {
      lmods[i] := Some(ToLdap(mods[i].View()));
      i := i + 1;
    }
    ReadBack(Views(mods), lmods[..]);
  }

  /** What the caller is told of a request: no handle, nothing to do, the server's own
      reasons to refuse, or the meaning of the list. */
  function Answer(e: Entry, mods: seq<Mod>, connected: bool, allowed: bool): Outcome {
    if !connected then Refused(NotConnected)
    else if mods == [] then Applied(e)
    else if !allowed then Refused(Unwilling)
    else ApplyMods(e, mods)
  }

  /** `sbv_ldap_browse_modify_async`: the request takes its copy, and only then does the
      caller free its own list (here: overwrites every vector). */
  method SendModify(mods: seq<SbvLdapMod>) returns (request: seq<SbvLdapMod>)
    modifies set m | m in mods :: m.values
    ensures Views(request) == old(Views(mods))
    ensures forall m :: m in request ==> fresh(m) && fresh(m.values)
  {
    request := CopyMods(mods);
    var i := 0;
    while i < |mods|
      invariant 0 <= i <= |mods| && Views(request) == old(Views(mods))
      invariant forall m :: m in request ==> fresh(m) && fresh(m.values)
    {
      forall k | 0 <= k < mods[i].values.Length {
        mods[i].values[k] := "";
      }
      i := i + 1;
    }
  }

  /** `modify_thread` on the entry it names: copy, marshalling and dispatch together
      apply exactly the staged list. */
  method ModifyThread(e: Entry, request: seq<SbvLdapMod>, connected: bool, allowed: bool) returns (r: Outcome)
    ensures r == Answer(e, Views(request), connected, allowed)
    ensures !connected ==> r == Refused(NotConnected)
    ensures connected && request == [] ==> r == Applied(e)
    ensures connected && request != [] ==> r == if allowed then ApplyMods(e, Views(request)) else Refused(Unwilling)
  {
    if !connected {
      return Refused(NotConnected);
    }
    if |request| == 0 {
      return Applied(e);
    }
    var lmods := BuildArray(request);
    r := if allowed then ApplyMods(e, ReadArray(lmods[..])) else Refused(Unwilling);
  }
}
