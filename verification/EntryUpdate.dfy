/** Saving a contact or user: an optional rename followed by one batch of replaces,
    two directory operations standing for one tri-state update of one entry. */
module EntryUpdate {
  import opened Basics
  import opened LdapModify
  import opened EntryNames
  import opened TextLists

  // ---- The directory server --------------------------------------------------------

  type Entries = map<string, Entry>

  /** RFC 4514, section 2.4: a value that can stand in an RDN as it is. */
  predicate PlainValue(v: string) {
    && v != "" && v[0] != '#' && v[0] != ' ' && v[|v| - 1] != ' '
    && forall i :: 0 <= i < |v| ==> v[i] !in {'"', '+', ',', ';', '<', '>', '\\'} && v[i] != 0 as char
  }

  /** Rename in place with the old RDN value deleted. `allowed` stands for every other
      reason a server has to refuse. */
  function RenameEntry(dir: Entries, dn: string, cn: string, allowed: bool): Option<Entries> {
    var target := RenamedDn(cn, dn);
    if !allowed || !PlainValue(cn) || dn !in dir || (target in dir && target != dn) then None
    else Some((dir - {dn})[target := dir[dn][Fold("cn") := {cn}]])
  }

  function ModifyEntry(dir: Entries, dn: string, mods: seq<Mod>, allowed: bool): Option<Entries> {
    if !allowed || dn !in dir then None
    else
      match ApplyMods(dir[dn], mods)
      case Refused(_) => None
      case Applied(e) => Some(dir[dn := e])
  }

  class Directory {
    var entries: Entries

    method Rename(dn: string, cn: string, allowed: bool) returns (ok: bool)
      modifies this
      ensures var r := RenameEntry(old(entries), dn, cn, allowed);
              ok == r.Some? && entries == if r.Some? then r.value else old(entries)
    {
      var r := RenameEntry(entries, dn, cn, allowed);
      if r.Some? { entries := r.value; }
      ok := r.Some?;
    }

    method Modify(dn: string, mods: array<Option<LdapMod>>, allowed: bool) returns (ok: bool)
      modifies this
      ensures var r := ModifyEntry(old(entries), dn, ReadArray(mods[..]), allowed);
              ok == r.Some? && entries == if r.Some? then r.value else old(entries)
    {
      var r := ModifyEntry(entries, dn, ReadArray(mods[..]), allowed);
      if r.Some? { entries := r.value; }
      ok := r.Some?;
    }
  }

  // ---- The update as one operation ---------------------------------------------------

  /** Absent keeps the attribute, no values clears it, values replace it. A scalar is
      NULL, "" or one value. */
  datatype Field = Field(attr: string, change: Option<seq<string>>)

  function Scalar(attr: string, v: Option<string>): Field {
    Field(attr, if v.None? then None else if v.value == "" then Some([]) else Some([v.value]))
  }

  function TriState(e: Entry, f: Field): Entry {
    if f.change.None? then e else SetValues(e, f.attr, Elements(f.change.value))
  }

  function TriStates(e: Entry, fs: seq<Field>): Entry {
    if fs == [] then e else TriState(TriStates(e, fs[..|fs| - 1]), fs[|fs| - 1])
  }

  function FieldMods(fs: seq<Field>): seq<Mod> {
    if fs == [] then []
    else
      var f := fs[|fs| - 1];
      FieldMods(fs[..|fs| - 1]) + if f.change.None? then [] else [Mod(Replace, f.attr, f.change.value)]
  }

  predicate DistinctValues(fs: seq<Field>) {
    forall i :: 0 <= i < |fs| && fs[i].change.Some? ==> NoDup(fs[i].change.value)
  }

  /** The batch is the tri-state update, refused only for repeated values in one field. */
  lemma {:induction false} BatchIsTriState(e: Entry, fs: seq<Field>)
    ensures ApplyMods(e, FieldMods(fs)).Applied? <==> DistinctValues(fs)
    ensures DistinctValues(fs) ==> ApplyMods(e, FieldMods(fs)) == Applied(TriStates(e, fs))
    decreases |fs|
  {
    if fs != [] {
      var n := |fs| - 1;
      BatchIsTriState(e, fs[..n]);
      assert DistinctValues(fs) <==> DistinctValues(fs[..n]) && (fs[n].change.Some? ==> NoDup(fs[n].change.value)) by {
        assert forall i :: 0 <= i < n ==> fs[..n][i] == fs[i];
      }
      if fs[n].change.Some? {
        ApplyAppend(e, FieldMods(fs[..n]), Mod(Replace, fs[n].attr, fs[n].change.value));
      } else {
        assert FieldMods(fs) == FieldMods(fs[..n]);
      }
    }
  }

  predicate Touches(f: Field, k: string) {
    f.change.Some? && Fold(f.attr) == k
  }

  /** Attributes no changing field names are untouched. */
  lemma {:induction false} TriStatesLeaveOthers(e: Entry, fs: seq<Field>, k: string)
    requires forall i :: 0 <= i < |fs| ==> !Touches(fs[i], k)
    ensures (k in e <==> k in TriStates(e, fs)) && (k in e ==> TriStates(e, fs)[k] == e[k])
    decreases |fs|
  {
    if fs != [] {
      TriStatesLeaveOthers(e, fs[..|fs| - 1], k);
    }
  }

  /** The last field to change an attribute decides it, whatever it held. */
  lemma {:induction false} FieldDecides(e: Entry, fs: seq<Field>, i: nat)
    requires i < |fs| && fs[i].change.Some?
    requires forall j :: i < j < |fs| ==> !Touches(fs[j], Fold(fs[i].attr))
    ensures Values(TriStates(e, fs), fs[i].attr) == Elements(fs[i].change.value)
    decreases |fs|
  {
    var n := |fs| - 1;
    if i < n {
      FieldDecides(e, fs[..n], i);
      assert !Touches(fs[n], Fold(fs[i].attr));
    }
  }

  datatype Request = Request(dn: string, cn: Option<string>, fields: seq<Field>)

  predicate Renames(r: Request) {
    r.cn.Some? && r.cn.value != ""
  }

  datatype Outcome = RenameFailed | ModifyFailed | Updated

  /** What the two calls amount to, as the code issues them. */
  function TwoCalls(dir: Entries, r: Request, renameAllowed: bool, modifyAllowed: bool): (Outcome, Entries) {
    var renamed := if Renames(r) then RenameEntry(dir, r.dn, r.cn.value, renameAllowed) else Some(dir);
    if renamed.None? then (RenameFailed, dir)
    else
      var dn := if Renames(r) then EffectiveDn(r.cn.value, r.dn) else r.dn;
      var mods := FieldMods(r.fields);
      if mods == [] then (Updated, renamed.value)
      else
        var modified := ModifyEntry(renamed.value, dn, mods, modifyAllowed);
        if modified.None? then (ModifyFailed, renamed.value) else (Updated, modified.value)
  }

  /** The entry's place and content after the rename, if one was asked for. */
  function TargetDn(r: Request): string {
    if Renames(r) then RenamedDn(r.cn.value, r.dn) else r.dn
  }

  function RenamedEntry(dir: Entries, r: Request): Entry
    requires r.dn in dir
  {
    if Renames(r) then dir[r.dn][Fold("cn") := {r.cn.value}] else dir[r.dn]
  }

  /** The second call, on an entry in place. */
  lemma ModifyOnTarget(dir: Entries, dn: string, fs: seq<Field>, allowed: bool)
    requires dn in dir
    ensures ModifyEntry(dir, dn, FieldMods(fs), allowed) ==
            if allowed && DistinctValues(fs) then Some(dir[dn := TriStates(dir[dn], fs)]) else None
    ensures FieldMods(fs) == [] ==> dir == dir[dn := TriStates(dir[dn], fs)] && DistinctValues(fs)
  {
    BatchIsTriState(dir[dn], fs);
  }

  lemma WithRename(dir: Entries, r: Request, renameAllowed: bool, modifyAllowed: bool)
    requires r.dn in dir && Renames(r) && FirstCommaSplits(r.dn)
    requires RenameEntry(dir, r.dn, r.cn.value, renameAllowed).Some?
    ensures var (outcome, dir') := TwoCalls(dir, r, renameAllowed, modifyAllowed);
            var moved := dir - {r.dn};
            && (outcome.ModifyFailed? ==> dir' == moved[TargetDn(r) := RenamedEntry(dir, r)])
            && (outcome.Updated? ==> dir' == moved[TargetDn(r) := TriStates(RenamedEntry(dir, r), r.fields)])
            && (outcome.ModifyFailed? <==> FieldMods(r.fields) != [] && !(modifyAllowed && DistinctValues(r.fields)))
            && !outcome.RenameFailed?
  {
    EffectiveDnIsRenamedDn(r.cn.value, r.dn);
    var target, e := TargetDn(r), RenamedEntry(dir, r);
    var renamed := (dir - {r.dn})[target := e];
    ModifyOnTarget(renamed, target, r.fields, modifyAllowed);
    assert renamed[target := TriStates(e, r.fields)] == (dir - {r.dn})[target := TriStates(e, r.fields)];
  }

  lemma WithoutRename(dir: Entries, r: Request, renameAllowed: bool, modifyAllowed: bool)
    requires r.dn in dir && !Renames(r)
    ensures var (outcome, dir') := TwoCalls(dir, r, renameAllowed, modifyAllowed);
            && (outcome.ModifyFailed? ==> dir' == (dir - {r.dn})[r.dn := dir[r.dn]])
            && (outcome.Updated? ==> dir' == (dir - {r.dn})[r.dn := TriStates(dir[r.dn], r.fields)])
            && (outcome.ModifyFailed? <==> FieldMods(r.fields) != [] && !(modifyAllowed && DistinctValues(r.fields)))
            && !outcome.RenameFailed?
  {
    ModifyOnTarget(dir, r.dn, r.fields, modifyAllowed);
    assert (dir - {r.dn})[r.dn := dir[r.dn]] == dir;
    assert (dir - {r.dn})[r.dn := TriStates(dir[r.dn], r.fields)] == dir[r.dn := TriStates(dir[r.dn], r.fields)];
  }

  /** What each outcome leaves behind, and which failures of the modify there are. */
  predicate OneUpdate(dir: Entries, r: Request, modifyAllowed: bool, outcome: Outcome, dir': Entries)
    requires r.dn in dir
  {
    && (outcome.RenameFailed? ==> dir' == dir)
    && (outcome.ModifyFailed? ==> dir' == (dir - {r.dn})[TargetDn(r) := RenamedEntry(dir, r)])
    && (outcome.Updated? ==> dir' == (dir - {r.dn})[TargetDn(r) := TriStates(RenamedEntry(dir, r), r.fields)])
    && (outcome.ModifyFailed? <==> !outcome.RenameFailed? && FieldMods(r.fields) != [] &&
                                   !(modifyAllowed && DistinctValues(r.fields)))
  }

  /** Only the entry saved changes, in it only what the request names, and no entry is
      displaced. */
  ghost predicate NothingElse(dir: Entries, r: Request, outcome: Outcome, dir': Entries)
    requires r.dn in dir
  {
    && (forall k :: k in dir && k != r.dn && k != TargetDn(r) ==> k in dir' && dir'[k] == dir[k])
    && (forall k :: k in dir' ==> k == TargetDn(r) || k in dir)
    && (!outcome.RenameFailed? && TargetDn(r) in dir ==> TargetDn(r) == r.dn)
    && (!outcome.RenameFailed? ==> TargetDn(r) in dir' && UnnamedKept(dir[r.dn], r, dir'[TargetDn(r)]))
  }

  lemma OneUpdateTouchesNothingElse(dir: Entries, r: Request, modifyAllowed: bool, outcome: Outcome, dir': Entries)
    requires r.dn in dir && OneUpdate(dir, r, modifyAllowed, outcome, dir')
    requires !outcome.RenameFailed? && TargetDn(r) in dir ==> TargetDn(r) == r.dn
    ensures NothingElse(dir, r, outcome, dir')
  {
    OtherAttributesKept(dir, r);
  }

  /** Main result: provided a requested rename's DN has an unescaped first comma, the
      two calls act as one update of one entry. A failed rename changes nothing, a
      failed modify leaves exactly the rename, success leaves the tri-state update of
      the renamed entry with every attribute no field names as it was, and no other
      entry is ever touched. */
  lemma TwoCallsActAsOne(dir: Entries, r: Request, renameAllowed: bool, modifyAllowed: bool)
    requires r.dn in dir && (Renames(r) ==> FirstCommaSplits(r.dn))
    ensures var (outcome, dir') := TwoCalls(dir, r, renameAllowed, modifyAllowed);
            && OneUpdate(dir, r, modifyAllowed, outcome, dir') && NothingElse(dir, r, outcome, dir')
            && (outcome.RenameFailed? <==>
                Renames(r) && (!renameAllowed || !PlainValue(r.cn.value) || (TargetDn(r) in dir && TargetDn(r) != r.dn)))
  {
    var (outcome, dir') := TwoCalls(dir, r, renameAllowed, modifyAllowed);
    if !Renames(r) {
      WithoutRename(dir, r, renameAllowed, modifyAllowed);
    } else if RenameEntry(dir, r.dn, r.cn.value, renameAllowed).Some? {
      WithRename(dir, r, renameAllowed, modifyAllowed);
    }
    OneUpdateTouchesNothingElse(dir, r, modifyAllowed, outcome, dir');
  }

  ghost predicate UnnamedKept(before: Entry, r: Request, after: Entry) {
    forall k :: !Names(r, k) ==> AttributeKept(before, after, k)
  }

  lemma OtherAttributesKept(dir: Entries, r: Request)
    requires r.dn in dir
    ensures UnnamedKept(dir[r.dn], r, RenamedEntry(dir, r))
    ensures UnnamedKept(dir[r.dn], r, TriStates(RenamedEntry(dir, r), r.fields))
  {
    forall k | !Names(r, k)
      ensures AttributeKept(dir[r.dn], RenamedEntry(dir, r), k)
      ensures AttributeKept(dir[r.dn], TriStates(RenamedEntry(dir, r), r.fields), k)
    {
      TriStatesLeaveOthers(RenamedEntry(dir, r), r.fields, k);
    }
  }

  /** The request is about attribute type `k`. */
  predicate Names(r: Request, k: string) {
    (Renames(r) && k == Fold("cn")) || exists i :: 0 <= i < |r.fields| && Touches(r.fields[i], k)
  }

  predicate AttributeKept(before: Entry, after: Entry, k: string) {
    (k in after <==> k in before) && (k in before ==> after[k] == before[k])
  }

  /** An entry gone by the time of the save is reported and nothing else happens. */
  lemma MissingEntryIsReported(dir: Entries, r: Request, renameAllowed: bool, modifyAllowed: bool)
    requires r.dn !in dir
    ensures TwoCalls(dir, r, renameAllowed, modifyAllowed) ==
            (if Renames(r) then RenameFailed else if FieldMods(r.fields) == [] then Updated else ModifyFailed, dir)
  {
  }

  /** The entry the modify goes to after a rename, other than the renamed one. */
  predicate ForeignEntry(dir: Entries, r: Request) {
    Renames(r) && !FirstCommaSplits(r.dn) && EffectiveDn(r.cn.value, r.dn) in dir && EffectiveDn(r.cn.value, r.dn) != r.dn
  }

  /** With an escaped first comma the modify goes to another name. If no other entry
      bears it, the rename stands and the modify fails; if one does, that entry gets the
      fields and the update is reported as done. */
  lemma EscapedComma(dir: Entries, r: Request, modifyAllowed: bool)
    requires r.dn in dir && Renames(r) && !FirstCommaSplits(r.dn) && FieldMods(r.fields) != []
    requires RenameEntry(dir, r.dn, r.cn.value, true).Some?
    ensures var renamed := (dir - {r.dn})[TargetDn(r) := RenamedEntry(dir, r)];
            var w := EffectiveDn(r.cn.value, r.dn);
            TwoCalls(dir, r, true, modifyAllowed) ==
            if ForeignEntry(dir, r) && modifyAllowed && DistinctValues(r.fields)
            then (Updated, renamed[w := TriStates(dir[w], r.fields)])
            else (ModifyFailed, renamed)
  {
    EffectiveDnIsRenamedDn(r.cn.value, r.dn);
    var w := EffectiveDn(r.cn.value, r.dn);
    var renamed := (dir - {r.dn})[TargetDn(r) := RenamedEntry(dir, r)];
    assert w in renamed <==> ForeignEntry(dir, r);
    if ForeignEntry(dir, r) {
      ModifyOnTarget(renamed, w, r.fields, modifyAllowed);
    }
  }

  /** Some entry other than the one being saved is not what it was. */
  predicate OverwritesAnother(dir: Entries, r: Request, dir': Entries) {
    exists k :: k in dir && k != r.dn && k != TargetDn(r) && (k !in dir' || dir'[k] != dir[k])
  }

  lemma ForeignDir(dir: Entries, r: Request, modifyAllowed: bool)
    requires r.dn in dir && ForeignEntry(dir, r) && RenameEntry(dir, r.dn, r.cn.value, true).Some?
    ensures var w := EffectiveDn(r.cn.value, r.dn);
            var renamed := (dir - {r.dn})[TargetDn(r) := RenamedEntry(dir, r)];
            TwoCalls(dir, r, true, modifyAllowed).1 ==
            if modifyAllowed && DistinctValues(r.fields) then renamed[w := TriStates(dir[w], r.fields)] else renamed
  {
    if FieldMods(r.fields) == [] {
      var w := EffectiveDn(r.cn.value, r.dn);
      var renamed := (dir - {r.dn})[TargetDn(r) := RenamedEntry(dir, r)];
      EffectiveDnIsRenamedDn(r.cn.value, r.dn);
      ModifyOnTarget(renamed, w, r.fields, modifyAllowed);
    } else {
      EscapedComma(dir, r, modifyAllowed);
    }
  }

  /** Where the fields land on the foreign entry, it is the only other entry to change. */
  lemma ForeignEffect(dir: Entries, r: Request, modifyAllowed: bool)
    requires r.dn in dir && ForeignEntry(dir, r) && RenameEntry(dir, r.dn, r.cn.value, true).Some?
    ensures var w := EffectiveDn(r.cn.value, r.dn);
            OverwritesAnother(dir, r, TwoCalls(dir, r, true, modifyAllowed).1) <==>
            modifyAllowed && DistinctValues(r.fields) && TriStates(dir[w], r.fields) != dir[w]
  {
    ForeignDir(dir, r, modifyAllowed);
    EffectiveDnIsRenamedDn(r.cn.value, r.dn);
    ChangesOnly(dir, r, EffectiveDn(r.cn.value, r.dn),
                if modifyAllowed && DistinctValues(r.fields)
                then TriStates(dir[EffectiveDn(r.cn.value, r.dn)], r.fields) else dir[EffectiveDn(r.cn.value, r.dn)]);
  }

  lemma ChangesOnly(dir: Entries, r: Request, w: string, e: Entry)
    requires r.dn in dir && w in dir && w != r.dn && w != TargetDn(r)
    ensures OverwritesAnother(dir, r, (dir - {r.dn})[TargetDn(r) := RenamedEntry(dir, r)][w := e]) <==> e != dir[w]
    ensures (dir - {r.dn})[TargetDn(r) := RenamedEntry(dir, r)][w := dir[w]] == (dir - {r.dn})[TargetDn(r) := RenamedEntry(dir, r)]
  {
    var dir' := (dir - {r.dn})[TargetDn(r) := RenamedEntry(dir, r)][w := e];
    assert forall k :: k in dir && k != r.dn && k != TargetDn(r) && k != w ==> k in dir' && dir'[k] == dir[k];
    assert w in dir' && dir'[w] == e;
  }

  /** Exactly when a save overwrites another entry: the rename goes through on a DN with
      an escaped first comma, another entry bears the textual DN, the server takes the
      modify, and the fields differ from what that entry holds. */
  lemma OverwritesAnotherExactly(dir: Entries, r: Request, modifyAllowed: bool)
    requires r.dn in dir && (Renames(r) ==> RenameEntry(dir, r.dn, r.cn.value, true).Some?)
    ensures OverwritesAnother(dir, r, TwoCalls(dir, r, true, modifyAllowed).1) <==>
            ForeignEntry(dir, r) && modifyAllowed && DistinctValues(r.fields) &&
            TriStates(dir[EffectiveDn(r.cn.value, r.dn)], r.fields) != dir[EffectiveDn(r.cn.value, r.dn)]
  {
    if ForeignEntry(dir, r) {
      ForeignEffect(dir, r, modifyAllowed);
    } else if Renames(r) && !FirstCommaSplits(r.dn) && FieldMods(r.fields) != [] {
      EscapedComma(dir, r, modifyAllowed);
    } else if !Renames(r) || FirstCommaSplits(r.dn) {
      TwoCallsActAsOne(dir, r, true, modifyAllowed);
    }
  }

  lemma EscapedExample(dn: string)
    requires dn == "CN=x\\,OU=y"
    ensures !FirstCommaSplits(dn) && EffectiveDn("b", dn) == "CN=b,OU=y" && RenamedDn("b", dn) == "CN=b"
  {
    assert dn[4] == '\\' && dn[5] == ',' && |dn| == 10;
    var k := IndexOf(dn, ',');
    assert k == 5;
    RdnEndAtFirstComma(dn, 5);
    assert dn[..5][4] == '\\' && dn[..5][..4] == "CN=x";
    assert TrailingBackslashes("CN=x") == 0 && TrailingBackslashes(dn[..5]) == 1;
    assert dn[6..] == "OU=y";
  }

  lemma MailSet(e: Entry, f: Field)
    requires f == Scalar("mail", Some("m"))
    ensures FieldMods([f]) != [] && DistinctValues([f]) && TriStates(e, [f]) == e["mail" := {"m"}]
  {
    assert [f][..0] == [];
    assert TriStates(e, [f][..0]) == e;
    assert Fold("mail") == "mail";
    assert Elements(["m"]) == {"m"} by { assert ["m"][0] == "m"; }
    assert FieldMods([f]) == FieldMods([f][..0]) + [Mod(Replace, "mail", ["m"])];
  }

  /** Renaming the entry "CN=x\,OU=y", a name with a comma and no parent, to "b" gives
      the fields to the entry "CN=b,OU=y" instead. */
  lemma SaveCanOverwriteAnother(dir: Entries, r: Request)
    requires r == Request("CN=x\\,OU=y", Some("b"), [Scalar("mail", Some("m"))])
    requires r.dn in dir && "CN=b,OU=y" in dir && "CN=b" !in dir
    ensures var (outcome, dir') := TwoCalls(dir, r, true, true);
            outcome == Updated && "CN=b,OU=y" in dir' && dir'["CN=b,OU=y"] == dir["CN=b,OU=y"]["mail" := {"m"}]
  {
    EscapedExample(r.dn);
    MailSet(dir["CN=b,OU=y"], r.fields[0]);
    assert |r.dn| == 10 && |"CN=b,OU=y"| == 9 && |"CN=b"| == 4;
    assert PlainValue("b");
    EscapedComma(dir, r, true);
  }

  /** On every directory where the rename goes through, the modify that follows lands on
      the renamed entry and on nothing else. */
  ghost predicate ActsAsOne(cn: string, dn: string) {
    forall dir: Entries, fs: seq<Field> {:trigger TwoCalls(dir, Request(dn, Some(cn), fs), true, true)} ::
      RenameEntry(dir, dn, cn, true).Some? && DistinctValues(fs) ==>
      TwoCalls(dir, Request(dn, Some(cn), fs), true, true) ==
      (Updated, (dir - {dn})[RenamedDn(cn, dn) := TriStates(dir[dn][Fold("cn") := {cn}], fs)])
  }

  /** Exactly when the two calls can be relied on to act as one; a cn that cannot stand
      in an RDN as it is never gets past the rename. */
  lemma ActsAsOneExactly(cn: string, dn: string)
    ensures ActsAsOne(cn, dn) <==> !PlainValue(cn) || FirstCommaSplits(dn)
  {
    if !PlainValue(cn) {
    } else if FirstCommaSplits(dn) {
      forall dir: Entries, fs: seq<Field> | RenameEntry(dir, dn, cn, true).Some? && DistinctValues(fs)
        ensures TwoCalls(dir, Request(dn, Some(cn), fs), true, true) ==
                (Updated, (dir - {dn})[RenamedDn(cn, dn) := TriStates(dir[dn][Fold("cn") := {cn}], fs)])
      {
        TwoCallsActAsOne(dir, Request(dn, Some(cn), fs), true, true);
      }
    } else {
      var f := Scalar("mail", Some("m"));
      var dir: Entries := map[dn := map[]];
      assert [f][..0] == [] && FieldMods([f][..0]) == [];
      assert FieldMods([f]) == [Mod(Replace, "mail", ["m"])];
      EscapedComma(dir, Request(dn, Some(cn), [f]), true);
      assert TwoCalls(dir, Request(dn, Some(cn), [f]), true, true).0 == ModifyFailed;
    }
  }

  // ---- The code ------------------------------------------------------------------------

  datatype Contact = Contact(
    dn: string, cn: Option<string>, displayName: Option<string>, givenName: Option<string>, sn: Option<string>,
    description: Option<string>, mail: Option<string>, telephoneNumber: Option<string>, mobile: Option<string>,
    fax: Option<string>, office: Option<string>, streetAddress: Option<string>, locality: Option<string>,
    state: Option<string>, postalCode: Option<string>, country: Option<string>, proxyAddresses: Option<seq<string>>)

  function NameFields(d: Contact): seq<Field> {
    [Scalar("displayName", d.displayName), Scalar("givenName", d.givenName), Scalar("sn", d.sn),
     Scalar("description", d.description), Scalar("mail", d.mail)]
  }

  function PhoneFields(d: Contact): seq<Field> {
    [Scalar("telephoneNumber", d.telephoneNumber), Scalar("mobile", d.mobile),
     Scalar("facsimileTelephoneNumber", d.fax), Scalar("physicalDeliveryOfficeName", d.office)]
  }

  function AddressFields(d: Contact): seq<Field> {
    [Scalar("streetAddress", d.streetAddress), Scalar("l", d.locality), Scalar("st", d.state),
     Scalar("postalCode", d.postalCode), Scalar("co", d.country)]
  }

  function ContactRequest(d: Contact): Request {
    Request(d.dn, d.cn, NameFields(d) + PhoneFields(d) + AddressFields(d) + [Field("proxyAddresses", d.proxyAddresses)])
  }

  lemma ContactAttributesDiffer(d: Contact, i: nat, j: nat)
    requires i < j < |ContactRequest(d).fields|
    ensures Fold(ContactRequest(d).fields[i].attr) != Fold(ContactRequest(d).fields[j].attr)
  {
    var fs := ContactRequest(d).fields;
    var a, b := fs[i].attr, fs[j].attr;
    if |a| == |b| {
      assert Fold(a)[0] == FoldChar(a[0]) && Fold(b)[0] == FoldChar(b[0]);
      assert Fold(a)[1] == FoldChar(a[1]) && Fold(b)[1] == FoldChar(b[1]);
    }
  }

  /** In a contact update every supplied field decides its own attribute: "" clears it,
      anything else sets exactly that value. */
  lemma ContactFieldDecides(e: Entry, d: Contact, i: nat)
    requires i < |ContactRequest(d).fields| && ContactRequest(d).fields[i].change.Some?
    ensures var fs := ContactRequest(d).fields;
            Values(TriStates(e, fs), fs[i].attr) == Elements(fs[i].change.value)
  {
    var fs := ContactRequest(d).fields;
    forall j | i < j < |fs| ensures !Touches(fs[j], Fold(fs[i].attr)) {
      ContactAttributesDiffer(d, i, j);
    }
    FieldDecides(e, fs, i);
  }

  /** The proxy-address box of a saved contact: the attribute ends up with exactly the
      lines of the box, and without a value exactly if the box is blank. */
  lemma BlankBoxClears(e: Entry, d: Contact, box: string)
    requires d.proxyAddresses == Some(Split(box, '\n'))
    ensures var after := TriStates(e, ContactRequest(d).fields);
            Values(after, "proxyAddresses") == Elements(Split(box, '\n')) &&
            (Values(after, "proxyAddresses") == {} <==> AllSpace(box))
  {
    var fs := ContactRequest(d).fields;
    assert fs[14] == Field("proxyAddresses", d.proxyAddresses);
    ContactFieldDecides(e, d, 14);
    NoTokenKept(box, '\n');
    assert Valueless(box, '\n') <==> AllSpace(box);
    if Split(box, '\n') != [] {
      assert Split(box, '\n')[0] in Elements(Split(box, '\n'));
    }
  }

  datatype User = User(dn: string, cn: Option<string>, displayName: Option<string>, givenName: Option<string>,
                       sn: Option<string>, email: Option<string>)

  function UserRequest(d: User): Request {
    Request(d.dn, d.cn,
            [Scalar("displayName", d.displayName), Scalar("givenName", d.givenName),
             Scalar("sn", d.sn), Scalar("mail", d.email)])
  }

  // ---- What a save means, attribute by attribute ---------------------------------------

  /** The tri-state of one form field: absent keeps, "" clears, anything else sets. */
  predicate Became(before: Entry, after: Entry, attr: string, form: Option<string>) {
    Values(after, attr) ==
    if form.None? then Values(before, attr) else if form.value == "" then {} else {form.value}
  }

  predicate BecameList(before: Entry, after: Entry, attr: string, form: Option<seq<string>>) {
    Values(after, attr) == if form.None? then Values(before, attr) else Elements(form.value)
  }

  /** No two fields are about one attribute. */
  predicate Separate(fs: seq<Field>) {
    forall i, j :: 0 <= i < j < |fs| ==> Fold(fs[i].attr) != Fold(fs[j].attr)
  }

  lemma SeparateFieldDecides(e: Entry, fs: seq<Field>, i: nat)
    requires i < |fs| && Separate(fs)
    ensures BecameList(e, TriStates(e, fs), fs[i].attr, fs[i].change)
  {
    if fs[i].change.Some? {
      FieldDecides(e, fs, i);
    } else {
      TriStatesLeaveOthers(e, fs, Fold(fs[i].attr));
    }
  }

  /** `e` is `before`, perhaps renamed. */
  ghost predicate SameBesidesCn(before: Entry, e: Entry) {
    forall attr :: Fold(attr) != Fold("cn") ==> Values(e, attr) == Values(before, attr)
  }

  lemma ScalarFieldDecides(before: Entry, e: Entry, fs: seq<Field>, i: nat, attr: string, v: Option<string>)
    requires SameBesidesCn(before, e) && i < |fs| && Separate(fs) && fs[i] == Scalar(attr, v)
    requires |attr| != 2 || attr == "sn" || attr == "st" || attr == "co"
    ensures Became(before, TriStates(e, fs), attr, v)
  {
    CnIsSeparate(attr);
    SeparateFieldDecides(e, fs, i);
    if v.Some? && v.value != "" {
      assert [v.value][0] == v.value;
      assert Elements([v.value]) == {v.value};
    }
  }

  lemma CnIsSeparate(attr: string)
    requires |attr| != 2 || attr == "sn" || attr == "st" || attr == "co"
    ensures Fold(attr) != Fold("cn")
  {
    if |attr| == 2 {
      assert Fold(attr)[0] == FoldChar(attr[0]) && Fold("cn")[0] == 'c';
      assert Fold(attr)[1] == FoldChar(attr[1]) && Fold("cn")[1] == 'n';
    }
  }

  ghost predicate UserBecame(before: Entry, after: Entry, d: User) {
    && Became(before, after, "displayName", d.displayName) && Became(before, after, "givenName", d.givenName)
    && Became(before, after, "sn", d.sn) && Became(before, after, "mail", d.email)
  }

  lemma UserFields(before: Entry, e: Entry, d: User)
    requires SameBesidesCn(before, e)
    ensures UserBecame(before, TriStates(e, UserRequest(d).fields), d)
  {
    var fs := UserRequest(d).fields;
    assert Separate(fs) by {
      assert forall i :: 0 <= i < 4 ==> |Fold(fs[i].attr)| == |fs[i].attr|;
      assert |fs[0].attr| == 11 && |fs[1].attr| == 9 && |fs[2].attr| == 2 && |fs[3].attr| == 4;
    }
    ScalarFieldDecides(before, e, fs, 0, "displayName", d.displayName);
    ScalarFieldDecides(before, e, fs, 1, "givenName", d.givenName);
    ScalarFieldDecides(before, e, fs, 2, "sn", d.sn);
    ScalarFieldDecides(before, e, fs, 3, "mail", d.email);
  }

  ghost predicate NamesBecame(before: Entry, after: Entry, d: Contact) {
    && Became(before, after, "displayName", d.displayName) && Became(before, after, "givenName", d.givenName)
    && Became(before, after, "sn", d.sn) && Became(before, after, "description", d.description)
    && Became(before, after, "mail", d.mail) && BecameList(before, after, "proxyAddresses", d.proxyAddresses)
  }

  ghost predicate PhonesBecame(before: Entry, after: Entry, d: Contact) {
    && Became(before, after, "telephoneNumber", d.telephoneNumber) && Became(before, after, "mobile", d.mobile)
    && Became(before, after, "facsimileTelephoneNumber", d.fax)
    && Became(before, after, "physicalDeliveryOfficeName", d.office)
  }

  ghost predicate AddressBecame(before: Entry, after: Entry, d: Contact) {
    && Became(before, after, "streetAddress", d.streetAddress) && Became(before, after, "l", d.locality)
    && Became(before, after, "st", d.state) && Became(before, after, "postalCode", d.postalCode)
    && Became(before, after, "co", d.country)
  }

  ghost predicate ContactBecame(before: Entry, after: Entry, d: Contact) {
    NamesBecame(before, after, d) && PhonesBecame(before, after, d) && AddressBecame(before, after, d)
  }

  lemma ContactSeparate(d: Contact)
    ensures Separate(ContactRequest(d).fields) && |ContactRequest(d).fields| == 15
  {
    var fs := ContactRequest(d).fields;
    forall i, j | 0 <= i < j < |fs| ensures Fold(fs[i].attr) != Fold(fs[j].attr) {
      ContactAttributesDiffer(d, i, j);
    }
  }

  /** Where each form field stands in the request. */
  lemma ContactPlaces(d: Contact)
    ensures var fs := ContactRequest(d).fields;
            && (forall i :: 0 <= i < 5 ==> fs[i] == NameFields(d)[i])
            && (forall i :: 0 <= i < 4 ==> fs[5 + i] == PhoneFields(d)[i])
            && (forall i :: 0 <= i < 5 ==> fs[9 + i] == AddressFields(d)[i])
            && fs[14] == Field("proxyAddresses", d.proxyAddresses)
  {
  }

  lemma ContactNames(before: Entry, e: Entry, d: Contact)
    requires SameBesidesCn(before, e)
    ensures NamesBecame(before, TriStates(e, ContactRequest(d).fields), d)
  {
    var fs := ContactRequest(d).fields;
    ContactSeparate(d);
    ContactPlaces(d);
    ScalarFieldDecides(before, e, fs, 0, "displayName", d.displayName);
    ScalarFieldDecides(before, e, fs, 1, "givenName", d.givenName);
    ScalarFieldDecides(before, e, fs, 2, "sn", d.sn);
    ScalarFieldDecides(before, e, fs, 3, "description", d.description);
    ScalarFieldDecides(before, e, fs, 4, "mail", d.mail);
    CnIsSeparate("proxyAddresses");
    SeparateFieldDecides(e, fs, 14);
  }

  lemma ContactPhones(before: Entry, e: Entry, d: Contact)
    requires SameBesidesCn(before, e)
    ensures PhonesBecame(before, TriStates(e, ContactRequest(d).fields), d)
  {
    var fs := ContactRequest(d).fields;
    ContactSeparate(d);
    ContactPlaces(d);
    ScalarFieldDecides(before, e, fs, 5, "telephoneNumber", d.telephoneNumber);
    ScalarFieldDecides(before, e, fs, 6, "mobile", d.mobile);
    ScalarFieldDecides(before, e, fs, 7, "facsimileTelephoneNumber", d.fax);
    ScalarFieldDecides(before, e, fs, 8, "physicalDeliveryOfficeName", d.office);
  }

  lemma ContactAddress(before: Entry, e: Entry, d: Contact)
    requires SameBesidesCn(before, e)
    ensures AddressBecame(before, TriStates(e, ContactRequest(d).fields), d)
  {
    var fs := ContactRequest(d).fields;
    ContactSeparate(d);
    ContactPlaces(d);
    ScalarFieldDecides(before, e, fs, 9, "streetAddress", d.streetAddress);
    ScalarFieldDecides(before, e, fs, 10, "l", d.locality);
    ScalarFieldDecides(before, e, fs, 11, "st", d.state);
    ScalarFieldDecides(before, e, fs, 12, "postalCode", d.postalCode);
    ScalarFieldDecides(before, e, fs, 13, "co", d.country);
  }

  /** Where a saved entry is found: under its old DN, or under the new cn and the old parent. */
  function SavedUnder(dn: string, cn: Option<string>, parent: string): string {
    if cn.None? || cn.value == "" then dn else "CN=" + cn.value + "," + parent
  }

  lemma TargetIsSavedUnder(r: Request, rdn: string, parent: string)
    requires r.dn == rdn + [','] + parent && ',' !in rdn && FirstCommaSplits(r.dn)
    ensures TargetDn(r) == SavedUnder(r.dn, r.cn, parent)
  {
    if Renames(r) {
      EffectiveDnIsRenamedDn(r.cn.value, r.dn);
      FirstCommaAt(r.dn, |rdn|);
      assert r.dn[|rdn| + 1..] == parent;
    }
  }

  /** The entry saved, after both calls. */
  lemma SavedEntry(dir: Entries, r: Request, renameAllowed: bool, modifyAllowed: bool)
    requires r.dn in dir && (Renames(r) ==> FirstCommaSplits(r.dn))
    requires TwoCalls(dir, r, renameAllowed, modifyAllowed).0.Updated?
    requires forall i :: 0 <= i < |r.fields| ==> !Touches(r.fields[i], Fold("cn"))
    ensures var dir' := TwoCalls(dir, r, renameAllowed, modifyAllowed).1;
            && TargetDn(r) in dir' && dir'[TargetDn(r)] == TriStates(RenamedEntry(dir, r), r.fields)
            && Became(dir[r.dn], dir'[TargetDn(r)], "cn", if r.cn == Some("") then None else r.cn)
    ensures SameBesidesCn(dir[r.dn], RenamedEntry(dir, r))
  {
    var (outcome, dir') := TwoCalls(dir, r, renameAllowed, modifyAllowed);
    TwoCallsActAsOne(dir, r, renameAllowed, modifyAllowed);
    TriStatesLeaveOthers(RenamedEntry(dir, r), r.fields, Fold("cn"));
  }

  /** A user saved without failure is under the new name, with each attribute of the form
      as the form has it, or as it was where the form leaves it alone. */
  lemma SavedUser(dir: Entries, d: User, rdn: string, parent: string, renameAllowed: bool, modifyAllowed: bool)
    requires d.dn in dir && d.dn == rdn + [','] + parent && ',' !in rdn && FirstCommaSplits(d.dn)
    requires TwoCalls(dir, UserRequest(d), renameAllowed, modifyAllowed).0.Updated?
    ensures var dir' := TwoCalls(dir, UserRequest(d), renameAllowed, modifyAllowed).1;
            var target := SavedUnder(d.dn, d.cn, parent);
            && target in dir' && UserBecame(dir[d.dn], dir'[target], d)
            && Became(dir[d.dn], dir'[target], "cn", if d.cn == Some("") then None else d.cn)
  {
    var r := UserRequest(d);
    forall i | 0 <= i < |r.fields| ensures !Touches(r.fields[i], Fold("cn")) {
      CnIsSeparate(r.fields[i].attr);
    }
    SavedEntry(dir, r, renameAllowed, modifyAllowed);
    TargetIsSavedUnder(r, rdn, parent);
    UserFields(dir[d.dn], RenamedEntry(dir, r), d);
  }

  lemma ContactFieldsSpareCn(d: Contact, i: nat)
    requires i < |ContactRequest(d).fields|
    ensures !Touches(ContactRequest(d).fields[i], Fold("cn"))
  {
    ContactSeparate(d);
    ContactPlaces(d);
    var fs := ContactRequest(d).fields;
    assert i == 2 ==> fs[i].attr == "sn";
    assert i == 11 ==> fs[i].attr == "st";
    assert i == 13 ==> fs[i].attr == "co";
    CnIsSeparate(fs[i].attr);
  }

  /** Likewise a contact, with its fifteen attributes. */
  lemma SavedContact(dir: Entries, d: Contact, rdn: string, parent: string, renameAllowed: bool, modifyAllowed: bool)
    requires d.dn in dir && d.dn == rdn + [','] + parent && ',' !in rdn && FirstCommaSplits(d.dn)
    requires TwoCalls(dir, ContactRequest(d), renameAllowed, modifyAllowed).0.Updated?
    ensures var dir' := TwoCalls(dir, ContactRequest(d), renameAllowed, modifyAllowed).1;
            var target := SavedUnder(d.dn, d.cn, parent);
            && target in dir' && ContactBecame(dir[d.dn], dir'[target], d)
            && Became(dir[d.dn], dir'[target], "cn", if d.cn == Some("") then None else d.cn)
  {
    var r := ContactRequest(d);
    forall i | 0 <= i < |r.fields| ensures !Touches(r.fields[i], Fold("cn")) {
      ContactFieldsSpareCn(d, i);
    }
    SavedEntry(dir, r, renameAllowed, modifyAllowed);
    TargetIsSavedUnder(r, rdn, parent);
    ContactNames(dir[d.dn], RenamedEntry(dir, r), d);
    ContactPhones(dir[d.dn], RenamedEntry(dir, r), d);
    ContactAddress(dir[d.dn], RenamedEntry(dir, r), d);
  }

  // ---- Filling the arrays ----------------------------------------------------------------

  /** The first `n` slots hold the mods of the fields seen so far. */
  ghost predicate Filled(mods: array<Option<LdapMod>>, n: nat, fs: seq<Field>)
    reads mods
  {
    n == |FieldMods(fs)| && n < mods.Length &&
    forall i :: 0 <= i < n ==> mods[i] == Some(ToLdap(FieldMods(fs)[i]))
  }

  /** One `ADD_STR_MOD`: fills the next slot of both fixed arrays if the field changes. */
  method AddMod(buf: array<LdapMod>, mods: array<Option<LdapMod>>, n: nat, f: Field, ghost seen: seq<Field>)
    returns (n': nat)
    requires Filled(mods, n, seen) && n < buf.Length < mods.Length
    modifies buf, mods
    ensures Filled(mods, n', seen + [f]) && n <= n' <= n + 1
  {
    n' := n;
    assert (seen + [f])[..|seen|] == seen;
    if f.change.Some? {
      buf[n] := LdapMod(LDAP_MOD_REPLACE, f.attr, if f.change.value != [] then Some(f.change.value) else None);
      mods[n] := Some(buf[n]);
      n' := n + 1;
    }
  }

  method AddNameMods(buf: array<LdapMod>, mods: array<Option<LdapMod>>, n: nat, d: Contact, ghost seen: seq<Field>)
    returns (n': nat)
    requires Filled(mods, n, seen) && n + 5 <= buf.Length < mods.Length
    modifies buf, mods
    ensures Filled(mods, n', seen + NameFields(d)) && n <= n' <= n + 5
  {
    ghost var fs := seen;
    n' := n;
    n' := AddMod(buf, mods, n', Scalar("displayName", d.displayName), fs);
    fs := fs + [Scalar("displayName", d.displayName)];
    n' := AddMod(buf, mods, n', Scalar("givenName", d.givenName), fs);
    fs := fs + [Scalar("givenName", d.givenName)];
    n' := AddMod(buf, mods, n', Scalar("sn", d.sn), fs);
    fs := fs + [Scalar("sn", d.sn)];
    n' := AddMod(buf, mods, n', Scalar("description", d.description), fs);
    fs := fs + [Scalar("description", d.description)];
    n' := AddMod(buf, mods, n', Scalar("mail", d.mail), fs);
    fs := fs + [Scalar("mail", d.mail)];
    assert fs == seen + NameFields(d);
  }

  method AddPhoneMods(buf: array<LdapMod>, mods: array<Option<LdapMod>>, n: nat, d: Contact, ghost seen: seq<Field>)
    returns (n': nat)
    requires Filled(mods, n, seen) && n + 4 <= buf.Length < mods.Length
    modifies buf, mods
    ensures Filled(mods, n', seen + PhoneFields(d)) && n <= n' <= n + 4
  {
    ghost var fs := seen;
    n' := n;
    n' := AddMod(buf, mods, n', Scalar("telephoneNumber", d.telephoneNumber), fs);
    fs := fs + [Scalar("telephoneNumber", d.telephoneNumber)];
    n' := AddMod(buf, mods, n', Scalar("mobile", d.mobile), fs);
    fs := fs + [Scalar("mobile", d.mobile)];
    n' := AddMod(buf, mods, n', Scalar("facsimileTelephoneNumber", d.fax), fs);
    fs := fs + [Scalar("facsimileTelephoneNumber", d.fax)];
    n' := AddMod(buf, mods, n', Scalar("physicalDeliveryOfficeName", d.office), fs);
    fs := fs + [Scalar("physicalDeliveryOfficeName", d.office)];
    assert fs == seen + PhoneFields(d);
  }

  method AddAddressMods(buf: array<LdapMod>, mods: array<Option<LdapMod>>, n: nat, d: Contact, ghost seen: seq<Field>)
    returns (n': nat)
    requires Filled(mods, n, seen) && n + 5 <= buf.Length < mods.Length
    modifies buf, mods
    ensures Filled(mods, n', seen + AddressFields(d)) && n <= n' <= n + 5
  {
    ghost var fs := seen;
    n' := n;
    n' := AddMod(buf, mods, n', Scalar("streetAddress", d.streetAddress), fs);
    fs := fs + [Scalar("streetAddress", d.streetAddress)];
    n' := AddMod(buf, mods, n', Scalar("l", d.locality), fs);
    fs := fs + [Scalar("l", d.locality)];
    n' := AddMod(buf, mods, n', Scalar("st", d.state), fs);
    fs := fs + [Scalar("st", d.state)];
    n' := AddMod(buf, mods, n', Scalar("postalCode", d.postalCode), fs);
    fs := fs + [Scalar("postalCode", d.postalCode)];
    n' := AddMod(buf, mods, n', Scalar("co", d.country), fs);
    fs := fs + [Scalar("co", d.country)];
    assert fs == seen + AddressFields(d);
  }

  /** `update_thread` of the contacts backend after the rename: fourteen scalars and the
      proxy addresses never overrun sixteen slots, and the list reads back as the batch. */
  method ContactMods(d: Contact) returns (mods: array<Option<LdapMod>>, n: nat)
    ensures fresh(mods) && n == |FieldMods(ContactRequest(d).fields)|
    ensures ReadArray(mods[..]) == FieldMods(ContactRequest(d).fields)
  {
    var buf := new LdapMod[16](_ => LdapMod(0, "", None));
    mods := new Option<LdapMod>[17](_ => None);
    n := 0;
    n := AddNameMods(buf, mods, n, d, []);
    n := AddPhoneMods(buf, mods, n, d, [] + NameFields(d));
    n := AddAddressMods(buf, mods, n, d, [] + NameFields(d) + PhoneFields(d));
    ghost var scalars := [] + NameFields(d) + PhoneFields(d) + AddressFields(d);
    n := AddMod(buf, mods, n, Field("proxyAddresses", d.proxyAddresses), scalars);
    assert scalars + [Field("proxyAddresses", d.proxyAddresses)] == ContactRequest(d).fields;
    mods[n] := None;
    ReadUpTo(FieldMods(ContactRequest(d).fields), mods[..]);
  }

  /** The users backend: four scalars in four slots and a terminator. */
  method UserMods(d: User) returns (mods: array<Option<LdapMod>>, n: nat)
    ensures fresh(mods) && n == |FieldMods(UserRequest(d).fields)|
    ensures ReadArray(mods[..]) == FieldMods(UserRequest(d).fields)
  {
    var fs := UserRequest(d).fields;
    var buf := new LdapMod[4](_ => LdapMod(0, "", None));
    mods := new Option<LdapMod>[5](_ => None);
    n := 0;
    assert FieldMods(fs[..0]) == [];
    n := AddMod(buf, mods, n, Scalar("displayName", d.displayName), fs[..0]);
    assert fs[..1] == fs[..0] + [fs[0]];
    n := AddMod(buf, mods, n, Scalar("givenName", d.givenName), fs[..1]);
    assert fs[..2] == fs[..1] + [fs[1]];
    n := AddMod(buf, mods, n, Scalar("sn", d.sn), fs[..2]);
    assert fs[..3] == fs[..2] + [fs[2]];
    n := AddMod(buf, mods, n, Scalar("mail", d.email), fs[..3]);
    assert fs == fs[..3] + [fs[3]];
    mods[n] := None;
    ReadUpTo(FieldMods(fs), mods[..]);
  }

  lemma {:induction false} ReadUpTo(ms: seq<Mod>, a: seq<Option<LdapMod>>)
    requires |ms| < |a| && a[|ms|] == None
    requires forall i :: 0 <= i < |ms| ==> a[i] == Some(ToLdap(ms[i]))
    ensures ReadArray(a) == ms
    decreases |ms|
  {
    if ms != [] {
      ReadUpTo(ms[1..], a[1..]);
      assert ms == [ms[0]] + ms[1..];
    }
  }

  /** Both workers share this shape: rename if a cn is given, then one modify on the
      textual DN if any field changes. */
  method Perform(dir: Directory, r: Request, mods: array<Option<LdapMod>>, n: nat,
                 renameAllowed: bool, modifyAllowed: bool) returns (outcome: Outcome)
    requires ReadArray(mods[..]) == FieldMods(r.fields) && n == |FieldMods(r.fields)|
    modifies dir
    ensures (outcome, dir.entries) == TwoCalls(old(dir.entries), r, renameAllowed, modifyAllowed)
  {
    var effectiveDn := r.dn;
    if r.cn.Some? && r.cn.value != "" {
      var ok := dir.Rename(r.dn, r.cn.value, renameAllowed);
      if !ok {
        return RenameFailed;
      }
      effectiveDn := EffectiveDn(r.cn.value, r.dn);
    }
    if n > 0 {
      var ok := dir.Modify(effectiveDn, mods, modifyAllowed);
      if !ok {
        return ModifyFailed;
      }
    }
    return Updated;
  }

  method UpdateContact(dir: Directory, d: Contact, renameAllowed: bool, modifyAllowed: bool) returns (outcome: Outcome)
    modifies dir
    ensures (outcome, dir.entries) == TwoCalls(old(dir.entries), ContactRequest(d), renameAllowed, modifyAllowed)
  {
    var mods, n := ContactMods(d);
    outcome := Perform(dir, ContactRequest(d), mods, n, renameAllowed, modifyAllowed);
  }

  method UpdateUser(dir: Directory, d: User, renameAllowed: bool, modifyAllowed: bool) returns (outcome: Outcome)
    modifies dir
    ensures (outcome, dir.entries) == TwoCalls(old(dir.entries), UserRequest(d), renameAllowed, modifyAllowed)
  {
    var mods, n := UserMods(d);
    outcome := Perform(dir, UserRequest(d), mods, n, renameAllowed, modifyAllowed);
  }
}
