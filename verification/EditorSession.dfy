/** The raw editor against a directory over time: selections, edits, saves and
    re-reads interleave freely, and a re-read is not tied to the selection. */
module EditorSession {
  import opened Basics
  import opened TextLists
  import opened LdapModify
  import opened EditorMods
  import opened AttrEditor

  type Dir = map<string, Entry>

  /** A table and the entry it was read from. */
  datatype Fetched = Fetched(entry: Entry, table: Table)

  datatype Saving = Saving(dn: string, mods: seq<Mod>, ok: Option<bool>)
  datatype Reading = Reading(dn: string, answer: Option<Fetched>)

  /** `nodes` are the tree's nodes with the attributes they were loaded with, `saves` and
      `rereads` the requests whose completion the panel still waits for. */
  datatype State = State(dir: Dir, nodes: map<string, Fetched>, pane: Pane,
                         saves: map<nat, Saving>, rereads: map<nat, Reading>, next: nat)

  datatype Step =
    | Discover(child: string, table: Table)
    | Select(dn: Option<string>, keys: seq<string>)
    | Edit(rows: seq<Row>)
    | Save
    | ServeSave(id: nat, allowed: bool)
    | SaveDone(id: nat)
    | ServeRead(id: nat, table: Table)
    | FailRead(id: nat)
    | ReadLands(id: nat, keys: seq<string>)

  /** What reading an entry returns: every attribute with its values. */
  ghost predicate ReadOf(e: Entry, t: Table) {
    LoadedFrom(e, t) && forall k :: k in e ==> exists a :: a in t && Fold(a) == k
  }

  /** Every entry carries its own name, as Active Directory has it. */
  predicate SelfNamed(e: Entry, dn: string) {
    Values(e, "distinguishedName") == {dn}
  }

  ghost predicate Enabled(s: State, l: Step) {
    match l
    case Discover(dn, table) => dn in s.dir && dn !in s.nodes && ReadOf(s.dir[dn], table)
    case Select(dn, keys) => dn.Some? ==> dn.value in s.nodes && Lists(keys, s.nodes[dn.value].table)
    case Edit(rows) => s.pane.table.Some? ==> Shape(s.pane.table.value, rows)
    case Save => s.pane.dn.Some? && StagedMods(ReferenceOf(s.pane), s.pane.rows) != []
    case ServeSave(id, _) => id in s.saves && s.saves[id].ok == None
    case SaveDone(id) => id in s.saves && s.saves[id].ok.Some?
    case ServeRead(id, table) =>
      id in s.rereads && s.rereads[id].answer == None && s.rereads[id].dn in s.dir && ReadOf(s.dir[s.rereads[id].dn], table)
    case FailRead(id) => id in s.rereads && s.rereads[id].answer == None
    case ReadLands(id, keys) => id in s.rereads && s.rereads[id].answer.Some? && Lists(keys, s.rereads[id].answer.value.table)
  }

  /** The server's answer: it refuses what it has no entry for and what would change an
      entry's name; `allowed` stands for its other reasons. */
  function Served(dir: Dir, save: Saving, allowed: bool): Outcome {
    if save.dn !in dir then Refused(Unwilling)
    else
      var out := Answer(dir[save.dn], save.mods, true, allowed);
      if out.Applied? && !SelfNamed(out.entry, save.dn) then Refused(Unwilling) else out
  }

  ghost function Apply(s: State, l: Step): State
    requires Enabled(s, l)
  {
    match l
    case Discover(dn, table) => s.(nodes := s.nodes[dn := Fetched(s.dir[dn], table)])
    case Select(dn, keys) =>
      s.(pane := Selected(s.pane, if dn.None? then None else Some(Node(dn.value, s.nodes[dn.value].table)), keys))
    case Edit(rows) => s.(pane := s.pane.(rows := rows))
    case Save =>
      s.(saves := s.saves[s.next := Saving(s.pane.dn.value, StagedMods(ReferenceOf(s.pane), s.pane.rows), None)],
         next := s.next + 1)
    case ServeSave(id, allowed) =>
      var out := Served(s.dir, s.saves[id], allowed);
      s.(dir := if out.Applied? then s.dir[s.saves[id].dn := out.entry] else s.dir,
         saves := s.saves[id := s.saves[id].(ok := Some(out.Applied?))])
    case SaveDone(id) =>
      var s' := s.(saves := s.saves - {id});
      if s.saves[id].ok == Some(true) && s.pane.dn.Some?
      then s'.(rereads := s.rereads[s.next := Reading(s.pane.dn.value, None)], next := s.next + 1)
      else s'
    case ServeRead(id, table) =>
      s.(rereads := s.rereads[id := s.rereads[id].(answer := Some(Fetched(s.dir[s.rereads[id].dn], table)))])
    case FailRead(id) => s.(rereads := s.rereads - {id}, pane := Reread(s.pane, None, []))
    case ReadLands(id, keys) =>
      s.(rereads := s.rereads - {id}, pane := Reread(s.pane, Some(s.rereads[id].answer.value.table), keys))
  }

  ghost predicate Legal(s: State, ls: seq<Step>)
    decreases |ls|
  {
    ls == [] || (Enabled(s, ls[0]) && Legal(Apply(s, ls[0]), ls[1..]))
  }

  ghost function After(s: State, ls: seq<Step>): State
    requires Legal(s, ls)
    decreases |ls|
  {
    if ls == [] then s else After(Apply(s, ls[0]), ls[1..])
  }

  ghost predicate Start(s: State) {
    && (forall dn :: dn in s.dir ==> SelfNamed(s.dir[dn], dn))
    && s.nodes == map[] && s.pane == Pane(None, None, []) && s.saves == map[] && s.rereads == map[]
  }

  // ---- Every run -------------------------------------------------------------------

  /** Whatever was fetched under a name is a reading of an entry of that name. */
  ghost predicate Genuine(dn: string, f: Fetched) {
    SelfNamed(f.entry, dn) && ReadOf(f.entry, f.table)
  }

  ghost predicate Inv(s: State) {
    && (forall dn :: dn in s.dir ==> SelfNamed(s.dir[dn], dn))
    && (forall dn :: dn in s.nodes ==> Genuine(dn, s.nodes[dn]))
    && (forall id :: id in s.rereads && s.rereads[id].answer.Some? ==> Genuine(s.rereads[id].dn, s.rereads[id].answer.value))
    && PaneOk(s.pane)
  }

  lemma DirKept(s: State, l: Step, dn: string)
    requires Inv(s) && Enabled(s, l) && dn in Apply(s, l).dir
    ensures SelfNamed(Apply(s, l).dir[dn], dn)
  {
  }

  lemma NodeKept(s: State, l: Step, dn: string)
    requires Inv(s) && Enabled(s, l) && dn in Apply(s, l).nodes
    ensures Genuine(dn, Apply(s, l).nodes[dn])
    ensures dn in s.nodes ==> Apply(s, l).nodes[dn] == s.nodes[dn]
  {
    assert dn in s.nodes ==> Genuine(dn, s.nodes[dn]);
    if dn !in s.nodes {
      assert l.Discover? && SelfNamed(s.dir[dn], dn);
    }
  }

  lemma RereadKept(s: State, l: Step, id: nat)
    requires Inv(s) && Enabled(s, l) && id in Apply(s, l).rereads && Apply(s, l).rereads[id].answer.Some?
    ensures Genuine(Apply(s, l).rereads[id].dn, Apply(s, l).rereads[id].answer.value)
  {
    if l.ServeRead? && l.id == id {
      assert SelfNamed(s.dir[s.rereads[id].dn], s.rereads[id].dn);
    } else {
      assert id in s.rereads && Apply(s, l).rereads[id] == s.rereads[id];
    }
  }

  ghost predicate PaneOk(p: Pane) {
    (p.table.Some? ==> Shape(p.table.value, p.rows)) && (p.dn.Some? ==> p.table.Some?)
  }

  lemma PaneKept(s: State, l: Step)
    requires Inv(s) && Enabled(s, l)
    ensures PaneOk(Apply(s, l).pane)
  {
    if l.Select? && l.dn.Some? {
      RowsFromKeys(l.keys, s.nodes[l.dn.value].table);
    } else if l.ReadLands? {
      RowsFromKeys(l.keys, s.rereads[l.id].answer.value.table);
    }
  }

  lemma StepKeeps(s: State, l: Step)
    requires Inv(s) && Enabled(s, l)
    ensures Inv(Apply(s, l)) && NodesKept(s, Apply(s, l))
  {
    var s' := Apply(s, l);
    forall dn | dn in s'.dir ensures SelfNamed(s'.dir[dn], dn) { DirKept(s, l, dn); }
    forall dn | dn in s'.nodes ensures Genuine(dn, s'.nodes[dn]) { NodeKept(s, l, dn); }
    forall id | id in s'.rereads && s'.rereads[id].answer.Some? ensures Genuine(s'.rereads[id].dn, s'.rereads[id].answer.value) {
      RereadKept(s, l, id);
    }
    forall dn | dn in s.nodes ensures dn in s'.nodes && s'.nodes[dn] == s.nodes[dn] {
      assert dn in s'.nodes;
      NodeKept(s, l, dn);
    }
    PaneKept(s, l);
  }

  ghost predicate NodesKept(s: State, s': State) {
    forall dn :: dn in s.nodes ==> dn in s'.nodes && s'.nodes[dn] == s.nodes[dn]
  }

  lemma {:induction false} RunKeeps(s: State, ls: seq<Step>)
    requires Inv(s) && Legal(s, ls)
    ensures Inv(After(s, ls)) && NodesKept(s, After(s, ls))
    decreases |ls|
  {
    if ls != [] {
      StepKeeps(s, ls[0]);
      RunKeeps(Apply(s, ls[0]), ls[1..]);
    }
  }

  /** A reading determines the entry. */
  lemma ReadingDetermines(e: Entry, f: Entry, t: Table)
    requires ReadOf(e, t) && ReadOf(f, t)
    ensures e == f
  {
    forall k | k in e ensures k in f && f[k] == e[k] { SameAt(e, f, t, k); }
    forall k | k in f ensures k in e { SameAt(f, e, t, k); }
  }

  lemma SameAt(e: Entry, f: Entry, t: Table, k: string)
    requires ReadOf(e, t) && ReadOf(f, t) && k in e
    ensures k in f && f[k] == e[k]
  {
    var a :| a in t && Fold(a) == k;
    assert Values(e, a) == Elements(t[a]) == Values(f, a);
    assert t[a][0] in Elements(t[a]);
  }

  /** The editor's table is that of the entry it says it shows. */
  ghost predicate ShowsEntry(s: State) {
    s.pane.dn.Some? && s.pane.dn.value in s.dir && s.pane.table.Some? && ReadOf(s.dir[s.pane.dn.value], s.pane.table.value)
  }

  lemma Landing(s: State, id: nat, keys: seq<string>)
    requires Inv(s) && Enabled(s, ReadLands(id, keys))
    ensures var r := s.rereads[id];
            ShowsEntry(Apply(s, ReadLands(id, keys))) <==>
            s.pane.dn == Some(r.dn) && r.dn in s.dir && s.dir[r.dn] == r.answer.value.entry
  {
    var f := s.rereads[id].answer.value;
    if ShowsEntry(Apply(s, ReadLands(id, keys))) {
      ReadingDetermines(s.dir[s.pane.dn.value], f.entry, f.table);
      assert s.pane.dn.value in Values(f.entry, "distinguishedName");
    }
  }

  /** In every run, when a re-read lands the editor shows the selected entry exactly if
      that is still the entry the re-read was sent for, and it has not changed since. */
  lemma LandingIsRightExactly(s0: State, ls: seq<Step>, id: nat, keys: seq<string>)
    requires Start(s0) && Legal(s0, ls) && Enabled(After(s0, ls), ReadLands(id, keys))
    ensures var s := After(s0, ls);
            var r := s.rereads[id];
            ShowsEntry(Apply(s, ReadLands(id, keys))) <==>
            s.pane.dn == Some(r.dn) && r.dn in s.dir && s.dir[r.dn] == r.answer.value.entry
  {
    RunKeeps(s0, ls);
    Landing(After(s0, ls), id, keys);
  }

  ghost predicate Mislabelled(s: State, b: string, t: Table) {
    s.pane.dn == Some(b) && s.pane.table == Some(t) && !ShowsEntry(s)
  }

  lemma LandsOnAnother(s: State, id: nat, keys: seq<string>, b: string)
    requires Inv(s) && Enabled(s, ReadLands(id, keys)) && s.pane.dn == Some(b) && s.rereads[id].dn != b
    ensures Mislabelled(Apply(s, ReadLands(id, keys)), b, s.rereads[id].answer.value.table)
  {
    Landing(s, id, keys);
  }

  lemma SelectLeavesRereads(s: State, b: string, nodeKeys: seq<string>)
    requires Inv(s) && Enabled(s, Select(Some(b), nodeKeys))
    ensures var s' := Apply(s, Select(Some(b), nodeKeys));
            Inv(s') && s'.rereads == s.rereads && s'.pane.dn == Some(b)
  {
    StepKeeps(s, Select(Some(b), nodeKeys));
  }

  /** Selecting another node before an answered re-read lands is enough: that node's name
      then stands over the values of the entry read. */
  lemma LateRereadMislabels(s: State, id: nat, keys: seq<string>, b: string, nodeKeys: seq<string>)
    requires Inv(s) && Enabled(s, ReadLands(id, keys)) && Enabled(s, Select(Some(b), nodeKeys)) && s.rereads[id].dn != b
    ensures var s1 := Apply(s, Select(Some(b), nodeKeys));
            Enabled(s1, ReadLands(id, keys)) &&
            Mislabelled(Apply(s1, ReadLands(id, keys)), b, s.rereads[id].answer.value.table)
  {
    var s1 := Apply(s, Select(Some(b), nodeKeys));
    SelectLeavesRereads(s, b, nodeKeys);
    LandsOnAnother(s1, id, keys, b);
  }

  const NameAttr := "distinguishedName"

  /** An entry with nothing but its name, as read. */
  function Bare(dn: string): Fetched {
    Fetched(map[Fold(NameAttr) := {dn}], map[NameAttr := [dn]])
  }

  lemma BareIsGenuine(dn: string)
    ensures Genuine(dn, Bare(dn)) && Lists([NameAttr], Bare(dn).table)
  {
    assert Elements([dn]) == {dn} by { assert [dn][0] == dn; }
    assert Elements([NameAttr]) == {NameAttr} by { assert [NameAttr][0] == NameAttr; }
  }

  function ExampleState(): State {
    State(map["a" := Bare("a").entry, "b" := Bare("b").entry], map["a" := Bare("a"), "b" := Bare("b")],
          Selected(Pane(None, None, []), Some(Node("a", Bare("a").table)), [NameAttr]),
          map[], map[1 := Reading("a", Some(Bare("a")))], 2)
  }

  lemma ExampleIsInvariant()
    ensures Inv(ExampleState())
  {
    BareIsGenuine("a");
    BareIsGenuine("b");
    RowsFromKeys([NameAttr], Bare("a").table);
  }

  /** Entry "a" saved and read again, "b" in the tree: selecting "b" now goes wrong. */
  lemma LateRereadExample()
    ensures var s := ExampleState();
            Enabled(s, Select(Some("b"), [NameAttr])) &&
            var s1 := Apply(s, Select(Some("b"), [NameAttr]));
            Enabled(s1, ReadLands(1, [NameAttr])) &&
            Mislabelled(Apply(s1, ReadLands(1, [NameAttr])), "b", Bare("a").table)
  {
    var s := ExampleState();
    ExampleIsInvariant();
    BareIsGenuine("a");
    BareIsGenuine("b");
    assert Enabled(s, ReadLands(1, [NameAttr])) && Enabled(s, Select(Some("b"), [NameAttr]));
    LateRereadMislabels(s, 1, [NameAttr], "b", [NameAttr]);
  }

  lemma Then(s: State, l: Step, ls: seq<Step>)
    requires Enabled(s, l) && Legal(Apply(s, l), ls)
    ensures Legal(s, [l] + ls) && After(s, [l] + ls) == After(Apply(s, l), ls)
  {
    assert ([l] + ls)[1..] == ls;
  }

  /** The tree keeps the attributes a node was first loaded with: at any later point of
      any run, selecting the node shows its entry exactly if the entry is as it was then.
      A save is never carried over to the node. */
  lemma SelectionIsRightExactly(s0: State, before: seq<Step>, ls: seq<Step>, dn: string, keys: seq<string>)
    requires Start(s0) && Legal(s0, before) && dn in After(s0, before).nodes
    requires Legal(After(s0, before), ls) && Enabled(After(After(s0, before), ls), Select(Some(dn), keys))
    ensures var first, s := After(s0, before), After(After(s0, before), ls);
            ShowsEntry(Apply(s, Select(Some(dn), keys))) <==> dn in s.dir && s.dir[dn] == first.nodes[dn].entry
  {
    RunKeeps(s0, before);
    RunKeeps(After(s0, before), ls);
    var s := After(After(s0, before), ls);
    if ShowsEntry(Apply(s, Select(Some(dn), keys))) {
      ReadingDetermines(s.dir[dn], s.nodes[dn].entry, s.nodes[dn].table);
    }
  }

  /** A node just loaded shows its entry when selected. */
  lemma LoadedNodeShowsEntry(s: State, dn: string, table: Table, keys: seq<string>)
    requires Enabled(s, Discover(dn, table)) && Lists(keys, table)
    ensures var s1 := Apply(s, Discover(dn, table));
            Enabled(s1, Select(Some(dn), keys)) && ShowsEntry(Apply(s1, Select(Some(dn), keys)))
  {
  }

  // ---- The next save ------------------------------------------------------------------

  /** Rows of loaded attributes only, one for each type, kept, retyped or to be deleted. */
  predicate LoadedOnly(rows: seq<Row>) {
    && (forall i :: 0 <= i < |rows| ==> !rows[i].isNew)
    && (forall i, j :: 0 <= i < j < |rows| ==> Fold(rows[i].attr) != Fold(rows[j].attr))
  }

  function RowValues(r: Row): set<string> {
    if r.marked then {} else Elements(Current(r))
  }

  /** The edited rows written over an entry, whichever it is; the others say nothing. */
  function Overlaid(e: Entry, loaded: Table, rows: seq<Row>): Entry {
    if rows == [] then e
    else
      var r := rows[|rows| - 1];
      var e' := Overlaid(e, loaded, rows[..|rows| - 1]);
      if !RowDirty(loaded, r) then e'
      else if r.isNew then SetValues(e', r.name, Values(e', r.name) + Elements(Current(r)))
      else SetValues(e', r.attr, RowValues(r))
  }

  /** What a save asks of the entry for one edited row: no repeated value, what is deleted
      is there, and what is added is not. */
  predicate TakesEdit(now: Entry, r: Row) {
    if r.isNew then NoDup(Current(r)) && Elements(Current(r)) !! Values(now, r.name)
    else if RowValues(r) == {} then Fold(r.attr) in now
    else NoDup(Current(r))
  }

  predicate TakesEdits(e: Entry, loaded: Table, rows: seq<Row>) {
    forall i :: 0 <= i < |rows| && RowDirty(loaded, rows[i]) ==> TakesEdit(Overlaid(e, loaded, rows[..i]), rows[i])
  }

  lemma {:induction false} OverlaidElsewhere(e: Entry, loaded: Table, rows: seq<Row>, k: string)
    requires forall i :: 0 <= i < |rows| && RowDirty(loaded, rows[i]) ==> !rows[i].isNew && Fold(rows[i].attr) != k
    ensures At(Overlaid(e, loaded, rows), k) == At(e, k) && (k in Overlaid(e, loaded, rows) <==> k in e)
    decreases |rows|
  {
    if rows != [] {
      OverlaidElsewhere(e, loaded, rows[..|rows| - 1], k);
    }
  }

  lemma RowOverlays(now: Entry, loaded: Table, r: Row)
    requires WellFormed(now)
    ensures var out := ApplyMods(now, RowMods(loaded, r));
            && (out.Applied? <==> (RowDirty(loaded, r) ==> TakesEdit(now, r)))
            && (out.Applied? ==>
                  out.entry == if !RowDirty(loaded, r) then now
                               else if r.isNew then SetValues(now, r.name, Values(now, r.name) + Elements(Current(r)))
                               else SetValues(now, r.attr, RowValues(r)))
  {
    if r.isNew {
      if RowDirty(loaded, r) { NewRowRefines(now, loaded, r); }
    } else {
      NoElements(Current(r));
      ApplyOne(now, Mod(Delete, r.attr, []));
      ApplyOne(now, Mod(Replace, r.attr, Current(r)));
    }
  }

  lemma LoadedOnlyPrefix(rows: seq<Row>)
    requires rows != [] && LoadedOnly(rows)
    ensures var n := |rows| - 1;
            LoadedOnly(rows[..n]) && forall i :: 0 <= i < n ==> Fold(rows[..n][i].attr) != Fold(rows[n].attr)
  {
  }

  lemma TakesEditsSnoc(e: Entry, loaded: Table, rows: seq<Row>)
    requires rows != []
    ensures var n := |rows| - 1;
            TakesEdits(e, loaded, rows) <==>
            TakesEdits(e, loaded, rows[..n]) &&
            (RowDirty(loaded, rows[n]) ==> TakesEdit(Overlaid(e, loaded, rows[..n]), rows[n]))
  {
    var n := |rows| - 1;
    forall i | 0 <= i < n ensures rows[..n][i] == rows[i] && rows[..n][..i] == rows[..i] {
    }
  }

  /** What Save does to any entry it is sent to, the one its rows were loaded from or not:
      it is accepted exactly if no value is repeated, what is deleted is there and what is
      added is not, and then the entry keeps its own values wherever nothing was edited. */
  lemma {:induction false} SaveOverlays(e: Entry, loaded: Table, rows: seq<Row>)
    requires WellFormed(e)
    ensures var out := ApplyMods(e, StagedMods(loaded, rows));
            && (out.Applied? <==> TakesEdits(e, loaded, rows))
            && (out.Applied? ==> out.entry == Overlaid(e, loaded, rows))
    decreases |rows|
  {
    if rows != [] {
      var n := |rows| - 1;
      SaveOverlays(e, loaded, rows[..n]);
      OverlaidWellFormed(e, loaded, rows[..n]);
      StagedLast(e, loaded, rows);
      RowOverlays(Overlaid(e, loaded, rows[..n]), loaded, rows[n]);
      TakesEditsSnoc(e, loaded, rows);
    }
  }

  lemma {:induction false} OverlaidAt(e: Entry, loaded: Table, rows: seq<Row>, i: nat)
    requires LoadedOnly(rows) && i < |rows|
    ensures Values(Overlaid(e, loaded, rows), rows[i].attr) ==
            if RowDirty(loaded, rows[i]) then RowValues(rows[i]) else Values(e, rows[i].attr)
    decreases |rows|
  {
    var n := |rows| - 1;
    LoadedOnlyPrefix(rows);
    if i < n {
      OverlaidAt(e, loaded, rows[..n], i);
      var before, r := Overlaid(e, loaded, rows[..n]), rows[n];
      assert rows[..n][i] == rows[i] && Fold(rows[i].attr) != Fold(r.attr);
      assert Values(SetValues(before, r.attr, RowValues(r)), rows[i].attr) == Values(before, rows[i].attr);
    } else {
      OverlaidElsewhere(e, loaded, rows[..n], Fold(rows[n].attr));
    }
  }

  lemma {:induction false} DescribedAt(e: Entry, rows: seq<Row>, i: nat)
    requires LoadedOnly(rows) && i < |rows|
    ensures Values(Describe(e, rows), rows[i].attr) == RowValues(rows[i])
    decreases |rows|
  {
    var n := |rows| - 1;
    LoadedOnlyPrefix(rows);
    if i < n {
      DescribedAt(e, rows[..n], i);
    }
  }

  lemma {:induction false} OverlaidWellFormed(e: Entry, loaded: Table, rows: seq<Row>)
    requires WellFormed(e)
    ensures WellFormed(Overlaid(e, loaded, rows))
    decreases |rows|
  {
    if rows != [] {
      OverlaidWellFormed(e, loaded, rows[..|rows| - 1]);
    }
  }

  /** The save makes the entry what the rows show exactly if the entry already holds the
      values of every row that was not edited. */
  lemma SavedIsShownExactly(e: Entry, loaded: Table, rows: seq<Row>)
    requires WellFormed(e) && LoadedOnly(rows)
    ensures Overlaid(e, loaded, rows) == Describe(e, rows) <==>
            forall i :: 0 <= i < |rows| && !RowDirty(loaded, rows[i]) ==> Values(e, rows[i].attr) == RowValues(rows[i])
  {
    var saved, shown := Overlaid(e, loaded, rows), Describe(e, rows);
    forall i | 0 <= i < |rows|
      ensures Values(saved, rows[i].attr) == if RowDirty(loaded, rows[i]) then RowValues(rows[i]) else Values(e, rows[i].attr)
      ensures Values(shown, rows[i].attr) == RowValues(rows[i])
    {
      OverlaidAt(e, loaded, rows, i);
      DescribedAt(e, rows, i);
    }
    if forall i :: 0 <= i < |rows| && !RowDirty(loaded, rows[i]) ==> Values(e, rows[i].attr) == RowValues(rows[i]) {
      OverlaidWellFormed(e, loaded, rows);
      DescribeWellFormed(e, rows);
      forall k ensures At(saved, k) == At(shown, k) {
        if i :| 0 <= i < |rows| && Fold(rows[i].attr) == k {
          assert Values(saved, rows[i].attr) == Values(shown, rows[i].attr);
        } else {
          OverlaidElsewhere(e, loaded, rows, k);
          DescribeLeavesOthers(e, rows, k);
        }
      }
      SameEntries(saved, shown);
    }
  }

  lemma SameEntries(e: Entry, f: Entry)
    requires WellFormed(e) && WellFormed(f) && forall k :: At(e, k) == At(f, k)
    ensures e == f
  {
    forall k | k in e ensures k in f && f[k] == e[k] { assert At(e, k) == At(f, k); }
    forall k | k in f ensures k in e { assert At(e, k) == At(f, k); }
  }

  /** The wrong request after a late re-read: with entry `b` selected and the table of
      another entry in the editor, edits typed over the other entry's values are sent to
      `b` and laid over it, or refused. */
  lemma NextSaveGoesToTheSelected(s: State, rows: seq<Row>, b: string)
    requires s.pane.dn == Some(b) && s.pane.table.Some? && b in s.dir && WellFormed(s.dir[b]) && s.next !in s.saves
    requires Shape(s.pane.table.value, rows) && StagedMods(s.pane.table.value, rows) != []
    ensures var t := s.pane.table.value;
            var ls := [Edit(rows), Save, ServeSave(s.next, true)];
            var after := Overlaid(s.dir[b], t, rows);
            Legal(s, ls) &&
            After(s, ls).dir == if TakesEdits(s.dir[b], t, rows) && SelfNamed(after, b) then s.dir[b := after] else s.dir
  {
    var s1 := Apply(s, Edit(rows));
    var s2 := Apply(s1, Save);
    var l1, l2, l3 := Edit(rows), Save, ServeSave(s.next, true);
    assert s2.saves[s.next] == Saving(b, StagedMods(s.pane.table.value, rows), None);
    SaveOverlays(s.dir[b], s.pane.table.value, rows);
    Then(s2, l3, []);
    Then(s1, l2, [l3]);
    Then(s, l1, [l2, l3]);
    assert [l1] + [l2, l3] == [l1, l2, l3] && [l2] + [l3] == [l2, l3] && [l3] + [] == [l3];
  }

  // ---- A save from click to refresh ---------------------------------------------------

  /** After Save was clicked with `a` selected and the server has taken the edits. */
  predicate SaveTaken(s: State, a: string) {
    && s.pane.dn == Some(a) && s.pane.table.Some? && a in s.dir
    && s.next !in s.saves && s.next + 1 !in s.rereads
    && StagedMods(s.pane.table.value, s.pane.rows) != []
    && TakesEdits(s.dir[a], s.pane.table.value, s.pane.rows) && SelfNamed(SavedAs(s, a), a)
  }

  /** The entry as the edits make it. */
  function SavedAs(s: State, a: string): Entry
    requires a in s.dir && s.pane.table.Some?
  {
    Overlaid(s.dir[a], s.pane.table.value, s.pane.rows)
  }

  /** The first two steps: the request goes out for `a` and is served. */
  lemma SaveServed(s: State, a: string)
    requires SaveTaken(s, a) && WellFormed(s.dir[a])
    ensures Enabled(s, Save) && Enabled(Apply(s, Save), ServeSave(s.next, true))
    ensures Apply(Apply(s, Save), ServeSave(s.next, true)) ==
            s.(dir := s.dir[a := SavedAs(s, a)], next := s.next + 1,
               saves := s.saves[s.next := Saving(a, StagedMods(s.pane.table.value, s.pane.rows), Some(true))])
  {
    SaveOverlays(s.dir[a], s.pane.table.value, s.pane.rows);
    var s1 := Apply(s, Save);
    var staged := StagedMods(s.pane.table.value, s.pane.rows);
    assert s1.saves[s.next] == Saving(a, staged, None);
    assert Served(s1.dir, s1.saves[s.next], true) == Applied(SavedAs(s, a));
    assert s1.saves[s.next := Saving(a, staged, Some(true))] == s.saves[s.next := Saving(a, staged, Some(true))];
  }

  /** The last three: the entry selected by then is read again and shown. */
  lemma RefreshFollows(s: State, save: nat, x: string, table: Table, keys: seq<string>)
    requires save in s.saves && s.saves[save].ok == Some(true) && s.pane.dn == Some(x) && x in s.dir && s.next !in s.rereads
    requires ReadOf(s.dir[x], table) && Lists(keys, table)
    ensures Enabled(s, SaveDone(save))
    ensures var s1 := Apply(s, SaveDone(save));
            && Enabled(s1, ServeRead(s.next, table))
            && var s2 := Apply(s1, ServeRead(s.next, table));
            && Enabled(s2, ReadLands(s.next, keys))
            && Apply(s2, ReadLands(s.next, keys)) ==
               s.(saves := s.saves - {save}, next := s.next + 1,
                  pane := Pane(Some(x), Some(table), RowsOf(table, keys)))
  {
    var s1 := Apply(s, SaveDone(save));
    assert s1.rereads == s.rereads[s.next := Reading(x, None)];
    var s2 := Apply(s1, ServeRead(s.next, table));
    assert s2.rereads[s.next] == Reading(x, Some(Fetched(s.dir[x], table)));
    assert s2.rereads - {s.next} == s.rereads;
  }

  /** Left alone, a save the server takes changes the selected entry as the rows say, and
      ends with the editor showing the entry as it is then. */
  lemma UndisturbedSaveIsShown(s: State, a: string, table: Table, keys: seq<string>)
    requires SaveTaken(s, a) && WellFormed(s.dir[a]) && ReadOf(SavedAs(s, a), table) && Lists(keys, table)
    ensures var ls := [Save] + ([ServeSave(s.next, true)] +
                      ([SaveDone(s.next)] + ([ServeRead(s.next + 1, table)] + ([ReadLands(s.next + 1, keys)] + []))));
            && Legal(s, ls) && After(s, ls).dir == s.dir[a := SavedAs(s, a)] && ShowsEntry(After(s, ls))
            && After(s, ls).pane == Pane(Some(a), Some(table), RowsOf(table, keys))
            && After(s, ls).saves == s.saves && After(s, ls).rereads == s.rereads
  {
    SaveServed(s, a);
    var s2 := Apply(Apply(s, Save), ServeSave(s.next, true));
    RefreshFollows(s2, s.next, a, table, keys);
    assert s2.saves - {s.next} == s.saves;
    ThreeMore(s2, SaveDone(s.next), ServeRead(s.next + 1, table), ReadLands(s.next + 1, keys));
    var rest := [SaveDone(s.next)] + ([ServeRead(s.next + 1, table)] + ([ReadLands(s.next + 1, keys)] + []));
    Then(Apply(s, Save), ServeSave(s.next, true), rest);
    Then(s, Save, [ServeSave(s.next, true)] + rest);
  }

  lemma ThreeMore(s: State, l1: Step, l2: Step, l3: Step)
    requires Enabled(s, l1) && Enabled(Apply(s, l1), l2) && Enabled(Apply(Apply(s, l1), l2), l3)
    ensures var ls := [l1] + ([l2] + ([l3] + []));
            Legal(s, ls) && After(s, ls) == Apply(Apply(Apply(s, l1), l2), l3)
  {
    Then(Apply(Apply(s, l1), l2), l3, []);
    Then(Apply(s, l1), l2, [l3] + []);
    Then(s, l1, [l2] + ([l3] + []));
  }

  /** If another entry is selected before the save completes, it is that entry, not the
      saved one, that is read again and shown. */
  lemma SelectedEntryIsReread(s: State, a: string, b: string, nodeKeys: seq<string>, table: Table, keys: seq<string>)
    requires SaveTaken(s, a) && WellFormed(s.dir[a]) && b != a && b in s.dir
    requires Enabled(s, Select(Some(b), nodeKeys)) && ReadOf(s.dir[b], table) && Lists(keys, table)
    ensures var s2 := Apply(Apply(s, Save), ServeSave(s.next, true));
            && Enabled(s2, Select(Some(b), nodeKeys))
            && var s3 := Apply(s2, Select(Some(b), nodeKeys));
            && var ls := [SaveDone(s.next)] + ([ServeRead(s.next + 1, table)] + ([ReadLands(s.next + 1, keys)] + []));
            && Legal(s3, ls) && After(s3, ls).dir == s.dir[a := SavedAs(s, a)] && ShowsEntry(After(s3, ls))
            && After(s3, ls).pane == Pane(Some(b), Some(table), RowsOf(table, keys))
  {
    SaveServed(s, a);
    var s3 := Apply(Apply(Apply(s, Save), ServeSave(s.next, true)), Select(Some(b), nodeKeys));
    RefreshFollows(s3, s.next, b, table, keys);
    ThreeMore(s3, SaveDone(s.next), ServeRead(s.next + 1, table), ReadLands(s.next + 1, keys));
  }

  /** A refused save changes neither directory nor editor and reads nothing again; nor does
      a re-read that fails. */
  lemma FailuresChangeNothing(s: State, id: nat)
    ensures Enabled(s, ServeSave(id, true)) && s.saves[id].dn !in s.dir ==>
              var s1 := Apply(s, ServeSave(id, true));
              s1.dir == s.dir && s1.pane == s.pane && s1.saves[id].ok == Some(false)
    ensures Enabled(s, ServeSave(id, false)) ==>
              var s1 := Apply(s, ServeSave(id, false));
              && s1.dir == s.dir && s1.pane == s.pane
              && (s.saves[id].mods != [] ==>
                    Enabled(s1, SaveDone(id)) &&
                    var s2 := Apply(s1, SaveDone(id));
                    s2.dir == s.dir && s2.pane == s.pane && s2.rereads == s.rereads && s2.saves == s.saves - {id})
    ensures Enabled(s, FailRead(id)) ==> Apply(s, FailRead(id)) == s.(rereads := s.rereads - {id})
  {
    if Enabled(s, ServeSave(id, false)) {
      var out := Served(s.dir, s.saves[id], false);
      assert out.Applied? ==> s.saves[id].mods == [] && out.entry == s.dir[s.saves[id].dn];
      assert s.saves[id := s.saves[id].(ok := Some(out.Applied?))] - {id} == s.saves - {id};
    }
  }
}
