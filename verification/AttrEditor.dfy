/** The editor itself: rows and loaded values as mutable state, with the Save
    button's sensitivity kept in step. */
module AttrEditor {
  import opened Basics
  import opened TextLists
  import opened LdapModify
  import opened EditorMods

  function LoadedRow(loaded: Table, attr: string): Row {
    Row(false, attr, "", Join("; ", Orig(loaded, attr)), false)
  }

  function RowsOf(loaded: Table, keys: seq<string>): seq<Row> {
    seq(|keys|, i requires 0 <= i < |keys| => LoadedRow(loaded, keys[i]))
  }

  /** One untouched row per attribute, in the order of the sorted key list. */
  predicate Untouched(loaded: Table, rows: seq<Row>) {
    && Shape(loaded, rows)
    && (forall i :: 0 <= i < |rows| ==> !rows[i].isNew && rows[i] == LoadedRow(loaded, rows[i].attr))
    && (forall a :: a in loaded ==> exists i :: 0 <= i < |rows| && rows[i].attr == a)
  }

  /** What `g_list_sort` on the table's keys returns, order aside. */
  predicate Lists(keys: seq<string>, loaded: Table) {
    NoDup(keys) && Elements(keys) == loaded.Keys
  }

  lemma RowsFromKeys(keys: seq<string>, loaded: Table)
    requires Lists(keys, loaded)
    ensures Untouched(loaded, RowsOf(loaded, keys))
  {
    var rows := RowsOf(loaded, keys);
    assert forall i :: 0 <= i < |keys| ==> keys[i] in Elements(keys);
    forall a | a in loaded ensures exists k :: 0 <= k < |rows| && rows[k].attr == a {
      assert a in Elements(keys);
      var k :| 0 <= k < |keys| && keys[k] == a;
      assert rows[k].attr == a;
    }
  }

  datatype Node = Node(dn: string, attrs: Table)

  /** What the editor shows: whose entry it says it is, the table its rows were built
      from and are compared with, and the rows. */
  datatype Pane = Pane(dn: Option<string>, table: Option<Table>, rows: seq<Row>)

  /** Selecting a node; deselecting forgets the table but leaves the rows behind. */
  function Selected(p: Pane, node: Option<Node>, keys: seq<string>): Pane {
    if node.None? then p.(dn := None, table := None)
    else Pane(Some(node.value.dn), Some(node.value.attrs), RowsOf(node.value.attrs, keys))
  }

  /** A re-read arriving: table and rows are replaced, whatever is selected. */
  function Reread(p: Pane, attrs: Option<Table>, keys: seq<string>): Pane {
    if attrs.None? then p else p.(table := attrs, rows := RowsOf(attrs.value, keys))
  }

  function ReferenceOf(p: Pane): Table {
    if p.table.Some? then p.table.value else map[]
  }

  datatype Request = Request(dn: string, mods: seq<SbvLdapMod>)

  class Editor {
    var connected: bool
    var loadedDn: Option<string>
    var loaded: Option<Table>
    var rows: seq<Row>
    var saveSensitive: bool

    function View(): Pane
      reads this
    {
      Pane(loadedDn, loaded, rows)
    }

    /** The table dirty checks and Save compare with; none after deselection. */
    function Reference(): Table
      reads this
    {
      ReferenceOf(View())
    }

    predicate Valid()
      reads this
    {
      loaded.Some? ==> Shape(loaded.value, rows)
    }

    constructor (connected: bool)
      ensures Valid() && rows == [] && loaded == None && loadedDn == None && !saveSensitive
    {
      this.connected := connected;
      loadedDn, loaded, rows, saveSensitive := None, None, [], false;
    }

    /** `values_equal_set`, loops and all. */
    static method ValuesEqualSet(a: seq<string>, b: seq<string>) returns (same: bool)
      ensures same == SameSet(a, b)
    {
      if |a| != |b| {
        return false;
      }
      for i := 0 to |a|
        invariant forall k :: 0 <= k < i ==> a[k] in b
      {
        var found := false;
        for j := 0 to |b|
          invariant found <==> a[i] in b[..j]
        {
          if a[i] == b[j] {
            found := true;
            break;
          }
        }
        assert b[..|b|] == b;
        if !found {
          return false;
        }
      }
      return true;
    }

    method IsDirty() returns (dirty: bool)
      ensures dirty == Dirty(Reference(), rows)
    {
      for i := 0 to |rows|
        invariant forall k :: 0 <= k < i ==> !RowDirty(Reference(), rows[k])
      {
        var r := rows[i];
        if r.isNew {
          if r.name != "" && r.text != "" {
            return true;
          }
        } else {
          if r.marked {
            return true;
          }
          var cur := SplitValues(r.text);
          var same := ValuesEqualSet(Orig(Reference(), r.attr), cur);
          if !same {
            return true;
          }
        }
      }
      return false;
    }

    method UpdateSaveSensitive()
      modifies this`saveSensitive
      ensures saveSensitive == Dirty(Reference(), rows)
    {
      var dirty := IsDirty();
      saveSensitive := dirty;
    }

    method RebuildRows(keys: seq<string>)
      requires loaded.Some? ==> Lists(keys, loaded.value)
      modifies this`rows
      ensures Valid() && rows == if loaded.None? then [] else RowsOf(loaded.value, keys)
      ensures loaded.Some? ==> Untouched(loaded.value, rows)
    {
      rows := [];
      if loaded.None? {
        return;
      }
      var i := 0;
      while i < |keys|
        invariant 0 <= i <= |keys| && |rows| == i
        invariant forall k :: 0 <= k < i ==> rows[k] == LoadedRow(loaded.value, keys[k])
      {
        rows := rows + [LoadedRow(loaded.value, keys[i])];
        i := i + 1;
      }
      assert rows == RowsOf(loaded.value, keys);
      RowsFromKeys(keys, loaded.value);
    }

    /** A new selection, or none. */
    method LoadNode(node: Option<Node>, keys: seq<string>)
      requires Valid() && (node.Some? ==> Lists(keys, node.value.attrs))
      modifies this
      ensures Valid() && connected == old(connected)
      ensures View() == Selected(old(View()), node, keys)
      ensures node.None? ==> loadedDn == None && loaded == None && rows == old(rows)
      ensures node.Some? ==> loadedDn == Some(node.value.dn) && loaded == Some(node.value.attrs)
      ensures saveSensitive == if node.None? then old(saveSensitive) else Dirty(node.value.attrs, rows)
      ensures node.Some? ==> Untouched(node.value.attrs, rows)
    {
      if node.None? {
        loadedDn, loaded := None, None;
        return;
      }
      loadedDn := Some(node.value.dn);
      loaded := Some(node.value.attrs);
      RebuildRows(keys);
      UpdateSaveSensitive();
    }

    method AddRow()
      requires Valid()
      modifies this`rows, this`saveSensitive
      ensures Valid() && rows == old(rows) + [Row(true, "", "", "", false)]
      ensures saveSensitive == Dirty(Reference(), rows)
    {
      rows := rows + [Row(true, "", "", "", false)];
      UpdateSaveSensitive();
    }

    /** The trash button: drops a new row, toggles a loaded row's pending deletion. */
    method RemoveClicked(i: nat)
      requires Valid() && i < |rows|
      modifies this`rows, this`saveSensitive
      ensures Valid() && saveSensitive == Dirty(Reference(), rows)
      ensures rows == if old(rows)[i].isNew then old(rows)[..i] + old(rows)[i + 1..]
                      else old(rows)[i := old(rows)[i].(marked := !old(rows)[i].marked)]
    {
      if rows[i].isNew {
        rows := rows[..i] + rows[i + 1..];
      } else {
        rows := rows[i := rows[i].(marked := !rows[i].marked)];
      }
      UpdateSaveSensitive();
    }

    /** Typing into a row's value, or into a new row's name. */
    method EditRow(i: nat, name: string, text: string)
      requires Valid() && i < |rows| && (!rows[i].isNew ==> name == rows[i].name)
      modifies this`rows, this`saveSensitive
      ensures Valid() && saveSensitive == Dirty(Reference(), rows)
      ensures rows == old(rows)[i := old(rows)[i].(name := name, text := text)]
    {
      rows := rows[i := rows[i].(name := name, text := text)];
      UpdateSaveSensitive();
    }

    /** A value as a heap vector, as `split_values` returns it. */
    static method Vector(values: seq<string>) returns (v: array<string>)
      ensures fresh(v) && v[..] == values
    {
      v := new string[|values|](i requires 0 <= i < |values| => values[i]);
    }

    /** "Save Changes": compiles the rows into one batch; nothing is sent without a
        connection, a selected entry or anything to change. */
    method SaveClicked() returns (request: Option<Request>)
      modifies this`saveSensitive
      ensures request.Some? <==> connected && loadedDn.Some? && StagedMods(Reference(), rows) != []
      ensures request.Some? ==>
                request.value.dn == loadedDn.value && Views(request.value.mods) == StagedMods(Reference(), rows) &&
                forall m :: m in request.value.mods ==> fresh(m) && fresh(m.values)
      ensures saveSensitive == (old(saveSensitive) && request.None?)
      ensures request.Some? ==> Dirty(Reference(), rows)
    {
      if !connected || loadedDn.None? {
        return None;
      }
      var mods := StageAll();
      DirtyVersusStaged(Reference(), rows);
      if mods == [] {
        assert Views(mods) == [];
        return None;
      }
      assert |Views(mods)| > 0;
      saveSensitive := false;
      var sent := SendModify(mods);
      return Some(Request(loadedDn.value, sent));
    }

    /** The loop of Save over all rows. */
    method StageAll() returns (mods: seq<SbvLdapMod>)
      ensures Views(mods) == StagedMods(Reference(), rows)
      ensures forall m :: m in mods ==> fresh(m) && fresh(m.values)
    {
      mods := [];
      var i := 0;
      while i < |rows|
        invariant 0 <= i <= |rows|
        invariant Views(mods) == StagedMods(Reference(), rows[..i])
        invariant forall m :: m in mods ==> fresh(m) && fresh(m.values)
      {
        var r := rows[i];
        StagedSnoc(Reference(), rows, i);
        i := i + 1;
        if r.isNew && (r.name == "" || r.text == "") { continue; }
        ghost var before := Views(mods);
        var m := StageRow(r);
        assert Views(mods) == before;
        if m.Some? {
          ViewsAppend(mods, m.value);
          mods := mods + [m.value];
        }
      }
      assert rows[..i] == rows;
    }

    /** The modification for one row, in the branches Save goes through. */
    method StageRow(r: Row) returns (m: Option<SbvLdapMod>)
      requires r.isNew ==> r.name != "" && r.text != ""
      ensures RowMods(Reference(), r) == if m.None? then [] else [m.value.View()]
      ensures m.Some? ==> fresh(m.value) && fresh(m.value.values)
    {
      var cur := SplitValues(r.text);
      var vv := Vector(cur);
      var none := new string[0];
      assert none[..] == [];
      m := None;
      if r.isNew {
        if cur != [] {
          var added := new SbvLdapMod(Add, r.name, vv);
          m := Some(added);
        }
      } else if r.marked {
        var deleted := new SbvLdapMod(Delete, r.attr, none);
        m := Some(deleted);
      } else {
        var same := ValuesEqualSet(Orig(Reference(), r.attr), cur);
        if !same && cur != [] {
          var replaced := new SbvLdapMod(Replace, r.attr, vv);
          m := Some(replaced);
        } else if !same {
          var deleted := new SbvLdapMod(Delete, r.attr, none);
          m := Some(deleted);
        }
      }
    }

    /** The modify's completion: Save is offered again, and after a success the entry
        selected by now is read again, whichever was saved. */
    method SaveDone(ok: bool) returns (reread: Option<string>)
      modifies this`saveSensitive
      ensures saveSensitive && reread == if ok then loadedDn else None
    {
      saveSensitive := true;
      reread := if ok then loadedDn else None;
    }

    /** The re-read's completion. */
    method Refreshed(attrs: Option<Table>, keys: seq<string>)
      requires Valid() && (attrs.Some? ==> Lists(keys, attrs.value))
      modifies this`loaded, this`rows, this`saveSensitive
      ensures Valid() && View() == Reread(old(View()), attrs, keys)
      ensures attrs.None? ==> loaded == old(loaded) && rows == old(rows)
      ensures attrs.Some? ==> loaded == attrs
      ensures saveSensitive == if attrs.None? then old(saveSensitive) else Dirty(attrs.value, rows)
      ensures attrs.Some? ==> Untouched(attrs.value, rows)
    {
      if attrs.None? {
        return;
      }
      loaded := attrs;
      RebuildRows(keys);
      UpdateSaveSensitive();
    }
  }

  lemma StagedSnoc(loaded: Table, rows: seq<Row>, i: nat)
    requires i < |rows|
    ensures StagedMods(loaded, rows[..i + 1]) == StagedMods(loaded, rows[..i]) + RowMods(loaded, rows[i])
  {
    assert rows[..i + 1][..i] == rows[..i];
  }

  lemma ViewsAppend(ms: seq<SbvLdapMod>, m: SbvLdapMod)
    ensures Views(ms + [m]) == Views(ms) + [m.View()]
  {
  }

  /** Right after loading or refreshing, Save is insensitive exactly if every loaded
      value survives the text form; a value with a semicolon or outer white space
      makes the untouched editor dirty. */
  lemma CleanAfterLoading(loaded: Table, rows: seq<Row>)
    requires Untouched(loaded, rows)
    ensures !Dirty(loaded, rows) <==> forall a :: a in loaded ==> AllClean(loaded[a], ';')
  {
    forall i | 0 <= i < |rows| ensures !RowDirty(loaded, rows[i]) <==> AllClean(loaded[rows[i].attr], ';') {
      UntouchedRowIsClean(loaded, rows[i].attr);
    }
    forall a | a in loaded && !Dirty(loaded, rows) ensures AllClean(loaded[a], ';') {
      var i :| 0 <= i < |rows| && rows[i].attr == a;
      assert !RowDirty(loaded, rows[i]);
    }
  }

  /** From selection to directory: an accepted save of an edited, clash-free editor
      turns the loaded entry into the described one, through the copied and
      marshalled request. */
  method SaveSelected(ed: Editor, e: Entry, allowed: bool) returns (r: Outcome)
    requires ed.Valid() && ed.connected && ed.loadedDn.Some? && ed.loaded.Some?
    requires LoadedFrom(e, ed.loaded.value)
    modifies ed`saveSensitive
    ensures r.Applied? <==> Acceptable(e, ed.rows) && (allowed || StagedMods(ed.loaded.value, ed.rows) == [])
    ensures r.Applied? ==> r.entry == Describe(e, ed.rows)
  {
    SaveDoesWhatTheRowsSay(e, ed.loaded.value, ed.rows);
    var request := ed.SaveClicked();
    if request.None? {
      return Applied(e);
    }
    r := ModifyThread(e, request.value.mods, true, allowed);
  }
}
