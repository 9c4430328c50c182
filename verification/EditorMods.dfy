/** The raw LDAP editor as a diff compiler: rows, what they say about the entry,
    the modifications Save derives from them, and why the two agree. */
module EditorMods {
  import opened Basics
  import opened TextLists
  import opened LdapModify

  /** One editor row. `name` is the entry field of a new row, `attr` the label of a
      loaded one; `marked` is a loaded row's pending deletion. */
  datatype Row = Row(isNew: bool, attr: string, name: string, text: string, marked: bool)

  /** Attribute names as received, with their values in order. */
  type Table = map<string, seq<string>>

  function Orig(loaded: Table, attr: string): seq<string> {
    if attr in loaded then loaded[attr] else []
  }

  function Current(r: Row): seq<string> {
    Split(r.text, ';')
  }

  /** `values_equal_set`: equal lengths and one-way containment. */
  predicate SameSet(a: seq<string>, b: seq<string>) {
    |a| == |b| && forall x :: x in a ==> x in b
  }

  predicate RowDirty(loaded: Table, r: Row) {
    if r.isNew then r.name != "" && r.text != ""
    else r.marked || !SameSet(Orig(loaded, r.attr), Current(r))
  }

  /** The modification Save stages for one row, if any. */
  function RowMods(loaded: Table, r: Row): seq<Mod> {
    if r.isNew then
      if r.name == "" || r.text == "" || Current(r) == [] then [] else [Mod(Add, r.name, Current(r))]
    else if r.marked then [Mod(Delete, r.attr, [])]
    else if SameSet(Orig(loaded, r.attr), Current(r)) then []
    else if Current(r) != [] then [Mod(Replace, r.attr, Current(r))]
    else [Mod(Delete, r.attr, [])]
  }

  predicate Dirty(loaded: Table, rows: seq<Row>) {
    exists i :: 0 <= i < |rows| && RowDirty(loaded, rows[i])
  }

  function StagedMods(loaded: Table, rows: seq<Row>): seq<Mod> {
    if rows == [] then []
    else StagedMods(loaded, rows[..|rows| - 1]) + RowMods(loaded, rows[|rows| - 1])
  }

  // ---- The one-way comparison ---------------------------------------------------

  /** On a duplicate-free left side the one-way comparison is set equality, and
      it also finds duplicates on the right. */
  lemma SameSetIsSetEquality(a: seq<string>, b: seq<string>)
    requires NoDup(a)
    ensures SameSet(a, b) <==> NoDup(b) && Elements(a) == Elements(b)
  {
    if SameSet(a, b) {
      Pigeonhole(a, b);
    }
    SizeOfElements(a);
    SizeOfElements(b);
    assert forall x :: x in a ==> x in Elements(a);
  }

  /** A value longer than every one of `v`. */
  function Fresh(v: seq<string>): (x: string)
    ensures forall i :: 0 <= i < |v| ==> |v[i]| < |x|
  {
    if v == [] then "x"
    else
      var rest := Fresh(v[1..]);
      assert forall i :: 1 <= i < |v| ==> v[i] == v[1..][i - 1];
      if |v[0]| < |rest| then rest else v[0] + "x"
  }

  /** The comparison never takes different sets for equal ones exactly if the left list
      has no duplicates, and never takes equal sets for different ones, as "duplicate-
      insensitive" would have it, only if the left list is empty. */
  lemma SameSetExactly(a: seq<string>)
    ensures (forall b :: SameSet(a, b) ==> Elements(a) == Elements(b)) <==> NoDup(a)
    ensures (forall b {:trigger SameSet(a, b)} :: Elements(a) == Elements(b) ==> SameSet(a, b)) <==> a == []
  {
    if NoDup(a) {
      forall b | SameSet(a, b) ensures Elements(a) == Elements(b) { SameSetIsSetEquality(a, b); }
    } else {
      var i, j :| 0 <= i < j < |a| && a[i] == a[j];
      var b := a[j := Fresh(a)];
      forall x | x in a ensures x in b {
        var k :| 0 <= k < |a| && a[k] == x;
        assert b[if k == j then i else k] == x;
      }
      assert b[j] in Elements(b) && b[j] !in Elements(a);
      assert SameSet(a, b) && Elements(a) != Elements(b);
    }
    if a != [] {
      assert Elements(a) == Elements(a + [a[0]]) && !SameSet(a, a + [a[0]]);
    } else {
      forall b | Elements(a) == Elements(b) ensures SameSet(a, b) { NoElements(b); }
    }
  }

  /** Repeating the loaded value, as in "x; x", makes a row dirty, and its Save is refused. */
  lemma RepeatedValueIsRefused(e: Entry)
    ensures var r := Row(false, "a", "", "x; x", false);
            var ms := RowMods(map["a" := ["x"]], r);
            Elements(Current(r)) == {"x"} && ms == [Mod(Replace, "a", ["x", "x"])] && ApplyMods(e, ms).Refused?
  {
    TwoXs();
    var twice := ["x", "x"];
    assert twice[0] == twice[1] == "x" && !NoDup(twice);
    ApplyOne(e, Mod(Replace, "a", twice));
  }

  lemma TwoXs()
    ensures Split("x; x", ';') == ["x", "x"] && Elements(["x", "x"]) == {"x"}
  {
    var twice := ["x", "x"];
    assert twice[1..] == ["x"] && Join("; ", ["x"]) == "x";
    assert [';'] + " " == "; " && Join("; ", twice) == "x; x";
    assert AllClean(twice, ';');
    SplitOfJoin(" ", twice, ';');
    assert twice[0] == "x";
  }

  /** Two binary values of one length load as the same text; replacing one of them by
      another value goes unnoticed, the row stays clean and nothing is saved. */
  lemma BinaryEditGoesUnnoticed(text: string)
    requires text == "<binary 4 bytes>; y"
    ensures var loaded: Table := map["a" := ["<binary 4 bytes>", "<binary 4 bytes>"]];
            var r := Row(false, "a", "", text, false);
            Elements(Current(r)) != Elements(loaded["a"]) && !RowDirty(loaded, r) && RowMods(loaded, r) == []
  {
    var b := "<binary 4 bytes>";
    var v := [b, "y"];
    assert Join([';'] + " ", v) == text by {
      assert v[1..] == ["y"] && Join("; ", ["y"]) == "y";
    }
    SplitOfJoin(" ", v, ';');
    assert v[0] == b && v[1] == "y";
    assert "y" in Elements(v) && "y" !in Elements([b, b]);
  }

  // ---- Dirty flag against staged mods --------------------------------------------

  lemma {:induction false} StagedRow(loaded: Table, rows: seq<Row>, i: nat)
    requires i < |rows| && StagedMods(loaded, rows) == []
    ensures RowMods(loaded, rows[i]) == []
    decreases |rows|
  {
    var n := |rows| - 1;
    var before, last := StagedMods(loaded, rows[..n]), RowMods(loaded, rows[n]);
    assert before + last == [];
    assert |before| + |last| == 0;
    if i < n {
      assert rows[..n][i] == rows[i];
      StagedRow(loaded, rows[..n], i);
    }
  }

  lemma {:induction false} StagedSource(loaded: Table, rows: seq<Row>) returns (i: nat)
    requires StagedMods(loaded, rows) != []
    ensures i < |rows| && RowMods(loaded, rows[i]) != []
    decreases |rows|
  {
    i := |rows| - 1;
    if RowMods(loaded, rows[i]) == [] {
      i := StagedSource(loaded, rows[..|rows| - 1]);
    }
  }

  lemma RowDirtyVersusStaged(loaded: Table, r: Row)
    ensures RowMods(loaded, r) != [] <==> RowDirty(loaded, r) && !(r.isNew && Current(r) == [])
  {
  }

  /** A new row with a name and with a text that holds no value. */
  predicate Pointless(r: Row) {
    r.isNew && r.name != "" && r.text != "" && Valueless(r.text, ';')
  }

  /** A clean editor saves nothing, and Save is offered without anything to save
      exactly if all there is are named new rows whose text is only separators and
      white space. */
  lemma DirtyVersusStaged(loaded: Table, rows: seq<Row>)
    ensures StagedMods(loaded, rows) != [] ==> Dirty(loaded, rows)
    ensures Dirty(loaded, rows) && StagedMods(loaded, rows) == [] <==>
            (exists i :: 0 <= i < |rows| && Pointless(rows[i])) &&
            (forall i :: 0 <= i < |rows| && RowDirty(loaded, rows[i]) ==> Pointless(rows[i]))
  {
    forall i | 0 <= i < |rows|
      ensures Pointless(rows[i]) <==> RowDirty(loaded, rows[i]) && rows[i].isNew && Current(rows[i]) == []
    {
      NoTokenKept(rows[i].text, ';');
    }
    if StagedMods(loaded, rows) != [] {
      var i := StagedSource(loaded, rows);
      RowDirtyVersusStaged(loaded, rows[i]);
    } else {
      forall i | 0 <= i < |rows| && RowDirty(loaded, rows[i])
        ensures rows[i].isNew && Current(rows[i]) == []
      {
        StagedRow(loaded, rows, i);
        RowDirtyVersusStaged(loaded, rows[i]);
      }
    }
  }

  /** Adding rows to a clean editor offers Save exactly if some added row has both a name
      and a text. */
  lemma AddedRowsOfferSave(loaded: Table, rows: seq<Row>, added: seq<Row>)
    requires !Dirty(loaded, rows) && forall i :: 0 <= i < |added| ==> added[i].isNew
    ensures Dirty(loaded, rows + added) <==> exists i :: 0 <= i < |added| && added[i].name != "" && added[i].text != ""
  {
    var all := rows + added;
    if Dirty(loaded, all) {
      var i :| 0 <= i < |all| && RowDirty(loaded, all[i]);
      assert i >= |rows| && all[i] == added[i - |rows|];
    }
    if i :| 0 <= i < |added| && added[i].name != "" && added[i].text != "" {
      assert all[|rows| + i] == added[i];
    }
  }

  /** A row of a loaded attribute without repeated values is dirty exactly if it is to be
      deleted, or its text repeats a value, or stands for another set of values. */
  lemma LoadedRowIsDirty(loaded: Table, r: Row)
    requires !r.isNew && r.attr in loaded && NoDup(loaded[r.attr])
    ensures RowDirty(loaded, r) <==>
            r.marked || !NoDup(Split(r.text, ';')) || Elements(Split(r.text, ';')) != Elements(loaded[r.attr])
  {
    SameSetIsSetEquality(loaded[r.attr], Split(r.text, ';'));
  }

  /** An untouched row is clean exactly if the text form can carry every value:
      trimmed, not empty, free of semicolons. Otherwise loading alone marks it. */
  lemma UntouchedRowIsClean(loaded: Table, attr: string)
    requires attr in loaded
    ensures !RowDirty(loaded, Row(false, attr, "", Join("; ", loaded[attr]), false)) <==> AllClean(loaded[attr], ';')
  {
    var v := loaded[attr];
    var back := Split(Join("; ", v), ';');
    SemicolonRoundTrip("", v);
    SplitIsClean(Join("; ", v), ';');
    if SameSet(v, back) {
      forall i | 0 <= i < |v| ensures Clean(v[i], ';') {
        assert v[i] in back;
      }
    }
  }

  /** A single value "a;b" loads dirty: the text stands for two values. */
  lemma SemicolonValueLoadsDirty()
    ensures RowDirty(map["a" := ["a;b"]], Row(false, "a", "", Join("; ", ["a;b"]), false))
  {
    assert "a;b"[1] == ';';
    assert !Clean(["a;b"][0], ';');
    UntouchedRowIsClean(map["a" := ["a;b"]], "a");
  }

  // ---- What the rows say ----------------------------------------------------------

  /** A loaded row gives its attribute the values of its text (none if marked); a
      named new row adds the values of its text. No comparison, no operations. */
  function DescribeRow(e: Entry, r: Row): Entry {
    if !r.isNew then SetValues(e, r.attr, if r.marked then {} else Elements(Current(r)))
    else if r.name == "" then e
    else SetValues(e, r.name, Values(e, r.name) + Elements(Current(r)))
  }

  function Describe(e: Entry, rows: seq<Row>): Entry {
    if rows == [] then e else DescribeRow(Describe(e, rows[..|rows| - 1]), rows[|rows| - 1])
  }

  predicate Touches(r: Row, k: string) {
    if r.isNew then r.name != "" && Fold(r.name) == k else Fold(r.attr) == k
  }

  /** Attributes no row names keep their values. */
  lemma {:induction false} DescribeLeavesOthers(e: Entry, rows: seq<Row>, k: string)
    requires forall i :: 0 <= i < |rows| ==> !Touches(rows[i], k)
    ensures (k in e <==> k in Describe(e, rows)) && (k in e ==> Describe(e, rows)[k] == e[k])
    decreases |rows|
  {
    if rows != [] {
      DescribeLeavesOthers(e, rows[..|rows| - 1], k);
    }
  }

  /** The table comes from the entry, and the loaded rows, one per attribute,
      precede the new ones. */
  predicate Shape(loaded: Table, rows: seq<Row>) {
    forall j :: 0 <= j < |rows| && !rows[j].isNew ==>
      rows[j].attr in loaded &&
      forall i :: 0 <= i < j ==> !rows[i].isNew && rows[i].attr != rows[j].attr
  }

  ghost predicate LoadedFrom(e: Entry, loaded: Table) {
    && WellFormed(e)
    && (forall a :: a in loaded ==> loaded[a] != [] && NoDup(loaded[a]) && Values(e, a) == Elements(loaded[a]))
    && (forall a, b :: a in loaded && b in loaded && Fold(a) == Fold(b) ==> a == b)
  }

  /** What the directory needs of row `i`: distinct values, and for a new row none
      that its attribute already has by then. */
  predicate RowAccepted(e: Entry, rows: seq<Row>, i: nat)
    requires i < |rows|
  {
    var r := rows[i];
    if r.isNew then
      r.name != "" ==> NoDup(Current(r)) && Elements(Current(r)) !! Values(Describe(e, rows[..i]), r.name)
    else
      !r.marked ==> NoDup(Current(r))
  }

  predicate Acceptable(e: Entry, rows: seq<Row>) {
    forall i :: 0 <= i < |rows| ==> RowAccepted(e, rows, i)
  }

  lemma {:induction false} DescribeWellFormed(e: Entry, rows: seq<Row>)
    requires WellFormed(e)
    ensures WellFormed(Describe(e, rows))
    decreases |rows|
  {
    if rows != [] {
      DescribeWellFormed(e, rows[..|rows| - 1]);
    }
  }

  /** When its turn comes, a loaded row still finds the loaded values in place. */
  lemma LoadedRowSeesOriginal(e: Entry, loaded: Table, rows: seq<Row>, i: nat)
    requires Shape(loaded, rows) && LoadedFrom(e, loaded) && i < |rows| && !rows[i].isNew
    ensures Values(Describe(e, rows[..i]), rows[i].attr) == Elements(loaded[rows[i].attr])
  {
    var before := rows[..i];
    forall j | 0 <= j < |before| ensures !Touches(before[j], Fold(rows[i].attr)) {
      assert before[j] == rows[j];
    }
    DescribeLeavesOthers(e, before, Fold(rows[i].attr));
  }

  lemma ApplyOne(e: Entry, m: Mod)
    ensures ApplyMods(e, [m]) == ApplyMod(e, m)
  {
    ApplyAppend(e, [], m);
    assert [] + [m] == [m];
  }

  lemma NoElements(v: seq<string>)
    ensures Elements(v) == {} <==> v == []
  {
    if v != [] { assert v[0] in Elements(v); }
  }

  lemma UnchangedValues(e: Entry, attr: string)
    requires WellFormed(e)
    ensures SetValues(e, attr, Values(e, attr)) == e
  {
  }

  lemma NewRowRefines(now: Entry, loaded: Table, r: Row)
    requires WellFormed(now) && r.isNew && r.name != ""
    ensures var out := ApplyMods(now, RowMods(loaded, r));
            && (out.Applied? <==> NoDup(Current(r)) && Elements(Current(r)) !! Values(now, r.name))
            && (out.Applied? ==> out.entry == DescribeRow(now, r))
  {
    var cur := Current(r);
    NoElements(cur);
    if cur == [] {
      assert Values(now, r.name) + Elements(cur) == Values(now, r.name);
      UnchangedValues(now, r.name);
    } else {
      if r.text == "" { KeptOne(""); }
      ApplyOne(now, Mod(Add, r.name, cur));
    }
  }

  lemma LoadedRowRefines(now: Entry, loaded: Table, r: Row)
    requires WellFormed(now) && !r.isNew && r.attr in loaded && loaded[r.attr] != [] && NoDup(loaded[r.attr])
    requires Values(now, r.attr) == Elements(loaded[r.attr])
    ensures var out := ApplyMods(now, RowMods(loaded, r));
            && (out.Applied? <==> r.marked || NoDup(Current(r)))
            && (out.Applied? ==> out.entry == DescribeRow(now, r))
  {
    var orig, cur := loaded[r.attr], Current(r);
    NoElements(orig);
    NoElements(cur);
    SameSetIsSetEquality(orig, cur);
    ApplyOne(now, Mod(Delete, r.attr, []));
    ApplyOne(now, Mod(Replace, r.attr, cur));
    UnchangedValues(now, r.attr);
  }

  /** One row: its modification succeeds exactly if the row is acceptable, and then
      does what the row says. */
  lemma RowRefines(e: Entry, loaded: Table, rows: seq<Row>, i: nat)
    requires Shape(loaded, rows) && LoadedFrom(e, loaded) && i < |rows|
    ensures var now := Describe(e, rows[..i]);
            var r := ApplyMods(now, RowMods(loaded, rows[i]));
            && (r.Applied? <==> RowAccepted(e, rows, i))
            && (r.Applied? ==> r.entry == DescribeRow(now, rows[i]))
  {
    DescribeWellFormed(e, rows[..i]);
    if !rows[i].isNew {
      LoadedRowSeesOriginal(e, loaded, rows, i);
      LoadedRowRefines(Describe(e, rows[..i]), loaded, rows[i]);
    } else if rows[i].name != "" {
      NewRowRefines(Describe(e, rows[..i]), loaded, rows[i]);
    }
  }

  lemma AcceptedSnoc(e: Entry, rows: seq<Row>)
    requires rows != []
    ensures var n := |rows| - 1;
            Acceptable(e, rows) <==> Acceptable(e, rows[..n]) && RowAccepted(e, rows, n)
  {
    var n := |rows| - 1;
    forall i | 0 <= i < n ensures RowAccepted(e, rows[..n], i) == RowAccepted(e, rows, i) {
      assert rows[..n][..i] == rows[..i];
    }
    assert forall i {:trigger RowAccepted(e, rows, i)} :: 0 <= i < |rows| ==> i < n || i == n;
  }

  lemma StagedLast(e: Entry, loaded: Table, rows: seq<Row>)
    requires rows != []
    ensures var n := |rows| - 1;
            ApplyMods(e, StagedMods(loaded, rows)) ==
            match ApplyMods(e, StagedMods(loaded, rows[..n]))
            case Refused(why) => Refused(why)
            case Applied(e') => ApplyMods(e', RowMods(loaded, rows[n]))
  {
    var n := |rows| - 1;
    var before, ms := StagedMods(loaded, rows[..n]), RowMods(loaded, rows[n]);
    if ms == [] {
      assert before + ms == before;
    } else {
      assert ms == [ms[0]];
      ApplyAppend(e, before, ms[0]);
      match ApplyMods(e, before)
      case Refused(_) =>
      case Applied(e') => ApplyOne(e', ms[0]);
    }
  }

  /** Main result: applied to the loaded entry, the staged list is accepted exactly
      if every row is acceptable, and then yields the entry the rows describe. */
  lemma {:induction false} SaveDoesWhatTheRowsSay(e: Entry, loaded: Table, rows: seq<Row>)
    requires Shape(loaded, rows) && LoadedFrom(e, loaded)
    ensures var r := ApplyMods(e, StagedMods(loaded, rows));
            && (r.Applied? <==> Acceptable(e, rows))
            && (r.Applied? ==> r.entry == Describe(e, rows))
    decreases |rows|
  {
    if rows != [] {
      var n := |rows| - 1;
      SaveDoesWhatTheRowsSay(e, loaded, rows[..n]);
      StagedLast(e, loaded, rows);
      RowRefines(e, loaded, rows, n);
      AcceptedSnoc(e, rows);
    }
  }

  // ---- Attribute by attribute -------------------------------------------------------

  /** The values the rows give to type `k`. */
  function Given(rows: seq<Row>, k: string): set<string> {
    if rows == [] then {}
    else
      var r := rows[|rows| - 1];
      Given(rows[..|rows| - 1], k) + if Touches(r, k) && !(r.marked && !r.isNew) then Elements(Current(r)) else {}
  }

  predicate HasLoadedRow(rows: seq<Row>, k: string) {
    exists i :: 0 <= i < |rows| && !rows[i].isNew && Fold(rows[i].attr) == k
  }

  function At(e: Entry, k: string): set<string> {
    if k in e then e[k] else {}
  }

  lemma {:induction false} GivenByNone(rows: seq<Row>, k: string)
    requires forall i :: 0 <= i < |rows| ==> !Touches(rows[i], k)
    ensures Given(rows, k) == {} && !HasLoadedRow(rows, k)
    decreases |rows|
  {
    if rows != [] {
      GivenByNone(rows[..|rows| - 1], k);
    }
  }

  lemma DescribeRowAt(e: Entry, r: Row, k: string)
    ensures At(DescribeRow(e, r), k) ==
            if !Touches(r, k) then At(e, k)
            else if r.isNew then At(e, k) + Elements(Current(r))
            else if r.marked then {} else Elements(Current(r))
  {
  }

  lemma ShapeOfPrefix(loaded: Table, rows: seq<Row>)
    requires rows != [] && Shape(loaded, rows)
    requires forall a, b :: a in loaded && b in loaded && Fold(a) == Fold(b) ==> a == b
    ensures var n := |rows| - 1;
            && Shape(loaded, rows[..n])
            && (!rows[n].isNew ==> forall i :: 0 <= i < n ==> !Touches(rows[..n][i], Fold(rows[n].attr)))
  {
    var n := |rows| - 1;
    assert forall i :: 0 <= i < n ==> rows[..n][i] == rows[i];
  }

  lemma LoadedRowOfPrefix(rows: seq<Row>, k: string)
    requires rows != []
    ensures var n := |rows| - 1;
            HasLoadedRow(rows, k) <==> HasLoadedRow(rows[..n], k) || (!rows[n].isNew && Fold(rows[n].attr) == k)
  {
    var n := |rows| - 1;
    if HasLoadedRow(rows[..n], k) {
      var i :| 0 <= i < n && !rows[..n][i].isNew && Fold(rows[..n][i].attr) == k;
      assert rows[i] == rows[..n][i];
    }
    if HasLoadedRow(rows, k) {
      var i :| 0 <= i < |rows| && !rows[i].isNew && Fold(rows[i].attr) == k;
      if i < n { assert rows[i] == rows[..n][i]; }
    }
  }

  /** The described entry, attribute by attribute: exactly what the rows give it,
      on top of the old values only if no loaded row stands for it. */
  lemma {:induction false} DescribedAttribute(e: Entry, loaded: Table, rows: seq<Row>, k: string)
    requires Shape(loaded, rows)
    requires forall a, b :: a in loaded && b in loaded && Fold(a) == Fold(b) ==> a == b
    ensures At(Describe(e, rows), k) == (if HasLoadedRow(rows, k) then {} else At(e, k)) + Given(rows, k)
    decreases |rows|
  {
    if rows != [] {
      var n := |rows| - 1;
      ShapeOfPrefix(loaded, rows);
      LoadedRowOfPrefix(rows, k);
      DescribedAttribute(e, loaded, rows[..n], k);
      DescribeRowAt(Describe(e, rows[..n]), rows[n], k);
      var r := rows[n];
      assert Describe(e, rows) == DescribeRow(Describe(e, rows[..n]), r);
      if !Touches(r, k) {
        assert Given(rows, k) == Given(rows[..n], k);
      } else if r.isNew {
        assert Given(rows, k) == Given(rows[..n], k) + Elements(Current(r));
      } else {
        GivenByNone(rows[..n], k);
        assert Given(rows, k) == if r.marked then {} else Elements(Current(r));
      }
    }
  }

  /** Every new row's attribute is free when its turn comes: each earlier row of that
      type is a pending deletion, and the type is either such a row's or new to the entry. */
  predicate NoClash(e: Entry, rows: seq<Row>) {
    && (forall i :: 0 <= i < |rows| ==> NoDup(Current(rows[i])))
    && forall i :: 0 <= i < |rows| && rows[i].isNew && rows[i].name != "" ==>
         (forall j :: 0 <= j < i && Touches(rows[j], Fold(rows[i].name)) ==> rows[j].marked && !rows[j].isNew) &&
         (Fold(rows[i].name) in e ==> HasLoadedRow(rows[..i], Fold(rows[i].name)))
  }

  lemma {:induction false} GivenByMarked(rows: seq<Row>, k: string)
    requires forall j :: 0 <= j < |rows| && Touches(rows[j], k) ==> rows[j].marked && !rows[j].isNew
    ensures Given(rows, k) == {}
    decreases |rows|
  {
    if rows != [] {
      GivenByMarked(rows[..|rows| - 1], k);
    }
  }

  /** With distinct values and no name clashes Save always succeeds; marking an
      attribute for deletion and adding it afresh is no clash. */
  lemma NoClashIsAccepted(e: Entry, loaded: Table, rows: seq<Row>)
    requires Shape(loaded, rows) && LoadedFrom(e, loaded) && NoClash(e, rows)
    ensures ApplyMods(e, StagedMods(loaded, rows)) == Applied(Describe(e, rows))
  {
    forall i | 0 <= i < |rows| ensures RowAccepted(e, rows, i) {
      if rows[i].isNew && rows[i].name != "" {
        var k := Fold(rows[i].name);
        assert forall j :: 0 <= j < i ==> rows[..i][j] == rows[j];
        DescribedAttribute(e, loaded, rows[..i], k);
        GivenByMarked(rows[..i], k);
        assert At(Describe(e, rows[..i]), k) == {};
      }
    }
    SaveDoesWhatTheRowsSay(e, loaded, rows);
  }
}
