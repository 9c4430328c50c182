/** The SPN editor: a working copy of a computer's service principal names, edited
    in place, with Save enabled exactly while it differs from the loaded set. */
module SpnEditor {
  import opened Basics

  datatype Computer = Computer(spns: seq<string>, pwdLastSet: int)

  /** An account that was created but never joined has no keys; its SPNs are locked. */
  predicate Uninitialized(sel: Option<Computer>) {
    sel.Some? && sel.value.pwdLastSet == 0
  }

  /** The panel: selection, working list, and whether Save is sensitive. */
  datatype State = State(selected: Option<Computer>, working: seq<string>, canSave: bool)

  const Start: State := State(None, [], false)

  predicate NoFoldDup(s: seq<string>) {
    forall i, j :: 0 <= i < j < |s| ==> Fold(s[i]) != Fold(s[j])
  }

  /** `service/host`, both parts present; later slashes are not looked at. */
  predicate WellShaped(typed: string) {
    exists k :: 0 < k < |typed| - 1 && typed[k] == '/' && '/' !in typed[..k]
  }

  predicate Listed(working: seq<string>, typed: string) {
    exists i :: 0 <= i < |working| && Fold(working[i]) == Fold(typed)
  }

  /** Different lengths, or a working name the computer does not have. */
  predicate LooksDirty(sel: Option<Computer>, working: seq<string>) {
    sel.Some? && (|working| != |sel.value.spns| || exists i :: 0 <= i < |working| && working[i] !in sel.value.spns)
  }

  function Refreshed(s: State): State {
    s.(canSave := LooksDirty(s.selected, s.working) && !Uninitialized(s.selected))
  }

  function Without(s: seq<string>, v: string): seq<string> {
    if s == [] then [] else if s[0] == v then s[1..] else [s[0]] + Without(s[1..], v)
  }

  datatype Op = Load(c: Computer) | Add(typed: string) | Remove(value: string)

  function Step(s: State, op: Op): State {
    match op
    case Load(c) => State(Some(c), c.spns, false)
    case Add(typed) =>
      if s.selected.None? || Uninitialized(s.selected) || !WellShaped(typed) || Listed(s.working, typed) then s
      else Refreshed(s.(working := s.working + [typed]))
    case Remove(v) => Refreshed(s.(working := Without(s.working, v)))
  }

  function Run(s: State, ops: seq<Op>): State
    decreases |ops|
  {
    if ops == [] then s else Run(Step(s, ops[0]), ops[1..])
  }

  /** What Save's sensitivity should mean. */
  predicate SaveTellsTheTruth(s: State) {
    s.canSave <==> s.selected.Some? && !Uninitialized(s.selected) && Elements(s.working) != Elements(s.selected.value.spns)
  }

  predicate Good(s: State) {
    && NoFoldDup(s.working) && SaveTellsTheTruth(s)
    && (s.selected.Some? ==> NoFoldDup(s.selected.value.spns))
  }

  lemma FoldDistinctIsDistinct(s: seq<string>)
    requires NoFoldDup(s)
    ensures NoDup(s)
  {
  }

  /** Length plus one-way containment decide set difference on lists without duplicates. */
  lemma DirtyIsSetDifference(c: Computer, working: seq<string>)
    requires NoFoldDup(c.spns) && NoFoldDup(working)
    ensures LooksDirty(Some(c), working) <==> Elements(working) != Elements(c.spns)
  {
    FoldDistinctIsDistinct(working);
    FoldDistinctIsDistinct(c.spns);
    if !LooksDirty(Some(c), working) {
      Pigeonhole(working, c.spns);
    } else {
      SizeOfElements(working);
      SizeOfElements(c.spns);
      if |working| == |c.spns| {
        var i :| 0 <= i < |working| && working[i] !in c.spns;
        assert working[i] in Elements(working);
      }
    }
  }

  lemma HeadIsNew(s: seq<string>)
    requires s != [] && NoFoldDup(s)
    ensures NoFoldDup(s[1..]) && forall x :: x in s[1..] ==> Fold(x) != Fold(s[0])
  {
    forall x | x in s[1..] ensures Fold(x) != Fold(s[0]) {
      var k :| 0 <= k < |s| - 1 && s[1..][k] == x;
      assert s[k + 1] == x;
    }
  }

  lemma {:induction false} WithoutSubset(s: seq<string>, v: string)
    ensures forall x :: x in Without(s, v) ==> x in s
    decreases |s|
  {
    if s != [] && s[0] != v {
      WithoutSubset(s[1..], v);
    }
  }

  lemma {:induction false} WithoutKeeps(s: seq<string>, v: string)
    requires NoFoldDup(s)
    ensures NoFoldDup(Without(s, v)) && Elements(Without(s, v)) == Elements(s) - {v}
    decreases |s|
  {
    if s != [] {
      HeadIsNew(s);
      assert s == [s[0]] + s[1..];
      if s[0] != v {
        WithoutKeeps(s[1..], v);
        WithoutSubset(s[1..], v);
        assert Elements(Without(s, v)) == {s[0]} + Elements(Without(s[1..], v));
        assert Elements(s) == {s[0]} + Elements(s[1..]);
      }
    }
  }

  lemma StepKeepsGood(s: State, op: Op)
    requires Good(s) && (op.Load? ==> NoFoldDup(op.c.spns))
    ensures Good(Step(s, op))
  {
    var s' := Step(s, op);
    if op.Remove? {
      WithoutKeeps(s.working, op.value);
    }
    if s'.selected.Some? {
      DirtyIsSetDifference(s'.selected.value, s'.working);
    }
  }

  /** Over every sequence of loads, adds and removes the working list stays free of
      case-insensitive duplicates, and Save is enabled exactly when the account is
      initialised and the working and loaded sets differ. */
  lemma {:induction false} EditorStaysGood(s: State, ops: seq<Op>)
    requires Good(s) && forall op: Op :: op in ops && op.Load? ==> NoFoldDup(op.c.spns)
    ensures Good(Run(s, ops))
    decreases |ops|
  {
    if ops != [] {
      assert ops[0] in ops;
      StepKeepsGood(s, ops[0]);
      assert forall op :: op in ops[1..] ==> op in ops;
      EditorStaysGood(Step(s, ops[0]), ops[1..]);
    }
  }

  /** A shape is a service, a slash and a host, neither of them empty. */
  lemma ShapeExactly(typed: string)
    ensures WellShaped(typed) <==>
            exists service: string, host: string :: service != "" && host != "" && '/' !in service &&
                                                    typed == service + ("/" + host)
  {
    if WellShaped(typed) {
      var k :| 0 < k < |typed| - 1 && typed[k] == '/' && '/' !in typed[..k];
      assert typed == typed[..k] + ("/" + typed[k + 1..]);
    }
    if service: string, host: string :| service != "" && host != "" && '/' !in service && typed == service + ("/" + host) {
      var k := |service|;
      assert typed[k] == ("/" + host)[0] && typed[..k] == service;
    }
  }

  /** A name of that shape, listed in no spelling, is appended for an initialised computer;
      in every other case Add changes nothing. */
  lemma AddAppends(s: State, typed: string)
    ensures s.selected.Some? && s.selected.value.pwdLastSet != 0 && WellShaped(typed) &&
            (forall i :: 0 <= i < |s.working| ==> Fold(s.working[i]) != Fold(typed)) ==>
              Step(s, Add(typed)).working == s.working + [typed] && Step(s, Add(typed)).selected == s.selected
    ensures s.selected.None? || s.selected.value.pwdLastSet == 0 || !WellShaped(typed) ||
            (exists i :: 0 <= i < |s.working| && Fold(s.working[i]) == Fold(typed)) ==>
              Step(s, Add(typed)) == s
  {
  }

  /** Adding a name and removing it again leaves the list and Save as they were. */
  lemma RemoveUndoesAdd(s: State, typed: string)
    requires Good(s) && s.selected.Some? && !Uninitialized(s.selected) && WellShaped(typed) && !Listed(s.working, typed)
    ensures Step(Step(s, Add(typed)), Remove(typed)) == s
  {
    var added := Step(s, Add(typed));
    StepKeepsGood(s, Add(typed));
    StepKeepsGood(added, Remove(typed));
    AppendedComesLast(s.working, typed);
  }

  lemma {:induction false} AppendedComesLast(s: seq<string>, v: string)
    requires !Listed(s, v)
    ensures Without(s + [v], v) == s
    decreases |s|
  {
    if s == [] {
      assert s + [v] == [v] && [v][1..] == [];
    } else {
      assert (s + [v])[1..] == s[1..] + [v];
      assert forall i :: 0 <= i < |s[1..]| ==> s[1..][i] == s[i + 1];
      AppendedComesLast(s[1..], v);
      assert s[0] != v;
      assert s == [s[0]] + s[1..];
    }
  }

  lemma {:induction false} FirstOccurrence(s: seq<string>, v: string, i: nat)
    requires i <= |s| && (i < |s| ==> s[i] == v) && forall k :: 0 <= k < i ==> s[k] != v
    ensures Without(s, v) == if i < |s| then s[..i] + s[i + 1..] else s
    decreases |s|
  {
    if i > 0 {
      FirstOccurrence(s[1..], v, i - 1);
      assert s == [s[0]] + s[1..];
      if i < |s| {
        assert s[..i] + s[i + 1..] == [s[0]] + (s[1..][..i - 1] + s[1..][i..]);
      }
    }
  }

  // ---- The code ---------------------------------------------------------------------

  datatype AddResult = Ignored | BadShape | AlreadyListed | Added

  class Panel {
    var selected: Option<Computer>
    var working: seq<string>
    var canSave: bool

    function View(): State
      reads this
    {
      State(selected, working, canSave)
    }

    constructor ()
      ensures View() == Start
    {
      selected, working, canSave := None, [], false;
    }

    method LoadComputer(c: Computer)
      modifies this
      ensures View() == Step(old(View()), Load(c))
      ensures selected == Some(c) && working == c.spns && !canSave
    {
      selected := Some(c);
      working := [];
      var i := 0;
      while i < |c.spns|
        invariant 0 <= i <= |c.spns| && working == c.spns[..i] && selected == Some(c)
      {
        working := working + [c.spns[i]];
        i := i + 1;
      }
      canSave := false;
    }

    /** The nested loops behind the Save button. */
    method UpdateDirty()
      modifies this`canSave
      ensures View() == Refreshed(old(View()))
    {
      if selected.None? {
        canSave := false;
        return;
      }
      var current := selected.value.spns;
      var dirty := |current| != |working|;
      if !dirty {
        var i := 0;
        while i < |working| && !dirty
          invariant 0 <= i <= |working|
          invariant dirty <==> exists k :: 0 <= k < i && working[k] !in current
        {
          var found := false;
          var j := 0;
          while j < |current| && !found
            invariant 0 <= j <= |current|
            invariant found <==> working[i] in current[..j]
          {
            if working[i] == current[j] { found := true; }
            j := j + 1;
          }
          assert !found ==> current[..j] == current;
          assert found ==> working[i] in current;
          if !found { dirty := true; }
          i := i + 1;
        }
      }
      canSave := dirty && selected.value.pwdLastSet != 0;
    }

    method RemoveClicked(value: string)
      modifies this`working, this`canSave
      ensures View() == Step(old(View()), Remove(value))
    {
      var i := 0;
      while i < |working| && working[i] != value
        invariant 0 <= i <= |working| && forall k :: 0 <= k < i ==> working[k] != value
      {
        i := i + 1;
      }
      FirstOccurrence(working, value, i);
      if i < |working| {
        working := working[..i] + working[i + 1..];
      }
      UpdateDirty();
    }

    method AddClicked(typed: string) returns (r: AddResult)
      modifies this`working, this`canSave
      ensures View() == Step(old(View()), Add(typed))
      ensures r.Added? <==> working != old(working)
      ensures r.Added? ==> working == old(working) + [typed]
      ensures r.Added? <==> selected.Some? && selected.value.pwdLastSet != 0 && WellShaped(typed) && !Listed(old(working), typed)
      ensures r == AlreadyListed ==> Listed(working, typed)
      ensures r == BadShape ==> typed != "" && !WellShaped(typed)
    {
      if selected.None? || selected.value.pwdLastSet == 0 {
        return Ignored;
      }
      if typed == "" {
        return Ignored;
      }
      var slash := 0;
      while slash < |typed| && typed[slash] != '/'
        invariant 0 <= slash <= |typed| && '/' !in typed[..slash]
      {
        slash := slash + 1;
      }
      assert forall k :: 0 <= k < |typed| && typed[k] == '/' && '/' !in typed[..k] ==> k == slash;
      if slash == |typed| || slash == 0 || slash + 1 == |typed| {
        return BadShape;
      }
      assert WellShaped(typed);
      var i := 0;
      while i < |working|
        invariant 0 <= i <= |working| && forall k :: 0 <= k < i ==> Fold(working[k]) != Fold(typed)
      {
        if Fold(working[i]) == Fold(typed) {
          return AlreadyListed;
        }
        i := i + 1;
      }
      working := working + [typed];
      UpdateDirty();
      return Added;
    }
  }
}
