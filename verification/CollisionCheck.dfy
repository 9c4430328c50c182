/** The debounced collision check behind an id entry: edits re-arm a timer, the timer
    sends a check, several checks may be in flight, and replies land in any order. */
module CollisionCheck {
  import opened Basics
  import opened IdAllocator
  import opened Numbers
  import opened TextLists

  datatype Label = Hidden | Shown(text: string)

  function KindName(kind: IdKind): string {
    if kind == Uid then "UID" else "GID"
  }

  function HitName(h: Hit): string {
    if h.sam.Some? then h.sam.value else h.dn
  }

  function HitNames(hits: seq<Hit>): seq<string> {
    seq(|hits|, i requires 0 <= i < |hits| => HitName(hits[i]))
  }

  /** Up to two names and a count of the rest. */
  function Render(kind: IdKind, hits: seq<Hit>): (r: Label)
    ensures r == Hidden <==> hits == []
  {
    if hits == [] then Hidden
    else
      var shown := if |hits| < 2 then |hits| else 2;
      Shown(KindName(kind) + " in use by " + Join(", ", HitNames(hits[..shown])) +
            if |hits| > shown then " (+" + Decimal(|hits| - shown) + " more)" else "")
  }

  lemma NamesJoined(a: Hit, b: Hit, rest: seq<Hit>)
    ensures Join(", ", HitNames(([a] + rest)[..1])) == if a.sam.Some? then a.sam.value else a.dn
    ensures Join(", ", HitNames(([a, b] + rest)[..2])) ==
            (if a.sam.Some? then a.sam.value else a.dn) + ", " + (if b.sam.Some? then b.sam.value else b.dn)
  {
    var x, y := HitName(a), HitName(b);
    assert HitNames(([a] + rest)[..1]) == [x] && HitNames(([a, b] + rest)[..2]) == [x, y];
    assert [x, y][1..] == [y];
  }

  /** What the label says for one, two and more collisions: account names, or DNs for
      entries without one, and how many more there are. */
  lemma LabelSays(kind: IdKind, a: Hit, b: Hit, rest: seq<Hit>)
    ensures var x := if a.sam.Some? then a.sam.value else a.dn;
            var y := if b.sam.Some? then b.sam.value else b.dn;
            var what := (if kind == Uid then "UID" else "GID") + " in use by ";
            && Render(kind, [a]) == Shown(what + x + "")
            && Render(kind, [a, b] + rest) ==
               Shown(what + (x + ", " + y) + if rest == [] then "" else " (+" + Decimal(|rest|) + " more)")
  {
    NamesJoined(a, b, []);
    NamesJoined(a, b, rest);
    assert [a] + [] == [a];
  }

  /** The fixed surroundings of a run. */
  datatype Env = Env(kind: IdKind, dir: seq<Object>)

  datatype Check = Check(value: int64, exclude: Option<string>)

  /** `timer` is the remembered source id, 0 for none; `sources` are the timeouts the
      main loop really has. `exclude` is the selected entry's DN. */
  datatype State = State(connected: bool, text: string, exclude: Option<string>,
                         timer: nat, sources: set<nat>, nextSource: nat,
                         inFlight: map<nat, Check>, nextCheck: nat, warning: Label)

  datatype Step =
    | Select(text: string, exclude: Option<string>)
    | Type(text: string)
    | Fire(source: nat)
    | Reply(check: nat, ok: bool)

  function Rearm(s: State): State {
    s.(sources := (if s.timer != 0 then s.sources - {s.timer} else s.sources) + {s.nextSource},
       timer := s.nextSource, nextSource := s.nextSource + 1)
  }

  function Cancel(s: State): State {
    if s.timer != 0 then s.(sources := s.sources - {s.timer}, timer := 0) else s
  }

  /** The entry's number as a completing check reads it. */
  function NowValue(s: State): int64 {
    if s.text == "" then -1 else Strtoll(s.text)
  }

  function FireEffect(s: State, source: nat): State {
    var s' := s.(timer := 0, sources := s.sources - {source});
    if !s.connected then s'
    else if s.text == "" then s'.(warning := Hidden)
    else s'.(inFlight := s.inFlight[s.nextCheck := Check(Strtoll(s.text), s.exclude)], nextCheck := s.nextCheck + 1)
  }

  function ReplyEffect(env: Env, s: State, check: nat, ok: bool): State
    requires check in s.inFlight
  {
    var c := s.inFlight[check];
    var s' := s.(inFlight := s.inFlight - {check});
    if NowValue(s) != c.value then s'
    else s'.(warning := if ok then Render(env.kind, Hits(env.kind, env.dir, c.value, c.exclude)) else Hidden)
  }

  predicate Enabled(s: State, l: Step) {
    match l
    case Select(_, _) => true
    case Type(_) => true
    case Fire(source) => source in s.sources
    case Reply(check, _) => check in s.inFlight
  }

  function Apply(env: Env, s: State, l: Step): State
    requires Enabled(s, l)
  {
    match l
    case Select(text, exclude) => Cancel(Rearm(s.(text := text, exclude := exclude))).(warning := Hidden)
    case Type(text) => Rearm(s.(text := text))
    case Fire(source) => FireEffect(s, source)
    case Reply(check, ok) => ReplyEffect(env, s, check, ok)
  }

  predicate Legal(env: Env, s: State, ls: seq<Step>)
    decreases |ls|
  {
    ls == [] || (Enabled(s, ls[0]) && Legal(env, Apply(env, s, ls[0]), ls[1..]))
  }

  function After(env: Env, s: State, ls: seq<Step>): State
    requires Legal(env, s, ls)
    decreases |ls|
  {
    if ls == [] then s else After(env, Apply(env, s, ls[0]), ls[1..])
  }

  // ---- What every step keeps -------------------------------------------------------

  ghost predicate Tidy(s: State) {
    && s.sources == (if s.timer == 0 then {} else {s.timer})
    && s.timer < s.nextSource
    && (forall c :: c in s.inFlight ==> c < s.nextCheck)
  }

  lemma StepKeepsTidy(env: Env, s: State, l: Step)
    requires Tidy(s) && Enabled(s, l)
    ensures Tidy(Apply(env, s, l))
  {
  }

  /** In every run at most one timeout is armed, and it is the remembered one. */
  lemma {:induction false} OneTimerAtMost(env: Env, s: State, ls: seq<Step>)
    requires Tidy(s) && Legal(env, s, ls)
    ensures Tidy(After(env, s, ls)) && |After(env, s, ls).sources| <= 1
    decreases |ls|
  {
    if ls != [] {
      StepKeepsTidy(env, s, ls[0]);
      OneTimerAtMost(env, Apply(env, s, ls[0]), ls[1..]);
    }
  }

  /** A reply about another number than the entry now holds. */
  predicate Stale(s: State, l: Step) {
    l.Reply? && l.check in s.inFlight && s.inFlight[l.check].value != NowValue(s)
  }

  /** The run without the replies that were stale when they came. */
  function WithoutStale(env: Env, s: State, ls: seq<Step>): seq<Step>
    requires Legal(env, s, ls)
    decreases |ls|
  {
    if ls == [] then []
    else (if Stale(s, ls[0]) then [] else [ls[0]]) + WithoutStale(env, Apply(env, s, ls[0]), ls[1..])
  }

  /** `t` differs from `s` only in checks still waiting. */
  ghost predicate WaitsMore(s: State, t: State) {
    s == t.(inFlight := s.inFlight) && forall c :: c in s.inFlight ==> c in t.inFlight && t.inFlight[c] == s.inFlight[c]
  }

  /** Over any run, selections and edits included, stale replies might as well never
      have come: without them the run is still possible and the panel ends up the same. */
  lemma {:induction false} StaleRepliesAreInvisible(env: Env, s: State, t: State, ls: seq<Step>)
    requires Legal(env, s, ls) && WaitsMore(s, t)
    ensures Legal(env, t, WithoutStale(env, s, ls))
    ensures WaitsMore(After(env, s, ls), After(env, t, WithoutStale(env, s, ls)))
    decreases |ls|
  {
    if ls != [] {
      var s', rest := Apply(env, s, ls[0]), ls[1..];
      if Stale(s, ls[0]) {
        StaleRepliesAreInvisible(env, s', t, rest);
        assert WithoutStale(env, s, ls) == WithoutStale(env, s', rest);
      } else {
        StaleRepliesAreInvisible(env, s', Apply(env, t, ls[0]), rest);
        Then(env, t, ls[0], WithoutStale(env, s', rest));
      }
    }
  }

  /** What may change the label between two edits of one selection: the timeout if the
      entry is empty, and a reply about the number in the entry, be it to a check already
      in flight or to one sent since, which is always about that number. */
  predicate Speaks(s: State, l: Step) {
    || (l.Fire? && s.text == "")
    || (l.Reply? && (l.check >= s.nextCheck ||
                     (l.check in s.inFlight && s.inFlight[l.check].value == NowValue(s))))
  }

  lemma {:induction false} OnlyCurrentAnswersSpeak(env: Env, s: State, ls: seq<Step>)
    requires Tidy(s) && Legal(env, s, ls) && forall l :: l in ls ==> !l.Type? && !l.Select?
    ensures After(env, s, ls).warning != s.warning ==> exists l :: l in ls && Speaks(s, l)
    decreases |ls|
  {
    if ls != [] {
      var s', rest := Apply(env, s, ls[0]), ls[1..];
      assert ls[0] in ls && forall l :: l in rest ==> l in ls;
      StepKeepsTidy(env, s, ls[0]);
      OnlyCurrentAnswersSpeak(env, s', rest);
      if s'.warning == s.warning && After(env, s, ls).warning != s.warning {
        var l :| l in rest && Speaks(s', l);
        assert Speaks(s, l);
      }
    }
  }

  /** Without a connection no check is ever sent, and timeouts change nothing on screen. */
  lemma {:induction false} DisconnectedSendsNothing(env: Env, s: State, ls: seq<Step>)
    requires Legal(env, s, ls) && !s.connected
    ensures !After(env, s, ls).connected && After(env, s, ls).nextCheck == s.nextCheck
    ensures After(env, s, ls).inFlight.Keys <= s.inFlight.Keys
    ensures (forall l :: l in ls ==> l.Type? || l.Fire?) ==> After(env, s, ls).warning == s.warning
    decreases |ls|
  {
    if ls != [] {
      assert ls[0] in ls && forall l :: l in ls[1..] ==> l in ls;
      DisconnectedSendsNothing(env, Apply(env, s, ls[0]), ls[1..]);
    }
  }

  // ---- Convergence ------------------------------------------------------------------

  function Expected(env: Env, s: State): Label {
    if s.text == "" then Hidden
    else Render(env.kind, Hits(env.kind, env.dir, Strtoll(s.text), s.exclude))
  }

  predicate Quiet(s: State) {
    s.sources == {} && s.inFlight == map[]
  }

  /** An edit, timeout or completed search of one selection. */
  predicate Ordinary(l: Step) {
    !l.Select? && (l.Reply? ==> l.ok)
  }

  predicate FailedReply(l: Step) {
    l.Reply? && !l.ok
  }

  function Answer(env: Env, c: Check): Label {
    Render(env.kind, Hits(env.kind, env.dir, c.value, c.exclude))
  }

  /** The check's answer is right for the selection that excludes `exclude`, as it is if
      sent for it. */
  predicate Harmless(env: Env, c: Check, exclude: Option<string>) {
    Answer(env, c) == Answer(env, c.(exclude := exclude))
  }

  /** Every check in flight is harmless, and no other entry bears -1, the number an
      empty entry is taken for. */
  ghost predicate Reliable(env: Env, s: State) {
    && (forall c :: c in s.inFlight ==> Harmless(env, s.inFlight[c], s.exclude))
    && Hits(env.kind, env.dir, -1, s.exclude) == []
  }

  /** The label is right, or hidden by a search that failed. */
  predicate Fine(env: Env, s: State, failed: bool) {
    s.warning == Expected(env, s) || (failed && s.warning == Hidden)
  }

  /** Either the timer or a check for the current number is still to come, or the
      label already says what it should. */
  ghost predicate OnTheWay(env: Env, s: State, failed: bool) {
    || s.timer != 0
    || (s.text != "" && exists c :: c in s.inFlight && s.inFlight[c].value == Strtoll(s.text))
    || Fine(env, s, failed)
  }

  ghost predicate Converging(env: Env, s: State, failed: bool) {
    Tidy(s) && s.connected && Reliable(env, s) && OnTheWay(env, s, failed)
  }

  lemma StepConverges(env: Env, s: State, l: Step, failed: bool)
    requires Converging(env, s, failed) || (l.Type? && Tidy(s) && s.connected && Reliable(env, s))
    requires Enabled(s, l) && !l.Select?
    ensures Converging(env, Apply(env, s, l), failed || FailedReply(l)) && Apply(env, s, l).exclude == s.exclude
  {
    var s' := Apply(env, s, l);
    if l.Fire? && s.text != "" {
      assert s'.inFlight[s.nextCheck].value == Strtoll(s.text);
    }
    if l.Reply? && NowValue(s) != s.inFlight[l.check].value && s.text != "" && s.timer == 0 {
      if c :| c in s.inFlight && s.inFlight[c].value == Strtoll(s.text) {
        assert c in s'.inFlight;
      }
    }
  }

  lemma {:induction false} RunConverges(env: Env, s: State, ls: seq<Step>, failed: bool)
    requires Converging(env, s, failed) && Legal(env, s, ls)
    requires forall l :: l in ls ==> !l.Select?
    ensures Converging(env, After(env, s, ls), failed || exists l :: l in ls && FailedReply(l))
    ensures After(env, s, ls).exclude == s.exclude
    decreases |ls|
  {
    if ls != [] {
      assert ls[0] in ls;
      StepConverges(env, s, ls[0], failed);
      assert forall l :: l in ls[1..] ==> l in ls;
      RunConverges(env, Apply(env, s, ls[0]), ls[1..], failed || FailedReply(ls[0]));
    }
  }

  /** Within one selection, from its first edit on, whatever the interleaving of edits,
      timeouts and replies: once nothing is pending the label is the rendering of the
      collisions of the current text, hidden if the text is empty. Failed searches can
      only hide a warning, never raise a wrong one. */
  lemma QuietLabelIsRight(env: Env, s: State, first: string, ls: seq<Step>)
    requires Tidy(s) && s.connected && Reliable(env, s)
    requires Legal(env, s, [Type(first)] + ls)
    requires forall l :: l in ls ==> !l.Select?
    requires Quiet(After(env, s, [Type(first)] + ls))
    ensures var s' := After(env, s, [Type(first)] + ls);
            s'.warning == Expected(env, s') || (s'.warning == Hidden && exists l :: l in ls && FailedReply(l))
  {
    var all := [Type(first)] + ls;
    assert all[1..] == ls;
    StepConverges(env, s, Type(first), false);
    RunConverges(env, Apply(env, s, Type(first)), ls, false);
  }

  /** Whatever happens from the first edit on, the label is right once nothing is pending. */
  ghost predicate AlwaysEndsRight(env: Env, s: State) {
    forall ls :: EditedUntilQuiet(env, s, ls) ==> After(env, s, ls).warning == Expected(env, After(env, s, ls))
  }

  /** A run of one selection that starts with an edit and leaves nothing pending. */
  ghost predicate EditedUntilQuiet(env: Env, s: State, ls: seq<Step>) {
    ls != [] && ls[0].Type? && Legal(env, s, ls) && (forall l :: l in ls ==> Ordinary(l)) &&
    Quiet(After(env, s, ls))
  }

  /** Replies to everything in flight, with the one to `last` at the end. */
  lemma {:induction false} DrainedEndingWith(env: Env, s: State, last: nat) returns (ls: seq<Step>)
    requires Tidy(s) && s.sources == {} && last in s.inFlight && s.inFlight[last].value == NowValue(s)
    ensures Legal(env, s, ls) && forall l :: l in ls ==> Ordinary(l)
    ensures var s' := After(env, s, ls);
            Quiet(s') && s'.text == s.text && s'.exclude == s.exclude && s'.warning == Answer(env, s.inFlight[last])
    decreases |s.inFlight|
  {
    var others := s.inFlight.Keys - {last};
    if others == {} {
      assert s.inFlight.Keys == {last};
      ls := [Reply(last, true)];
      assert (s.inFlight - {last}) == map[];
    } else {
      var c :| c in others;
      var s' := Apply(env, s, Reply(c, true));
      ReplyBringsCloser(env, s, c, true);
      assert |s'.inFlight| < |s.inFlight|;
      var rest := DrainedEndingWith(env, s', last);
      ls := [Reply(c, true)] + rest;
      assert ls[1..] == rest;
    }
  }

  /** A check whose answer is wrong for the selection can have the last word. */
  lemma HarmfulCheckCanWin(env: Env, s: State, c: nat)
    requires Tidy(s) && s.connected && c in s.inFlight && !Harmless(env, s.inFlight[c], s.exclude)
    ensures !AlwaysEndsRight(env, s)
  {
    var text := Printed(s.inFlight[c].value);
    StrtollOfPrinted(s.inFlight[c].value);
    var s1 := Apply(env, s, Type(text));
    var s2 := Apply(env, s1, Fire(s.nextSource));
    assert s2.inFlight[c] == s.inFlight[c];
    var rest := DrainedEndingWith(env, s2, c);
    var ls := [Type(text)] + ([Fire(s.nextSource)] + rest);
    Then(env, s1, Fire(s.nextSource), rest);
    Then(env, s, Type(text), [Fire(s.nextSource)] + rest);
    assert EditedUntilQuiet(env, s, ls) && After(env, s, ls).warning != Expected(env, After(env, s, ls));
  }

  /** So can a check for -1, typed and then cleared, if some other entry bears -1: the
      empty entry reads as -1 when the reply comes. */
  lemma ClearedEntryCanKeepAWarning(env: Env, s: State)
    requires Tidy(s) && s.connected && Hits(env.kind, env.dir, -1, s.exclude) != []
    ensures !AlwaysEndsRight(env, s)
  {
    var text := Printed(-1);
    StrtollOfPrinted(-1);
    var s1 := Apply(env, s, Type(text));
    var s2 := Apply(env, s1, Fire(s.nextSource));
    var s3 := Apply(env, s2, Type(""));
    var s4 := Apply(env, s3, Fire(s.nextSource + 1));
    assert s4.inFlight[s.nextCheck] == Check(-1, s.exclude);
    var rest := DrainedEndingWith(env, s4, s.nextCheck);
    var tail := [Fire(s.nextSource)] + ([Type("")] + ([Fire(s.nextSource + 1)] + rest));
    Then(env, s3, Fire(s.nextSource + 1), rest);
    Then(env, s2, Type(""), [Fire(s.nextSource + 1)] + rest);
    Then(env, s1, Fire(s.nextSource), [Type("")] + ([Fire(s.nextSource + 1)] + rest));
    Then(env, s, Type(text), tail);
    assert EditedUntilQuiet(env, s, [Type(text)] + tail);
  }

  /** Exactly when the promise holds, whatever is typed: every check in flight when the
      selection's first edit is made must answer as one sent for this selection would,
      and no other entry may bear -1. */
  lemma EndsRightExactly(env: Env, s: State)
    requires Tidy(s) && s.connected
    ensures AlwaysEndsRight(env, s) <==> Reliable(env, s)
  {
    if Reliable(env, s) {
      forall ls: seq<Step> | EditedUntilQuiet(env, s, ls)
        ensures After(env, s, ls).warning == Expected(env, After(env, s, ls))
      {
        assert ls == [Type(ls[0].text)] + ls[1..];
        assert forall l :: l in ls[1..] ==> l in ls;
        QuietLabelIsRight(env, s, ls[0].text, ls[1..]);
      }
    } else if Hits(env.kind, env.dir, -1, s.exclude) != [] {
      ClearedEntryCanKeepAWarning(env, s);
    } else {
      var c :| c in s.inFlight && !Harmless(env, s.inFlight[c], s.exclude);
      HarmfulCheckCanWin(env, s, c);
    }
  }

  /** Selecting an entry runs no check: with none in flight nothing is pending
      afterwards, and the hidden label is right exactly if there is nothing to warn of. */
  lemma SelectionIsNotChecked(env: Env, s: State, text: string, exclude: Option<string>)
    requires Tidy(s) && s.inFlight == map[]
    ensures var s' := Apply(env, s, Select(text, exclude));
            && (forall l: Step :: Enabled(s', l) ==> l.Type? || l.Select?)
            && (s'.warning == Expected(env, s') <==>
                text == "" || !exists o :: o in env.dir && IsHit(env.kind, o, Strtoll(text), exclude))
  {
    var s' := Apply(env, s, Select(text, exclude));
    assert s'.sources == {} && s'.inFlight == map[];
    HitsMeanTaken(env.kind, env.dir, Strtoll(text), exclude);
  }

  function Pending(s: State): nat {
    2 * |s.sources| + |s.inFlight|
  }

  lemma FireBringsCloser(env: Env, s: State, source: nat)
    requires Tidy(s) && source in s.sources
    ensures Pending(Apply(env, s, Fire(source))) < Pending(s)
  {
    var s' := Apply(env, s, Fire(source));
    assert s.sources == {source} && s'.sources == {};
    assert s'.inFlight == s.inFlight || |s'.inFlight| == |s.inFlight| + 1;
  }

  lemma ReplyBringsCloser(env: Env, s: State, check: nat, ok: bool)
    requires check in s.inFlight
    ensures Pending(Apply(env, s, Reply(check, ok))) < Pending(s)
  {
    var rest := s.inFlight - {check};
    assert rest.Keys == s.inFlight.Keys - {check};
    assert |rest.Keys| == |s.inFlight.Keys| - 1;
  }

  /** Left alone, a panel settles: something can always happen until nothing is
      pending, and every timeout or reply brings that closer. */
  lemma PanelSettles(env: Env, s: State)
    requires Tidy(s)
    ensures !Quiet(s) ==> exists l: Step :: !l.Type? && !l.Select? && Enabled(s, l)
    ensures forall l: Step :: !l.Type? && !l.Select? && Enabled(s, l) ==> Pending(Apply(env, s, l)) < Pending(s)
  {
    if s.sources != {} {
      assert Enabled(s, Fire(s.timer));
    } else if s.inFlight != map[] {
      var c :| c in s.inFlight;
      assert Enabled(s, Reply(c, true));
    }
    forall l: Step | !l.Type? && !l.Select? && Enabled(s, l) ensures Pending(Apply(env, s, l)) < Pending(s) {
      match l
      case Fire(source) => FireBringsCloser(env, s, source);
      case Reply(check, ok) => ReplyBringsCloser(env, s, check, ok);
    }
  }

  /** The promise made at the Suggest button: the id it fills in ends up, once its own
      check has run or failed, with no collision shown. */
  lemma SuggestedIdShowsNoCollision(env: Env, s: State, v: int64, ls: seq<Step>)
    requires Tidy(s) && s.connected && Reliable(env, s)
    requires v >= 0 && v !in Taken(env.kind, env.dir)
    requires Legal(env, s, [Type(Decimal(v as nat))] + ls)
    requires forall l :: l in ls ==> !l.Type? && !l.Select?
    requires Quiet(After(env, s, [Type(Decimal(v as nat))] + ls))
    ensures After(env, s, [Type(Decimal(v as nat))] + ls).warning == Hidden
  {
    var first := Decimal(v as nat);
    StrtollOfDecimal(v as nat);
    assert ([Type(first)] + ls)[1..] == ls;
    QuietLabelIsRight(env, s, first, ls);
    TextStays(env, Apply(env, s, Type(first)), ls);
    HitsMeanTaken(env.kind, env.dir, v, After(env, s, [Type(first)] + ls).exclude);
  }

  lemma {:induction false} TextStays(env: Env, s: State, ls: seq<Step>)
    requires Legal(env, s, ls) && forall l :: l in ls ==> !l.Type? && !l.Select?
    ensures After(env, s, ls).text == s.text
    decreases |ls|
  {
    if ls != [] {
      assert ls[0] in ls;
      assert forall l :: l in ls[1..] ==> l in ls;
      TextStays(env, Apply(env, s, ls[0]), ls[1..]);
    }
  }

  // ---- Why the conditions are there ---------------------------------------------------

  const Fresh: State := State(true, "", None, 0, {}, 1, map[], 0, Hidden)

  lemma Then(env: Env, s: State, l: Step, ls: seq<Step>)
    requires Enabled(s, l) && Legal(env, Apply(env, s, l), ls)
    ensures Legal(env, s, [l] + ls) && After(env, s, [l] + ls) == After(env, Apply(env, s, l), ls)
  {
    assert ([l] + ls)[1..] == ls;
  }

  /** With an account whose uidNumber is -1 nothing can be relied on from the start. */
  lemma EmptyEntryCanKeepAWarning(env: Env)
    requires env == Env(Uid, [Object(Some("CN=a"), None, {"user"}, Some(-1), None)])
    ensures !AlwaysEndsRight(env, Fresh)
  {
    OneHit(Uid, env.dir[0], -1, None);
    ClearedEntryCanKeepAWarning(env, Fresh);
  }

  /** A check sent for the previous selection excludes the previous entry. Here 7 is
      typed for entry a and then its owner b is selected: the reply still to come may
      report b as colliding with itself, for good. */
  lemma PreviousSelectionsReplyCanLand(env: Env)
    requires env == Env(Uid, [Object(Some("CN=b"), None, {"user"}, Some(7), None)])
    ensures var ls := [Select("5", Some("CN=a")), Type("7"), Fire(2), Select("7", Some("CN=b"))];
            Legal(env, Fresh, ls) && !AlwaysEndsRight(env, After(env, Fresh, ls))
  {
    assert Strtoll("7") == 7 by {
      assert "7"[1..] == "";
      assert LeadingNumber("7", 0) == 7;
    }
    OneHit(Uid, env.dir[0], 7, Some("CN=a"));
    OneHit(Uid, env.dir[0], 7, Some("CN=b"));
    var s1 := Apply(env, Fresh, Select("5", Some("CN=a")));
    var s2 := Apply(env, s1, Type("7"));
    var s3 := Apply(env, s2, Fire(2));
    assert s3.inFlight[0] == Check(7, Some("CN=a"));
    var s4 := Apply(env, s3, Select("7", Some("CN=b")));
    Then(env, s3, Select("7", Some("CN=b")), []);
    Then(env, s2, Fire(2), [Select("7", Some("CN=b"))]);
    Then(env, s1, Type("7"), [Fire(2), Select("7", Some("CN=b"))]);
    Then(env, Fresh, Select("5", Some("CN=a")), [Type("7"), Fire(2), Select("7", Some("CN=b"))]);
    HarmfulCheckCanWin(env, s4, 0);
  }
}
