/** The panel's handlers over its own mutable fields, each proved to be the matching
    step of the debounce machine. */
module CollisionPanel {
  import opened Basics
  import opened IdAllocator
  import opened Numbers
  import opened TextLists
  import opened CollisionCheck

  class Panel {
    const kind: IdKind
    var connected: bool
    var text: string
    var exclude: Option<string>
    var timer: nat
    var sources: set<nat>
    var nextSource: nat
    var inFlight: map<nat, Check>
    var nextCheck: nat
    var warning: Label

    function View(): State
      reads this
    {
      State(connected, text, exclude, timer, sources, nextSource, inFlight, nextCheck, warning)
    }

    constructor (kind: IdKind)
      ensures View() == Fresh && this.kind == kind
    {
      this.kind := kind;
      connected, text, exclude, timer, sources, nextSource := true, "", None, 0, {}, 1;
      inFlight, nextCheck, warning := map[], 0, Hidden;
    }

    /** "changed" on the id entry: drop a pending timeout, arm a new one. */
    method OnEntryChanged()
      modifies this`timer, this`sources, this`nextSource
      ensures View() == Rearm(old(View()))
    {
      if timer != 0 {
        sources := sources - {timer};
      }
      sources := sources + {nextSource};
      timer := nextSource;
      nextSource := nextSource + 1;
    }

    method TypeText(t: string)
      modifies this
      ensures forall env :: View() == Apply(env, old(View()), Type(t))
    {
      text := t;
      OnEntryChanged();
    }

    /** Loading a selection sets the text, which arms the timeout, and then cancels it:
        no check runs on load, and checks already in flight are left alone. */
    method LoadSelection(t: string, dn: Option<string>)
      modifies this
      ensures forall env :: View() == Apply(env, old(View()), Select(t, dn))
    {
      exclude := dn;
      text := t;
      OnEntryChanged();
      if timer != 0 {
        sources := sources - {timer};
        timer := 0;
      }
      warning := Hidden;
    }

    /** The timeout callback: ask about whatever the entry holds now. */
    method FireCheck(source: nat)
      requires source in sources
      modifies this
      ensures forall env :: View() == Apply(env, old(View()), Fire(source))
    {
      timer := 0;
      sources := sources - {source};
      if !connected {
        return;
      }
      if text == "" {
        warning := Hidden;
        return;
      }
      var id := Strtoll(text);
      inFlight := inFlight[nextCheck := Check(id, exclude)];
      nextCheck := nextCheck + 1;
    }

    /** The label's text, name by name. */
    static method RenderCollisionLabel(kind: IdKind, hits: seq<Hit>) returns (shownText: Label)
      ensures shownText == Render(kind, hits)
    {
      if hits == [] {
        return Hidden;
      }
      var s := KindName(kind) + " in use by ";
      var shown := if |hits| < 2 then |hits| else 2;
      for i := 0 to shown
        invariant s == KindName(kind) + " in use by " + Join(", ", HitNames(hits[..i]))
      {
        if i > 0 {
          s := s + ", ";
        }
        s := s + HitName(hits[i]);
        JoinAppend(", ", HitNames(hits[..i]), HitName(hits[i]));
        assert HitNames(hits[..i + 1]) == HitNames(hits[..i]) + [HitName(hits[i])];
      }
      if |hits| > shown {
        s := s + " (+" + Decimal(|hits| - shown) + " more)";
      }
      shownText := Shown(s);
    }

    /** Completion: render only if the entry still holds the number asked about; a
        failed search clears the warning. */
    method OnCheckDone(check: nat, dir: seq<Object>, ok: bool)
      requires check in inFlight
      modifies this
      ensures View() == Apply(Env(kind, dir), old(View()), Reply(check, ok))
    {
      var ctx := inFlight[check];
      var nowValue := if text != "" then Strtoll(text) else -1;
      if nowValue == ctx.value {
        if ok {
          var hits := CheckIds(kind, dir, ctx.value, ctx.exclude);
          warning := RenderCollisionLabel(kind, hits);
        } else {
          warning := Hidden;
        }
      }
      inFlight := inFlight - {check};
    }
  }
}
