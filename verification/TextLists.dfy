/** Multi-valued attributes as text: the "a; b" field of the raw editor and the
    one-per-line box for proxy addresses, each a printer and parser pair. */
module TextLists {
  import opened Basics

  predicate AllSpace(s: string) {
    forall i :: 0 <= i < |s| ==> IsSpace(s[i])
  }

  /** No white space at either end, as `g_strstrip` leaves a string. */
  predicate Trimmed(s: string) {
    s == [] || (!IsSpace(s[0]) && !IsSpace(s[|s| - 1]))
  }

  function TrimLeft(s: string): string {
    if s != [] && IsSpace(s[0]) then TrimLeft(s[1..]) else s
  }

  function TrimRight(s: string): string {
    if s != [] && IsSpace(s[|s| - 1]) then TrimRight(s[..|s| - 1]) else s
  }

  /** `g_strstrip` */
  function Trim(s: string): string {
    TrimRight(TrimLeft(s))
  }

  /** `g_strsplit` on a one-character delimiter. */
  function Tokens(s: string, sep: char): (r: seq<string>)
    ensures |r| > 0
  {
    if s == [] then [""]
    else
      var rest := Tokens(s[1..], sep);
      if s[0] == sep then [""] + rest else [[s[0]] + rest[0]] + rest[1..]
  }

  function NonEmptyTrimmed(ts: seq<string>): seq<string> {
    if ts == [] then []
    else (if Trim(ts[0]) == [] then [] else [Trim(ts[0])]) + NonEmptyTrimmed(ts[1..])
  }

  /** The values a text stands for. */
  function Split(s: string, sep: char): seq<string> {
    NonEmptyTrimmed(Tokens(s, sep))
  }

  /** `g_strjoinv` */
  function Join(glue: string, v: seq<string>): string {
    if v == [] then "" else if |v| == 1 then v[0] else v[0] + glue + Join(glue, v[1..])
  }

  /** A value the text form can carry. */
  predicate Clean(x: string, sep: char) {
    x != [] && Trimmed(x) && sep !in x
  }

  ghost predicate AllClean(v: seq<string>, sep: char) {
    forall i :: 0 <= i < |v| ==> Clean(v[i], sep)
  }

  lemma {:induction false} JoinAppend(glue: string, v: seq<string>, x: string)
    ensures Join(glue, v + [x]) == Join(glue, v) + (if v == [] then "" else glue) + x
    decreases |v|
  {
    if v == [] {
      assert v + [x] == [x];
    } else {
      assert (v + [x])[1..] == v[1..] + [x];
      JoinAppend(glue, v[1..], x);
    }
  }

  // ---- Trimming --------------------------------------------------------------

  lemma {:induction false} TrimLeftParts(s: string) returns (lead: string)
    ensures s == lead + TrimLeft(s) && AllSpace(lead)
    ensures TrimLeft(s) == [] || !IsSpace(TrimLeft(s)[0])
    decreases |s|
  {
    lead := [];
    if s != [] && IsSpace(s[0]) {
      var rest := TrimLeftParts(s[1..]);
      lead := [s[0]] + rest;
      assert s == [s[0]] + s[1..];
    }
  }

  lemma {:induction false} TrimRightParts(s: string) returns (tail: string)
    ensures s == TrimRight(s) + tail && AllSpace(tail)
    ensures TrimRight(s) == [] || !IsSpace(TrimRight(s)[|TrimRight(s)| - 1])
    decreases |s|
  {
    tail := [];
    if s != [] && IsSpace(s[|s| - 1]) {
      var rest := TrimRightParts(s[..|s| - 1]);
      tail := rest + [s[|s| - 1]];
      assert s == s[..|s| - 1] + [s[|s| - 1]];
    }
  }

  /** `g_strstrip` drops white space from the ends only, and all of it. */
  lemma TrimParts(s: string) returns (lead: string, tail: string)
    ensures s == lead + Trim(s) + tail && AllSpace(lead) && AllSpace(tail) && Trimmed(Trim(s))
  {
    lead := TrimLeftParts(s);
    tail := TrimRightParts(TrimLeft(s));
    var m := TrimLeft(s);
    if Trim(s) != [] {
      assert m[0] == Trim(s)[0];
    }
    assert s == lead + (Trim(s) + tail);
  }

  lemma {:induction false} TrimLeftPadded(pad: string, x: string)
    requires AllSpace(pad) && (x == [] || !IsSpace(x[0]))
    ensures TrimLeft(pad + x) == x
    decreases |pad|
  {
    if pad != [] {
      assert (pad + x)[1..] == pad[1..] + x;
      TrimLeftPadded(pad[1..], x);
    } else {
      assert pad + x == x;
    }
  }

  lemma TrimPadded(pad: string, x: string)
    requires AllSpace(pad) && Trimmed(x)
    ensures Trim(pad + x) == x
  {
    TrimLeftPadded(pad, x);
  }

  // ---- Tokens ----------------------------------------------------------------

  lemma {:induction false} TokensFree(s: string, sep: char, k: nat)
    requires k < |Tokens(s, sep)|
    ensures sep !in Tokens(s, sep)[k]
    decreases |s|
  {
    if s != [] {
      var rest := Tokens(s[1..], sep);
      if s[0] == sep {
        if k > 0 { TokensFree(s[1..], sep, k - 1); }
      } else {
        TokensFree(s[1..], sep, k);
      }
    }
  }

  lemma {:induction false} TokensOfFree(s: string, sep: char)
    requires sep !in s
    ensures Tokens(s, sep) == [s]
    decreases |s|
  {
    if s != [] {
      TokensOfFree(s[1..], sep);
      assert s == [s[0]] + s[1..];
    }
  }

  /** A delimiter cuts the text in two, whatever follows. */
  lemma {:induction false} TokensAppend(a: string, sep: char, b: string)
    requires sep !in a
    ensures Tokens(a + [sep] + b, sep) == [a] + Tokens(b, sep)
    decreases |a|
  {
    var s := a + [sep] + b;
    if a == [] {
      assert s[1..] == b;
    } else {
      assert s[1..] == a[1..] + [sep] + b;
      TokensAppend(a[1..], sep, b);
      assert a == [a[0]] + a[1..];
      assert Tokens(s[1..], sep)[1..] == Tokens(b, sep);
    }
  }

  // ---- Round trips -------------------------------------------------------------

  lemma KeptOne(t: string)
    ensures NonEmptyTrimmed([t]) == if Trim(t) == [] then [] else [Trim(t)]
  {
    assert [t][1..] == [];
    assert NonEmptyTrimmed([t][1..]) == [];
  }

  /** Everything the parser yields is clean. */
  lemma {:induction false} KeptAreClean(ts: seq<string>, sep: char)
    requires forall i :: 0 <= i < |ts| ==> sep !in ts[i]
    ensures AllClean(NonEmptyTrimmed(ts), sep)
    decreases |ts|
  {
    if ts != [] {
      KeptAreClean(ts[1..], sep);
      var lead, tail := TrimParts(ts[0]);
      assert forall c :: c in Trim(ts[0]) ==> c in ts[0];
    }
  }

  lemma SplitIsClean(s: string, sep: char)
    ensures AllClean(Split(s, sep), sep)
  {
    forall k | 0 <= k < |Tokens(s, sep)| ensures sep !in Tokens(s, sep)[k] {
      TokensFree(s, sep, k);
    }
    KeptAreClean(Tokens(s, sep), sep);
  }

  /** Parsing inverts printing on clean values, behind any white space. */
  lemma {:induction false} SplitOfJoin(pad: string, v: seq<string>, sep: char)
    requires AllSpace(pad) && sep !in pad && AllClean(v, sep)
    ensures NonEmptyTrimmed(Tokens(pad + Join([sep] + pad, v), sep)) == v
    ensures Split(Join([sep] + pad, v), sep) == v
    decreases |v|
  {
    var glue := [sep] + pad;
    if v == [] {
      assert pad + Join(glue, v) == pad;
      TokensOfFree(pad, sep);
      TrimPadded(pad, "");
      assert pad + "" == pad;
      assert Join(glue, v) == "" && Tokens("", sep) == [""];
      KeptOne("");
    } else {
      assert Clean(v[0], sep);
      if |v| == 1 {
        OneValue(pad, v[0], sep);
        OneValue("", v[0], sep);
        assert "" + v[0] == v[0] && v == [v[0]];
      } else {
        SplitOfJoin(pad, v[1..], sep);
        var rest := pad + Join(glue, v[1..]);
        FirstValue(pad, v[0], sep, rest);
        FirstValue("", v[0], sep, rest);
        assert Join(glue, v) == "" + v[0] + [sep] + rest;
        assert pad + Join(glue, v) == pad + v[0] + [sep] + rest;
        assert v == [v[0]] + v[1..];
      }
    }
  }

  lemma OneValue(pad: string, x: string, sep: char)
    requires AllSpace(pad) && sep !in pad && Clean(x, sep)
    ensures Split(pad + x, sep) == [x]
  {
    TrimPadded(pad, x);
    TokensOfFree(pad + x, sep);
    KeptOne(pad + x);
  }

  lemma FirstValue(pad: string, x: string, sep: char, rest: string)
    requires AllSpace(pad) && sep !in pad && Clean(x, sep)
    ensures Split(pad + x + [sep] + rest, sep) == [x] + Split(rest, sep)
  {
    TrimPadded(pad, x);
    TokensAppend(pad + x, sep, rest);
  }

  /** The semicolon field: text and values agree both ways. */
  lemma SemicolonRoundTrip(s: string, v: seq<string>)
    ensures Split(Join("; ", Split(s, ';')), ';') == Split(s, ';')
    ensures Split(Join("; ", v), ';') == v <==> AllClean(v, ';')
  {
    SplitIsClean(s, ';');
    SplitOfJoin(" ", Split(s, ';'), ';');
    SplitIsClean(Join("; ", v), ';');
    assert [';'] + " " == "; ";
    if AllClean(v, ';') {
      SplitOfJoin(" ", v, ';');
    }
  }

  /** The one-per-line box: the same two laws. */
  lemma LinesRoundTrip(s: string, v: seq<string>)
    ensures Split(Join("\n", Split(s, '\n')), '\n') == Split(s, '\n')
    ensures Split(Join("\n", v), '\n') == v <==> AllClean(v, '\n')
  {
    SplitIsClean(s, '\n');
    SplitOfJoin("", Split(s, '\n'), '\n');
    SplitIsClean(Join("\n", v), '\n');
    assert ['\n'] + "" == "\n";
    if AllClean(v, '\n') {
      SplitOfJoin("", v, '\n');
    }
  }

  /** Nothing but separators and white space. */
  predicate Valueless(s: string, sep: char) {
    forall i :: 0 <= i < |s| ==> s[i] == sep || IsSpace(s[i])
  }

  /** A text yields no value exactly if it holds nothing but separators and white space. */
  lemma {:induction false} NoTokenKept(s: string, sep: char)
    ensures Split(s, sep) == [] <==> Valueless(s, sep)
    decreases |s|
  {
    var k := IndexOf(s, sep);
    var line := s[..k];
    TrimEmpty(line);
    KeptOne(line);
    if k == |s| {
      assert line == s;
      TokensOfFree(s, sep);
    } else {
      var rest := s[k + 1..];
      assert s == line + [sep] + rest;
      TokensAppend(line, sep, rest);
      NoTokenKept(rest, sep);
      assert Split(s, sep) == (if Trim(line) == [] then [] else [Trim(line)]) + Split(rest, sep);
    }
  }

  lemma TrimEmpty(s: string)
    ensures Trim(s) == [] <==> AllSpace(s)
  {
    var lead, tail := TrimParts(s);
    if Trim(s) != [] {
      assert s[|lead|] == Trim(s)[0];
    }
  }

  // ---- The loops ---------------------------------------------------------------

  lemma {:induction false} KeptAppend(ts: seq<string>, t: string)
    ensures NonEmptyTrimmed(ts + [t]) == NonEmptyTrimmed(ts) + NonEmptyTrimmed([t])
    decreases |ts|
  {
    if ts == [] {
      assert ts + [t] == [t];
    } else {
      assert (ts + [t])[1..] == ts[1..] + [t];
      KeptAppend(ts[1..], t);
    }
  }

  /** The editor's field parser; NULL for "no value" is the empty list here. */
  method SplitValues(joined: string) returns (out: seq<string>)
    ensures out == Split(joined, ';')
  {
    if joined == "" {
      assert Tokens(joined, ';') == [""];
      return [];
    }
    var raw := Tokens(joined, ';');
    out := [];
    var i := 0;
    while i < |raw|
      invariant 0 <= i <= |raw|
      invariant out == NonEmptyTrimmed(raw[..i])
    {
      var trimmed := Trim(raw[i]);
      if trimmed != "" {
        out := out + [trimmed];
      }
      KeptAppend(raw[..i], raw[i]);
      assert raw[..i + 1] == raw[..i] + [raw[i]];
      i := i + 1;
    }
    assert raw[..i] == raw;
  }

  function IndexOf(s: string, c: char): (k: nat)
    ensures k <= |s| && c !in s[..k] && (k < |s| ==> s[k] == c)
  {
    if s == [] || s[0] == c then 0
    else
      var k := IndexOf(s[1..], c);
      assert s[..k + 1] == [s[0]] + s[1..][..k];
      k + 1
  }

  /** The line-box parser: walks the text from newline to newline, skipping blank
      lines. A blank body gives the empty list, which the backend takes as "clear". */
  method LinesToValues(text: string) returns (out: seq<string>)
    ensures out == Split(text, '\n')
  {
    out := [];
    var p := 0;
    while p < |text|
      invariant 0 <= p <= |text|
      invariant out + Split(text[p..], '\n') == Split(text, '\n')
    {
      var here := text[p..];
      var len := IndexOf(here, '\n');
      var line := here[..len];
      if len > 0 {
        var stripped := Trim(line);
        if stripped != "" {
          out := out + [stripped];
        }
      }
      if len == |here| {
        assert here == line;
        TokensOfFree(line, '\n');
        KeptOne(line);
        return;
      }
      assert here == line + ['\n'] + text[p + len + 1..];
      TokensAppend(line, '\n', text[p + len + 1..]);
      p := p + len + 1;
    }
  }
}
