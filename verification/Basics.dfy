/** Small vocabulary shared by every model: options, duplicate-free sequences
    and the counting facts about them, and the ASCII helpers of GLib. */
module Basics {
  datatype Option<+T> = None | Some(value: T)

  /** The values occurring in a sequence. */
  function Elements<T>(s: seq<T>): set<T> {
    set x | x in s
  }

  predicate NoDup<T(==)>(s: seq<T>) {
    forall i, j :: 0 <= i < j < |s| ==> s[i] != s[j]
  }

  lemma {:induction false} SizeOfElements<T>(s: seq<T>)
    ensures |Elements(s)| <= |s|
    ensures NoDup(s) <==> |Elements(s)| == |s|
  {
    if s != [] {
      var rest := s[1..];
      SizeOfElements(rest);
      assert s == [s[0]] + rest;
      assert Elements(s) == {s[0]} + Elements(rest);
      if s[0] in rest {
        var k :| 0 <= k < |rest| && rest[k] == s[0];
        assert s[k + 1] == s[0];
        assert Elements(s) == Elements(rest);
      } else if NoDup(rest) {
        assert forall i, j :: 0 <= i < j < |s| ==> s[i] != s[j] by {
          forall i, j | 0 <= i < j < |s| ensures s[i] != s[j] {
            assert s[j] == rest[j - 1];
            if i > 0 { assert s[i] == rest[i - 1]; }
          }
        }
      } else {
        var i, j :| 0 <= i < j < |rest| && rest[i] == rest[j];
        assert s[i + 1] == s[j + 1];
      }
    }
  }

  lemma SubsetSize<T>(a: set<T>, b: set<T>)
    requires a <= b
    ensures |a| <= |b|
    ensures |a| == |b| ==> a == b
  {
    assert b == a + (b - a);
    assert |b| == |a| + |b - a|;
  }

  /** One-way containment between lists of equal length is set equality as soon
      as the contained list has no duplicates, and then the other list has none. */
  lemma Pigeonhole<T>(a: seq<T>, b: seq<T>)
    requires NoDup(a) && |a| == |b|
    requires forall x :: x in a ==> x in b
    ensures Elements(a) == Elements(b) && NoDup(b)
  {
    SizeOfElements(a);
    SizeOfElements(b);
    assert Elements(a) <= Elements(b);
    SubsetSize(Elements(a), Elements(b));
  }

  /** `g_ascii_isspace`: the vertical tab is not a space to GLib. */
  predicate IsSpace(c: char) {
    c == ' ' || c == '\t' || c == '\n' || c == '\r' || c == 12 as char
  }

  /** Space, tab, line feed, carriage return and form feed, and nothing else. */
  lemma SpacesOfGLib()
    ensures forall c :: IsSpace(c) <==> c as int in {32, 9, 10, 13, 12}
  {
    assert ' ' as int == 32 && '\t' as int == 9 && '\n' as int == 10 && '\r' as int == 13;
  }

  function FoldChar(c: char): char {
    if 'A' <= c <= 'Z' then ((c as int) + 32) as char else c
  }

  /** ASCII lower-casing, the relation behind `g_ascii_strcasecmp`. */
  function Fold(s: string): (r: string)
    ensures |r| == |s| && forall i :: 0 <= i < |s| ==> r[i] == FoldChar(s[i])
  {
    seq(|s|, i requires 0 <= i < |s| => FoldChar(s[i]))
  }

  /** One letter in two cases, or one character. */
  predicate SameLetter(c: char, d: char) {
    c == d || ('A' <= c <= 'Z' && d as int == c as int + 32) || ('A' <= d <= 'Z' && c as int == d as int + 32)
  }

  /** Strings are the same without regard to case exactly if they are so letter by letter. */
  lemma FoldedEqually(s: string, t: string)
    ensures Fold(s) == Fold(t) <==> |s| == |t| && forall i :: 0 <= i < |s| ==> SameLetter(s[i], t[i])
  {
    if Fold(s) == Fold(t) {
      forall i | 0 <= i < |s| ensures SameLetter(s[i], t[i]) {
        assert Fold(s)[i] == Fold(t)[i];
        assert FoldChar(s[i]) as int == FoldChar(t[i]) as int;
      }
    }
  }
}
