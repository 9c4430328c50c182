/** Distinguished names as text: the parent the code computes, the parent the
    server means, and when they are the same. */
module EntryNames {
  import opened Basics
  import opened TextLists

  /** What `strchr (dn, ',')` leaves behind the comma; nothing without one. */
  function TextParent(dn: string): string {
    var k := IndexOf(dn, ',');
    if k < |dn| then dn[k + 1..] else ""
  }

  /** The DN the code modifies after a rename. */
  function EffectiveDn(cn: string, dn: string): string {
    "CN=" + cn + "," + TextParent(dn)
  }

  /** Where the first RDN ends, section 2.4 of RFC 4514: a backslash escapes the next character. */
  function RdnEnd(dn: string): (k: nat)
    ensures k <= |dn| && (k < |dn| ==> dn[k] == ',')
    decreases |dn|
  {
    if dn == "" || dn[0] == ',' then 0
    else if dn[0] == '\\' && |dn| >= 2 then 2 + RdnEnd(dn[2..])
    else 1 + RdnEnd(dn[1..])
  }

  /** The DN of an entry after its RDN became `CN=cn` under the same parent. */
  function RenamedDn(cn: string, dn: string): string {
    var k := RdnEnd(dn);
    "CN=" + cn + if k < |dn| then "," + dn[k + 1..] else ""
  }

  function TrailingBackslashes(s: string): nat {
    if s != "" && s[|s| - 1] == '\\' then 1 + TrailingBackslashes(s[..|s| - 1]) else 0
  }

  /** The DN has a comma and the first one is not escaped. */
  predicate FirstCommaSplits(dn: string) {
    var k := IndexOf(dn, ',');
    k < |dn| && TrailingBackslashes(dn[..k]) % 2 == 0
  }

  lemma {:induction false} TrailingPrepend(c: char, s: string)
    ensures TrailingBackslashes([c] + s) ==
            if TrailingBackslashes(s) == |s| && c == '\\' then |s| + 1 else TrailingBackslashes(s)
    ensures TrailingBackslashes(s) <= |s|
    decreases |s|
  {
    if s == "" {
      assert [c] + s == [c] && [c][..0] == "";
    } else {
      TrailingPrepend(c, s[..|s| - 1]);
      assert ([c] + s)[..|s|] == [c] + s[..|s| - 1];
    }
  }

  lemma EscapedPairKeepsParity(c: char, s: string)
    ensures TrailingBackslashes(['\\'] + ([c] + s)) % 2 == TrailingBackslashes(s) % 2
  {
    TrailingPrepend(c, s);
    TrailingPrepend('\\', [c] + s);
  }

  /** The RDN ends at the first comma, `k`, exactly if an even number of backslashes precedes it. */
  lemma {:induction false} RdnEndAtFirstComma(dn: string, k: nat)
    requires k < |dn| && dn[k] == ',' && forall i :: 0 <= i < k ==> dn[i] != ','
    ensures RdnEnd(dn) >= k
    ensures RdnEnd(dn) == k <==> TrailingBackslashes(dn[..k]) % 2 == 0
    decreases |dn|
  {
    if k == 0 {
      assert dn[..0] == "";
    } else if dn[0] != '\\' {
      var rest := dn[1..];
      RdnEndAtFirstComma(rest, k - 1);
      assert dn[..k] == [dn[0]] + rest[..k - 1];
      TrailingPrepend(dn[0], rest[..k - 1]);
    } else if k == 1 {
      assert dn[..1] == ['\\'] + "";
      TrailingPrepend('\\', "");
    } else {
      var rest := dn[2..];
      RdnEndAtFirstComma(rest, k - 2);
      var tail := rest[..k - 2];
      assert dn[..k] == ['\\'] + ([dn[1]] + tail);
      EscapedPairKeepsParity(dn[1], tail);
    }
  }

  /** The DN the code goes on with: the new cn before everything behind the first comma, or
      before nothing if there is no comma. */
  lemma EffectiveDnText(cn: string, rdn: string, parent: string)
    requires ',' !in rdn
    ensures EffectiveDn(cn, rdn + ([','] + parent)) == "CN=" + cn + "," + parent
    ensures EffectiveDn(cn, rdn) == "CN=" + cn + ","
  {
    var dn := rdn + ([','] + parent);
    assert dn[|rdn|] == ',' && dn[|rdn| + 1..] == parent;
    FirstCommaAt(dn, |rdn|);
    var base := "CN=" + cn + ",";
    assert base + "" == base;
  }

  lemma {:induction false} FirstCommaAt(s: string, k: nat)
    requires k < |s| && s[k] == ',' && forall i :: 0 <= i < k ==> s[i] != ','
    ensures IndexOf(s, ',') == k
    decreases k
  {
    if k > 0 {
      FirstCommaAt(s[1..], k - 1);
    }
  }

  /** Cutting the text at the first comma yields the DN the rename produced exactly
      if there is a comma and it is not escaped. */
  lemma EffectiveDnIsRenamedDn(cn: string, dn: string)
    ensures EffectiveDn(cn, dn) == RenamedDn(cn, dn) <==> FirstCommaSplits(dn)
  {
    var k := IndexOf(dn, ',');
    var head := "CN=" + cn;
    if k < |dn| {
      assert forall i :: 0 <= i < k ==> dn[i] == dn[..k][i];
      RdnEndAtFirstComma(dn, k);
      var j := RdnEnd(dn);
      assert |EffectiveDn(cn, dn)| == |head| + 1 + (|dn| - k - 1);
      if j < |dn| {
        assert |RenamedDn(cn, dn)| == |head| + 1 + (|dn| - j - 1);
      } else {
        assert |RenamedDn(cn, dn)| == |head|;
      }
    } else {
      assert ',' !in dn by { assert dn[..k] == dn; }
      assert RdnEnd(dn) == |dn|;
      assert |EffectiveDn(cn, dn)| == |head| + 1 && |RenamedDn(cn, dn)| == |head|;
    }
  }
}
