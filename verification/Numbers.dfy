/** Numbers as text: `%d` printing and `g_ascii_strtoll` parsing in base 10. */
module Numbers {
  import opened Basics
  import opened IdAllocator

  predicate IsDigit(c: char) { '0' <= c <= '9' }

  function Digit(d: nat): char
    requires d < 10
  {
    ('0' as int + d) as char
  }

  function Decimal(n: nat): (s: string)
    ensures s != [] && forall i :: 0 <= i < |s| ==> IsDigit(s[i])
  {
    if n < 10 then [Digit(n)] else Decimal(n / 10) + [Digit(n % 10)]
  }

  /** The number spelt by the leading digits, after `acc`. */
  function LeadingNumber(s: string, acc: nat): nat {
    if s == [] || !IsDigit(s[0]) then acc
    else LeadingNumber(s[1..], 10 * acc + (s[0] as int - '0' as int))
  }

  /** `g_ascii_strtoll` skips the vertical tab, too. */
  function SkipSpace(s: string): string {
    if s != [] && (IsSpace(s[0]) || s[0] == 11 as char) then SkipSpace(s[1..]) else s
  }

  function Clamp(x: int): int64 {
    if x > INT64_MAX then INT64_MAX as int64
    else if x < -INT64_MAX - 1 then (-INT64_MAX - 1) as int64
    else x as int64
  }

  function Strtoll(s: string): int64 {
    var t := SkipSpace(s);
    if t != [] && t[0] == '-' then Clamp(0 - LeadingNumber(t[1..], 0))
    else if t != [] && t[0] == '+' then Clamp(LeadingNumber(t[1..], 0))
    else Clamp(LeadingNumber(t, 0))
  }

  lemma {:induction false} LeadingNumberAppend(s: string, acc: nat, c: char)
    requires (forall i :: 0 <= i < |s| ==> IsDigit(s[i])) && IsDigit(c)
    ensures LeadingNumber(s + [c], acc) == 10 * LeadingNumber(s, acc) + (c as int - '0' as int)
    decreases |s|
  {
    if s == [] {
      assert s + [c] == [c] && [c][1..] == [];
    } else {
      assert (s + [c])[1..] == s[1..] + [c];
      LeadingNumberAppend(s[1..], 10 * acc + (s[0] as int - '0' as int), c);
    }
  }

  lemma {:induction false} LeadingNumberOfDecimal(n: nat)
    ensures LeadingNumber(Decimal(n), 0) == n
  {
    if n < 10 {
      assert [Digit(n)][1..] == [];
    } else {
      LeadingNumberOfDecimal(n / 10);
      LeadingNumberAppend(Decimal(n / 10), 0, Digit(n % 10));
    }
  }

  /** Reading back a printed id. */
  lemma StrtollOfDecimal(n: nat)
    requires n <= INT64_MAX
    ensures Strtoll(Decimal(n)) as int == n
  {
    LeadingNumberOfDecimal(n);
    assert IsDigit(Decimal(n)[0]);
  }

  /** What `g_ascii_strtoll` reads: white space, an optional sign, digits up to whatever
      follows, clamped to the int64 range. */
  lemma StrtollReads(space: string, sign: string, n: nat, rest: string)
    requires forall i :: 0 <= i < |space| ==> IsSpace(space[i])
    requires sign == "" || sign == "+" || sign == "-"
    requires rest == "" || !IsDigit(rest[0])
    ensures var x := if sign == "-" then 0 - n else n;
            Strtoll(space + (sign + (Decimal(n) + rest))) as int ==
            if x > 0x7fff_ffff_ffff_ffff then 0x7fff_ffff_ffff_ffff
            else if x < -0x8000_0000_0000_0000 then -0x8000_0000_0000_0000 else x
  {
    var t := sign + (Decimal(n) + rest);
    SkipPast(space, t);
    DigitsThenRest(n, rest);
    if sign == "" {
      assert t == Decimal(n) + rest;
    } else {
      assert t[1..] == Decimal(n) + rest;
    }
  }

  lemma {:induction false} SkipPast(space: string, t: string)
    requires forall i :: 0 <= i < |space| ==> IsSpace(space[i])
    requires t != "" && !IsSpace(t[0]) && t[0] != 11 as char
    ensures SkipSpace(space + t) == t
    decreases |space|
  {
    if space == "" {
      assert space + t == t;
    } else {
      assert (space + t)[1..] == space[1..] + t;
      SkipPast(space[1..], t);
    }
  }

  lemma {:induction false} StopsAtRest(s: string, acc: nat, rest: string)
    requires (forall i :: 0 <= i < |s| ==> IsDigit(s[i])) && (rest == "" || !IsDigit(rest[0]))
    ensures LeadingNumber(s + rest, acc) == LeadingNumber(s, acc)
    decreases |s|
  {
    if s == "" {
      assert s + rest == rest;
    } else {
      assert (s + rest)[1..] == s[1..] + rest;
      StopsAtRest(s[1..], 10 * acc + (s[0] as int - '0' as int), rest);
    }
  }

  lemma DigitsThenRest(n: nat, rest: string)
    requires rest == "" || !IsDigit(rest[0])
    ensures LeadingNumber(Decimal(n) + rest, 0) == n && IsDigit((Decimal(n) + rest)[0])
  {
    StopsAtRest(Decimal(n), 0, rest);
    LeadingNumberOfDecimal(n);
    assert IsDigit(Decimal(n)[0]);
  }

  /** A minus sign is honoured. */
  lemma StrtollOfNegative(n: nat)
    requires n <= INT64_MAX + 1
    ensures Strtoll("-" + Decimal(n)) as int == 0 - n
  {
    var s := "-" + Decimal(n);
    assert s[1..] == Decimal(n) && s[0] == '-';
    LeadingNumberOfDecimal(n);
  }

  /** Every id can be typed. */
  function Printed(v: int64): (s: string)
    ensures s != ""
  {
    if v >= 0 then Decimal(v as nat) else "-" + Decimal((0 - v as int) as nat)
  }

  lemma StrtollOfPrinted(v: int64)
    ensures Strtoll(Printed(v)) == v
  {
    if v >= 0 { StrtollOfDecimal(v as nat); } else { StrtollOfNegative((0 - v as int) as nat); }
  }
}
