/** Choosing a free POSIX id: the configured range and the DC's hint, the range
    scan, the sorted lockstep walk, and the collision check that must agree. */
module IdAllocator {
  import opened Basics

  const INT64_MAX: int := 0x7fff_ffff_ffff_ffff
  newtype int64 = x: int | -0x8000_0000_0000_0000 <= x <= 0x7fff_ffff_ffff_ffff

  // ---- The directory as the two searches see it --------------------------------

  datatype IdKind = Uid | Gid

  datatype Object = Object(dn: Option<string>, sam: Option<string>, classes: set<string>,
                           uidNumber: Option<int64>, gidNumber: Option<int64>)

  function IdOf(kind: IdKind, o: Object): Option<int64> {
    match kind
    case Uid => if "user" in o.classes then o.uidNumber else None
    case Gid => if "group" in o.classes then o.gidNumber else None
  }

  /** The ids in use. */
  ghost function Taken(kind: IdKind, dir: seq<Object>): set<int64> {
    set o | o in dir && IdOf(kind, o).Some? :: IdOf(kind, o).value
  }

  datatype Hit = Hit(dn: string, sam: Option<string>)

  predicate IsHit(kind: IdKind, o: Object, id: int64, exclude: Option<string>) {
    IdOf(kind, o) == Some(id) && o.dn.Some? && o.dn != exclude
  }

  function Hits(kind: IdKind, dir: seq<Object>, id: int64, exclude: Option<string>): seq<Hit> {
    if dir == [] then []
    else
      var o := dir[|dir| - 1];
      Hits(kind, dir[..|dir| - 1], id, exclude) +
      if IsHit(kind, o, id, exclude) then [Hit(o.dn.value, o.sam)] else []
  }

  /** `check_thread`: the search result without the excluded entry, in order. There is a
      hit exactly if some other entry of the class with a DN bears the number. */
  method CheckIds(kind: IdKind, dir: seq<Object>, id: int64, exclude: Option<string>) returns (hits: seq<Hit>)
    ensures hits == Hits(kind, dir, id, exclude)
    ensures kind == Uid ==> (hits != [] <==> exists o :: o in dir && "user" in o.classes && o.uidNumber == Some(id) &&
                                                         o.dn.Some? && o.dn != exclude)
    ensures kind == Gid ==> (hits != [] <==> exists o :: o in dir && "group" in o.classes && o.gidNumber == Some(id) &&
                                                         o.dn.Some? && o.dn != exclude)
  {
    hits := [];
    var i := 0;
    while i < |dir|
      invariant 0 <= i <= |dir| && hits == Hits(kind, dir[..i], id, exclude)
    {
      var entry := dir[i];
      assert dir[..i + 1][..i] == dir[..i];
      i := i + 1;
      if IdOf(kind, entry) != Some(id) || entry.dn.None? { continue; }
      if entry.dn == exclude { continue; }
      hits := hits + [Hit(entry.dn.value, entry.sam)];
    }
    assert dir[..i] == dir;
    HitsMeanTaken(kind, dir, id, exclude);
  }

  lemma {:induction false} HitsMeanTaken(kind: IdKind, dir: seq<Object>, id: int64, exclude: Option<string>)
    ensures Hits(kind, dir, id, exclude) != [] <==> exists o :: o in dir && IsHit(kind, o, id, exclude)
    ensures id !in Taken(kind, dir) ==> Hits(kind, dir, id, exclude) == []
    decreases |dir|
  {
    if dir != [] {
      var n := |dir| - 1;
      HitsMeanTaken(kind, dir[..n], id, exclude);
      assert dir == dir[..n] + [dir[n]];
    }
  }

  /** The numbers in use, by class and attribute. */
  lemma TakenMeans(dir: seq<Object>, id: int64)
    ensures id in Taken(Uid, dir) <==> exists o :: o in dir && "user" in o.classes && o.uidNumber == Some(id)
    ensures id in Taken(Gid, dir) <==> exists o :: o in dir && "group" in o.classes && o.gidNumber == Some(id)
  {
    if o :| o in dir && "user" in o.classes && o.uidNumber == Some(id) {
      assert IdOf(Uid, o) == Some(id);
    }
    if o :| o in dir && "group" in o.classes && o.gidNumber == Some(id) {
      assert IdOf(Gid, o) == Some(id);
    }
  }

  /** Searching directories one after the other finds their hits one after the other. */
  lemma {:induction false} HitsAppend(kind: IdKind, a: seq<Object>, b: seq<Object>, id: int64, exclude: Option<string>)
    ensures Hits(kind, a + b, id, exclude) == Hits(kind, a, id, exclude) + Hits(kind, b, id, exclude)
    decreases |b|
  {
    if b == [] {
      assert a + b == a;
    } else {
      var n := |b| - 1;
      HitsAppend(kind, a, b[..n], id, exclude);
      assert (a + b)[..|a + b| - 1] == a + b[..n];
    }
  }

  /** What the search finds of one entry. */
  lemma OneHit(kind: IdKind, o: Object, id: int64, exclude: Option<string>)
    ensures Hits(kind, [o], id, exclude) ==
            if o.dn.Some? && o.dn != exclude &&
               ((kind == Uid && "user" in o.classes && o.uidNumber == Some(id)) ||
                (kind == Gid && "group" in o.classes && o.gidNumber == Some(id)))
            then [Hit(o.dn.value, o.sam)] else []
  {
    assert [o][..0] == [];
    assert Hits(kind, [], id, exclude) == [];
  }

  function Colliding(kind: IdKind, dir: seq<Object>, id: int64, exclude: Option<string>): set<nat> {
    set i: nat | i < |dir| && IsHit(kind, dir[i], id, exclude)
  }

  /** Every colliding entry is reported once, with its own DN and name, in order: the hit
      of the entry at `i` comes after as many as there are colliding entries before it. */
  lemma {:induction false} EveryCollisionIsReported(kind: IdKind, dir: seq<Object>, id: int64, exclude: Option<string>, i: nat)
    requires i < |dir|
    ensures var hits := Hits(kind, dir, id, exclude);
            var k := |Colliding(kind, dir[..i], id, exclude)|;
            && |hits| == |Colliding(kind, dir, id, exclude)|
            && (IsHit(kind, dir[i], id, exclude) ==> k < |hits| && hits[k] == Hit(dir[i].dn.value, dir[i].sam))
  {
    HitsCount(kind, dir, id, exclude);
    HitsCount(kind, dir[..i], id, exclude);
    assert dir == dir[..i] + ([dir[i]] + dir[i + 1..]);
    HitsAppend(kind, dir[..i], [dir[i]] + dir[i + 1..], id, exclude);
    HitsAppend(kind, [dir[i]], dir[i + 1..], id, exclude);
    OneHit(kind, dir[i], id, exclude);
  }

  lemma {:induction false} HitsCount(kind: IdKind, dir: seq<Object>, id: int64, exclude: Option<string>)
    ensures |Hits(kind, dir, id, exclude)| == |Colliding(kind, dir, id, exclude)|
    decreases |dir|
  {
    if dir != [] {
      var n := |dir| - 1;
      var before := Colliding(kind, dir[..n], id, exclude);
      HitsCount(kind, dir[..n], id, exclude);
      assert Colliding(kind, dir, id, exclude) == before + if IsHit(kind, dir[n], id, exclude) then {n} else {} by {
        assert forall i: nat :: i < n ==> dir[..n][i] == dir[i];
      }
      assert n !in before;
    }
  }

  /** Numbers borne only by entries of the other class, or by entries of neither, block
      nothing and collide with nothing. */
  lemma OthersBlockNothing(kind: IdKind, a: seq<Object>, o: Object, b: seq<Object>, id: int64, exclude: Option<string>)
    requires (if kind == Uid then "user" else "group") !in o.classes
    ensures Taken(kind, a + [o] + b) == Taken(kind, a + b)
    ensures Hits(kind, a + [o] + b, id, exclude) == Hits(kind, a + b, id, exclude)
  {
    TakenAppend(kind, a + [o], b);
    TakenAppend(kind, a, [o]);
    TakenAppend(kind, a, b);
    assert Taken(kind, [o]) == {};
    HitsAppend(kind, a + [o], b, id, exclude);
    HitsAppend(kind, a, [o], id, exclude);
    HitsAppend(kind, a, b, id, exclude);
    OneHit(kind, o, id, exclude);
    assert Hits(kind, a, id, exclude) + [] == Hits(kind, a, id, exclude);
  }

  lemma TakenAppend(kind: IdKind, a: seq<Object>, b: seq<Object>)
    ensures Taken(kind, a + b) == Taken(kind, a) + Taken(kind, b)
  {
  }

  // ---- Sorting and walking --------------------------------------------------------

  function CmpInt64(x: int64, y: int64): (c: int)
    ensures (c < 0 <==> x < y) && (c == 0 <==> x == y)
  {
    if x < y then -1 else if x > y then 1 else 0
  }

  predicate Sorted(s: seq<int64>) {
    forall i, j :: 0 <= i < j < |s| ==> s[i] <= s[j]
  }

  function Insert(x: int64, s: seq<int64>): seq<int64> {
    if s == [] || CmpInt64(x, s[0]) <= 0 then [x] + s else [s[0]] + Insert(x, s[1..])
  }

  /** `g_array_sort` with `cmp_int64`. */
  function SortAscending(s: seq<int64>): seq<int64> {
    if s == [] then [] else Insert(s[0], SortAscending(s[1..]))
  }

  lemma {:induction false} InsertKeepsSorted(x: int64, s: seq<int64>)
    requires Sorted(s)
    ensures Sorted(Insert(x, s)) && |Insert(x, s)| == |s| + 1
    ensures Insert(x, s)[0] == x || (s != [] && Insert(x, s)[0] == s[0])
    ensures multiset(Insert(x, s)) == multiset(s) + multiset{x}
    decreases |s|
  {
    if s != [] && CmpInt64(x, s[0]) > 0 {
      InsertKeepsSorted(x, s[1..]);
      assert s == [s[0]] + s[1..];
    }
  }

  lemma {:induction false} SortSorts(s: seq<int64>)
    ensures Sorted(SortAscending(s)) && multiset(SortAscending(s)) == multiset(s)
    decreases |s|
  {
    if s != [] {
      SortSorts(s[1..]);
      InsertKeepsSorted(s[0], SortAscending(s[1..]));
      assert s == [s[0]] + s[1..];
    }
  }

  lemma SamePermutation(a: seq<int64>, b: seq<int64>)
    requires multiset(a) == multiset(b)
    ensures |a| == |b| && forall y :: y in a <==> y in b
  {
    assert |multiset(a)| == |multiset(b)|;
    assert forall y :: y in a <==> y in multiset(a);
    assert forall y :: y in b <==> y in multiset(b);
  }

  /** How a search for a free id ends. `Exhausted` is the -1 the code returns; `Overflow`
      is counting past the largest int64, which C leaves undefined. */
  datatype Walk = Found(id: int64) | Exhausted | Overflow

  /** What walking a set of ids upwards from `c` amounts to; `c + 1` must stay an int64. */
  ghost function WalkFrom(taken: set<int64>, c: int64, hi: int64): Walk
    decreases hi as int - c as int
  {
    if c > hi then Exhausted
    else if c !in taken then Found(c)
    else if c as int == INT64_MAX then Overflow
    else WalkFrom(taken, c + 1, hi)
  }

  ghost predicate AllTaken(taken: set<int64>, lo: int64, hi: int64) {
    forall x: int64 :: lo <= x <= hi ==> x in taken
  }

  ghost predicate LeastFree(taken: set<int64>, lo: int64, hi: int64, v: int64) {
    lo <= v <= hi && v !in taken && forall x: int64 :: lo <= x < v ==> x in taken
  }

  /** The walk finds the least free id, reports exhaustion exactly if there is none,
      and overflows exactly if the range is not empty, ends at the largest int64 and
      is completely taken. */
  lemma {:induction false} WalkOutcome(taken: set<int64>, lo: int64, hi: int64)
    ensures var w := WalkFrom(taken, lo, hi);
            && (w.Found? ==> LeastFree(taken, lo, hi, w.id))
            && (w.Found? <==> !AllTaken(taken, lo, hi))
            && (w.Overflow? <==> lo <= hi && hi as int == INT64_MAX && AllTaken(taken, lo, hi))
            && (w.Exhausted? <==> AllTaken(taken, lo, hi) && (lo > hi || hi as int < INT64_MAX))
    decreases hi as int - lo as int
  {
    if lo <= hi && lo in taken && (lo as int) < INT64_MAX {
      WalkOutcome(taken, lo + 1, hi);
      assert forall x: int64 :: lo <= x <= hi && x !in taken ==> lo + 1 <= x;
    }
  }

  lemma {:induction false} IntervalSize(lo: int64, n: nat) returns (s: set<int64>)
    requires lo as int + n - 1 <= INT64_MAX
    ensures |s| == n && forall x: int64 :: x in s <==> lo as int <= x as int < lo as int + n
    decreases n
  {
    if n == 0 {
      s := {};
    } else {
      var smaller := IntervalSize(lo, n - 1);
      s := smaller + {(lo as int + n - 1) as int64};
    }
  }

  /** The library sort, in place. */
  method ArraySort(a: array<int64>)
    modifies a
    ensures a[..] == SortAscending(old(a[..]))
    ensures Sorted(a[..]) && Elements(a[..]) == Elements(old(a[..]))
  {
    var sorted := SortAscending(a[..]);
    SortSorts(a[..]);
    SamePermutation(sorted, a[..]);
    forall i | 0 <= i < a.Length {
      a[i] := sorted[i];
    }
    assert a[..] == sorted;
  }

  /** Walks the sorted ids and the range together to the first gap, ending as the plain
      upward search over the set of ids does. Tries at most one candidate more than there
      are distinct taken ids in range. */
  method LockstepWalk(taken: array<int64>, lo: int64, hi: int64) returns (w: Walk, ghost tried: nat)
    requires Sorted(taken[..])
    ensures w == WalkFrom(Elements(taken[..]), lo, hi)
    ensures tried <= |set x | x in Elements(taken[..]) && lo <= x <= hi| + 1
  {
    ghost var ids := Elements(taken[..]);
    var idx := 0;
    var candidate := lo;
    tried := 0;
    while candidate <= hi
      invariant 0 <= idx <= taken.Length
      invariant lo <= candidate && tried == candidate as int - lo as int
      invariant if lo <= hi then candidate as int <= hi as int + 1 else candidate == lo
      invariant forall k :: 0 <= k < idx ==> taken[k] < candidate
      invariant forall x: int64 :: lo <= x < candidate ==> x in ids
      invariant WalkFrom(ids, candidate, hi) == WalkFrom(ids, lo, hi)
      decreases hi as int - candidate as int
    {
      while idx < taken.Length && taken[idx] < candidate
        invariant 0 <= idx <= taken.Length
        invariant forall k :: 0 <= k < idx ==> taken[k] < candidate
      {
        idx := idx + 1;
      }
      if idx >= taken.Length || taken[idx] != candidate {
        NotAmong(taken[..], idx, candidate);
        TriedBound(ids, lo, hi, tried);
        tried := tried + 1;
        return Found(candidate), tried;
      }
      assert taken[..][idx] == candidate;
      idx := idx + 1;
      if candidate as int == INT64_MAX {
        TriedBound(ids, lo, hi, tried);
        return Overflow, tried + 1;
      }
      tried := tried + 1;
      candidate := candidate + 1;
    }
    TriedBound(ids, lo, hi, tried);
    w := Exhausted;
  }

  lemma NotAmong(s: seq<int64>, idx: nat, c: int64)
    requires Sorted(s) && idx <= |s| && (idx < |s| ==> s[idx] > c)
    requires forall k :: 0 <= k < idx ==> s[k] < c
    ensures c !in Elements(s)
  {
    forall k | 0 <= k < |s| ensures s[k] != c {
      if k > idx { assert s[idx] <= s[k]; }
    }
  }

  /** The tail of `next_free_thread`: sort, then walk. */
  method NextFree(taken: array<int64>, lo: int64, hi: int64) returns (w: Walk)
    modifies taken
    ensures taken[..] == SortAscending(old(taken[..]))
    ensures w == WalkFrom(Elements(old(taken[..])), lo, hi)
  {
    ArraySort(taken);
    ghost var tried;
    w, tried := LockstepWalk(taken, lo, hi);
  }

  /** Candidates already passed are distinct taken ids in range. */
  lemma TriedBound(ids: set<int64>, lo: int64, hi: int64, tried: nat)
    requires lo as int + tried - 1 <= hi as int || tried == 0
    requires forall x: int64 :: lo as int <= x as int < lo as int + tried ==> x in ids
    ensures tried <= |set x | x in ids && lo <= x <= hi|
  {
    if tried > 0 {
      var passed := IntervalSize(lo, tried);
      var inRange := set x | x in ids && lo <= x <= hi;
      assert passed <= inRange;
      SubsetSize(passed, inRange);
    }
  }

  // ---- Range and hint ---------------------------------------------------------------

  datatype Ranges = Ranges(uidMin: int64, uidMax: int64, gidMin: int64, gidMax: int64)

  const DEFAULT_MIN: int64 := 10000
  const DEFAULT_MAX: int64 := 29999

  /** What the DC publishes: the SFU30 entry, if readable, and its two numbers. */
  datatype Published = Unreadable | Entry(maxUid: Option<int64>, maxGid: Option<int64>)

  class IdmapHints {
    var uidMin: int64
    var uidMax: int64
    var gidMin: int64
    var gidMax: int64
    var nextUidHint: int64
    var nextGidHint: int64
    var source: string

    /** Never a negative lower bound, so -1 can mean "none". */
    predicate Valid()
      reads this
    {
      uidMin >= 0 && gidMin >= 0 && uidMax >= 0 && gidMax >= 0
    }

    function Low(kind: IdKind): int64
      reads this
    {
      if kind == Uid then uidMin else gidMin
    }

    function High(kind: IdKind): int64
      reads this
    {
      if kind == Uid then uidMax else gidMax
    }

    function NextHint(kind: IdKind): int64
      reads this
    {
      if kind == Uid then nextUidHint else nextGidHint
    }

    /** Each bound the profile leaves unset falls back to its default on its own. */
    constructor FromProfile(p: Ranges)
      ensures Valid() && nextUidHint == -1 && nextGidHint == -1
      ensures uidMin == if p.uidMin >= 0 then p.uidMin else 10000
      ensures uidMax == if p.uidMax >= 0 then p.uidMax else 29999
      ensures gidMin == if p.gidMin >= 0 then p.gidMin else 10000
      ensures gidMax == if p.gidMax >= 0 then p.gidMax else 29999
    {
      nextUidHint, nextGidHint := -1, -1;
      uidMin := if p.uidMin >= 0 then p.uidMin else DEFAULT_MIN;
      uidMax := if p.uidMax >= 0 then p.uidMax else DEFAULT_MAX;
      gidMin := if p.gidMin >= 0 then p.gidMin else DEFAULT_MIN;
      gidMax := if p.gidMax >= 0 then p.gidMax else DEFAULT_MAX;
      source := "profile config / defaults";
    }

    /** The live query fills the hints and never moves a configured bound. */
    method Merge(live: Published)
      modifies this
      ensures uidMin == old(uidMin) && uidMax == old(uidMax) && gidMin == old(gidMin) && gidMax == old(gidMax)
      ensures nextUidHint == if live.Entry? && live.maxUid.Some? then live.maxUid.value else old(nextUidHint)
      ensures nextGidHint == if live.Entry? && live.maxGid.Some? then live.maxGid.value else old(nextGidHint)
      ensures source == if live.Entry? && (nextUidHint >= 0 || nextGidHint >= 0)
                        then "msSFU30 + profile config" else old(source)
    {
      if live.Entry? {
        if live.maxUid.Some? { nextUidHint := live.maxUid.value; }
        if live.maxGid.Some? { nextGidHint := live.maxGid.value; }
        if nextUidHint >= 0 || nextGidHint >= 0 {
          source := "msSFU30 + profile config";
        }
      }
    }
  }

  function EffectiveLow(lo: int64, hi: int64, hint: int64): int64 {
    if hint > lo && hint <= hi then hint else lo
  }

  /** The range scan's search: ids of the right class inside the range. */
  method CollectTaken(kind: IdKind, dir: seq<Object>, lo: int64, hi: int64) returns (taken: array<int64>)
    ensures fresh(taken)
    ensures forall x :: x in taken[..] <==> x in Taken(kind, dir) && lo <= x <= hi
  {
    var found: seq<int64> := [];
    var i := 0;
    while i < |dir|
      invariant 0 <= i <= |dir|
      invariant forall x :: x in found <==> x in Taken(kind, dir[..i]) && lo <= x <= hi
    {
      var id := IdOf(kind, dir[i]);
      assert dir[..i + 1] == dir[..i] + [dir[i]];
      if id.Some? && lo <= id.value <= hi {
        found := found + [id.value];
      }
      i := i + 1;
    }
    assert dir[..i] == dir;
    taken := new int64[|found|](k requires 0 <= k < |found| => found[k]);
    assert taken[..] == found;
  }

  /** The upward search depends only on the ids inside its range. */
  lemma {:induction false} WalkInRange(a: set<int64>, b: set<int64>, lo: int64, hi: int64)
    requires forall x: int64 :: lo <= x <= hi ==> (x in a <==> x in b)
    ensures WalkFrom(a, lo, hi) == WalkFrom(b, lo, hi)
    decreases hi as int - lo as int
  {
    if lo <= hi && lo in a && (lo as int) < INT64_MAX {
      WalkInRange(a, b, lo + 1, hi);
    }
  }

  /** A whole "Suggest" press on one directory snapshot. A suggestion lies in the
      configured range, every id from the effective lower bound up to it is taken, and
      the collision check for it is empty whoever is excluded. None comes back exactly
      if nothing from the effective lower bound up is free. That hides a free id of the
      configured range exactly if the hint lies inside the range, everything from the
      hint up is taken, and something below it is not. */
  method Suggest(kind: IdKind, hints: IdmapHints, dir: seq<Object>) returns (w: Walk)
    requires hints.Valid()
    ensures var lo, hi, hint := hints.Low(kind), hints.High(kind), hints.NextHint(kind);
            var eff, taken := EffectiveLow(lo, hi, hint), Taken(kind, dir);
            && (!w.Found? <==> AllTaken(taken, eff, hi))
            && (w.Overflow? <==> AllTaken(taken, eff, hi) && eff <= hi && hi as int == INT64_MAX)
            && (w.Found? ==> 0 <= lo <= eff && LeastFree(taken, eff, hi, w.id) &&
                             forall exclude :: Hits(kind, dir, w.id, exclude) == [])
            && (w.Found? && kind == Uid ==> !exists o :: o in dir && "user" in o.classes && o.uidNumber == Some(w.id))
            && (w.Found? && kind == Gid ==> !exists o :: o in dir && "group" in o.classes && o.gidNumber == Some(w.id))
            && (!w.Found? && !AllTaken(taken, lo, hi) <==>
                lo < hint <= hi && AllTaken(taken, hint, hi) && exists x: int64 :: lo <= x < hint && x !in taken)
  {
    var lo, hi := hints.Low(kind), hints.High(kind);
    var hint := hints.NextHint(kind);
    HintHides(Taken(kind, dir), lo, hi, hint);
    if hint > lo && hint <= hi { lo := hint; }
    var ids := CollectTaken(kind, dir, lo, hi);
    WalkInRange(Elements(ids[..]), Taken(kind, dir), lo, hi);
    WalkOutcome(Taken(kind, dir), lo, hi);
    w := NextFree(ids, lo, hi);
    if w.Found? {
      TakenMeans(dir, w.id);
      forall exclude ensures Hits(kind, dir, w.id, exclude) == [] {
        HitsMeanTaken(kind, dir, w.id, exclude);
      }
    }
  }

  lemma HintHides(taken: set<int64>, lo: int64, hi: int64, hint: int64)
    ensures AllTaken(taken, EffectiveLow(lo, hi, hint), hi) && !AllTaken(taken, lo, hi) <==>
            lo < hint <= hi && AllTaken(taken, hint, hi) && exists x: int64 :: lo <= x < hint && x !in taken
  {
    if AllTaken(taken, EffectiveLow(lo, hi, hint), hi) && !AllTaken(taken, lo, hi) {
      var x: int64 :| lo <= x <= hi && x !in taken;
      assert lo < hint <= hi && x < hint;
    }
  }

  /** With the default range, a published next id of 29999 and one user who has it, no
      id is suggested although 10000 to 29998 are all free. */
  method HintAtTheTop() returns (w: Walk)
    ensures w == Exhausted
  {
    var hints := new IdmapHints.FromProfile(Ranges(-1, -1, -1, -1));
    hints.Merge(Entry(Some(DEFAULT_MAX), None));
    var user := Object(Some("CN=a"), None, {"user"}, Some(DEFAULT_MAX), None);
    w := Suggest(Uid, hints, [user]);
    assert [user][0] == user;
    assert IdOf(Uid, user) == Some(DEFAULT_MAX);
    assert AllTaken(Taken(Uid, [user]), DEFAULT_MAX, DEFAULT_MAX);
  }

  /** The bounds a profile sets cross, or its only bound lies beyond the opposite default. */
  predicate EmptyRange(min: int64, max: int64) {
    (min >= 0 && max >= 0 && max < min) || (min > DEFAULT_MAX && max < 0) || (min < 0 && 0 <= max < DEFAULT_MIN)
  }

  /** Before anything is published, a profile alone decides: with an empty range there is
      never a suggestion, otherwise the lower bound is suggested as long as it is free. */
  method FirstSuggestion(kind: IdKind, p: Ranges, dir: seq<Object>) returns (w: Walk)
    ensures var (min, max) := if kind == Uid then (p.uidMin, p.uidMax) else (p.gidMin, p.gidMax);
            var lo := if min >= 0 then min else DEFAULT_MIN;
            && (EmptyRange(min, max) ==> w == Exhausted)
            && (!EmptyRange(min, max) && lo !in Taken(kind, dir) ==> w == Found(lo))
  {
    var hints := new IdmapHints.FromProfile(p);
    ghost var lo := EffectiveLow(hints.Low(kind), hints.High(kind), hints.NextHint(kind));
    w := Suggest(kind, hints, dir);
    assert lo <= hints.High(kind) && lo !in Taken(kind, dir) ==> !AllTaken(Taken(kind, dir), lo, hints.High(kind));
  }
}
