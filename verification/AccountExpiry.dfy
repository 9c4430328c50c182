/** Account expiry: a FILETIME shown as a calendar date and saved back at midnight. */
module AccountExpiry {
  import opened Basics

  const EPOCH_OFFSET: int := 11644473600
  const TICKS: int := 10000000
  const DAY: int := 86400
  const INT64_MAX: int := 0x7fff_ffff_ffff_ffff

  /** Years 1 to 9999, the only ones GDateTime represents, in seconds since 1970. */
  const FIRST_UNIX: int := -62135596800
  const END_UNIX: int := 253402300800

  /** 1601-01-02, and the first instant of the year 10000, in FILETIME. */
  const SECOND_DAY: int := 864000000000
  const END: int := 2650467744000000000

  /** The first instant of year 1. */
  const FIRST: int := -504911232000000000

  /** Division as C does it. */
  function TruncDiv(a: int, b: int): int
    requires b > 0
  {
    if a >= 0 then a / b else -((-a) / b)
  }

  /** What the date entry holds: a date as its day number, nothing, or other text. */
  datatype DateText = Empty | Date(day: int) | Other

  predicate Never(expires: int) {
    expires == INT64_MAX || expires == 0
  }

  function UnixTime(expires: int): int {
    TruncDiv(expires, TICKS) - EPOCH_OFFSET
  }

  predicate Representable(unix: int) {
    FIRST_UNIX <= unix < END_UNIX
  }

  /** The entry after loading a user; unrepresentable times leave the old text in place. */
  function Show(before: DateText, expires: int): DateText {
    if Never(expires) then Empty
    else if Representable(UnixTime(expires)) then Date(UnixTime(expires) / DAY)
    else before
  }

  function Midnight(day: int): int {
    (day * DAY + EPOCH_OFFSET) * TICKS
  }

  /** The value saved; None is the error for unreadable text. An empty entry saves "never". */
  function Save(never: bool, text: DateText): Option<int> {
    if never then Some(INT64_MAX)
    else match text
         case Empty => Some(INT64_MAX)
         case Other => None
         case Date(day) => Some(Midnight(day))
  }

  /** Opening a user and saving the policy untouched. */
  function ShowThenSave(before: DateText, expires: int): Option<int> {
    Save(Never(expires), Show(before, expires))
  }

  predicate FitsInt64(x: int) {
    -INT64_MAX - 1 <= x <= INT64_MAX
  }

  lemma DayOfTime(expires: int)
    requires 0 <= expires < END
    ensures UnixTime(expires) / DAY == expires / SECOND_DAY - 134774
    ensures Midnight(expires / SECOND_DAY - 134774) == expires / SECOND_DAY * SECOND_DAY
  {
    var secs := expires / TICKS;
    assert secs / DAY == expires / SECOND_DAY;
    assert UnixTime(expires) == secs - 134774 * DAY;
  }

  /** From 1601-01-02 to the end of 9999 an untouched save stores the midnight at or
      before the expiry, less than a day earlier; doing it again changes nothing; no
      step leaves the int64 range and the result is never one of the "never" values. */
  lemma UntouchedSaveKeepsTheDay(before: DateText, expires: int)
    requires SECOND_DAY <= expires < END
    ensures var saved := ShowThenSave(before, expires);
            && saved.Some? && saved.value % SECOND_DAY == 0
            && saved.value <= expires < saved.value + SECOND_DAY
            && !Never(saved.value)
            && (forall again :: ShowThenSave(again, saved.value) == saved)
            && FitsInt64(UnixTime(expires)) && FitsInt64(UnixTime(expires) / DAY * DAY + EPOCH_OFFSET) && FitsInt64(saved.value)
  {
    DayOfTime(expires);
    var saved := expires / SECOND_DAY * SECOND_DAY;
    assert Representable(UnixTime(expires));
    DayOfTime(saved);
    assert saved / SECOND_DAY == expires / SECOND_DAY;
    assert Representable(UnixTime(saved));
  }

  /** Outside that span an untouched save goes wrong in exactly these ways. An expiry
      less than a second before, or on, the first day of 1601 becomes 0, "never". One
      whose year GDateTime cannot represent is replaced by whatever date the previously
      shown user left in the entry. Earlier than 1601 the C division rounds up, so the
      midnight saved may lie up to a second after the expiry. */
  lemma UntouchedSaveElsewhere(before: DateText, expires: int)
    requires FitsInt64(expires)
    ensures Never(expires) ==> ShowThenSave(before, expires) == Some(INT64_MAX)
    ensures !Never(expires) && Representable(UnixTime(expires)) ==>
              var saved := ShowThenSave(before, expires);
              && saved.Some? && saved.value % SECOND_DAY == 0
              && saved.value < expires + (if expires < 0 then TICKS else 1) && expires < saved.value + SECOND_DAY
              && (saved == Some(0) <==> -TICKS < expires < SECOND_DAY)
    ensures !Never(expires) && !Representable(UnixTime(expires)) ==> ShowThenSave(before, expires) == Save(false, before)
    ensures Representable(UnixTime(expires)) <==> FIRST - TICKS < expires < END
  {
    var secs := TruncDiv(expires, TICKS);
    SecondsOf(expires);
    assert UnixTime(expires) / DAY == secs / DAY - 134774;
    assert Midnight(UnixTime(expires) / DAY) == secs / DAY * DAY * TICKS;
  }

  lemma SecondsOf(expires: int)
    ensures var secs := TruncDiv(expires, TICKS);
            if expires >= 0 then secs * TICKS <= expires < (secs + 1) * TICKS
            else (secs - 1) * TICKS < expires <= secs * TICKS
  {
  }

  /** The other direction: a date typed and saved is the date shown next time, from
      1601-01-02 to the end of 9999; "never" and an empty date show as empty, and other text
      is refused. */
  lemma SavedDateIsShown(before: DateText, day: int)
    requires -134774 < day && (day + 134774) * SECOND_DAY < END
    ensures var saved := Save(false, Date(day));
            saved.Some? && !Never(saved.value) && Show(before, saved.value) == Date(day)
    ensures forall text :: Save(true, text).Some? && Show(before, Save(true, text).value) == Empty
    ensures Save(false, Empty).Some? && Show(before, Save(false, Empty).value) == Empty
    ensures Save(false, Other) == None
  {
    var saved := Midnight(day);
    assert saved == (day + 134774) * SECOND_DAY;
    DayOfTime(saved);
    assert saved / SECOND_DAY == day + 134774;
    assert UnixTime(saved) / DAY == day;
    assert Representable(UnixTime(saved));
  }
}
