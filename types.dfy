/** The three record kinds of the journal, as the store returns them
    (src/types.ts), and the ISO-8601 instants they carry. */
module Types {
  import opened Strings

  /** A nullable or optional field. */
  datatype Option<+T> = None | Some(value: T)

  // ---------------------------------------------------------------- calendar

  predicate IsLeapYear(y: nat) {
    y % 4 == 0 && (y % 100 != 0 || y % 400 == 0)
  }

  function DaysInMonth(y: nat, m: nat): nat
    requires 1 <= m <= 12
  {
    if m == 2 then (if IsLeapYear(y) then 29 else 28)
    else if m == 4 || m == 6 || m == 9 || m == 11 then 30
    else 31
  }

  // ---------------------------------------------------------------- instants

  /** The two-digit number written at positions i and i + 1. */
  function Num2(t: string, i: nat): nat
    requires i + 1 < |t| && IsDigit(t[i]) && IsDigit(t[i + 1])
  {
    10 * DigitValue(t[i]) + DigitValue(t[i + 1])
  }

  /** The text `Date.prototype.toISOString` produces for an instant between
      the years 0000 and 9999: `YYYY-MM-DDTHH:MM:SS.sssZ`, a real calendar
      day, a time of day below 24:00. */
  predicate IsIsoInstant(t: string) {
    && |t| == 24
    && t[4] == '-' && t[7] == '-' && t[10] == 'T' && t[13] == ':'
    && t[16] == ':' && t[19] == '.' && t[23] == 'Z'
    && (forall i :: 0 <= i < 23 && i != 4 && i != 7 && i != 10 && i != 13 && i != 16 && i != 19 ==> IsDigit(t[i]))
    && 1 <= Num2(t, 5) <= 12
    && 1 <= Num2(t, 8) <= DaysInMonth(100 * Num2(t, 0) + Num2(t, 2), Num2(t, 5))
    && Num2(t, 11) < 24 && Num2(t, 14) < 60 && Num2(t, 17) < 60
  }

  /** Every timestamp field of a record: the store hands them out in ISO form
      and the page reads them back through `new Date(...)`. */
  type Instant = t: string | IsIsoInstant(t) witness "1970-01-01T00:00:00.000Z"

  // ---------------------------------------------------------------- records

  datatype SessionStatus = Active | Completed

  datatype BlockerStatus = Open | Resolved

  /** A timed block of work. `endTime == None` while it is still running. */
  datatype Session = Session(
    id: string,
    userId: string,
    goal: string,
    startTime: Instant,
    endTime: Option<Instant>,
    status: SessionStatus)

  /** A free-form note; `images` is absent or a list of encoded pictures. */
  datatype Idea = Idea(
    id: string,
    userId: string,
    content: string,
    createdAt: Instant,
    images: Option<seq<string>>)

  /** A problem met during work; `solution == None` while unresolved. */
  datatype Blocker = Blocker(
    id: string,
    userId: string,
    problem: string,
    solution: Option<string>,
    status: BlockerStatus,
    createdAt: Instant,
    resolvedAt: Option<Instant>)
}
