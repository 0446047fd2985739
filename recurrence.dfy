/**
 * utils/recurrenceCalculations.js: the deadline of the next occurrence of a recurring
 * task, and the recurrence fields that occurrence carries.
 */
module Recurrence {
  import opened Wrappers
  import opened Dates

  /** The task's `recurrenceType`; PARENT means "follow the parent task's schedule". */
  datatype RecurrenceType = Daily | Weekly | Monthly | Parent

  /** The three recurrence fields of a task. */
  datatype RecurrenceOptions = RecurrenceOptions(
    recurrenceType: Option<RecurrenceType>,
    recurrenceExpiresAt: Option<CalendarDate>,
    recurrences: Option<int>)

  predicate IsSchedule(t: Option<RecurrenceType>) {
    t == Some(Daily) || t == Some(Weekly) || t == Some(Monthly)
  }

  /** `new Date(deadline)`: a stored deadline, or the epoch for a task without one
      (`new Date(null)`). */
  function DeadlineBase(deadline: Option<CalendarDate>): CalendarDate {
    deadline.GetOr(Epoch)
  }

  /** `calculateNextDeadline(deadline, recurrenceType)`. */
  function CalculateNextDeadline(deadline: Option<CalendarDate>, recurrenceType: Option<RecurrenceType>): (r: Option<CalendarDate>)
    ensures r.Some? <==> IsSchedule(recurrenceType)
  {
    var d := DeadlineBase(deadline);
    match recurrenceType
    case Some(Daily) => Some(AddDays(d, 1))
    case Some(Weekly) => Some(AddDays(d, 7))
    case Some(Monthly) => Some(AddMonth(d))
    case _ => None
  }

  /** JavaScript's `recurrences - 1` on a nullable count: `null - 1` is -1. */
  function JsDecrement(recurrences: Option<int>): int {
    match recurrences
    case Some(n) => n - 1
    case None => -1
  }

  /** `calculateRecurrenceOptions(recurrenceType, recurrenceExpiresAt, recurrences)`. */
  function CalculateRecurrenceOptions(recurrenceType: Option<RecurrenceType>,
                                      recurrenceExpiresAt: Option<CalendarDate>,
                                      recurrences: Option<int>): (r: RecurrenceOptions)
    ensures r.recurrenceType == recurrenceType
    ensures recurrenceExpiresAt.Some? ==> r.recurrenceExpiresAt == recurrenceExpiresAt && r.recurrences == recurrences
    ensures recurrenceExpiresAt.None? ==> r.recurrenceExpiresAt.None? && r.recurrences == Some(JsDecrement(recurrences))
  {
    if recurrenceExpiresAt.Some? then
      RecurrenceOptions(recurrenceType, recurrenceExpiresAt, recurrences)
    else
      RecurrenceOptions(recurrenceType, None, Some(JsDecrement(recurrences)))
  }

  /** DAILY moves the deadline one calendar day forward, WEEKLY seven; a missing deadline
      counts from the epoch. */
  lemma {:induction false} NextDeadlineDays(deadline: Option<CalendarDate>, t: RecurrenceType)
    requires t == Daily || t == Weekly
    ensures var r := CalculateNextDeadline(deadline, Some(t));
      r.Some? && DayIndex(r.value) == DayIndex(DeadlineBase(deadline)) + (if t == Daily then 1 else 7)
  {
    AddDaysIndex(DeadlineBase(deadline), if t == Daily then 1 else 7);
  }

  /** MONTHLY lands on the first of the next month plus (day - 1) days: the same day of
      the next month when it has it, otherwise the overflow into the month after. */
  lemma {:induction false} NextDeadlineMonthly(deadline: Option<CalendarDate>)
    ensures var d := DeadlineBase(deadline);
      var n := NextMonth(d.year, d.month);
      var r := CalculateNextDeadline(deadline, Some(Monthly));
      r.Some? && DayIndex(r.value) == DayIndex(Date(n.0, n.1, 1)) + d.day - 1
  {
    AddMonthIndex(DeadlineBase(deadline));
  }

  /** The options after n successive occurrences starting from `o`. */
  function Iterate(o: RecurrenceOptions, n: nat): RecurrenceOptions
    decreases n
  {
    if n == 0 then o
    else Iterate(CalculateRecurrenceOptions(o.recurrenceType, o.recurrenceExpiresAt, o.recurrences), n - 1)
  }

  /** Without an expiry the count drops by one per occurrence and nothing stops it
      below zero; with an expiry nothing changes. The type is never altered. */
  lemma {:induction false} IterateCount(o: RecurrenceOptions, n: nat)
    requires n >= 1
    ensures Iterate(o, n).recurrenceType == o.recurrenceType
    ensures o.recurrenceExpiresAt.Some? ==> Iterate(o, n) == o
    ensures o.recurrenceExpiresAt.None? ==>
      Iterate(o, n) == RecurrenceOptions(o.recurrenceType, None, Some(JsDecrement(o.recurrences) - (n - 1)))
    decreases n
  {
    var o' := CalculateRecurrenceOptions(o.recurrenceType, o.recurrenceExpiresAt, o.recurrences);
    if n > 1 {
      IterateCount(o', n - 1);
    }
  }
}
