/** Tasks, meetings, calls and e-mails and their completion and due-date
    checks (entity/Activity.java). */
module Activities {
  import opened Base

  /** ActivityStatus: the code names PLANNED, COMPLETED and CANCELLED; the
      enum's other constants are kept by name. */
  datatype ActivityStatus = Planned | Completed | Cancelled | OtherActivityStatus(name: string)

  /** Priority: the code names MEDIUM; the enum's other constants are kept by name. */
  datatype Priority = Medium | OtherPriority(name: string)

  /** A status that still leaves the activity open: neither completed nor cancelled. */
  predicate IsPending(s: ActivityStatus)
  {
    s != Completed && s != Cancelled
  }

  class Activity {
    /** The creation timestamp the persistence layer stamps once on insert. */
    const createdAt: DateTime
    var subject: string
    var status: ActivityStatus
    var priority: Priority
    var dueDate: Option<DateTime>
    var completedDate: Option<DateTime>
    var outcome: Option<string>
    var isReminderSent: bool

    /** A new activity with the builder's defaults: PLANNED, MEDIUM, no reminder sent. */
    constructor (subject: string, dueDate: Option<DateTime>, createdAt: DateTime)
      ensures this.subject == subject && this.dueDate == dueDate && this.createdAt == createdAt
      ensures status == Planned && priority == Medium && !isReminderSent
      ensures completedDate == None && outcome == None
    {
      this.createdAt := createdAt;
      this.subject := subject;
      this.dueDate := dueDate;
      status := Planned;
      priority := Medium;
      completedDate := None;
      outcome := None;
      isReminderSent := false;
    }

    /** complete: mark the activity done now with the given outcome; a repeated
        call overwrites the date and the outcome. */
    method Complete(outcome: Option<string>, now: DateTime)
      modifies this`status, this`completedDate, this`outcome
      ensures status == Completed && completedDate == Some(now) && this.outcome == outcome
      ensures forall t :: !IsOverdue(t)
    {
      status := Completed;
      completedDate := Some(now);
      this.outcome := outcome;
    }

    /** isOverdue: the due moment has passed and the activity is still pending. */
    predicate IsOverdue(now: DateTime)
      reads this
      ensures IsOverdue(now) <==> dueDate.Some? && dueDate.value < now && IsPending(status)
    {
      dueDate != None && dueDate.value < now && status != Completed && status != Cancelled
    }

    /** An overdue activity stays overdue as time passes while its due moment
        and status are left as they are. */
    lemma OverdueStaysOverdue(t: DateTime, t': DateTime)
      requires IsOverdue(t) && t <= t'
      ensures IsOverdue(t')
    {
    }

    /** isDueToday: the due moment falls on today's calendar date, whatever the status. */
    predicate IsDueToday(now: DateTime)
      reads this
      ensures IsDueToday(now) <==> dueDate.Some? && DateOf(dueDate.value) == DateOf(now)
      ensures dueDate.Some? && dueDate.value == now ==> IsDueToday(now)
    {
      if dueDate == None then false
      else DateOf(dueDate.value) == DateOf(now)
    }
  }
}
