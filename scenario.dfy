/**
 * What happens when an assignment already in the registry is observed
 * again with its due moved to another date.  The id carries the due date,
 * so the observation gets a new id: the merge adds a fresh record with
 * `completed == false` and keeps the old one, completion flag and old due
 * included, until that old due passes.
 */
module Rescheduling {
  import opened Clock
  import opened Tasks
  import opened Identity
  import opened Reconcile

  lemma RescheduleAddsNewRecord(cal: Calendar, existing: Registry, title: string, d0: Instant,
                                a: Observed, now: Instant)
    requires cal.Valid()
    requires a.id == TaskId(cal, a.title, a.due) && a.title == title
    requires cal.localDate(d0) != cal.localDate(a.due)
    requires InYmdRange(cal.localDate(d0)) && InYmdRange(cal.localDate(a.due))
    requires TaskId(cal, title, d0) in existing && a.id !in existing
    requires existing[TaskId(cal, title, d0)].due == cal.toIso(d0) && now <= d0
    requires Merge(cal, existing, [a], now).Success?
    ensures var r := Merge(cal, existing, [a], now).value;
      && TaskId(cal, title, d0) in r && r[TaskId(cal, title, d0)] == existing[TaskId(cal, title, d0)]
      && a.id in r && r[a.id] == NewRecord(cal, a)
  {
    var k0 := TaskId(cal, title, d0);
    TaskIdEqualIff(cal, title, d0, title, a.due);
    assert IdsOf([a]) == {a.id};
    MergePrunesExactly(cal, existing, [a], now, k0);
    MergeNewSingle(cal, existing, [a], now, 0);
  }
}
