/**
 * `merge_tasks` (sync_assignments.py:121-153): merge one batch of observed
 * assignments into the registry, keep every completion flag, then drop the
 * records that are both unobserved and past due.
 *
 * `Merge` is the specification, built from `ApplyBatch` (the insert/refresh
 * loop) and the pruning step; `MergeTasks` is the loop-by-loop procedure,
 * proved equal to it.  The lemmas state what the merge promises.
 */
module Reconcile {
  import opened Wrappers
  import opened Clock
  import opened Tasks

  /** The record created for an id seen for the first time (lines 127-135). */
  function NewRecord(cal: Calendar, a: Observed): TaskRecord {
    TaskRecord(a.id, a.title, a.course, cal.toIso(a.due), a.source, a.url, false)
  }

  /** `.update` of the four metadata fields (lines 138-143). */
  function Refresh(cal: Calendar, t: TaskRecord, a: Observed): TaskRecord {
    t.(title := a.title, course := a.course, due := cal.toIso(a.due), url := a.url)
  }

  /** One iteration of the loop at lines 124-143. */
  function Upsert(cal: Calendar, reg: Registry, a: Observed): Registry {
    if a.id !in reg then reg[a.id := NewRecord(cal, a)]
    else reg[a.id := Refresh(cal, reg[a.id], a)]
  }

  /** The whole loop at lines 124-143, over the batch in order. */
  function ApplyBatch(cal: Calendar, reg: Registry, batch: seq<Observed>): Registry
    decreases |batch|
  {
    if batch == [] then reg
    else Upsert(cal, ApplyBatch(cal, reg, batch[..|batch| - 1]), batch[|batch| - 1])
  }

  /** `fresh_ids` (line 145). */
  function IdsOf(batch: seq<Observed>): set<string> {
    set i | 0 <= i < |batch| :: batch[i].id
  }

  /** The last observation in the batch that carries id `k`. */
  function LastWith(batch: seq<Observed>, k: string): (a: Observed)
    requires k in IdsOf(batch)
    ensures a in batch && a.id == k
    decreases |batch|
  {
    var n := |batch|;
    if batch[n - 1].id == k then batch[n - 1]
    else
      assert k in IdsOf(batch[..n - 1]) by {
        var i :| 0 <= i < n && batch[i].id == k;
        assert batch[..n - 1][i] == batch[i];
      }
      var a := LastWith(batch[..n - 1], k);
      assert a in batch[..n - 1];
      a
  }

  /** The first observation in the batch that carries id `k`. */
  function FirstWith(batch: seq<Observed>, k: string): (a: Observed)
    requires k in IdsOf(batch)
    ensures a in batch && a.id == k
    decreases |batch|
  {
    var n := |batch|;
    if k in IdsOf(batch[..n - 1]) then
      var a := FirstWith(batch[..n - 1], k);
      assert a in batch[..n - 1];
      a
    else
      batch[n - 1]
  }

  /** `LastWith` is the observation with id `k` that no later one shares. */
  lemma {:induction false} LastWithIsLast(batch: seq<Observed>, k: string)
    requires k in IdsOf(batch)
    ensures exists i :: 0 <= i < |batch| && batch[i] == LastWith(batch, k) && NoneAfter(batch, k, i)
    decreases |batch|
  {
    var n := |batch|;
    if batch[n - 1].id == k {
      assert batch[n - 1] == LastWith(batch, k);
      assert NoneAfter(batch, k, n - 1);
    } else {
      var init := batch[..n - 1];
      assert k in IdsOf(init) by {
        var i :| 0 <= i < n && batch[i].id == k;
        assert init[i] == batch[i];
      }
      LastWithIsLast(init, k);
      var i :| 0 <= i < n - 1 && init[i] == LastWith(init, k) && NoneAfter(init, k, i);
      assert LastWith(batch, k) == LastWith(init, k);
      assert batch[i] == init[i];
      forall j | i < j < n ensures batch[j].id != k {
        if j < n - 1 { assert batch[j] == init[j]; }
      }
      assert NoneAfter(batch, k, i);
    }
  }

  /** No observation after position `i` carries id `k`. */
  predicate NoneAfter(batch: seq<Observed>, k: string, i: int)
    requires 0 <= i
  {
    forall j :: i < j < |batch| ==> batch[j].id != k
  }

  /** `FirstWith` is the observation with id `k` that no earlier one shares. */
  lemma {:induction false} FirstWithIsFirst(batch: seq<Observed>, k: string)
    requires k in IdsOf(batch)
    ensures exists i :: 0 <= i < |batch| && batch[i] == FirstWith(batch, k) && NoneBefore(batch, k, i)
    decreases |batch|
  {
    var n := |batch|;
    var init := batch[..n - 1];
    if k in IdsOf(init) {
      FirstWithIsFirst(init, k);
      var i :| 0 <= i < n - 1 && init[i] == FirstWith(init, k) && NoneBefore(init, k, i);
      assert FirstWith(batch, k) == FirstWith(init, k);
      assert batch[i] == init[i];
      forall j | 0 <= j < i ensures batch[j].id != k {
        assert batch[j] == init[j];
      }
      assert NoneBefore(batch, k, i);
    } else {
      assert batch[n - 1] == FirstWith(batch, k);
      forall j | 0 <= j < n - 1 ensures batch[j].id != k {
        assert batch[j] == init[j] && init[j].id in IdsOf(init);
      }
      assert NoneBefore(batch, k, n - 1);
    }
  }

  /** No observation before position `i` carries id `k`. */
  predicate NoneBefore(batch: seq<Observed>, k: string, i: int)
    requires i <= |batch|
  {
    forall j :: 0 <= j < i ==> batch[j].id != k
  }

  /** A record dropped by the cleanup: its stored due parses and is before `now`. */
  predicate PastDue(cal: Calendar, due: string, now: Instant) {
    match ParseIso(cal, due)
    case Success(Some(t)) => t < now
    case _ => false
  }

  /** A stored due on which `parse_iso` raises (non-empty, not ISO-8601). */
  predicate Malformed(cal: Calendar, due: string) {
    ParseIso(cal, due).Failure?
  }

  /** The registry after the loop minus the records selected at lines 147-150. */
  function Prune(cal: Calendar, reg: Registry, ids: set<string>, now: Instant): Registry {
    map k | k in reg && (k in ids || !PastDue(cal, reg[k].due, now)) :: reg[k]
  }

  /** The specification of `merge_tasks`, with `now_ct()` as the parameter `now`. */
  function Merge(cal: Calendar, existing: Registry, batch: seq<Observed>, now: Instant)
    : Result<Registry, Error>
  {
    var updated := ApplyBatch(cal, existing, batch);
    var ids := IdsOf(batch);
    if exists k :: k in updated && k !in ids && Malformed(cal, updated[k].due)
    then Failure(BadIsoFormat)
    else Success(Prune(cal, updated, ids, now))
  }

  // ---------------------------------------------------------------------------
  // The insert/refresh loop in closed form

  /** The record an id starts from before the batch refreshes it. */
  function Base(cal: Calendar, existing: Registry, batch: seq<Observed>, k: string): TaskRecord
    requires k in IdsOf(batch)
  {
    if k in existing then existing[k] else NewRecord(cal, FirstWith(batch, k))
  }

  lemma IdsOfSnoc(batch: seq<Observed>)
    requires batch != []
    ensures IdsOf(batch) == IdsOf(batch[..|batch| - 1]) + {batch[|batch| - 1].id}
  {
    var n := |batch|;
    forall k | k in IdsOf(batch) ensures k in IdsOf(batch[..n - 1]) + {batch[n - 1].id} {
      var i :| 0 <= i < n && batch[i].id == k;
      if i < n - 1 { assert batch[..n - 1][i] == batch[i]; }
    }
    forall k | k in IdsOf(batch[..n - 1]) ensures k in IdsOf(batch) {
      var i :| 0 <= i < n - 1 && batch[..n - 1][i].id == k;
      assert batch[i] == batch[..n - 1][i];
    }
  }

  /**
   * What the loop leaves for an id: an observed id holds its base record
   * refreshed by its last observation; an unobserved id is untouched.
   */
  lemma {:induction false} ApplyBatchAt(cal: Calendar, existing: Registry, batch: seq<Observed>, k: string)
    ensures k in ApplyBatch(cal, existing, batch) <==> k in existing || k in IdsOf(batch)
    ensures k in IdsOf(batch) ==>
      ApplyBatch(cal, existing, batch)[k] == Refresh(cal, Base(cal, existing, batch, k), LastWith(batch, k))
    ensures k !in IdsOf(batch) && k in existing ==> ApplyBatch(cal, existing, batch)[k] == existing[k]
    decreases |batch|
  {
    if batch != [] {
      var n := |batch|;
      var init := batch[..n - 1];
      var a := batch[n - 1];
      ApplyBatchAt(cal, existing, init, k);
      IdsOfSnoc(batch);
      if k in IdsOf(init) && k != a.id {
        assert LastWith(batch, k) == LastWith(init, k);
      }
      if k in IdsOf(init) {
        assert FirstWith(batch, k) == FirstWith(init, k);
      }
    }
  }

  // ---------------------------------------------------------------------------
  // Properties of the merge

  /**
   * The merge fails exactly when some unobserved record stores a non-empty
   * due that `fromisoformat` rejects; observed records are never parsed.
   */
  lemma MergeFailsIff(cal: Calendar, existing: Registry, batch: seq<Observed>, now: Instant)
    ensures Merge(cal, existing, batch, now).Failure?
        <==> exists k :: k in existing && k !in IdsOf(batch) && Malformed(cal, existing[k].due)
  {
    var updated := ApplyBatch(cal, existing, batch);
    var ids := IdsOf(batch);
    if k :| k in updated && k !in ids && Malformed(cal, updated[k].due) {
      ApplyBatchAt(cal, existing, batch, k);
    }
    if k :| k in existing && k !in ids && Malformed(cal, existing[k].due) {
      ApplyBatchAt(cal, existing, batch, k);
    }
  }

  /**
   * The keys of a successful merge: every observed id is present, and every
   * key was either stored before or observed now.
   */
  lemma MergeKeys(cal: Calendar, existing: Registry, batch: seq<Observed>, now: Instant)
    requires Merge(cal, existing, batch, now).Success?
    ensures var r := Merge(cal, existing, batch, now).value;
      IdsOf(batch) <= r.Keys <= existing.Keys + IdsOf(batch)
  {
    var r := Merge(cal, existing, batch, now).value;
    forall k | k in IdsOf(batch) ensures k in r { ApplyBatchAt(cal, existing, batch, k); }
    forall k | k in r ensures k in existing.Keys + IdsOf(batch) { ApplyBatchAt(cal, existing, batch, k); }
  }

  /**
   * Field handling for an observed id: the four metadata fields come from
   * the last observation with that id; `id`, `source` and `completed` are
   * the stored ones, or for a new id the first observation's id and source
   * and `completed == false`.
   */
  lemma MergeObserved(cal: Calendar, existing: Registry, batch: seq<Observed>, now: Instant, k: string)
    requires Merge(cal, existing, batch, now).Success?
    requires k in IdsOf(batch)
    ensures var r := Merge(cal, existing, batch, now).value;
      var last := LastWith(batch, k);
      && k in r
      && r[k].title == last.title && r[k].course == last.course
      && r[k].due == cal.toIso(last.due) && r[k].url == last.url
      && (k in existing ==>
            r[k].id == existing[k].id && r[k].source == existing[k].source
            && r[k].completed == existing[k].completed)
      && (k !in existing ==>
            r[k].id == k && r[k].source == FirstWith(batch, k).source && !r[k].completed)
  {
    ApplyBatchAt(cal, existing, batch, k);
  }

  /** An id seen once in the batch and never before gets exactly `NewRecord`. */
  lemma MergeNewSingle(cal: Calendar, existing: Registry, batch: seq<Observed>, now: Instant, i: int)
    requires Merge(cal, existing, batch, now).Success?
    requires 0 <= i < |batch| && batch[i].id !in existing
    requires forall j :: 0 <= j < |batch| && j != i ==> batch[j].id != batch[i].id
    ensures batch[i].id in Merge(cal, existing, batch, now).value
    ensures Merge(cal, existing, batch, now).value[batch[i].id] == NewRecord(cal, batch[i])
  {
    var k := batch[i].id;
    assert k in IdsOf(batch);
    ApplyBatchAt(cal, existing, batch, k);
  }

  /**
   * The cleanup is exact: an unobserved record is removed iff its due is
   * non-empty and parses to an instant before `now`; otherwise it is kept
   * unchanged (future dues and empty dues alike).
   */
  lemma MergePrunesExactly(cal: Calendar, existing: Registry, batch: seq<Observed>, now: Instant, k: string)
    requires Merge(cal, existing, batch, now).Success?
    requires k in existing && k !in IdsOf(batch)
    ensures var r := Merge(cal, existing, batch, now).value;
      && (k !in r <==> existing[k].due != "" && exists t :: cal.fromIso(existing[k].due) == Some(t) && t < now)
      && (k in r ==> r[k] == existing[k])
  {
    ApplyBatchAt(cal, existing, batch, k);
    var due := existing[k].due;
    if due != "" && cal.fromIso(due).Some? {
      assert ParseIso(cal, due) == Success(Some(cal.fromIso(due).value));
    }
  }

  /** No completion flag is ever changed: a true flag stays true. */
  lemma MergeKeepsCompleted(cal: Calendar, existing: Registry, batch: seq<Observed>, now: Instant, k: string)
    requires Merge(cal, existing, batch, now).Success?
    requires k in Merge(cal, existing, batch, now).value
    ensures var r := Merge(cal, existing, batch, now).value;
      r[k].completed == (k in existing && existing[k].completed)
  {
    ApplyBatchAt(cal, existing, batch, k);
  }

  /** The loop run again over its own output with the same batch changes nothing. */
  lemma {:induction false} ApplyBatchAgain(cal: Calendar, existing: Registry, batch: seq<Observed>, reg: Registry)
    requires IdsOf(batch) <= reg.Keys
    requires forall k :: k in IdsOf(batch) ==>
      k in ApplyBatch(cal, existing, batch) && reg[k] == ApplyBatch(cal, existing, batch)[k]
    ensures ApplyBatch(cal, reg, batch) == reg
  {
    var again := ApplyBatch(cal, reg, batch);
    forall k | k in IdsOf(batch) ensures k in again && again[k] == reg[k] {
      ApplyBatchAt(cal, reg, batch, k);
      ApplyBatchAt(cal, existing, batch, k);
    }
    forall k | k !in IdsOf(batch) ensures (k in again <==> k in reg) && (k in reg ==> again[k] == reg[k]) {
      ApplyBatchAt(cal, reg, batch, k);
    }
  }

  /** Merging the same batch at the same `now` a second time changes nothing. */
  lemma MergeIdempotent(cal: Calendar, existing: Registry, batch: seq<Observed>, now: Instant)
    requires Merge(cal, existing, batch, now).Success?
    ensures Merge(cal, Merge(cal, existing, batch, now).value, batch, now)
         == Merge(cal, existing, batch, now)
  {
    var r := Merge(cal, existing, batch, now).value;
    var updated := ApplyBatch(cal, existing, batch);
    var ids := IdsOf(batch);
    forall k | k in ids ensures k in r && r[k] == updated[k] {
      ApplyBatchAt(cal, existing, batch, k);
    }
    ApplyBatchAgain(cal, existing, batch, r);
    assert ApplyBatch(cal, r, batch) == r;
    assert Prune(cal, r, ids, now) == r;
  }

  // ---------------------------------------------------------------------------
  // The procedure

  /** The ids the cleanup at lines 145-150 selects from `reg`. */
  function Stale(cal: Calendar, reg: Registry, ids: set<string>, now: Instant): set<string> {
    set k | k in reg && k !in ids && PastDue(cal, reg[k].due, now)
  }

  /** The insert/refresh loop at lines 124-143, on a copy of `existing`. */
  method ApplyObservations(cal: Calendar, existing: Registry, batch: seq<Observed>)
    returns (updated: Registry)
    ensures updated == ApplyBatch(cal, existing, batch)
  {
    updated := existing;
    var i := 0;
    while i < |batch|
      invariant 0 <= i <= |batch|
      invariant updated == ApplyBatch(cal, existing, batch[..i])
    {
      var a := batch[i];
      assert batch[..i + 1][..i] == batch[..i];
      if a.id !in updated {
        updated := updated[a.id := NewRecord(cal, a)];
      } else {
        updated := updated[a.id := Refresh(cal, updated[a.id], a)];
      }
      i := i + 1;
    }
    assert batch[..|batch|] == batch;
  }

  /**
   * The comprehension at lines 146-150: the stale ids, or the error that
   * `parse_iso` raises on the first malformed due of an unobserved record.
   */
  method CollectStale(cal: Calendar, updated: Registry, ids: set<string>, now: Instant)
    returns (r: Result<set<string>, Error>)
    ensures r.Failure? <==> exists k :: k in updated && k !in ids && Malformed(cal, updated[k].due)
    ensures r.Failure? ==> r.error == BadIsoFormat
    ensures r.Success? ==> r.value == Stale(cal, updated, ids, now)
  {
    var toRemove: set<string> := {};
    var unvisited := updated.Keys;
    while unvisited != {}
      invariant unvisited <= updated.Keys
      invariant forall k :: k in updated && k !in unvisited && k !in ids ==> !Malformed(cal, updated[k].due)
      invariant toRemove == set k | k in updated && k !in unvisited && k !in ids && PastDue(cal, updated[k].due, now)
      decreases unvisited
    {
      var k :| k in unvisited;
      if k !in ids {
        match ParseIso(cal, updated[k].due)
        case Failure(e) =>
          r := Failure(e);
          return;
        case Success(Some(t)) =>
          if t < now {
            toRemove := toRemove + {k};
          }
        case Success(None) =>
      }
      unvisited := unvisited - {k};
    }
    r := Success(toRemove);
  }

  /** The deletion loop at lines 151-152. */
  method DeleteAll(reg: Registry, doomed: set<string>) returns (r: Registry)
    ensures r == map k | k in reg && k !in doomed :: reg[k]
  {
    r := reg;
    var remaining := doomed;
    while remaining != {}
      invariant remaining <= doomed
      invariant r == map k | k in reg && k !in doomed - remaining :: reg[k]
      decreases remaining
    {
      var k :| k in remaining;
      r := r - {k};
      remaining := remaining - {k};
    }
  }

  /**
   * `merge_tasks` as written: copy, insert or refresh each observation,
   * collect the stale ids (raising on a malformed stored due), delete them.
   * The registry is a value here: the caller's inner records are not shared.
   */
  method MergeTasks(cal: Calendar, existing: Registry, batch: seq<Observed>, now: Instant)
    returns (r: Result<Registry, Error>)
    ensures r == Merge(cal, existing, batch, now)
  {
    var updated := ApplyObservations(cal, existing, batch);
    var freshIds := IdsOf(batch);
    var stale := CollectStale(cal, updated, freshIds, now);
    match stale
    case Failure(e) =>
      r := Failure(e);
    case Success(toRemove) =>
      var pruned := DeleteAll(updated, toRemove);
      assert pruned == Prune(cal, updated, freshIds, now);
      r := Success(pruned);
  }
}
