/**
 * The daily digest.  `Pending` is the selection at sync_assignments.py:293-296:
 * the records not completed and due after `now`, sorted stably by their due
 * TEXT.  `BuildDigest` is the bucketing at lines 211-215: due within the
 * next seven days, due later, and due within a day.
 */
module Digest {
  import opened Wrappers
  import opened Clock
  import opened Tasks
  import Urgency

  // ---------------------------------------------------------------------------
  // Python's ordering of `str` values: code point by code point, a proper
  // prefix first.

  predicate StrLe(a: string, b: string)
    decreases |a|
  {
    |a| == 0 || (|b| > 0 && (a[0] < b[0] || (a[0] == b[0] && StrLe(a[1..], b[1..]))))
  }

  lemma {:induction false} StrLeReflexive(a: string)
    ensures StrLe(a, a)
    decreases |a|
  {
    if |a| > 0 { StrLeReflexive(a[1..]); }
  }

  lemma {:induction false} StrLeTotal(a: string, b: string)
    ensures StrLe(a, b) || StrLe(b, a)
    decreases |a|
  {
    if |a| > 0 && |b| > 0 && a[0] == b[0] { StrLeTotal(a[1..], b[1..]); }
  }

  lemma {:induction false} StrLeAntisymmetric(a: string, b: string)
    requires StrLe(a, b) && StrLe(b, a)
    ensures a == b
    decreases |a|
  {
    if |a| > 0 {
      StrLeAntisymmetric(a[1..], b[1..]);
      assert a == [a[0]] + a[1..] && b == [b[0]] + b[1..];
    }
  }

  lemma {:induction false} StrLeTransitive(a: string, b: string, c: string)
    requires StrLe(a, b) && StrLe(b, c)
    ensures StrLe(a, c)
    decreases |a|
  {
    if |a| > 0 && a[0] == b[0] && b[0] == c[0] { StrLeTransitive(a[1..], b[1..], c[1..]); }
  }

  // ---------------------------------------------------------------------------
  // `sorted(..., key=lambda x: x["due"])`

  predicate SortedByDue(s: seq<TaskRecord>) {
    forall i :: 0 < i < |s| ==> StrLe(s[i - 1].due, s[i].due)
  }

  /** The records of `s` whose due text is `k`, in their order in `s`. */
  function WithDue(s: seq<TaskRecord>, k: string): seq<TaskRecord>
    decreases |s|
  {
    if s == [] then [] else (if s[0].due == k then [s[0]] else []) + WithDue(s[1..], k)
  }

  function InsertByDue(x: TaskRecord, s: seq<TaskRecord>): (r: seq<TaskRecord>)
    ensures multiset(r) == multiset(s) + multiset{x}
    ensures |r| == |s| + 1
    ensures r[0] == x || (s != [] && r[0] == s[0])
    decreases |s|
  {
    if s == [] then [x]
    else if StrLe(x.due, s[0].due) then [x] + s
    else
      assert s == [s[0]] + s[1..];
      [s[0]] + InsertByDue(x, s[1..])
  }

  /** A stable sort by due text (insertion sort; earlier records stay first on ties). */
  function SortByDue(s: seq<TaskRecord>): (r: seq<TaskRecord>)
    ensures multiset(r) == multiset(s)
    decreases |s|
  {
    if s == [] then []
    else
      assert s == [s[0]] + s[1..];
      InsertByDue(s[0], SortByDue(s[1..]))
  }

  lemma {:induction false} InsertByDueSorted(x: TaskRecord, s: seq<TaskRecord>)
    requires SortedByDue(s)
    ensures SortedByDue(InsertByDue(x, s))
    decreases |s|
  {
    if s != [] && !StrLe(x.due, s[0].due) {
      StrLeTotal(x.due, s[0].due);
      InsertByDueSorted(x, s[1..]);
      var r := InsertByDue(x, s);
      assert r == [s[0]] + InsertByDue(x, s[1..]);
    }
  }

  lemma {:induction false} SortByDueSorted(s: seq<TaskRecord>)
    ensures SortedByDue(SortByDue(s))
    decreases |s|
  {
    if s != [] {
      SortByDueSorted(s[1..]);
      InsertByDueSorted(s[0], SortByDue(s[1..]));
    }
  }

  lemma WithDueSingle(y: TaskRecord, k: string)
    ensures WithDue([y], k) == if y.due == k then [y] else []
  {
    assert [y][1..] == [];
  }

  lemma WithDueAppend(a: seq<TaskRecord>, b: seq<TaskRecord>, k: string)
    ensures WithDue(a + b, k) == WithDue(a, k) + WithDue(b, k)
    decreases |a|
  {
    if a != [] {
      assert (a + b)[0] == a[0];
      assert (a + b)[1..] == a[1..] + b;
      WithDueAppend(a[1..], b, k);
      var h := if a[0].due == k then [a[0]] else [];
      assert WithDue(a + b, k) == h + WithDue(a[1..] + b, k);
      assert WithDue(a, k) == h + WithDue(a[1..], k);
    } else {
      assert a + b == b;
    }
  }

  lemma {:induction false} InsertByDueStable(x: TaskRecord, s: seq<TaskRecord>, k: string)
    ensures WithDue(InsertByDue(x, s), k) == WithDue([x] + s, k)
    decreases |s|
  {
    if s != [] && !StrLe(x.due, s[0].due) {
      StrLeReflexive(x.due);
      var rest := s[1..];
      var hx, h0 := WithDue([x], k), WithDue([s[0]], k);
      calc {
        WithDue(InsertByDue(x, s), k);
        WithDue([s[0]] + InsertByDue(x, rest), k);
        { WithDueAppend([s[0]], InsertByDue(x, rest), k); }
        h0 + WithDue(InsertByDue(x, rest), k);
        { InsertByDueStable(x, rest, k); WithDueAppend([x], rest, k); }
        h0 + (hx + WithDue(rest, k));
        { WithDueSwap(x, s[0], k); }
        hx + (h0 + WithDue(rest, k));
        { WithDueAppend([s[0]], rest, k); assert [s[0]] + rest == s; }
        hx + WithDue(s, k);
        { WithDueAppend([x], s, k); }
        WithDue([x] + s, k);
      }
    }
  }

  /** Two records with different due texts: at most one is kept, so order does not matter. */
  lemma WithDueSwap(x: TaskRecord, y: TaskRecord, k: string)
    requires x.due != y.due
    ensures WithDue([y], k) + WithDue([x], k) == WithDue([x], k) + WithDue([y], k)
  {
    WithDueSingle(x, k);
    WithDueSingle(y, k);
  }

  /** Records with equal due text keep their input order. */
  lemma {:induction false} SortByDueStable(s: seq<TaskRecord>, k: string)
    ensures WithDue(SortByDue(s), k) == WithDue(s, k)
    decreases |s|
  {
    if s != [] {
      SortByDueStable(s[1..], k);
      InsertByDueStable(s[0], SortByDue(s[1..]), k);
      WithDueAppend([s[0]], SortByDue(s[1..]), k);
      WithDueAppend([s[0]], s[1..], k);
      assert s == [s[0]] + s[1..];
    }
  }

  lemma {:induction false} WithDueMembers(s: seq<TaskRecord>, k: string, x: TaskRecord)
    ensures x in WithDue(s, k) <==> x in s && x.due == k
    decreases |s|
  {
    if s != [] {
      WithDueMembers(s[1..], k, x);
      assert s == [s[0]] + s[1..];
    }
  }

  lemma {:induction false} SortedHeadIsLeast(s: seq<TaskRecord>, i: int)
    requires SortedByDue(s) && 0 <= i < |s|
    ensures StrLe(s[0].due, s[i].due)
    decreases i
  {
    if i == 0 {
      StrLeReflexive(s[0].due);
    } else {
      SortedHeadIsLeast(s, i - 1);
      StrLeTransitive(s[0].due, s[i - 1].due, s[i].due);
    }
  }

  /**
   * A sorted sequence is determined by its per-due subsequences: any stable
   * sort by due text (Python's `sorted` included) gives the same result.
   */
  lemma {:induction false} StableSortUnique(a: seq<TaskRecord>, b: seq<TaskRecord>)
    requires SortedByDue(a) && SortedByDue(b)
    requires forall k :: WithDue(a, k) == WithDue(b, k)
    ensures a == b
    decreases |a|
  {
    if a == [] {
      if b != [] {
        WithDueMembers(b, b[0].due, b[0]);
        assert false;
      }
    } else if b == [] {
      WithDueMembers(a, a[0].due, a[0]);
      assert false;
    } else {
      var ka, kb := a[0].due, b[0].due;
      WithDueMembers(b, kb, b[0]);
      WithDueMembers(a, kb, b[0]);
      var i :| 0 <= i < |a| && a[i] == b[0];
      SortedHeadIsLeast(a, i);
      WithDueMembers(a, ka, a[0]);
      WithDueMembers(b, ka, a[0]);
      var j :| 0 <= j < |b| && b[j] == a[0];
      SortedHeadIsLeast(b, j);
      StrLeAntisymmetric(ka, kb);
      assert WithDue(a, ka)[0] == a[0] && WithDue(b, ka)[0] == b[0];
      assert WithDue(a, ka) == WithDue(b, ka);
      assert a[0] == b[0];
      forall k ensures WithDue(a[1..], k) == WithDue(b[1..], k) {
        var h := if ka == k then [a[0]] else [];
        assert WithDue(a, k) == h + WithDue(a[1..], k);
        assert WithDue(b, k) == h + WithDue(b[1..], k);
        assert WithDue(a, k) == WithDue(b, k);
        assert WithDue(a[1..], k) == (h + WithDue(a[1..], k))[|h|..];
        assert WithDue(b[1..], k) == (h + WithDue(b[1..], k))[|h|..];
      }
      StableSortUnique(a[1..], b[1..]);
      assert a == [a[0]] + a[1..] && b == [b[0]] + b[1..];
    }
  }

  // ---------------------------------------------------------------------------
  // Pending selection: `[t for t in merged.values() if not t["completed"]
  // and parse_iso(t["due"]) > today]`, then sorted.  The registry's values
  // are given in iteration order.

  predicate IsPending(cal: Calendar, now: Instant, t: TaskRecord) {
    && !t.completed
    && match ParseIso(cal, t.due)
       case Success(Some(d)) => d > now
       case _ => false
  }

  /** A due text that cannot be compared with `now`: empty or malformed. */
  predicate Incomparable(cal: Calendar, due: string) {
    !(ParseIso(cal, due).Success? && ParseIso(cal, due).value.Some?)
  }

  /** The comprehension, left to right: the first failing record raises. */
  function SelectPending(cal: Calendar, vals: seq<TaskRecord>, now: Instant)
    : Result<seq<TaskRecord>, Error>
    decreases |vals|
  {
    if vals == [] then Success([])
    else
      var t := vals[0];
      if t.completed then SelectPending(cal, vals[1..], now)
      else match ParseIso(cal, t.due)
        case Failure(e) => Failure(e)
        case Success(None) => Failure(NoDueToCompare)
        case Success(Some(d)) =>
          match SelectPending(cal, vals[1..], now)
          case Failure(e) => Failure(e)
          case Success(p) => Success(if d > now then [t] + p else p)
  }

  /** The pending records of `vals`, in their order: the reference filter. */
  ghost function PendingInOrder(cal: Calendar, vals: seq<TaskRecord>, now: Instant): seq<TaskRecord>
    decreases |vals|
  {
    if vals == [] then []
    else (if IsPending(cal, now, vals[0]) then [vals[0]] else []) + PendingInOrder(cal, vals[1..], now)
  }

  function Pending(cal: Calendar, vals: seq<TaskRecord>, now: Instant): Result<seq<TaskRecord>, Error> {
    match SelectPending(cal, vals, now)
    case Failure(e) => Failure(e)
    case Success(p) => Success(SortByDue(p))
  }

  /**
   * The selection fails exactly when some record that is not completed has
   * an empty or malformed due; completed records are never parsed.  When it
   * succeeds it keeps exactly the pending records, in order.
   */
  lemma {:induction false} SelectPendingSpec(cal: Calendar, vals: seq<TaskRecord>, now: Instant)
    ensures SelectPending(cal, vals, now).Failure?
        <==> exists i :: 0 <= i < |vals| && !vals[i].completed && Incomparable(cal, vals[i].due)
    ensures SelectPending(cal, vals, now).Success? ==>
      SelectPending(cal, vals, now).value == PendingInOrder(cal, vals, now)
    decreases |vals|
  {
    if vals != [] {
      SelectPendingSpec(cal, vals[1..], now);
      assert forall i :: 1 <= i < |vals| ==> vals[i] == vals[1..][i - 1];
      assert forall i :: 0 <= i < |vals| - 1 ==> vals[1..][i] == vals[i + 1];
    }
  }

  lemma {:induction false} PendingInOrderCounts(cal: Calendar, vals: seq<TaskRecord>, now: Instant)
    ensures forall x :: multiset(PendingInOrder(cal, vals, now))[x]
                        == if IsPending(cal, now, x) then multiset(vals)[x] else 0
    decreases |vals|
  {
    if vals != [] {
      PendingInOrderCounts(cal, vals[1..], now);
      assert vals == [vals[0]] + vals[1..];
    }
  }

  lemma {:induction false} PendingInOrderIsSubsequence(cal: Calendar, vals: seq<TaskRecord>, now: Instant)
    ensures IsSubsequence(PendingInOrder(cal, vals, now), vals)
    decreases |vals|
  {
    if vals != [] {
      PendingInOrderIsSubsequence(cal, vals[1..], now);
      var p := PendingInOrder(cal, vals, now);
      var p' := PendingInOrder(cal, vals[1..], now);
      if IsPending(cal, now, vals[0]) {
        assert p == [vals[0]] + p';
        assert p[0] == vals[0] && p[1..] == p';
      } else if p != [] {
        assert p == p';
        PendingInOrderCounts(cal, vals[1..], now);
        assert multiset(p')[p[0]] > 0;
        assert p[0] != vals[0];
      }
    }
  }

  /** `q` is `s` sorted stably by due text. */
  ghost predicate IsStableSortOf(q: seq<TaskRecord>, s: seq<TaskRecord>) {
    SortedByDue(q) && forall k :: WithDue(q, k) == WithDue(s, k)
  }

  /**
   * What `pending` is: the pending records of `vals` (each with its
   * multiplicity), sorted by due text, with ties in their order in `vals`;
   * and it is the only sequence with those properties.
   */
  lemma PendingSpec(cal: Calendar, vals: seq<TaskRecord>, now: Instant)
    requires Pending(cal, vals, now).Success?
    ensures var p := Pending(cal, vals, now).value;
      && (forall x :: multiset(p)[x] == if IsPending(cal, now, x) then multiset(vals)[x] else 0)
      && IsStableSortOf(p, PendingInOrder(cal, vals, now))
      && (forall q :: IsStableSortOf(q, PendingInOrder(cal, vals, now)) ==> q == p)
  {
    SelectPendingSpec(cal, vals, now);
    PendingInOrderCounts(cal, vals, now);
    PendingInOrderIsSubsequence(cal, vals, now);
    var inOrder := PendingInOrder(cal, vals, now);
    var p := Pending(cal, vals, now).value;
    assert p == SortByDue(inOrder);
    assert multiset(p) == multiset(inOrder);
    SortByDueSorted(inOrder);
    forall k ensures WithDue(p, k) == WithDue(inOrder, k) { SortByDueStable(inOrder, k); }
    forall q | IsStableSortOf(q, inOrder) ensures q == p {
      StableSortUnique(q, p);
    }
  }

  // ---------------------------------------------------------------------------
  // Order-preserving sublists

  predicate IsSubsequence(a: seq<TaskRecord>, b: seq<TaskRecord>)
    decreases |b|
  {
    a == [] || (b != [] && if a[0] == b[0] then IsSubsequence(a[1..], b[1..]) else IsSubsequence(a, b[1..]))
  }

  // ---------------------------------------------------------------------------
  // The buckets of `build_html`

  predicate Readable(cal: Calendar, t: TaskRecord) {
    ParseIso(cal, t.due).Success? && ParseIso(cal, t.due).value.Some?
  }

  predicate AllReadable(cal: Calendar, s: seq<TaskRecord>) {
    forall i :: 0 <= i < |s| ==> Readable(cal, s[i])
  }

  /** `parse_iso(a["due"])` of a record whose due parses. */
  function DueOf(cal: Calendar, t: TaskRecord): Instant
    requires Readable(cal, t)
  {
    ParseIso(cal, t.due).value.value
  }

  /** `[a for a in s if keep(parse_iso(a["due"]))]`. */
  function DueFilter(cal: Calendar, s: seq<TaskRecord>, keep: Instant -> bool): seq<TaskRecord>
    requires AllReadable(cal, s)
    decreases |s|
  {
    if s == [] then []
    else (if keep(DueOf(cal, s[0])) then [s[0]] else []) + DueFilter(cal, s[1..], keep)
  }

  lemma {:induction false} DueFilterMembers(cal: Calendar, s: seq<TaskRecord>, keep: Instant -> bool)
    requires AllReadable(cal, s)
    ensures forall x :: x in DueFilter(cal, s, keep) <==> x in s && keep(DueOf(cal, x))
    ensures forall x :: multiset(DueFilter(cal, s, keep))[x]
                        == if x in s && keep(DueOf(cal, x)) then multiset(s)[x] else 0
    decreases |s|
  {
    if s != [] {
      DueFilterMembers(cal, s[1..], keep);
      assert s == [s[0]] + s[1..];
    }
  }

  /** A filter on a stronger condition is a sublist of the filter on a weaker one. */
  lemma {:induction false} DueFilterNested(cal: Calendar, s: seq<TaskRecord>, strong: Instant -> bool, weak: Instant -> bool)
    requires AllReadable(cal, s)
    requires forall t :: strong(t) ==> weak(t)
    ensures IsSubsequence(DueFilter(cal, s, strong), DueFilter(cal, s, weak))
    decreases |s|
  {
    if s != [] {
      DueFilterNested(cal, s[1..], strong, weak);
      var a, b := DueFilter(cal, s, strong), DueFilter(cal, s[1..], strong);
      var c, d := DueFilter(cal, s, weak), DueFilter(cal, s[1..], weak);
      if strong(DueOf(cal, s[0])) {
        assert a == [s[0]] + b && c == [s[0]] + d;
        assert a[1..] == b && c[1..] == d;
      } else if weak(DueOf(cal, s[0])) {
        assert a == b && c == [s[0]] + d;
        if a != [] {
          DueFilterMembers(cal, s[1..], strong);
          assert a[0] in b;
          assert a[0] != s[0];
          assert c[1..] == d;
        }
      } else {
        assert a == b && c == d;
      }
    }
  }

  /** A filter and the filter on the opposite condition split the input. */
  lemma {:induction false} DueFilterSplit(cal: Calendar, s: seq<TaskRecord>, keep: Instant -> bool, drop: Instant -> bool)
    requires AllReadable(cal, s)
    requires forall t :: drop(t) == !keep(t)
    ensures |DueFilter(cal, s, keep)| + |DueFilter(cal, s, drop)| == |s|
    ensures multiset(DueFilter(cal, s, keep)) + multiset(DueFilter(cal, s, drop)) == multiset(s)
    decreases |s|
  {
    if s != [] {
      DueFilterSplit(cal, s[1..], keep, drop);
      assert s == [s[0]] + s[1..];
    }
  }

  datatype Buckets = Buckets(soon: seq<TaskRecord>, later: seq<TaskRecord>, dueToday: seq<TaskRecord>)

  /** Lines 211-215, with `now_ct()` as the parameter `now`. */
  function BuildDigest(cal: Calendar, pending: seq<TaskRecord>, now: Instant): Buckets
    requires AllReadable(cal, pending)
  {
    var weekEnd := now + SecondsPerWeek;
    Buckets(
      DueFilter(cal, pending, t => t <= weekEnd),
      DueFilter(cal, pending, t => t > weekEnd),
      DueFilter(cal, pending, t => Urgency.DaysLeft(t, now) < 1))
  }

  /**
   * `soon` and `later` are order-preserving sublists that split `pending`
   * exactly: every pending record lands in one of the two.
   */
  lemma BuildDigestPartition(cal: Calendar, pending: seq<TaskRecord>, now: Instant)
    requires AllReadable(cal, pending)
    ensures var b := BuildDigest(cal, pending, now);
      && |b.soon| + |b.later| == |pending|
      && multiset(b.soon) + multiset(b.later) == multiset(pending)
      && IsSubsequence(b.soon, pending) && IsSubsequence(b.later, pending)
  {
    var weekEnd := now + SecondsPerWeek;
    var inWeek: Instant -> bool := t => t <= weekEnd;
    var afterWeek: Instant -> bool := t => t > weekEnd;
    DueFilterSplit(cal, pending, inWeek, afterWeek);
    DueFilterIsSubsequence(cal, pending, inWeek);
    DueFilterIsSubsequence(cal, pending, afterWeek);
  }

  /**
   * Which bucket a record is in: `soon` holds the records due at most seven
   * days out, `later` the rest, and `dueToday` those due less than 24 hours
   * out (the overdue included), which all lie in `soon`, in its order.
   */
  lemma BuildDigestMembers(cal: Calendar, pending: seq<TaskRecord>, now: Instant)
    requires AllReadable(cal, pending)
    ensures var b := BuildDigest(cal, pending, now);
      && (forall x :: x in b.soon <==> x in pending && DueOf(cal, x) <= now + SecondsPerWeek)
      && (forall x :: x in b.later <==> x in pending && DueOf(cal, x) > now + SecondsPerWeek)
      && (forall x :: x in b.dueToday <==> x in pending && DueOf(cal, x) - now < SecondsPerDay)
  {
    var weekEnd := now + SecondsPerWeek;
    var inWeek: Instant -> bool := t => t <= weekEnd;
    var afterWeek: Instant -> bool := t => t > weekEnd;
    var inDay: Instant -> bool := t => Urgency.DaysLeft(t, now) < 1;
    DueFilterMembers(cal, pending, inWeek);
    DueFilterMembers(cal, pending, afterWeek);
    DueFilterMembers(cal, pending, inDay);
  }

  /** `dueToday` is an order-preserving sublist of `soon`. */
  lemma BuildDigestTodayInSoon(cal: Calendar, pending: seq<TaskRecord>, now: Instant)
    requires AllReadable(cal, pending)
    ensures var b := BuildDigest(cal, pending, now);
      IsSubsequence(b.dueToday, b.soon)
  {
    var weekEnd := now + SecondsPerWeek;
    var inWeek: Instant -> bool := t => t <= weekEnd;
    var inDay: Instant -> bool := t => Urgency.DaysLeft(t, now) < 1;
    DueFilterNested(cal, pending, inDay, inWeek);
  }

  lemma {:induction false} DueFilterIsSubsequence(cal: Calendar, s: seq<TaskRecord>, keep: Instant -> bool)
    requires AllReadable(cal, s)
    ensures IsSubsequence(DueFilter(cal, s, keep), s)
    decreases |s|
  {
    DueFilterNested(cal, s, keep, t => true);
    assert DueFilter(cal, s, t => true) == s by { DueFilterAll(cal, s); }
  }

  lemma {:induction false} DueFilterAll(cal: Calendar, s: seq<TaskRecord>)
    requires AllReadable(cal, s)
    ensures DueFilter(cal, s, t => true) == s
    decreases |s|
  {
    if s != [] { DueFilterAll(cal, s[1..]); }
  }

  /** Every pending record's due parses, so the buckets can always be built. */
  lemma PendingReadable(cal: Calendar, vals: seq<TaskRecord>, now: Instant)
    requires Pending(cal, vals, now).Success?
    ensures AllReadable(cal, Pending(cal, vals, now).value)
  {
    PendingSpec(cal, vals, now);
    var p := Pending(cal, vals, now).value;
    forall i | 0 <= i < |p| ensures Readable(cal, p[i]) {
      assert multiset(p)[p[i]] > 0;
    }
  }

  /** `main` from the merged registry's values to the digest's buckets. */
  function DailyDigest(cal: Calendar, vals: seq<TaskRecord>, now: Instant): (r: Result<(seq<TaskRecord>, Buckets), Error>)
    ensures r.Success? ==> Pending(cal, vals, now) == Success(r.value.0)
    ensures r.Failure? <==> exists i :: 0 <= i < |vals| && !vals[i].completed && Incomparable(cal, vals[i].due)
  {
    SelectPendingSpec(cal, vals, now);
    match Pending(cal, vals, now)
    case Failure(e) => Failure(e)
    case Success(p) =>
      PendingReadable(cal, vals, now);
      Success((p, BuildDigest(cal, p, now)))
  }
}
