/**
 * `task_id` (sync_assignments.py:42-45): the title lowercased, every
 * character outside [a-z0-9] replaced one for one by `_`, then `__` and the
 * due date as YYYYMMDD in the due's own (Central) time zone.
 */
module Identity {
  import opened Clock

  predicate IsIdChar(c: char) {
    ('a' <= c <= 'z') || ('0' <= c <= '9') || c == '_'
  }

  predicate IsAsciiAlnum(c: char) {
    ('a' <= c <= 'z') || ('A' <= c <= 'Z') || ('0' <= c <= '9')
  }

  /** One character of `re.sub(r"[^a-z0-9]", "_", title.lower())`. */
  function SafeChar(c: char): (s: char)
    ensures IsIdChar(s)
    ensures IsAsciiAlnum(c) <==> s != '_'
    ensures 'A' <= c <= 'Z' ==> s as int == c as int + 32
    ensures ('a' <= c <= 'z') || ('0' <= c <= '9') ==> s == c
  {
    if ('a' <= c <= 'z') || ('0' <= c <= '9') then c
    else if 'A' <= c <= 'Z' then (c as int + 32) as char
    else '_'
  }

  /** The title part of a task id. */
  function Safe(title: string): (s: string)
    ensures |s| == |title|
    ensures forall i :: 0 <= i < |s| ==> s[i] == SafeChar(title[i])
  {
    if title == [] then [] else [SafeChar(title[0])] + Safe(title[1..])
  }

  function TaskId(cal: Calendar, title: string, due: Instant): string {
    Safe(title) + "__" + cal.ymd(cal.localDate(due))
  }

  /** The shape of an id: a safe title of the title's length, `__`, eight digits. */
  lemma TaskIdShape(cal: Calendar, title: string, due: Instant)
    requires cal.Valid() && InYmdRange(cal.localDate(due))
    ensures var id := TaskId(cal, title, due);
      && |id| == |title| + 10
      && (forall i :: 0 <= i < |id| ==> IsIdChar(id[i]))
      && id[..|title|] == Safe(title)
      && id[|title|..|title| + 2] == "__"
      && IsYmd(id[|title| + 2..])
  {
    var id := TaskId(cal, title, due);
    var date := cal.localDate(due);
    var day := cal.ymd(date);
    assert IsYmd(day);
    assert id[|title| + 2..] == day;
    forall i | 0 <= i < |id| ensures IsIdChar(id[i]) {
      if i >= |title| + 2 {
        assert id[i] == day[i - |title| - 2];
      }
    }
  }

  /**
   * Two ids are equal exactly when the safe titles are equal and the dues
   * fall on the same Central date: time of day, source and url play no part.
   */
  lemma TaskIdEqualIff(cal: Calendar, t1: string, d1: Instant, t2: string, d2: Instant)
    requires cal.Valid() && InYmdRange(cal.localDate(d1)) && InYmdRange(cal.localDate(d2))
    ensures TaskId(cal, t1, d1) == TaskId(cal, t2, d2)
        <==> Safe(t1) == Safe(t2) && cal.localDate(d1) == cal.localDate(d2)
  {
    var date1, date2 := cal.localDate(d1), cal.localDate(d2);
    var y1, y2 := cal.ymd(date1), cal.ymd(date2);
    var id1, id2 := TaskId(cal, t1, d1), TaskId(cal, t2, d2);
    assert InYmdRange(date1) && InYmdRange(date2);
    assert IsYmd(y1) && IsYmd(y2);
    if id1 == id2 {
      assert |t1| == |t2|;
      assert id1[|id1| - 8..] == y1 && id2[|id2| - 8..] == y2;
      assert id1[..|t1|] == Safe(t1) && id2[..|t2|] == Safe(t2);
    }
  }

  /** Ids depend on the date and not on the time of day. */
  lemma SameDateSameId(cal: Calendar, title: string, d1: Instant, d2: Instant)
    requires cal.localDate(d1) == cal.localDate(d2)
    ensures TaskId(cal, title, d1) == TaskId(cal, title, d2)
  {
  }

  /** Titles that differ only in non-alphanumerics collide: "a b" and "a-b". */
  lemma PunctuationCollides(cal: Calendar, due: Instant)
    ensures TaskId(cal, "a b", due) == TaskId(cal, "a-b", due)
  {
    assert Safe("a b") == "a_b";
    assert Safe("a-b") == "a_b";
  }

  /** Upper and lower case collide: a title is lowercased first. */
  lemma CaseCollides(cal: Calendar, due: Instant)
    ensures TaskId(cal, "HW", due) == TaskId(cal, "hw", due)
  {
    assert Safe("HW") == "hw";
    assert Safe("hw") == "hw";
  }

  /**
   * Titles whose safe forms differ at some position never share an id,
   * whatever the dues and whatever `strftime` writes for them.
   */
  lemma SafeDifferenceSeparates(cal: Calendar, t1: string, d1: Instant, t2: string, d2: Instant, i: int)
    requires 0 <= i < |t1| && 0 <= i < |t2| && SafeChar(t1[i]) != SafeChar(t2[i])
    ensures TaskId(cal, t1, d1) != TaskId(cal, t2, d2)
  {
    var id1, id2 := TaskId(cal, t1, d1), TaskId(cal, t2, d2);
    assert id1[i] == Safe(t1)[i] && id2[i] == Safe(t2)[i];
  }

  /** "BioE 210 HW 5" and "BioE 210 HW 6" never share an id. */
  lemma DistinctHomeworkIds(cal: Calendar, d1: Instant, d2: Instant)
    ensures TaskId(cal, "BioE 210 HW 5", d1) != TaskId(cal, "BioE 210 HW 6", d2)
  {
    SafeDifferenceSeparates(cal, "BioE 210 HW 5", d1, "BioE 210 HW 6", d2, 12);
  }

  /** A title already made of [a-z0-9_] is its own safe form. */
  lemma SafeOfIdChars(title: string)
    requires forall i :: 0 <= i < |title| ==> IsIdChar(title[i])
    ensures Safe(title) == title
  {
  }
}
