/** `frontend/src/config/timeslots.ts`: strict period codes and day strings. */
module Timeslots {
  import opened Wrappers
  import Timetable

  /** Chronological, unlike code-point order: A before 1, B between 4 and 5. */
  const PERIOD_CODES := "A1234B56789CDEF"
  const DAYS: nat := 7

  predicate ValidDay(raw: string) {
    forall i :: 0 <= i < |raw| ==> raw[i] in PERIOD_CODES
  }

  /** A JavaScript `Set` filled from a string: each code once, in order of first
      appearance. */
  function Codes(raw: string): string {
    if raw == "" then ""
    else
      var front, ch := raw[..|raw| - 1], raw[|raw| - 1];
      if ch in Codes(front) then Codes(front) else Codes(front) + [ch]
  }

  predicate NoRepeat(s: string) {
    forall i, j :: 0 <= i < j < |s| ==> s[i] != s[j]
  }

  lemma {:induction false} CodesMembers(raw: string)
    ensures NoRepeat(Codes(raw))
    ensures forall c :: c in Codes(raw) <==> c in raw
  {
    if raw != "" {
      CodesMembers(raw[..|raw| - 1]);
      assert raw == raw[..|raw| - 1] + [raw[|raw| - 1]];
    }
  }

  lemma {:induction false} IndexInFront(c: char, front: string, last: char)
    requires c in front
    ensures Timetable.IndexOf(c, front + [last]) == Timetable.IndexOf(c, front)
  {
    if front[0] != c {
      assert (front + [last])[1..] == front[1..] + [last];
      IndexInFront(c, front[1..], last);
    }
  }

  lemma {:induction false} IndexOfNew(c: char, front: string)
    requires c !in front
    ensures Timetable.IndexOf(c, front + [c]) == |front|
  {
    if front != "" {
      assert (front + [c])[1..] == front[1..] + [c];
      IndexOfNew(c, front[1..]);
    }
  }

  /** Codes stand in the order in which they first appeared. */
  lemma {:induction false} CodesKeepOrder(raw: string, i: nat, j: nat)
    requires i < j < |Codes(raw)|
    ensures Codes(raw)[i] in raw && Codes(raw)[j] in raw
    ensures Timetable.IndexOf(Codes(raw)[i], raw) < Timetable.IndexOf(Codes(raw)[j], raw)
  {
    CodesMembers(raw);
    var front, last := raw[..|raw| - 1], raw[|raw| - 1];
    assert raw == front + [last];
    CodesMembers(front);
    if j < |Codes(front)| {
      CodesKeepOrder(front, i, j);
      IndexInFront(Codes(raw)[i], front, last);
      IndexInFront(Codes(raw)[j], front, last);
    } else {
      assert Codes(front)[i] in front;
      IndexInFront(Codes(front)[i], front, last);
      IndexOfNew(last, front);
    }
  }

  /** The error is the first unknown code. */
  method ParseDayTimeString(raw: string) returns (parsed: Result<string, char>)
    ensures parsed.Ok? <==> ValidDay(raw)
    ensures parsed.Ok? ==> parsed.value == Codes(raw)
    ensures parsed.Err? ==> exists i ::
      0 <= i < |raw| && raw[i] == parsed.error && raw[i] !in PERIOD_CODES && ValidDay(raw[..i])
  {
    var codes := "";
    for i := 0 to |raw|
      invariant codes == Codes(raw[..i]) && ValidDay(raw[..i])
    {
      if raw[i] !in PERIOD_CODES {
        return Err(raw[i]);
      }
      assert raw[..i + 1][..i] == raw[..i];
      if raw[i] !in codes {
        codes := codes + [raw[i]];
      }
    }
    assert raw[..|raw|] == raw;
    return Ok(codes);
  }

  function Slot(time: seq<string>, day: nat): string {
    if day < |time| then time[day] else ""
  }

  predicate ValidTime(time: seq<string>) {
    forall d :: 0 <= d < DAYS ==> ValidDay(Slot(time, d))
  }

  /** On strings of known codes the server's case-folding parser reads the same
      set, so both sides decide clashes alike. */
  lemma ServerReadsTheSame(raw: string)
    requires ValidDay(raw)
    ensures Timetable.AllKnown(raw)
    ensures forall c :: c in Timetable.Codes(raw) <==> c in Codes(raw)
  {
    CodesMembers(raw);
    forall c | c in PERIOD_CODES ensures Timetable.Upper(c) == c && c in Timetable.PERIODS {
      var i :| 0 <= i < |PERIOD_CODES| && PERIOD_CODES[i] == c;
      SamePeriods(i);
    }
    forall c | c in Codes(raw) ensures c in Timetable.Codes(raw) {
      var i :| 0 <= i < |raw| && raw[i] == c;
      assert Timetable.Upper(raw[i]) == c;
    }
  }

  lemma SamePeriods(i: nat)
    requires i < |PERIOD_CODES|
    ensures Timetable.Upper(PERIOD_CODES[i]) == PERIOD_CODES[i] && PERIOD_CODES[i] in Timetable.PERIODS
  {
    var at := [9, 0, 1, 2, 3, 10, 4, 5, 6, 7, 8, 11, 12, 13, 14];
    assert Timetable.PERIODS[at[i]] == PERIOD_CODES[i];
  }
}
