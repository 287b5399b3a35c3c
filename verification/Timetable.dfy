/** `write/timetable.py`: period codes, the clash rule, and the fused time cell. */
module Timetable {
  import opened Wrappers

  const PERIODS := "123456789ABCDEF"
  const PERIOD_CODES: set<char> := set c | c in PERIODS
  const WEEKDAYS := "一二三四五六日"

  function Upper(c: char): char {
    if 'a' <= c <= 'z' then (c as int - 32) as char else c
  }

  predicate Known(c: char) {
    Upper(c) in PERIODS
  }

  /** The code set of a day string, whatever its characters. */
  function Codes(raw: string): set<char> {
    set i | 0 <= i < |raw| :: Upper(raw[i])
  }

  predicate AllKnown(raw: string) {
    forall i :: 0 <= i < |raw| ==> Known(raw[i])
  }

  /** The error is the first unknown character. */
  method ParseDayString(raw: string) returns (parsed: Result<set<char>, char>)
    ensures parsed.Ok? <==> AllKnown(raw)
    ensures parsed.Ok? ==> parsed.value == Codes(raw)
    ensures parsed.Err? ==> exists i :: 0 <= i < |raw| && raw[i] == parsed.error && !Known(raw[i]) && AllKnown(raw[..i])
  {
    var codes: set<char> := {};
    for i := 0 to |raw|
      invariant codes == Codes(raw[..i])
      invariant AllKnown(raw[..i])
    {
      if !Known(raw[i]) {
        return Err(raw[i]);
      }
      codes := codes + {Upper(raw[i])};
      assert Codes(raw[..i + 1]) == Codes(raw[..i]) + {Upper(raw[i])} by {
        assert raw[..i + 1] == raw[..i] + [raw[i]];
        CodesSnoc(raw[..i], raw[i]);
      }
    }
    assert raw[..|raw|] == raw;
    return Ok(codes);
  }

  lemma CodesSnoc(raw: string, c: char)
    ensures Codes(raw + [c]) == Codes(raw) + {Upper(c)}
  {
    forall x | x in Codes(raw) + {Upper(c)} ensures x in Codes(raw + [c]) {
      if x in Codes(raw) {
        var i :| 0 <= i < |raw| && Upper(raw[i]) == x;
        assert Upper((raw + [c])[i]) == x;
      } else {
        assert Upper((raw + [c])[|raw|]) == x;
      }
    }
  }

  function Slot(time: seq<string>, day: nat): string {
    if day < |time| then time[day] else ""
  }

  /** Two timetables share a period on some weekday. */
  predicate Clash(a: seq<string>, b: seq<string>) {
    exists d :: 0 <= d < 7 && ClashOn(a, b, d)
  }

  predicate ClashOn(a: seq<string>, b: seq<string>, day: nat) {
    Codes(Slot(a, day)) * Codes(Slot(b, day)) != {}
  }

  predicate ValidTime(time: seq<string>) {
    forall d :: 0 <= d < 7 ==> AllKnown(Slot(time, d))
  }

  /** Whenever it answers, it answers whether the two clash; it always answers
      on valid timetables. */
  method IsConflictDays(a: seq<string>, b: seq<string>) returns (answer: Result<bool, char>)
    ensures answer.Ok? ==> answer.value == Clash(a, b)
    ensures ValidTime(a) && ValidTime(b) ==> answer.Ok?
  {
    for day := 0 to 7
      invariant forall d :: 0 <= d < day ==> !ClashOn(a, b, d)
    {
      var codesA := ParseDayString(Slot(a, day));
      if codesA.Err? {
        return Err(codesA.error);
      }
      if codesA.value == {} {
        continue;
      }
      var codesB := ParseDayString(Slot(b, day));
      if codesB.Err? {
        return Err(codesB.error);
      }
      if codesA.value * codesB.value != {} {
        assert ClashOn(a, b, day);
        return Ok(true);
      }
    }
    return Ok(false);
  }

  lemma ClashSymmetric(a: seq<string>, b: seq<string>)
    ensures Clash(a, b) <==> Clash(b, a)
  {
    forall d | 0 <= d < 7 ensures ClashOn(a, b, d) <==> ClashOn(b, a, d) {
      assert Codes(Slot(a, d)) * Codes(Slot(b, d)) == Codes(Slot(b, d)) * Codes(Slot(a, d));
    }
  }

  /** Two characters name one period: they are equal, or one is the small letter
      of the other. */
  predicate SamePeriod(x: char, y: char) {
    x == y || ('a' <= x <= 'z' && x as int == y as int + 32) || ('a' <= y <= 'z' && y as int == x as int + 32)
  }

  /** The characters that name a period. */
  lemma KnownExactly(c: char)
    ensures Known(c) <==> '1' <= c <= '9' || 'A' <= c <= 'F' || 'a' <= c <= 'f'
  {
    assert PERIODS == ['1', '2', '3', '4', '5', '6', '7', '8', '9', 'A', 'B', 'C', 'D', 'E', 'F'];
    var u := Upper(c);
    if '1' <= u <= '9' {
      assert PERIODS[u as int - '1' as int] == u;
    } else if 'A' <= u <= 'F' {
      assert PERIODS[9 + u as int - 'A' as int] == u;
    }
  }

  /** Two timetables clash exactly when on one of the seven weekdays both have a
      character of the same period, whatever its case. */
  lemma ClashExactly(a: seq<string>, b: seq<string>)
    ensures Clash(a, b) <==> exists d, i, j ::
      && 0 <= d < 7 && d < |a| && d < |b| && 0 <= i < |a[d]| && 0 <= j < |b[d]|
      && SamePeriod(a[d][i], b[d][j])
  {
    if Clash(a, b) {
      var d :| 0 <= d < 7 && ClashOn(a, b, d);
      var c :| c in Codes(Slot(a, d)) * Codes(Slot(b, d));
      var i :| 0 <= i < |a[d]| && Upper(a[d][i]) == c;
      var j :| 0 <= j < |b[d]| && Upper(b[d][j]) == c;
      assert SamePeriod(a[d][i], b[d][j]);
    }
    forall d, i, j | 0 <= d < 7 && d < |a| && d < |b| && 0 <= i < |a[d]| && 0 <= j < |b[d]|
      && SamePeriod(a[d][i], b[d][j])
      ensures Clash(a, b)
    {
      assert Upper(a[d][i]) in Codes(Slot(a, d)) * Codes(Slot(b, d));
      assert ClashOn(a, b, d);
    }
  }

  // ---------- the fused cell of slt_result ----------

  predicate IsComma(c: char) {
    c == ',' || c == '，'
  }

  /** The character class of the period run. It holds `0`, which is no period,
      and stops at E, although F is one. */
  predicate InRun(c: char) {
    '0' <= c <= '9' || 'A' <= c <= 'E' || 'a' <= c <= 'e' || IsComma(c)
  }

  predicate Fused(cell: string) {
    |cell| >= 2 && cell[0] in WEEKDAYS && forall i :: 1 <= i < |cell| ==> InRun(cell[i])
  }

  function WithoutCommas(run: string): string {
    if run == "" then ""
    else (if IsComma(run[0]) then "" else [run[0]]) + WithoutCommas(run[1..])
  }

  function IndexOf(c: char, s: string): nat
    requires c in s
    ensures IndexOf(c, s) < |s| && s[IndexOf(c, s)] == c
  {
    if s[0] == c then 0 else 1 + IndexOf(c, s[1..])
  }

  /** `sorted` on period codes is the order of `PERIODS`. */
  function InOrder(codes: set<char>, from: string): string {
    if from == "" then "" else (if from[0] in codes then [from[0]] else "") + InOrder(codes, from[1..])
  }

  function FirstUnknown(raw: string): char
    requires !AllKnown(raw)
    decreases raw
  {
    if Known(raw[0]) then FirstUnknown(raw[1..]) else raw[0]
  }

  /** What the fused cell says, if anything. */
  function FusedDays(times: Option<string>): Result<Option<seq<string>>, char> {
    if times.None? || !Fused(times.value) then Ok(None)
    else
      var run := WithoutCommas(times.value[1..]);
      if AllKnown(run) then
        Ok(Some(seq(7, i => "")[IndexOf(times.value[0], WEEKDAYS) := InOrder(Codes(run), PERIODS)]))
      else Err(FirstUnknown(run))
  }

  lemma {:induction false} FirstUnknownIs(raw: string, i: nat)
    requires i < |raw| && !Known(raw[i]) && AllKnown(raw[..i])
    ensures FirstUnknown(raw) == raw[i]
  {
    if i > 0 {
      assert Known(raw[..i][0]);
      assert raw[1..][..i - 1] == raw[..i][1..];
      FirstUnknownIs(raw[1..], i - 1);
    }
  }

  /** `times` after `strip`; absent and empty cells have no timetable. */
  method DaysFromFused(times: Option<string>) returns (days: Result<Option<seq<string>>, char>)
    ensures days == FusedDays(times)
    ensures times.None? || !Fused(times.value) ==> days == Ok(None)
    ensures times.Some? && Fused(times.value) ==>
      (days.Ok? <==> '0' !in times.value[1..])
      && (days.Ok? ==> days.value.Some? && IsFusedDays(times.value, days.value.value))
  {
    if times.None? || !Fused(times.value) {
      return Ok(None);
    }
    var cell := times.value;
    var run := WithoutCommas(cell[1..]);
    RunMembers(cell[1..]);
    var periods := ParseDayString(run);
    RunKnown(cell[1..]);
    if periods.Err? {
      ghost var i :| 0 <= i < |run| && run[i] == periods.error && !Known(run[i]) && AllKnown(run[..i]);
      FirstUnknownIs(run, i);
      return Err(periods.error);
    }
    var day := IndexOf(cell[0], WEEKDAYS);
    var slots := seq(7, i => "")[day := InOrder(periods.value, PERIODS)];
    FusedSlots(cell, periods.value, slots);
    return Ok(Some(slots));
  }

  /** Seven slots, the named weekday holding exactly the run's periods. */
  ghost predicate IsFusedDays(cell: string, slots: seq<string>)
    requires Fused(cell)
  {
    && |slots| == 7 && ValidTime(slots)
    && forall d :: 0 <= d < 7 ==>
         Codes(slots[d]) == if d == IndexOf(cell[0], WEEKDAYS) then Codes(WithoutCommas(cell[1..])) else {}
  }

  lemma {:induction false} RunMembers(run: string)
    ensures forall c :: c in WithoutCommas(run) <==> c in run && !IsComma(c)
  {
    if run != "" {
      RunMembers(run[1..]);
      assert run == [run[0]] + run[1..];
    }
  }

  lemma ZeroIsNoComma()
    ensures !IsComma('0')
  {
  }

  lemma RunKnown(run: string)
    requires forall i :: 0 <= i < |run| ==> InRun(run[i])
    ensures AllKnown(WithoutCommas(run)) <==> '0' !in run
  {
    hide Known, InRun, IsComma, WithoutCommas;
    RunMembers(run);
    var w := WithoutCommas(run);
    assert forall c :: c in run ==> InRun(c);
    assert !IsComma('0') by {
      ZeroIsNoComma();
    }
    forall i | 0 <= i < |w| ensures Known(w[i]) <==> w[i] != '0' {
      assert w[i] in run && !IsComma(w[i]);
      KnownInRun(w[i]);
    }
    if '0' in run {
      assert '0' in w;
    }
  }

  lemma KnownInRun(c: char)
    requires InRun(c) && !IsComma(c)
    ensures Known(c) <==> c != '0'
  {
    assert PERIODS == ['1', '2', '3', '4', '5', '6', '7', '8', '9', 'A', 'B', 'C', 'D', 'E', 'F'];
    var u := Upper(c);
    assert c != '0' ==> '1' <= u <= '9' || 'A' <= u <= 'E';
    if '1' <= u <= '9' {
      assert PERIODS[u as int - '1' as int] == u;
    } else if 'A' <= u <= 'E' {
      assert PERIODS[9 + u as int - 'A' as int] == u;
    }
  }

  lemma {:induction false} InOrderCodes(codes: set<char>, from: string)
    ensures forall c :: c in InOrder(codes, from) <==> c in codes && c in from
  {
    if from != "" {
      InOrderCodes(codes, from[1..]);
      assert from == [from[0]] + from[1..];
    }
  }

  lemma FusedSlots(cell: string, codes: set<char>, slots: seq<string>)
    requires Fused(cell) && codes == Codes(WithoutCommas(cell[1..])) && AllKnown(WithoutCommas(cell[1..]))
    requires slots == seq(7, i => "")[IndexOf(cell[0], WEEKDAYS) := InOrder(codes, PERIODS)]
    ensures IsFusedDays(cell, slots)
  {
    hide WithoutCommas, Codes, AllKnown, InOrder;
    CodesArePeriods(WithoutCommas(cell[1..]));
    OrderedCodes(codes);
    NoCodesNoChars();
  }

  lemma CodesArePeriods(raw: string)
    requires AllKnown(raw)
    ensures forall c :: c in Codes(raw) ==> c in PERIODS
  {
  }

  lemma NoCodesNoChars()
    ensures Codes("") == {} && AllKnown("")
  {
  }

  lemma UpperPeriods(c: char)
    requires c in PERIODS
    ensures Upper(c) == c
  {
  }

  lemma OrderedCodes(codes: set<char>)
    requires forall c :: c in codes ==> c in PERIODS
    ensures Codes(InOrder(codes, PERIODS)) == codes && AllKnown(InOrder(codes, PERIODS))
  {
    var text := InOrder(codes, PERIODS);
    InOrderCodes(codes, PERIODS);
    forall c | c in PERIODS ensures Upper(c) == c {
      UpperPeriods(c);
    }
    hide Upper;
    forall c ensures c in Codes(text) <==> c in codes {
      if c in codes {
        assert c in text;
        var i :| 0 <= i < |text| && text[i] == c;
        assert Upper(text[i]) == c;
      }
    }
    forall i | 0 <= i < |text| ensures Known(text[i]) {
      assert text[i] in text;
    }
  }

  /** The characters stand in the order of their code points. */
  ghost predicate Ascends(s: string) {
    forall i, j :: 0 <= i < j < |s| ==> s[i] < s[j]
  }

  lemma {:induction false} InOrderAscends(codes: set<char>, from: string)
    requires Ascends(from)
    ensures Ascends(InOrder(codes, from))
  {
    if from != "" {
      InOrderAscends(codes, from[1..]);
      InOrderCodes(codes, from[1..]);
      var rest, text := InOrder(codes, from[1..]), InOrder(codes, from);
      forall j | 0 <= j < |rest| ensures from[0] < rest[j] {
        assert rest[j] in from[1..];
        var k :| 0 <= k < |from[1..]| && from[1..][k] == rest[j];
        assert from[k + 1] == rest[j];
      }
      if from[0] in codes {
        assert text == [from[0]] + rest;
      } else {
        assert text == rest;
      }
    }
  }

  /** The place of a weekday in the week. */
  predicate IsDay(c: char, d: nat) {
    (c == '一' && d == 0) || (c == '二' && d == 1) || (c == '三' && d == 2) || (c == '四' && d == 3)
    || (c == '五' && d == 4) || (c == '六' && d == 5) || (c == '日' && d == 6)
  }

  lemma DayIs(c: char, d: nat)
    ensures c in WEEKDAYS && IndexOf(c, WEEKDAYS) == d <==> IsDay(c, d)
  {
    assert WEEKDAYS == ['一', '二', '三', '四', '五', '六', '日'];
    if c in WEEKDAYS {
      assert IsDay(WEEKDAYS[IndexOf(c, WEEKDAYS)], IndexOf(c, WEEKDAYS));
    }
  }

  /** Which cells have a timetable: a weekday, then at least one of the digits, the
      letters A to E in either case and the commas, no zero among them. */
  lemma FusedExactly(cell: string)
    ensures FusedDays(Some(cell)) != Ok(None) <==>
      && |cell| >= 2 && (exists d :: IsDay(cell[0], d))
      && forall i :: 1 <= i < |cell| ==>
        '0' <= cell[i] <= '9' || 'A' <= cell[i] <= 'E' || 'a' <= cell[i] <= 'e' || cell[i] in {',', '，'}
  {
    if |cell| >= 2 {
      forall d: nat ensures IsDay(cell[0], d) <==> cell[0] in WEEKDAYS && IndexOf(cell[0], WEEKDAYS) == d {
        DayIs(cell[0], d);
      }
      if cell[0] in WEEKDAYS {
        assert IsDay(cell[0], IndexOf(cell[0], WEEKDAYS));
      }
    }
  }

  /** What it says: a period stands in slot `d` exactly when `d` is the place of
      the cell's weekday and the cell names the period after it; the slot is in
      the order of the code points. */
  lemma FusedReads(cell: string, slots: seq<string>, d: nat, c: char)
    requires FusedDays(Some(cell)) == Ok(Some(slots)) && d < 7
    ensures |slots| == 7
    ensures c in slots[d] <==>
      IsDay(cell[0], d) && ('1' <= c <= '9' || 'A' <= c <= 'E')
      && exists i :: 1 <= i < |cell| && SamePeriod(cell[i], c)
    ensures Ascends(slots[d])
  {
    hide InOrder, SamePeriod, Codes, AllKnown, IsDay;
    var codes := Codes(WithoutCommas(cell[1..]));
    DayIs(cell[0], d);
    InOrderCodes(codes, PERIODS);
    PeriodsAscend();
    InOrderAscends(codes, PERIODS);
    assert slots[d] == if IsDay(cell[0], d) then InOrder(codes, PERIODS) else "";
    RunNames(cell, c);
  }

  lemma RunNames(cell: string, c: char)
    requires Fused(cell)
    ensures c in Codes(WithoutCommas(cell[1..])) && c in PERIODS <==>
      ('1' <= c <= '9' || 'A' <= c <= 'E') && exists i :: 1 <= i < |cell| && SamePeriod(cell[i], c)
  {
    var tail := cell[1..];
    var run := WithoutCommas(tail);
    RunMembers(tail);
    PeriodsAscend();
    forall i | 1 <= i < |cell| && SamePeriod(cell[i], c) && ('1' <= c <= '9' || 'A' <= c <= 'E')
      ensures c in Codes(run)
    {
      assert cell[i] == tail[i - 1] && cell[i] in run;
      var k :| 0 <= k < |run| && run[k] == cell[i];
      assert Upper(run[k]) == c;
    }
    if c in Codes(run) && c in PERIODS {
      var k :| 0 <= k < |run| && Upper(run[k]) == c;
      assert run[k] in tail;
      var i :| 0 <= i < |tail| && tail[i] == run[k];
      assert cell[i + 1] == tail[i] && InRun(cell[i + 1]) && SamePeriod(cell[i + 1], c);
    }
  }

  lemma PeriodsAscend()
    ensures Ascends(PERIODS)
    ensures forall c :: c in PERIODS <==> '1' <= c <= '9' || 'A' <= c <= 'F'
  {
    assert PERIODS == ['1', '2', '3', '4', '5', '6', '7', '8', '9', 'A', 'B', 'C', 'D', 'E', 'F'];
    forall c ensures c in PERIODS <==> '1' <= c <= '9' || 'A' <= c <= 'F' {
      KnownExactly(c);
    }
  }

  predicate NamesF(cell: string) {
    exists i :: 1 <= i < |cell| && cell[i] in {'F', 'f'}
  }

  /** Period F is a period, but no fused cell that names it, among whatever
      others, has a timetable. */
  lemma FusedCellsNeverReadF(cell: string)
    requires NamesF(cell)
    ensures Known('F') && Known('f')
    ensures FusedDays(Some(cell)) == Ok(None)
  {
    assert PERIODS[14] == 'F';
    var i :| 1 <= i < |cell| && cell[i] in {'F', 'f'};
    assert !InRun(cell[i]);
  }
}
