/** `frontend/src/lib/selectionGrid.ts`: school time tokens, and the merge of
    multi-day rows into one block per course. */
module SelectionGrid {
  import opened Wrappers
  import opened Timeslots
  import Timetable

  const CHOSEN := "選上"

  datatype Item = Item(state: string, times: Option<string>, courseId: Option<string>, code: Option<string>,
                       courseNo: Option<string>, name: string, teacher: string)

  /** `rest` of the course is copied from the first row of the key. */
  datatype Block = Block(key: string, item: Item, classTime: seq<string>)

  // ---------- one time token ----------

  /** What `String.prototype.trim` removes. */
  predicate IsSpace(c: char) {
    '\U{0009}' <= c <= '\U{000D}' || c == ' ' || c == '\U{00A0}' || c == '\U{1680}' || '\U{2000}' <= c <= '\U{200A}'
    || c == '\U{2028}' || c == '\U{2029}' || c == '\U{202F}' || c == '\U{205F}' || c == '\U{3000}' || c == '\U{FEFF}'
  }

  lemma SpacesAre(c: char)
    ensures IsSpace(c) <==>
      c as int in {9, 10, 11, 12, 13, 32, 160, 5760, 8192, 8193, 8194, 8195, 8196, 8197, 8198, 8199, 8200, 8201, 8202,
                   8232, 8233, 8239, 8287, 12288, 65279}
  {
  }

  function Trim(s: string): string {
    if s != "" && IsSpace(s[0]) then Trim(s[1..])
    else if s != "" && IsSpace(s[|s| - 1]) then Trim(s[..|s| - 1])
    else s
  }

  /** The pieces between half- or full-width commas. */
  function Pieces(s: string): (pieces: seq<string>)
    ensures pieces != []
  {
    if s == "" then [""]
    else
      var rest := Pieces(s[1..]);
      if Timetable.IsComma(s[0]) then [""] + rest else [[s[0]] + rest[0]] + rest[1..]
  }

  function Tokens(s: string): seq<string> {
    var pieces := Pieces(s);
    seq(|pieces|, i requires 0 <= i < |pieces| => Trim(pieces[i]))
  }

  /** What is trimmed away is spaces, and what is left neither begins nor ends
      with one. */
  lemma {:induction false} TrimIs(s: string) returns (i: nat, j: nat)
    ensures i <= j <= |s| && Trim(s) == s[i..j]
    ensures forall k :: 0 <= k < |s| && !(i <= k < j) ==> IsSpace(s[k])
    ensures i < j ==> !IsSpace(s[i]) && !IsSpace(s[j - 1])
    decreases |s|
  {
    if s != "" && IsSpace(s[0]) {
      i, j := TrimIs(s[1..]);
      assert s[1..][i..j] == s[i + 1..j + 1];
      assert forall k :: 0 < k < |s| ==> s[1..][k - 1] == s[k];
      i, j := i + 1, j + 1;
    } else if s != "" && IsSpace(s[|s| - 1]) {
      i, j := TrimIs(s[..|s| - 1]);
      assert s[..|s| - 1][i..j] == s[i..j];
    } else {
      i, j := 0, |s|;
    }
  }

  /** The pieces with commas between them. */
  ghost function Joined(pieces: seq<string>, commas: string): string
    requires |pieces| == |commas| + 1
  {
    if commas == "" then pieces[0] else pieces[0] + [commas[0]] + Joined(pieces[1..], commas[1..])
  }

  /** Commas of either width and nothing else separate the pieces. */
  lemma {:induction false} PiecesAreBetweenCommas(s: string) returns (commas: string)
    ensures |Pieces(s)| == |commas| + 1 && Joined(Pieces(s), commas) == s
    ensures forall i :: 0 <= i < |commas| ==> commas[i] in {',', '，'}
    ensures forall i, k :: 0 <= i < |Pieces(s)| && 0 <= k < |Pieces(s)[i]| ==> Pieces(s)[i][k] !in {',', '，'}
  {
    commas := "";
    if s != "" {
      var rest := Pieces(s[1..]);
      commas := PiecesAreBetweenCommas(s[1..]);
      assert s == [s[0]] + s[1..];
      if Timetable.IsComma(s[0]) {
        commas := [s[0]] + commas;
        assert Pieces(s)[1..] == rest;
      } else {
        assert Pieces(s)[1..] == rest[1..];
        assert Pieces(s)[0] == [s[0]] + rest[0];
      }
    }
  }

  predicate GoodToken(token: string) {
    |token| == 1 && token[0] in PERIOD_CODES
  }

  predicate GoodTokens(tokens: seq<string>) {
    forall i :: 0 <= i < |tokens| ==> GoodToken(tokens[i])
  }

  /** A weekday label, then single period codes between commas. */
  predicate WellFormed(times: string) {
    times != "" && times[0] in Timetable.WEEKDAYS && GoodTokens(Tokens(times[1..]))
  }

  function Heads(tokens: seq<string>): set<char> {
    if tokens == [] then {}
    else
      var token := tokens[|tokens| - 1];
      Heads(tokens[..|tokens| - 1]) + if token == "" then {} else {token[0]}
  }

  function Chars(s: string): set<char> {
    set i | 0 <= i < |s| :: s[i]
  }

  function Ordered(codes: set<char>): string {
    Timetable.InOrder(codes, PERIOD_CODES)
  }

  /** The periods a token names on a weekday. */
  function TokenPeriods(times: string, day: nat): set<char>
    requires WellFormed(times)
  {
    if day == Timetable.IndexOf(times[0], Timetable.WEEKDAYS) then Heads(Tokens(times[1..])) else {}
  }

  lemma {:induction false} HeadsMembers(tokens: seq<string>, c: char)
    requires GoodTokens(tokens)
    ensures c in Heads(tokens) <==> [c] in tokens
  {
    if tokens != [] {
      var front, last := tokens[..|tokens| - 1], tokens[|tokens| - 1];
      assert tokens == front + [last];
      HeadsMembers(front, c);
      assert last == [last[0]] && GoodToken(last);
    }
  }

  ghost predicate InSome(pieces: seq<string>, c: char) {
    exists i :: 0 <= i < |pieces| && c in pieces[i]
  }

  lemma InNone(c: char)
    ensures !InSome([], c)
  {
  }

  lemma InSomeCons(piece: string, rest: seq<string>, c: char)
    ensures InSome([piece] + rest, c) <==> c in piece || InSome(rest, c)
  {
    var pieces := [piece] + rest;
    assert pieces[0] == piece && forall i :: 0 <= i < |rest| ==> pieces[i + 1] == rest[i];
    if InSome(pieces, c) && c !in piece {
      var i :| 0 <= i < |pieces| && c in pieces[i];
      assert c in rest[i - 1];
    }
  }

  lemma {:induction false} PieceMembers(s: string, c: char)
    requires c !in {',', '，'}
    ensures c in s <==> InSome(Pieces(s), c)
  {
    hide InSome;
    if s == "" {
      InNone(c);
      InSomeCons("", [], c);
      assert [""] + [] == [""];
    } else {
      var rest := Pieces(s[1..]);
      PieceMembers(s[1..], c);
      assert s == [s[0]] + s[1..];
      assert rest == [rest[0]] + rest[1..];
      InSomeCons("", rest, c);
      InSomeCons(rest[0], rest[1..], c);
      InSomeCons([s[0]] + rest[0], rest[1..], c);
    }
  }

  lemma TrimMembers(s: string, c: char)
    requires !IsSpace(c)
    ensures c in s <==> c in Trim(s)
  {
    var i, j := TrimIs(s);
    if c in s {
      var k :| 0 <= k < |s| && s[k] == c;
      assert Trim(s)[k - i] == c;
    }
  }

  /** The periods of a token are the period codes that stand after its weekday,
      each on that weekday and on no other. */
  lemma PeriodsNamed(times: string, day: nat, c: char)
    requires WellFormed(times)
    ensures c in TokenPeriods(times, day) <==>
      Timetable.IsDay(times[0], day) && c in "A1234B56789CDEF" && c in times[1..]
  {
    hide Tokens, Heads, GoodToken, Timetable.IsDay;
    Timetable.DayIs(times[0], day);
    HeadsMembers(Tokens(times[1..]), c);
    HeadsAreCodes(Tokens(times[1..]));
    if c in PERIOD_CODES {
      TokenNames(times[1..], c);
    }
  }

  lemma TokenNames(text: string, c: char)
    requires GoodTokens(Tokens(text)) && c in PERIOD_CODES
    ensures [c] in Tokens(text) <==> c in text
  {
    hide Pieces, Trim, IsSpace;
    var pieces, tokens := Pieces(text), Tokens(text);
    CodesArePlain(c);
    PieceMembers(text, c);
    forall i | 0 <= i < |tokens| ensures c in pieces[i] <==> tokens[i] == [c] {
      TrimMembers(pieces[i], c);
      assert GoodToken(tokens[i]);
    }
  }

  lemma CodesArePlain(c: char)
    requires c in PERIOD_CODES
    ensures !IsSpace(c) && c !in {',', '，'}
  {
  }

  ghost predicate IsSlots(slots: seq<string>, times: string)
    requires WellFormed(times)
  {
    |slots| == DAYS && forall day :: 0 <= day < DAYS ==> slots[day] == Ordered(TokenPeriods(times, day))
  }

  method ParseSchoolTimes(times: string) returns (parsed: Option<seq<string>>)
    ensures parsed.Some? <==> WellFormed(times)
    ensures parsed.Some? ==> |parsed.value| == DAYS && IsSlots(parsed.value, times)
  {
    hide Tokens, Ordered, Heads;
    if times == "" || times[0] !in Timetable.WEEKDAYS {
      return None;
    }
    var tokens := Tokens(times[1..]);
    for i := 0 to |tokens|
      invariant forall j :: 0 <= j < i ==> |tokens[j]| == 1
    {
      if |tokens[i]| != 1 {
        return None;
      }
    }
    var seen: set<char> := {};
    assert tokens[..0] == [] && tokens[..|tokens|] == tokens;
    NoHeads();
    for i := 0 to |tokens|
      invariant forall j :: 0 <= j < i ==> GoodToken(tokens[j])
      invariant seen == Heads(tokens[..i])
    {
      if tokens[i][0] !in PERIOD_CODES {
        return None;
      }
      HeadsSnoc(tokens, i);
      seen := seen + {tokens[i][0]};
    }
    var day := Timetable.IndexOf(times[0], Timetable.WEEKDAYS);
    NoneOrdered();
    var slots := seq(DAYS, d => "")[day := Ordered(seen)];
    return Some(slots);
  }

  lemma NoHeads()
    ensures Heads([]) == {}
  {
  }

  lemma HeadsSnoc(tokens: seq<string>, i: nat)
    requires i < |tokens| && tokens[i] != ""
    ensures Heads(tokens[..i + 1]) == Heads(tokens[..i]) + {tokens[i][0]}
  {
    assert tokens[..i + 1][..i] == tokens[..i];
  }

  lemma {:induction false} NoCodes(from: string)
    ensures Timetable.InOrder({}, from) == ""
  {
    if from != "" {
      NoCodes(from[1..]);
    }
  }

  lemma NoneOrdered()
    ensures Ordered({}) == ""
  {
    NoCodes(PERIOD_CODES);
  }

  lemma OrderedMembers(codes: set<char>)
    ensures forall c :: c in Ordered(codes) <==> c in codes && c in PERIOD_CODES
  {
    Timetable.InOrderCodes(codes, PERIOD_CODES);
  }

  // ---------- chronological order ----------

  predicate Chronological(slot: string) {
    && ValidDay(slot)
    && forall i, j :: 0 <= i < j < |slot| ==> PlaceOf(slot[i]) < PlaceOf(slot[j])
  }

  /** The position of a code in the day. */
  function PlaceOf(c: char): nat {
    if '1' <= c <= '4' then c as int - '0' as int
    else if c == 'B' then 5
    else if '5' <= c <= '9' then c as int - '5' as int + 6
    else if 'C' <= c <= 'F' then c as int - 'C' as int + 11
    else 0
  }

  lemma PlaceAt(i: nat)
    requires i < |PERIOD_CODES|
    ensures PlaceOf(PERIOD_CODES[i]) == i
  {
    assert PERIOD_CODES == ['A', '1', '2', '3', '4', 'B', '5', '6', '7', '8', '9', 'C', 'D', 'E', 'F'];
  }

  lemma {:induction false} OrderedFrom(codes: set<char>, k: nat)
    requires k <= |PERIOD_CODES|
    ensures var slot := Timetable.InOrder(codes, PERIOD_CODES[k..]);
      Chronological(slot) && forall i :: 0 <= i < |slot| ==> PlaceOf(slot[i]) >= k
    decreases |PERIOD_CODES| - k
  {
    if k < |PERIOD_CODES| {
      OrderedFrom(codes, k + 1);
      PlaceAt(k);
      assert PERIOD_CODES[k..][1..] == PERIOD_CODES[k + 1..];
    }
  }

  /** A filtered code list is chronological, whatever the set was. */
  lemma OrderedIsChronological(codes: set<char>)
    ensures Chronological(Ordered(codes))
  {
    OrderedFrom(codes, 0);
    assert PERIOD_CODES[0..] == PERIOD_CODES;
  }

  function UnionDaySlots(left: string, right: string): string {
    Ordered(Chars(left) + Chars(right))
  }

  lemma CharsOfOrdered(codes: set<char>)
    requires forall c :: c in codes ==> c in PERIOD_CODES
    ensures Chars(Ordered(codes)) == codes
  {
    OrderedMembers(codes);
    forall c | c in codes ensures c in Chars(Ordered(codes)) {
      assert c in Ordered(codes);
    }
  }

  lemma UnionOfOrdered(left: set<char>, right: set<char>)
    requires forall c :: c in left + right ==> c in PERIOD_CODES
    ensures UnionDaySlots(Ordered(left), Ordered(right)) == Ordered(left + right)
  {
    CharsOfOrdered(left);
    CharsOfOrdered(right);
  }

  lemma {:induction false} HeadsAreCodes(tokens: seq<string>)
    requires GoodTokens(tokens)
    ensures forall c :: c in Heads(tokens) ==> c in PERIOD_CODES
  {
    if tokens != [] {
      HeadsAreCodes(tokens[..|tokens| - 1]);
    }
  }

  // ---------- the merge ----------

  predicate Placed(item: Item) {
    item.state == CHOSEN && item.times.Some? && WellFormed(item.times.value)
  }

  predicate Unplaced(item: Item) {
    item.state == CHOSEN && !Placed(item)
  }

  function MergeKey(item: Item): string {
    if item.courseId.Some? then item.courseId.value
    else if item.code.Some? then item.code.value
    else if item.courseNo.Some? then item.courseNo.value
    else item.name + "|" + item.teacher
  }

  function RowPeriods(item: Item, day: nat): set<char> {
    if Placed(item) then TokenPeriods(item.times.value, day) else {}
  }

  /** The periods the rows of one key name on a weekday. */
  function Periods(items: seq<Item>, key: string, day: nat): set<char> {
    if items == [] then {}
    else
      var last := items[|items| - 1];
      Periods(items[..|items| - 1], key, day) + if MergeKey(last) == key then RowPeriods(last, day) else {}
  }

  predicate HasKey(items: seq<Item>, key: string) {
    exists i :: 0 <= i < |items| && Placed(items[i]) && MergeKey(items[i]) == key
  }

  function Keys(items: seq<Item>): seq<string> {
    if items == [] then []
    else
      var front, last := items[..|items| - 1], items[|items| - 1];
      Keys(front) + if Placed(last) && MergeKey(last) !in Keys(front) then [MergeKey(last)] else []
  }

  /** The row whose other fields a block copies. */
  function FirstRow(items: seq<Item>, key: string): Option<Item> {
    if items == [] then None
    else
      var before, last := FirstRow(items[..|items| - 1], key), items[|items| - 1];
      if before.None? && Placed(last) && MergeKey(last) == key then Some(last) else before
  }

  lemma FirstRowSnoc(items: seq<Item>, last: Item, key: string)
    ensures FirstRow(items + [last], key) ==
      if FirstRow(items, key).None? && Placed(last) && MergeKey(last) == key then Some(last) else FirstRow(items, key)
  {
    assert (items + [last])[..|items|] == items;
  }

  lemma {:induction false} FirstRowIsFirst(items: seq<Item>, key: string) returns (i: nat)
    requires FirstRow(items, key).Some?
    ensures i < |items| && FirstRow(items, key).value == items[i] && Placed(items[i]) && MergeKey(items[i]) == key
    ensures forall j :: 0 <= j < i ==> !(Placed(items[j]) && MergeKey(items[j]) == key)
  {
    var n := |items| - 1;
    if FirstRow(items[..n], key).Some? {
      i := FirstRowIsFirst(items[..n], key);
    } else {
      i := n;
      NoFirstRow(items[..n], key);
    }
  }

  lemma {:induction false} NoFirstRow(items: seq<Item>, key: string)
    requires FirstRow(items, key).None?
    ensures forall j :: 0 <= j < |items| ==> !(Placed(items[j]) && MergeKey(items[j]) == key)
  {
    if items != [] {
      NoFirstRow(items[..|items| - 1], key);
    }
  }

  function LeftOver(items: seq<Item>): seq<Item> {
    if items == [] then []
    else LeftOver(items[..|items| - 1]) + if Unplaced(items[|items| - 1]) then [items[|items| - 1]] else []
  }

  /** A block's slots are the ordered union of its rows' periods, day by day. */
  ghost predicate IsUnion(classTime: seq<string>, items: seq<Item>, key: string) {
    |classTime| == DAYS && forall day :: 0 <= day < DAYS ==> classTime[day] == Ordered(Periods(items, key, day))
  }

  lemma {:induction false} PeriodMembers(items: seq<Item>, key: string, day: nat, c: char)
    ensures c in Periods(items, key, day) <==>
      exists i :: 0 <= i < |items| && Placed(items[i]) && MergeKey(items[i]) == key && c in RowPeriods(items[i], day)
  {
    if items != [] {
      PeriodMembers(items[..|items| - 1], key, day, c);
    }
  }

  lemma {:induction false} KeysMembers(items: seq<Item>)
    ensures forall key :: key in Keys(items) <==> HasKey(items, key)
    ensures forall i, j :: 0 <= i < j < |Keys(items)| ==> Keys(items)[i] != Keys(items)[j]
  {
    hide Placed, MergeKey;
    if items != [] {
      var front, last := items[..|items| - 1], items[|items| - 1];
      KeysMembers(front);
      assert items == front + [last];
      forall key ensures HasKey(items, key) <==> HasKey(front, key) || (Placed(last) && MergeKey(last) == key) {
        HasKeySnoc(front, last, key);
      }
    }
  }

  lemma HasKeySnoc(front: seq<Item>, last: Item, key: string)
    ensures HasKey(front + [last], key) <==> HasKey(front, key) || (Placed(last) && MergeKey(last) == key)
  {
    var items := front + [last];
    assert forall i :: 0 <= i < |front| ==> items[i] == front[i];
    assert items[|front|] == last;
  }

  lemma {:induction false} PeriodsAreCodes(items: seq<Item>, key: string, day: nat)
    ensures forall c :: c in Periods(items, key, day) ==> c in PERIOD_CODES
  {
    if items != [] {
      PeriodsAreCodes(items[..|items| - 1], key, day);
      RowPeriodsAreCodes(items[|items| - 1], day);
    }
  }

  lemma RowPeriodsAreCodes(item: Item, day: nat)
    ensures forall c :: c in RowPeriods(item, day) ==> c in PERIOD_CODES
  {
    if Placed(item) {
      HeadsAreCodes(Tokens(item.times.value[1..]));
    }
  }

  datatype GridResult = GridResult(courses: seq<Block>, unplaced: seq<Item>)

  /** One block per key, in the order the keys first appeared. */
  ghost predicate IsGrid(r: GridResult, items: seq<Item>) {
    && |r.courses| == |Keys(items)|
    && (forall i ::
          0 <= i < |r.courses| ==>
            r.courses[i].key == Keys(items)[i] && IsUnion(r.courses[i].classTime, items, Keys(items)[i]))
    && (forall i :: 0 <= i < |r.courses| ==> FirstRow(items, r.courses[i].key) == Some(r.courses[i].item))
    && r.unplaced == LeftOver(items)
  }

  /** The locals of the loop after it has read `items`. */
  ghost predicate Read(items: seq<Item>, order: seq<string>, byKey: map<string, Block>, unplaced: seq<Item>) {
    && order == Keys(items) && unplaced == LeftOver(items)
    && (forall key :: key in byKey <==> key in order)
    && (forall key :: key in byKey ==> byKey[key].key == key && IsUnion(byKey[key].classTime, items, key))
    && (forall key :: key in byKey ==> FirstRow(items, key) == Some(byKey[key].item))
  }

  function MergedSlot(existing: string, extra: string): string {
    if extra != "" then UnionDaySlots(existing, extra) else existing
  }

  method MergeSlots(existing: seq<string>, parsed: seq<string>) returns (merged: seq<string>)
    requires |existing| == DAYS && |parsed| == DAYS
    ensures |merged| == DAYS && forall day :: 0 <= day < DAYS ==> merged[day] == MergedSlot(existing[day], parsed[day])
  {
    hide UnionDaySlots;
    merged := existing;
    for day := 0 to DAYS
      invariant |merged| == DAYS
      invariant forall d ::
        0 <= d < DAYS ==> merged[d] == if d < day then MergedSlot(existing[d], parsed[d]) else existing[d]
    {
      if parsed[day] != "" {
        merged := merged[day := UnionDaySlots(merged[day], parsed[day])];
      }
    }
  }

  lemma MergedIsUnion(items: seq<Item>, last: Item, existing: seq<string>, parsed: seq<string>, merged: seq<string>)
    requires Placed(last) && IsUnion(existing, items, MergeKey(last)) && IsSlots(parsed, last.times.value)
    requires |merged| == DAYS && forall day :: 0 <= day < DAYS ==> merged[day] == MergedSlot(existing[day], parsed[day])
    ensures IsUnion(merged, items + [last], MergeKey(last))
  {
    forall day | 0 <= day < DAYS ensures merged[day] == Ordered(Periods(items + [last], MergeKey(last), day)) {
      MergedDay(items, last, day, existing[day], parsed[day]);
    }
  }

  lemma MergedDay(items: seq<Item>, last: Item, day: nat, existing: string, extra: string)
    requires Placed(last) && existing == Ordered(Periods(items, MergeKey(last), day))
      && extra == Ordered(RowPeriods(last, day))
    ensures MergedSlot(existing, extra) == Ordered(Periods(items + [last], MergeKey(last), day))
  {
    PeriodsSnoc(items, last, MergeKey(last), day);
    PeriodsAreCodes(items, MergeKey(last), day);
    RowPeriodsAreCodes(last, day);
    var before, named := Periods(items, MergeKey(last), day), RowPeriods(last, day);
    UnionOfOrdered(before, named);
    if extra == "" {
      CharsOfOrdered(named);
      assert before + named == before;
    }
  }

  lemma PeriodsSnoc(items: seq<Item>, last: Item, key: string, day: nat)
    ensures Periods(items + [last], key, day) ==
      Periods(items, key, day) + if MergeKey(last) == key then RowPeriods(last, day) else {}
  {
    assert (items + [last])[..|items|] == items;
  }

  lemma UnionKept(items: seq<Item>, last: Item, key: string, classTime: seq<string>)
    requires IsUnion(classTime, items, key) && (!Placed(last) || MergeKey(last) != key)
    ensures IsUnion(classTime, items + [last], key)
  {
    forall day | 0 <= day < DAYS ensures classTime[day] == Ordered(Periods(items + [last], key, day)) {
      PeriodsSnoc(items, last, key, day);
      assert Periods(items, key, day) + {} == Periods(items, key, day);
    }
  }

  lemma {:induction false} NoRowsNoPeriods(items: seq<Item>, key: string, day: nat)
    requires key !in Keys(items)
    ensures Periods(items, key, day) == {}
  {
    if items != [] {
      NoRowsNoPeriods(items[..|items| - 1], key, day);
    }
  }

  lemma {:induction false} NoFirstOutside(items: seq<Item>, key: string)
    requires key !in Keys(items)
    ensures FirstRow(items, key).None?
  {
    if items != [] {
      NoFirstOutside(items[..|items| - 1], key);
    }
  }

  lemma FirstOfKey(items: seq<Item>, last: Item, parsed: seq<string>)
    requires Placed(last) && MergeKey(last) !in Keys(items) && IsSlots(parsed, last.times.value)
    ensures IsUnion(parsed, items + [last], MergeKey(last)) && FirstRow(items + [last], MergeKey(last)) == Some(last)
  {
    NoFirstOutside(items, MergeKey(last));
    FirstRowSnoc(items, last, MergeKey(last));
    forall day | 0 <= day < DAYS ensures parsed[day] == Ordered(Periods(items + [last], MergeKey(last), day)) {
      PeriodsSnoc(items, last, MergeKey(last), day);
      NoRowsNoPeriods(items, MergeKey(last), day);
      assert {} + RowPeriods(last, day) == RowPeriods(last, day);
    }
  }

  lemma ReadSnoc(items: seq<Item>, last: Item, order: seq<string>, byKey: map<string, Block>, unplaced: seq<Item>,
        order2: seq<string>, byKey2: map<string, Block>, unplaced2: seq<Item>)
    requires Read(items, order, byKey, unplaced)
    requires unplaced2 == unplaced + if Unplaced(last) then [last] else []
    requires order2 == order + if Placed(last) && MergeKey(last) !in order then [MergeKey(last)] else []
    requires forall key ::
      !Placed(last) || key != MergeKey(last) ==>
        (key in byKey2 <==> key in byKey) && (key in byKey ==> byKey2[key] == byKey[key])
    requires Placed(last) ==> MergeKey(last) in byKey2 && byKey2[MergeKey(last)].key == MergeKey(last)
    requires Placed(last) ==> FirstRow(items + [last], MergeKey(last)) == Some(byKey2[MergeKey(last)].item)
    requires Placed(last) ==> IsUnion(byKey2[MergeKey(last)].classTime, items + [last], MergeKey(last))
    ensures Read(items + [last], order2, byKey2, unplaced2)
  {
    hide IsUnion, Placed, MergeKey, FirstRow;
    assert (items + [last])[..|items|] == items;
    forall key | key in byKey2 ensures FirstRow(items + [last], key) == Some(byKey2[key].item) {
      FirstRowSnoc(items, last, key);
    }
    forall key | key in byKey2 ensures byKey2[key].key == key && IsUnion(byKey2[key].classTime, items + [last], key) {
      if !Placed(last) || key != MergeKey(last) {
        UnionKept(items, last, key, byKey[key].classTime);
      }
    }
  }

  method BuildSelectionGridCourses(items: seq<Item>) returns (r: GridResult)
    ensures IsGrid(r, items)
  {
    hide IsUnion, Placed, MergeKey, WellFormed, Read, IsSlots, FirstRow;
    var order: seq<string>, byKey: map<string, Block>, unplaced: seq<Item> := [], map[], [];
    ReadNothing();
    assert items[..0] == [] && items[..|items|] == items;
    for i := 0 to |items|
      invariant Read(items[..i], order, byKey, unplaced)
    {
      var item := items[i];
      assert items[..i + 1] == items[..i] + [item];
      ghost var orderWas, byKeyWas, unplacedWas := order, byKey, unplaced;
      Step(items[..i], item, order, byKey, unplaced);
      if item.state == CHOSEN {
        var parsed := None;
        if item.times.Some? {
          parsed := ParseSchoolTimes(item.times.value);
        }
        PlacedExactly(item);
        if parsed.None? {
          unplaced := unplaced + [item];
        } else {
          var key := MergeKey(item);
          if key !in byKey {
            FirstOfKey(items[..i], item, parsed.value);
            order := order + [key];
            byKey := byKey[key := Block(key, item, parsed.value)];
          } else {
            var existing := byKey[key];
            var merged := MergeSlots(existing.classTime, parsed.value);
            FirstRowSnoc(items[..i], item, key);
            MergedIsUnion(items[..i], item, existing.classTime, parsed.value, merged);
            byKey := byKey[key := existing.(classTime := merged)];
          }
        }
      }
      PlacedExactly(item);
      ReadSnoc(items[..i], item, orderWas, byKeyWas, unplacedWas, order, byKey, unplaced);
    }
    Step(items, Item("", None, None, None, None, "", ""), order, byKey, unplaced);
    r := GridResult(seq(|order|, i requires 0 <= i < |order| => byKey[order[i]]), unplaced);
    GridOfRead(items, order, byKey, unplaced, r);
  }

  lemma ReadNothing()
    ensures Read([], [], map[], [])
  {
  }

  lemma PlacedExactly(item: Item)
    ensures Placed(item) <==> item.state == CHOSEN && item.times.Some? && WellFormed(item.times.value)
  {
  }

  /** What one step needs of `Read`. */
  lemma Step(items: seq<Item>, item: Item, order: seq<string>, byKey: map<string, Block>, unplaced: seq<Item>)
    requires Read(items, order, byKey, unplaced)
    ensures order == Keys(items) && forall key :: key in byKey <==> key in order
    ensures MergeKey(item) in byKey ==> byKey[MergeKey(item)].key == MergeKey(item)
    ensures MergeKey(item) in byKey ==> |byKey[MergeKey(item)].classTime| == DAYS
    ensures MergeKey(item) in byKey ==> FirstRow(items, MergeKey(item)) == Some(byKey[MergeKey(item)].item)
    ensures MergeKey(item) in byKey ==> IsUnion(byKey[MergeKey(item)].classTime, items, MergeKey(item))
  {
  }

  lemma GridOfRead(items: seq<Item>, order: seq<string>, byKey: map<string, Block>, unplaced: seq<Item>, r: GridResult)
    requires Read(items, order, byKey, unplaced) && r.unplaced == unplaced
    requires |r.courses| == |order| && forall i :: 0 <= i < |order| ==> r.courses[i] == byKey[order[i]]
    ensures IsGrid(r, items)
  {
  }

  // ---------- what the grid means ----------

  lemma {:induction false} LeftOverMembers(items: seq<Item>)
    ensures forall item :: item in LeftOver(items) <==> item in items && Unplaced(item)
  {
    hide Unplaced;
    if items != [] {
      LeftOverMembers(items[..|items| - 1]);
      assert items == items[..|items| - 1] + [items[|items| - 1]];
    }
  }

  /** The rows that are one course: of one course id, else of one code, else of
      one short number, else of one name and teacher. */
  function CourseOf(item: Item): string {
    match (item.courseId, item.code, item.courseNo)
    case (Some(id), _, _) => id
    case (None, Some(code), _) => code
    case (None, None, Some(no)) => no
    case (None, None, None) => item.name + "|" + item.teacher
  }

  lemma RowIsShown(items: seq<Item>, r: GridResult, item: Item)
    requires IsGrid(r, items) && item in items
    ensures item in r.unplaced <==> Unplaced(item)
    ensures Placed(item) ==> exists b ::
      && 0 <= b < |r.courses| && r.courses[b].key == MergeKey(item)
      && forall other :: 0 <= other < |r.courses| && r.courses[other].key == MergeKey(item) ==> other == b
    ensures Placed(item) ==> forall b, day, c ::
      0 <= b < |r.courses| && r.courses[b].key == MergeKey(item) && 0 <= day < DAYS && c in RowPeriods(item, day) ==>
        c in r.courses[b].classTime[day]
  {
    LeftOverMembers(items);
    KeysMembers(items);
    var i :| 0 <= i < |items| && items[i] == item;
    if Placed(item) {
      assert HasKey(items, MergeKey(item));
      var b :| 0 <= b < |Keys(items)| && Keys(items)[b] == MergeKey(item);
      assert r.courses[b].key == MergeKey(item);
      forall b, day, c | 0 <= b < |r.courses| && r.courses[b].key == MergeKey(item) && 0 <= day < DAYS
        && c in RowPeriods(item, day)
        ensures c in r.courses[b].classTime[day]
      {
        BlockPeriods(items, r, b, day, c);
      }
    }
  }

  /** Every chosen row is shown once: among the unplaced, when its times cannot be
      read, or in the one block of its course, all of whose periods it has there.
      Other rows are in neither. */
  lemma EveryRowIsShown(items: seq<Item>, r: GridResult, item: Item)
    requires IsGrid(r, items) && item in items
    ensures item in r.unplaced <==>
      item.state == "選上" && (item.times.None? || !WellFormed(item.times.value))
    ensures item.state == "選上" && item.times.Some? && WellFormed(item.times.value) ==> exists b ::
      && 0 <= b < |r.courses| && r.courses[b].key == CourseOf(item)
      && forall other :: 0 <= other < |r.courses| && r.courses[other].key == CourseOf(item) ==> other == b
    ensures item.state == "選上" && item.times.Some? && WellFormed(item.times.value) ==> forall b, day, c ::
      && 0 <= b < |r.courses| && r.courses[b].key == CourseOf(item) && 0 <= day < DAYS
      && c in TokenPeriods(item.times.value, day) ==>
        c in r.courses[b].classTime[day]
  {
    hide IsGrid, WellFormed, TokenPeriods;
    assert MergeKey(item) == CourseOf(item);
    RowIsShown(items, r, item);
    if Placed(item) {
      assert forall day: nat :: RowPeriods(item, day) == TokenPeriods(item.times.value, day);
    }
  }

  /** A block shows exactly the periods its rows name, in chronological order. */
  lemma BlockPeriods(items: seq<Item>, r: GridResult, b: nat, day: nat, c: char)
    requires IsGrid(r, items) && b < |r.courses| && day < DAYS
    ensures c in r.courses[b].classTime[day] <==>
      exists i ::
        0 <= i < |items| && Placed(items[i]) && MergeKey(items[i]) == r.courses[b].key && c in RowPeriods(items[i], day)
    ensures Chronological(r.courses[b].classTime[day])
  {
    var key := r.courses[b].key;
    PeriodMembers(items, key, day, c);
    PeriodsAreCodes(items, key, day);
    OrderedMembers(Periods(items, key, day));
    OrderedIsChronological(Periods(items, key, day));
  }

  lemma PeriodsIgnoreOrder(a: seq<Item>, b: seq<Item>, key: string, day: nat)
    requires forall item :: item in a ==> item in b
    ensures Periods(a, key, day) <= Periods(b, key, day)
  {
    forall c | c in Periods(a, key, day) ensures c in Periods(b, key, day) {
      PeriodMembers(a, key, day, c);
      PeriodMembers(b, key, day, c);
      var i :| 0 <= i < |a| && Placed(a[i]) && MergeKey(a[i]) == key && c in RowPeriods(a[i], day);
      assert a[i] in a;
      var j :| 0 <= j < |b| && b[j] == a[i];
    }
  }

  /** The slots of a block do not depend on the order of the rows. */
  lemma MergeIgnoresOrder(a: seq<Item>, b: seq<Item>, ra: GridResult, rb: GridResult, i: nat, j: nat)
    requires forall item :: item in a <==> item in b
    requires IsGrid(ra, a) && IsGrid(rb, b)
    requires i < |ra.courses| && j < |rb.courses| && ra.courses[i].key == rb.courses[j].key
    ensures ra.courses[i].classTime == rb.courses[j].classTime
  {
    var key := ra.courses[i].key;
    forall day: nat | day < DAYS ensures Periods(a, key, day) == Periods(b, key, day) {
      PeriodsIgnoreOrder(a, b, key, day);
      PeriodsIgnoreOrder(b, a, key, day);
    }
  }
}
