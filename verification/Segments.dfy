/** `write/canonical.py`, the text half: `act:code:TT|...`, its parser, and the
    idempotency key built on it. */
module Segments {
  import opened Wrappers
  import opened Digits
  import opened Ops
  import Canonical

  datatype ParseError =
    | Malformed(segment: string)
    | MissingPriority(segment: string)
    | StrayPriority(segment: string)

  // ---------- str.join, str.split, str.partition ----------

  function Join(parts: seq<string>, sep: char): string {
    if parts == [] then ""
    else if |parts| == 1 then parts[0]
    else parts[0] + [sep] + Join(parts[1..], sep)
  }

  /** Always at least one piece: `"".split("|")` is `[""]`. */
  function Split(s: string, sep: char): (pieces: seq<string>)
    ensures pieces != []
  {
    if s == "" then [""]
    else
      var rest := Split(s[1..], sep);
      if s[0] == sep then [""] + rest else [[s[0]] + rest[0]] + rest[1..]
  }

  /** `str.partition`: what stands before the first `sep`, and what after it
      (`None` when there is none). */
  function Partition(s: string, sep: char): (string, Option<string>) {
    if s == "" then ("", None)
    else if s[0] == sep then ("", Some(s[1..]))
    else
      var (head, tail) := Partition(s[1..], sep);
      ([s[0]] + head, tail)
  }

  // ---------- printing ----------

  function ActionText(o: Op): string {
    match o
    case Drop(_) => "-"
    case Add(_, _) => "+"
    case Rest(_) => "N"
  }

  function Segment(o: Op): string {
    ActionText(o) + ":" + o.code + ":" + (if o.Add? then Pad2(o.priority) else "")
  }

  function SegmentList(ops: seq<Op>): seq<string> {
    seq(|ops|, i requires 0 <= i < |ops| => Segment(ops[i]))
  }

  function Print(ops: seq<Op>): string {
    Join(SegmentList(ops), '|')
  }

  method CanonicalSegments(ops: seq<Op>) returns (text: string)
    ensures text == Print(ops)
  {
    var segments := [];
    for i := 0 to |ops|
      invariant segments == SegmentList(ops)[..i]
    {
      var tt := if ops[i].Add? then Pad2(ops[i].priority) else "";
      segments := segments + [ActionText(ops[i]) + ":" + ops[i].code + ":" + tt];
    }
    assert SegmentList(ops)[..|ops|] == SegmentList(ops);
    text := Join(segments, '|');
  }

  // ---------- parsing ----------

  function ParseSegment(segment: string): Result<Op, ParseError> {
    var (action, rest) := Partition(segment, ':');
    if rest.None? || action !in {"-", "+", "N"} then Err(Malformed(segment))
    else
      var (code, tt) := Partition(rest.value, ':');
      if tt.None? || code == "" then Err(Malformed(segment))
      else if action == "+" then
        if AllDigits(tt.value) then Ok(Add(code, Number(tt.value))) else Err(MissingPriority(segment))
      else if tt.value != "" then Err(StrayPriority(segment))
      else if action == "-" then Ok(Drop(code))
      else Ok(Rest(code))
  }

  /** The first malformed segment decides. */
  function ParseAll(segments: seq<string>): Result<seq<Op>, ParseError> {
    if segments == [] then Ok([])
    else
      match ParseAll(segments[..|segments| - 1])
      case Err(e) => Err(e)
      case Ok(ops) =>
        match ParseSegment(segments[|segments| - 1])
        case Err(e) => Err(e)
        case Ok(o) => Ok(ops + [o])
  }

  function Parse(text: string): Result<seq<Op>, ParseError> {
    ParseAll(Split(text, '|'))
  }

  method ParseCanonicalSegments(text: string) returns (parsed: Result<seq<Op>, ParseError>)
    ensures parsed == Parse(text)
    ensures parsed.Ok? ==> parsed.value != [] && GoodCodes(parsed.value)
  {
    var segments := Split(text, '|');
    var ops: seq<Op> := [];
    ParsedCodesAreGood(text);
    for i := 0 to |segments|
      invariant ParseAll(segments[..i]) == Ok(ops)
    {
      assert segments[..i + 1][..i] == segments[..i];
      var one := ParseSegment(segments[i]);
      if one.Err? {
        ErrorStays(segments, i + 1);
        return Err(one.error);
      }
      ops := ops + [one.value];
    }
    assert segments[..|segments|] == segments;
    return Ok(ops);
  }

  lemma {:induction false} ErrorStays(segments: seq<string>, n: nat)
    requires n <= |segments| && ParseAll(segments[..n]).Err?
    ensures ParseAll(segments) == ParseAll(segments[..n])
    decreases |segments| - n
  {
    if n == |segments| {
      assert segments[..n] == segments;
    } else {
      assert segments[..n + 1][..n] == segments[..n];
      ErrorStays(segments, n + 1);
    }
  }

  // ---------- codes that survive the separators ----------

  predicate Free(s: string, c: char) {
    forall i :: 0 <= i < |s| ==> s[i] != c
  }

  predicate GoodCode(code: string) {
    code != "" && Free(code, ':') && Free(code, '|')
  }

  predicate GoodCodes(ops: seq<Op>) {
    forall i :: 0 <= i < |ops| ==> GoodCode(ops[i].code)
  }

  lemma {:induction false} SplitFree(s: string, sep: char)
    requires Free(s, sep)
    ensures Split(s, sep) == [s]
  {
    if s != "" {
      SplitFree(s[1..], sep);
      assert s == [s[0]] + s[1..];
    }
  }

  lemma {:induction false} SplitAt(head: string, tail: string, sep: char)
    requires Free(head, sep)
    ensures Split(head + [sep] + tail, sep) == [head] + Split(tail, sep)
  {
    var s := head + [sep] + tail;
    if head == "" {
      assert s == [sep] + tail;
      assert s[1..] == tail;
    } else {
      assert s[1..] == head[1..] + [sep] + tail;
      SplitAt(head[1..], tail, sep);
      assert head == [head[0]] + head[1..];
      assert s[0] != sep;
    }
  }

  lemma {:induction false} SplitOfJoin(parts: seq<string>, sep: char)
    requires parts != [] && forall i :: 0 <= i < |parts| ==> Free(parts[i], sep)
    ensures Split(Join(parts, sep), sep) == parts
  {
    if |parts| == 1 {
      SplitFree(parts[0], sep);
    } else {
      SplitOfJoin(parts[1..], sep);
      SplitAt(parts[0], Join(parts[1..], sep), sep);
    }
  }

  lemma {:induction false} SplitPiecesFree(s: string, sep: char)
    ensures forall i :: 0 <= i < |Split(s, sep)| ==> Free(Split(s, sep)[i], sep) && forall k ::
      0 <= k < |Split(s, sep)[i]| ==> Split(s, sep)[i][k] in s
  {
    if s != "" {
      SplitPiecesFree(s[1..], sep);
    }
  }

  lemma {:induction false} PartitionAt(head: string, tail: string, sep: char)
    requires Free(head, sep)
    ensures Partition(head + [sep] + tail, sep) == (head, Some(tail))
  {
    var s := head + [sep] + tail;
    if head == "" {
      assert s[1..] == tail;
    } else {
      assert s[1..] == head[1..] + [sep] + tail;
      PartitionAt(head[1..], tail, sep);
      assert s[0] == head[0] && [head[0]] + head[1..] == head;
    }
  }

  lemma {:induction false} PartitionHead(s: string, sep: char)
    ensures Free(Partition(s, sep).0, sep)
    ensures forall c: char ::
      Free(s, c) ==> Free(Partition(s, sep).0, c) && (Partition(s, sep).1.Some? ==> Free(Partition(s, sep).1.value, c))
  {
    if s != "" {
      PartitionHead(s[1..], sep);
      forall c: char | Free(s, c) ensures Free(s[1..], c) {
      }
    }
  }

  // ---------- the round trip ----------

  lemma SegmentRoundTrip(o: Op)
    requires GoodCode(o.code)
    ensures ParseSegment(Segment(o)) == Ok(o) && Free(Segment(o), '|')
  {
    var tt := if o.Add? then Pad2(o.priority) else "";
    if o.Add? {
      NumberOfPad2(o.priority);
    }
    SegmentReads(ActionText(o), o.code, tt);
    assert Segment(o) == ActionText(o) + ":" + o.code + ":" + tt;
    hide Partition, Pad2, Number, ParseSegment;
    assert Free(ActionText(o), '|') && Free(tt, '|');
  }

  lemma {:induction false} ParseAllOfSegments(ops: seq<Op>)
    requires GoodCodes(ops)
    ensures ParseAll(SegmentList(ops)) == Ok(ops)
  {
    if ops != [] {
      var n := |ops| - 1;
      ParseAllOfSegments(ops[..n]);
      assert SegmentList(ops)[..n] == SegmentList(ops[..n]);
      SegmentRoundTrip(ops[n]);
      assert ops == ops[..n] + [ops[n]];
    }
  }

  lemma ParsePrint(ops: seq<Op>)
    requires ops != [] && GoodCodes(ops)
    ensures Parse(Print(ops)) == Ok(ops)
  {
    forall i | 0 <= i < |ops| ensures Free(SegmentList(ops)[i], '|') {
      SegmentRoundTrip(ops[i]);
    }
    SplitOfJoin(SegmentList(ops), '|');
    ParseAllOfSegments(ops);
  }

  lemma SegmentCodeIsGood(segment: string)
    requires Free(segment, '|') && ParseSegment(segment).Ok?
    ensures GoodCode(ParseSegment(segment).value.code)
  {
    PartitionHead(segment, ':');
    var (action, rest) := Partition(segment, ':');
    PartitionHead(rest.value, ':');
  }

  lemma {:induction false} ParseAllLength(segments: seq<string>)
    requires ParseAll(segments).Ok?
    ensures |ParseAll(segments).value| == |segments|
    ensures forall i :: 0 <= i < |segments| ==> ParseSegment(segments[i]) == Ok(ParseAll(segments).value[i])
  {
    if segments != [] {
      ParseAllLength(segments[..|segments| - 1]);
    }
  }

  /** Whatever text is accepted, the batch it gives is non-empty and every code
      in it could have been printed. */
  lemma ParsedCodesAreGood(text: string)
    ensures Parse(text).Ok? ==> Parse(text).value != [] && GoodCodes(Parse(text).value)
  {
    if Parse(text).Ok? {
      var pieces := Split(text, '|');
      ParseAllLength(pieces);
      SplitPiecesFree(text, '|');
      forall i | 0 <= i < |pieces| ensures GoodCode(Parse(text).value[i].code) {
        SegmentCodeIsGood(pieces[i]);
      }
    }
  }

  /** Exactly which batches survive printing and parsing. The empty batch and a
      code holding a separator do not. */
  lemma RoundTripExactly(ops: seq<Op>)
    ensures Parse(Print(ops)) == Ok(ops) <==> ops != [] && GoodCodes(ops)
  {
    ParsedCodesAreGood(Print(ops));
    if ops != [] && GoodCodes(ops) {
      ParsePrint(ops);
    }
  }

  // ---------- the texts ----------

  /** `act:code:TT`, with the priority of an add in two digits. */
  lemma SegmentText(o: Op)
    ensures Segment(o) == match o
      case Drop(code) => "-:" + code + ":"
      case Add(code, n) =>
        "+:" + code + ":" + if n < 100 then ["0123456789"[n / 10], "0123456789"[n % 10]] else Decimal(n)
      case Rest(code) => "N:" + code + ":"
  {
    if o.Add? {
      Pad2Digits(o.priority);
    }
  }

  /** The segments of a batch stand between bars. */
  lemma PrintedText(ops: seq<Op>)
    ensures Print([]) == ""
    ensures |ops| == 1 ==> Print(ops) == Segment(ops[0])
    ensures |ops| > 1 ==> Print(ops) == Segment(ops[0]) + "|" + Print(ops[1..])
  {
    if |ops| > 1 {
      assert SegmentList(ops)[1..] == SegmentList(ops[1..]);
    }
  }

  /** What a text with two colons is read as. */
  lemma SegmentReads(action: string, code: string, tt: string)
    requires Free(action, ':') && Free(code, ':')
    ensures var text := action + ":" + code + ":" + tt;
      ParseSegment(text) ==
        if code == "" || (action != "-" && action != "+" && action != "N") then Err(Malformed(text))
        else if action == "+" then if AllDigits(tt) then Ok(Add(code, Number(tt))) else Err(MissingPriority(text))
        else if tt != "" then Err(StrayPriority(text))
        else if action == "-" then Ok(Drop(code)) else Ok(Rest(code))
  {
    var rest := code + [':'] + tt;
    assert action + ":" + code + ":" + tt == action + [':'] + rest;
    PartitionAt(action, rest, ':');
    PartitionAt(code, tt, ':');
  }

  lemma {:induction false} PartitionNone(s: string, sep: char)
    ensures Partition(s, sep).1.None? <==> Free(s, sep)
  {
    if s != "" {
      PartitionNone(s[1..], sep);
      assert Free(s, sep) <==> s[0] != sep && Free(s[1..], sep);
    }
  }

  /** A text with one colon or none is malformed. */
  lemma TooFewColons(head: string, tail: string)
    requires Free(head, ':') && Free(tail, ':')
    ensures ParseSegment(head) == Err(Malformed(head))
    ensures ParseSegment(head + ":" + tail) == Err(Malformed(head + ":" + tail))
  {
    PartitionNone(head, ':');
    PartitionNone(tail, ':');
    assert head + ":" + tail == head + [':'] + tail;
    PartitionAt(head, tail, ':');
  }

  /** A list of segments fails as its first bad segment does. */
  lemma {:induction false} FirstBadDecides(segments: seq<string>, i: nat)
    requires i < |segments| && ParseSegment(segments[i]).Err?
    requires forall j :: 0 <= j < i ==> ParseSegment(segments[j]).Ok?
    ensures ParseAll(segments).Err? && ParseAll(segments).error == ParseSegment(segments[i]).error
  {
    var front := segments[..|segments| - 1];
    if i < |front| {
      FirstBadDecides(front, i);
    } else {
      AllGood(front);
    }
  }

  lemma {:induction false} AllGood(segments: seq<string>)
    requires forall j :: 0 <= j < |segments| ==> ParseSegment(segments[j]).Ok?
    ensures ParseAll(segments).Ok?
  {
    if segments != [] {
      AllGood(segments[..|segments| - 1]);
    }
  }

  // ---------- the idempotency key ----------

  /** The preimage of the payload hash; any op order gives the same string. */
  function CanonicalString(studentNo: string, ops: seq<Op>): string {
    var segments := Print(Canonical.Canon(ops));
    if segments != "" then studentNo + "|" + segments else studentNo + "|"
  }

  /** sha256 is taken as an injective function: the hash is its preimage. */
  type Hash = string

  function PayloadHash(studentNo: string, ops: seq<Op>): Hash {
    CanonicalString(studentNo, ops)
  }

  /** The preimage of the confirm token; it prints the batch as given. */
  function ConfirmToken(studentNo: string, ops: seq<Op>, secret: string): string {
    studentNo + "|" + Print(ops) + "|" + secret
  }

  lemma CutAtFirst(a: string, x: string, b: string, y: string, sep: char)
    requires Free(a, sep) && Free(b, sep)
    requires a + [sep] + x == b + [sep] + y
    ensures a == b && x == y
  {
    PartitionAt(a, x, sep);
    PartitionAt(b, y, sep);
  }

  lemma CutSuffix(x: string, y: string, suffix: string)
    requires x + suffix == y + suffix
    ensures x == y
  {
    assert |x + suffix| == |x| + |suffix| && |y + suffix| == |y| + |suffix|;
    assert x == (x + suffix)[..|x|] && y == (y + suffix)[..|y|];
  }

  lemma PrintFaithful(a: seq<Op>, b: seq<Op>)
    requires GoodCodes(a) && GoodCodes(b) && Print(a) == Print(b)
    ensures a == b
  {
    if a != [] && b != [] {
      ParsePrint(a);
      ParsePrint(b);
    } else {
      PrintEmpty(a);
      PrintEmpty(b);
    }
  }

  lemma PrintEmpty(ops: seq<Op>)
    ensures Print(ops) == "" <==> ops == []
  {
    if ops != [] {
      assert |Segment(ops[0])| >= 2;
    }
  }

  lemma CanonKeepsGoodCodes(ops: seq<Op>)
    requires GoodCodes(ops)
    ensures GoodCodes(Canonical.Canon(ops))
  {
    Canonical.CanonKeepsFirsts(ops);
    var c := Canonical.Canon(ops);
    forall i | 0 <= i < |c| ensures GoodCode(c[i].code) {
      assert c[i] in c;
      assert Canonical.IsFirst(ops, c[i]);
      assert c[i] in ops;
    }
  }

  /** Two keys are equal iff the student and the canonical batch are. */
  lemma KeyFaithful(s1: string, ops1: seq<Op>, s2: string, ops2: seq<Op>)
    requires Free(s1, '|') && Free(s2, '|') && GoodCodes(ops1) && GoodCodes(ops2)
    ensures PayloadHash(s1, ops1) == PayloadHash(s2, ops2)
       <==> s1 == s2 && Canonical.Canon(ops1) == Canonical.Canon(ops2)
  {
    var c1, c2 := Canonical.Canon(ops1), Canonical.Canon(ops2);
    CanonKeepsGoodCodes(ops1);
    CanonKeepsGoodCodes(ops2);
    assert CanonicalString(s1, ops1) == s1 + ['|'] + Print(c1);
    assert CanonicalString(s2, ops2) == s2 + ['|'] + Print(c2);
    if CanonicalString(s1, ops1) == CanonicalString(s2, ops2) {
      CutAtFirst(s1, Print(c1), s2, Print(c2), '|');
      PrintFaithful(c1, c2);
    }
  }

  /** Re-previewing mints the same token only for the same student and batch. */
  lemma TokenFaithful(s1: string, ops1: seq<Op>, s2: string, ops2: seq<Op>, secret: string)
    requires Free(s1, '|') && Free(s2, '|') && GoodCodes(ops1) && GoodCodes(ops2)
    ensures ConfirmToken(s1, ops1, secret) == ConfirmToken(s2, ops2, secret) <==> s1 == s2 && ops1 == ops2
  {
    var t1, t2 := ConfirmToken(s1, ops1, secret), ConfirmToken(s2, ops2, secret);
    assert t1 == (s1 + ['|'] + Print(ops1)) + ("|" + secret);
    assert t2 == (s2 + ['|'] + Print(ops2)) + ("|" + secret);
    if t1 == t2 {
      CutSuffix(s1 + ['|'] + Print(ops1), s2 + ['|'] + Print(ops2), "|" + secret);
      CutAtFirst(s1, Print(ops1), s2, Print(ops2), '|');
      PrintFaithful(ops1, ops2);
    }
  }

  /** And only under the same secret. */
  lemma SecretMatters(studentNo: string, ops: seq<Op>, x: string, y: string)
    ensures ConfirmToken(studentNo, ops, x) == ConfirmToken(studentNo, ops, y) <==> x == y
  {
    var head := studentNo + "|" + Print(ops) + "|";
    assert (head + x)[|head|..] == x && (head + y)[|head|..] == y;
  }

  /** A preview's stored segments give the submit side the very batch the
      preview canonicalized, and with it the same idempotency key. */
  lemma ConfirmRecordRederives(studentNo: string, ops: seq<Op>)
    requires ops != [] && GoodCodes(ops)
    ensures Parse(Print(Canonical.Canon(ops))) == Ok(Canonical.Canon(ops))
    ensures PayloadHash(studentNo, Canonical.Canon(ops)) == PayloadHash(studentNo, ops)
  {
    Canonical.CanonKeepsFirsts(ops);
    assert Canonical.SameFirst(Canonical.Canon(ops), ops, ops[0]);
    assert SameKey(ops[0], ops[0]);
    CanonKeepsGoodCodes(ops);
    ParsePrint(Canonical.Canon(ops));
    Canonical.CanonIdempotent(ops);
  }
}
