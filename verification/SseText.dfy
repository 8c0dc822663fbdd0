/**
 * The event stream as bytes: what the broker writes and what the Go client's line parser makes of it.
 * A char stands for one byte; TrimSpace is modelled on ASCII white space.
 */
module SseText {
  import opened FlagModel

  /** The scanner's buffer: a line that fills it without its newline ends the stream with an error. */
  const MAX_TOKEN := 1048576
  const MAX_INT64 := 0x7fff_ffff_ffff_ffff

  datatype Message = Message(event: string, data: string, version: int)

  /** Everything the handler writes: messages, and comments such as the greeting and the heartbeats. */
  datatype Item = Note(msg: Message) | Comment(text: string)

  function Digit(d: int): char
    requires 0 <= d < 10
  {
    '0' + d as char
  }

  function Decimal(n: nat): string {
    if n < 10 then [Digit(n)] else Decimal(n / 10) + [Digit(n % 10)]
  }

  function PrintItem(item: Item): string {
    match item
    case Comment(text) => ": " + text + "\n" + "\n"
    case Note(m) =>
      (if m.version > 0 then "id: " + Decimal(m.version) + "\n" else "")
      + ("event: " + m.event + "\n" + ("data: " + m.data + "\n" + "\n"))
  }

  function Print(items: seq<Item>): string {
    if items == [] then "" else PrintItem(items[0]) + Print(items[1..])
  }

  predicate Space(c: char) { c in {' ', '\t', '\n', '\r', 11 as char, 12 as char} }

  function TrimLeft(s: string): string {
    if s != "" && Space(s[0]) then TrimLeft(s[1..]) else s
  }

  function TrimRight(s: string): string {
    if s != "" && Space(s[|s| - 1]) then TrimRight(s[..|s| - 1]) else s
  }

  function Trim(s: string): string { TrimRight(TrimLeft(s)) }

  predicate Trimmed(s: string) { s == "" || (!Space(s[0]) && !Space(s[|s| - 1])) }

  function DropCR(s: string): string {
    if s != "" && s[|s| - 1] == '\r' then s[..|s| - 1] else s
  }

  predicate AllDigits(s: string) { forall i :: 0 <= i < |s| ==> '0' <= s[i] <= '9' }

  function Value(s: string): nat
    requires AllDigits(s)
  {
    if s == "" then 0
    else
      var last := s[|s| - 1];
      assert '0' <= last <= '9';
      10 * Value(s[..|s| - 1]) + (last as int - '0' as int)
  }

  /** A signed 64-bit decimal: optional sign, at least one digit, in range. */
  function ParseInt(s: string): Option<int> {
    if s == "" then None
    else
      var negative := s[0] == '-';
      var body := if s[0] == '-' || s[0] == '+' then s[1..] else s;
      if body == "" || !AllDigits(body) then None
      else
        var n := if negative then 0 - Value(body) else Value(body);
        if -MAX_INT64 - 1 <= n <= MAX_INT64 then Some(n) else None
  }

  function ParseVersion(id: string): Option<int> { ParseInt(Trim(id)) }

  // The scanner.

  datatype Line = End | TooLong | Token(text: string, next: nat)

  function NewlineAt(s: string, pos: nat): (n: nat)
    requires pos <= |s|
    ensures pos <= n <= |s|
    ensures n < |s| ==> s[n] == '\n'
    ensures forall i :: pos <= i < n ==> s[i] != '\n'
    decreases |s| - pos
  {
    if pos == |s| || s[pos] == '\n' then pos else NewlineAt(s, pos + 1)
  }

  /** The next line; what is left at the end of the stream counts as a line too, unless it is empty. */
  function NextLine(s: string, pos: nat): (l: Line)
    requires pos <= |s|
    ensures l.Token? ==> pos < l.next <= |s|
  {
    var n := NewlineAt(s, pos);
    if n - pos >= MAX_TOKEN then TooLong
    else if n < |s| then Token(DropCR(s[pos..n]), n + 1)
    else if pos == |s| then End
    else Token(DropCR(s[pos..n]), n)
  }

  // The line parser.

  datatype Fields = Fields(event: string, data: string, id: string)

  datatype Dispatched = Dispatched(event: string, data: string, version: Option<int>)

  datatype Parsed = Parsed(dispatched: seq<Dispatched>, tooLong: bool)

  const NO_FIELDS := Fields("", "", "")

  function FeedFields(st: Fields, line: string): Fields {
    if line == "" then NO_FIELDS
    else if ":" <= line then st
    else if "event:" <= line then st.(event := Trim(line[6..]))
    else if "data:" <= line then st.(data := st.data + Trim(line[5..]))
    else if "id:" <= line then st.(id := Trim(line[3..]))
    else st
  }

  function Dispatch(st: Fields, line: string): seq<Dispatched> {
    if line == "" && st.data != "" then [Dispatched(st.event, st.data, ParseVersion(st.id))] else []
  }

  function Parse(st: Fields, s: string, pos: nat): Parsed
    requires pos <= |s|
    decreases |s| - pos
  {
    match NextLine(s, pos)
    case End => Parsed([], false)
    case TooLong => Parsed([], true)
    case Token(text, next) => Before(Dispatch(st, text), Parse(FeedFields(st, text), s, next))
  }

  function Before(first: seq<Dispatched>, rest: Parsed): Parsed {
    Parsed(first + rest.dispatched, rest.tooLong)
  }

  /** The variables of the Go client's scan loop. */
  class LineParser {
    var eventType: string
    var data: string
    var id: string

    ghost function State(): Fields
      reads this
    {
      Fields(eventType, data, id)
    }

    constructor ()
      ensures State() == NO_FIELDS
    {
      eventType, data, id := "", "", "";
    }

    method Feed(line: string) returns (out: seq<Dispatched>)
      modifies this
      ensures State() == FeedFields(old(State()), line) && out == Dispatch(old(State()), line)
      ensures line == "" ==> State() == NO_FIELDS
      ensures line == "" && old(data) != "" ==> out == [Dispatched(old(eventType), old(data), ParseVersion(old(id)))]
      ensures line != "" || old(data) == "" ==> out == []
      ensures "event:" <= line ==> eventType == Trim(line[6..]) && data == old(data) && id == old(id)
      ensures "data:" <= line ==> data == old(data) + Trim(line[5..]) && eventType == old(eventType) && id == old(id)
      ensures "id:" <= line ==> id == Trim(line[3..]) && data == old(data) && eventType == old(eventType)
      ensures line != "" && !("event:" <= line || "data:" <= line || "id:" <= line) ==> State() == old(State())
    {
      out := [];
      if line == "" {
        if data != "" { out := [Dispatched(eventType, data, ParseVersion(id))]; }
        eventType, data, id := "", "", "";
      } else if ":" <= line {
        assert line[0] == ':';
        return;
      } else if "event:" <= line {
        eventType := Trim(line[6..]);
      } else if "data:" <= line {
        data := data + Trim(line[5..]);
      } else if "id:" <= line {
        id := Trim(line[3..]);
      }
    }
  }

  method Stream(s: string) returns (out: seq<Dispatched>, tooLong: bool)
    ensures Parsed(out, tooLong) == Parse(NO_FIELDS, s, 0)
  {
    var parser := new LineParser();
    var pos := 0;
    out := [];
    while true
      invariant 0 <= pos <= |s|
      invariant fresh(parser)
      invariant Parse(NO_FIELDS, s, 0) == Before(out, Parse(parser.State(), s, pos))
      decreases |s| - pos
    {
      var line := NextLine(s, pos);
      if line.End? { return out, false; }
      if line.TooLong? { return out, true; }
      ghost var st := parser.State();
      var more := parser.Feed(line.text);
      ScanStep(st, s, pos, out);
      out, pos := out + more, line.next;
    }
  }

  lemma ScanStep(st: Fields, s: string, pos: nat, out: seq<Dispatched>)
    requires pos <= |s| && NextLine(s, pos).Token?
    ensures var l := NextLine(s, pos);
      Before(out, Parse(st, s, pos)) == Before(out + Dispatch(st, l.text), Parse(FeedFields(st, l.text), s, l.next))
  {
    var l := NextLine(s, pos);
    var rest := Parse(FeedFields(st, l.text), s, l.next);
    assert out + (Dispatch(st, l.text) + rest.dispatched) == out + Dispatch(st, l.text) + rest.dispatched;
  }

  predicate NoNewline(s: string) { forall i :: 0 <= i < |s| ==> s[i] != '\n' }

  /** What the server guarantees of what it writes. */
  predicate Clean(item: Item) {
    match item
    case Comment(text) => NoNewline(text) && |text| + 2 < MAX_TOKEN
    case Note(m) =>
      && NoNewline(m.event) && NoNewline(m.data) && Trimmed(m.event) && Trimmed(m.data)
      && m.version <= MAX_INT64
  }

  predicate Fits(m: Message) { |m.event| + 7 < MAX_TOKEN && |m.data| + 6 < MAX_TOKEN }

  function Expected(m: Message): seq<Dispatched> {
    if m.data == "" then [] else [Dispatched(m.event, m.data, if m.version > 0 then Some(m.version) else None)]
  }

  /** The messages up to the first oversized one, and whether there is one. */
  function ExpectedAll(items: seq<Item>): Parsed {
    if items == [] then Parsed([], false)
    else if items[0].Comment? then ExpectedAll(items[1..])
    else if !Fits(items[0].msg) then Parsed([], true)
    else Before(Expected(items[0].msg), ExpectedAll(items[1..]))
  }

  // Numbers and white space.

  lemma {:induction false} DecimalParses(n: nat)
    ensures Decimal(n) != "" && AllDigits(Decimal(n)) && Value(Decimal(n)) == n
  {
    if n >= 10 {
      DecimalParses(n / 10);
      assert Decimal(n)[..|Decimal(n)| - 1] == Decimal(n / 10);
    } else {
      assert Value([Digit(n)]) == 10 * Value([Digit(n)][..0]) + n;
    }
  }

  lemma TrimKeeps(s: string)
    requires Trimmed(s)
    ensures Trim(s) == s && Trim(" " + s) == s
  {
    assert (" " + s)[1..] == s;
  }

  /** Digits without a leading zero are the decimal of what they are read as. */
  lemma {:induction false} DigitsAreDecimal(s: string)
    requires s != "" && AllDigits(s) && (s[0] != '0' || |s| == 1)
    ensures Decimal(Value(s)) == s
  {
    var init, last := s[..|s| - 1], s[|s| - 1];
    assert '0' <= last <= '9';
    assert s == init + [last];
    if |s| > 1 {
      DigitsAreDecimal(init);
      ValuePositive(init);
    } else {
      assert Value(init) == 0;
    }
  }

  /** A leading zero changes nothing. */
  lemma {:induction false} LeadingZero(s: string)
    requires AllDigits(s)
    ensures AllDigits("0" + s) && Value("0" + s) == Value(s)
  {
    if s == "" {
      assert Value("0") == 10 * Value("0"[..0]);
    } else {
      assert ("0" + s)[..|s|] == "0" + s[..|s| - 1];
      LeadingZero(s[..|s| - 1]);
    }
  }

  lemma {:induction false} ValuePositive(s: string)
    requires s != "" && AllDigits(s) && s[0] != '0'
    ensures Value(s) > 0
  {
    if |s| > 1 { ValuePositive(s[..|s| - 1]); } else { assert '0' <= s[0] <= '9'; }
  }

  predicate Digits(s: string, n: int) { s != "" && AllDigits(s) && Value(s) == n }

  predicate Writes(s: string, n: int) {
    Digits(s, n) || ("+" <= s && Digits(s[1..], n)) || ("-" <= s && Digits(s[1..], -n))
  }

  /** Exactly what is read as a number: digits with an optional sign, within 64 bits. */
  lemma ParseIntIff(s: string, n: int)
    ensures ParseInt(s) == Some(n) <==>
            && -0x8000_0000_0000_0000 <= n <= 0x7fff_ffff_ffff_ffff
            && Writes(s, n)
  {
    if "-" <= s || "+" <= s { assert !AllDigits(s) by { assert s[0] == '-' || s[0] == '+'; } }
  }

  /** Trimming takes white space off both ends, and all of it. */
  lemma TrimMeans(s: string) returns (a: nat, b: nat)
    ensures a <= b <= |s| && Trim(s) == s[a..b] && Trimmed(Trim(s))
    ensures forall i :: 0 <= i < a || b <= i < |s| ==> Space(s[i])
  {
    a := LeftMeans(s);
    b := RightMeans(TrimLeft(s));
    assert s[a..][..b] == s[a..a + b];
    b := a + b;
    forall i | b <= i < |s| ensures Space(s[i]) { assert s[i] == s[a..][i - a]; }
    if a < b { assert Trim(s)[0] == s[a..][0]; }
  }

  lemma {:induction false} LeftMeans(s: string) returns (a: nat)
    ensures a <= |s| && TrimLeft(s) == s[a..] && (a < |s| ==> !Space(s[a]))
    ensures forall i :: 0 <= i < a ==> Space(s[i])
  {
    a := 0;
    if s != "" && Space(s[0]) {
      var more := LeftMeans(s[1..]);
      a := more + 1;
      assert s[1..][more..] == s[a..];
      forall i | 0 <= i < a ensures Space(s[i]) { if i > 0 { assert s[i] == s[1..][i - 1]; } }
    }
  }

  lemma {:induction false} RightMeans(s: string) returns (b: nat)
    ensures b <= |s| && TrimRight(s) == s[..b] && (b > 0 ==> !Space(s[b - 1]))
    ensures forall i :: b <= i < |s| ==> Space(s[i])
  {
    b := |s|;
    if s != "" && Space(s[|s| - 1]) {
      b := RightMeans(s[..|s| - 1]);
      assert s[..|s| - 1][..b] == s[..b];
      forall i | b <= i < |s| ensures Space(s[i]) { if i < |s| - 1 { assert s[i] == s[..|s| - 1][i]; } }
    }
  }

  lemma VersionRoundTrip(n: nat)
    requires n <= MAX_INT64
    ensures Trimmed(Decimal(n)) && NoNewline(Decimal(n)) && ParseVersion(Decimal(n)) == Some(n)
  {
    hide Decimal, Value, Trim, TrimLeft, TrimRight;
    DecimalParses(n);
    assert '0' <= Decimal(n)[0] <= '9';
    TrimKeeps(Decimal(n));
  }

  lemma {:induction false} DecimalShort(n: nat, digits: nat, bound: nat)
    requires n < bound && bound == PowTen(digits)
    ensures |Decimal(n)| <= if digits == 0 then 1 else digits
  {
    if n >= 10 { DecimalShort(n / 10, digits - 1, PowTen(digits - 1)); }
  }

  function PowTen(n: nat): nat { if n == 0 then 1 else 10 * PowTen(n - 1) }

  lemma IdLineFits(n: nat)
    requires n <= MAX_INT64
    ensures |Decimal(n)| <= 20
  {
    assert PowTen(10) == 10000000000;
    PowTenAdds(10, 10);
    DecimalShort(n, 20, PowTen(20));
  }

  lemma {:induction false} PowTenAdds(a: nat, b: nat)
    ensures PowTen(a + b) == PowTen(a) * PowTen(b)
  {
    if a > 0 { PowTenAdds(a - 1, b); }
  }

  // Reading back, first line by line.

  /** The lines of an item, without their ends. */
  function ItemLines(item: Item): seq<string> {
    match item
    case Comment(text) => [": " + text, ""]
    case Note(m) =>
      (if m.version > 0 then ["id: " + Decimal(m.version)] else []) + ["event: " + m.event, "data: " + m.data, ""]
  }

  function Unlines(lines: seq<string>): string {
    if lines == [] then "" else lines[0] + "\n" + Unlines(lines[1..])
  }

  /** Parsing a list of lines. */
  function ParseLines(st: Fields, lines: seq<string>): Parsed
    decreases |lines|
  {
    if lines == [] then Parsed([], false)
    else if |lines[0]| >= MAX_TOKEN then Parsed([], true)
    else Before(Dispatch(st, DropCR(lines[0])), ParseLines(FeedFields(st, DropCR(lines[0])), lines[1..]))
  }

  lemma LineEnds(s: string, pos: nat, line: string, rest: string)
    requires pos <= |s| && s[pos..] == line + "\n" + rest && NoNewline(line)
    ensures NewlineAt(s, pos) == pos + |line| < |s|
    ensures s[pos..pos + |line|] == line && s[pos + |line| + 1..] == rest
  {
    var text := line + "\n" + rest;
    assert s[pos + |line|] == text[|line|] == '\n';
    forall i | pos <= i < pos + |line| ensures s[i] != '\n' { assert s[i] == text[i - pos]; }
    assert s[pos..pos + |line|] == text[..|line|];
    assert s[pos + |line| + 1..] == text[|line| + 1..];
  }

  lemma HeadLine(s: string, pos: nat, line: string, rest: string)
    requires pos <= |s| && s[pos..] == line + "\n" + rest && NoNewline(line)
    ensures |line| >= MAX_TOKEN ==> NextLine(s, pos) == TooLong
    ensures |line| < MAX_TOKEN ==> NextLine(s, pos) == Token(DropCR(line), pos + |line| + 1)
    ensures pos + |line| + 1 <= |s| && s[pos + |line| + 1..] == rest
  {
    LineEnds(s, pos, line, rest);
  }

  lemma {:induction false} ScanFindsLines(st: Fields, s: string, pos: nat, lines: seq<string>)
    requires pos <= |s| && s[pos..] == Unlines(lines)
    requires forall i :: 0 <= i < |lines| ==> NoNewline(lines[i])
    ensures Parse(st, s, pos) == ParseLines(st, lines)
    decreases |lines|
  {
    hide FeedFields, Dispatch, DropCR, NewlineAt;
    if lines == [] {
      assert NextLine(s, pos) == End;
    } else {
      HeadLine(s, pos, lines[0], Unlines(lines[1..]));
      if |lines[0]| < MAX_TOKEN {
        ScanFindsLines(FeedFields(st, DropCR(lines[0])), s, pos + |lines[0]| + 1, lines[1..]);
      }
    }
  }

  lemma {:induction false} UnlinesAppend(a: seq<string>, b: seq<string>)
    ensures Unlines(a + b) == Unlines(a) + Unlines(b)
  {
    if a == [] {
      assert a + b == b;
    } else {
      assert (a + b)[1..] == a[1..] + b;
      UnlinesAppend(a[1..], b);
    }
  }

  /** A line with text only changes the fields; a blank one dispatches and clears them. */
  lemma LineStep(st: Fields, line: string, rest: seq<string>, text: string, next: Fields)
    requires |line| < MAX_TOKEN && DropCR(line) == text && text != "" && FeedFields(st, text) == next
    ensures ParseLines(st, [line] + rest) == ParseLines(next, rest)
  {
    assert ([line] + rest)[1..] == rest;
  }

  /** Lines may end in a line feed or in both characters. */
  lemma EitherLineEnd(st: Fields, line: string, rest: seq<string>)
    requires |line| + 1 < MAX_TOKEN && (line == "" || line[|line| - 1] != '\r')
    ensures ParseLines(st, [line + "\r"] + rest) == ParseLines(st, [line] + rest)
  {
    hide FeedFields, Dispatch;
    assert (line + "\r")[..|line|] == line && DropCR(line + "\r") == line;
    assert ([line + "\r"] + rest)[1..] == rest && ([line] + rest)[1..] == rest;
  }

  lemma BlankLine(st: Fields, rest: seq<string>)
    ensures ParseLines(st, [""] + rest) == Before(Dispatch(st, ""), ParseLines(NO_FIELDS, rest))
  {
    assert ([""] + rest)[1..] == rest;
  }

  lemma LongLine(st: Fields, line: string, rest: seq<string>)
    requires |line| >= MAX_TOKEN
    ensures ParseLines(st, [line] + rest) == Parsed([], true)
  {
  }

  // What each kind of line does to the fields.

  lemma EventLine(st: Fields, line: string, value: string)
    requires line == "event: " + value && Trimmed(value)
    ensures DropCR(line) == line && line != "" && FeedFields(st, line) == st.(event := value)
  {
    assert line[6..] == " " + value;
    assert line[0] == 'e';
    TrimKeeps(value);
  }

  lemma DataLine(st: Fields, line: string, value: string)
    requires line == "data: " + value && Trimmed(value)
    ensures DropCR(line) == line && line != "" && FeedFields(st, line) == st.(data := st.data + value)
  {
    assert line[5..] == " " + value;
    assert line[0] == 'd';
    TrimKeeps(value);
  }

  lemma IdLine(st: Fields, line: string, value: string)
    requires line == "id: " + value && Trimmed(value)
    ensures DropCR(line) == line && line != "" && FeedFields(st, line) == st.(id := value)
  {
    assert line[3..] == " " + value;
    assert line[0] == 'i';
    TrimKeeps(value);
  }

  lemma CommentLine(st: Fields, line: string, text: string)
    requires line == ": " + text
    ensures DropCR(line) != "" && FeedFields(st, DropCR(line)) == st
  {
    assert DropCR(line)[0] == ':';
  }

  lemma BodyLines(m: Message, id: string, rest: seq<string>)
    requires Clean(Note(m))
    ensures ParseLines(Fields("", "", id), ["event: " + m.event] + (["data: " + m.data] + ([""] + rest))) ==
            if Fits(m) then Before(Dispatch(Fields(m.event, m.data, id), ""), ParseLines(NO_FIELDS, rest))
            else Parsed([], true)
  {
    hide FeedFields, Dispatch, DropCR, ParseLines;
    var event, data := "event: " + m.event, "data: " + m.data;
    var st0, st1, st2 := Fields("", "", id), Fields(m.event, "", id), Fields(m.event, m.data, id);
    EventLine(st0, event, m.event);
    DataLine(st1, data, m.data);
    if |event| >= MAX_TOKEN {
      LongLine(st0, event, [data] + ([""] + rest));
    } else {
      LineStep(st0, event, [data] + ([""] + rest), event, st1);
      if |data| >= MAX_TOKEN {
        LongLine(st1, data, [""] + rest);
      } else {
        LineStep(st1, data, [""] + rest, data, st2);
        BlankLine(st2, rest);
      }
    }
  }

  lemma CommentParses(text: string, rest: seq<string>)
    requires Clean(Comment(text))
    ensures ParseLines(NO_FIELDS, [": " + text] + ([""] + rest)) == ParseLines(NO_FIELDS, rest)
  {
    hide FeedFields, DropCR, ParseLines;
    var line := ": " + text;
    CommentLine(NO_FIELDS, line, text);
    LineStep(NO_FIELDS, line, [""] + rest, DropCR(line), NO_FIELDS);
    BlankLine(NO_FIELDS, rest);
  }

  lemma DispatchExpected(m: Message, id: string)
    requires Clean(Note(m)) && id == if m.version > 0 then Decimal(m.version) else ""
    ensures Dispatch(Fields(m.event, m.data, id), "") == Expected(m)
  {
    if m.version > 0 { VersionRoundTrip(m.version); } else { assert ParseVersion("") == None; }
  }

  lemma ItemParses(item: Item, rest: seq<string>)
    requires Clean(item)
    ensures ParseLines(NO_FIELDS, ItemLines(item) + rest) ==
            if item.Comment? then ParseLines(NO_FIELDS, rest)
            else if Fits(item.msg) then Before(Expected(item.msg), ParseLines(NO_FIELDS, rest))
            else Parsed([], true)
  {
    hide FeedFields, Dispatch, DropCR, ParseLines, Decimal, Expected, ParseVersion;
    match item
    case Comment(text) =>
      assert ItemLines(item) + rest == [": " + text] + ([""] + rest);
      CommentParses(text, rest);
    case Note(m) =>
      var body := ["event: " + m.event] + (["data: " + m.data] + ([""] + rest));
      var id := if m.version > 0 then Decimal(m.version) else "";
      DispatchExpected(m, id);
      BodyLines(m, id, rest);
      if m.version > 0 {
        assert ItemLines(item) + rest == ["id: " + id] + body;
        VersionRoundTrip(m.version);
        IdLineFits(m.version);
        IdLine(NO_FIELDS, "id: " + id, id);
        LineStep(NO_FIELDS, "id: " + id, body, "id: " + id, NO_FIELDS.(id := id));
      } else {
        assert ItemLines(item) + rest == body;
      }
  }

  function AllLines(items: seq<Item>): seq<string> {
    if items == [] then [] else ItemLines(items[0]) + AllLines(items[1..])
  }

  lemma UnlinesCons(line: string, rest: seq<string>)
    ensures Unlines([line] + rest) == line + "\n" + Unlines(rest)
  {
    assert ([line] + rest)[1..] == rest;
  }

  lemma TwoLines(a: string, b: string)
    ensures Unlines([a, b]) == a + "\n" + (b + "\n")
  {
    assert [a] + [b] == [a, b] && [b] + [] == [b];
    UnlinesCons(a, [b]);
    UnlinesCons(b, []);
  }

  lemma ItemIsItsLines(item: Item)
    ensures PrintItem(item) == Unlines(ItemLines(item))
  {
    var lines := ItemLines(item);
    match item
    case Comment(text) =>
      TwoLines(": " + text, "");
    case Note(m) =>
      var event, data := "event: " + m.event, "data: " + m.data;
      TwoLines(data, "");
      UnlinesCons(event, [data, ""]);
      assert [event] + [data, ""] == [event, data, ""];
      if m.version > 0 {
        UnlinesCons("id: " + Decimal(m.version), [event, data, ""]);
        assert lines == ["id: " + Decimal(m.version)] + [event, data, ""];
      } else {
        assert lines == [event, data, ""];
      }
  }

  lemma ItemLinesClean(item: Item)
    requires Clean(item)
    ensures forall i :: 0 <= i < |ItemLines(item)| ==> NoNewline(ItemLines(item)[i])
  {
    if item.Note? && item.msg.version > 0 { VersionRoundTrip(item.msg.version); }
  }

  lemma {:induction false} ItemsParse(items: seq<Item>)
    requires forall i :: 0 <= i < |items| ==> Clean(items[i])
    ensures ParseLines(NO_FIELDS, AllLines(items)) == ExpectedAll(items)
    ensures Print(items) == Unlines(AllLines(items))
    ensures forall i :: 0 <= i < |AllLines(items)| ==> NoNewline(AllLines(items)[i])
  {
    if items != [] {
      ItemsParse(items[1..]);
      ItemParses(items[0], AllLines(items[1..]));
      ItemIsItsLines(items[0]);
      ItemLinesClean(items[0]);
      UnlinesAppend(ItemLines(items[0]), AllLines(items[1..]));
    }
  }

  /**
   * Round trip: parsing what was written dispatches exactly the messages with data, in order, each with its event
   * name, data and version, up to the first message whose line does not fit the scanner's buffer.
   */
  lemma RoundTrip(items: seq<Item>)
    requires forall i :: 0 <= i < |items| ==> Clean(items[i])
    ensures Parse(NO_FIELDS, Print(items), 0) == ExpectedAll(items)
  {
    ItemsParse(items);
    assert Print(items)[0..] == Print(items);
    ScanFindsLines(NO_FIELDS, Print(items), 0, AllLines(items));
  }

  // Cutting the stream.

  /** The unterminated rest is a lone carriage return, which the scanner would hand over as an empty line. */
  predicate EndsInBareCR(s: string) {
    s != "" && s[|s| - 1] == '\r' && (|s| == 1 || s[|s| - 2] == '\n')
  }

  /** The fields gathered when the last complete line has been read; none are if a line was too long. */
  function Pending(st: Fields, s: string, pos: nat): Fields
    requires pos <= |s|
    decreases |s| - pos
  {
    match NextLine(s, pos)
    case End => st
    case TooLong => NO_FIELDS
    case Token(text, next) => if s[next - 1] == '\n' then Pending(FeedFields(st, text), s, next) else st
  }

  /** The stream stops right after a bare carriage return, with data waiting for its blank line. */
  predicate InventsEvent(st: Fields, s: string, pos: nat)
    requires pos <= |s|
  {
    EndsInBareCR(s) && Pending(st, s, pos).data != ""
  }

  lemma {:induction false} CutLosesOnly(st: Fields, a: string, s: string, pos: nat)
    requires a <= s && pos <= |a| && (pos == 0 || a[pos - 1] == '\n') && !InventsEvent(st, a, pos)
    ensures Parse(st, a, pos).dispatched <= Parse(st, s, pos).dispatched
    decreases |a| - pos
  {
    hide FeedFields, Dispatch, NextLine, EndsInBareCR;
    var la := NextLine(a, pos);
    SameLine(a, s, pos);
    if la.Token? {
      var next := FeedFields(st, la.text);
      if a[la.next - 1] == '\n' {
        CutLosesOnly(next, a, s, la.next);
        PrefixBefore(Dispatch(st, la.text), Parse(next, a, la.next), Parse(next, s, la.next));
      } else {
        UnfinishedDispatch(st, a, pos);
      }
    }
  }

  /** An unterminated rest dispatches what is pending if it reads as a blank line, and nothing otherwise. */
  lemma UnfinishedDispatch(st: Fields, a: string, pos: nat)
    requires pos <= |a| && NextLine(a, pos).Token? && NextLine(a, pos).next == |a|
    ensures Parse(st, a, pos).dispatched == Dispatch(st, NextLine(a, pos).text)
    ensures Dispatch(st, NextLine(a, pos).text) ==
            if NextLine(a, pos).text != "" || st.data == "" then []
            else [Dispatched(st.event, st.data, ParseVersion(st.id))]
  {
    assert NextLine(a, |a|) == End;
  }

  lemma {:induction false} CutInvents(st: Fields, a: string, s: string, pos: nat)
    requires s == a + "x" && pos <= |a| && (pos == 0 || a[pos - 1] == '\n') && InventsEvent(st, a, pos)
    ensures |Parse(st, a, pos).dispatched| == |Parse(st, s, pos).dispatched| + 1
    decreases |a| - pos
  {
    hide FeedFields, Dispatch, NextLine;
    var la := NextLine(a, pos);
    assert a <= s;
    SameLine(a, s, pos);
    NotAtEnd(a, pos);
    if la.Token? && a[la.next - 1] == '\n' {
      CutInvents(FeedFields(st, la.text), a, s, la.next);
    } else {
      UnfinishedDispatch(st, a, pos);
      BareCRGrows(a, s, pos);
      UnfinishedDispatch(st, s, pos);
    }
  }

  lemma NotAtEnd(a: string, pos: nat)
    requires pos <= |a| && (pos == 0 || a[pos - 1] == '\n') && EndsInBareCR(a)
    ensures !NextLine(a, pos).End?
  {
  }

  lemma BareCRGrows(a: string, s: string, pos: nat)
    requires s == a + "x" && pos <= |a| && NextLine(a, pos) == Token("", |a|) && EndsInBareCR(a)
    ensures NextLine(s, pos) == Token("\rx", |s|)
  {
    assert a[pos..|a|] == "\r";
    assert s[pos..|s|] == "\rx" && NewlineAt(s, pos) == |s|;
  }

  /**
   * Where a stream may be cut: the client dispatches a prefix of the events of every stream that goes on from there
   * exactly if the cut does not fall right after a bare carriage return while data is pending.
   */
  lemma CutAnywhere(a: string)
    ensures (forall s :: a <= s ==> Parse(NO_FIELDS, a, 0).dispatched <= Parse(NO_FIELDS, s, 0).dispatched)
            <==> !InventsEvent(NO_FIELDS, a, 0)
  {
    hide InventsEvent, Parse;
    if InventsEvent(NO_FIELDS, a, 0) {
      CutInvents(NO_FIELDS, a, a + "x", 0);
      assert a <= a + "x";
    } else {
      forall s | a <= s ensures Parse(NO_FIELDS, a, 0).dispatched <= Parse(NO_FIELDS, s, 0).dispatched {
        CutLosesOnly(NO_FIELDS, a, s, 0);
      }
    }
  }

  lemma PrefixBefore(first: seq<Dispatched>, short: Parsed, long: Parsed)
    requires short.dispatched <= long.dispatched
    ensures Before(first, short).dispatched <= Before(first, long).dispatched
  {
  }

  /** A line that ends within the shorter stream is the same in both; only a bare carriage return is an empty rest. */
  lemma SameLine(a: string, s: string, pos: nat)
    requires a <= s
    requires pos <= |a| && (pos == 0 || a[pos - 1] == '\n')
    ensures var la := NextLine(a, pos);
      && (la.TooLong? ==> NextLine(s, pos) == la)
      && (la.Token? && a[la.next - 1] == '\n' ==> NextLine(s, pos) == la)
      && (la.Token? && a[la.next - 1] != '\n' ==> la.next == |a| && (la.text == "" <==> EndsInBareCR(a)))
  {
    var n := NewlineAt(a, pos);
    forall i | pos <= i < |a| ensures s[i] == a[i] { assert s[..|a|][i] == a[i]; }
    assert NewlineAt(s, pos) >= n;
    if n < |a| {
      assert NewlineAt(s, pos) == n && s[pos..n] == a[pos..n];
    }
  }

  lemma {:induction false} LinesHaveNoBareCR(lines: seq<string>)
    requires forall i :: 0 <= i < |lines| ==> lines[i] == "" || lines[i][0] != '\r'
    requires forall i :: 0 <= i < |lines| ==> NoNewline(lines[i])
    ensures forall i :: 0 <= i < |Unlines(lines)| && Unlines(lines)[i] == '\r' ==>
              i > 0 && Unlines(lines)[i - 1] != '\n'
  {
    if lines != [] {
      LinesHaveNoBareCR(lines[1..]);
      var rest, text, n := Unlines(lines[1..]), Unlines(lines), |lines[0]| + 1;
      forall i | 0 <= i < |text| && text[i] == '\r' ensures i > 0 && text[i - 1] != '\n' {
        if i >= n { assert text[i] == rest[i - n]; }
      }
    }
  }

  lemma {:induction false} AllLinesStartWell(items: seq<Item>)
    ensures forall i :: 0 <= i < |AllLines(items)| ==> AllLines(items)[i] == "" || AllLines(items)[i][0] != '\r'
  {
    if items != [] { AllLinesStartWell(items[1..]); }
  }

  /** What the server writes can be cut at any byte: the client dispatches a prefix of the whole stream's events. */
  lemma CutWritten(items: seq<Item>, a: string)
    requires (forall i :: 0 <= i < |items| ==> Clean(items[i])) && a <= Print(items)
    ensures Parse(NO_FIELDS, a, 0).dispatched <= ExpectedAll(items).dispatched
  {
    var s := Print(items);
    ItemsParse(items);
    AllLinesStartWell(items);
    LinesHaveNoBareCR(AllLines(items));
    assert s[..|a|] == a;
    if a != "" {
      assert s[|a| - 1] == a[|a| - 1];
      if |a| > 1 { assert s[|a| - 2] == a[|a| - 2]; }
    }
    CutLosesOnly(NO_FIELDS, a, s, 0);
    RoundTrip(items);
  }

  lemma LastLine(st: Fields, s: string, pos: nat, tail: string)
    requires pos <= |s| && s[pos..] == tail && NoNewline(tail) && tail != "" && |tail| < MAX_TOKEN
    ensures Parse(st, s, pos).dispatched == Dispatch(st, DropCR(tail))
  {
    forall i | pos <= i < |s| ensures s[i] != '\n' { assert s[i] == s[pos..][i - pos]; }
    assert NewlineAt(s, pos) == |s| && s[pos..|s|] == tail;
    assert NextLine(s, pos) == Token(DropCR(tail), |s|);
    assert NextLine(s, |s|) == End;
    assert Parse(FeedFields(st, DropCR(tail)), s, |s|) == Parsed([], false);
  }

  lemma UnfinishedTail(s: string, line: string, tail: string, st: Fields)
    requires s == line + "\n" + tail && NoNewline(line) && NoNewline(tail) && tail != ""
    requires |line| < MAX_TOKEN && |tail| < MAX_TOKEN
    requires DropCR(line) != "" && FeedFields(NO_FIELDS, DropCR(line)) == st
    ensures Parse(NO_FIELDS, s, 0).dispatched == Dispatch(st, DropCR(tail))
  {
    hide FeedFields, DropCR, NewlineAt;
    assert s[0..] == s;
    HeadLine(s, 0, line, tail);
    LastLine(st, s, |line| + 1, tail);
    ScanStep(NO_FIELDS, s, 0, []);
  }

  lemma DispatchTail(data: string, line: string)
    requires data != ""
    ensures Dispatch(Fields("", data, ""), line) == if line == "" then [Dispatched("", data, None)] else []
  {
    assert ParseVersion("") == None;
  }

  lemma CutTail(data: string, tail: string, s: string)
    requires data != "" && Trimmed(data) && NoNewline(data) && |data| + 6 < MAX_TOKEN
    requires tail != "" && NoNewline(tail) && |tail| < MAX_TOKEN && s == "data: " + data + "\n" + tail
    ensures Parse(NO_FIELDS, s, 0).dispatched == if DropCR(tail) == "" then [Dispatched("", data, None)] else []
  {
    DispatchTail(data, DropCR(tail));
    DataLine(NO_FIELDS, "data: " + data, data);
    UnfinishedTail(s, "data: " + data, tail, Fields("", data, ""));
  }

  lemma CutAfterCR(head: string, more: string, a: string, s: string)
    requires head != "" && head[|head| - 1] == '\n' && |more| == 2 && more[0] == '\r'
    requires a == head + more[..1] && s == head + more
    ensures a <= s && EndsInBareCR(a)
    ensures DropCR(more[..1]) == "" && (!Space(more[1]) ==> DropCR(more) == more)
  {
  }

  /** The exception is real: cut after the carriage return, such a stream dispatches an event it does not contain. */
  lemma BareCRCutInventsEvent(data: string, more: string, a: string, s: string)
    requires data != "" && Trimmed(data) && NoNewline(data) && |data| + 6 < MAX_TOKEN
    requires |more| == 2 && more[0] == '\r' && !Space(more[1])
    requires a == "data: " + data + "\n" + more[..1] && s == "data: " + data + "\n" + more
    ensures a <= s && EndsInBareCR(a)
    ensures Parse(NO_FIELDS, a, 0).dispatched == [Dispatched("", data, None)]
    ensures Parse(NO_FIELDS, s, 0).dispatched == []
  {
    hide Parse, DropCR, EndsInBareCR;
    CutAfterCR("data: " + data + "\n", more, a, s);
    CutTail(data, more[..1], a);
    CutTail(data, more, s);
  }

  // The messages of a written stream.

  function Notes(items: seq<Item>): seq<Message> {
    if items == [] then [] else (if items[0].Note? then [items[0].msg] else []) + Notes(items[1..])
  }

  function Triple(m: Message): Dispatched {
    Dispatched(m.event, m.data, if m.version > 0 then Some(m.version) else None)
  }

  function Triples(ms: seq<Message>): (d: seq<Dispatched>)
    ensures |d| == |ms| && forall k :: 0 <= k < |d| ==> d[k] == Triple(ms[k])
  {
    if ms == [] then [] else [Triple(ms[0])] + Triples(ms[1..])
  }

  predicate AllFit(items: seq<Item>) {
    forall i :: 0 <= i < |items| && items[i].Note? ==> Fits(items[i].msg) && items[i].msg.data != ""
  }

  predicate Deliverable(items: seq<Item>) {
    AllFit(items) && forall i :: 0 <= i < |items| ==> Clean(items[i])
  }

  lemma {:induction false} NotesAreDispatched(items: seq<Item>)
    requires AllFit(items)
    ensures ExpectedAll(items).dispatched == Triples(Notes(items))
  {
    if items != [] {
      NotesAreDispatched(items[1..]);
      if items[0].Note? {
        assert Notes(items)[1..] == Notes(items[1..]);
        assert Expected(items[0].msg) == [Triple(items[0].msg)];
      }
    }
  }

  lemma CutNotes(items: seq<Item>, received: string)
    requires Deliverable(items) && received <= Print(items)
    ensures var d := Parse(NO_FIELDS, received, 0).dispatched;
      |d| <= |Notes(items)| && forall k :: 0 <= k < |d| ==> d[k] == Triple(Notes(items)[k])
  {
    CutWritten(items, received);
    NotesAreDispatched(items);
    var d, all := Parse(NO_FIELDS, received, 0).dispatched, Triples(Notes(items));
    assert d == all[..|d|];
  }
}
