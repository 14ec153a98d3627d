/** Traces as text: the dump tool prints one line per event, the convert tool reads
    such lines back.  Reading a dump returns the trace exactly if time only moves
    forward and stays below 2^63. */
module TraceText {

  import opened Options
  import opened Words

  datatype Access = Read | Write

  datatype Mem = Mem(address: nat, width: nat, access: Access)

  /** `delta` is the time since the previous event, `mem` is absent for an executed
      instruction. */
  datatype Event = Event(ip: nat, mem: Option<Mem>, delta: Option<int>)

  const TWO_64: nat := 0x1_0000_0000_0000_0000
  const TWO_63: int := 0x8000_0000_0000_0000

  predicate ValidEvent(e: Event) {
    && e.ip < TWO_64
    && (e.mem.Some? ==> e.mem.value.address < TWO_64 && e.mem.value.width < TWO_32)
    && (e.delta.Some? ==> -TWO_63 <= e.delta.value < TWO_63)
  }

  predicate ValidTrace(t: seq<Event>) {
    forall i | 0 <= i < |t| :: ValidEvent(t[i])
  }

  function Delta(e: Event): int {
    if e.delta.Some? then e.delta.value else 0
  }

  /** The time of the last event. */
  function TotalTime(t: seq<Event>): int {
    if t == [] then 0 else TotalTime(t[..|t| - 1]) + Delta(t[|t| - 1])
  }

  /** The 64-bit sum that the dump tool keeps. */
  function AccTime(t: seq<Event>): nat {
    if t == [] then 0 else Add64(AccTime(t[..|t| - 1]), Delta(t[|t| - 1]))
  }

  function Add64(time: nat, delta: int): (r: nat)
    ensures r < TWO_64 && (0 <= time + delta < TWO_64 ==> r == time + delta)
    ensures time < TWO_63 && -TWO_63 <= delta && time + delta < 0 ==> TWO_63 <= r
  {
    (time + delta) % TWO_64
  }

  /** Time only moves forward and stays below 2^63. */
  predicate Forward(t: seq<Event>) {
    (forall i | 0 <= i < |t| :: 0 <= Delta(t[i])) && TotalTime(t) < TWO_63
  }

  // ---------------------------------------------------------------------
  // Numbers
  // ---------------------------------------------------------------------

  const HEX: string := "0123456789abcdef"

  /** The value of a digit character; 16 if it is none. */
  function DigitValue(c: char): nat {
    if '0' <= c <= '9' then (c - '0') as nat
    else if 'a' <= c <= 'f' then (c - 'a') as nat + 10
    else if 'A' <= c <= 'F' then (c - 'A') as nat + 10
    else 16
  }

  predicate IsDigit(c: char, base: nat) {
    DigitValue(c) < base
  }

  /** The two bases that occur. */
  predicate IsBase(base: nat) {
    base == 10 || base == 16
  }

  function Print(n: nat, base: nat): string
    requires IsBase(base)
    decreases n
  {
    if n < base then [HEX[n]]
    else if base == 10 then Print(n / 10, base) + [HEX[n % 10]]
    else Print(n / 16, base) + [HEX[n % 16]]
  }

  function Value(s: string, base: nat): nat
    requires IsBase(base)
  {
    if s == "" then 0
    else
      var v := Value(s[..|s| - 1], base);
      (if base == 10 then v * 10 else v * 16) + DigitValue(s[|s| - 1])
  }

  lemma {:induction false} HexDigit(d: nat)
    requires d < 16
    ensures DigitValue(HEX[d]) == d
  {
  }

  /** Appending a digit to a number that was printed correctly. */
  lemma {:induction false} DigitAppended(s: string, d: nat, base: nat)
    requires IsBase(base) && d < base
    requires forall i | 0 <= i < |s| :: IsDigit(s[i], base)
    ensures Value(s + [HEX[d]], base) == (if base == 10 then Value(s, base) * 10 else Value(s, base) * 16) + d
    ensures forall i | 0 <= i < |s + [HEX[d]]| :: IsDigit((s + [HEX[d]])[i], base)
  {
    HexDigit(d);
    assert (s + [HEX[d]])[..|s|] == s;
  }

  /** `s` consists of digits and has value `n`. */
  ghost predicate Denotes(s: string, n: nat, base: nat)
    requires IsBase(base)
  {
    s != "" && Value(s, base) == n && forall i | 0 <= i < |s| :: IsDigit(s[i], base)
  }

  lemma {:induction false} OneDigit(d: nat, base: nat)
    requires IsBase(base) && d < base
    ensures Denotes([HEX[d]], d, base)
  {
    DigitAppended("", d, base);
    assert "" + [HEX[d]] == [HEX[d]];
  }

  /** A printed number consists of digits and has the value that was printed. */
  lemma {:induction false} PrintValue(n: nat, base: nat)
    requires IsBase(base)
    ensures Denotes(Print(n, base), n, base)
    decreases n
  {
    if n < base {
      OneDigit(n, base);
    } else if base == 10 {
      PrintValue(n / 10, base);
      DigitAppended(Print(n / 10, base), n % 10, base);
    } else {
      PrintValue(n / 16, base);
      DigitAppended(Print(n / 16, base), n % 16, base);
    }
  }

  // ---------------------------------------------------------------------
  // Reading from a line
  // ---------------------------------------------------------------------

  /** One extraction: `Fail` is the stream's fail state. */
  datatype Extract<+T> = Fail | Got(value: T, rest: string)

  predicate IsSpace(c: char) {
    c == ' ' || c == '\t' || c == '\n' || c == '\r'
  }

  function SkipSpace(s: string): string {
    if s != "" && IsSpace(s[0]) then SkipSpace(s[1..]) else s
  }

  /** The length of the leading run of non-space characters. */
  function WordLength(s: string): (n: nat)
    ensures n <= |s|
  {
    if s == "" || IsSpace(s[0]) then 0 else 1 + WordLength(s[1..])
  }

  function DigitsLength(s: string, base: nat): (n: nat)
    ensures n <= |s|
  {
    if s == "" || !IsDigit(s[0], base) then 0 else 1 + DigitsLength(s[1..], base)
  }

  /** `>> word` */
  function ReadWord(s: string): Extract<string> {
    var t := SkipSpace(s);
    var n := WordLength(t);
    if n == 0 then Fail else Got(t[..n], t[n..])
  }

  /** `>> number`; a value that does not fit makes the stream fail. */
  function ReadNumber(s: string, base: nat, limit: nat): Extract<nat>
    requires IsBase(base)
  {
    var t := SkipSpace(s);
    var n := DigitsLength(t, base);
    if n == 0 || Value(t[..n], base) >= limit then Fail else Got(Value(t[..n], base), t[n..])
  }

  lemma {:induction false} WordLengthOf(w: string, rest: string)
    requires forall i | 0 <= i < |w| :: !IsSpace(w[i])
    requires rest == "" || IsSpace(rest[0])
    ensures WordLength(w + rest) == |w|
  {
    if w != "" {
      WordLengthOf(w[1..], rest);
      assert (w + rest)[1..] == w[1..] + rest;
    } else {
      assert w + rest == rest;
    }
  }

  lemma {:induction false} DigitsLengthOf(w: string, rest: string, base: nat)
    requires forall i | 0 <= i < |w| :: IsDigit(w[i], base)
    requires rest == "" || !IsDigit(rest[0], base)
    ensures DigitsLength(w + rest, base) == |w|
  {
    if w != "" {
      DigitsLengthOf(w[1..], rest, base);
      assert (w + rest)[1..] == w[1..] + rest;
    } else {
      assert w + rest == rest;
    }
  }

  /** A word after one space is read back, and so is what follows it. */
  lemma {:induction false} ReadsWord(w: string, rest: string)
    requires w != "" && forall i | 0 <= i < |w| :: !IsSpace(w[i])
    requires rest == "" || IsSpace(rest[0])
    ensures ReadWord(" " + w + rest) == Got(w, rest)
    ensures ReadWord(w + rest) == Got(w, rest)
  {
    WordLengthOf(w, rest);
    var s := w + rest;
    assert s[0] == w[0] && SkipSpace(s) == s;
    assert (" " + w + rest)[1..] == s;
    assert SkipSpace(" " + w + rest) == s;
    assert s[..|w|] == w && s[|w|..] == rest;
  }

  lemma {:induction false} DigitIsNoSpace(c: char, base: nat)
    requires base <= 16 && IsDigit(c, base)
    ensures !IsSpace(c)
  {
  }

  lemma {:induction false} DigitsNoSpace(w: string, base: nat)
    requires base <= 16 && forall i | 0 <= i < |w| :: IsDigit(w[i], base)
    ensures forall i | 0 <= i < |w| :: !IsSpace(w[i])
  {
    forall i | 0 <= i < |w| ensures !IsSpace(w[i]) { DigitIsNoSpace(w[i], base); }
  }

  /** Digits are read up to the next space. */
  lemma {:induction false} ReadsDigits(w: string, n: nat, rest: string, base: nat, limit: nat)
    requires IsBase(base) && Denotes(w, n, base) && n < limit
    requires rest == "" || IsSpace(rest[0])
    ensures ReadNumber(" " + w + rest, base, limit) == Got(n, rest)
    ensures ReadNumber(w + rest, base, limit) == Got(n, rest)
  {
    DigitsNoSpace(w, base);
    DigitsLengthOf(w, rest, base);
    var s := w + rest;
    assert s[0] == w[0] && SkipSpace(s) == s;
    assert (" " + w + rest)[1..] == s;
    assert SkipSpace(" " + w + rest) == s;
    assert s[..|w|] == w && s[|w|..] == rest;
  }

  /** A printed number is read back. */
  lemma {:induction false} ReadsNumber(n: nat, rest: string, base: nat, limit: nat)
    requires IsBase(base) && n < limit
    requires rest == "" || IsSpace(rest[0])
    ensures ReadNumber(" " + Print(n, base) + rest, base, limit) == Got(n, rest)
    ensures ReadNumber(Print(n, base) + rest, base, limit) == Got(n, rest)
    ensures forall i | 0 <= i < |Print(n, base)| :: !IsSpace(Print(n, base)[i])
  {
    PrintValue(n, base);
    DigitsNoSpace(Print(n, base), base);
    ReadsDigits(Print(n, base), n, rest, base, limit);
  }

  /** A printed number that does not fit makes the stream fail. */
  lemma {:induction false} ReadsTooLarge(n: nat, base: nat, limit: nat)
    requires IsBase(base) && limit <= n
    ensures ReadNumber(Print(n, base), base, limit) == Fail
    ensures forall i | 0 <= i < |Print(n, base)| :: !IsSpace(Print(n, base)[i])
  {
    ReadsNumber(n, "", base, n + 1);
    assert Print(n, base) + "" == Print(n, base);
  }

  // ---------------------------------------------------------------------
  // Lines
  // ---------------------------------------------------------------------

  function PrintTail(ip: nat, time: nat): string {
    " " + Print(ip, 16) + (" t=" + Print(time, 10))
  }

  /** What follows "MEM": the fields of an access, then `s5`. */
  function MemFields(m: Mem, s5: string): string {
    " " + (if m.access.Read? then "R" else "W")
    + (" " + Print(m.address, 16) + (" " + "width" + (" " + Print(m.width, 10) + (" " + "IP" + s5))))
  }

  /** The line of an event at accumulated time `time`. */
  function PrintLine(e: Event, time: nat): string {
    match e.mem
    case None => "IP" + PrintTail(e.ip, time)
    case Some(m) => "MEM" + MemFields(m, PrintTail(e.ip, time))
  }

  /** Words with one space between them. */
  function Unwords(ws: seq<string>): string {
    if ws == [] then ""
    else if |ws| == 1 then ws[0]
    else ws[0] + (" " + Unwords(ws[1..]))
  }

  lemma {:induction false} UnwordsCons(w: string, ws: seq<string>)
    requires ws != []
    ensures Unwords([w] + ws) == w + (" " + Unwords(ws))
  {
    assert ([w] + ws)[1..] == ws;
  }

  /** The words of a line: what happened, to which address, where and when; addresses are
      hexadecimal, widths and times decimal. */
  function LineWords(e: Event, time: nat): seq<string> {
    (match e.mem
     case None => []
     case Some(m) =>
       ["MEM"] + ([if m.access.Read? then "R" else "W"]
                  + ([Print(m.address, 16)] + (["width"] + [Print(m.width, 10)]))))
    + TailWords(e.ip, time)
  }

  function TailWords(ip: nat, time: nat): seq<string> {
    ["IP"] + ([Print(ip, 16)] + ["t=" + Print(time, 10)])
  }

  lemma {:induction false} TailIsWords(ip: nat, time: nat)
    ensures "IP" + PrintTail(ip, time) == Unwords(TailWords(ip, time))
  {
    var w, x := Print(ip, 16), Print(time, 10);
    UnwordsCons(w, ["t=" + x]);
    UnwordsCons("IP", [w] + ["t=" + x]);
    assert " t=" + x == " " + ("t=" + x);
    Regroup(" ", w, " t=" + x);
  }

  lemma {:induction false} Regroup(a: string, b: string, c: string)
    ensures a + b + c == a + (b + c)
  {
  }

  /** A line is its words. */
  lemma {:induction false} LineIsWords(e: Event, time: nat)
    ensures PrintLine(e, time) == Unwords(LineWords(e, time))
  {
    var tail := TailWords(e.ip, time);
    TailIsWords(e.ip, time);
    match e.mem
    case None =>
      assert LineWords(e, time) == tail;
    case Some(m) =>
      var ws4 := [Print(m.width, 10)] + tail;
      var ws3 := ["width"] + ws4;
      var ws2 := [Print(m.address, 16)] + ws3;
      var access: string := if m.access.Read? then "R" else "W";
      var ws1 := [access] + ws2;
      assert LineWords(e, time) == ["MEM"] + ws1;
      UnwordsCons(Print(m.width, 10), tail);
      UnwordsCons("width", ws4);
      UnwordsCons(Print(m.address, 16), ws3);
      UnwordsCons(access, ws2);
      UnwordsCons("MEM", ws1);
      FieldsAreWords(m, PrintTail(e.ip, time), Unwords(tail), Unwords(ws4), Unwords(ws3), Unwords(ws2), Unwords(ws1));
  }

  lemma {:induction false} FieldsAreWords(
    m: Mem, s5: string, u5: string, u4: string, u3: string, u2: string, u1: string)
    requires "IP" + s5 == u5 && u4 == Print(m.width, 10) + (" " + u5) && u3 == "width" + (" " + u4)
    requires u2 == Print(m.address, 16) + (" " + u3) && u1 == (if m.access.Read? then "R" else "W") + (" " + u2)
    ensures MemFields(m, s5) == " " + u1
  {
    var access: string := if m.access.Read? then "R" else "W";
    Regroup(" ", "IP", s5);
    Regroup(" ", Print(m.width, 10), " " + u5);
    Regroup(" ", "width", " " + u4);
    Regroup(" ", Print(m.address, 16), " " + u3);
    Regroup(" ", access, " " + u2);
  }

  /** What the reader makes of a line: an event and its time, a line it skips with a
      message, or an assertion failure. */
  datatype Line = Parsed(ip: nat, mem: Option<Mem>, cycle: nat) | Skipped | Aborted

  /** After the event type: instruction address and time. */
  function ParseTail(evType: string, mem: Option<Mem>, s: string): Line {
    if evType != "IP" then Aborted
    else
      match ReadNumber(s, 16, TWO_64)
      case Fail => Skipped
      case Got(ip, s1) =>
        match ReadWord(s1)
        case Fail => Skipped
        case Got(w, _) =>
          if |w| < 2 || w[0] != 't' || w[1] != '=' then Skipped
          else
            match ReadNumber(w[2..], 10, TWO_63)
            case Fail => Skipped
            case Got(cycle, _) => Parsed(ip, mem, cycle)
  }

  function ParseMem(s: string): Line {
    match ReadWord(s)
    case Fail => Skipped
    case Got(access, s1) =>
      match ReadNumber(s1, 16, TWO_64)
      case Fail => Skipped
      case Got(address, s2) =>
        match ReadWord(s2)
        case Fail => Skipped
        case Got(_, s3) =>
          match ReadNumber(s3, 10, TWO_32)
          case Fail => Skipped
          case Got(width, s4) =>
            match ReadWord(s4)
            case Fail => Skipped
            case Got(evType, s5) =>
              ParseTail(evType, Some(Mem(address, width, if access == "R" then Read else Write)), s5)
  }

  function ParseLine(s: string): Line {
    match ReadWord(s)
    case Fail => Aborted
    case Got(evType, rest) => if evType == "MEM" then ParseMem(rest) else ParseTail(evType, None, rest)
  }

  lemma {:induction false} TailSteps(
    mem: Option<Mem>, s: string, ip: nat, s1: string, w: string, s2: string, cycle: nat, s3: string)
    requires ReadNumber(s, 16, TWO_64) == Got(ip, s1) && ReadWord(s1) == Got(w, s2)
    requires |w| >= 2 && w[0] == 't' && w[1] == '=' && ReadNumber(w[2..], 10, TWO_63) == Got(cycle, s3)
    ensures ParseTail("IP", mem, s) == Parsed(ip, mem, cycle)
  {
  }

  /** What reading a line with this time gives. */
  function AtTime(ip: nat, mem: Option<Mem>, time: nat): Line {
    if time < TWO_63 then Parsed(ip, mem, time) else Skipped
  }

  lemma {:induction false} TailReads(ip: nat, time: nat, mem: Option<Mem>)
    requires ip < TWO_64
    ensures ParseTail("IP", mem, PrintTail(ip, time)) == AtTime(ip, mem, time)
  {
    var number := Print(time, 10);
    var s1 := " t=" + number;
    ReadsNumber(ip, s1, 16, TWO_64);
    TimeReads(time);
    if time < TWO_63 {
      TailSteps(mem, PrintTail(ip, time), ip, s1, "t=" + number, "", time, "");
    }
  }

  lemma {:induction false} TimeReads(time: nat)
    ensures var w := "t=" + Print(time, 10);
            && ReadWord(" t=" + Print(time, 10)) == Got(w, "")
            && ReadNumber(w[2..], 10, TWO_63) == if time < TWO_63 then Got(time, "") else Fail
  {
    var number := Print(time, 10);
    NumberReads(time);
    TimeWordReads(number);
    assert ("t=" + number)[2..] == number;
  }

  lemma {:induction false} NumberReads(time: nat)
    ensures ReadNumber(Print(time, 10), 10, TWO_63) == if time < TWO_63 then Got(time, "") else Fail
    ensures forall i | 0 <= i < |Print(time, 10)| :: !IsSpace(Print(time, 10)[i])
  {
    if time < TWO_63 { ReadsNumber(time, "", 10, TWO_63); } else { ReadsTooLarge(time, 10, TWO_63); }
    assert Print(time, 10) + "" == Print(time, 10);
  }

  lemma {:induction false} TimeWordReads(number: string)
    requires forall i | 0 <= i < |number| :: !IsSpace(number[i])
    ensures ReadWord(" t=" + number) == Got("t=" + number, "")
  {
    var w := "t=" + number;
    ReadsWord(w, "");
    assert " " + w + "" == " t=" + number;
  }

  lemma {:induction false} MemSteps(s: string, access: string, s1: string, address: nat, s2: string, w: string,
                                    s3: string, width: nat, s4: string, evType: string, s5: string)
    requires ReadWord(s) == Got(access, s1) && ReadNumber(s1, 16, TWO_64) == Got(address, s2)
    requires ReadWord(s2) == Got(w, s3) && ReadNumber(s3, 10, TWO_32) == Got(width, s4)
    requires ReadWord(s4) == Got(evType, s5)
    ensures ParseMem(s) == ParseTail(evType, Some(Mem(address, width, if access == "R" then Read else Write)), s5)
  {
  }

  lemma {:induction false} AccessReads(m: Mem, s2: string)
    requires m.address < TWO_64 && s2 != "" && IsSpace(s2[0])
    ensures var access := if m.access.Read? then "R" else "W";
            var s1 := " " + Print(m.address, 16) + s2;
            ReadWord(" " + access + s1) == Got(access, s1) && ReadNumber(s1, 16, TWO_64) == Got(m.address, s2)
  {
    ReadsWord(if m.access.Read? then "R" else "W", " " + Print(m.address, 16) + s2);
    ReadsNumber(m.address, s2, 16, TWO_64);
  }

  lemma {:induction false} WidthReads(m: Mem, s4: string)
    requires m.width < TWO_32 && s4 != "" && IsSpace(s4[0])
    ensures var s3 := " " + Print(m.width, 10) + s4;
            ReadWord(" " + "width" + s3) == Got("width", s3) && ReadNumber(s3, 10, TWO_32) == Got(m.width, s4)
  {
    ReadsWord("width", " " + Print(m.width, 10) + s4);
    ReadsNumber(m.width, s4, 10, TWO_32);
  }

  lemma {:induction false} MemFieldsRead(m: Mem, s5: string)
    requires m.address < TWO_64 && m.width < TWO_32 && s5 != "" && IsSpace(s5[0])
    ensures ParseMem(MemFields(m, s5)) == ParseTail("IP", Some(m), s5)
  {
    var s4 := " " + "IP" + s5;
    var s3 := " " + Print(m.width, 10) + s4;
    var s2 := " " + "width" + s3;
    AccessReads(m, s2);
    WidthReads(m, s4);
    ReadsWord("IP", s5);
    MemSteps(MemFields(m, s5), if m.access.Read? then "R" else "W", " " + Print(m.address, 16) + s2,
             m.address, s2, "width", s3, m.width, s4, "IP", s5);
  }

  lemma {:induction false} MemReads(m: Mem, ip: nat, time: nat)
    requires m.address < TWO_64 && m.width < TWO_32 && ip < TWO_64
    ensures ParseMem(MemFields(m, PrintTail(ip, time))) == AtTime(ip, Some(m), time)
  {
    MemFieldsRead(m, PrintTail(ip, time));
    TailReads(ip, time, Some(m));
  }

  /** Every printed line is read back with the same contents, unless its time does not
      fit into a signed 64-bit number; then it is skipped. */
  lemma {:induction false} LineReads(e: Event, time: nat)
    requires ValidEvent(e)
    ensures ParseLine(PrintLine(e, time)) == AtTime(e.ip, e.mem, time)
  {
    match e.mem
    case None =>
      ReadsWord("IP", PrintTail(e.ip, time));
      TailReads(e.ip, time, None);
    case Some(m) =>
      ReadsWord("MEM", MemFields(m, PrintTail(e.ip, time)));
      MemReads(m, e.ip, time);
  }

  // ---------------------------------------------------------------------
  // Whole traces
  // ---------------------------------------------------------------------

  /** The dump: times are accumulated while printing. */
  function DumpLines(t: seq<Event>): (lines: seq<string>)
    ensures |lines| == |t|
  {
    if t == [] then [] else DumpLines(t[..|t| - 1]) + [PrintLine(t[|t| - 1], AccTime(t))]
  }

  /** The reader's state: events written, the previous time, and whether it aborted. */
  datatype Reader = Reader(events: seq<Event>, prevCycle: nat, aborted: bool)

  /** One line.  Only increasing time yields a delta. */
  function Accept(r: Reader, line: Line): Reader {
    if r.aborted then r
    else
      match line
      case Skipped => r
      case Aborted => r.(aborted := true)
      case Parsed(ip, mem, cycle) =>
        var delta := if cycle > r.prevCycle then Some(cycle - r.prevCycle) else None;
        Reader(r.events + [Event(ip, mem, delta)], cycle, false)
  }

  function ReadLine(r: Reader, line: string): Reader {
    Accept(r, ParseLine(line))
  }

  function ReadLines(lines: seq<string>): Reader {
    if lines == [] then Reader([], 0, false)
    else ReadLine(ReadLines(lines[..|lines| - 1]), lines[|lines| - 1])
  }

  /** A zero delta is the same as none. */
  function Normalize(e: Event): Event {
    if e.delta == Some(0) then e.(delta := None) else e
  }

  function NormalizeAll(t: seq<Event>): (r: seq<Event>)
    ensures |r| == |t| && forall i | 0 <= i < |t| :: r[i] == Normalize(t[i])
  {
    seq(|t|, i requires 0 <= i < |t| => Normalize(t[i]))
  }

  /** What the dump of a trace is read back as: each event at its printed time. */
  function ReadBack(t: seq<Event>): Reader {
    if t == [] then Reader([], 0, false)
    else
      var e := t[|t| - 1];
      Accept(ReadBack(t[..|t| - 1]), AtTime(e.ip, e.mem, AccTime(t)))
  }

  lemma {:induction false} DumpReadBack(t: seq<Event>)
    requires ValidTrace(t)
    ensures ReadLines(DumpLines(t)) == ReadBack(t)
  {
    if t != [] {
      var p, e, lines := t[..|t| - 1], t[|t| - 1], DumpLines(t);
      DumpReadBack(p);
      assert lines[..|lines| - 1] == DumpLines(p) && lines[|lines| - 1] == PrintLine(e, AccTime(t));
      LineReads(e, AccTime(t));
    }
  }

  lemma {:induction false} ForwardPrefix(t: seq<Event>)
    requires t != [] && Forward(t)
    ensures Forward(t[..|t| - 1]) && 0 <= Delta(t[|t| - 1])
  {
    assert t[|t| - 1] in t;
  }

  /** Reading a dump back gives the trace, with the same accumulated times and zero
      deltas absent. */
  lemma {:induction false} RoundTrip(t: seq<Event>)
    requires Forward(t)
    ensures AccTime(t) == TotalTime(t) && ReadBack(t) == Reader(NormalizeAll(t), AccTime(t), false)
  {
    if t == [] {
      assert NormalizeAll(t) == [];
    } else {
      ForwardPrefix(t);
      RoundTrip(t[..|t| - 1]);
      AcceptsNext(t);
    }
  }

  /** What reading the last line adds. */
  lemma {:induction false} AcceptsNext(t: seq<Event>)
    requires t != [] && 0 <= Delta(t[|t| - 1]) && AccTime(t) == AccTime(t[..|t| - 1]) + Delta(t[|t| - 1])
    ensures var p, e := t[..|t| - 1], t[|t| - 1];
            Accept(Reader(NormalizeAll(p), AccTime(p), false), Parsed(e.ip, e.mem, AccTime(t))) ==
            Reader(NormalizeAll(t), AccTime(t), false)
  {
  }

  /** A dump never makes the reader abort, and no line yields more than one event. */
  lemma {:induction false} NeverAborts(t: seq<Event>)
    ensures var r := ReadBack(t); !r.aborted && |r.events| <= |t|
  {
    if t != [] {
      NeverAborts(t[..|t| - 1]);
    }
  }

  /** The last event of a trace that was read back. */
  lemma {:induction false} ReadBackLast(t: seq<Event>)
    requires t != [] && ReadBack(t).events == NormalizeAll(t)
    ensures var p, e := t[..|t| - 1], t[|t| - 1];
            && ReadBack(p).events == NormalizeAll(p)
            && AccTime(t) < TWO_63
            && Normalize(e).delta ==
               var prev := ReadBack(p).prevCycle;
               if AccTime(t) > prev then Some(AccTime(t) - prev) else None
  {
    var p, e := t[..|t| - 1], t[|t| - 1];
    var r, r' := ReadBack(p), ReadBack(t);
    NeverAborts(p);
    assert |r'.events| == |t|;
    assert r.events == r'.events[..|p|] == NormalizeAll(t)[..|p|] == NormalizeAll(p);
    assert r'.events[|p|] == Normalize(e);
  }

  lemma {:induction false} LastForward(t: seq<Event>)
    requires t != [] && ValidEvent(t[|t| - 1]) && Forward(t[..|t| - 1])
    requires AccTime(t[..|t| - 1]) == TotalTime(t[..|t| - 1]) && AccTime(t) < TWO_63
    requires var prev := AccTime(t[..|t| - 1]);
             Normalize(t[|t| - 1]).delta == if AccTime(t) > prev then Some(AccTime(t) - prev) else None
    ensures Forward(t)
  {
    var p, e := t[..|t| - 1], t[|t| - 1];
    assert 0 <= Delta(e);
    assert forall i | 0 <= i < |p| :: t[i] == p[i];
  }

  /** The trace is only read back if time moves forward and stays below 2^63. */
  lemma {:induction false} ReadBackIsForward(t: seq<Event>)
    requires ValidTrace(t) && ReadBack(t).events == NormalizeAll(t)
    ensures Forward(t)
  {
    if t != [] {
      var p, e := t[..|t| - 1], t[|t| - 1];
      ReadBackLast(t);
      ReadBackIsForward(p);
      RoundTrip(p);
      LastForward(t);
    }
  }

  /** A trace survives the round trip, zero deltas being the same as none, exactly if
      time moves forward and stays below 2^63. */
  lemma {:induction false} RoundTripIff(t: seq<Event>)
    requires ValidTrace(t)
    ensures ReadLines(DumpLines(t)).events == NormalizeAll(t) <==> Forward(t)
  {
    DumpReadBack(t);
    if Forward(t) { RoundTrip(t); }
    if ReadBack(t).events == NormalizeAll(t) { ReadBackIsForward(t); }
  }

  const TWO_62: nat := 0x4000_0000_0000_0000

  lemma {:induction false} LateReadBack(t: seq<Event>)
    requires |t| == 2 && t[0].delta == t[1].delta == Some(TWO_62)
    ensures !Forward(t) && ReadBack(t).events == NormalizeAll(t[..1])
  {
    var p := t[..1];
    assert p[..0] == [] && TotalTime(p) == TWO_62;
    RoundTrip(p);
    assert AccTime(t) == TWO_63;
  }

  /** Two events, each 2^62 after what was before: the second is lost. */
  lemma {:induction false} LateEventLost(t: seq<Event>)
    requires ValidTrace(t) && |t| == 2 && t[0].delta == t[1].delta == Some(TWO_62)
    ensures !Forward(t) && ReadLines(DumpLines(t)).events == NormalizeAll(t[..1])
  {
    LateReadBack(t);
    DumpReadBack(t);
  }

  lemma {:induction false} BackReadBack(t: seq<Event>)
    requires |t| == 2 && t[0].delta == Some(1) && t[1].delta == Some(-1)
    ensures !Forward(t) && ReadBack(t).events == NormalizeAll(t[..1]) + [t[1].(delta := None)]
  {
    var p := t[..1];
    assert p[..0] == [] && TotalTime(p) == 1;
    RoundTrip(p);
  }

  /** An event 1 before its predecessor: the step back is lost. */
  lemma {:induction false} StepBackLost(t: seq<Event>)
    requires ValidTrace(t) && |t| == 2 && t[0].delta == Some(1) && t[1].delta == Some(-1)
    ensures !Forward(t)
    ensures ReadLines(DumpLines(t)).events == NormalizeAll(t[..1]) + [t[1].(delta := None)]
  {
    BackReadBack(t);
    DumpReadBack(t);
  }

  // ---------------------------------------------------------------------
  // The two tools
  // ---------------------------------------------------------------------

  /** The event loop of the dump tool. */
  method Dump(t: seq<Event>) returns (lines: seq<string>)
    ensures lines == DumpLines(t)
  {
    lines := [];
    var acctime: nat := 0;
    for k := 0 to |t|
      invariant lines == DumpLines(t[..k]) && acctime == AccTime(t[..k])
    {
      assert t[..k + 1][..k] == t[..k];
      if t[k].delta.Some? {
        acctime := Add64(acctime, t[k].delta.value);
      }
      lines := lines + [PrintLine(t[k], acctime)];
    }
    assert t[..|t|] == t;
  }

  /** The body of the convert tool's line loop. */
  method ConvertLine(line: Line, events: seq<Event>, prevCycle: nat)
    returns (events': seq<Event>, prevCycle': nat, aborted: bool)
    ensures Reader(events', prevCycle', aborted) == Accept(Reader(events, prevCycle, false), line)
  {
    events', prevCycle', aborted := events, prevCycle, false;
    match line
    case Skipped =>
    case Aborted => aborted := true;
    case Parsed(ip, mem, cycle) =>
      var delta := None;
      if cycle - prevCycle > 0 {
        delta := Some(cycle - prevCycle);
        prevCycle' := cycle;
      } else if cycle - prevCycle < 0 {
        prevCycle' := cycle;
      }
      events' := events + [Event(ip, mem, delta)];
  }

  /** The line loop of the convert tool. */
  method Convert(lines: seq<string>) returns (events: seq<Event>, aborted: bool)
    ensures aborted == ReadLines(lines).aborted
    ensures !aborted ==> events == ReadLines(lines).events
  {
    events, aborted := [], false;
    var prevCycle := 0;
    for k := 0 to |lines|
      invariant !aborted && ReadLines(lines[..k]) == Reader(events, prevCycle, false)
    {
      assert lines[..k + 1][..k] == lines[..k];
      events, prevCycle, aborted := ConvertLine(ParseLine(lines[k]), events, prevCycle);
      if aborted {
        AbortStays(lines, k + 1);
        return;
      }
    }
    assert lines[..|lines|] == lines;
  }

  lemma {:induction false} AbortStays(lines: seq<string>, k: nat)
    requires k <= |lines| && ReadLines(lines[..k]).aborted
    ensures ReadLines(lines).aborted
    decreases |lines|
  {
    if k == |lines| {
      assert lines[..k] == lines;
    } else {
      assert lines[..|lines| - 1][..k] == lines[..k];
      AbortStays(lines[..|lines| - 1], k);
    }
  }

  /** Dump followed by convert. */
  method DumpAndConvert(t: seq<Event>) returns (events: seq<Event>, aborted: bool)
    requires ValidTrace(t)
    ensures !aborted && |events| <= |t|
    ensures events == NormalizeAll(t) <==> Forward(t)
  {
    var lines := Dump(t);
    RoundTripIff(t);
    DumpReadBack(t);
    NeverAborts(t);
    events, aborted := Convert(lines);
  }
}
