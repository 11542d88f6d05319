/** The text of the holder sidecar: `_write_holder_record` and `_read_holder_record` of
    altavista/docker_test_lock.py, over the characters of the file. */
module HolderRecord {
  import opened Base

  datatype Holder = Holder(pid: nat, tree: string, command: string, time: string)

  // ---------------------------------------------------------------- decimal pids

  function Digit(d: nat): (c: char)
    requires d < 10
    ensures '0' <= c <= '9'
  {
    '0' + d as char
  }

  /** f"{pid}" */
  function Decimal(n: nat): string {
    if n < 10 then [Digit(n)] else Decimal(n / 10) + [Digit(n % 10)]
  }

  predicate AsciiDigits(s: string) {
    forall i :: 0 <= i < |s| ==> '0' <= s[i] <= '9'
  }

  /** int(record["pid"]) for ASCII digits. */
  function ParseDecimal(s: string): nat
    requires AsciiDigits(s)
  {
    if s == [] then 0 else 10 * ParseDecimal(s[..|s| - 1]) + (s[|s| - 1] as nat - '0' as nat)
  }

  lemma {:induction false} DecimalParses(n: nat)
    ensures Decimal(n) != [] && AsciiDigits(Decimal(n)) && ParseDecimal(Decimal(n)) == n
    decreases n
  {
    if n < 10 {
      assert Decimal(n)[..0] == [];
    } else {
      DecimalParses(n / 10);
      assert Decimal(n)[..|Decimal(n)| - 1] == Decimal(n / 10);
    }
  }

  // ---------------------------------------------------------------- lines

  /** Everything `str.splitlines` breaks a line at. */
  predicate Separator(c: char) {
    || c == '\n' || c == '\r' || c == '\U{0b}' || c == '\U{0c}' || c == '\U{1c}'
    || c == '\U{1d}' || c == '\U{1e}' || c == '\U{85}' || c == '\U{2028}' || c == '\U{2029}'
  }

  predicate OneLine(s: string) {
    forall i :: 0 <= i < |s| ==> !Separator(s[i])
  }

  /** The newline translation of `read_text`: "\r\n" and "\r" become "\n". */
  function Universal(s: string): string {
    if s == [] then []
    else if s[0] == '\r' then ['\n'] + Universal(if |s| > 1 && s[1] == '\n' then s[2..] else s[1..])
    else [s[0]] + Universal(s[1..])
  }

  /** `str.splitlines` of a text in which "\r\n" no longer occurs; `line` is the line read so far. */
  function SplitLines(s: string, line: string): seq<string>
    decreases |s|
  {
    if s == [] then (if line == [] then [] else [line])
    else if Separator(s[0]) then [line] + SplitLines(s[1..], [])
    else SplitLines(s[1..], line + [s[0]])
  }

  function Lines(raw: string): seq<string> {
    SplitLines(Universal(raw), [])
  }

  /** The position of the first '=', or the length. */
  function Partition(line: string): (n: nat)
    ensures n <= |line|
    ensures n < |line| ==> line[n] == '='
    ensures forall i :: 0 <= i < n ==> line[i] != '='
  {
    if line == [] || line[0] == '=' then 0 else 1 + Partition(line[1..])
  }

  // ---------------------------------------------------------------- writer and reader

  function Entry(key: string, value: string): string {
    key + "=" + value
  }

  /** The pieces one after another, each followed by its end character. */
  function Ended(pieces: seq<string>, ends: seq<char>): string
    requires |pieces| == |ends|
  {
    if pieces == [] then "" else pieces[0] + [ends[0]] + Ended(pieces[1..], ends[1..])
  }

  function Entries(h: Holder): seq<string> {
    [Entry("pid", Decimal(h.pid)), Entry("tree", h.tree), Entry("command", h.command), Entry("time", h.time)]
  }

  /** One `key=value` line per field, in this order. */
  function Written(h: Holder): string {
    Ended(Entries(h), ['\n', '\n', '\n', '\n'])
  }

  /** What the reader's dictionary holds after these lines. */
  function Fields(lines: seq<string>): map<string, string>
    decreases |lines|
  {
    if lines == [] then map[]
    else
      var line := lines[|lines| - 1];
      var n := Partition(line);
      var before := Fields(lines[..|lines| - 1]);
      if n < |line| then before[line[..n] := line[n + 1..]] else before
  }

  /** `str.isdigit`: ASCII digits, and the Unicode digits that `other` stands for. */
  predicate IsDigit(s: string, other: char -> bool) {
    s != [] && forall i :: 0 <= i < |s| ==> '0' <= s[i] <= '9' || other(s[i])
  }

  predicate Readable(fields: map<string, string>, other: char -> bool) {
    "pid" in fields && "tree" in fields && "command" in fields && "time" in fields && IsDigit(fields["pid"], other)
  }

  function Read(raw: string, other: char -> bool): Option<map<string, string>> {
    var fields := Fields(Lines(raw));
    if Readable(fields, other) then Some(fields) else None
  }

  /** `_read_holder_record` on the text of the file. */
  method ReadHolderRecord(raw: string, other: char -> bool) returns (record: Option<map<string, string>>)
    ensures record == Read(raw, other)
  {
    var fields: map<string, string> := map[];
    var lines := Lines(raw);
    for k := 0 to |lines|
      invariant fields == Fields(lines[..k])
    {
      var line := lines[k];
      assert lines[..k + 1][..k] == lines[..k];
      var n := Partition(line);
      if n < |line| {
        fields := fields[line[..n] := line[n + 1..]];
      }
    }
    assert lines[..|lines|] == lines;
    if "pid" !in fields || "tree" !in fields || "command" !in fields || "time" !in fields {
      return None;
    }
    if !IsDigit(fields["pid"], other) {
      return None;
    }
    record := Some(fields);
  }

  // ---------------------------------------------------------------- what is read

  /** Line k begins with the key and '=', and no later line does. */
  ghost predicate LastFor(lines: seq<string>, key: string, k: nat) {
    && k < |lines| && key + "=" <= lines[k]
    && forall m :: k < m < |lines| ==> !(key + "=" <= lines[m])
  }

  lemma PartitionAt(line: string, key: string)
    requires '=' !in key
    ensures key + "=" <= line <==> Partition(line) == |key| < |line| && line[..|key|] == key
  {
    var n := Partition(line);
    if key + "=" <= line {
      assert line[|key|] == (key + "=")[|key|] == '=';
      assert forall i :: 0 <= i < |key| ==> line[i] == (key + "=")[i] == key[i];
    }
    if n == |key| < |line| && line[..|key|] == key {
      assert line[..|key| + 1] == key + "=";
    }
  }

  /** The dictionary has a key exactly when some line begins with it and '='; its value is what follows in the last. */
  lemma {:induction false} FieldsAre(lines: seq<string>, key: string)
    ensures key in Fields(lines) ==> '=' !in key
    ensures '=' !in key ==> (key in Fields(lines) <==> exists k: nat :: LastFor(lines, key, k))
    ensures forall k: nat :: '=' !in key && LastFor(lines, key, k) ==> Fields(lines)[key] == lines[k][|key| + 1..]
    decreases |lines|
  {
    if lines != [] {
      var k := |lines| - 1;
      var front, line := lines[..k], lines[k];
      FieldsAre(front, key);
      if '=' !in key {
        PartitionAt(line, key);
        if key + "=" <= line {
          assert LastFor(lines, key, k);
        } else {
          forall m: nat ensures LastFor(lines, key, m) <==> LastFor(front, key, m) {
            assert forall i :: 0 <= i < k ==> front[i] == lines[i];
          }
        }
      }
    }
  }

  /** The text after the last "pid=" that begins a line is digits. */
  ghost predicate PidLineIsDigits(lines: seq<string>, other: char -> bool) {
    exists k: nat ::
      && LastFor(lines, "pid", k) && |lines[k]| > 4
      && forall i :: 4 <= i < |lines[k]| ==> '0' <= lines[k][i] <= '9' || other(lines[k][i])
  }

  lemma OneLast(lines: seq<string>, key: string, k: nat, m: nat)
    requires LastFor(lines, key, k) && LastFor(lines, key, m)
    ensures k == m
  {
  }

  lemma PidDigitsIff(lines: seq<string>, other: char -> bool)
    requires "pid" in Fields(lines)
    ensures IsDigit(Fields(lines)["pid"], other) <==> PidLineIsDigits(lines, other)
  {
    hide Fields;
    FieldsAre(lines, "pid");
    var k: nat :| LastFor(lines, "pid", k);
    var pid := Fields(lines)["pid"];
    assert pid == lines[k][4..];
    assert forall i :: 4 <= i < |lines[k]| ==> lines[k][i] == pid[i - 4];
    assert forall i :: 0 <= i < |pid| ==> pid[i] == lines[k][i + 4];
    if PidLineIsDigits(lines, other) {
      var m: nat :| LastFor(lines, "pid", m) && |lines[m]| > 4
        && forall i :: 4 <= i < |lines[m]| ==> '0' <= lines[m][i] <= '9' || other(lines[m][i]);
      OneLast(lines, "pid", k, m);
    }
  }

  /** A record is read exactly when some line begins with each of the four names and '=' and the text after the last
      "pid=" is digits. */
  lemma ReadableIff(raw: string, other: char -> bool)
    ensures var lines := Lines(raw);
      Read(raw, other).Some? <==>
        && PidLineIsDigits(lines, other)
        && (exists k: nat :: LastFor(lines, "tree", k)) && (exists k: nat :: LastFor(lines, "command", k))
        && (exists k: nat :: LastFor(lines, "time", k))
  {
    hide Fields, LastFor, Lines;
    var lines := Lines(raw);
    FieldsAre(lines, "pid");
    FieldsAre(lines, "tree");
    FieldsAre(lines, "command");
    FieldsAre(lines, "time");
    if "pid" in Fields(lines) {
      PidDigitsIff(lines, other);
    }
  }

  /** In what is read each name's value is what follows its '=' in the last line that begins with them, and every
      line with a '=' has its name. */
  lemma ReadIs(raw: string, other: char -> bool, key: string)
    requires Read(raw, other).Some?
    ensures key in Read(raw, other).value <==> '=' !in key && exists k: nat :: LastFor(Lines(raw), key, k)
    ensures forall k: nat :: '=' !in key && LastFor(Lines(raw), key, k) ==>
      Read(raw, other).value[key] == Lines(raw)[k][|key| + 1..]
  {
    hide Fields, LastFor, Lines;
    FieldsAre(Lines(raw), key);
  }

  /** A record without all four fields is none. */
  lemma PidAloneIsNoRecord(other: char -> bool)
    ensures Read("pid=123\n", other) == None
  {
    EndedReads("pid=123\n", ["pid=123"], ['\n']);
    assert Ended([], []) == "";
    assert Ended(["pid=123"], ['\n']) == "pid=123" + ['\n'] + "" == "pid=123\n";
    ReadableIff("pid=123\n", other);
    assert ("tree" + "=")[0] == 't' && ["pid=123"][0][0] == 'p';
  }

  // ---------------------------------------------------------------- round trip

  lemma {:induction false} UniversalKeeps(s: string, rest: string)
    requires '\r' !in s
    ensures Universal(s + rest) == s + Universal(rest)
  {
    if s == [] {
      assert s + rest == rest;
    } else {
      assert (s + rest)[1..] == s[1..] + rest;
      UniversalKeeps(s[1..], rest);
    }
  }

  lemma {:induction false} SplitAt(line: string, s: string, c: char, rest: string)
    requires OneLine(s) && Separator(c)
    ensures SplitLines(s + [c] + rest, line) == [line + s] + SplitLines(rest, [])
    decreases |s|
  {
    var text := s + [c] + rest;
    if s == [] {
      assert text[1..] == rest && line + s == line;
    } else {
      assert text[1..] == s[1..] + [c] + rest;
      SplitAt(line + [s[0]], s[1..], c, rest);
      assert line + [s[0]] + s[1..] == line + s;
    }
  }

  /** A text made of one-line pieces, each ended by a separator that is not "\r", reads as the pieces. */
  lemma {:induction false} EndedLines(pieces: seq<string>, ends: seq<char>)
    requires |pieces| == |ends|
    requires forall i :: 0 <= i < |pieces| ==> OneLine(pieces[i]) && Separator(ends[i]) && ends[i] != '\r'
    ensures SplitLines(Ended(pieces, ends), []) == pieces
    ensures '\r' !in Ended(pieces, ends)
  {
    if pieces != [] {
      SplitAt([], pieces[0], ends[0], Ended(pieces[1..], ends[1..]));
      EndedLines(pieces[1..], ends[1..]);
      assert Separator('\r');
      assert [] + pieces[0] == pieces[0] && [pieces[0]] + pieces[1..] == pieces;
    }
  }

  lemma EndedReads(raw: string, pieces: seq<string>, ends: seq<char>)
    requires |pieces| == |ends| && raw == Ended(pieces, ends)
    requires forall i :: 0 <= i < |pieces| ==> OneLine(pieces[i]) && Separator(ends[i]) && ends[i] != '\r'
    ensures Lines(raw) == pieces
  {
    EndedLines(pieces, ends);
    UniversalKeeps(raw, "");
    assert raw + "" == raw;
  }

  /** The ten characters a line ends at. */
  const LINE_ENDS: set<char> := {'\n', '\r', '\U{0b}', '\U{0c}', '\U{1c}', '\U{1d}', '\U{1e}', '\U{85}', '\U{2028}',
                                 '\U{2029}'}

  /** Three laws that together say what the lines of every text are: a text without line ends is one line, or none
      when it is empty; the first line end ends the first line; and "\r\n" is one line end. */
  lemma LinesAre(s: string, c: char, rest: string)
    requires forall i :: 0 <= i < |s| ==> s[i] !in LINE_ENDS
    ensures Lines(s) == if s == [] then [] else [s]
    ensures c in LINE_ENDS && !(c == '\r' && rest != [] && rest[0] == '\n') ==>
      Lines(s + [c] + rest) == [s] + Lines(rest)
    ensures Lines(s + ['\r', '\n'] + rest) == [s] + Lines(rest)
  {
    assert forall x: char :: Separator(x) <==> x in LINE_ENDS;
    UniversalKeeps(s, []);
    assert s + [] == s;
    NoSplit(s, []);
    UniversalKeeps(s, [c] + rest);
    assert s + [c] + rest == s + ([c] + rest);
    assert ([c] + rest)[1..] == rest;
    var d := if c == '\r' then '\n' else c;
    if c in LINE_ENDS && !(c == '\r' && rest != [] && rest[0] == '\n') {
      assert Universal(s + [c] + rest) == s + [d] + Universal(rest);
      SplitAt([], s, d, Universal(rest));
    }
    UniversalKeeps(s, ['\r', '\n'] + rest);
    assert s + ['\r', '\n'] + rest == s + (['\r', '\n'] + rest);
    assert (['\r', '\n'] + rest)[2..] == rest;
    assert Universal(s + ['\r', '\n'] + rest) == s + ['\n'] + Universal(rest);
    SplitAt([], s, '\n', Universal(rest));
    assert [] + s == s;
  }

  lemma {:induction false} NoSplit(s: string, line: string)
    requires OneLine(s)
    ensures SplitLines(s, line) == if line + s == [] then [] else [line + s]
    decreases |s|
  {
    if s == [] {
      assert line + s == line;
    } else {
      NoSplit(s[1..], line + [s[0]]);
      assert line + [s[0]] + s[1..] == line + s;
    }
  }

  lemma EndedCons(first: string, rest: seq<string>, ends: seq<char>)
    requires |rest| == |ends|
    ensures Ended([first] + rest, ['\n'] + ends) == first + "\n" + Ended(rest, ends)
  {
    assert ([first] + rest)[1..] == rest && (['\n'] + ends)[1..] == ends;
  }

  lemma EndedFour(a: string, b: string, c: string, d: string)
    ensures Ended([a, b, c, d], ['\n', '\n', '\n', '\n']) == a + "\n" + (b + "\n" + (c + "\n" + (d + "\n")))
  {
    hide Ended;
    EndedCons(d, [], []);
    EndedCons(c, [d], ['\n']);
    EndedCons(b, [c, d], ['\n', '\n']);
    EndedCons(a, [b, c, d], ['\n', '\n', '\n']);
    assert Ended([], []) == "" by { NothingEnded(); }
    assert [c] + [d] == [c, d] && [b] + [c, d] == [b, c, d] && [a] + [b, c, d] == [a, b, c, d] && [d] + [] == [d];
    assert ['\n'] + [] == ['\n'] && ['\n'] + ['\n'] == ['\n', '\n'] && ['\n'] + ['\n', '\n'] == ['\n', '\n', '\n'];
    assert ['\n'] + ['\n', '\n', '\n'] == ['\n', '\n', '\n', '\n'];
    assert d + "\n" + "" == d + "\n";
  }

  lemma NothingEnded()
    ensures Ended([], []) == ""
  {
  }

  /** The text of a record. */
  lemma WrittenIs(h: Holder)
    ensures Written(h) == "pid=" + Decimal(h.pid) + "\n" + ("tree=" + h.tree + "\n"
      + ("command=" + h.command + "\n" + ("time=" + h.time + "\n")))
  {
    hide Ended;
    EndedFour(Entry("pid", Decimal(h.pid)), Entry("tree", h.tree), Entry("command", h.command), Entry("time", h.time));
    assert "pid" + "=" == "pid=" && "tree" + "=" == "tree=" && "command" + "=" == "command=" && "time" + "=" == "time=";
  }

  lemma EntryParses(before: seq<string>, key: string, value: string)
    requires '=' !in key
    ensures Fields(before + [Entry(key, value)]) == Fields(before)[key := value]
  {
    var line := Entry(key, value);
    var n := Partition(line);
    assert (before + [line])[..|before|] == before;
    assert line[|key|] == '=' && forall i :: 0 <= i < |key| ==> line[i] == key[i];
    assert line[..n] == key && line[n + 1..] == value;
  }

  function Exact(h: Holder): map<string, string> {
    map["pid" := Decimal(h.pid), "tree" := h.tree, "command" := h.command, "time" := h.time]
  }

  /** No text of the record breaks a line. */
  predicate Clean(h: Holder) {
    OneLine(h.tree) && OneLine(h.command) && OneLine(h.time)
  }

  lemma CleanRecordLines(h: Holder)
    requires Clean(h)
    ensures Lines(Written(h)) == Entries(h)
  {
    DecimalParses(h.pid);
    EndedReads(Written(h), Entries(h), ['\n', '\n', '\n', '\n']);
  }

  lemma ThreeEntries(v: string, w: string, x: string)
    ensures Fields([Entry("pid", v), Entry("tree", w), Entry("command", x)])
         == map["pid" := v, "tree" := w, "command" := x]
  {
    var e1 := [Entry("pid", v)];
    var e2 := e1 + [Entry("tree", w)];
    EntryParses([], "pid", v);
    assert [] + [Entry("pid", v)] == e1;
    EntryParses(e1, "tree", w);
    EntryParses(e2, "command", x);
    assert e2 + [Entry("command", x)] == [Entry("pid", v), Entry("tree", w), Entry("command", x)];
  }

  lemma CleanFields(h: Holder)
    requires Clean(h)
    ensures Fields(Lines(Written(h))) == Exact(h)
  {
    CleanRecordLines(h);
    ThreeEntries(Decimal(h.pid), h.tree, h.command);
    var e3 := [Entry("pid", Decimal(h.pid)), Entry("tree", h.tree), Entry("command", h.command)];
    EntryParses(e3, "time", h.time);
    assert e3 + [Entry("time", h.time)] == Entries(h);
  }

  lemma CleanRoundTrip(h: Holder, other: char -> bool)
    requires Clean(h)
    ensures Read(Written(h), other) == Some(Exact(h))
  {
    CleanFields(h);
    DecimalParses(h.pid);
  }

  lemma {:induction false} LinesAreOneLine(s: string, line: string, i: nat)
    requires OneLine(line) && i < |SplitLines(s, line)|
    ensures OneLine(SplitLines(s, line)[i])
    decreases |s|
  {
    if s == [] {
    } else if Separator(s[0]) {
      if i > 0 {
        LinesAreOneLine(s[1..], [], i - 1);
      }
    } else {
      LinesAreOneLine(s[1..], line + [s[0]], i);
    }
  }

  lemma {:induction false} FieldsAreOneLine(lines: seq<string>, key: string)
    requires forall i :: 0 <= i < |lines| ==> OneLine(lines[i])
    requires key in Fields(lines)
    ensures OneLine(Fields(lines)[key])
    decreases |lines|
  {
    var line := lines[|lines| - 1];
    var n := Partition(line);
    if !(n < |line| && key == line[..n]) {
      FieldsAreOneLine(lines[..|lines| - 1], key);
    }
  }

  /** The printer and the parser undo each other exactly for the records whose texts hold none of the
      separators, whatever '=' signs they hold. */
  lemma RoundTripIffClean(h: Holder, other: char -> bool)
    ensures Read(Written(h), other) == Some(Exact(h)) <==> Clean(h)
    ensures Clean(h) ==> AsciiDigits(Exact(h)["pid"]) && ParseDecimal(Exact(h)["pid"]) == h.pid
  {
    DecimalParses(h.pid);
    if Clean(h) {
      CleanRoundTrip(h, other);
    }
    if Read(Written(h), other) == Some(Exact(h)) {
      var lines := Lines(Written(h));
      forall i | 0 <= i < |lines| ensures OneLine(lines[i]) {
        LinesAreOneLine(Universal(Written(h)), [], i);
      }
      FieldsAreOneLine(lines, "tree");
      FieldsAreOneLine(lines, "command");
      FieldsAreOneLine(lines, "time");
    }
  }

  // ---------------------------------------------------------------- the command line

  const COMMAND_MAX_LEN := 200

  function Flat(s: string): (f: string)
    ensures |f| == |s|
    ensures forall i :: 0 <= i < |s| ==> f[i] == if s[i] == '\n' || s[i] == '\r' then ' ' else s[i]
  {
    seq(|s|, i requires 0 <= i < |s| => if s[i] == '\n' || s[i] == '\r' then ' ' else s[i])
  }

  /** `_current_command_line` on the joined arguments. */
  function CommandLine(joined: string): string {
    var command := Flat(joined);
    if |command| > COMMAND_MAX_LEN then command[..COMMAND_MAX_LEN] + "...(truncated)" else command
  }

  /** The separators the flattening leaves alone. */
  predicate Kept(c: char) {
    Separator(c) && c != '\n' && c != '\r'
  }

  /** The flattened command line is one line exactly when the first 200 characters of the real one hold
      none of the eight separators besides newline and carriage return. */
  lemma CommandLineIsOneLineIff(joined: string)
    ensures OneLine(CommandLine(joined))
        <==> forall i :: 0 <= i < |joined| && i < COMMAND_MAX_LEN ==> !Kept(joined[i])
    ensures |CommandLine(joined)| <= COMMAND_MAX_LEN + 14
  {
    var c := CommandLine(joined);
    assert forall i :: 0 <= i < |joined| && i < COMMAND_MAX_LEN ==> c[i] == Flat(joined)[i];
    if |joined| > COMMAND_MAX_LEN {
      assert c[COMMAND_MAX_LEN..] == "...(truncated)";
      assert forall i :: COMMAND_MAX_LEN <= i < |c| ==> c[i] == c[COMMAND_MAX_LEN..][i - COMMAND_MAX_LEN];
      assert OneLine("...(truncated)");
    }
  }

  /** A command line of up to 200 characters is kept, its newlines and carriage returns made spaces; of a longer one the
      first 200 characters are, followed by a mark. */
  lemma CommandLineIs(joined: string)
    ensures var c := CommandLine(joined);
      && |c| == (if |joined| <= 200 then |joined| else 214)
      && (forall i :: 0 <= i < |joined| && i < 200 ==> c[i] == if joined[i] in {'\n', '\r'} then ' ' else joined[i])
      && (|joined| > 200 ==> c[200..] == "...(truncated)")
  {
    assert CommandLine(joined)[..if |joined| <= 200 then |joined| else 200]
        == Flat(joined)[..if |joined| <= 200 then |joined| else 200];
  }

  lemma {:induction false} EndedSplit(before: seq<string>, p: string, c: char, q: string, after: seq<string>,
                                      ends: seq<char>, e: char, ends': seq<char>)
    requires |before| == |ends| && |after| == |ends'|
    ensures Ended(before + [p + [c] + q] + after, ends + [e] + ends')
         == Ended(before + [p, q] + after, ends + [c, e] + ends')
  {
    var one, two := before + [p + [c] + q] + after, before + [p, q] + after;
    var ones, twos := ends + [e] + ends', ends + [c, e] + ends';
    if before == [] {
      assert one[1..] == after && ones[1..] == ends';
      assert two[1..] == [q] + after && twos[1..] == [e] + ends';
      assert ([q] + after)[1..] == after && ([e] + ends')[1..] == ends';
      assert p + [c] + q + [e] + Ended(after, ends') == p + [c] + (q + [e] + Ended(after, ends'));
    } else {
      assert one[1..] == before[1..] + [p + [c] + q] + after && ones[1..] == ends[1..] + [e] + ends';
      assert two[1..] == before[1..] + [p, q] + after && twos[1..] == ends[1..] + [c, e] + ends';
      EndedSplit(before[1..], p, c, q, after, ends[1..], e, ends');
    }
  }

  /** A kept separator inside the third of four lines makes two lines of it. */
  lemma SplitRecordLines(a: string, b: string, p: string, c: char, q: string, d: string)
    requires OneLine(a) && OneLine(b) && OneLine(p) && OneLine(q) && OneLine(d) && Kept(c)
    ensures Lines(Ended([a, b, p + [c] + q, d], ['\n', '\n', '\n', '\n'])) == [a, b, p, q, d]
  {
    var n := ['\n', '\n'];
    EndedSplit([a, b], p, c, q, [d], n, '\n', ['\n']);
    assert [a, b] + [p + [c] + q] + [d] == [a, b, p + [c] + q, d];
    assert [a, b] + [p, q] + [d] == [a, b, p, q, d];
    assert n + ['\n'] + ['\n'] == ['\n', '\n', '\n', '\n'];
    EndedReads(Ended([a, b, p + [c] + q, d], ['\n', '\n', '\n', '\n']), [a, b, p, q, d], n + [c, '\n'] + ['\n']);
  }

  /** Five entries, the fourth for the key of the first. */
  lemma FiveEntries(v: string, w: string, x: string, y: string, z: string)
    ensures Fields([Entry("pid", v), Entry("tree", w), Entry("command", x), Entry("pid", y), Entry("time", z)])
         == map["pid" := y, "tree" := w, "command" := x, "time" := z]
  {
    ThreeEntries(v, w, x);
    var e3 := [Entry("pid", v), Entry("tree", w), Entry("command", x)];
    var e4 := e3 + [Entry("pid", y)];
    EntryParses(e3, "pid", y);
    EntryParses(e4, "time", z);
    assert e4 + [Entry("time", z)]
        == [Entry("pid", v), Entry("tree", w), Entry("command", x), Entry("pid", y), Entry("time", z)];
  }

  lemma ShortCommandUnchanged(s: string)
    requires |s| <= COMMAND_MAX_LEN && '\n' !in s && '\r' !in s
    ensures CommandLine(s) == s
  {
    assert forall i :: 0 <= i < |s| ==> Flat(s)[i] == s[i];
  }

  lemma ForgedFields(pid: nat, tree: string, time: string, p: string, c: char, q: string)
    requires OneLine(tree) && OneLine(time) && OneLine(p) && OneLine(q) && Kept(c)
    ensures Fields(Lines(Written(Holder(pid, tree, p + [c] + Entry("pid", q), time))))
         == map["pid" := q, "tree" := tree, "command" := p, "time" := time]
  {
    DecimalParses(pid);
    var a, b, x, y, d := Entry("pid", Decimal(pid)), Entry("tree", tree), Entry("command", p), Entry("pid", q),
      Entry("time", time);
    assert Entry("command", p + [c] + y) == x + [c] + y;
    SplitRecordLines(a, b, x, c, y, d);
    FiveEntries(Decimal(pid), tree, p, q, time);
  }

  /** So flattening alone is not enough: a kept separator followed by "pid=" and digits, anywhere in a
      short command line, makes every reader see those digits as the pid, whoever wrote the record. */
  lemma FlatteningIsNotEnough(pid: nat, tree: string, time: string, p: string, c: char, q: string, other: char -> bool)
    requires OneLine(tree) && OneLine(time) && OneLine(p) && OneLine(q) && Kept(c) && IsDigit(q, other)
    requires |p| + |q| + 5 <= COMMAND_MAX_LEN
    ensures var h := Holder(pid, tree, CommandLine(p + [c] + Entry("pid", q)), time);
      Read(Written(h), other) == Some(map["pid" := q, "tree" := tree, "command" := p, "time" := time])
  {
    var cmd := p + [c] + Entry("pid", q);
    assert CommandLine(cmd) == cmd by {
      assert Separator('\n') && Separator('\r');
      ShortCommandUnchanged(cmd);
    }
    ForgedFields(pid, tree, time, p, c, q);
  }

  // ---------------------------------------------------------------- the pid of a readable record

  /** The value of one digit for `int`; `decimal` knows the Unicode decimal digits. */
  function DigitValue(c: char, decimal: char -> Option<nat>): Option<nat> {
    if '0' <= c <= '9' then Some(c as nat - '0' as nat) else decimal(c)
  }

  /** `int` of a text of digits; None is its ValueError. */
  function PyInt(s: string, decimal: char -> Option<nat>): Option<nat> {
    if s == [] then None
    else
      var k := |s| - 1;
      var front := if k == 0 then Some(0) else PyInt(s[..k], decimal);
      var last := DigitValue(s[k], decimal);
      if front.Some? && last.Some? then Some(10 * front.value + last.value) else None
  }

  datatype Description = Unknown | Names(pid: nat) | Raises

  /** `os.kill` takes a pid of a signed 32-bit type; a larger int is an OverflowError. */
  predicate IsPid(pid: nat) {
    pid < 0x8000_0000
  }

  /** What `_describe_holder` makes of the file: whether it raises, and if not the pid it calls alive or stale. */
  function Describe(raw: string, other: char -> bool, decimal: char -> Option<nat>): Description {
    match Read(raw, other)
    case None => Unknown
    case Some(fields) =>
      match PyInt(fields["pid"], decimal)
      case Some(pid) => if IsPid(pid) then Names(pid) else Raises
      case None => Raises
  }

  lemma {:induction false} PyIntIff(s: string, decimal: char -> Option<nat>)
    ensures PyInt(s, decimal).Some? <==> s != [] && forall i :: 0 <= i < |s| ==> DigitValue(s[i], decimal).Some?
  {
    if s != [] {
      var k := |s| - 1;
      PyIntIff(s[..k], decimal);
      assert s == s[..k] + [s[k]];
      assert forall i :: 0 <= i < k ==> s[..k][i] == s[i];
    }
  }

  /** The waiter's description raises exactly for a readable record whose pid holds a character that `isdigit`
      takes for a digit and `int` does not, or is 2^31 or more. */
  lemma DescribeRaisesIff(raw: string, other: char -> bool, decimal: char -> Option<nat>)
    ensures Describe(raw, other, decimal).Raises? <==>
      Read(raw, other).Some? &&
      var pid := Read(raw, other).value["pid"];
      || (exists i :: 0 <= i < |pid| && DigitValue(pid[i], decimal).None?)
      || (PyInt(pid, decimal).Some? && PyInt(pid, decimal).value >= 0x8000_0000)
  {
    if Read(raw, other).Some? {
      PyIntIff(Read(raw, other).value["pid"], decimal);
    }
  }

  lemma {:induction false} PyIntOfAscii(s: string, decimal: char -> Option<nat>)
    requires s != [] && AsciiDigits(s)
    ensures PyInt(s, decimal) == Some(ParseDecimal(s))
  {
    if |s| > 1 {
      PyIntOfAscii(s[..|s| - 1], decimal);
    } else {
      assert s[..0] == [];
    }
  }

  /** A record whose texts hold no line separator is described by the pid that was written, which is below 2^31. */
  lemma WrittenRecordNamesItsPid(h: Holder, other: char -> bool, decimal: char -> Option<nat>)
    requires Clean(h)
    ensures Describe(Written(h), other, decimal) == if IsPid(h.pid) then Names(h.pid) else Raises
  {
    CleanRoundTrip(h, other);
    DecimalParses(h.pid);
    PyIntOfAscii(Decimal(h.pid), decimal);
  }

  /** A forged pid decides what every waiter makes of the record. */
  lemma ForgedPidDecides(pid: nat, tree: string, time: string, p: string, c: char, q: string, other: char -> bool,
                         decimal: char -> Option<nat>)
    requires OneLine(tree) && OneLine(time) && OneLine(p) && OneLine(q) && Kept(c) && IsDigit(q, other)
    requires |p| + |q| + 5 <= COMMAND_MAX_LEN
    ensures var h := Holder(pid, tree, CommandLine(p + [c] + Entry("pid", q)), time);
      var n := PyInt(q, decimal);
      Describe(Written(h), other, decimal) == if n.Some? && IsPid(n.value) then Names(n.value) else Raises
  {
    hide Read, Written, CommandLine, Entry, OneLine, PyInt;
    FlatteningIsNotEnough(pid, tree, time, p, c, q, other);
  }

  lemma HugePid()
    ensures ParseDecimal("2147483648") == 2147483648
  {
    assert "2147483648"[..9] == "214748364" && "214748364"[..8] == "21474836" && "21474836"[..7] == "2147483";
    assert "2147483"[..6] == "214748" && "214748"[..5] == "21474" && "21474"[..4] == "2147";
    assert "2147"[..3] == "214" && "214"[..2] == "21" && "21"[..1] == "2" && "2"[..0] == "";
  }

  /** A forged pid of two digits, ASCII or Unicode, is read as their decimal number. */
  lemma TwoDigitPid(pid: nat, tree: string, time: string, p: string, c: char, a: char, b: char, other: char -> bool,
                    decimal: char -> Option<nat>, x: nat, y: nat)
    requires OneLine(tree) && OneLine(time) && OneLine(p) && OneLine([a, b]) && Kept(c)
    requires other(a) && decimal(a) == Some(x) && !('0' <= a <= '9')
    requires if '0' <= b <= '9' then y == b as nat - '0' as nat else other(b) && decimal(b) == Some(y)
    requires x < 10 && y < 10 && |p| + 7 <= COMMAND_MAX_LEN
    ensures var h := Holder(pid, tree, CommandLine(p + [c] + Entry("pid", [a, b])), time);
      Describe(Written(h), other, decimal) == Names(10 * x + y)
  {
    var q := [a, b];
    assert q[..1] == [a] && PyInt([a], decimal) == Some(x);
    assert PyInt(q, decimal) == Some(10 * x + y);
    ForgedPidDecides(pid, tree, time, p, c, q, other, decimal);
  }

  /** "pid=2147483648" behind a kept separator makes every waiter's description raise. */
  lemma HugePidRaises(pid: nat, tree: string, time: string, p: string, c: char, other: char -> bool,
                      decimal: char -> Option<nat>)
    requires OneLine(tree) && OneLine(time) && OneLine(p) && Kept(c) && |p| + 15 <= COMMAND_MAX_LEN
    ensures var h := Holder(pid, tree, CommandLine(p + [c] + Entry("pid", "2147483648")), time);
      Describe(Written(h), other, decimal) == Raises
  {
    hide PyInt, Describe;
    var q := "2147483648";
    assert AsciiDigits(q);
    PyIntOfAscii(q, decimal);
    HugePid();
    ForgedPidDecides(pid, tree, time, p, c, q, other, decimal);
  }

  /** So does a superscript two, when `isdigit` takes that character for a digit and `int` does not, as they do. */
  lemma SuperscriptPidRaises(pid: nat, tree: string, time: string, p: string, c: char, other: char -> bool,
                             decimal: char -> Option<nat>)
    requires OneLine(tree) && OneLine(time) && OneLine(p) && Kept(c) && |p| + 6 <= COMMAND_MAX_LEN
    requires other('\U{B2}') && decimal('\U{B2}').None?
    ensures var h := Holder(pid, tree, CommandLine(p + [c] + Entry("pid", ['\U{B2}'])), time);
      Describe(Written(h), other, decimal) == Raises
  {
    var q := ['\U{B2}'];
    ForgedPidDecides(pid, tree, time, p, c, q, other, decimal);
    PyIntIff(q, decimal);
  }
}
