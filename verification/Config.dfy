/** Reading and printing a Config (Core/Config.cc) with its default delimiter '='
    and comment '#': the nested reading loops, and exactly which configurations
    survive being printed and read back. */
module Config {
  import opened Text

  // ---------------------------------------------------------------------------
  // Strings
  // ---------------------------------------------------------------------------

  function Trim(s: string): string {
    RTrim(LTrim(s))
  }

  lemma {:induction false} LTrimFacts(s: string)
    ensures LTrim(s) == "" || !Space(LTrim(s)[0])
    ensures forall c :: c in LTrim(s) ==> c in s
    ensures s != "" && !Space(s[|s| - 1]) ==> LTrim(s) != "" && LTrim(s)[|LTrim(s)| - 1] == s[|s| - 1]
  {
    if s != "" && Space(s[0]) {
      LTrimFacts(s[1..]);
    }
  }

  lemma {:induction false} RTrimFacts(s: string)
    ensures RTrim(s) == "" || !Space(RTrim(s)[|RTrim(s)| - 1])
    ensures RTrim(s) <= s
    ensures forall c :: c in RTrim(s) ==> c in s
    ensures s != "" && !Space(s[0]) ==> RTrim(s) != "" && RTrim(s)[0] == s[0]
  {
    if s != "" && Space(s[|s| - 1]) {
      RTrimFacts(s[..|s| - 1]);
    }
  }

  lemma TrimFacts(s: string)
    ensures Trimmed(Trim(s)) && forall c :: c in Trim(s) ==> c in s
    ensures Trimmed(s) ==> Trim(s) == s
  {
    LTrimFacts(s);
    RTrimFacts(LTrim(s));
  }

  // ---------------------------------------------------------------------------
  // Streams and lines
  // ---------------------------------------------------------------------------

  /** A line without its comment and surrounding white space. */
  function Clean(line: string): string {
    Trim(line[..Find(line, '#')])
  }

  function ReadLine(input: Stream): (string, Stream) {
    (Clean(GetLine(input, '\n').0), GetLine(input, '\n').1)
  }

  /** Work left in a stream. */
  function Size(input: Stream): nat {
    if input.fail then 0 else |input.rest| + 1
  }

  /** The cleaned lines still to come. */
  function Remaining(input: Stream): seq<string> {
    if input.eof || input.fail then [] else CleanLines(input.rest)
  }

  function CleanLines(text: string): seq<string> {
    if text == "" then []
    else
      var n := Find(text, '\n');
      if n == |text| then [Clean(text)] else [Clean(text[..n])] + CleanLines(text[n + 1..])
  }

  lemma ReadLineFacts(input: Stream)
    ensures var (line, input') := ReadLine(input);
      if Remaining(input) == [] then line == "" && Remaining(input') == [] && input'.fail
      else line == Remaining(input)[0] && Remaining(input') == Remaining(input)[1..]
    ensures !input.fail ==> Size(ReadLine(input).1) < Size(input)
  {
    TrimFacts("");
  }

  // ---------------------------------------------------------------------------
  // What a sequence of lines means
  // ---------------------------------------------------------------------------

  datatype Entry = Entry(key: string, value: string)

  /** The line starts an entry. */
  predicate HasKey(line: string) {
    '=' in line
  }

  function KeyOf(line: string): string {
    RTrim(line[..Find(line, '=')])
  }

  function FirstValueOf(line: string): string
    requires HasKey(line)
  {
    LTrim(line[Find(line, '=') + 1..])
  }

  predicate Continues(line: string) {
    line != "" && !HasKey(line)
  }

  /** Appends continuation lines to a value, and gives the lines after them. */
  function Extend(value: string, lines: seq<string>): (r: (string, seq<string>))
    ensures |r.1| <= |lines|
    decreases |lines|
  {
    if lines != [] && Continues(lines[0]) then Extend(value + "\n" + lines[0], lines[1..]) else (value, lines)
  }

  function Entries(lines: seq<string>): seq<Entry>
    decreases |lines|
  {
    if lines == [] then []
    else if !HasKey(lines[0]) then Entries(lines[1..])
    else
      var (value, rest) := Extend(FirstValueOf(lines[0]), lines[1..]);
      [Entry(KeyOf(lines[0]), value)] + Entries(rest)
  }

  /** Stores entries in order; later ones overwrite. */
  function Store(contents: map<string, string>, entries: seq<Entry>): map<string, string>
    decreases |entries|
  {
    if entries == [] then contents
    else Store(contents[entries[0].key := entries[0].value], entries[1..])
  }

  function Parse(contents: map<string, string>, text: string): map<string, string> {
    Store(contents, Entries(CleanLines(text)))
  }

  // ---------------------------------------------------------------------------
  // The code
  // ---------------------------------------------------------------------------

  /** Lines to come, with the line read ahead first. */
  function Ahead(nextLine: string, input: Stream): seq<string> {
    if nextLine == "" then Remaining(input) else [nextLine] + Remaining(input)
  }

  /** The inner loop of operator>>: reads continuation lines, one line too far. */
  method ReadValue(first: string, stream: Stream) returns (value: string, nextLine: string, input: Stream)
    ensures var (v, rest) := Extend(first, Remaining(stream));
      value == v && Entries(Ahead(nextLine, input)) == Entries(rest)
    ensures nextLine == "" || HasKey(nextLine)
    ensures if stream.fail then input == stream && nextLine == "" else Size(input) < Size(stream)
  {
    value, nextLine, input := first, "", stream;
    while !input.fail
      invariant nextLine == "" && Extend(value, Remaining(input)) == Extend(first, Remaining(stream))
      invariant Size(input) <= Size(stream) && (input == stream || Size(input) < Size(stream))
      decreases Size(input)
    {
      ReadLineFacts(input);
      ghost var before := Remaining(input);
      var line;
      line, input := ReadLine(input).0, ReadLine(input).1;
      if line == "" {
        break;
      }
      if '=' in line {
        nextLine := line;
        assert [line] + Remaining(input) == before;
        break;
      }
      value := value + "\n" + line;
    }
  }

  /** What one entry adds to the contents. */
  lemma StoreNext(contents: map<string, string>, lines: seq<string>)
    requires lines != [] && HasKey(lines[0])
    ensures var (value, rest) := Extend(FirstValueOf(lines[0]), lines[1..]);
      Store(contents, Entries(lines)) == Store(contents[KeyOf(lines[0]) := value], Entries(rest))
  {
    hide Extend, KeyOf, FirstValueOf;
    var (value, rest) := Extend(FirstValueOf(lines[0]), lines[1..]);
    assert ([Entry(KeyOf(lines[0]), value)] + Entries(rest))[1..] == Entries(rest);
  }

  lemma SkipLine(lines: seq<string>)
    ensures lines != [] && !HasKey(lines[0]) ==> Entries(lines) == Entries(lines[1..])
  {
  }

  /** operator>>. */
  method Read(contents: map<string, string>, text: string) returns (result: map<string, string>)
    ensures result == Parse(contents, text)
  {
    hide LTrim, RTrim, ReadLine, CleanLines, Size, Extend, Store;
    result := contents;
    var input := Stream(text, false, false);
    var nextLine := "";
    while !input.fail || nextLine != ""
      invariant nextLine == "" || HasKey(nextLine)
      invariant Store(result, Entries(Ahead(nextLine, input))) == Parse(contents, text)
      decreases Size(input), |nextLine|
    {
      hide Entries;
      ghost var lines := Ahead(nextLine, input);
      SkipLine(lines);
      var line;
      if nextLine == "" {
        ReadLineFacts(input);
        line, input := ReadLine(input).0, ReadLine(input).1;
      } else {
        line, nextLine := nextLine, "";
      }
      assert lines != [] ==> lines[0] == line && lines[1..] == Remaining(input);
      var delimPos := Find(line, '=');
      if delimPos < |line| {
        StoreNext(result, lines);
        var key := RTrim(line[..delimPos]);
        var value := LTrim(line[delimPos + 1..]);
        value, nextLine, input := ReadValue(value, input);
        result := result[key := value];
      }
    }
    assert Ahead(nextLine, input) == [];
    EmptyStore(result);
  }

  lemma EmptyStore(contents: map<string, string>)
    ensures Store(contents, Entries([])) == contents
  {
  }

  function Printed(entries: seq<Entry>): string {
    if entries == [] then "" else PrintedEntry(entries[0]) + Printed(entries[1..])
  }

  function PrintedEntry(e: Entry): string {
    e.key + " = " + e.value + "\n"
  }

  lemma {:induction false} PrintedAppend(entries: seq<Entry>, e: Entry)
    ensures Printed(entries + [e]) == Printed(entries) + PrintedEntry(e)
  {
    hide PrintedEntry;
    if entries == [] {
      assert [e][1..] == [];
      assert Printed([e]) == PrintedEntry(e) + "";
    } else {
      PrintedAppend(entries[1..], e);
      assert (entries + [e])[1..] == entries[1..] + [e];
    }
  }

  /** operator<<, over the map's entries in the order in which it iterates over them. */
  method Print(entries: seq<Entry>) returns (text: string)
    ensures text == Printed(entries)
  {
    text := "";
    for i := 0 to |entries|
      invariant text == Printed(entries[..i])
    {
      PrintedAppend(entries[..i], entries[i]);
      assert entries[..i + 1] == entries[..i] + [entries[i]];
      text := text + entries[i].key + " " + "=" + " ";
      text := text + entries[i].value + "\n";
    }
    assert entries[..|entries|] == entries;
  }
}
