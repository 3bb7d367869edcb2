/** Which configurations survive printing and reading back: exactly those whose keys
    and value lines are what the reader itself could have produced. */
module ConfigRoundTrip {
  import opened Config
  import opened Text

  /** The lines of a value. */
  function ValueLines(value: string): (lines: seq<string>)
    ensures lines != []
  {
    Pieces(value, '\n')
  }

  /** What reading a line can leave of it. */
  predicate Tidy(line: string) {
    Trimmed(line) && '#' !in line && '\n' !in line
  }

  predicate GoodKey(key: string) {
    Tidy(key) && '=' !in key
  }

  predicate GoodValue(value: string) {
    var lines := ValueLines(value);
    Tidy(lines[0]) && forall i :: 1 <= i < |lines| ==> Tidy(lines[i]) && Continues(lines[i])
  }

  predicate Good(e: Entry) {
    GoodKey(e.key) && GoodValue(e.value)
  }

  // ---------------------------------------------------------------------------
  // Everything that is read is good
  // ---------------------------------------------------------------------------

  lemma CleanLinesCons(first: string, rest: string)
    requires '\n' !in first
    ensures CleanLines(first + "\n" + rest) == [Clean(first)] + CleanLines(rest)
  {
    FindAt(first, '\n', rest);
    hide Find, Clean;
    var all := first + "\n" + rest;
    assert all[..|first|] == first && all[|first| + 1..] == rest;
  }

  lemma CleanIsTidy(line: string)
    requires '\n' !in line
    ensures Tidy(Clean(line))
  {
    TrimFacts(line[..Find(line, '#')]);
  }

  lemma {:induction false} CleanLinesAreTidy(text: string)
    ensures forall line :: line in CleanLines(text) ==> Tidy(line)
  {
    if text != "" {
      var n := Find(text, '\n');
      CleanIsTidy(text[..n]);
      assert text[..|text|] == text;
      if n < |text| {
        CleanLinesAreTidy(text[n + 1..]);
      }
    }
  }

  lemma FirstValueIsTidy(line: string)
    requires Tidy(line) && HasKey(line)
    ensures GoodKey(KeyOf(line)) && Tidy(FirstValueOf(line))
  {
    var n := Find(line, '=');
    RTrimFacts(line[..n]);
    LTrimFacts(line[n + 1..]);
    assert line[n + 1..] != "" ==> line[n + 1..][|line| - n - 2] == line[|line| - 1];
  }

  lemma {:induction false} ExtendIsGood(value: string, lines: seq<string>)
    requires GoodValue(value) && forall line :: line in lines ==> Tidy(line)
    ensures GoodValue(Extend(value, lines).0)
    ensures forall line :: line in Extend(value, lines).1 ==> line in lines
    decreases |lines|
  {
    if lines != [] && Continues(lines[0]) {
      hide Trimmed, Pieces;
      assert lines[0] in lines && forall line :: line in lines[1..] ==> line in lines;
      PiecesConcat(value, '\n', lines[0]);
      OnePiece(lines[0], '\n');
      ExtendIsGood(value + "\n" + lines[0], lines[1..]);
    }
  }

  lemma {:induction false} EntriesAreGood(lines: seq<string>)
    requires forall line :: line in lines ==> Tidy(line)
    ensures forall e :: e in Entries(lines) ==> Good(e)
    decreases |lines|
  {
    if lines != [] {
      hide Tidy, GoodKey;
      assert lines[0] in lines && forall line :: line in lines[1..] ==> line in lines;
      if HasKey(lines[0]) {
        FirstValueIsTidy(lines[0]);
        var first := FirstValueOf(lines[0]);
        TidyIsGoodValue(first);
        hide GoodValue;
        ExtendIsGood(first, lines[1..]);
        EntriesAreGood(Extend(first, lines[1..]).1);
      } else {
        EntriesAreGood(lines[1..]);
      }
    }
  }

  lemma TidyIsGoodValue(value: string)
    requires Tidy(value)
    ensures GoodValue(value)
  {
    assert ValueLines(value) == [value];
  }

  // ---------------------------------------------------------------------------
  // Everything good is read back
  // ---------------------------------------------------------------------------

  lemma {:induction false} CleanLinesOfValue(value: string, text: string)
    requires forall i :: 1 <= i < |ValueLines(value)| ==> Tidy(ValueLines(value)[i])
    ensures CleanLines(value + "\n" + text) ==
            [Clean(ValueLines(value)[0])] + ValueLines(value)[1..] + CleanLines(text)
    decreases |value|
  {
    hide Tidy, Clean, CleanLines, Pieces, Find;
    if '\n' !in value {
      OnePiece(value, '\n');
      CleanLinesCons(value, text);
    } else {
      var first, rest := FirstPiece(value, '\n');
      var lines := ValueLines(rest);
      assert ValueLines(value)[1..] == lines;
      assert forall i :: 0 <= i < |lines| ==> lines[i] == ValueLines(value)[i + 1];
      CleanLinesOfValue(rest, text);
      CleanTidy(lines[0]);
      CleanLinesCons(first, rest + "\n" + text);
      assert first + "\n" + (rest + "\n" + text) == value + "\n" + text;
      assert [lines[0]] + lines[1..] == lines;
    }
  }

  lemma CleanTidy(line: string)
    requires Tidy(line)
    ensures Clean(line) == line
  {
    assert line[..|line|] == line;
    TrimFacts(line);
  }

  /** The printed first line of an entry gives its key and first value line back. */
  lemma CleanFirstLine(key: string, first: string)
    requires GoodKey(key) && Tidy(first)
    ensures var line := Clean(key + " = " + first);
      HasKey(line) && KeyOf(line) == key && FirstValueOf(line) == first
  {
    PrintedIsPlain(key, first);
    hide Clean, Trim, Tidy, KeyOf, FirstValueOf;
    TrimPrinted(key, first);
    var before := if key == "" then "" else key + " ";
    var after := if first == "" then "" else " " + first;
    assert before + "=" + after == (if key == "" then "=" else key + " =") + after;
    KeyAndValue(before, after);
    RTrimSpace(key);
    LTrimSpace(first);
  }

  lemma PrintedIsPlain(key: string, first: string)
    requires GoodKey(key) && Tidy(first)
    ensures Trimmed(key) && Trimmed(first) && '=' !in key
    ensures Clean(key + " = " + first) == Trim(key + " = " + first)
  {
    hide Trim;
    var raw := key + " = " + first;
    assert '#' !in raw;
    assert raw[..|raw|] == raw;
  }

  lemma KeyAndValue(before: string, after: string)
    requires '=' !in before
    ensures var line := before + "=" + after;
      HasKey(line) && KeyOf(line) == RTrim(before) && FirstValueOf(line) == LTrim(after)
  {
    FindAt(before, '=', after);
    hide Find, LTrim, RTrim;
    var line := before + "=" + after;
    assert line[|before|] == '=';
    assert line[..|before|] == before && line[|before| + 1..] == after;
  }

  lemma RTrimSpace(s: string)
    requires Trimmed(s)
    ensures RTrim(s) == s && RTrim(s + " ") == s
  {
    assert (s + " ")[..|s|] == s;
  }

  lemma LTrimSpace(s: string)
    requires Trimmed(s)
    ensures LTrim(s) == s && LTrim(" " + s) == s
  {
    assert (" " + s)[1..] == s;
  }

  lemma TrimPrinted(key: string, first: string)
    requires Trimmed(key) && Trimmed(first)
    ensures Trim(key + " = " + first) ==
            (if key == "" then "=" else key + " =") + (if first == "" then "" else " " + first)
  {
    var left := if key == "" then "=" else key + " =";
    var raw := key + " = " + first;
    var middle := left + (" " + first);
    assert LTrim(raw) == middle by {
      if key == "" {
        assert raw[1..] == middle;
      } else {
        assert raw == middle;
      }
    }
    assert RTrim(middle) == if first == "" then left else middle by {
      if first == "" {
        assert middle == left + " " && middle[..|left|] == left;
      }
    }
    assert left + "" == left;
  }

  lemma {:induction false} ExtendByLines(value: string, more: seq<string>, rest: seq<string>)
    requires forall i :: 0 <= i < |more| ==> Continues(more[i])
    requires rest == [] || !Continues(rest[0])
    ensures Extend(value, more + rest) == (Glue(value, more), rest)
    decreases |more|
  {
    if more == [] {
      assert more + rest == rest;
    } else {
      assert (more + rest)[1..] == more[1..] + rest;
      ExtendByLines(value + "\n" + more[0], more[1..], rest);
    }
  }

  /** Lines put back together. */
  function Glue(value: string, more: seq<string>): string
    decreases |more|
  {
    if more == [] then value else Glue(value + "\n" + more[0], more[1..])
  }

  lemma {:induction false} GlueShift(a: string, b: string, more: seq<string>)
    ensures Glue(a + b, more) == a + Glue(b, more)
    decreases |more|
  {
    if more != [] {
      GlueShift(a, b + "\n" + more[0], more[1..]);
      assert a + b + "\n" + more[0] == a + (b + "\n" + more[0]);
    }
  }

  lemma {:induction false} GlueValueLines(value: string)
    ensures Glue(ValueLines(value)[0], ValueLines(value)[1..]) == value
    decreases |value|
  {
    hide Pieces, Find;
    if '\n' !in value {
      OnePiece(value, '\n');
    } else {
      var first, rest := FirstPiece(value, '\n');
      var lines := ValueLines(rest);
      assert ValueLines(value)[1..] == lines;
      GlueValueLines(rest);
      GlueShift(first + "\n", lines[0], lines[1..]);
    }
  }

  lemma EntriesOfPrinted(e: Entry, text: string)
    requires Good(e) && (CleanLines(text) == [] || HasKey(CleanLines(text)[0]))
    ensures Entries(CleanLines(PrintedEntry(e) + text)) == [e] + Entries(CleanLines(text))
    ensures CleanLines(PrintedEntry(e) + text) != [] && HasKey(CleanLines(PrintedEntry(e) + text)[0])
  {
    hide Clean, CleanLines, Pieces, Tidy, GoodKey, Find, KeyOf, FirstValueOf;
    var lines, prefix := ValueLines(e.value), e.key + " = ";
    var shown := prefix + e.value;
    assert '\n' !in prefix by {
      KeyHasNoNewline(e.key);
    }
    PrintedLines(prefix, e.value);
    assert ValueLines(shown)[1..] == lines[1..];
    assert forall i :: 1 <= i < |lines| ==> ValueLines(shown)[i] == lines[i];
    assert PrintedEntry(e) + text == shown + "\n" + text;
    CleanLinesOfValue(shown, text);
    CleanFirstLine(e.key, lines[0]);
    var all := CleanLines(shown + "\n" + text);
    assert all[0] == Clean(prefix + lines[0]) && all[1..] == lines[1..] + CleanLines(text);
    ExtendByLines(lines[0], lines[1..], CleanLines(text));
    GlueValueLines(e.value);
  }

  lemma KeyHasNoNewline(key: string)
    requires GoodKey(key)
    ensures '\n' !in key
  {
  }

  lemma PrintedLines(prefix: string, value: string)
    requires '\n' !in prefix
    ensures ValueLines(prefix + value) == [prefix + ValueLines(value)[0]] + ValueLines(value)[1..]
  {
    hide Pieces, Find;
    if '\n' !in value {
      OnePiece(value, '\n');
      OnePiece(prefix + value, '\n');
    } else {
      var first, rest := FirstPiece(value, '\n');
      PiecesCons(prefix + first, '\n', rest);
      assert prefix + value == (prefix + first) + "\n" + rest;
    }
  }

  lemma {:induction false} EntriesRoundTrip(entries: seq<Entry>)
    requires forall e :: e in entries ==> Good(e)
    ensures Entries(CleanLines(Printed(entries))) == entries
    ensures CleanLines(Printed(entries)) == [] || HasKey(CleanLines(Printed(entries))[0])
  {
    if entries != [] {
      hide Good, CleanLines, Entries, PrintedEntry;
      var first, later := entries[0], entries[1..];
      assert first in entries && forall e :: e in later ==> e in entries;
      assert Printed(entries) == PrintedEntry(first) + Printed(later);
      EntriesRoundTrip(later);
      hide Printed;
      EntriesOfPrinted(first, Printed(later));
      assert [first] + later == entries;
    }
  }

  // ---------------------------------------------------------------------------
  // The theorem
  // ---------------------------------------------------------------------------

  /** `entries` lists a map: every key once, in any order. */
  predicate Lists(entries: seq<Entry>, contents: map<string, string>) {
    && (forall i, j :: 0 <= i < j < |entries| ==> entries[i].key != entries[j].key)
    && (forall e :: e in entries ==> e.key in contents && contents[e.key] == e.value)
    && (forall k :: k in contents ==> Entry(k, contents[k]) in entries)
  }

  lemma {:induction false} StoredCameFrom(contents: map<string, string>, entries: seq<Entry>)
    ensures forall k :: k in Store(contents, entries) ==>
      (k in contents && Store(contents, entries)[k] == contents[k]) || Entry(k, Store(contents, entries)[k]) in entries
    decreases |entries|
  {
    if entries != [] {
      StoredCameFrom(contents[entries[0].key := entries[0].value], entries[1..]);
      assert forall e :: e in entries[1..] ==> e in entries;
      assert entries[0] == Entry(entries[0].key, entries[0].value);
    }
  }

  lemma {:induction false} StoreListed(start: map<string, string>, entries: seq<Entry>, contents: map<string, string>)
    requires forall i, j :: 0 <= i < j < |entries| ==> entries[i].key != entries[j].key
    requires forall e :: e in entries ==> e.key in contents && contents[e.key] == e.value
    requires forall k :: k in contents ==> Entry(k, contents[k]) in entries || (k in start && start[k] == contents[k])
    requires forall k :: k in start ==> k in contents
    ensures Store(start, entries) == contents
    decreases |entries|
  {
    if entries != [] {
      var e := entries[0];
      assert e in entries && forall x :: x in entries[1..] ==> x in entries;
      forall k | k in contents
        ensures Entry(k, contents[k]) in entries[1..] ||
                (k in start[e.key := e.value] && start[e.key := e.value][k] == contents[k])
      {
        if k != e.key && Entry(k, contents[k]) in entries {
          assert Entry(k, contents[k]) != e;
          assert entries == [e] + entries[1..];
        }
      }
      StoreListed(start[e.key := e.value], entries[1..], contents);
    } else {
      assert start == contents;
    }
  }

  /** Printing a configuration, in whatever order its map is iterated, and reading the
      text into an empty one gives it back if and only if every entry is good: the
      key is trimmed and free of '=', '#' and newlines, every line of the value is
      trimmed and free of '#', and every line after the first is non-empty and free
      of '='. */
  lemma RoundTripIff(entries: seq<Entry>, contents: map<string, string>)
    requires Lists(entries, contents)
    ensures Parse(map[], Printed(entries)) == contents <==> forall e :: e in entries ==> Good(e)
  {
    hide Good, Entries, CleanLines, Printed;
    if forall e :: e in entries ==> Good(e) {
      EntriesRoundTrip(entries);
      StoreListed(map[], entries, contents);
    }
    if Parse(map[], Printed(entries)) == contents {
      var lines := CleanLines(Printed(entries));
      CleanLinesAreTidy(Printed(entries));
      EntriesAreGood(lines);
      StoredCameFrom(map[], Entries(lines));
      forall e | e in entries ensures Good(e) {
        assert e == Entry(e.key, contents[e.key]);
      }
    }
  }
}
