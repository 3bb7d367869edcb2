/** What a configuration file may contain beyond what is printed: comments, white space
    and repeated keys. */
module ConfigSyntax {
  import opened Text
  import opened Config
  import opened ConfigRoundTrip

  /** A comment extends from the first '#' to the end of the line. */
  lemma CommentIsCut(line: string, comment: string)
    ensures Clean(line + "#" + comment) == Clean(line)
    ensures '#' !in line ==> Clean(line) == Trim(line)
  {
    hide Trim;
    var n := Find(line, '#');
    var shown := line[..n];
    if n == |line| {
      FindAt(line, '#', comment);
      assert shown == line && (line + "#" + comment)[..n] == line;
    } else {
      var rest := line[n + 1..] + "#" + comment;
      assert line + "#" + comment == shown + "#" + rest;
      FindAt(shown, '#', rest);
      assert (shown + "#" + rest)[..n] == shown;
    }
  }

  lemma {:induction false} CleanLinesConcat(before: string, after: string)
    requires before == "" || before[|before| - 1] == '\n'
    ensures CleanLines(before + after) == CleanLines(before) + CleanLines(after)
    decreases |before|
  {
    hide CleanLines, Clean, Find, Pieces;
    if before == "" {
      assert before + after == after;
      NoLines();
    } else {
      var first, rest := FirstPiece(before, '\n');
      assert rest == "" || rest[|rest| - 1] == before[|before| - 1];
      CleanLinesConcat(rest, after);
      CleanLinesCons(first, rest);
      CleanLinesCons(first, rest + after);
      assert first + "\n" + (rest + after) == before + after;
    }
  }

  lemma NoLines()
    ensures CleanLines("") == []
  {
  }

  /** Comments never matter: wherever in a file a line has one, reading the file gives the
      same with and without it. */
  lemma CommentsAreIgnored(contents: map<string, string>, before: string, line: string, comment: string, after: string)
    requires before == "" || before[|before| - 1] == '\n'
    requires '\n' !in line && '\n' !in comment
    ensures Parse(contents, before + line + "#" + comment + "\n" + after) ==
            Parse(contents, before + line + "\n" + after)
  {
    hide CleanLines, Clean, Entries, Store;
    var commented := line + "#" + comment;
    CommentIsCut(line, comment);
    CleanLinesCons(commented, after);
    CleanLinesCons(line, after);
    CleanLinesConcat(before, commented + "\n" + after);
    CleanLinesConcat(before, line + "\n" + after);
    assert before + (commented + "\n" + after) == before + line + "#" + comment + "\n" + after;
    assert before + (line + "\n" + after) == before + line + "\n" + after;
  }

  /** White space around a key, the delimiter and a value never matters. */
  lemma AssignmentIsRead(w: seq<string>, key: string, value: string)
    requires |w| == 4 && Blank(w[0]) && Blank(w[1]) && Blank(w[2]) && Blank(w[3])
    requires Trimmed(key) && '=' !in key && '#' !in key && Trimmed(value) && '#' !in value
    ensures var line := Clean(w[0] + key + w[1] + "=" + w[2] + value + w[3]);
      HasKey(line) && KeyOf(line) == key && FirstValueOf(line) == value
  {
    hide Trim, LTrim, RTrim, Find, KeyOf, FirstValueOf;
    var raw := w[0] + key + w[1] + "=" + w[2] + value + w[3];
    assert '#' !in raw by {
      BlankIsPlain(w[0]);
      BlankIsPlain(w[1]);
      BlankIsPlain(w[2]);
      BlankIsPlain(w[3]);
    }
    CommentIsCut(raw, "");
    BlankIsPlain(w[1]);
    BlankIsPlain(w[0]);
    TrimAssignment(w[0], key, w[1], w[2], value, w[3]);
  }

  lemma BlankIsPlain(w: string)
    requires Blank(w)
    ensures '#' !in w && '=' !in w
  {
  }

  lemma TrimAssignment(w0: string, key: string, w1: string, w2: string, value: string, w3: string)
    requires Blank(w0) && Blank(w1) && Blank(w2) && Blank(w3) && Trimmed(key) && Trimmed(value) && '=' !in key
    ensures var line := Trim(w0 + key + w1 + "=" + w2 + value + w3);
      HasKey(line) && KeyOf(line) == key && FirstValueOf(line) == value
  {
    hide LTrim, RTrim, KeyOf, FirstValueOf;
    BlankIsPlain(w1);
    var left := if key == "" then "" else key + w1;
    var right := if value == "" then "" else w2 + value;
    var before := if key == "" then w0 + w1 else w0;
    var after := if value == "" then w2 + w3 else w3;
    var line := left + "=" + right;
    Regroup(w0, key, w1, w2, value, w3);
    assert Trimmed(line);
    TrimsPadded(before, line, after);
    KeyAndValue(left, right);
    if key != "" {
      RTrimPadded(key, w1);
    } else {
      AllBlank("");
    }
    if value != "" {
      LTrimPadded(w2, value);
    } else {
      AllBlank("");
    }
  }

  /** The white space next to an empty key or value belongs to the ends of the line. */
  lemma Regroup(w0: string, key: string, w1: string, w2: string, value: string, w3: string)
    ensures w0 + key + w1 + "=" + w2 + value + w3 ==
            (if key == "" then w0 + w1 else w0)
            + ((if key == "" then "" else key + w1) + "=" + (if value == "" then "" else w2 + value))
            + (if value == "" then w2 + w3 else w3)
  {
    var left := if key == "" then "" else key + w1;
    var right := if value == "" then "" else w2 + value;
    assert (if key == "" then w0 + w1 else w0) + left == w0 + key + w1;
    assert right + (if value == "" then w2 + w3 else w3) == w2 + value + w3;
  }

  /** Of a repeated key the last entry counts, and other keys are left alone. */
  lemma {:induction false} LastEntryWins(contents: map<string, string>, entries: seq<Entry>, e: Entry)
    ensures Store(contents, entries + [e]) == Store(contents, entries)[e.key := e.value]
    decreases |entries|
  {
    if entries == [] {
      assert [e][1..] == [];
    } else {
      LastEntryWins(contents[entries[0].key := entries[0].value], entries[1..], e);
      assert (entries + [e])[1..] == entries[1..] + [e];
    }
  }
}
