/** Searching, cutting and gluing strings, and the part of std::istream that
    std::getline shows: what Core/StringUtil.cc and Core/Config.cc rest on. */
module Text {

  /** std::string::find for a single character, |s| standing for npos. */
  function Find(s: string, c: char): (n: nat)
    ensures n <= |s| && c !in s[..n] && (n < |s| ==> s[n] == c) && (n < |s| <==> c in s)
  {
    if s == "" || s[0] == c then 0 else 1 + Find(s[1..], c)
  }

  lemma {:induction false} FindAt(a: string, c: char, b: string)
    requires c !in a
    ensures Find(a + [c] + b, c) == |a|
  {
    if a == "" {
      assert a + [c] + b == [c] + b;
    } else {
      FindAt(a[1..], c, b);
      assert (a + [c] + b)[1..] == a[1..] + [c] + b;
    }
  }

  // ---------------------------------------------------------------------------
  // White space
  // ---------------------------------------------------------------------------

  /** The white space of Core/Config.cc and of isspace in the C locale. */
  predicate Space(c: char) {
    c == ' ' || c == '\n' || c == '\t' || c == '\U{0B}' || c == '\r' || c == '\U{0C}'
  }

  function LTrim(s: string): string {
    if s != "" && Space(s[0]) then LTrim(s[1..]) else s
  }

  function RTrim(s: string): string {
    if s != "" && Space(s[|s| - 1]) then RTrim(s[..|s| - 1]) else s
  }

  predicate Trimmed(s: string) {
    s == "" || (!Space(s[0]) && !Space(s[|s| - 1]))
  }

  predicate Blank(s: string) {
    forall c :: c in s ==> Space(c)
  }

  lemma {:induction false} LTrimPadded(before: string, s: string)
    requires Blank(before) && (s == "" || !Space(s[0]))
    ensures LTrim(before + s) == s
  {
    if before == "" {
      assert before + s == s;
    } else {
      LTrimPadded(before[1..], s);
      assert (before + s)[1..] == before[1..] + s && before[0] in before;
    }
  }

  lemma {:induction false} RTrimPadded(s: string, after: string)
    requires Blank(after) && (s == "" || !Space(s[|s| - 1]))
    ensures RTrim(s + after) == s
  {
    if after == "" {
      assert s + after == s;
    } else {
      var n := |after| - 1;
      RTrimPadded(s, after[..n]);
      assert (s + after)[..|s| + n] == s + after[..n] && after[n] in after;
    }
  }

  /** Trimming at both ends, in either order, leaves what is between the white space. */
  lemma TrimsPadded(before: string, s: string, after: string)
    requires Blank(before) && Blank(after) && Trimmed(s)
    ensures RTrim(LTrim(before + s + after)) == s && LTrim(RTrim(before + s + after)) == s
  {
    hide LTrim, RTrim;
    if s == "" {
      AllBlank(before + s + after);
    } else {
      assert before + s + after == before + (s + after);
      LTrimPadded(before, s + after);
      RTrimPadded(s, after);
      RTrimPadded(before + s, after);
      LTrimPadded(before, s);
    }
  }

  lemma AllBlank(s: string)
    requires Blank(s)
    ensures LTrim(s) == "" && RTrim(s) == "" && LTrim("") == "" && RTrim("") == ""
  {
    LTrimPadded(s, "");
    RTrimPadded("", s);
    assert s + "" == s && "" + s == s;
  }

  // ---------------------------------------------------------------------------
  // Pieces between delimiters
  // ---------------------------------------------------------------------------

  /** The pieces of a string between delimiters; there is always at least one. */
  function Pieces(s: string, d: char): (pieces: seq<string>)
    ensures pieces != []
  {
    var n := Find(s, d);
    if n == |s| then [s] else [s[..n]] + Pieces(s[n + 1..], d)
  }

  lemma OnePiece(s: string, d: char)
    requires d !in s
    ensures Pieces(s, d) == [s]
  {
  }

  lemma PiecesCons(first: string, d: char, rest: string)
    requires d !in first
    ensures Pieces(first + [d] + rest, d) == [first] + Pieces(rest, d)
  {
    FindAt(first, d, rest);
    hide Find;
    var all := first + [d] + rest;
    assert all[..|first|] == first && all[|first| + 1..] == rest;
  }

  /** Takes the first of several pieces off a string. */
  lemma FirstPiece(s: string, d: char) returns (first: string, rest: string)
    requires d in s
    ensures s == first + [d] + rest && d !in first
    ensures Pieces(s, d) == [first] + Pieces(rest, d)
  {
    var n := Find(s, d);
    first, rest := s[..n], s[n + 1..];
  }

  lemma {:induction false} PiecesConcat(a: string, d: char, b: string)
    ensures Pieces(a + [d] + b, d) == Pieces(a, d) + Pieces(b, d)
    decreases |a|
  {
    hide Pieces, Find;
    if d !in a {
      PiecesCons(a, d, b);
      OnePiece(a, d);
    } else {
      var first, rest := FirstPiece(a, d);
      PiecesConcat(rest, d, b);
      PiecesCons(first, d, rest + [d] + b);
      assert first + [d] + (rest + [d] + b) == a + [d] + b;
    }
  }

  lemma {:induction false} LastPiece(s: string, d: char)
    requires s != "" && s[|s| - 1] != d
    ensures var pieces := Pieces(s, d); pieces[|pieces| - 1] != ""
    decreases |s|
  {
    hide Pieces, Find;
    if d !in s {
      OnePiece(s, d);
    } else {
      var first, rest := FirstPiece(s, d);
      assert s[|s| - 1] == (if rest == "" then d else rest[|rest| - 1]);
      LastPiece(rest, d);
    }
  }

  /** Core::StringUtil::join. */
  function Joined(components: seq<string>, glue: string): string {
    if components == [] then ""
    else if |components| == 1 then components[0]
    else components[0] + glue + Joined(components[1..], glue)
  }

  lemma {:induction false} JoinedPieces(s: string, d: char)
    ensures Joined(Pieces(s, d), [d]) == s
    decreases |s|
  {
    hide Pieces, Find;
    if d !in s {
      OnePiece(s, d);
    } else {
      var first, rest := FirstPiece(s, d);
      JoinedPieces(rest, d);
      assert Pieces(s, d)[1..] == Pieces(rest, d);
    }
  }

  lemma {:induction false} JoinedAppend(components: seq<string>, glue: string, last: string)
    requires components != []
    ensures Joined(components + [last], glue) == Joined(components, glue) + glue + last
  {
    var all := components + [last];
    if |components| == 1 {
      assert all[1..] == [last];
    } else {
      JoinedAppend(components[1..], glue, last);
      assert all[1..] == components[1..] + [last];
      var tail := Joined(components[1..], glue);
      assert components[0] + glue + (tail + glue + last) == (components[0] + glue + tail) + glue + last;
    }
  }

  method Join(components: seq<string>, glue: string) returns (r: string)
    ensures r == Joined(components, glue)
  {
    r := "";
    for i := 0 to |components|
      invariant r == if i == 0 then "" else Joined(components[..i], glue) + (if i < |components| then glue else "")
    {
      assert components[..i + 1] == components[..i] + [components[i]];
      if i > 0 {
        JoinedAppend(components[..i], glue, components[i]);
      }
      r := r + components[i];
      assert r == Joined(components[..i + 1], glue);
      if i < |components| - 1 {
        r := r + glue;
      }
    }
    assert components[..|components|] == components;
  }

  // ---------------------------------------------------------------------------
  // getline
  // ---------------------------------------------------------------------------

  /** std::istream as std::getline sees it. */
  datatype Stream = Stream(rest: string, eof: bool, fail: bool)

  function GetLine(input: Stream, d: char): (string, Stream) {
    if input.eof || input.fail then ("", input.(fail := true))
    else if input.rest == "" then ("", Stream("", true, true))
    else
      var n := Find(input.rest, d);
      if n == |input.rest| then (input.rest, Stream("", true, false))
      else (input.rest[..n], Stream(input.rest[n + 1..], false, false))
  }

  /** What successive calls of getline return: the pieces, without an empty last one. */
  function Lines(s: string, d: char): seq<string> {
    if s == "" then []
    else
      var n := Find(s, d);
      if n == |s| then [s] else [s[..n]] + Lines(s[n + 1..], d)
  }

  lemma LinesCons(first: string, d: char, rest: string)
    requires d !in first
    ensures Lines(first + [d] + rest, d) == [first] + Lines(rest, d)
    ensures Lines(first, d) == if first == "" then [] else [first]
  {
    FindAt(first, d, rest);
    hide Find;
    var all := first + [d] + rest;
    assert all[..|first|] == first && all[|first| + 1..] == rest;
    assert Find(first, d) == |first|;
  }

  function WithoutEmptyLast(pieces: seq<string>): seq<string> {
    if pieces != [] && pieces[|pieces| - 1] == "" then pieces[..|pieces| - 1] else pieces
  }

  lemma WithoutEmptyLastCons(first: string, pieces: seq<string>)
    requires pieces != []
    ensures WithoutEmptyLast([first] + pieces) == [first] + WithoutEmptyLast(pieces)
  {
    assert ([first] + pieces)[..|pieces|] == [first] + pieces[..|pieces| - 1];
  }

  lemma {:induction false} LinesArePieces(s: string, d: char)
    ensures Lines(s, d) == WithoutEmptyLast(Pieces(s, d))
    decreases |s|
  {
    hide Find, Pieces, Lines, WithoutEmptyLast;
    if d !in s {
      OnePiece(s, d);
      LinesCons(s, d, "");
      LastOfOne(s);
    } else {
      var first, rest := FirstPiece(s, d);
      LinesArePieces(rest, d);
      LinesCons(first, d, rest);
      WithoutEmptyLastCons(first, Pieces(rest, d));
    }
  }

  lemma LastOfOne(s: string)
    ensures WithoutEmptyLast([s]) == if s == "" then [] else [s]
  {
  }

  /** Core::StringUtil::split. */
  method Split(subject: string, delimiter: char) returns (items: seq<string>)
    ensures items == Lines(subject, delimiter)
  {
    items := [];
    var stream := Stream(subject, false, false);
    while true
      invariant !stream.fail && (stream.eof ==> stream.rest == "")
      invariant items + Lines(stream.rest, delimiter) == Lines(subject, delimiter)
      decreases |stream.rest|, !stream.eof
    {
      var item;
      item, stream := GetLine(stream, delimiter).0, GetLine(stream, delimiter).1;
      if stream.fail {
        return;
      }
      items := items + [item];
    }
  }
}
