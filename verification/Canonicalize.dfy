/** Path canonicalization in Client/ClientImpl.cc: splitting a path at its slashes
    and ironing out "." and ".." in place. */
module Canonicalize {
  import opened Basics

  datatype Outcome =
    | Canonical(path: string)
    | RelativeWorkingDirectory
    | AboveRoot

  // ---------------------------------------------------------------------------
  // Splitting
  // ---------------------------------------------------------------------------

  predicate SlashFree(s: string) {
    '/' !in s
  }

  /** Length of the longest slash-free prefix. */
  function WordLength(s: string): (n: nat)
    ensures n <= |s| && SlashFree(s[..n]) && (n < |s| ==> s[n] == '/')
  {
    if s == "" || s[0] == '/' then 0 else 1 + WordLength(s[1..])
  }

  /** The non-empty words between slashes. */
  function Components(path: string): seq<string> {
    if path == "" then []
    else if path[0] == '/' then Components(path[1..])
    else
      var n := WordLength(path);
      [path[..n]] + Components(path[n..])
  }

  lemma {:induction false} WordLengthOf(word: string, rest: string)
    requires SlashFree(word) && (rest == "" || rest[0] == '/')
    ensures WordLength(word + rest) == |word|
  {
    if word == "" {
      assert word + rest == rest;
    } else {
      WordLengthOf(word[1..], rest);
      assert (word + rest)[1..] == word[1..] + rest;
    }
  }

  lemma ComponentsOfWord(word: string, rest: string)
    requires SlashFree(word) && word != "" && (rest == "" || rest[0] == '/')
    ensures Components(word + rest) == [word] + Components(rest)
  {
    WordLengthOf(word, rest);
    assert (word + rest)[..|word|] == word && (word + rest)[|word|..] == rest;
  }

  lemma ComponentsAfterSlash(rest: string)
    ensures Components("/" + rest) == Components(rest)
  {
    assert ("/" + rest)[1..] == rest;
  }

  /** One more character of the path, after the unfinished word. */
  lemma NextCharacter(word: string, path: string, i: nat)
    requires SlashFree(word) && i < |path|
    ensures path[i] != '/' ==> Components(word + [path[i]] + path[i + 1..]) == Components(word + path[i..])
    ensures path[i] == '/' ==>
      (if word == "" then [] else [word]) + Components("" + path[i + 1..]) == Components(word + path[i..])
  {
    hide Components;
    assert path[i..] == [path[i]] + path[i + 1..];
    if path[i] == '/' {
      assert "" + path[i + 1..] == path[i + 1..];
      ComponentsAfterSlash(path[i + 1..]);
      if word == "" {
        assert word + path[i..] == path[i..];
      } else {
        ComponentsOfWord(word, path[i..]);
      }
    } else {
      assert word + [path[i]] + path[i + 1..] == word + path[i..];
    }
  }

  method Split(path: string, components: seq<string>) returns (result: seq<string>)
    ensures result == components + Components(path)
  {
    hide Components;
    result := components;
    var word := "";
    assert word + path[0..] == path;
    for i := 0 to |path|
      invariant SlashFree(word)
      invariant result + Components(word + path[i..]) == components + Components(path)
    {
      NextCharacter(word, path, i);
      if path[i] == '/' {
        if word != "" {
          result := result + [word];
          word := "";
        }
      } else {
        word := word + [path[i]];
      }
    }
    LastWord(word, path);
    if word != "" {
      result := result + [word];
    }
  }

  lemma LastWord(word: string, path: string)
    requires SlashFree(word)
    ensures Components(word + path[|path|..]) == if word == "" then [] else [word]
  {
    assert word + path[|path|..] == word + "";
    if word != "" {
      ComponentsOfWord(word, "");
    }
  }

  // ---------------------------------------------------------------------------
  // Ironing out
  // ---------------------------------------------------------------------------

  /** The components as moves of a cursor in the tree, from the directory `at`. */
  function Walk(moves: seq<string>, at: seq<string>): Option<seq<string>> {
    if moves == [] then Some(at)
    else if moves[0] == ".." then
      if at == [] then None else Walk(moves[1..], at[..|at| - 1])
    else if moves[0] == "." then Walk(moves[1..], at)
    else Walk(moves[1..], at + [moves[0]])
  }

  function PathOf(components: seq<string>): string {
    if components == [] then "/" else Slashed(components)
  }

  function Slashed(components: seq<string>): string {
    if components == [] then "" else "/" + components[0] + Slashed(components[1..])
  }

  predicate Absolute(path: string) {
    path != "" && path[0] == '/'
  }

  /** The path is looked up from the working directory. */
  predicate Relative(path: string) {
    path != "" && path[0] != '/'
  }

  /** All components that canonicalize() has to iron out. */
  function Moves(path: string, workingDirectory: string): seq<string> {
    (if Relative(path) then Components(workingDirectory) else []) + Components(path)
  }

  /** The directory that a path names. */
  function Resolve(path: string, workingDirectory: string): Outcome {
    if Relative(path) && !Absolute(workingDirectory) then RelativeWorkingDirectory
    else
      match Walk(Moves(path, workingDirectory), [])
      case None => AboveRoot
      case Some(at) => Canonical(PathOf(at))
  }

  lemma {:induction false} SlashedAppend(components: seq<string>, c: string)
    ensures Slashed(components + [c]) == Slashed(components) + "/" + c
  {
    if components == [] {
      assert [c][1..] == [];
      assert Slashed([c]) == "/" + c + "";
    } else {
      SlashedAppend(components[1..], c);
      assert (components + [c])[1..] == components[1..] + [c];
      assert "/" + components[0] + (Slashed(components[1..]) + "/" + c) == Slashed(components) + "/" + c;
    }
  }

  method Print(components: seq<string>) returns (path: string)
    ensures path == PathOf(components)
  {
    path := "";
    if components == [] {
      return "/";
    }
    for i := 0 to |components|
      invariant path == Slashed(components[..i])
    {
      SlashedAppend(components[..i], components[i]);
      assert components[..i + 1] == components[..i] + [components[i]];
      path := path + "/" + components[i];
    }
    assert components[..|components|] == components;
  }

  /** The erase loop: one vector is both the moves still to make and, up to `i`, the
      directory reached. */
  method Iron(moves: seq<string>) returns (ok: bool, components: seq<string>)
    ensures Walk(moves, []) == if ok then Some(components) else None
  {
    components := moves;
    var i := 0;
    assert moves[..0] == [] && moves[0..] == moves;
    while i < |components|
      invariant 0 <= i <= |components|
      invariant Walk(components[i..], components[..i]) == Walk(moves, [])
      decreases |components| - i
    {
      ghost var left := components[i..];
      if components[i] == ".." {
        if i > 0 {
          ghost var at := components[..i];
          components := components[..i - 1] + components[i + 1..];
          i := i - 1;
          assert components[..i] == at[..|at| - 1] && components[i..] == left[1..];
        } else {
          return false, [];
        }
      } else if components[i] == "." {
        ghost var at := components[..i];
        components := components[..i] + components[i + 1..];
        assert components[..i] == at && components[i..] == left[1..];
      } else {
        assert components[..i + 1] == components[..i] + [left[0]] && components[i + 1..] == left[1..];
        i := i + 1;
      }
    }
    assert components[..i] == components;
    ok := true;
  }

  method Canonicalize(path: string, workingDirectory: string) returns (outcome: Outcome)
    ensures outcome == Resolve(path, workingDirectory)
  {
    hide Components, Walk, PathOf;
    var components := [];
    if path != "" && path[0] != '/' {
      if workingDirectory == "" || workingDirectory[0] != '/' {
        return RelativeWorkingDirectory;
      }
      components := Split(workingDirectory, components);
    }
    components := Split(path, components);
    assert components == Moves(path, workingDirectory);
    var ok, ironed := Iron(components);
    if !ok {
      return AboveRoot;
    }
    var canonical := Print(ironed);
    outcome := Canonical(canonical);
  }

  // ---------------------------------------------------------------------------
  // What canonical paths are
  // ---------------------------------------------------------------------------

  /** Can be the name of a directory or a file. */
  predicate Name(c: string) {
    c != "" && SlashFree(c) && c != "." && c != ".."
  }

  predicate AllNames(cs: seq<string>) {
    forall c :: c in cs ==> Name(c)
  }

  predicate AllWords(cs: seq<string>) {
    forall c :: c in cs ==> c != "" && SlashFree(c)
  }

  lemma {:induction false} ComponentsAreWords(path: string)
    ensures AllWords(Components(path))
  {
    if path != "" {
      if path[0] == '/' {
        ComponentsAreWords(path[1..]);
      } else {
        ComponentsAreWords(path[WordLength(path)..]);
      }
    }
  }

  lemma {:induction false} WalkReachesNames(moves: seq<string>, at: seq<string>)
    requires AllWords(moves) && AllNames(at)
    ensures Walk(moves, at).Some? ==> AllNames(Walk(moves, at).value)
    decreases |moves|
  {
    if moves != [] {
      assert forall c :: c in moves[1..] ==> c in moves;
      if moves[0] == ".." {
        if at != [] {
          WalkReachesNames(moves[1..], at[..|at| - 1]);
        }
      } else if moves[0] == "." {
        WalkReachesNames(moves[1..], at);
      } else {
        assert moves[0] in moves;
        WalkReachesNames(moves[1..], at + [moves[0]]);
      }
    }
  }

  lemma {:induction false} WalkOfNames(names: seq<string>, at: seq<string>)
    requires AllNames(names)
    ensures Walk(names, at) == Some(at + names)
    decreases |names|
  {
    if names == [] {
      assert at + [] == at;
    } else {
      assert names[0] in names;
      WalkOfNames(names[1..], at + [names[0]]);
      assert at + [names[0]] + names[1..] == at + names;
    }
  }

  lemma {:induction false} WalkInTwoParts(a: seq<string>, b: seq<string>, at: seq<string>)
    ensures Walk(a + b, at) == if Walk(a, at).Some? then Walk(b, Walk(a, at).value) else None
    decreases |a|
  {
    if a == [] {
      assert a + b == b;
    } else {
      assert (a + b)[1..] == a[1..] + b;
      if a[0] == ".." {
        if at != [] {
          WalkInTwoParts(a[1..], b, at[..|at| - 1]);
        }
      } else if a[0] == "." {
        WalkInTwoParts(a[1..], b, at);
      } else {
        WalkInTwoParts(a[1..], b, at + [a[0]]);
      }
    }
  }

  lemma SlashedCons(c: string, later: seq<string>)
    ensures Slashed([c] + later) == "/" + (c + Slashed(later))
    ensures Slashed(later) == "" || Slashed(later)[0] == '/'
  {
    assert ([c] + later)[1..] == later;
  }

  lemma {:induction false} ComponentsOfSlashed(cs: seq<string>)
    requires AllWords(cs)
    ensures Components(Slashed(cs)) == cs
  {
    if cs != [] {
      hide Components, WordLength;
      var c, later := cs[0], cs[1..];
      assert c in cs && forall c :: c in later ==> c in cs;
      ComponentsOfSlashed(later);
      SlashedCons(c, later);
      ComponentsAfterSlash(c + Slashed(later));
      ComponentsOfWord(c, Slashed(later));
      assert cs == [c] + later;
    }
  }

  lemma ComponentsOfPathOf(cs: seq<string>)
    requires AllNames(cs)
    ensures Components(PathOf(cs)) == cs && Absolute(PathOf(cs))
  {
    if cs == [] {
      assert "/"[1..] == "";
    } else {
      ComponentsOfSlashed(cs);
    }
  }

  lemma MovesAreWords(path: string, workingDirectory: string)
    ensures AllWords(Moves(path, workingDirectory))
  {
    ComponentsAreWords(path);
    ComponentsAreWords(workingDirectory);
  }

  /** No two slashes in a row, and none at the end unless the path is the root. */
  ghost predicate PlainSlashes(path: string) {
    && (forall i :: 0 < i < |path| ==> path[i] != '/' || path[i - 1] != '/')
    && path != "" && (path[|path| - 1] == '/' ==> path == "/")
  }

  lemma {:induction false} SlashedIsPlain(cs: seq<string>)
    requires AllWords(cs) && cs != []
    ensures PlainSlashes(Slashed(cs)) && Slashed(cs)[0] == '/' && Slashed(cs)[|Slashed(cs)| - 1] != '/'
  {
    var c, later := cs[0], cs[1..];
    assert c in cs && forall c :: c in later ==> c in cs;
    if later == [] {
      assert Slashed(cs) == "/" + c;
      WordIsPlain(c, "");
    } else {
      SlashedIsPlain(later);
      assert Slashed(cs) == "/" + c + Slashed(later);
      hide Slashed;
      WordIsPlain(c, Slashed(later));
    }
  }

  lemma WordIsPlain(c: string, rest: string)
    requires c != "" && SlashFree(c)
    requires rest == "" || (PlainSlashes(rest) && rest[0] == '/' && rest[|rest| - 1] != '/')
    ensures PlainSlashes("/" + c + rest) && ("/" + c + rest)[|c| + |rest|] != '/'
  {
    var path := "/" + c + rest;
    assert forall i :: 1 <= i <= |c| ==> path[i] == c[i - 1] && path[i] in c;
    assert forall i :: |c| < i < |path| ==> path[i] == rest[i - |c| - 1];
  }

  /** A result is absolute, has no empty, "." or ".." component and no superfluous
      slash, and canonicalizes to itself from any working directory. */
  lemma CanonicalIsFixed(path: string, workingDirectory: string, anywhere: string)
    requires Resolve(path, workingDirectory).Canonical?
    ensures var canonical := Resolve(path, workingDirectory).path;
      && Absolute(canonical)
      && AllNames(Components(canonical)) && PathOf(Components(canonical)) == canonical
      && PlainSlashes(canonical)
      && Resolve(canonical, anywhere) == Canonical(canonical)
  {
    var at := Walk(Moves(path, workingDirectory), []).value;
    MovesAreWords(path, workingDirectory);
    WalkReachesNames(Moves(path, workingDirectory), []);
    ComponentsOfPathOf(at);
    WalkOfNames(at, []);
    assert [] + at == at;
    if at != [] {
      SlashedIsPlain(at);
    }
  }

  /** Replacing an absolute working directory by its own canonical form never changes
      the outcome, whatever the path. */
  lemma CanonicalWorkingDirectory(path: string, workingDirectory: string, anywhere: string)
    requires Absolute(workingDirectory) && Resolve(workingDirectory, anywhere).Canonical?
    ensures Resolve(path, Resolve(workingDirectory, anywhere).path) == Resolve(path, workingDirectory)
  {
    var ws, ps := Components(workingDirectory), Components(path);
    assert Moves(workingDirectory, anywhere) == ws;
    var at := Walk(ws, []).value;
    ComponentsAreWords(workingDirectory);
    WalkReachesNames(ws, []);
    ComponentsOfPathOf(at);
    WalkInTwoParts(ws, ps, []);
    WalkInTwoParts(at, ps, []);
    WalkOfNames(at, []);
    assert [] + at == at;
  }

  // ---------------------------------------------------------------------------
  // Going down and up
  // ---------------------------------------------------------------------------

  lemma NoComponents()
    ensures Components("") == []
  {
  }

  lemma {:induction false} ComponentsConcat(a: string, b: string)
    ensures Components(a + "/" + b) == Components(a) + Components(b)
    decreases |a|
  {
    hide Components, WordLength;
    if a == "" {
      NoComponents();
      assert a + "/" + b == "/" + b;
      ComponentsAfterSlash(b);
    } else if a[0] == '/' {
      var rest := a[1..];
      ComponentsConcat(rest, b);
      assert a == "/" + rest && a + "/" + b == "/" + (rest + "/" + b);
      ComponentsAfterSlash(rest);
      ComponentsAfterSlash(rest + "/" + b);
    } else {
      var word, rest := FirstWord(a);
      ComponentsConcat(rest, b);
      assert a + "/" + b == word + (rest + "/" + b);
      ComponentsOfWord(word, rest + "/" + b);
      ComponentsOfWord(word, rest);
    }
  }

  lemma FirstWord(a: string) returns (word: string, rest: string)
    requires a != "" && a[0] != '/'
    ensures a == word + rest && SlashFree(word) && word != "" && (rest == "" || rest[0] == '/') && |rest| < |a|
  {
    var n := WordLength(a);
    word, rest := a[..n], a[n..];
  }

  lemma ComponentsOfOne(word: string)
    requires SlashFree(word) && word != ""
    ensures Components(word) == [word]
  {
    ComponentsOfWord(word, "");
    assert word + "" == word;
  }

  lemma ResolveBelow(path: string, word: string, workingDirectory: string)
    requires path != "" && SlashFree(word) && word != "" && Resolve(path, workingDirectory).Canonical?
    ensures Walk(Moves(path, workingDirectory), []).Some?
    ensures var at := Walk(Moves(path, workingDirectory), []).value;
      Resolve(path + "/" + word, workingDirectory) ==
      match Walk([word], at) case None => AboveRoot case Some(there) => Canonical(PathOf(there))
  {
    ComponentsConcat(path, word);
    ComponentsOfOne(word);
    var moves := Moves(path, workingDirectory);
    assert Relative(path + "/" + word) == Relative(path);
    assert Moves(path + "/" + word, workingDirectory) == moves + [word];
    WalkInTwoParts(moves, [word], []);
  }

  /** Where a path leads, a name below it leads one component further, "." nowhere else,
      and ".." back to the parent, or above root from the root itself. */
  lemma DownAndUp(path: string, name: string, workingDirectory: string)
    requires path != "" && Name(name) && Resolve(path, workingDirectory).Canonical?
    ensures var here := Components(Resolve(path, workingDirectory).path);
      && Resolve(path, workingDirectory) == Canonical(PathOf(here))
      && Resolve(path + "/" + name, workingDirectory) == Canonical(PathOf(here + [name]))
      && Resolve(path + "/.", workingDirectory) == Resolve(path, workingDirectory)
      && Resolve(path + "/..", workingDirectory) ==
         if here == [] then AboveRoot else Canonical(PathOf(here[..|here| - 1]))
  {
    var at := Walk(Moves(path, workingDirectory), []).value;
    MovesAreWords(path, workingDirectory);
    WalkReachesNames(Moves(path, workingDirectory), []);
    ComponentsOfPathOf(at);
    hide Components, Walk, Moves;
    ResolveBelow(path, name, workingDirectory);
    OneMove(name, at);
    assert path + "/" + "." == path + "/." && path + "/" + ".." == path + "/..";
    ResolveBelow(path, ".", workingDirectory);
    OneMove(".", at);
    ResolveBelow(path, "..", workingDirectory);
    OneMove("..", at);
  }

  /** A relative path is looked up below an absolute working directory. */
  lemma RelativeIsBelow(path: string, workingDirectory: string, anywhere: string)
    requires Relative(path) && Absolute(workingDirectory)
    ensures Resolve(path, workingDirectory) == Resolve(workingDirectory + "/" + path, anywhere)
  {
    ComponentsConcat(workingDirectory, path);
    hide Components, Walk;
    assert Moves(workingDirectory + "/" + path, anywhere) == Moves(path, workingDirectory);
  }

  /** So going down to a name and up again changes nothing. */
  lemma UpUndoesDown(path: string, name: string, workingDirectory: string)
    requires path != "" && Name(name) && Resolve(path, workingDirectory).Canonical?
    ensures Resolve(path + "/" + name + "/..", workingDirectory) == Resolve(path, workingDirectory)
  {
    var here := Components(Resolve(path, workingDirectory).path);
    CanonicalIsFixed(path, workingDirectory, "");
    hide Resolve, Components;
    DownAndUp(path, name, workingDirectory);
    DownAndUp(path + "/" + name, name, workingDirectory);
    ComponentsOfPathOf(here + [name]);
    assert (here + [name])[..|here|] == here;
  }

  // ---------------------------------------------------------------------------
  // When a path goes above root
  // ---------------------------------------------------------------------------

  /** Names minus ".." components. */
  function Depth(moves: seq<string>): int {
    if moves == [] then 0
    else
      var last := moves[|moves| - 1];
      Depth(moves[..|moves| - 1]) + if last == ".." then -1 else if last == "." then 0 else 1
  }

  lemma {:induction false} WalkDepth(moves: seq<string>)
    ensures Walk(moves, []).Some? <==> forall n :: 0 <= n <= |moves| ==> Depth(moves[..n]) >= 0
    ensures Walk(moves, []).Some? ==> |Walk(moves, []).value| == Depth(moves)
  {
    assert moves[..|moves|] == moves;
    if moves != [] {
      var k := |moves| - 1;
      var before := moves[..k];
      WalkDepth(before);
      assert moves == before + [moves[k]];
      WalkInTwoParts(before, [moves[k]], []);
      if Walk(before, []).Some? {
        OneMove(moves[k], Walk(before, []).value);
      }
      hide Walk;
      DepthsSplit(before, moves);
    }
  }

  /** All prefixes of a path are those of the path without its last component, and itself. */
  lemma DepthsSplit(before: seq<string>, moves: seq<string>)
    requires moves != [] && before == moves[..|moves| - 1]
    ensures (forall n :: 0 <= n <= |moves| ==> Depth(moves[..n]) >= 0) <==>
            (forall n :: 0 <= n <= |before| ==> Depth(before[..n]) >= 0) && Depth(moves) >= 0
  {
    hide Depth;
    assert forall n :: 0 <= n <= |before| ==> before[..n] == moves[..n];
    assert moves[..|moves|] == moves;
  }

  lemma OneMove(move: string, at: seq<string>)
    ensures Walk([move], at) ==
            if move == ".." then (if at == [] then None else Some(at[..|at| - 1]))
            else if move == "." then Some(at) else Some(at + [move])
  {
    assert [move][1..] == [];
  }

  /** The walk fails exactly when some prefix of the components has more ".." than
      names; the relative-path error comes first and for no other reason. */
  lemma FailsIff(path: string, workingDirectory: string)
    ensures Resolve(path, workingDirectory) == RelativeWorkingDirectory <==>
            Relative(path) && !Absolute(workingDirectory)
    ensures !(Relative(path) && !Absolute(workingDirectory)) ==>
      (Resolve(path, workingDirectory) == AboveRoot <==>
       exists n :: 0 <= n <= |Moves(path, workingDirectory)| && Depth(Moves(path, workingDirectory)[..n]) < 0)
  {
    WalkDepth(Moves(path, workingDirectory));
  }

  // ---------------------------------------------------------------------------
  // The empty path
  // ---------------------------------------------------------------------------

  /** The documented meaning: every path that does not begin with a slash, the empty one
      included, is resolved from the working directory. */
  function Documented(path: string, workingDirectory: string): Outcome {
    if !Absolute(path) && !Absolute(workingDirectory) then RelativeWorkingDirectory
    else
      match Walk((if Absolute(path) then [] else Components(workingDirectory)) + Components(path), [])
      case None => AboveRoot
      case Some(at) => Canonical(PathOf(at))
  }

  /** The empty path names the root, whatever the working directory. */
  lemma EmptyPathIsRoot(workingDirectory: string)
    ensures Resolve("", workingDirectory) == Canonical("/")
  {
    assert Moves("", workingDirectory) == [];
  }

  /** The code does what is documented if and only if the path is not empty or the
      working directory is itself the root. */
  lemma DocumentedIff(path: string, workingDirectory: string)
    ensures Resolve(path, workingDirectory) == Documented(path, workingDirectory) <==>
            path != "" || (Absolute(workingDirectory) && Walk(Components(workingDirectory), []) == Some([]))
  {
    if path == "" {
      EmptyPathIsRoot(workingDirectory);
      var ws := Components(workingDirectory);
      assert ws + Components("") == ws;
      if Walk(ws, []).Some? {
        var at := Walk(ws, []).value;
        ComponentsAreWords(workingDirectory);
        WalkReachesNames(ws, []);
        ComponentsOfPathOf(at);
        assert PathOf([]) == "/";
        ComponentsOfPathOf([]);
      }
    }
  }
}
