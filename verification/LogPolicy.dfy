/** The log policy of Core/Debug.cc: printing and parsing it, looking a file up in
    it, and the cache of look-ups. */
module LogPolicy {
  import opened Basics
  import opened Text

  datatype LogLevel = SILENT | ERROR | WARNING | NOTICE | VERBOSE

  function Rank(level: LogLevel): nat {
    match level
    case SILENT => 0
    case ERROR => 10
    case WARNING => 20
    case NOTICE => 30
    case VERBOSE => 40
  }

  /** A pattern and the name of a level. */
  datatype Rule = Rule(pattern: string, level: string)

  // ---------------------------------------------------------------------------
  // Levels
  // ---------------------------------------------------------------------------

  function Upper(c: char): char {
    if 'a' <= c <= 'z' then 'A' + (c - 'a') else c
  }

  /** strcasecmp(a, b) == 0. */
  predicate SameIgnoringCase(a: string, b: string) {
    |a| == |b| && forall i :: 0 <= i < |a| ==> Upper(a[i]) == Upper(b[i])
  }

  function LevelName(level: LogLevel): string {
    match level
    case SILENT => "SILENT"
    case ERROR => "ERROR"
    case WARNING => "WARNING"
    case NOTICE => "NOTICE"
    case VERBOSE => "VERBOSE"
  }

  /** logLevelFromString, None standing for its abort. */
  function LevelNamed(s: string): Option<LogLevel> {
    if SameIgnoringCase(s, "SILENT") then Some(SILENT)
    else if SameIgnoringCase(s, "ERROR") then Some(ERROR)
    else if SameIgnoringCase(s, "WARNING") then Some(WARNING)
    else if SameIgnoringCase(s, "NOTICE") then Some(NOTICE)
    else if SameIgnoringCase(s, "VERBOSE") then Some(VERBOSE)
    else None
  }

  lemma NoticeIsNotice()
    ensures LevelNamed("NOTICE") == Some(NOTICE)
  {
    assert "NOTICE"[0] != "SILENT"[0];
  }

  lemma NameIsLetters(s: string)
    requires LevelNamed(s).Some?
    ensures s != "" && ',' !in s && '@' !in s
  {
    var level := LevelNamed(s).value;
    assert SameIgnoringCase(s, LevelName(level));
    assert forall i :: 0 <= i < |LevelName(level)| ==> 'A' <= LevelName(level)[i] <= 'Z';
  }

  // ---------------------------------------------------------------------------
  // Looking a file up
  // ---------------------------------------------------------------------------

  predicate StartsWith(haystack: string, needle: string) {
    |needle| <= |haystack| && haystack[..|needle|] == needle
  }

  predicate EndsWith(haystack: string, needle: string) {
    |needle| <= |haystack| && haystack[|haystack| - |needle|..] == needle
  }

  predicate Matches(r: Rule, fileName: string) {
    StartsWith(fileName, r.pattern) || EndsWith(fileName, r.pattern)
  }

  /** The level of the first rule that matches, NOTICE if none does. */
  function LevelFor(policy: seq<Rule>, fileName: string): Option<LogLevel> {
    if policy == [] then Some(NOTICE)
    else if Matches(policy[0], fileName) then LevelNamed(policy[0].level)
    else LevelFor(policy[1..], fileName)
  }

  /** A pattern matches the names that begin with it and the names that end with it. */
  lemma MatchesIff(r: Rule, fileName: string)
    ensures Matches(r, fileName) <==> exists rest :: fileName == r.pattern + rest || fileName == rest + r.pattern
  {
    if StartsWith(fileName, r.pattern) {
      assert fileName == r.pattern + fileName[|r.pattern|..];
    }
    if EndsWith(fileName, r.pattern) {
      assert fileName == fileName[..|fileName| - |r.pattern|] + r.pattern;
    }
    forall rest | fileName == r.pattern + rest || fileName == rest + r.pattern ensures Matches(r, fileName) {
      assert fileName == rest + r.pattern ==> fileName[|rest|..] == r.pattern;
    }
  }

  /** The first rule that matches decides, and a name that none matches gets NOTICE. */
  lemma {:induction false} FirstMatchDecides(before: seq<Rule>, r: Rule, after: seq<Rule>, fileName: string)
    requires forall b :: b in before ==> !Matches(b, fileName)
    ensures LevelFor(before, fileName) == Some(NOTICE)
    ensures Matches(r, fileName) ==> LevelFor(before + [r] + after, fileName) == LevelNamed(r.level)
  {
    hide Matches, LevelNamed;
    var all := before + [r] + after;
    if before != [] {
      assert before[0] in before && forall b :: b in before[1..] ==> b in before;
      FirstMatchDecides(before[1..], r, after, fileName);
      assert all[0] == before[0] && all[1..] == before[1..] + [r] + after;
    } else {
      assert all[0] == r;
    }
  }

  /** In a policy of one rule, every file in or below what the pattern names, and every
      file whose name ends so, has the rule's level. */
  lemma PatternDecides(pattern: string, level: string, rest: string)
    ensures LevelFor([Rule(pattern, level)], pattern + rest) == LevelNamed(level)
    ensures LevelFor([Rule(pattern, level)], rest + pattern) == LevelNamed(level)
  {
    var r := Rule(pattern, level);
    MatchesIff(r, pattern + rest);
    MatchesIff(r, rest + pattern);
    hide Matches, LevelNamed;
    FirstMatchDecides([], r, [], pattern + rest);
    FirstMatchDecides([], r, [], rest + pattern);
    assert [] + [r] + [] == [r];
  }

  /** The levels in order of verbosity. */
  const LEVELS: seq<LogLevel> := [SILENT, ERROR, WARNING, NOTICE, VERBOSE]

  /** A level is logged under exactly the levels from it on. */
  lemma RankIsOrder(i: nat, j: nat)
    requires i < |LEVELS| && j < |LEVELS|
    ensures Rank(LEVELS[i]) <= Rank(LEVELS[j]) <==> i <= j
  {
  }

  function Lower(c: char): char {
    if 'A' <= c <= 'Z' then 'a' + (c - 'A') else c
  }

  /** Every level is found under its own name, in any mixture of upper and lower case. */
  lemma NamesAreRead(level: LogLevel, s: string)
    requires |s| == |LevelName(level)|
    requires forall i :: 0 <= i < |s| ==> s[i] == LevelName(level)[i] || s[i] == Lower(LevelName(level)[i])
    ensures LevelNamed(s) == Some(level)
  {
    NameIsUpper(level);
    assert SameIgnoringCase(s, LevelName(level));
    OneName(level, s);
  }

  lemma NameIsUpper(level: LogLevel)
    ensures forall i :: 0 <= i < |LevelName(level)| ==> 'A' <= LevelName(level)[i] <= 'Z'
  {
  }

  /** No two names agree in both their lengths and their first letters. */
  lemma OneName(level: LogLevel, s: string)
    requires SameIgnoringCase(s, LevelName(level))
    ensures LevelNamed(s) == Some(level)
  {
    assert s != "" && Upper(s[0]) == LevelName(level)[0] && |s| == |LevelName(level)|;
    hide Upper;
    assert forall other :: other != level && |LevelName(other)| == |s| ==> LevelName(other)[0] != LevelName(level)[0];
  }

  method GetLogLevel(policy: seq<Rule>, fileName: string) returns (level: Option<LogLevel>)
    ensures level == LevelFor(policy, fileName)
  {
    assert policy[0..] == policy;
    for i := 0 to |policy|
      invariant LevelFor(policy[i..], fileName) == LevelFor(policy, fileName)
    {
      assert policy[i..][0] == policy[i] && policy[i..][1..] == policy[i + 1..];
      if Matches(policy[i], fileName) {
        return LevelNamed(policy[i].level);
      }
    }
    level := Some(NOTICE);
  }

  // ---------------------------------------------------------------------------
  // Printing and parsing
  // ---------------------------------------------------------------------------

  function RuleText(r: Rule): string {
    if r.pattern == "" then r.level else r.pattern + "@" + r.level
  }

  function RuleTexts(policy: seq<Rule>): (texts: seq<string>)
    ensures |texts| == |policy| && forall i :: 0 <= i < |policy| ==> texts[i] == RuleText(policy[i])
  {
    if policy == [] then [] else RuleTexts(policy[..|policy| - 1]) + [RuleText(policy[|policy| - 1])]
  }

  /** The policy with its default made explicit. */
  function Completed(policy: seq<Rule>): seq<Rule> {
    if policy == [] || policy[|policy| - 1].pattern != "" then policy + [Rule("", "NOTICE")] else policy
  }

  function PolicyText(policy: seq<Rule>): string {
    Joined(RuleTexts(Completed(policy)), ",")
  }

  lemma RuleTextsAppend(policy: seq<Rule>, r: Rule)
    ensures RuleTexts(policy + [r]) == RuleTexts(policy) + [RuleText(r)]
  {
    assert (policy + [r])[..|policy|] == policy;
  }

  /** The next rule's text extends the text of those before it. */
  lemma TextAppend(policy: seq<Rule>, r: Rule)
    requires policy != []
    ensures Joined(RuleTexts(policy + [r]), ",") == Joined(RuleTexts(policy), ",") + "," + RuleText(r)
  {
    hide RuleTexts, Joined;
    RuleTextsAppend(policy, r);
    JoinedAppend(RuleTexts(policy), ",", RuleText(r));
  }

  method PrintRule(before: string, r: Rule) returns (text: string, patternEmpty: bool)
    ensures text == before + RuleText(r) && patternEmpty == (r.pattern == "")
  {
    text := before;
    if r.pattern == "" {
      patternEmpty := true;
    } else {
      patternEmpty := false;
      text := text + r.pattern;
      text := text + "@";
    }
    text := text + r.level;
  }

  method LogPolicyToString(policy: seq<Rule>) returns (text: string)
    ensures text == PolicyText(policy)
  {
    hide RuleTexts, Joined, RuleText;
    if policy == [] {
      EmptyPolicyText();
      return LevelName(NOTICE);
    }
    text := "";
    var lastPatternEmpty := false;
    for i := 0 to |policy|
      invariant i == 0 ==> text == ""
      invariant i > 0 ==> text == Joined(RuleTexts(policy[..i]), ",") + (if i < |policy| then "," else "")
      invariant i > 0 ==> lastPatternEmpty == (policy[i - 1].pattern == "")
    {
      TextSoFar(policy, i, text);
      text, lastPatternEmpty := PrintRule(text, policy[i]);
      if i < |policy| - 1 {
        text := text + ",";
      }
    }
    assert policy[..|policy|] == policy && text == Joined(RuleTexts(policy), ",");
    if !lastPatternEmpty {
      DefaultText(policy);
      text := text + ",";
      text := text + LevelName(NOTICE);
    }
  }

  lemma EmptyPolicyText()
    ensures PolicyText([]) == "NOTICE"
  {
    OneRuleText(Rule("", "NOTICE"));
    assert Completed([]) == [Rule("", "NOTICE")];
  }

  lemma DefaultText(policy: seq<Rule>)
    requires policy != [] && policy[|policy| - 1].pattern != ""
    ensures PolicyText(policy) == Joined(RuleTexts(policy), ",") + "," + "NOTICE"
  {
    hide RuleTexts, Joined;
    TextAppend(policy, Rule("", "NOTICE"));
  }

  lemma TextSoFar(policy: seq<Rule>, i: nat, before: string)
    requires i < |policy|
    requires before == if i == 0 then "" else Joined(RuleTexts(policy[..i]), ",") + ","
    ensures before + RuleText(policy[i]) == Joined(RuleTexts(policy[..i + 1]), ",")
  {
    hide RuleText, RuleTexts, Joined;
    assert policy[..i + 1] == policy[..i] + [policy[i]];
    if i > 0 {
      TextAppend(policy[..i], policy[i]);
    } else {
      OneRuleText(policy[i]);
      assert policy[..i + 1] == [policy[i]];
    }
  }

  lemma OneRuleText(r: Rule)
    ensures Joined(RuleTexts([r]), ",") == RuleText(r)
  {
    RuleTextsAppend([], r);
    assert [] + [r] == [r];
  }

  /** One rule; None for the empty text, on which the code's assert fails. */
  function RuleOf(text: string): Option<Rule> {
    var pair := Lines(text, '@');
    if pair == [] then None
    else if |pair| == 1 then Some(Rule("", pair[0]))
    else Some(Rule(Joined(pair[..|pair| - 1], "@"), pair[|pair| - 1]))
  }

  function RulesOf(texts: seq<string>): (r: Option<seq<Rule>>)
    ensures r.Some? ==> |r.value| == |texts|
  {
    if texts == [] then Some([])
    else
      var n := |texts| - 1;
      var rules, rule := RulesOf(texts[..n]), RuleOf(texts[n]);
      if rules.None? || rule.None? then None else Some(rules.value + [rule.value])
  }

  function PolicyOf(text: string): Option<seq<Rule>> {
    RulesOf(Lines(text, ','))
  }

  lemma {:induction false} RulesOfPrefix(texts: seq<string>, i: nat)
    requires i <= |texts| && RulesOf(texts[..i]).None?
    ensures RulesOf(texts).None?
    decreases |texts|
  {
    if i == |texts| {
      assert texts[..i] == texts;
    } else {
      var n := |texts| - 1;
      assert texts[..n][..i] == texts[..i];
      RulesOfPrefix(texts[..n], i);
    }
  }

  method ParseRule(text: string) returns (rule: Option<Rule>)
    ensures rule == RuleOf(text)
  {
    var pair := Split(text, '@');
    if |pair| == 1 {
      rule := Some(Rule("", pair[0]));
    } else if |pair| == 2 {
      assert pair[..1] == [pair[0]];
      rule := Some(Rule(pair[0], pair[1]));
    } else if |pair| >= 3 {
      var level := pair[|pair| - 1];
      pair := pair[..|pair| - 1];
      var pattern := Join(pair, "@");
      rule := Some(Rule(pattern, level));
    } else {
      rule := None;
    }
  }

  method LogPolicyFromString(text: string) returns (policy: Option<seq<Rule>>)
    ensures policy == PolicyOf(text)
  {
    hide RuleOf;
    var rules := Split(text, ',');
    var result := [];
    for i := 0 to |rules|
      invariant RulesOf(rules[..i]) == Some(result)
    {
      assert rules[..i + 1][..i] == rules[..i];
      var rule := ParseRule(rules[i]);
      if rule.None? {
        RulesOfPrefix(rules, i + 1);
        return None;
      }
      result := result + [rule.value];
    }
    assert rules[..|rules|] == rules;
    policy := Some(result);
  }

  // ---------------------------------------------------------------------------
  // The round trip
  // ---------------------------------------------------------------------------

  predicate ValidLevels(policy: seq<Rule>) {
    forall r :: r in policy ==> LevelNamed(r.level).Some?
  }

  predicate CommaFree(policy: seq<Rule>) {
    forall r :: r in policy ==> ',' !in r.pattern
  }

  lemma CompletedFacts(policy: seq<Rule>)
    requires ValidLevels(policy)
    ensures Completed(policy) != [] && ValidLevels(Completed(policy))
    ensures CommaFree(Completed(policy)) <==> CommaFree(policy)
    ensures policy <= Completed(policy)
  {
    NoticeIsNotice();
    if policy != [] {
      assert policy[|policy| - 1] in policy;
    }
    assert forall r :: r in policy ==> r in Completed(policy);
  }

  /** A pattern may contain the separator '@': the level cannot. */
  lemma RuleRoundTrip(r: Rule)
    requires LevelNamed(r.level).Some?
    ensures RuleOf(RuleText(r)) == Some(r)
  {
    NameIsLetters(r.level);
    hide LevelNamed, Lines, Pieces, Find;
    OnePiece(r.level, '@');
    LinesArePieces(RuleText(r), '@');
    if r.pattern == "" {
      assert Lines(RuleText(r), '@') == [r.level];
    } else {
      var patternPieces := Pieces(r.pattern, '@');
      PiecesConcat(r.pattern, '@', r.level);
      JoinedPieces(r.pattern, '@');
      var pair := patternPieces + [r.level];
      assert Lines(RuleText(r), '@') == pair;
      assert pair[..|pair| - 1] == patternPieces;
    }
  }

  lemma {:induction false} RulesRoundTrip(policy: seq<Rule>)
    requires ValidLevels(policy)
    ensures RulesOf(RuleTexts(policy)) == Some(policy)
  {
    hide LevelNamed, RuleText, RuleOf, RuleTexts;
    if policy != [] {
      var n := |policy| - 1;
      assert policy[n] in policy && forall r :: r in policy[..n] ==> r in policy;
      RulesRoundTrip(policy[..n]);
      RuleRoundTrip(policy[n]);
      RuleTextsAppend(policy[..n], policy[n]);
      assert policy == policy[..n] + [policy[n]];
      assert RuleTexts(policy)[..n] == RuleTexts(policy[..n]);
    }
  }

  /** Joining texts and cutting the result gives the texts back if and only if they
      are free of the delimiter; otherwise it gives more of them. */
  lemma {:induction false} PiecesOfJoined(texts: seq<string>, d: char)
    requires texts != []
    ensures |Pieces(Joined(texts, [d]), d)| >= |texts|
    ensures |Pieces(Joined(texts, [d]), d)| == |texts| <==> forall t :: t in texts ==> d !in t
    ensures (forall t :: t in texts ==> d !in t) ==> Pieces(Joined(texts, [d]), d) == texts
  {
    hide Pieces, Find;
    var first := texts[0];
    assert first in texts;
    PieceCount(first, d);
    if |texts| == 1 {
      assert texts == [first];
    } else {
      PiecesOfJoined(texts[1..], d);
      PiecesConcat(first, d, Joined(texts[1..], [d]));
      assert texts == [first] + texts[1..];
    }
  }

  lemma PieceCount(s: string, d: char)
    ensures |Pieces(s, d)| == 1 <==> d !in s
    ensures d !in s ==> Pieces(s, d) == [s]
  {
  }

  lemma {:induction false} EndsInLevel(policy: seq<Rule>)
    requires policy != [] && ValidLevels(policy)
    ensures var text := Joined(RuleTexts(policy), ","); text != "" && text[|text| - 1] != ','
  {
    var n := |policy| - 1;
    assert policy[n] in policy;
    NameIsLetters(policy[n].level);
    var texts := RuleTexts(policy);
    if n > 0 {
      assert texts == texts[..n] + [texts[n]];
      JoinedAppend(texts[..n], ",", texts[n]);
    }
  }

  lemma TextsCommaFree(policy: seq<Rule>)
    requires ValidLevels(policy)
    ensures (forall t :: t in RuleTexts(policy) ==> ',' !in t) <==> CommaFree(policy)
  {
    var texts := RuleTexts(policy);
    forall r | r in policy
      ensures ',' in RuleText(r) <==> ',' in r.pattern
    {
      NameIsLetters(r.level);
    }
    hide LevelNamed;
    if forall t :: t in texts ==> ',' !in t {
      forall r | r in policy ensures ',' !in r.pattern {
        var i :| 0 <= i < |policy| && policy[i] == r;
        assert texts[i] in texts;
      }
    }
  }

  /** For valid levels, parsing the printed policy gives the policy back, with its
      default made explicit, if and only if no pattern contains a comma. */
  lemma PolicyRoundTripIff(policy: seq<Rule>)
    requires ValidLevels(policy)
    ensures PolicyOf(PolicyText(policy)) == Some(Completed(policy)) <==> CommaFree(policy)
  {
    hide LevelNamed, Completed, Pieces, Lines, RuleTexts, RulesOf, ValidLevels, CommaFree, Joined, Find;
    var full := Completed(policy);
    CompletedFacts(policy);
    var texts := RuleTexts(full);
    var text := Joined(texts, ",");
    EndsInLevel(full);
    LastPiece(text, ',');
    LinesArePieces(text, ',');
    assert Lines(text, ',') == Pieces(text, ',');
    PiecesOfJoined(texts, ',');
    assert Joined(texts, [',']) == text;
    TextsCommaFree(full);
    RulesRoundTrip(full);
  }

  /** Then every file name gets the same level as before. */
  lemma SameLevels(policy: seq<Rule>, fileName: string)
    requires ValidLevels(policy) && CommaFree(policy)
    ensures PolicyOf(PolicyText(policy)).Some?
    ensures LevelFor(PolicyOf(PolicyText(policy)).value, fileName) == LevelFor(policy, fileName)
  {
    hide LevelNamed, PolicyOf, PolicyText;
    PolicyRoundTripIff(policy);
    if Completed(policy) != policy {
      DefaultIsNotice(policy, fileName);
    }
  }

  lemma {:induction false} DefaultIsNotice(policy: seq<Rule>, fileName: string)
    ensures LevelFor(policy + [Rule("", "NOTICE")], fileName) == LevelFor(policy, fileName)
  {
    NoticeIsNotice();
    hide LevelNamed;
    var all := policy + [Rule("", "NOTICE")];
    if policy == [] {
      assert Matches(all[0], fileName);
    } else {
      DefaultIsNotice(policy[1..], fileName);
      assert all[1..] == policy[1..] + [Rule("", "NOTICE")];
    }
  }

  // ---------------------------------------------------------------------------
  // The cache
  // ---------------------------------------------------------------------------

  /** relativeFileName: strips the code tree's path, if the name starts with it. */
  function RelativeName(fileName: string, tree: string): string {
    if StartsWith(fileName, tree) then fileName[|tree|..] else fileName
  }

  lemma RelativeNames(tree: string, fileName: string)
    ensures RelativeName(tree + fileName, tree) == fileName
  {
  }

  class DebugLog {
    const tree: string
    var logPolicy: seq<Rule>
    var isLoggingCache: map<string, LogLevel>

    /** The cache agrees with a fresh look-up. */
    ghost predicate Valid()
      reads this
    {
      forall f :: f in isLoggingCache ==> LevelFor(logPolicy, RelativeName(f, tree)) == Some(isLoggingCache[f])
    }

    constructor (tree: string)
      ensures Valid() && this.tree == tree && logPolicy == []
    {
      this.tree, logPolicy, isLoggingCache := tree, [], map[];
    }

    method SetLogPolicy(newPolicy: seq<Rule>)
      modifies this
      ensures Valid() && logPolicy == newPolicy
    {
      logPolicy := newPolicy;
      isLoggingCache := map[];
    }

    /** None stands for the abort on a rule whose level has no valid name. */
    method IsLogging(level: LogLevel, fileName: string) returns (answer: Option<bool>)
      requires Valid()
      modifies this
      ensures Valid() && logPolicy == old(logPolicy)
      ensures answer.Some? ==> isLoggingCache.Keys == old(isLoggingCache.Keys) + {fileName}
      ensures var verbosity := LevelFor(logPolicy, RelativeName(fileName, tree));
        answer == if verbosity.None? then None else Some(Rank(level) <= Rank(verbosity.value))
    {
      var verbosity;
      if fileName !in isLoggingCache {
        var found := GetLogLevel(logPolicy, RelativeName(fileName, tree));
        if found.None? {
          return None;
        }
        verbosity := found.value;
        isLoggingCache := isLoggingCache[fileName := verbosity];
      } else {
        verbosity := isLoggingCache[fileName];
      }
      answer := Some(Rank(level) <= Rank(verbosity));
    }
  }

  datatype Request = SetPolicy(policy: seq<Rule>) | Ask(level: LogLevel, fileName: string)

  /** The policy in force after some requests. */
  function PolicyAfter(requests: seq<Request>): seq<Rule> {
    if requests == [] then []
    else
      var last := requests[|requests| - 1];
      if last.SetPolicy? then last.policy else PolicyAfter(requests[..|requests| - 1])
  }

  /** After any sequence of policy changes and queries, the answers are those of a
      look-up in the policy then in force. */
  method Serve(tree: string, requests: seq<Request>) returns (answers: seq<Option<bool>>)
    ensures |answers| == |requests|
    ensures forall i :: 0 <= i < |requests| && requests[i].Ask? ==>
      var verbosity := LevelFor(PolicyAfter(requests[..i]), RelativeName(requests[i].fileName, tree));
      answers[i] == if verbosity.None? then None else Some(Rank(requests[i].level) <= Rank(verbosity.value))
  {
    var log := new DebugLog(tree);
    answers := [];
    for k := 0 to |requests|
      invariant log.Valid() && log.tree == tree && fresh(log)
      invariant log.logPolicy == PolicyAfter(requests[..k])
      invariant |answers| == k
      invariant forall i :: 0 <= i < k && requests[i].Ask? ==>
        var verbosity := LevelFor(PolicyAfter(requests[..i]), RelativeName(requests[i].fileName, tree));
        answers[i] == if verbosity.None? then None else Some(Rank(requests[i].level) <= Rank(verbosity.value))
    {
      assert requests[..k + 1][..k] == requests[..k];
      var answer := None;
      match requests[k] {
        case SetPolicy(policy) => log.SetLogPolicy(policy);
        case Ask(level, fileName) => answer := log.IsLogging(level, fileName);
      }
      answers := answers + [answer];
    }
  }
}
