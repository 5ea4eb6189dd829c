/**
 Topic names and topic filters: validity, the level by level definition of matching, and the
 character scan the library uses, as a function of the two positions.
 */
module Topic {

  const TOPIC_HIERARCHY_LIMIT := 200
  const MAX_TOPIC_LENGTH := 65535

  // ---------------------------------------------------------------- validity

  predicate Wildcard(c: char) { c == '+' || c == '#' }

  predicate NulFree(s: string) { forall i | 0 <= i < |s| :: s[i] != '\0' }

  function Slashes(s: string): nat {
    if s == "" then 0 else Slashes(s[..|s| - 1]) + (if s[|s| - 1] == '/' then 1 else 0)
  }

  predicate ValidTopic(s: string) {
    && 0 < |s| <= MAX_TOPIC_LENGTH
    && Slashes(s) <= TOPIC_HIERARCHY_LIMIT
    && forall i | 0 <= i < |s| :: !Wildcard(s[i])
  }

  predicate LevelStart(s: string, i: int)
    requires 0 <= i <= |s|
  {
    i == 0 || s[i - 1] == '/'
  }

  /** A wildcard fills its level, and # is the last level. */
  predicate WildcardPlaced(s: string, i: int)
    requires 0 <= i < |s|
  {
    && (s[i] == '+' ==> LevelStart(s, i) && (i + 1 == |s| || s[i + 1] == '/'))
    && (s[i] == '#' ==> LevelStart(s, i) && i + 1 == |s|)
  }

  predicate ValidFilter(s: string) {
    && 0 < |s| <= MAX_TOPIC_LENGTH
    && Slashes(s) <= TOPIC_HIERARCHY_LIMIT
    && forall i | 0 <= i < |s| :: WildcardPlaced(s, i)
  }

  /** Character at a position of a C string: the terminating NUL is behind the last one. */
  function At(s: string, i: nat): char { if i < |s| then s[i] else '\0' }

  // ---------------------------------------------------------------- levels

  /** First position from j on that is a slash or the end. */
  function LevelEnd(s: string, j: nat): (e: nat)
    requires j <= |s|
    ensures j <= e <= |s|
    ensures e < |s| ==> s[e] == '/'
    decreases |s| - j
  {
    if j == |s| || s[j] == '/' then j else LevelEnd(s, j + 1)
  }

  lemma {:induction false} LevelEndIsFirst(s: string, j: nat, l: nat)
    requires j <= l < |s| && l < LevelEnd(s, j)
    ensures s[l] != '/'
    decreases |s| - j
  {
    if l > j { LevelEndIsFirst(s, j + 1, l); }
  }

  lemma LevelHasNoSlash(s: string, j: nat)
    requires j <= |s|
    ensures '/' !in s[j..LevelEnd(s, j)]
  {
    var level := s[j..LevelEnd(s, j)];
    forall l | 0 <= l < |level|
      ensures level[l] != '/'
    {
      LevelEndIsFirst(s, j, j + l);
    }
  }

  /** The levels of s from position j on. */
  function LevelsFrom(s: string, j: nat): (ls: seq<string>)
    requires j <= |s|
    ensures |ls| >= 1
    decreases |s| - j
  {
    var e := LevelEnd(s, j);
    [s[j..e]] + (if e == |s| then [] else LevelsFrom(s, e + 1))
  }

  function Levels(s: string): seq<string> { LevelsFrom(s, 0) }

  /** Substitutions for %c and %u; the empty string stands for a missing one. */
  datatype Patterns = NoPatterns | Patterns(clientid: string, username: string)

  predicate IsPattern(p: Patterns, level: string) { p.Patterns? && (level == "%c" || level == "%u") }

  predicate LevelMatches(p: Patterns, level: string, name: string) {
    if IsPattern(p, level) then
      var id := if level == "%c" then p.clientid else p.username;
      id != "" && name == id
    else level == "+" || level == name
  }

  /** Level by level: + matches any one level, a last # any number of levels, also none. */
  predicate MatchLevels(p: Patterns, filter: seq<string>, name: seq<string>) {
    if filter == [] then name == []
    else if filter == ["#"] then true
    else name != [] && LevelMatches(p, filter[0], name[0]) && MatchLevels(p, filter[1..], name[1..])
  }

  /** The definition of matching; topics beginning with $ are apart. */
  predicate Matches(p: Patterns, filter: string, name: string)
    requires filter != "" && name != ""
  {
    (filter[0] == '$' <==> name[0] == '$') && MatchLevels(p, Levels(filter), Levels(name))
  }

  // ---------------------------------------------------------------- the scan

  /** MOSQ_ERR_INVAL, or success with the result. */
  datatype Outcome = Inval | Result(matched: bool)

  predicate WildcardIn(s: string, j: nat, k: nat)
    requires k <= |s|
  {
    exists l :: j <= l < k && Wildcard(s[l])
  }

  /** A # that is not the last character, at or behind position i. */
  predicate BadHash(s: string, i: nat) {
    exists l :: i <= l < |s| - 1 && s[l] == '#'
  }

  predicate PatternAt(p: Patterns, sub: string, i: nat)
    requires i <= |sub|
  {
    && p.Patterns? && LevelStart(sub, i)
    && At(sub, i) == '%' && (At(sub, i + 1) == 'c' || At(sub, i + 1) == 'u')
    && (At(sub, i + 2) == '/' || i + 2 == |sub|)
  }

  predicate PrefixAt(s: string, j: nat, id: string) {
    j + |id| <= |s| && s[j..j + |id|] == id
  }

  /** One turn of the loop of topic_matches_sub at filter position i and topic position j. */
  function Scan(p: Patterns, sub: string, topic: string, i: nat, j: nat): Outcome
    requires i <= |sub| && j <= |topic|
    decreases |sub| - i, 1
  {
    if i == |sub| then if WildcardIn(topic, j, |topic|) then Inval else Result(false)
    else if j < |topic| && Wildcard(topic[j]) then Inval
    else if PatternAt(p, sub, i) then
      var id := if sub[i + 1] == 'c' then p.clientid else p.username;
      if id == "" || '/' in id || !PrefixAt(topic, j, id) then Result(false)
      else if j + |id| == |topic| && (i + 2 == |sub| || sub[i + 2..] == "/#") then Result(true)
      else Compare(p, sub, topic, i + 2, j + |id|)
    else Compare(p, sub, topic, i, j)
  }

  function Compare(p: Patterns, sub: string, topic: string, i: nat, j: nat): Outcome
    requires i <= |sub| && j <= |topic|
    decreases |sub| - i, 0
  {
    if At(sub, i) != At(topic, j) || j == |topic| then
      if At(sub, i) == '+' then
        if !LevelStart(sub, i) || (i + 1 < |sub| && sub[i + 1] != '/') then Inval
        else
          var e := LevelEnd(topic, j);
          if WildcardIn(topic, j, e) then Inval
          else if e == |topic| && i + 1 == |sub| then Result(true)
          else Scan(p, sub, topic, i + 1, e)
      else if At(sub, i) == '#' then
        if !LevelStart(sub, i) || i + 1 < |sub| || WildcardIn(topic, j, |topic|) then Inval
        else Result(true)
      else if j == |topic| && i > 0 && sub[i - 1] == '+' && At(sub, i) == '/' && At(sub, i + 1) == '#' then
        Result(true)
      else if BadHash(sub, i) then Inval
      else Result(false)
    else if i == |sub| then Result(false)
    else if j + 1 == |topic| && sub[i + 1..] == "/#" then Result(true)
    else if i + 1 == |sub| && j + 1 == |topic| then Result(true)
    else if j + 1 == |topic| && sub[i + 1..] == "+" then
      if sub[i] != '/' then Inval else Result(true)
    else Scan(p, sub, topic, i + 1, j + 1)
  }

  /** What topic_matches_sub returns. */
  function ScanMatch(p: Patterns, sub: string, topic: string): Outcome {
    if sub == "" || topic == "" then Inval
    else if (sub[0] == '$') != (topic[0] == '$') then Result(false)
    else Scan(p, sub, topic, 0, 0)
  }
}
