/** The access control check is containment of topic sets, up to three pairs of filters. */
module AclLaws {
  import opened Topic
  import opened TopicLaws
  import opened TopicScan
  import opened Acl

  // ---------------------------------------------------------------- joining levels

  function Join(ls: seq<string>): string
    requires |ls| >= 1
  {
    if |ls| == 1 then ls[0] else ls[0] + "/" + Join(ls[1..])
  }

  predicate SlashFree(ls: seq<string>) { forall i | 0 <= i < |ls| :: '/' !in ls[i] }

  /** Characters of the joined levels, counting one separator for each level. */
  function Size(ls: seq<string>): nat { if ls == [] then 0 else |ls[0]| + 1 + Size(ls[1..]) }

  /** From position i on, c is b from position j on. */
  predicate EndsIn(c: string, i: nat, b: string, j: nat)
    decreases |b| - j
  {
    && i <= |c| && j <= |b| && |c| - i == |b| - j
    && (j == |b| || (c[i] == b[j] && EndsIn(c, i + 1, b, j + 1)))
  }

  lemma {:induction false} ConcatEndsIn(a: string, b: string, j: nat)
    requires j <= |b|
    ensures EndsIn(a + b, |a| + j, b, j)
    decreases |b| - j
  {
    if j < |b| { ConcatEndsIn(a, b, j + 1); }
  }

  lemma {:induction false} LevelsShift(c: string, i: nat, b: string, j: nat)
    requires EndsIn(c, i, b, j)
    ensures LevelsFrom(c, i) == LevelsFrom(b, j)
    decreases |b| - j
  {
    if j == |b| {
      LevelsAtEnd(c);
      LevelsAtEnd(b);
    } else {
      LevelsShift(c, i + 1, b, j + 1);
      SameOneOn(c, i, b, j);
    }
  }

  lemma SameOneOn(c: string, i: nat, b: string, j: nat)
    requires i < |c| && j < |b| && c[i] == b[j] && LevelsFrom(c, i + 1) == LevelsFrom(b, j + 1)
    ensures LevelsFrom(c, i) == LevelsFrom(b, j)
  {
    if b[j] == '/' {
      LevelsAtSlash(c, i);
      LevelsAtSlash(b, j);
    } else {
      LevelsAtChar(c, i);
      LevelsAtChar(b, j);
      SameHeadAndTail(LevelsFrom(c, i), LevelsFrom(b, j));
    }
  }

  lemma SameHeadAndTail(a: seq<string>, b: seq<string>)
    requires a != [] && b != [] && a[0] == b[0] && a[1..] == b[1..]
    ensures a == b
  {
    assert a == [a[0]] + a[1..] && b == [b[0]] + b[1..];
  }

  lemma {:induction false} LevelsOfJoin(ls: seq<string>)
    requires |ls| >= 1 && SlashFree(ls)
    ensures Levels(Join(ls)) == ls
    decreases |ls|
  {
    if |ls| == 1 {
      LevelAlone(ls[0]);
      assert ls == [ls[0]];
    } else {
      LevelsOfJoin(ls[1..]);
      LevelFirst(ls[0], Join(ls[1..]));
      assert ls == [ls[0]] + ls[1..];
    }
  }

  lemma LevelAlone(head: string)
    requires '/' !in head
    ensures Levels(head) == [head]
  {
    LevelEndUnique(head, 0, |head|);
    LevelsUnfold(head, 0);
    assert head[0..|head|] == head;
  }

  lemma LevelFirst(head: string, rest: string)
    requires '/' !in head
    ensures Levels(head + "/" + rest) == [head] + Levels(rest)
  {
    var s := head + "/" + rest;
    assert forall l | 0 <= l < |head| :: s[l] == head[l];
    LevelEndUnique(s, 0, |head|);
    LevelsUnfold(s, 0);
    assert s[0..|head|] == head;
    ConcatEndsIn(head + "/", rest, 0);
    LevelsShift(s, |head + "/"|, rest, 0);
  }

  lemma JoinCons(head: string, rest: seq<string>)
    requires |rest| >= 1
    ensures Join([head] + rest) == head + "/" + Join(rest)
  {
    assert ([head] + rest)[1..] == rest;
  }

  lemma JoinChar(ls: seq<string>, more: seq<string>, c: char)
    requires |ls| >= 1 && |more| >= 1 && ls[0] == [c] + more[0] && ls[1..] == more[1..]
    ensures Join(ls) == [c] + Join(more)
  {
  }

  predicate Rejoins(s: string, j: nat)
    requires j <= |s|
  {
    Join(LevelsFrom(s, j)) == s[j..]
  }

  lemma RejoinsEnd(s: string)
    ensures Rejoins(s, |s|)
  {
    LevelsAtEnd(s);
    assert Join([""]) == "";
  }

  lemma RejoinsSlash(s: string, j: nat)
    requires j < |s| && s[j] == '/' && Rejoins(s, j + 1)
    ensures Rejoins(s, j)
  {
    LevelsAtSlash(s, j);
    JoinCons("", LevelsFrom(s, j + 1));
    assert s[j..] == "" + "/" + s[j + 1..];
  }

  lemma RejoinsChar(s: string, j: nat)
    requires j < |s| && s[j] != '/' && Rejoins(s, j + 1)
    ensures Rejoins(s, j)
  {
    LevelsAtChar(s, j);
    JoinChar(LevelsFrom(s, j), LevelsFrom(s, j + 1), s[j]);
    assert s[j..] == [s[j]] + s[j + 1..];
  }

  lemma {:induction false} JoinOfLevels(s: string, j: nat)
    requires j <= |s|
    ensures Rejoins(s, j)
    decreases |s| - j
  {
    if j == |s| {
      RejoinsEnd(s);
    } else {
      JoinOfLevels(s, j + 1);
      if s[j] == '/' { RejoinsSlash(s, j); } else { RejoinsChar(s, j); }
    }
  }

  lemma {:induction false} JoinLength(ls: seq<string>)
    requires |ls| >= 1
    ensures |Join(ls)| == Size(ls) - 1
    decreases |ls|
  {
    if |ls| > 1 { JoinLength(ls[1..]); }
  }

  lemma {:induction false} SlashesConcat(a: string, b: string)
    ensures Slashes(a + b) == Slashes(a) + Slashes(b)
  {
    if b == "" {
      assert a + b == a;
    } else {
      SlashesConcat(a, b[..|b| - 1]);
      assert (a + b)[..|a + b| - 1] == a + b[..|b| - 1];
    }
  }

  lemma {:induction false} SlashFreeCount(s: string)
    requires '/' !in s
    ensures Slashes(s) == 0
  {
    if s != "" { SlashFreeCount(s[..|s| - 1]); }
  }

  lemma {:induction false} JoinSlashes(ls: seq<string>)
    requires |ls| >= 1 && SlashFree(ls)
    ensures Slashes(Join(ls)) == |ls| - 1
    decreases |ls|
  {
    SlashFreeCount(ls[0]);
    if |ls| > 1 {
      JoinSlashes(ls[1..]);
      SlashesConcat(ls[0], "/");
      SlashesConcat(ls[0] + "/", Join(ls[1..]));
      assert Slashes("/") == 1 by { assert "/"[..0] == ""; }
    }
  }

  // ---------------------------------------------------------------- well formed levels

  predicate Literal(level: string) {
    forall i | 0 <= i < |level| :: !Wildcard(level[i]) && level[i] != '/' && level[i] != '\0'
  }

  predicate WellFormed(ls: seq<string>) {
    forall i | 0 <= i < |ls| :: Literal(ls[i]) || ls[i] == "+" || (ls[i] == "#" && i + 1 == |ls|)
  }

  lemma HashIsLast(ls: seq<string>)
    requires WellFormed(ls) && ls != [] && ls[0] == "#"
    ensures ls == ["#"]
  {
    assert !Literal("#") by { assert Wildcard("#"[0]); }
  }

  predicate Literals(ls: seq<string>) { forall i | 0 <= i < |ls| :: Literal(ls[i]) }

  lemma LevelWellFormed(s: string, j: nat)
    requires Placed(s) && NulFree(s) && j <= |s| && LevelStart(s, j)
    ensures
      var level := s[j..LevelEnd(s, j)];
      Literal(level) || level == "+" || (level == "#" && LevelEnd(s, j) == |s|)
  {
    var e := LevelEnd(s, j);
    LevelHasNoSlash(s, j);
    if l :| j <= l < e && Wildcard(s[l]) {
      WildcardFills(s, j, l);
    } else {
      forall l | 0 <= l < e - j
        ensures !Wildcard(s[j..e][l]) && s[j..e][l] != '/' && s[j..e][l] != '\0'
      {
        assert s[j..e][l] == s[j + l];
      }
    }
  }

  /** A wildcard is all of its level. */
  lemma WildcardFills(s: string, j: nat, l: nat)
    requires Placed(s) && j <= l < |s| && l < LevelEnd(s, j) && LevelStart(s, j) && Wildcard(s[l])
    ensures s[j..LevelEnd(s, j)] == [s[l]] && (s[l] == '#' ==> LevelEnd(s, j) == |s|)
  {
    var e := LevelEnd(s, j);
    assert WildcardPlaced(s, l);
    if l > j { LevelEndIsFirst(s, j, l - 1); }
    if l + 1 < e { LevelEndIsFirst(s, j, l + 1); }
    assert e == l + 1;
  }

  lemma WellFormedCons(head: string, rest: seq<string>)
    requires Literal(head) || head == "+" || (head == "#" && rest == [])
    requires WellFormed(rest)
    ensures WellFormed([head] + rest)
  {
    var ls := [head] + rest;
    forall i | 0 < i < |ls|
      ensures Literal(ls[i]) || ls[i] == "+" || (ls[i] == "#" && i + 1 == |ls|)
    {
      assert ls[i] == rest[i - 1];
    }
  }

  lemma {:induction false} LevelsWellFormed(s: string, j: nat)
    requires Placed(s) && NulFree(s) && j <= |s| && LevelStart(s, j)
    ensures WellFormed(LevelsFrom(s, j))
    decreases |s| - j
  {
    var e := LevelEnd(s, j);
    LevelWellFormed(s, j);
    LevelsUnfold(s, j);
    if e < |s| { LevelsWellFormed(s, e + 1); }
    WellFormedCons(s[j..e], Behind(s, e));
  }

  // ---------------------------------------------------------------- covering is sound

  lemma {:induction false} CoveringIsSound(p: Patterns, a: seq<string>, s: seq<string>, t: seq<string>)
    requires WellFormed(a) && Covers(p, a, s) && MatchLevels(NoPatterns, s, t)
    ensures MatchLevels(p, a, t)
    decreases |a|
  {
    if a != [] && a != ["#"] {
      if a[0] == "#" { HashIsLast(a); }
      CoveringIsSound(p, a[1..], s[1..], t[1..]);
    }
  }

  // ---------------------------------------------------------------- and complete

  function InstanceOf(level: string): string { if level == "+" then "x" else level }

  /** A topic that matches the filter. */
  function Instance(s: seq<string>): seq<string> {
    if s == [] || s == ["#"] then [] else [InstanceOf(s[0])] + Instance(s[1..])
  }

  lemma {:induction false} InstanceMatches(s: seq<string>)
    requires WellFormed(s)
    ensures MatchLevels(NoPatterns, s, Instance(s))
    ensures Literals(Instance(s))
    ensures Size(Instance(s)) <= Size(s) && |Instance(s)| <= |s|
    decreases |s|
  {
    if s != [] && s != ["#"] {
      if s[0] == "#" { HashIsLast(s); }
      InstanceMatches(s[1..]);
      assert Instance(s)[1..] == Instance(s[1..]);
    }
  }

  function Other(level: string): string { if level == "x" then "y" else "x" }

  /** What a level stands for. */
  function Meant(p: Patterns, level: string): string { if IsPattern(p, level) then IdOf(p, level) else level }

  /** A topic level that matches s and not a. */
  function Apart(p: Patterns, a: string, s: string): string { if s == "+" then Other(Meant(p, a)) else s }

  lemma ApartMatches(p: Patterns, a: string, s: string)
    requires !LevelCovers(p, a, s) && a != "#" && s != "#" && (Literal(s) || s == "+")
    ensures LevelMatches(NoPatterns, s, Apart(p, a, s)) && !LevelMatches(p, a, Apart(p, a, s)) && Literal(Apart(p, a, s))
  {
    assert !Literal("/") by { assert "/"[0] == '/'; }
  }

  /** A topic that matches s and not a. */
  function Witness(p: Patterns, a: seq<string>, s: seq<string>): seq<string>
    requires !Covers(p, a, s)
    decreases |a|
  {
    if a == [] then if s == ["#"] then ["x"] else Instance(s)
    else if s == [] || s[0] == "#" then []
    else if !LevelCovers(p, a[0], s[0]) then [Apart(p, a[0], s[0])] + Instance(s[1..])
    else [InstanceOf(s[0])] + Witness(p, a[1..], s[1..])
  }

  lemma {:induction false} WitnessSeparates(p: Patterns, a: seq<string>, s: seq<string>)
    requires WellFormed(a) && WellFormed(s) && !Covers(p, a, s)
    ensures MatchLevels(NoPatterns, s, Witness(p, a, s))
    ensures !MatchLevels(p, a, Witness(p, a, s))
    ensures Literals(Witness(p, a, s))
    ensures Size(Witness(p, a, s)) <= Size(s) && |Witness(p, a, s)| <= |s|
    decreases |a|
  {
    if a == [] {
      InstanceMatches(s);
      if s[0] == "#" { HashIsLast(s); }
    } else if s == [] {
    } else if s[0] == "#" {
      HashIsLast(s);
    } else {
      if a[0] == "#" { HashIsLast(a); }
      if !LevelCovers(p, a[0], s[0]) {
        InstanceMatches(s[1..]);
        ApartMatches(p, a[0], s[0]);
        WitnessAt(p, a, s, Apart(p, a[0], s[0]), Instance(s[1..]));
      } else {
        WitnessSeparates(p, a[1..], s[1..]);
        WitnessAt(p, a, s, InstanceOf(s[0]), Witness(p, a[1..], s[1..]));
      }
    }
  }

  /** A level and the levels behind it. */
  lemma WitnessAt(p: Patterns, a: seq<string>, s: seq<string>, head: string, rest: seq<string>)
    requires a != [] && a[0] != "#" && s != [] && s[0] != "#"
    requires LevelMatches(NoPatterns, s[0], head) && MatchLevels(NoPatterns, s[1..], rest)
    requires !LevelMatches(p, a[0], head) || !MatchLevels(p, a[1..], rest)
    requires Literal(head) && Literals(rest) && |head| <= |s[0]| && Size(rest) <= Size(s[1..]) && |rest| < |s|
    ensures
      var w := [head] + rest;
      MatchLevels(NoPatterns, s, w) && !MatchLevels(p, a, w) && Literals(w) && Size(w) <= Size(s) && |w| <= |s|
  {
    assert ([head] + rest)[1..] == rest;
  }

  // ---------------------------------------------------------------- topics from levels

  predicate PublishTopic(t: string) { ValidTopic(t) && NulFree(t) }

  lemma {:induction false} LiteralJoin(ls: seq<string>)
    requires |ls| >= 1 && Literals(ls)
    ensures forall i | 0 <= i < |Join(ls)| :: !Wildcard(Join(ls)[i]) && Join(ls)[i] != '\0'
    decreases |ls|
  {
    if |ls| > 1 { LiteralJoin(ls[1..]); }
  }

  /** Literal levels within the limits are the levels of a topic, unless they are the empty one. */
  lemma TopicOfLevels(ls: seq<string>) returns (t: string)
    requires ls != [] && ls != [""] && Literals(ls)
    requires Size(ls) <= MAX_TOPIC_LENGTH + 1 && |ls| <= TOPIC_HIERARCHY_LIMIT + 1
    ensures PublishTopic(t) && Levels(t) == ls
  {
    t := Join(ls);
    LevelsOfJoin(ls);
    LiteralJoin(ls);
    JoinLength(ls);
    JoinSlashes(ls);
    if t == "" { LevelsAtEnd(t); }
  }

  lemma FilterSize(s: string)
    requires ValidFilter(s) && NulFree(s)
    ensures WellFormed(Levels(s))
    ensures Size(Levels(s)) <= MAX_TOPIC_LENGTH + 1 && |Levels(s)| <= TOPIC_HIERARCHY_LIMIT + 1
    ensures Levels(s) != [""]
    ensures Levels(s) == ["#"] <==> s == "#"
    ensures Levels(s) == ["", "#"] <==> s == "/#"
  {
    LevelsWellFormed(s, 0);
    JoinOfLevels(s, 0);
    JoinLength(Levels(s));
    assert s[0..] == s;
    LevelsSlashFree(s, 0);
    JoinSlashes(Levels(s));
    HashOnly(s, 0);
    ParentOnly(s);
  }

  lemma {:induction false} LevelsSlashFree(s: string, j: nat)
    requires j <= |s|
    ensures SlashFree(LevelsFrom(s, j))
    decreases |s| - j
  {
    var e := LevelEnd(s, j);
    LevelHasNoSlash(s, j);
    LevelsUnfold(s, j);
    if e < |s| { LevelsSlashFree(s, e + 1); }
  }

  lemma ParentOnly(s: string)
    ensures Levels(s) == ["", "#"] <==> s == "/#"
  {
    if Levels(s) == ["", "#"] {
      JoinOfLevels(s, 0);
      assert s[0..] == s;
      assert ["", "#"][1..] == ["#"];
    }
    if s == "/#" {
      LevelsAtSlash(s, 0);
      HashOnly(s, 1);
      assert s[1..] == "#";
    }
  }

  /** The first character of the topic is the one of its first level, or a slash. */
  lemma FirstChar(s: string)
    requires s != ""
    ensures s[0] == '$' <==> (Levels(s)[0] != "" && Levels(s)[0][0] == '$')
  {
    if s[0] == '/' { LevelsAtSlash(s, 0); } else { LevelsAtChar(s, 0); }
  }

  // ---------------------------------------------------------------- containment

  /** Every topic the subscription can receive is one the access control filter matches. */
  ghost predicate Contained(p: Patterns, acl: string, sub: string)
    requires acl != "" && sub != ""
  {
    forall t | PublishTopic(t) && Matches(NoPatterns, sub, t) :: Matches(p, acl, t)
  }

  /** Contained pairs the check does not see, because the empty topic is not a topic. */
  predicate Missed(acl: string, sub: string) {
    || (sub == "#" && acl == "+/#")
    || (sub == "/#" && (acl == "/+/#" || acl == "+/+/#"))
  }

  lemma CoveredIsContained(p: Patterns, acl: string, sub: string)
    requires ValidFilter(acl) && ValidFilter(sub) && NulFree(acl)
    requires FilterCovers(p, acl, sub)
    ensures Contained(p, acl, sub)
  {
    LevelsWellFormed(acl, 0);
    forall t | PublishTopic(t) && Matches(NoPatterns, sub, t)
      ensures Matches(p, acl, t)
    {
      CoveringIsSound(p, Levels(acl), Levels(sub), Levels(t));
    }
  }

  /** A topic with these levels tells the two filters apart. */
  lemma Separated(p: Patterns, acl: string, sub: string, ls: seq<string>)
    requires ValidFilter(acl) && ValidFilter(sub)
    requires ls != [] && ls != [""] && Literals(ls)
    requires Size(ls) <= MAX_TOPIC_LENGTH + 1 && |ls| <= TOPIC_HIERARCHY_LIMIT + 1
    requires MatchLevels(NoPatterns, Levels(sub), ls)
    requires sub[0] == '$' <==> (ls[0] != "" && ls[0][0] == '$')
    requires !MatchLevels(p, Levels(acl), ls) || (acl[0] == '$') != (sub[0] == '$')
    ensures !Contained(p, acl, sub)
  {
    var t := TopicOfLevels(ls);
    FirstChar(t);
    assert Matches(NoPatterns, sub, t);
  }

  lemma DollarDiffers(p: Patterns, acl: string, sub: string)
    requires ValidFilter(acl) && ValidFilter(sub) && NulFree(sub)
    requires (acl[0] == '$') != (sub[0] == '$')
    ensures !Contained(p, acl, sub)
  {
    FilterSize(sub);
    FirstChar(sub);
    var s := Levels(sub);
    if sub == "#" {
      Separated(p, acl, sub, ["x"]);
    } else if sub == "/#" {
      assert s[1..] == ["#"];
      Separated(p, acl, sub, ["", ""]);
    } else {
      var ls := Instance(s);
      InstanceMatches(s);
      InstanceNotEmpty(s);
      Separated(p, acl, sub, ls);
    }
  }

  lemma InstanceNotEmpty(s: seq<string>)
    requires WellFormed(s) && s != [] && s != ["#"] && s != [""] && s != ["", "#"]
    ensures Instance(s) != [] && Instance(s) != [""]
    ensures Instance(s)[0] == InstanceOf(s[0])
  {
    if |s| > 1 && s[1] == "#" { HashIsLast(s[1..]); }
    if |s| > 1 { assert s[1..] == ["#"] || |Instance(s[1..])| > 0; }
    if s[1..] == ["#"] { assert s == [s[0], "#"]; }
  }

  /** The subscription # against a filter that does not cover it. */
  lemma HashNotContained(p: Patterns, acl: string, a: seq<string>)
    requires ValidFilter(acl) && NulFree(acl) && acl[0] != '$' && a == Levels(acl)
    requires a != ["#"] && a != ["+", "#"]
    ensures !Contained(p, acl, "#")
  {
    HashOnly("#", 0);
    FilterSize(acl);
    assert Levels("#") == ["#"] by { assert "#"[0..] == "#"; }
    assert ValidFilter("#") by { assert "#"[..0] == ""; }
    if a[0] == "#" { HashIsLast(a); }
    if a[0] != "+" {
      Separated(p, acl, "#", [Other(Meant(p, a[0]))]);
    } else if a == ["+"] {
      assert ["x", "x"][1..] == ["x"];
      Separated(p, acl, "#", ["x", "x"]);
    } else {
      assert a == [a[0]] + a[1..];
      assert !MatchLevels(p, a[1..], []);
      assert ["x"][1..] == [];
      Separated(p, acl, "#", ["x"]);
    }
  }

  /** The subscription /# against a filter that does not cover it. */
  lemma SlashHashNotContained(p: Patterns, acl: string, a: seq<string>)
    requires ValidFilter(acl) && NulFree(acl) && acl[0] != '$' && a == Levels(acl)
    requires !Covers(p, a, ["", "#"]) && a != ["", "+", "#"] && a != ["+", "+", "#"]
    ensures !Contained(p, acl, "/#")
  {
    var s := ["", "#"];
    ParentOnly("/#");
    FilterSize(acl);
    assert ValidFilter("/#") by { SlashesOn("/#", 0); SlashesOn("/#", 1); assert "/#"[..0] == "" && "/#"[..2] == "/#"; }
    assert s[1..] == ["#"];
    if a[0] == "#" { HashIsLast(a); }
    if a[0] != "+" && a[0] != "" {
      Separated(p, acl, "/#", ["", ""]);
    } else if |a| == 1 {
      assert ["", "x"][1..] == ["x"];
      Separated(p, acl, "/#", ["", "x"]);
    } else {
      SlashHashDeeper(p, acl, a);
    }
  }

  /** What is left of the filter behind its first level. */
  lemma SlashHashDeeper(p: Patterns, acl: string, a: seq<string>)
    requires ValidFilter(acl) && acl[0] != '$' && a == Levels(acl) && WellFormed(a)
    requires ValidFilter("/#") && Levels("/#") == ["", "#"]
    requires |a| >= 2 && (a[0] == "+" || a[0] == "") && a[1..] != ["#"]
    requires a != ["", "+", "#"] && a != ["+", "+", "#"]
    ensures !Contained(p, acl, "/#")
  {
    if a[1] == "#" { HashIsLast(a[1..]); }
    if a[1] != "+" {
      OtherFails(p, a[1..]);
      SlashSeparates(p, acl, a, [Other(Meant(p, a[1]))]);
    } else if |a| == 2 {
      assert a[1..] == ["+"];
      PlusAloneFails(p, a[1..]);
      SlashSeparates(p, acl, a, ["x", "x"]);
    } else {
      assert a == [a[0], "+"] + a[2..] && a[1..][1..] == a[2..];
      PlusMoreFails(p, a[1..]);
      SlashSeparates(p, acl, a, ["x"]);
    }
  }

  lemma OtherFails(p: Patterns, b: seq<string>)
    requires b != [] && b[0] != "+" && b[0] != "#"
    ensures !MatchLevels(p, b, [Other(Meant(p, b[0]))])
  {
  }

  lemma PlusAloneFails(p: Patterns, b: seq<string>)
    requires b == ["+"]
    ensures !MatchLevels(p, b, ["x", "x"])
  {
    assert ["x", "x"][1..] == ["x"] && b[1..] == [];
  }

  lemma PlusMoreFails(p: Patterns, b: seq<string>)
    requires |b| >= 2 && b[0] == "+" && b[1..] != ["#"]
    ensures !MatchLevels(p, b, ["x"])
  {
    assert ["x"][1..] == [];
    assert !MatchLevels(p, b[1..], []);
  }

  /** Levels behind an empty one that the rest of the filter does not match. */
  lemma SlashSeparates(p: Patterns, acl: string, a: seq<string>, rest: seq<string>)
    requires ValidFilter(acl) && acl[0] != '$' && a == Levels(acl) && |a| >= 2 && (a[0] == "+" || a[0] == "")
    requires ValidFilter("/#") && Levels("/#") == ["", "#"]
    requires rest == ["x"] || rest == ["y"] || rest == ["x", "x"]
    requires !MatchLevels(p, a[1..], rest)
    ensures !Contained(p, acl, "/#")
  {
    var ls := [""] + rest;
    assert ls[1..] == rest && ["", "#"][1..] == ["#"];
    SmallSize(rest);
    Separated(p, acl, "/#", ls);
  }

  lemma SmallSize(rest: seq<string>)
    requires rest == ["x"] || rest == ["y"] || rest == ["x", "x"]
    ensures Literals([""] + rest) && Size([""] + rest) <= 5
  {
    assert ([""] + rest)[1..] == rest;
    assert Size(["x"]) == 2 && Size(["y"]) == 2;
    assert ["x", "x"][1..] == ["x"];
  }

  lemma NotCovered(p: Patterns, acl: string, sub: string)
    requires ValidFilter(acl) && ValidFilter(sub) && NulFree(acl) && NulFree(sub)
    requires (acl[0] == '$') == (sub[0] == '$') && !Covers(p, Levels(acl), Levels(sub))
    requires sub != "#" && sub != "/#"
    ensures !Contained(p, acl, sub)
  {
    var a, s := Levels(acl), Levels(sub);
    FilterSize(acl);
    FilterSize(sub);
    FirstChar(sub);
    WitnessSeparates(p, a, s);
    WitnessNotEmpty(p, a, s);
    Separated(p, acl, sub, Witness(p, a, s));
  }

  lemma WitnessNotEmpty(p: Patterns, a: seq<string>, s: seq<string>)
    requires WellFormed(s) && a != [] && !Covers(p, a, s)
    requires s != [] && s != ["#"] && s != [""] && s != ["", "#"]
    ensures Witness(p, a, s) != [] && Witness(p, a, s) != [""]
    ensures Witness(p, a, s)[0] == s[0] || (s[0] == "+" && Witness(p, a, s)[0] in {"x", "y"})
  {
    if s[0] == "#" { HashIsLast(s); }
    if |s| > 1 && s[1] == "#" { HashIsLast(s[1..]); }
    if s[0] == "" && |s| > 1 {
      assert s == [s[0]] + s[1..];
      assert |Instance(s[1..])| > 0;
      if LevelCovers(p, a[0], s[0]) { assert |Witness(p, a[1..], s[1..])| > 0; }
    }
  }

  lemma JoinPlusHash()
    ensures Join(["+", "#"]) == "+/#" && Levels("+/#") == ["+", "#"]
  {
    assert ["+", "#"] == ["+"] + ["#"];
    JoinCons("+", ["#"]);
    LevelsOfJoin(["+", "#"]);
  }

  /** + / # behind another level. */
  lemma JoinBefore(head: string)
    requires '/' !in head
    ensures Join([head, "+", "#"]) == head + "/" + "+/#" && Levels(head + "/" + "+/#") == [head, "+", "#"]
  {
    JoinPlusHash();
    assert [head, "+", "#"] == [head] + ["+", "#"];
    JoinCons(head, ["+", "#"]);
    LevelsOfJoin([head, "+", "#"]);
  }

  lemma MissedPairs(acl: string, sub: string)
    requires ValidFilter(acl) && ValidFilter(sub)
    ensures Missed(acl, sub) <==>
      || (sub == "#" && Levels(acl) == ["+", "#"])
      || (sub == "/#" && (Levels(acl) == ["", "+", "#"] || Levels(acl) == ["+", "+", "#"]))
  {
    JoinOfLevels(acl, 0);
    assert acl[0..] == acl;
    JoinPlusHash();
    JoinBefore("");
    JoinBefore("+");
    assert "" + "/" + "+/#" == "/+/#" && "+" + "/" + "+/#" == "+/+/#";
  }

  /**
   The check says yes exactly for the contained pairs of filters, three pairs apart: for every
   accepted access control filter and every accepted subscription filter, it succeeds, and it
   is true if and only if every topic that matches the subscription matches the access control
   filter and the pair is not one of those three. With patterns, this is for every client id and
   user name.
   */
  lemma AclCheckIsContainment(p: Patterns, acl: string, sub: string)
    requires ValidFilter(acl) && ValidFilter(sub) && NulFree(acl) && NulFree(sub)
    ensures ScanAclMatch(p, acl, sub).Result?
    ensures ScanAclMatch(p, acl, sub).matched <==> Contained(p, acl, sub) && !Missed(acl, sub)
  {
    ScanDecidesCovering(p, acl, sub);
    MissedPairs(acl, sub);
    FilterSize(sub);
    var a := Levels(acl);
    if FilterCovers(p, acl, sub) {
      CoveredIsContained(p, acl, sub);
      if Missed(acl, sub) { MissedRefused(p, acl, sub); }
    } else if (acl[0] == '$') != (sub[0] == '$') {
      DollarDiffers(p, acl, sub);
    } else if !Missed(acl, sub) {
      if sub == "#" {
        HashNotContained(p, acl, a);
      } else if sub == "/#" {
        SlashHashNotContained(p, acl, a);
      } else {
        NotCovered(p, acl, sub);
      }
    }
  }

  /** The three pairs are contained pairs, and the check refuses them. */
  lemma MissedAreContained(p: Patterns, acl: string, sub: string)
    requires Missed(acl, sub)
    ensures Contained(p, acl, sub) && ScanAclMatch(p, acl, sub) == Result(false)
  {
    MissedLevels(acl, sub);
    MissedValid(acl);
    MissedValid(sub);
    MissedRefused(p, acl, sub);
    forall t | PublishTopic(t) && Matches(NoPatterns, sub, t)
      ensures Matches(p, acl, t)
    {
      var ls := Levels(t);
      if sub == "/#" {
        assert ls[0] == "" && t[0] == '/' by { FirstLevelEmpty(t); }
        LevelsAtSlash(t, 0);
        assert MatchLevels(p, ["#"], ls[1..][1..]);
        assert MatchLevels(p, ["+", "#"], ls[1..]);
      } else {
        assert MatchLevels(p, ["#"], ls[1..]);
      }
    }
  }

  lemma MissedRefused(p: Patterns, acl: string, sub: string)
    requires Missed(acl, sub) && ValidFilter(acl) && ValidFilter(sub)
    ensures ScanAclMatch(p, acl, sub) == Result(false)
  {
    MissedLevels(acl, sub);
    ScanDecidesCovering(p, acl, sub);
    assert !Covers(p, ["+", "#"], ["#"]);
  }

  lemma MissedValid(s: string)
    requires s == "#" || s == "/#" || s == "+/#" || s == "/+/#" || s == "+/+/#"
    ensures ValidFilter(s) && NulFree(s)
  {
    ShortSlashes(s);
  }

  lemma {:induction false} ShortSlashes(s: string)
    ensures Slashes(s) <= |s|
  {
    if s != "" { ShortSlashes(s[..|s| - 1]); }
  }

  lemma FirstLevelEmpty(t: string)
    requires t != "" && Levels(t)[0] == ""
    ensures t[0] == '/'
  {
  }

  lemma MissedLevels(acl: string, sub: string)
    requires Missed(acl, sub)
    ensures Levels(sub) == if sub == "#" then ["#"] else ["", "#"]
    ensures Levels(acl)[1..] == if sub == "#" then ["#"] else ["+", "#"]
    ensures Levels(acl)[0] == "+" || (sub == "/#" && Levels(acl)[0] == "")
    ensures Levels(sub)[1..] == if sub == "#" then [] else ["#"]
    ensures ["+", "#"][1..] == ["#"]
  {
    HashOnly(sub, 0);
    ParentOnly(sub);
    assert sub[0..] == sub;
    JoinPlusHash();
    JoinBefore("");
    JoinBefore("+");
    assert "" + "/" + "+/#" == "/+/#" && "+" + "/" + "+/#" == "+/+/#";
    assert ["+", "#"][1..] == ["#"];
    assert ["", "+", "#"][1..] == ["+", "#"] && ["+", "+", "#"][1..] == ["+", "#"];
  }
}
