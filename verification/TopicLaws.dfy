/** The character scan decides the level by level definition. */
module TopicLaws {
  import opened Topic

  // ---------------------------------------------------------------- levels, one character on

  /** The levels behind the one that ends at e. */
  function Behind(s: string, e: nat): seq<string>
    requires e <= |s|
  {
    if e == |s| then [] else LevelsFrom(s, e + 1)
  }

  lemma LevelsAre(s: string, j: nat, level: string, rest: seq<string>)
    requires j <= |s| && level == s[j..LevelEnd(s, j)] && rest == Behind(s, LevelEnd(s, j))
    ensures LevelsFrom(s, j) == [level] + rest
  {
  }

  lemma LevelsUnfold(s: string, j: nat)
    requires j <= |s|
    ensures LevelsFrom(s, j) == [s[j..LevelEnd(s, j)]] + Behind(s, LevelEnd(s, j))
    ensures LevelsFrom(s, j)[0] == s[j..LevelEnd(s, j)] && LevelsFrom(s, j)[1..] == Behind(s, LevelEnd(s, j))
  {
    LevelsAre(s, j, s[j..LevelEnd(s, j)], Behind(s, LevelEnd(s, j)));
  }

  lemma LevelsAtSlash(s: string, j: nat)
    requires j < |s| && s[j] == '/'
    ensures LevelsFrom(s, j) == [""] + LevelsFrom(s, j + 1)
    ensures LevelsFrom(s, j)[1..] == LevelsFrom(s, j + 1)
  {
    LevelsAre(s, j, "", LevelsFrom(s, j + 1));
  }

  lemma LevelsAtEnd(s: string)
    ensures LevelsFrom(s, |s|) == [""]
    ensures LevelsFrom(s, |s|)[1..] == []
  {
    LevelsAre(s, |s|, "", []);
  }

  lemma LevelsAtChar(s: string, j: nat)
    requires j < |s| && s[j] != '/'
    ensures LevelsFrom(s, j)[0] == [s[j]] + LevelsFrom(s, j + 1)[0]
    ensures LevelsFrom(s, j)[1..] == LevelsFrom(s, j + 1)[1..]
  {
    var e := LevelEnd(s, j);
    assert s[j..e] == [s[j]] + s[j + 1..e];
    LevelsAre(s, j, [s[j]] + s[j + 1..e], Behind(s, e));
    LevelsAre(s, j + 1, s[j + 1..e], Behind(s, e));
  }

  /** Position e = LevelEnd(s, j) has the same levels, with an empty first one. */
  lemma LevelsAtLevelEnd(s: string, j: nat)
    requires j <= |s|
    ensures LevelsFrom(s, LevelEnd(s, j)) == [""] + LevelsFrom(s, j)[1..]
  {
    var e := LevelEnd(s, j);
    LevelsUnfold(s, j);
    LevelsAre(s, e, "", Behind(s, e));
  }

  lemma {:induction false} LevelEndUnique(s: string, j: nat, e: nat)
    requires j <= e <= |s|
    requires forall l | j <= l < e :: s[l] != '/'
    requires e < |s| ==> s[e] == '/'
    ensures LevelEnd(s, j) == e
    decreases e - j
  {
    if j < e { LevelEndUnique(s, j + 1, e); }
  }

  // ---------------------------------------------------------------- what is left to match

  /** Matching of what is left of filter and topic, inside a level or at its start. */
  predicate Rest(p: Patterns, sub: string, topic: string, i: nat, j: nat)
    requires i <= |sub| && j <= |topic|
  {
    var f := LevelsFrom(sub, i);
    var t := LevelsFrom(topic, j);
    if LevelStart(sub, i) then MatchLevels(p, f, t)
    else f[0] == t[0] && MatchLevels(p, f[1..], t[1..])
  }

  ghost predicate Scannable(sub: string, topic: string, i: nat, j: nat) {
    i <= |sub| && j <= |topic| && Clean(sub, topic)
  }

  ghost predicate Clean(sub: string, topic: string) {
    && (forall l | 0 <= l < |sub| :: WildcardPlaced(sub, l))
    && (forall l | 0 <= l < |topic| :: !Wildcard(topic[l]))
    && NulFree(topic)
  }

  lemma RestAtEnd(p: Patterns, sub: string, topic: string, j: nat)
    requires j < |topic|
    ensures !Rest(p, sub, topic, |sub|, j)
  {
    LevelsAtEnd(sub);
    if topic[j] == '/' {
      LevelsAtSlash(topic, j);
      assert !MatchLevels(p, [], LevelsFrom(topic, j + 1));
    } else {
      LevelsAtChar(topic, j);
    }
  }

  lemma RestEndEnd(p: Patterns, sub: string, topic: string)
    ensures Rest(p, sub, topic, |sub|, |topic|)
  {
    LevelsAtEnd(sub);
    LevelsAtEnd(topic);
  }

  /** The filter goes on with /# where the topic ends: # matches no further level. */
  lemma RestParent(p: Patterns, sub: string, topic: string, i: nat)
    requires i <= |sub| && sub[i..] == "/#"
    ensures Rest(p, sub, topic, i, |topic|)
  {
    assert sub[i] == '/' && sub[i + 1] == '#' && |sub| == i + 2;
    LevelsAtSlash(sub, i);
    HashOnly(sub, i + 1);
    LevelsAtEnd(topic);
    assert sub[i + 1..] == "#";
  }

  /** A level that starts with an ordinary character and is no pattern matches only itself. */
  lemma LiteralLevel(p: Patterns, sub: string, i: nat, name: string)
    requires i < |sub| && LevelStart(sub, i) && !Wildcard(sub[i]) && !PatternAt(p, sub, i)
    ensures LevelMatches(p, LevelsFrom(sub, i)[0], name) <==> LevelsFrom(sub, i)[0] == name
    ensures LevelsFrom(sub, i) != ["#"]
  {
    var e := LevelEnd(sub, i);
    var level := LevelsFrom(sub, i)[0];
    assert level == sub[i..e];
    if e > i { assert level[0] == sub[i]; }
  }

  /** So at an ordinary character, at the start of a level or inside it, the two levels must agree. */
  lemma RestLiteral(p: Patterns, sub: string, topic: string, i: nat, j: nat)
    requires i < |sub| && j <= |topic| && !Wildcard(sub[i]) && !PatternAt(p, sub, i)
    ensures
      var f, t := LevelsFrom(sub, i), LevelsFrom(topic, j);
      Rest(p, sub, topic, i, j) <==> f[0] == t[0] && MatchLevels(p, f[1..], t[1..])
  {
    if LevelStart(sub, i) { LiteralLevel(p, sub, i, LevelsFrom(topic, j)[0]); }
  }

  /** Equal characters, no pattern and no wildcard: go on one character behind. */
  lemma RestSame(p: Patterns, sub: string, topic: string, i: nat, j: nat)
    requires i < |sub| && j < |topic| && sub[i] == topic[j] && !Wildcard(sub[i])
    requires !PatternAt(p, sub, i)
    ensures Rest(p, sub, topic, i, j) == Rest(p, sub, topic, i + 1, j + 1)
  {
    RestLiteral(p, sub, topic, i, j);
    if sub[i] == '/' {
      LevelsAtSlash(sub, i);
      LevelsAtSlash(topic, j);
    } else {
      LevelsAtChar(sub, i);
      LevelsAtChar(topic, j);
      Prepended(sub[i], LevelsFrom(sub, i + 1)[0], LevelsFrom(topic, j + 1)[0]);
    }
  }

  lemma Prepended(c: char, a: string, b: string)
    ensures [c] + a == [c] + b <==> a == b
  {
    assert ([c] + a)[1..] == a && ([c] + b)[1..] == b;
  }

  /** The first level is empty exactly at a slash and at the end; otherwise it starts with the character there. */
  lemma FirstLevelChar(s: string, j: nat)
    requires j <= |s|
    ensures LevelsFrom(s, j)[0] == "" <==> j == |s| || s[j] == '/'
    ensures j < |s| && s[j] != '/' ==> LevelsFrom(s, j)[0][0] == s[j]
  {
    if j == |s| {
      LevelsAtEnd(s);
    } else if s[j] == '/' {
      LevelsAtSlash(s, j);
    } else {
      LevelsAtChar(s, j);
    }
  }

  /** A filter that goes on with a slash where the topic ends does not match, unless with /#. */
  lemma SlashGoesOn(p: Patterns, sub: string, topic: string, i: nat)
    requires i < |sub| && sub[i] == '/' && !PatternAt(p, sub, i) && sub[i..] != "/#"
    ensures !Rest(p, sub, topic, i, |topic|)
  {
    RestLiteral(p, sub, topic, i, |topic|);
    LevelsAtEnd(topic);
    LevelsAtSlash(sub, i);
    HashOnly(sub, i + 1);
    assert sub[i..] == [sub[i]] + sub[i + 1..];
    assert !MatchLevels(p, LevelsFrom(sub, i + 1), []);
  }

  /** Different characters and no wildcard: no match, unless the filter ends in /# here. */
  lemma RestDiffers(p: Patterns, sub: string, topic: string, i: nat, j: nat)
    requires i < |sub| && j <= |topic| && (j == |topic| || sub[i] != topic[j])
    requires !Wildcard(sub[i]) && !PatternAt(p, sub, i)
    requires !(j == |topic| && sub[i..] == "/#")
    ensures !Rest(p, sub, topic, i, j)
  {
    if j == |topic| && sub[i] == '/' {
      SlashGoesOn(p, sub, topic, i);
    } else {
      RestLiteral(p, sub, topic, i, j);
      FirstLevelChar(sub, i);
      FirstLevelChar(topic, j);
    }
  }

  lemma HashOnly(s: string, i: nat)
    requires i <= |s|
    ensures LevelsFrom(s, i) == ["#"] <==> s[i..] == "#"
  {
    if LevelsFrom(s, i) == ["#"] {
      assert s[i..LevelEnd(s, i)] == LevelsFrom(s, i)[0] == "#";
      assert s[i..|s|] == s[i..];
    }
    if s[i..] == "#" {
      assert s[i] == '#' && i + 1 == |s|;
      LevelEndUnique(s, i, |s|);
      assert s[i..|s|] == "#";
    }
  }

  /** A + level takes the topic level whatever it is. */
  lemma RestPlus(p: Patterns, sub: string, topic: string, i: nat, j: nat)
    requires Scannable(sub, topic, i, j) && i < |sub| && sub[i] == '+'
    ensures Rest(p, sub, topic, i, j) == Rest(p, sub, topic, i + 1, LevelEnd(topic, j))
  {
    assert WildcardPlaced(sub, i);
    var f, t := LevelsFrom(sub, i), LevelsFrom(topic, j);
    LevelsAtChar(sub, i);
    LevelsAtLevelEnd(topic, j);
    if i + 1 < |sub| { LevelsAtSlash(sub, i + 1); } else { LevelsAtEnd(sub); }
    var f1, t1 := LevelsFrom(sub, i + 1), LevelsFrom(topic, LevelEnd(topic, j));
    assert f[0] == "+" && f1[0] == "" && t1[0] == "";
    assert t1[1..] == t[1..];
  }

  lemma RestHash(p: Patterns, sub: string, topic: string, i: nat, j: nat)
    requires Scannable(sub, topic, i, j) && i < |sub| && sub[i] == '#'
    ensures i + 1 == |sub| && Rest(p, sub, topic, i, j)
  {
    assert WildcardPlaced(sub, i);
    assert sub[i..] == "#";
    HashOnly(sub, i);
  }

  /** The substituted id of the pattern at i. */
  function IdAt(p: Patterns, sub: string, i: nat): string
    requires i <= |sub| && PatternAt(p, sub, i)
  {
    if sub[i + 1] == 'c' then p.clientid else p.username
  }

  lemma PatternEnd(p: Patterns, sub: string, i: nat)
    requires i <= |sub| && PatternAt(p, sub, i)
    ensures i + 2 <= |sub| && LevelEnd(sub, i) == i + 2 && LevelEnd(sub, i + 2) == i + 2
    ensures sub[i..i + 2] == [sub[i], sub[i + 1]]
  {
    assert LevelEnd(sub, i + 1) == LevelEnd(sub, i + 2);
  }

  lemma PatternLevel(p: Patterns, sub: string, i: nat)
    requires i <= |sub| && PatternAt(p, sub, i)
    ensures LevelsFrom(sub, i)[0] == [sub[i], sub[i + 1]]
    ensures LevelsFrom(sub, i + 2) == [""] + LevelsFrom(sub, i)[1..]
  {
    PatternEnd(p, sub, i);
    LevelsAre(sub, i, [sub[i], sub[i + 1]], Behind(sub, i + 2));
    LevelsAre(sub, i + 2, "", Behind(sub, i + 2));
  }

  /** A pattern whose id is not the beginning of the topic level does not match. */
  lemma RestPatternFails(p: Patterns, sub: string, topic: string, i: nat, j: nat)
    requires j <= |topic| && i < |sub| && PatternAt(p, sub, i)
    requires var id := IdAt(p, sub, i); id == "" || '/' in id || !PrefixAt(topic, j, id)
    ensures !Rest(p, sub, topic, i, j)
  {
    PatternLevel(p, sub, i);
    LevelsUnfold(topic, j);
    LevelHasNoSlash(topic, j);
    var f, t := LevelsFrom(sub, i), LevelsFrom(topic, j);
    var id := IdAt(p, sub, i);
    PatternName(p, sub, i, f[0]);
    if id == t[0] { LevelIsPrefix(topic, j, LevelEnd(topic, j), id); }
    PatternRefuses(p, f, t, id);
  }

  lemma LevelIsPrefix(topic: string, j: nat, e: nat, id: string)
    requires j <= e <= |topic| && id == topic[j..e]
    ensures PrefixAt(topic, j, id)
  {
    assert e == j + |id|;
  }

  /** A level that is a pattern does not match without an id, or with another one. */
  lemma PatternRefuses(p: Patterns, f: seq<string>, t: seq<string>, id: string)
    requires p.Patterns? && f != [] && t != [] && (id == "" || id != t[0])
    requires (f[0] == "%c" && id == p.clientid) || (f[0] == "%u" && id == p.username)
    ensures !MatchLevels(p, f, t)
  {
    assert f != ["#"];
    assert "%c" != "%u" && "%c"[1] == 'c' && "%u"[1] == 'u';
  }

  lemma LevelEndBehind(topic: string, j: nat, id: string)
    requires j <= |topic| && '/' !in id && PrefixAt(topic, j, id)
    ensures LevelEnd(topic, j) == LevelEnd(topic, j + |id|)
  {
    var k := j + |id|;
    var e := LevelEnd(topic, k);
    forall l | j <= l < e
      ensures topic[l] != '/'
    {
      if l < k { assert topic[l] == topic[j..k][l - j] == id[l - j]; } else { LevelEndIsFirst(topic, k, l); }
    }
    LevelEndUnique(topic, j, e);
  }

  lemma LevelBehind(topic: string, j: nat, id: string)
    requires j <= |topic| && '/' !in id && PrefixAt(topic, j, id)
    ensures LevelsFrom(topic, j)[0] == id + LevelsFrom(topic, j + |id|)[0]
    ensures LevelsFrom(topic, j)[1..] == LevelsFrom(topic, j + |id|)[1..]
  {
    var k := j + |id|;
    var e := LevelEnd(topic, k);
    LevelEndBehind(topic, j, id);
    LevelsUnfold(topic, j);
    LevelsUnfold(topic, k);
    assert topic[j..e] == topic[j..k] + topic[k..e];
  }

  /** A pattern whose id begins the topic level: go on behind both. */
  lemma RestPattern(p: Patterns, sub: string, topic: string, i: nat, j: nat, k: nat, id: string)
    requires i < |sub| && PatternAt(p, sub, i) && id == IdAt(p, sub, i) != "" && j <= k <= |topic|
    requires LevelsFrom(topic, j)[0] == id + LevelsFrom(topic, k)[0]
    requires LevelsFrom(topic, j)[1..] == LevelsFrom(topic, k)[1..]
    ensures Rest(p, sub, topic, i, j) == Rest(p, sub, topic, i + 2, k)
  {
    PatternLevel(p, sub, i);
    var f, t := LevelsFrom(sub, i), LevelsFrom(topic, j);
    var f2, t2 := LevelsFrom(sub, i + 2), LevelsFrom(topic, k);
    PatternName(p, sub, i, f[0]);
    PatternMatches(p, f, t, id, t2[0]);
    assert Rest(p, sub, topic, i + 2, k) == (f2[0] == t2[0] && MatchLevels(p, f2[1..], t2[1..]));
    assert f2[0] == "" && f2[1..] == f[1..];
  }

  lemma PatternName(p: Patterns, sub: string, i: nat, level: string)
    requires i <= |sub| && PatternAt(p, sub, i) && level == [sub[i], sub[i + 1]]
    ensures (level == "%c" && IdAt(p, sub, i) == p.clientid) || (level == "%u" && IdAt(p, sub, i) == p.username)
  {
  }

  /** A level that is a pattern matches its id alone. */
  lemma PatternMatches(p: Patterns, f: seq<string>, t: seq<string>, id: string, more: string)
    requires p.Patterns? && f != [] && t != [] && t[0] == id + more && id != ""
    requires (f[0] == "%c" && id == p.clientid) || (f[0] == "%u" && id == p.username)
    ensures MatchLevels(p, f, t) <==> more == "" && MatchLevels(p, f[1..], t[1..])
  {
    assert f != ["#"];
    assert "%c" != "%u" && "%c"[1] == 'c' && "%u"[1] == 'u';
    assert LevelMatches(p, f[0], t[0]) <==> more == "";
  }

  // ---------------------------------------------------------------- the scan

  /** The shortcut for /# at the end of the topic has been taken where it applies. */
  ghost predicate ParentChecked(sub: string, topic: string, i: nat, j: nat)
    requires i <= |sub|
  {
    j == |topic| && sub[i..] == "/#" ==> i > 0 && sub[i - 1] == '+'
  }

  lemma NoBadHash(sub: string, i: nat)
    requires forall l | 0 <= l < |sub| :: WildcardPlaced(sub, l)
    ensures !BadHash(sub, i)
  {
    forall l | i <= l < |sub| - 1
      ensures sub[l] != '#'
    {
      assert WildcardPlaced(sub, l);
    }
  }

  lemma {:induction false} ScanIsRest(p: Patterns, sub: string, topic: string, i: nat, j: nat)
    requires Scannable(sub, topic, i, j) && ParentChecked(sub, topic, i, j)
    requires i == |sub| ==> j < |topic|
    ensures Scan(p, sub, topic, i, j) == Result(Rest(p, sub, topic, i, j))
    decreases |sub| - i, 3
  {
    if i == |sub| {
      RestAtEnd(p, sub, topic, j);
    } else if PatternAt(p, sub, i) {
      ScanPattern(p, sub, topic, i, j);
      PatternIsRest(p, sub, topic, i, j, IdAt(p, sub, i));
    } else {
      CompareIsRest(p, sub, topic, i, j);
    }
  }

  /** What the scan does at a pattern with this id. */
  function AtPattern(p: Patterns, sub: string, topic: string, i: nat, j: nat, id: string): Outcome
    requires i + 2 <= |sub| && j <= |topic|
  {
    if !Taken(topic, j, id) then Result(false) else BehindTaken(p, sub, topic, i + 2, j + |id|)
  }

  /** And behind it. */
  function BehindTaken(p: Patterns, sub: string, topic: string, i: nat, k: nat): Outcome
    requires i <= |sub| && k <= |topic|
  {
    if k == |topic| && (i == |sub| || sub[i..] == "/#") then Result(true) else Compare(p, sub, topic, i, k)
  }

  lemma ScanPattern(p: Patterns, sub: string, topic: string, i: nat, j: nat)
    requires Scannable(sub, topic, i, j) && i < |sub| && PatternAt(p, sub, i)
    ensures i + 2 <= |sub| && Scan(p, sub, topic, i, j) == AtPattern(p, sub, topic, i, j, IdAt(p, sub, i))
  {
  }

  /** The topic level at j begins with the id. */
  predicate Taken(topic: string, j: nat, id: string)
    requires j <= |topic|
  {
    id != "" && '/' !in id && PrefixAt(topic, j, id)
  }

  lemma PatternTaken(p: Patterns, sub: string, topic: string, i: nat, j: nat, id: string)
    requires i < |sub| && PatternAt(p, sub, i) && id == IdAt(p, sub, i) && j <= |topic| && Taken(topic, j, id)
    ensures Rest(p, sub, topic, i, j) == Rest(p, sub, topic, i + 2, j + |id|)
  {
    LevelBehind(topic, j, id);
    RestPattern(p, sub, topic, i, j, j + |id|, id);
  }

  lemma {:induction false} PatternIsRest(p: Patterns, sub: string, topic: string, i: nat, j: nat, id: string)
    requires Scannable(sub, topic, i, j) && i < |sub| && PatternAt(p, sub, i) && id == IdAt(p, sub, i)
    ensures AtPattern(p, sub, topic, i, j, id) == Result(Rest(p, sub, topic, i, j))
    decreases |sub| - i, 2
  {
    if Taken(topic, j, id) {
      AtTaken(p, sub, topic, i, j, id);
      BehindPattern(p, sub, topic, i, j + |id|);
      PatternTaken(p, sub, topic, i, j, id);
    } else {
      RestPatternFails(p, sub, topic, i, j);
    }
  }

  lemma AtTaken(p: Patterns, sub: string, topic: string, i: nat, j: nat, id: string)
    requires i + 2 <= |sub| && j <= |topic| && Taken(topic, j, id)
    ensures j + |id| <= |topic| && AtPattern(p, sub, topic, i, j, id) == BehindTaken(p, sub, topic, i + 2, j + |id|)
  {
  }

  /** The scan behind a pattern. */
  lemma {:induction false} BehindPattern(p: Patterns, sub: string, topic: string, i: nat, k: nat)
    requires Scannable(sub, topic, i + 2, k) && i < |sub| && PatternAt(p, sub, i)
    ensures BehindTaken(p, sub, topic, i + 2, k) == Result(Rest(p, sub, topic, i + 2, k))
    decreases |sub| - i, 1
  {
    if k == |topic| && i + 2 == |sub| {
      RestEndEnd(p, sub, topic);
    } else if k == |topic| && sub[i + 2..] == "/#" {
      RestParent(p, sub, topic, i + 2);
    } else {
      CompareIsRest(p, sub, topic, i + 2, k);
    }
  }

  lemma {:induction false} CompareIsRest(p: Patterns, sub: string, topic: string, i: nat, j: nat)
    requires Scannable(sub, topic, i, j) && ParentChecked(sub, topic, i, j)
    requires i == |sub| ==> j < |topic|
    requires !PatternAt(p, sub, i)
    ensures Compare(p, sub, topic, i, j) == Result(Rest(p, sub, topic, i, j))
    decreases |sub| - i, 1
  {
    if i == |sub| {
      NoBadHash(sub, i);
      RestAtEnd(p, sub, topic, j);
    } else if sub[i] == '+' {
      PlusIsRest(p, sub, topic, i, j);
    } else if sub[i] == '#' {
      CompareHash(p, sub, topic, i, j);
      RestHash(p, sub, topic, i, j);
    } else if j == |topic| || sub[i] != topic[j] {
      CompareDiffers(p, sub, topic, i, j);
    } else {
      CompareSame(p, sub, topic, i, j);
    }
  }

  /** The scan stops at a #. */
  lemma CompareHash(p: Patterns, sub: string, topic: string, i: nat, j: nat)
    requires Scannable(sub, topic, i, j) && i < |sub| && sub[i] == '#'
    ensures Compare(p, sub, topic, i, j) == Result(true)
  {
    assert WildcardPlaced(sub, i);
  }

  /** The scan takes the topic level at a +. */
  lemma ComparePlus(p: Patterns, sub: string, topic: string, i: nat, j: nat)
    requires Scannable(sub, topic, i, j) && i < |sub| && sub[i] == '+'
    ensures
      var e := LevelEnd(topic, j);
      Compare(p, sub, topic, i, j)
      == if e == |topic| && i + 1 == |sub| then Result(true) else Scan(p, sub, topic, i + 1, e)
  {
    assert WildcardPlaced(sub, i);
  }

  lemma {:induction false} PlusIsRest(p: Patterns, sub: string, topic: string, i: nat, j: nat)
    requires Scannable(sub, topic, i, j) && i < |sub| && sub[i] == '+'
    ensures Compare(p, sub, topic, i, j) == Result(Rest(p, sub, topic, i, j))
    decreases |sub| - i, 0
  {
    var e := LevelEnd(topic, j);
    ComparePlus(p, sub, topic, i, j);
    RestPlus(p, sub, topic, i, j);
    if e == |topic| && i + 1 == |sub| {
      RestEndEnd(p, sub, topic);
    } else {
      ScanIsRest(p, sub, topic, i + 1, e);
    }
  }

  /** The scan stops at characters that differ. */
  lemma CompareStops(p: Patterns, sub: string, topic: string, i: nat, j: nat)
    requires i < |sub| && j <= |topic| && !Wildcard(sub[i]) && (j == |topic| || sub[i] != topic[j]) && !BadHash(sub, i)
    ensures Compare(p, sub, topic, i, j)
      == Result(j == |topic| && i > 0 && sub[i - 1] == '+' && sub[i] == '/' && At(sub, i + 1) == '#')
  {
  }

  lemma CompareDiffers(p: Patterns, sub: string, topic: string, i: nat, j: nat)
    requires Scannable(sub, topic, i, j) && ParentChecked(sub, topic, i, j)
    requires i < |sub| && !Wildcard(sub[i]) && (j == |topic| || sub[i] != topic[j])
    requires !PatternAt(p, sub, i)
    ensures Compare(p, sub, topic, i, j) == Result(Rest(p, sub, topic, i, j))
  {
    NoBadHash(sub, i);
    CompareStops(p, sub, topic, i, j);
    if j == |topic| && i + 1 < |sub| && sub[i] == '/' && sub[i + 1] == '#' {
      assert WildcardPlaced(sub, i + 1);
      assert sub[i..] == "/#";
      RestParent(p, sub, topic, i);
    } else {
      assert sub[i..] == "/#" ==> sub[i + 1] == sub[i..][1] == '#';
      RestDiffers(p, sub, topic, i, j);
    }
  }

  /** The characters agree, and the scan stops there or goes on behind them. */
  lemma CompareEqual(p: Patterns, sub: string, topic: string, i: nat, j: nat)
    requires i < |sub| && j < |topic| && sub[i] == topic[j]
    ensures Compare(p, sub, topic, i, j)
      == if j + 1 == |topic| && (sub[i + 1..] == "/#" || i + 1 == |sub|) then Result(true)
         else if j + 1 == |topic| && sub[i + 1..] == "+" then if sub[i] != '/' then Inval else Result(true)
         else Scan(p, sub, topic, i + 1, j + 1)
  {
  }

  lemma {:induction false} CompareSame(p: Patterns, sub: string, topic: string, i: nat, j: nat)
    requires Scannable(sub, topic, i, j)
    requires i < |sub| && j < |topic| && sub[i] == topic[j] && !PatternAt(p, sub, i)
    ensures Compare(p, sub, topic, i, j) == Result(Rest(p, sub, topic, i, j))
    decreases |sub| - i, 0
  {
    RestSame(p, sub, topic, i, j);
    CompareEqual(p, sub, topic, i, j);
    if j + 1 == |topic| {
      if sub[i + 1..] == "/#" {
        RestParent(p, sub, topic, i + 1);
        return;
      }
      if i + 1 == |sub| {
        RestEndEnd(p, sub, topic);
        return;
      }
      if sub[i + 1..] == "+" {
        PlusLast(p, sub, topic, i);
        return;
      }
    }
    ScanIsRest(p, sub, topic, i + 1, j + 1);
  }

  /** A last + against the empty level at the end of the topic. */
  lemma PlusLast(p: Patterns, sub: string, topic: string, i: nat)
    requires Scannable(sub, topic, i + 1, |topic|) && sub[i + 1..] == "+"
    ensures sub[i] == '/' && Rest(p, sub, topic, i + 1, |topic|)
  {
    assert sub[i + 1] == sub[i + 1..][0] == '+' && WildcardPlaced(sub, i + 1);
    RestPlus(p, sub, topic, i + 1, |topic|);
    RestEndEnd(p, sub, topic);
  }

  lemma ScanIsMatches(p: Patterns, sub: string, topic: string)
    requires sub != "" && topic != "" && Scannable(sub, topic, 0, 0)
    ensures ScanMatch(p, sub, topic) == Result(Matches(p, sub, topic))
  {
    if (sub[0] == '$') == (topic[0] == '$') {
      ScanIsRest(p, sub, topic, 0, 0);
    }
  }

  /**
   For every accepted filter and every accepted topic the scan succeeds, and its result is the
   level by level definition: + one level, a last # any number of levels and also the parent,
   %c and %u where patterns are on, and topics beginning with $ apart.
   */
  lemma ScanDecidesMatching(p: Patterns, sub: string, topic: string)
    requires ValidFilter(sub) && ValidTopic(topic) && NulFree(topic)
    ensures ScanMatch(p, sub, topic) == Result(Matches(p, sub, topic))
  {
    ScanIsMatches(p, sub, topic);
  }
}
