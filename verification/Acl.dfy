/**
 Checking a subscription filter against an access control filter, with or without the patterns for
 client id and user name.  The character scan decides a level by level relation between filters, and
 that relation is containment of the sets of matched topics, up to three pairs of filters.
 */
module Acl {
  import opened Topic
  import opened TopicLaws
  import opened TopicScan

  // ---------------------------------------------------------------- the scan

  /** An id that may stand for a level. */
  predicate Usable(id: string) { id != "" && id != "+" && id != "#" && id != "/" }

  /** One turn of the loop of sub_matches_acl at ACL position i and subscription position j. */
  function ScanAcl(p: Patterns, acl: string, sub: string, i: nat, j: nat): Outcome
    requires i <= |acl| && j <= |sub|
    decreases |acl| - i, 1
  {
    if i == |acl| then Result(j == |sub|)
    else if PatternAt(p, acl, i) then
      var id := if acl[i + 1] == 'c' then p.clientid else p.username;
      if !Usable(id) || '/' in id || !PrefixAt(sub, j, id) then Result(false)
      else if j + |id| == |sub| && (i + 2 == |acl| || acl[i + 2..] == "/#") then Result(true)
      else CompareAcl(p, acl, sub, i + 2, j + |id|)
    else CompareAcl(p, acl, sub, i, j)
  }

  function CompareAcl(p: Patterns, acl: string, sub: string, i: nat, j: nat): Outcome
    requires i <= |acl| && j <= |sub|
    decreases |acl| - i, 0
  {
    if At(acl, i) != At(sub, j) || j == |sub| then
      if At(acl, i) == '+' then
        if At(sub, j) == '#' then Result(false)
        else if !LevelStart(acl, i) || (i + 1 < |acl| && acl[i + 1] != '/') then Inval
        else
          var e := LevelEnd(sub, j);
          if e == |sub| && i + 1 == |acl| then Result(true) else ScanAcl(p, acl, sub, i + 1, e)
      else if At(acl, i) == '#' then
        if !LevelStart(acl, i) || i + 1 < |acl| then Inval else Result(true)
      else if j == |sub| && i > 0 && acl[i - 1] == '+' && At(acl, i) == '/' && At(acl, i + 1) == '#' then
        Result(true)
      else if BadHash(acl, i) then Inval
      else Result(false)
    else if i == |acl| then Result(false)
    else if j + 1 == |sub| && acl[i + 1..] == "/#" then Result(true)
    else if i + 1 == |acl| && j + 1 == |sub| then Result(true)
    else if j + 1 == |sub| && acl[i + 1..] == "+" then
      if acl[i] != '/' then Inval else Result(true)
    else ScanAcl(p, acl, sub, i + 1, j + 1)
  }

  function ScanAclMatch(p: Patterns, acl: string, sub: string): Outcome {
    if acl == "" || sub == "" then Inval
    else if (acl[0] == '$') != (sub[0] == '$') then Result(false)
    else ScanAcl(p, acl, sub, 0, 0)
  }

  /** A %c or %u in the access control filter. */
  method CheckPattern(p: Patterns, acl: string, sub: string, start: nat, at: nat) returns (r: Turn)
    requires NulFree(acl) && NulFree(sub) && start < |acl| && at <= |sub| && PatternAt(p, acl, start)
    requires NulFree(p.clientid) && NulFree(p.username)
    ensures r.Stop? ==> ScanAcl(p, acl, sub, start, at) == r.outcome
    ensures r.Go? ==> start < r.spos <= |acl| && r.tpos <= |sub|
    ensures r.Go? ==> ScanAcl(p, acl, sub, start, at) == CompareAcl(p, acl, sub, r.spos, r.tpos)
  {
    var id := if acl[start + 1] == 'c' then p.clientid else p.username;
    if id == "" {
      return Stop(Result(false));
    }
    if |id| == 1 && (id[0] == '+' || id[0] == '#' || id[0] == '/') {
      return Stop(Result(false));
    }
    var ok := MatchId(id, sub, at);
    if !ok {
      return Stop(Result(false));
    }
    var apos, spos := start + 2, at + |id|;
    TwoLeft(acl, apos, '/', '#');
    if At(sub, spos) == '\0'
       && (At(acl, apos) == '\0'
           || (At(acl, apos) == '/' && At(acl, apos + 1) == '#' && At(acl, apos + 2) == '\0'))
    {
      return Stop(Result(true));
    }
    return Go(apos, spos);
  }

  /** The two characters differ, or the subscription is at its end. */
  method CheckDifferent(p: Patterns, acl: string, sub: string, start: nat, at: nat) returns (r: Turn)
    requires NulFree(acl) && NulFree(sub) && start <= |acl| && at <= |sub|
    requires At(acl, start) != At(sub, at) || at == |sub|
    ensures r.Stop? ==> CompareAcl(p, acl, sub, start, at) == r.outcome
    ensures r.Go? ==> start < r.spos <= |acl| && r.tpos <= |sub|
    ensures r.Go? ==> CompareAcl(p, acl, sub, start, at) == ScanAcl(p, acl, sub, r.spos, r.tpos)
  {
    if At(acl, start) == '+' {
      if At(sub, at) == '#' {
        return Stop(Result(false));
      }
      if start > 0 && acl[start - 1] != '/' {
        return Stop(Inval);
      }
      if At(acl, start + 1) != '\0' && At(acl, start + 1) != '/' {
        return Stop(Inval);
      }
      var spos := at;
      while At(sub, spos) != '\0' && At(sub, spos) != '/'
        invariant at <= spos <= LevelEnd(sub, at) == LevelEnd(sub, spos)
        decreases |sub| - spos
      {
        spos := spos + 1;
      }
      if At(sub, spos) == '\0' && At(acl, start + 1) == '\0' {
        return Stop(Result(true));
      }
      return Go(start + 1, spos);
    } else if At(acl, start) == '#' {
      if start > 0 && acl[start - 1] != '/' {
        return Stop(Inval);
      }
      return Stop(if At(acl, start + 1) != '\0' then Inval else Result(true));
    } else {
      if At(sub, at) == '\0' && start > 0 && acl[start - 1] == '+'
         && At(acl, start) == '/' && At(acl, start + 1) == '#'
      {
        return Stop(Result(true));
      }
      var bad := FindBadHash(acl, start);
      return Stop(if bad then Inval else Result(false));
    }
  }

  /** The two characters are the same. */
  method CheckSame(p: Patterns, acl: string, sub: string, start: nat, at: nat) returns (r: Turn)
    requires NulFree(acl) && NulFree(sub) && start < |acl| && at < |sub| && acl[start] == sub[at]
    ensures r.Stop? ==> CompareAcl(p, acl, sub, start, at) == r.outcome
    ensures r.Go? ==> start < r.spos <= |acl| && r.tpos <= |sub|
    ensures r.Go? ==> CompareAcl(p, acl, sub, start, at) == ScanAcl(p, acl, sub, r.spos, r.tpos)
  {
    TwoLeft(acl, start + 1, '/', '#');
    OneLeft(acl, start + 1, '+');
    if At(sub, at + 1) == '\0' {
      if At(acl, start + 1) == '/' && At(acl, start + 2) == '#' && At(acl, start + 3) == '\0' {
        return Stop(Result(true));
      }
    }
    var apos, spos := start + 1, at + 1;
    if At(acl, apos) == '\0' && At(sub, spos) == '\0' {
      return Stop(Result(true));
    } else if At(sub, spos) == '\0' && At(acl, apos) == '+' && At(acl, apos + 1) == '\0' {
      if apos > 0 && acl[apos - 1] != '/' {
        return Stop(Inval);
      }
      return Stop(Result(true));
    }
    return Go(apos, spos);
  }

  /** sub_matches_acl on NUL terminated strings. */
  method SubMatchesAcl(p: Patterns, acl: string, sub: string) returns (o: Outcome)
    requires NulFree(acl) && NulFree(sub)
    requires p.Patterns? ==> NulFree(p.clientid) && NulFree(p.username)
    ensures o == ScanAclMatch(p, acl, sub)
  {
    if acl == "" || sub == "" {
      return Inval;
    }
    if (acl[0] == '$' && sub[0] != '$') || (sub[0] == '$' && acl[0] != '$') {
      return Result(false);
    }
    var apos: nat, spos: nat := 0, 0;
    while At(acl, apos) != '\0'
      invariant apos <= |acl| && spos <= |sub|
      invariant ScanAcl(p, acl, sub, apos, spos) == ScanAclMatch(p, acl, sub)
      decreases |acl| - apos
    {
      var r := Go(apos, spos);
      if p.Patterns?
         && (apos == 0 || acl[apos - 1] == '/')
         && acl[apos] == '%'
         && (At(acl, apos + 1) == 'c' || At(acl, apos + 1) == 'u')
         && (At(acl, apos + 2) == '/' || At(acl, apos + 2) == '\0')
      {
        r := CheckPattern(p, acl, sub, apos, spos);
      }
      if r.Stop? {
        return r.outcome;
      }
      apos, spos := r.spos, r.tpos;
      assert CompareAcl(p, acl, sub, apos, spos) == ScanAclMatch(p, acl, sub);
      if At(acl, apos) != At(sub, spos) || At(sub, spos) == '\0' {
        r := CheckDifferent(p, acl, sub, apos, spos);
      } else {
        r := CheckSame(p, acl, sub, apos, spos);
      }
      if r.Stop? {
        return r.outcome;
      }
      apos, spos := r.spos, r.tpos;
    }
    return Result(At(sub, spos) == '\0');
  }

  // ---------------------------------------------------------------- level by level

  function IdOf(p: Patterns, level: string): string
    requires IsPattern(p, level)
  {
    if level == "%c" then p.clientid else p.username
  }

  predicate LevelCovers(p: Patterns, a: string, s: string) {
    if IsPattern(p, a) then Usable(IdOf(p, a)) && s == IdOf(p, a)
    else if a == "+" then s != "#"
    else a == s
  }

  predicate Covers(p: Patterns, a: seq<string>, s: seq<string>) {
    if a == [] then s == []
    else if a == ["#"] then true
    else s != [] && LevelCovers(p, a[0], s[0]) && Covers(p, a[1..], s[1..])
  }

  predicate FilterCovers(p: Patterns, acl: string, sub: string)
    requires acl != "" && sub != ""
  {
    (acl[0] == '$' <==> sub[0] == '$') && Covers(p, Levels(acl), Levels(sub))
  }

  // ---------------------------------------------------------------- the scan decides it

  predicate Placed(s: string) { forall l | 0 <= l < |s| :: WildcardPlaced(s, l) }

  predicate Left(p: Patterns, acl: string, sub: string, i: nat, j: nat)
    requires i <= |acl| && j <= |sub|
  {
    var a := LevelsFrom(acl, i);
    var s := LevelsFrom(sub, j);
    if LevelStart(acl, i) then Covers(p, a, s) else a[0] == s[0] && Covers(p, a[1..], s[1..])
  }

  lemma LeftAtEnd(p: Patterns, acl: string, sub: string, j: nat)
    requires j < |sub|
    ensures !Left(p, acl, sub, |acl|, j)
  {
    LevelsAtEnd(acl);
    if sub[j] == '/' {
      LevelsAtSlash(sub, j);
      assert !Covers(p, [], LevelsFrom(sub, j + 1));
    } else {
      LevelsAtChar(sub, j);
    }
  }

  lemma LeftEndEnd(p: Patterns, acl: string, sub: string)
    ensures Left(p, acl, sub, |acl|, |sub|)
  {
    LevelsAtEnd(acl);
    LevelsAtEnd(sub);
  }

  lemma LeftParent(p: Patterns, acl: string, sub: string, i: nat)
    requires i <= |acl| && acl[i..] == "/#"
    ensures Left(p, acl, sub, i, |sub|)
  {
    assert acl[i] == '/' && |acl| == i + 2;
    LevelsAtSlash(acl, i);
    HashOnly(acl, i + 1);
    LevelsAtEnd(sub);
    assert acl[i + 1..] == "#";
  }

  lemma PlusCovers(p: Patterns, a: seq<string>, s: seq<string>)
    requires a != [] && s != [] && a[0] == "+" && s[0] != "#"
    ensures Covers(p, a, s) == Covers(p, a[1..], s[1..])
  {
    assert a[0] != "#";
  }

  lemma FirstNotHash(s: string, j: nat)
    requires j <= |s| && At(s, j) != '#'
    ensures LevelsFrom(s, j)[0] != "#"
  {
    var e := LevelEnd(s, j);
    assert LevelsFrom(s, j)[0] == s[j..e];
    if e > j {
      assert s[j..e][0] == s[j];
    }
  }

  /** A + is a level of its own. */
  lemma PlusLevel(acl: string, i: nat)
    requires Placed(acl) && i < |acl| && acl[i] == '+'
    ensures LevelStart(acl, i) && !LevelStart(acl, i + 1)
    ensures LevelsFrom(acl, i)[0] == "+" && LevelsFrom(acl, i + 1) == [""] + LevelsFrom(acl, i)[1..]
  {
    assert WildcardPlaced(acl, i);
    LevelsAtChar(acl, i);
    if i + 1 < |acl| { LevelsAtSlash(acl, i + 1); } else { LevelsAtEnd(acl); }
  }

  lemma PlusEnds(s: string, j: nat)
    requires Placed(s) && j < |s| && s[j] == '+'
    ensures LevelEnd(s, j) == j + 1
  {
    assert WildcardPlaced(s, j);
    LevelEndUnique(s, j, j + 1);
  }

  lemma LeftPlus(p: Patterns, acl: string, sub: string, i: nat, j: nat)
    requires Placed(acl) && Placed(sub) && i < |acl| && j <= |sub| && acl[i] == '+'
    requires At(sub, j) != '#'
    ensures Left(p, acl, sub, i, j) == Left(p, acl, sub, i + 1, LevelEnd(sub, j))
  {
    PlusLevel(acl, i);
    LevelsAtLevelEnd(sub, j);
    FirstNotHash(sub, j);
    PlusCovers(p, LevelsFrom(acl, i), LevelsFrom(sub, j));
  }

  /** A last + covers an empty last level. */
  lemma LeftPlusEnd(p: Patterns, acl: string, sub: string, i: nat)
    requires Placed(acl) && Placed(sub) && 0 < i <= |acl| && acl[i..] == "+"
    ensures Left(p, acl, sub, i, |sub|) && acl[i - 1] == '/'
  {
    assert acl[i] == '+' && i + 1 == |acl|;
    assert WildcardPlaced(acl, i);
    LeftPlus(p, acl, sub, i, |sub|);
    LeftEndEnd(p, acl, sub);
  }

  /** + does not cover #. */
  lemma LeftPlusHash(p: Patterns, acl: string, sub: string, i: nat, j: nat)
    requires Placed(acl) && Placed(sub) && i < |acl| && j < |sub| && acl[i] == '+' && sub[j] == '#'
    ensures !Left(p, acl, sub, i, j)
  {
    PlusLevel(acl, i);
    assert WildcardPlaced(sub, j);
    assert sub[j..] == "#";
    HashOnly(sub, j);
    assert LevelsFrom(acl, i)[0] == "+";
  }

  lemma LeftHash(p: Patterns, acl: string, sub: string, i: nat, j: nat)
    requires Placed(acl) && i < |acl| && j <= |sub| && acl[i] == '#'
    ensures i + 1 == |acl| && Left(p, acl, sub, i, j)
  {
    assert WildcardPlaced(acl, i);
    assert acl[i..] == "#";
    HashOnly(acl, i);
  }

  /** A level that starts with an ordinary character and is no pattern covers only itself. */
  lemma LiteralCovers(p: Patterns, acl: string, i: nat, level: string)
    requires i < |acl| && LevelStart(acl, i) && !Wildcard(acl[i]) && !PatternAt(p, acl, i)
    ensures LevelCovers(p, LevelsFrom(acl, i)[0], level) <==> LevelsFrom(acl, i)[0] == level
    ensures LevelsFrom(acl, i) != ["#"]
  {
    LiteralLevel(p, acl, i, "+");
    LiteralLevel(p, acl, i, IdIfAny(p, LevelsFrom(acl, i)[0]));
    FirstLevelChar(acl, i);
  }

  function IdIfAny(p: Patterns, level: string): string { if IsPattern(p, level) then IdOf(p, level) else "" }

  /** So at an ordinary character the two levels must agree. */
  lemma LeftLiteral(p: Patterns, acl: string, sub: string, i: nat, j: nat)
    requires i < |acl| && j <= |sub| && !Wildcard(acl[i]) && !PatternAt(p, acl, i)
    ensures
      var a, s := LevelsFrom(acl, i), LevelsFrom(sub, j);
      Left(p, acl, sub, i, j) <==> a[0] == s[0] && Covers(p, a[1..], s[1..])
  {
    if LevelStart(acl, i) { LiteralCovers(p, acl, i, LevelsFrom(sub, j)[0]); }
  }

  /** The same wildcard in both. */
  lemma LeftWildcard(p: Patterns, acl: string, sub: string, i: nat, j: nat)
    requires Placed(acl) && Placed(sub) && i < |acl| && j < |sub| && acl[i] == sub[j] && Wildcard(acl[i])
    ensures Left(p, acl, sub, i, j) == Left(p, acl, sub, i + 1, j + 1)
  {
    if acl[i] == '#' {
      LeftHash(p, acl, sub, i, j);
      assert WildcardPlaced(sub, j);
      LeftEndEnd(p, acl, sub);
    } else {
      PlusEnds(sub, j);
      LeftPlus(p, acl, sub, i, j);
    }
  }

  lemma LeftSame(p: Patterns, acl: string, sub: string, i: nat, j: nat)
    requires Placed(acl) && Placed(sub) && i < |acl| && j < |sub| && acl[i] == sub[j] && !PatternAt(p, acl, i)
    ensures Left(p, acl, sub, i, j) == Left(p, acl, sub, i + 1, j + 1)
  {
    if Wildcard(acl[i]) {
      LeftWildcard(p, acl, sub, i, j);
    } else {
      LeftLiteral(p, acl, sub, i, j);
      if acl[i] == '/' {
        LevelsAtSlash(acl, i);
        LevelsAtSlash(sub, j);
      } else {
        LevelsAtChar(acl, i);
        LevelsAtChar(sub, j);
        Prepended(acl[i], LevelsFrom(acl, i + 1)[0], LevelsFrom(sub, j + 1)[0]);
      }
    }
  }

  /** A filter that goes on with a slash where the subscription ends does not cover it, unless with /#. */
  lemma LeftSlash(p: Patterns, acl: string, sub: string, i: nat)
    requires i < |acl| && acl[i] == '/' && !PatternAt(p, acl, i) && acl[i..] != "/#"
    ensures !Left(p, acl, sub, i, |sub|)
  {
    LeftLiteral(p, acl, sub, i, |sub|);
    LevelsAtEnd(sub);
    LevelsAtSlash(acl, i);
    HashOnly(acl, i + 1);
    assert acl[i..] == [acl[i]] + acl[i + 1..];
    assert !Covers(p, LevelsFrom(acl, i + 1), []);
  }

  lemma LeftDiffers(p: Patterns, acl: string, sub: string, i: nat, j: nat)
    requires i < |acl| && j <= |sub| && !PatternAt(p, acl, i)
    requires !Wildcard(acl[i]) && (j == |sub| || acl[i] != sub[j])
    requires !(j == |sub| && acl[i..] == "/#")
    ensures !Left(p, acl, sub, i, j)
  {
    if j == |sub| && acl[i] == '/' {
      LeftSlash(p, acl, sub, i);
    } else {
      LeftLiteral(p, acl, sub, i, j);
      FirstLevelChar(acl, i);
      FirstLevelChar(sub, j);
    }
  }

  // ---------------------------------------------------------------- patterns

  /** The subscription level at j begins with an id that may be used. */
  predicate Granted(sub: string, j: nat, id: string)
    requires j <= |sub|
  {
    Usable(id) && '/' !in id && PrefixAt(sub, j, id)
  }

  lemma PatternIs(p: Patterns, acl: string, i: nat)
    requires i < |acl| && PatternAt(p, acl, i)
    ensures
      var level := LevelsFrom(acl, i)[0];
      IsPattern(p, level) && IdOf(p, level) == IdAt(p, acl, i) && level != "#"
  {
    PatternLevel(p, acl, i);
    PatternName(p, acl, i, LevelsFrom(acl, i)[0]);
    assert "%c" != "%u" && "%c"[1] == 'c' && "%u"[1] == 'u';
  }

  lemma LeftPatternFails(p: Patterns, acl: string, sub: string, i: nat, j: nat, id: string)
    requires i < |acl| && j <= |sub| && PatternAt(p, acl, i) && id == IdAt(p, acl, i) && !Granted(sub, j, id)
    ensures !Left(p, acl, sub, i, j)
  {
    PatternIs(p, acl, i);
    LevelsUnfold(sub, j);
    LevelHasNoSlash(sub, j);
    if id == LevelsFrom(sub, j)[0] { LevelIsPrefix(sub, j, LevelEnd(sub, j), id); }
  }

  lemma LeftPattern(p: Patterns, acl: string, sub: string, i: nat, j: nat, id: string)
    requires i < |acl| && j <= |sub| && PatternAt(p, acl, i) && id == IdAt(p, acl, i) && Granted(sub, j, id)
    ensures i + 2 <= |acl| && Left(p, acl, sub, i, j) == Left(p, acl, sub, i + 2, j + |id|)
  {
    PatternIs(p, acl, i);
    PatternLevel(p, acl, i);
    LevelBehind(sub, j, id);
    GrantedLevel(p, LevelsFrom(acl, i), LevelsFrom(sub, j), id, LevelsFrom(sub, j + |id|)[0]);
    assert LevelsFrom(acl, i + 2)[1..] == LevelsFrom(acl, i)[1..];
  }

  lemma GrantedLevel(p: Patterns, a: seq<string>, s: seq<string>, id: string, more: string)
    requires a != [] && s != [] && IsPattern(p, a[0]) && a[0] != "#" && id == IdOf(p, a[0]) && Usable(id) && s[0] == id + more
    ensures Covers(p, a, s) <==> more == "" && Covers(p, a[1..], s[1..])
  {
    assert id + more == id <==> more == "";
  }

  // ---------------------------------------------------------------- the scan, position by position

  lemma {:induction false} ScanAclIsLeft(p: Patterns, acl: string, sub: string, i: nat, j: nat)
    requires Placed(acl) && Placed(sub) && i <= |acl| && j <= |sub|
    requires ParentChecked(acl, sub, i, j)
    requires i == |acl| ==> j < |sub|
    ensures ScanAcl(p, acl, sub, i, j) == Result(Left(p, acl, sub, i, j))
    decreases |acl| - i, 4
  {
    if i == |acl| {
      LeftAtEnd(p, acl, sub, j);
    } else if PatternAt(p, acl, i) {
      AclPatternIsLeft(p, acl, sub, i, j, IdAt(p, acl, i));
    } else {
      CompareAclIsLeft(p, acl, sub, i, j);
    }
  }

  /** What the scan does at a pattern with this id. */
  lemma AclPattern(p: Patterns, acl: string, sub: string, i: nat, j: nat, id: string)
    requires i < |acl| && j <= |sub| && PatternAt(p, acl, i) && id == IdAt(p, acl, i)
    ensures i + 2 <= |acl|
    ensures ScanAcl(p, acl, sub, i, j)
      == if !Granted(sub, j, id) then Result(false) else BehindGranted(p, acl, sub, i + 2, j + |id|)
  {
  }

  /** And behind it. */
  function BehindGranted(p: Patterns, acl: string, sub: string, i: nat, k: nat): Outcome
    requires i <= |acl| && k <= |sub|
  {
    if k == |sub| && (i == |acl| || acl[i..] == "/#") then Result(true) else CompareAcl(p, acl, sub, i, k)
  }

  lemma {:induction false} AclPatternIsLeft(p: Patterns, acl: string, sub: string, i: nat, j: nat, id: string)
    requires Placed(acl) && Placed(sub) && i < |acl| && j <= |sub|
    requires PatternAt(p, acl, i) && id == IdAt(p, acl, i)
    ensures ScanAcl(p, acl, sub, i, j) == Result(Left(p, acl, sub, i, j))
    decreases |acl| - i, 3
  {
    AclPattern(p, acl, sub, i, j, id);
    if Granted(sub, j, id) {
      LeftPattern(p, acl, sub, i, j, id);
      BehindIsLeft(p, acl, sub, i, j + |id|);
    } else {
      LeftPatternFails(p, acl, sub, i, j, id);
    }
  }

  lemma {:induction false} BehindIsLeft(p: Patterns, acl: string, sub: string, i: nat, k: nat)
    requires Placed(acl) && Placed(sub) && i + 2 <= |acl| && k <= |sub| && PatternAt(p, acl, i)
    ensures BehindGranted(p, acl, sub, i + 2, k) == Result(Left(p, acl, sub, i + 2, k))
    decreases |acl| - i, 2
  {
    if k == |sub| && i + 2 == |acl| {
      LeftEndEnd(p, acl, sub);
    } else if k == |sub| && acl[i + 2..] == "/#" {
      LeftParent(p, acl, sub, i + 2);
    } else {
      CompareAclIsLeft(p, acl, sub, i + 2, k);
    }
  }

  lemma {:induction false} CompareAclIsLeft(p: Patterns, acl: string, sub: string, i: nat, j: nat)
    requires Placed(acl) && Placed(sub) && i <= |acl| && j <= |sub| && !PatternAt(p, acl, i)
    requires ParentChecked(acl, sub, i, j)
    requires i == |acl| ==> j < |sub|
    ensures CompareAcl(p, acl, sub, i, j) == Result(Left(p, acl, sub, i, j))
    decreases |acl| - i, 2
  {
    NoBadHash(acl, i);
    if i == |acl| {
      LeftAtEnd(p, acl, sub, j);
    } else if j < |sub| && acl[i] == sub[j] {
      ScanAclSame(p, acl, sub, i, j);
    } else if acl[i] == '+' {
      ScanAclPlus(p, acl, sub, i, j);
    } else if acl[i] == '#' {
      LeftHash(p, acl, sub, i, j);
      assert WildcardPlaced(acl, i);
    } else {
      AclDiffers(p, acl, sub, i, j);
    }
  }

  /** The scan stops at characters that differ. */
  lemma AclStops(p: Patterns, acl: string, sub: string, i: nat, j: nat)
    requires i < |acl| && j <= |sub| && !Wildcard(acl[i]) && (j == |sub| || acl[i] != sub[j]) && !BadHash(acl, i)
    ensures CompareAcl(p, acl, sub, i, j)
      == Result(j == |sub| && i > 0 && acl[i - 1] == '+' && acl[i] == '/' && At(acl, i + 1) == '#')
  {
  }

  lemma AclDiffers(p: Patterns, acl: string, sub: string, i: nat, j: nat)
    requires Placed(acl) && i < |acl| && j <= |sub| && !PatternAt(p, acl, i)
    requires ParentChecked(acl, sub, i, j) && !Wildcard(acl[i]) && (j == |sub| || acl[i] != sub[j]) && !BadHash(acl, i)
    ensures CompareAcl(p, acl, sub, i, j) == Result(Left(p, acl, sub, i, j))
  {
    AclStops(p, acl, sub, i, j);
    if j == |sub| && i + 1 < |acl| && acl[i] == '/' && acl[i + 1] == '#' {
      assert WildcardPlaced(acl, i + 1);
      assert acl[i..] == "/#";
      LeftParent(p, acl, sub, i);
    } else {
      assert acl[i..] == "/#" ==> acl[i + 1] == acl[i..][1] == '#';
      LeftDiffers(p, acl, sub, i, j);
    }
  }

  /** What the scan does at a +. */
  lemma AclPlus(p: Patterns, acl: string, sub: string, i: nat, j: nat)
    requires Placed(acl) && i < |acl| && j <= |sub| && acl[i] == '+' != At(sub, j)
    ensures
      var e := LevelEnd(sub, j);
      CompareAcl(p, acl, sub, i, j)
      == if At(sub, j) == '#' then Result(false)
         else if e == |sub| && i + 1 == |acl| then Result(true)
         else ScanAcl(p, acl, sub, i + 1, e)
  {
    assert WildcardPlaced(acl, i);
  }

  lemma {:induction false} ScanAclPlus(p: Patterns, acl: string, sub: string, i: nat, j: nat)
    requires Placed(acl) && Placed(sub) && i < |acl| && j <= |sub| && acl[i] == '+' != At(sub, j)
    ensures CompareAcl(p, acl, sub, i, j) == Result(Left(p, acl, sub, i, j))
    decreases |acl| - i, 0
  {
    AclPlus(p, acl, sub, i, j);
    if At(sub, j) == '#' {
      LeftPlusHash(p, acl, sub, i, j);
    } else {
      var e := LevelEnd(sub, j);
      LeftPlus(p, acl, sub, i, j);
      if e == |sub| && i + 1 == |acl| {
        LeftEndEnd(p, acl, sub);
      } else {
        ScanAclIsLeft(p, acl, sub, i + 1, e);
      }
    }
  }

  /** What the scan does behind characters that agree. */
  function AfterEqual(p: Patterns, acl: string, sub: string, i: nat, j: nat): Outcome
    requires 0 < i <= |acl| && 0 < j <= |sub|
  {
    if j == |sub| && (acl[i..] == "/#" || i == |acl|) then Result(true)
    else if j == |sub| && acl[i..] == "+" then if acl[i - 1] != '/' then Inval else Result(true)
    else ScanAcl(p, acl, sub, i, j)
  }

  lemma AclEqual(p: Patterns, acl: string, sub: string, i: nat, j: nat)
    requires i < |acl| && j < |sub| && acl[i] == sub[j]
    ensures CompareAcl(p, acl, sub, i, j) == AfterEqual(p, acl, sub, i + 1, j + 1)
  {
  }

  lemma {:induction false} AfterEqualIsLeft(p: Patterns, acl: string, sub: string, i: nat, j: nat)
    requires Placed(acl) && Placed(sub) && 0 < i <= |acl| && 0 < j <= |sub|
    ensures AfterEqual(p, acl, sub, i, j) == Result(Left(p, acl, sub, i, j))
    decreases |acl| - i, 5
  {
    if j == |sub| && acl[i..] == "/#" {
      LeftParent(p, acl, sub, i);
    } else if i == |acl| && j == |sub| {
      LeftEndEnd(p, acl, sub);
    } else if j == |sub| && acl[i..] == "+" {
      LeftPlusEnd(p, acl, sub, i);
    } else {
      ScanAclIsLeft(p, acl, sub, i, j);
    }
  }

  lemma {:induction false} ScanAclSame(p: Patterns, acl: string, sub: string, i: nat, j: nat)
    requires Placed(acl) && Placed(sub) && i < |acl| && j < |sub| && acl[i] == sub[j]
    requires !PatternAt(p, acl, i)
    ensures CompareAcl(p, acl, sub, i, j) == Result(Left(p, acl, sub, i, j))
    decreases |acl| - i, 0
  {
    LeftSame(p, acl, sub, i, j);
    AclEqual(p, acl, sub, i, j);
    AfterEqualIsLeft(p, acl, sub, i + 1, j + 1);
  }

  /** For every id of client and user. */
  lemma ScanDecidesCovering(p: Patterns, acl: string, sub: string)
    requires ValidFilter(acl) && ValidFilter(sub)
    ensures ScanAclMatch(p, acl, sub) == Result(FilterCovers(p, acl, sub))
  {
    if (acl[0] == '$') == (sub[0] == '$') {
      ScanAclIsLeft(p, acl, sub, 0, 0);
    }
  }
}
