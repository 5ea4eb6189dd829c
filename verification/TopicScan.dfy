/** The loops of libcommon/topic_common.c over topic names and filters. */
module TopicScan {
  import opened Topic

  // ---------------------------------------------------------------- validity checks

  lemma SlashesOn(s: string, i: nat)
    requires i < |s|
    ensures Slashes(s[..i + 1]) == Slashes(s[..i]) + (if s[i] == '/' then 1 else 0)
  {
    assert s[..i + 1][..i] == s[..i];
  }

  method PubTopicCheck(str: string) returns (ok: bool)
    requires NulFree(str)
    ensures ok <==> ValidTopic(str)
  {
    var len, hierCount := 0, 0;
    while At(str, len) != '\0'
      invariant len <= |str|
      invariant hierCount == Slashes(str[..len])
      invariant forall i | 0 <= i < len :: !Wildcard(str[i])
      decreases |str| - len
    {
      if str[len] == '+' || str[len] == '#' {
        return false;
      } else if str[len] == '/' {
        hierCount := hierCount + 1;
      }
      SlashesOn(str, len);
      len := len + 1;
    }
    assert str[..len] == str;
    if len == 0 || len > 65535 {
      return false;
    }
    if hierCount > TOPIC_HIERARCHY_LIMIT {
      return false;
    }
    return true;
  }

  method PubTopicCheck2(str: string) returns (ok: bool)
    ensures ok <==> ValidTopic(str)
  {
    var hierCount := 0;
    if |str| == 0 || |str| > 65535 {
      return false;
    }
    for i := 0 to |str|
      invariant hierCount == Slashes(str[..i])
      invariant forall l | 0 <= l < i :: !Wildcard(str[l])
    {
      if str[i] == '+' || str[i] == '#' {
        return false;
      } else if str[i] == '/' {
        hierCount := hierCount + 1;
      }
      SlashesOn(str, i);
    }
    assert str[..|str|] == str;
    return hierCount <= TOPIC_HIERARCHY_LIMIT;
  }

  method SubTopicCheck(str: string) returns (ok: bool)
    requires NulFree(str)
    ensures ok <==> ValidFilter(str)
  {
    var c := '\0';
    var len, hierCount := 0, 0;
    while At(str, len) != '\0'
      invariant len <= |str|
      invariant c == if len == 0 then '\0' else str[len - 1]
      invariant hierCount == Slashes(str[..len])
      invariant forall i | 0 <= i < len :: WildcardPlaced(str, i)
      decreases |str| - len
    {
      if str[len] == '+' {
        if (c != '\0' && c != '/') || (At(str, len + 1) != '\0' && At(str, len + 1) != '/') {
          assert !WildcardPlaced(str, len);
          return false;
        }
      } else if str[len] == '#' {
        if (c != '\0' && c != '/') || At(str, len + 1) != '\0' {
          assert !WildcardPlaced(str, len);
          return false;
        }
      } else if str[len] == '/' {
        hierCount := hierCount + 1;
      }
      SlashesOn(str, len);
      c := str[len];
      len := len + 1;
    }
    assert str[..len] == str;
    if len == 0 || len > 65535 {
      return false;
    }
    if hierCount > TOPIC_HIERARCHY_LIMIT {
      return false;
    }
    return true;
  }

  /** As WildcardPlaced, but a NUL in front counts as the beginning of the string. */
  predicate TakenAsPlaced(s: string, i: int)
    requires 0 <= i < |s|
  {
    var start := LevelStart(s, i) || s[i - 1] == '\0';
    && (s[i] == '+' ==> start && (i + 1 == |s| || s[i + 1] == '/'))
    && (s[i] == '#' ==> start && i + 1 == |s|)
  }

  /** What the check with a length accepts. */
  predicate TakenAsFilter(s: string) {
    && 0 < |s| <= MAX_TOPIC_LENGTH
    && Slashes(s) <= TOPIC_HIERARCHY_LIMIT
    && forall i | 0 <= i < |s| :: TakenAsPlaced(s, i)
  }

  predicate WildcardAfterNul(s: string) {
    exists i :: 0 < i < |s| && Wildcard(s[i]) && s[i - 1] == '\0'
  }

  /** The valid filters are those it accepts, apart from a wildcard directly behind a NUL. */
  lemma TakenIsValid(s: string)
    ensures ValidFilter(s) <==> TakenAsFilter(s) && !WildcardAfterNul(s)
  {
    if TakenAsFilter(s) && !WildcardAfterNul(s) {
      forall i | 0 <= i < |s|
        ensures WildcardPlaced(s, i)
      {
        assert TakenAsPlaced(s, i);
      }
    }
    if ValidFilter(s) {
      forall i | 0 <= i < |s|
        ensures TakenAsPlaced(s, i) && !(0 < i && Wildcard(s[i]) && s[i - 1] == '\0')
      {
        assert WildcardPlaced(s, i);
      }
    }
  }

  method SubTopicCheck2(str: string) returns (ok: bool)
    ensures ok <==> TakenAsFilter(str)
  {
    var c := '\0';
    var hierCount := 0;
    if |str| == 0 || |str| > 65535 {
      return false;
    }
    for i := 0 to |str|
      invariant c == if i == 0 then '\0' else str[i - 1]
      invariant hierCount == Slashes(str[..i])
      invariant forall l | 0 <= l < i :: TakenAsPlaced(str, l)
    {
      if str[i] == '+' {
        if (c != '\0' && c != '/') || (i < |str| - 1 && str[i + 1] != '/') {
          assert !TakenAsPlaced(str, i);
          return false;
        }
      } else if str[i] == '#' {
        if (c != '\0' && c != '/') || i < |str| - 1 {
          assert !TakenAsPlaced(str, i);
          return false;
        }
      } else if str[i] == '/' {
        hierCount := hierCount + 1;
      }
      SlashesOn(str, i);
      c := str[i];
    }
    assert str[..|str|] == str;
    return hierCount <= TOPIC_HIERARCHY_LIMIT;
  }

  // ---------------------------------------------------------------- shared inner loops

  /** Advance to the end of the topic; false if a wildcard is met. */
  method SkipToEnd(topic: string, start: nat) returns (clean: bool)
    requires start <= |topic|
    ensures clean <==> !WildcardIn(topic, start, |topic|)
  {
    var tpos := start;
    while tpos < |topic|
      invariant start <= tpos <= |topic|
      invariant forall l | start <= l < tpos :: !Wildcard(topic[l])
    {
      if topic[tpos] == '+' || topic[tpos] == '#' {
        return false;
      }
      tpos := tpos + 1;
    }
    return true;
  }

  /** Advance to the end of the level; false if a wildcard is met. */
  method SkipLevel(topic: string, start: nat) returns (clean: bool, tpos: nat)
    requires start <= |topic|
    ensures clean <==> !WildcardIn(topic, start, LevelEnd(topic, start))
    ensures clean ==> tpos == LevelEnd(topic, start)
  {
    tpos := start;
    while tpos < |topic| && topic[tpos] != '/'
      invariant start <= tpos <= LevelEnd(topic, start) == LevelEnd(topic, tpos)
      invariant forall l | start <= l < tpos :: !Wildcard(topic[l])
    {
      if topic[tpos] == '+' || topic[tpos] == '#' {
        clean := false;
        return;
      }
      tpos := tpos + 1;
    }
    clean := true;
  }

  /** Look for a # that is not last. */
  method FindBadHash(sub: string, start: nat) returns (bad: bool)
    ensures bad <==> BadHash(sub, start)
  {
    var spos := start;
    while spos < |sub|
      invariant start <= spos
      invariant forall l | start <= l < spos && l < |sub| - 1 :: sub[l] != '#'
    {
      if sub[spos] == '#' && spos + 1 < |sub| {
        return true;
      }
      spos := spos + 1;
    }
    return false;
  }

  lemma TwoLeft(sub: string, i: nat, a: char, b: char)
    requires i <= |sub| && NulFree(sub) && a != '\0' && b != '\0'
    ensures (At(sub, i) == a && At(sub, i + 1) == b && At(sub, i + 2) == '\0') <==> sub[i..] == [a, b]
  {
  }

  lemma OneLeft(sub: string, i: nat, a: char)
    requires i <= |sub| && NulFree(sub) && a != '\0'
    ensures (At(sub, i) == a && At(sub, i + 1) == '\0') <==> sub[i..] == [a]
  {
  }

  // ---------------------------------------------------------------- topic_matches_sub

  /** Compare a client id or user name with the topic level at `start`. */
  method MatchId(id: string, topic: string, start: nat) returns (ok: bool)
    requires NulFree(id) && start <= |topic|
    ensures ok <==> '/' !in id && PrefixAt(topic, start, id)
  {
    var k := 0;
    while k < |id| && start + k < |topic| && topic[start + k] != '/'
      invariant k <= |id| && start + k <= |topic|
      invariant topic[start..start + k] == id[..k]
      invariant '/' !in id[..k]
    {
      if id[k] != topic[start + k] {
        return false;
      }
      assert id[..k + 1] == id[..k] + [id[k]];
      assert topic[start..start + k + 1] == topic[start..start + k] + [topic[start + k]];
      k := k + 1;
    }
    if k < |id| {
      if start + k < |topic| && PrefixAt(topic, start, id) {
        assert topic[start..start + |id|][k] == '/';
      }
      return false;
    }
    assert id[..k] == id;
    return true;
  }

  /** What one part of the loop body comes to: an outcome, or the positions to go on from. */
  datatype Turn = Stop(outcome: Outcome) | Go(spos: nat, tpos: nat)

  /** A %c or %u in the filter. */
  method TakePattern(p: Patterns, sub: string, topic: string, start: nat, at: nat) returns (r: Turn)
    requires NulFree(sub) && NulFree(topic) && start < |sub| && at <= |topic| && PatternAt(p, sub, start)
    requires NulFree(p.clientid) && NulFree(p.username) && !Wildcard(At(topic, at))
    ensures r.Stop? ==> Scan(p, sub, topic, start, at) == r.outcome
    ensures r.Go? ==> start < r.spos <= |sub| && r.tpos <= |topic|
    ensures r.Go? ==> Scan(p, sub, topic, start, at) == Compare(p, sub, topic, r.spos, r.tpos)
  {
    var id := if sub[start + 1] == 'c' then p.clientid else p.username;
    if id == "" {
      return Stop(Result(false));
    }
    var ok := MatchId(id, topic, at);
    if !ok {
      return Stop(Result(false));
    }
    var spos, tpos := start + 2, at + |id|;
    TwoLeft(sub, spos, '/', '#');
    if (At(sub, spos) == '\0' && At(topic, tpos) == '\0')
       || (At(sub, spos) == '/' && At(sub, spos + 1) == '#' && At(sub, spos + 2) == '\0'
           && At(topic, tpos) == '\0')
    {
      return Stop(Result(true));
    }
    return Go(spos, tpos);
  }

  /** The two characters differ, or the topic is at its end. */
  method TakeDifferent(p: Patterns, sub: string, topic: string, start: nat, at: nat) returns (r: Turn)
    requires NulFree(sub) && NulFree(topic) && start <= |sub| && at <= |topic|
    requires At(sub, start) != At(topic, at) || at == |topic|
    ensures r.Stop? ==> Compare(p, sub, topic, start, at) == r.outcome
    ensures r.Go? ==> start < r.spos <= |sub| && r.tpos <= |topic|
    ensures r.Go? ==> Compare(p, sub, topic, start, at) == Scan(p, sub, topic, r.spos, r.tpos)
  {
    if At(sub, start) == '+' {
      if start > 0 && sub[start - 1] != '/' {
        return Stop(Inval);
      }
      if At(sub, start + 1) != '\0' && At(sub, start + 1) != '/' {
        return Stop(Inval);
      }
      var clean, e := SkipLevel(topic, at);
      if !clean {
        return Stop(Inval);
      }
      if At(topic, e) == '\0' && At(sub, start + 1) == '\0' {
        return Stop(Result(true));
      }
      return Go(start + 1, e);
    } else if At(sub, start) == '#' {
      if start > 0 && sub[start - 1] != '/' {
        return Stop(Inval);
      }
      if At(sub, start + 1) != '\0' {
        return Stop(Inval);
      }
      var clean := SkipToEnd(topic, at);
      return Stop(if clean then Result(true) else Inval);
    } else {
      if At(topic, at) == '\0' && start > 0 && sub[start - 1] == '+'
         && At(sub, start) == '/' && At(sub, start + 1) == '#'
      {
        return Stop(Result(true));
      }
      var bad := FindBadHash(sub, start);
      return Stop(if bad then Inval else Result(false));
    }
  }

  /** The two characters are the same. */
  method TakeSame(p: Patterns, sub: string, topic: string, start: nat, at: nat) returns (r: Turn)
    requires NulFree(sub) && NulFree(topic) && start < |sub| && at < |topic| && sub[start] == topic[at]
    ensures r.Stop? ==> Compare(p, sub, topic, start, at) == r.outcome
    ensures r.Go? ==> start < r.spos <= |sub| && r.tpos <= |topic|
    ensures r.Go? ==> Compare(p, sub, topic, start, at) == Scan(p, sub, topic, r.spos, r.tpos)
  {
    TwoLeft(sub, start + 1, '/', '#');
    OneLeft(sub, start + 1, '+');
    if At(topic, at + 1) == '\0' {
      if At(sub, start + 1) == '/' && At(sub, start + 2) == '#' && At(sub, start + 3) == '\0' {
        return Stop(Result(true));
      }
    }
    var spos, tpos := start + 1, at + 1;
    if At(sub, spos) == '\0' && At(topic, tpos) == '\0' {
      return Stop(Result(true));
    } else if At(topic, tpos) == '\0' && At(sub, spos) == '+' && At(sub, spos + 1) == '\0' {
      if spos > 0 && sub[spos - 1] != '/' {
        return Stop(Inval);
      }
      return Stop(Result(true));
    }
    return Go(spos, tpos);
  }

  /** topic_matches_sub on NUL terminated strings. */
  method TopicMatchesSub(p: Patterns, sub: string, topic: string) returns (o: Outcome)
    requires NulFree(sub) && NulFree(topic)
    requires p.Patterns? ==> NulFree(p.clientid) && NulFree(p.username)
    ensures o == ScanMatch(p, sub, topic)
  {
    if sub == "" || topic == "" {
      return Inval;
    }
    if (sub[0] == '$' && topic[0] != '$') || (topic[0] == '$' && sub[0] != '$') {
      return Result(false);
    }
    var spos: nat, tpos: nat := 0, 0;
    while At(sub, spos) != '\0'
      invariant spos <= |sub| && tpos <= |topic|
      invariant Scan(p, sub, topic, spos, tpos) == ScanMatch(p, sub, topic)
      decreases |sub| - spos
    {
      if At(topic, tpos) == '+' || At(topic, tpos) == '#' {
        return Inval;
      }
      ghost var start := spos;
      var r := Go(spos, tpos);
      if p.Patterns?
         && (spos == 0 || sub[spos - 1] == '/')
         && sub[spos] == '%'
         && (At(sub, spos + 1) == 'c' || At(sub, spos + 1) == 'u')
         && (At(sub, spos + 2) == '/' || At(sub, spos + 2) == '\0')
      {
        r := TakePattern(p, sub, topic, spos, tpos);
      }
      if r.Stop? {
        return r.outcome;
      }
      spos, tpos := r.spos, r.tpos;
      assert Compare(p, sub, topic, spos, tpos) == ScanMatch(p, sub, topic);
      if At(sub, spos) != At(topic, tpos) || At(topic, tpos) == '\0' {
        r := TakeDifferent(p, sub, topic, spos, tpos);
      } else {
        r := TakeSame(p, sub, topic, spos, tpos);
      }
      if r.Stop? {
        return r.outcome;
      }
      spos, tpos := r.spos, r.tpos;
    }
    var clean := SkipToEnd(topic, tpos);
    return if clean then Result(false) else Inval;
  }

  /** mosquitto_topic_matches_sub2 on strings with lengths: the same outcome, valid or not. */
  method TopicMatchesSub2(sub: string, topic: string) returns (o: Outcome)
    requires NulFree(sub) && NulFree(topic)
    ensures o == ScanMatch(NoPatterns, sub, topic)
  {
    if |sub| == 0 || |topic| == 0 {
      return Inval;
    }
    if (sub[0] == '$' && topic[0] != '$') || (topic[0] == '$' && sub[0] != '$') {
      return Result(false);
    }
    var spos: nat, tpos: nat := 0, 0;
    while spos < |sub|
      invariant spos <= |sub| && tpos <= |topic|
      invariant Scan(NoPatterns, sub, topic, spos, tpos) == ScanMatch(NoPatterns, sub, topic)
    {
      if tpos < |topic| && (topic[tpos] == '+' || topic[tpos] == '#') {
        return Inval;
      }
      assert Compare(NoPatterns, sub, topic, spos, tpos) == ScanMatch(NoPatterns, sub, topic);
      if tpos == |topic| || sub[spos] != topic[tpos] {
        if sub[spos] == '+' {
          if spos > 0 && sub[spos - 1] != '/' {
            return Inval;
          }
          if spos + 1 < |sub| && sub[spos + 1] != '/' {
            return Inval;
          }
          spos := spos + 1;
          var clean, e := SkipLevel(topic, tpos);
          if !clean {
            return Inval;
          }
          tpos := e;
          if tpos == |topic| && spos == |sub| {
            return Result(true);
          }
        } else if sub[spos] == '#' {
          if spos > 0 && sub[spos - 1] != '/' {
            return Inval;
          }
          if spos + 1 < |sub| {
            return Inval;
          }
          var clean := SkipToEnd(topic, tpos);
          return if clean then Result(true) else Inval;
        } else {
          if tpos == |topic| && spos > 0 && sub[spos - 1] == '+' && sub[spos] == '/'
             && spos + 1 < |sub| && sub[spos + 1] == '#'
          {
            return Result(true);
          }
          var bad := FindBadHash(sub, spos);
          return if bad then Inval else Result(false);
        }
      } else {
        if tpos + 1 == |topic| {
          if spos + 3 == |sub| && sub[spos + 1] == '/' && sub[spos + 2] == '#' {
            assert sub[spos + 1..] == "/#";
            return Result(true);
          }
        }
        OneLeft(sub, spos + 1, '+');
        TwoLeft(sub, spos + 1, '/', '#');
        spos := spos + 1;
        tpos := tpos + 1;
        if spos == |sub| && tpos == |topic| {
          return Result(true);
        } else if tpos == |topic| && sub[spos] == '+' && spos + 1 == |sub| {
          if spos > 0 && sub[spos - 1] != '/' {
            return Inval;
          }
          return Result(true);
        }
      }
    }
    var clean := SkipToEnd(topic, tpos);
    return if clean then Result(false) else Inval;
  }
}
