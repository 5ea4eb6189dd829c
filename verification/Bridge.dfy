/**
 Topic remapping of a bridge: the entry for a topic pattern with a local and a remote prefix,
 and what it does to topics coming in and going out.
 */
module Bridge {
  import opened Basics
  import opened Topic
  import opened TopicLaws
  import opened TopicScan
  import opened AclLaws

  datatype Direction = Out | In | Both

  datatype Entry = Entry(
    direction: Direction,
    localPrefix: Option<string>,
    remotePrefix: Option<string>,
    localTopic: string,
    remoteTopic: string)

  // ---------------------------------------------------------------- entries

  function OrEmpty(s: Option<string>): string { if s.Some? then s.value else "" }

  predicate PrefixAccepted(prefix: Option<string>, pattern: string) {
    prefix.Some? ==> ValidTopic(prefix.value) && ValidFilter(prefix.value + pattern)
  }

  /** bridge__add_topic for the first entry of a bridge; a missing pattern is None. */
  function NewEntry(pattern: Option<string>, direction: Direction,
                    local: Option<string>, remote: Option<string>): Option<Entry>
  {
    if pattern.None? && (local.None? || remote.None?) then None
    else if !PrefixAccepted(local, OrEmpty(pattern)) || !PrefixAccepted(remote, OrEmpty(pattern)) then None
    else Some(Entry(direction, local, remote,
                    OrEmpty(local) + OrEmpty(pattern), OrEmpty(remote) + OrEmpty(pattern)))
  }

  // ---------------------------------------------------------------- remapping

  function Strip(prefix: Option<string>, t: string): string {
    if prefix.Some? && prefix.value <= t then t[|prefix.value|..] else t
  }

  datatype Remap = Failed | Topic(name: string)

  function MapIn(e: Entry, t: string): string { OrEmpty(e.localPrefix) + Strip(e.remotePrefix, t) }

  function MapOut(e: Entry, t: string): string { OrEmpty(e.remotePrefix) + Strip(e.localPrefix, t) }

  predicate HasPrefix(e: Entry) { e.localPrefix.Some? || e.remotePrefix.Some? }

  /** bridge__remap_topic_in: the first entry for this direction that matches remaps the topic. */
  function RemapIn(es: seq<Entry>, t: string): Remap {
    if es == [] then Topic(t)
    else if es[0].direction != Out && HasPrefix(es[0]) then
      match ScanMatch(NoPatterns, es[0].remoteTopic, t)
      case Inval => Failed
      case Result(matched) => if matched then Topic(MapIn(es[0], t)) else RemapIn(es[1..], t)
    else RemapIn(es[1..], t)
  }

  /** The outgoing counterpart in send__publish. */
  function RemapOut(es: seq<Entry>, t: string): Remap {
    if es == [] then Topic(t)
    else if es[0].direction != In && HasPrefix(es[0]) then
      match ScanMatch(NoPatterns, es[0].localTopic, t)
      case Inval => Failed
      case Result(matched) => if matched then Topic(MapOut(es[0], t)) else RemapOut(es[1..], t)
    else RemapOut(es[1..], t)
  }

  method RemapTopicIn(es: seq<Entry>, topic: string) returns (r: Remap)
    requires NulFree(topic) && forall i | 0 <= i < |es| :: NulFree(es[i].remoteTopic)
    ensures r == RemapIn(es, topic)
  {
    var i := 0;
    while i < |es|
      invariant i <= |es|
      invariant RemapIn(es, topic) == RemapIn(es[i..], topic)
    {
      var e := es[i];
      assert es[i..][1..] == es[i + 1..];
      if (e.direction == Both || e.direction == In) && (e.remotePrefix.Some? || e.localPrefix.Some?) {
        var o := TopicMatchesSub(NoPatterns, e.remoteTopic, topic);
        if o.Inval? {
          return Failed;
        }
        if o.matched {
          var t := topic;
          if e.remotePrefix.Some? {
            if e.remotePrefix.value <= t {
              t := t[|e.remotePrefix.value|..];
            }
          }
          if e.localPrefix.Some? {
            t := e.localPrefix.value + t;
          } else {
            assert t == "" + t;
          }
          return Topic(t);
        }
      }
      i := i + 1;
    }
    return Topic(topic);
  }

  method RemapTopicOut(es: seq<Entry>, topic: string) returns (r: Remap)
    requires NulFree(topic) && forall i | 0 <= i < |es| :: NulFree(es[i].localTopic)
    ensures r == RemapOut(es, topic)
  {
    var i := 0;
    while i < |es|
      invariant i <= |es|
      invariant RemapOut(es, topic) == RemapOut(es[i..], topic)
    {
      var e := es[i];
      assert es[i..][1..] == es[i + 1..];
      if (e.direction == Both || e.direction == Out) && (e.remotePrefix.Some? || e.localPrefix.Some?) {
        var o := TopicMatchesSub(NoPatterns, e.localTopic, topic);
        if o.Inval? {
          return Failed;
        }
        if o.matched {
          var t := topic;
          if e.localPrefix.Some? {
            if e.localPrefix.value <= t {
              t := t[|e.localPrefix.value|..];
            }
          }
          if e.remotePrefix.Some? {
            t := e.remotePrefix.value + t;
          } else {
            assert t == "" + t;
          }
          return Topic(t);
        }
      }
      i := i + 1;
    }
    return Topic(topic);
  }

  // ---------------------------------------------------------------- swapping the prefix

  /** Matching of pattern and rest behind a common prefix that ends inside a level. */
  predicate MatchInside(pattern: string, rest: string) {
    var f, t := Levels(pattern), Levels(rest);
    f[0] == t[0] && MatchLevels(NoPatterns, f[1..], t[1..])
  }

  /** What a common wildcard free prefix leaves to match, whatever the prefix is. */
  predicate MatchBehind(pattern: string, rest: string) {
    if pattern != "" && Wildcard(pattern[0]) then MatchLevels(NoPatterns, Levels(pattern), Levels(rest))
    else MatchInside(pattern, rest)
  }

  /** From i to k the characters are the same, and none is a wildcard. */
  predicate SamePrefix(sub: string, topic: string, i: nat, k: nat)
    decreases k - i
  {
    && i <= k <= |sub| && k <= |topic|
    && (i == k || (sub[i] == topic[i] && !Wildcard(sub[i]) && SamePrefix(sub, topic, i + 1, k)))
  }

  lemma {:induction false} ConcatSamePrefix(p: string, a: string, b: string, i: nat)
    requires i <= |p| && forall l | 0 <= l < |p| :: !Wildcard(p[l])
    ensures SamePrefix(p + a, p + b, i, |p|)
    decreases |p| - i
  {
    if i < |p| { ConcatSamePrefix(p, a, b, i + 1); }
  }

  lemma {:induction false} CommonPrefix(sub: string, topic: string, i: nat, k: nat)
    requires SamePrefix(sub, topic, i, k)
    ensures Rest(NoPatterns, sub, topic, i, i) == Rest(NoPatterns, sub, topic, k, k)
    decreases k - i
  {
    if i < k {
      CommonPrefix(sub, topic, i + 1, k);
      RestSame(NoPatterns, sub, topic, i, i);
    }
  }

  lemma RestBehind(sub: string, topic: string, k: nat, pattern: string, rest: string)
    requires Scannable(sub, topic, k, k) && EndsIn(sub, k, pattern, 0)
    requires LevelsFrom(sub, k) == Levels(pattern) && LevelsFrom(topic, k) == Levels(rest)
    ensures Rest(NoPatterns, sub, topic, k, k) == MatchBehind(pattern, rest)
  {
    if pattern == "" {
      LevelsAtEnd(sub);
      assert LevelMatches(NoPatterns, "", Levels(rest)[0]) <==> "" == Levels(rest)[0];
    } else {
      assert sub[k] == pattern[0];
      if Wildcard(pattern[0]) {
        assert WildcardPlaced(sub, k);
      } else if LevelStart(sub, k) {
        LiteralLevel(NoPatterns, sub, k, Levels(rest)[0]);
      }
    }
  }

  lemma BehindPrefix(sub: string, topic: string, k: nat, pattern: string, rest: string)
    requires Scannable(sub, topic, k, k) && SamePrefix(sub, topic, 0, k)
    requires EndsIn(sub, k, pattern, 0) && EndsIn(topic, k, rest, 0)
    ensures MatchLevels(NoPatterns, Levels(sub), Levels(topic)) == MatchBehind(pattern, rest)
  {
    CommonPrefix(sub, topic, 0, k);
    LevelsShift(sub, k, pattern, 0);
    LevelsShift(topic, k, rest, 0);
    RestBehind(sub, topic, k, pattern, rest);
  }

  lemma PrefixLeaves(p: string, pattern: string, rest: string)
    requires Scannable(p + pattern, p + rest, 0, 0)
    ensures MatchLevels(NoPatterns, Levels(p + pattern), Levels(p + rest)) == MatchBehind(pattern, rest)
  {
    PrefixIsClean(p, rest);
    ConcatSamePrefix(p, pattern, rest, 0);
    ConcatEndsIn(p, pattern, 0);
    ConcatEndsIn(p, rest, 0);
    BehindPrefix(p + pattern, p + rest, |p|, pattern, rest);
  }

  lemma PrefixIsClean(p: string, rest: string)
    requires forall i | 0 <= i < |p + rest| :: !Wildcard((p + rest)[i])
    ensures forall i | 0 <= i < |p| :: !Wildcard(p[i])
  {
    assert forall i | 0 <= i < |p| :: p[i] == (p + rest)[i];
  }

  /** Matching is preserved when one wildcard free prefix is swapped for another. */
  lemma PrefixSwap(p: string, q: string, pattern: string, rest: string)
    requires p != "" && q != ""
    requires Scannable(p + pattern, p + rest, 0, 0) && Scannable(q + pattern, q + rest, 0, 0)
    ensures Matches(NoPatterns, p + pattern, p + rest) == Matches(NoPatterns, q + pattern, q + rest)
  {
    PrefixLeaves(p, pattern, rest);
    PrefixLeaves(q, pattern, rest);
  }

  // ---------------------------------------------------------------- in and out again

  /** e is the accepted entry for both directions with this pattern and these prefixes. */
  predicate EntryFor(pattern: Option<string>, local: string, remote: string, e: Entry) {
    && NewEntry(pattern, Both, Some(local), Some(remote)) == Some(e)
    && NulFree(OrEmpty(pattern)) && NulFree(local) && NulFree(remote)
  }

  predicate Plain(t: string) { t != "" && NulFree(t) && forall i | 0 <= i < |t| :: !Wildcard(t[i]) }

  lemma ScansPrefixed(prefix: string, pattern: string, rest: string)
    requires ValidTopic(prefix) && ValidFilter(prefix + pattern)
    requires NulFree(prefix) && Plain(prefix + rest)
    ensures Scannable(prefix + pattern, prefix + rest, 0, 0)
  {
  }

  /** Coming in: an accepted entry maps a matching topic. */
  lemma MapsIn(pattern: Option<string>, local: string, remote: string, e: Entry, t: string)
    requires EntryFor(pattern, local, remote, e) && Plain(t) && Matches(NoPatterns, e.remoteTopic, t)
    ensures RemapIn([e], t) == Topic(MapIn(e, t))
  {
    assert Scannable(e.remoteTopic, t, 0, 0);
    ScanIsMatches(NoPatterns, e.remoteTopic, t);
  }

  lemma MapInPlain(pattern: Option<string>, local: string, remote: string, e: Entry, t: string)
    requires EntryFor(pattern, local, remote, e) && Plain(t)
    ensures Plain(MapIn(e, t))
  {
  }

  /** Going out: no wildcard in the topic, so the scan cannot fail. */
  lemma MapsOut(pattern: Option<string>, local: string, remote: string, e: Entry, t: string)
    requires EntryFor(pattern, local, remote, e) && Plain(t)
    ensures RemapOut([e], t) == Topic(if Matches(NoPatterns, e.localTopic, t) then MapOut(e, t) else t)
  {
    assert Scannable(e.localTopic, t, 0, 0);
    ScanIsMatches(NoPatterns, e.localTopic, t);
    assert RemapOut([e][1..], t) == Topic(t);
  }

  lemma PlainSwap(p: string, q: string, rest: string)
    requires Plain(p + rest) && Plain(q)
    ensures Plain(q + rest)
  {
    assert forall i | 0 <= i < |rest| :: rest[i] == (p + rest)[|p| + i];
  }

  /** A matching topic that begins with the remote prefix: the same topic comes back. */
  lemma PrefixedComesBack(pattern: Option<string>, local: string, remote: string, e: Entry, rest: string)
    requires EntryFor(pattern, local, remote, e) && Plain(remote + rest)
    requires Matches(NoPatterns, e.remoteTopic, remote + rest)
    ensures MapIn(e, remote + rest) == local + rest && MapOut(e, local + rest) == remote + rest
    ensures Matches(NoPatterns, e.localTopic, local + rest)
  {
    PlainSwap(remote, local, rest);
    ScansPrefixed(local, OrEmpty(pattern), rest);
    ScansPrefixed(remote, OrEmpty(pattern), rest);
    PrefixSwap(remote, local, OrEmpty(pattern), rest);
    assert (remote + rest)[|remote|..] == rest;
    assert (local + rest)[|local|..] == rest;
  }

  /** Any other: both ways out give a longer topic. */
  lemma OtherDoesNotComeBack(pattern: Option<string>, local: string, remote: string, e: Entry, t: string)
    requires EntryFor(pattern, local, remote, e) && !(remote <= t)
    ensures MapIn(e, t) != t && MapOut(e, MapIn(e, t)) != t
  {
    assert MapIn(e, t) == local + t;
    assert (local + t)[|local|..] == t;
    assert MapOut(e, local + t) == remote + t;
    assert |local + t| > |t| && |remote + t| > |t|;
  }

  /** What goes out again, for a topic that came in as u. */
  lemma SameOut(pattern: Option<string>, local: string, remote: string, e: Entry, rest: string, u: string)
    requires EntryFor(pattern, local, remote, e) && Plain(remote + rest) && Plain(u) && u == MapIn(e, remote + rest)
    requires Matches(NoPatterns, e.remoteTopic, remote + rest)
    ensures RemapOut([e], u) == Topic(remote + rest)
  {
    MapsOut(pattern, local, remote, e, u);
    PrefixedComesBack(pattern, local, remote, e, rest);
  }

  lemma OtherOut(pattern: Option<string>, local: string, remote: string, e: Entry, t: string, u: string)
    requires EntryFor(pattern, local, remote, e) && Plain(u) && u == MapIn(e, t) && !(remote <= t)
    ensures RemapOut([e], u) != Topic(t)
  {
    MapsOut(pattern, local, remote, e, u);
    OtherDoesNotComeBack(pattern, local, remote, e, t);
  }

  /**
   With one entry for both directions and both prefixes set, remapping a matching topic inward
   and then outward gives it back exactly if it begins with the remote prefix.
   */
  lemma RemapRoundTrip(pattern: Option<string>, local: string, remote: string, e: Entry, t: string)
    requires EntryFor(pattern, local, remote, e) && Plain(t) && Matches(NoPatterns, e.remoteTopic, t)
    ensures RemapIn([e], t).Topic?
    ensures RemapOut([e], RemapIn([e], t).name) == Topic(t) <==> remote <= t
  {
    MapsIn(pattern, local, remote, e, t);
    MapInPlain(pattern, local, remote, e, t);
    if remote <= t {
      assert t == remote + t[|remote|..];
      SameOut(pattern, local, remote, e, t[|remote|..], MapIn(e, t));
    } else {
      OtherOut(pattern, local, remote, e, t, MapIn(e, t));
    }
  }

  /** The parent level matches prefix/# but does not begin with the prefix. */
  lemma ParentDoesNotRoundTrip()
    ensures
      var e := Entry(Both, Some("l/"), Some("r/"), "l/#", "r/#");
      && NewEntry(Some("#"), Both, Some("l/"), Some("r/")) == Some(e)
      && RemapIn([e], "r") == Topic("l/r")
      && RemapOut([e], "l/r") == Topic("r/r")
  {
    var e := Entry(Both, Some("l/"), Some("r/"), "l/#", "r/#");
    assert "l/" + "#" == "l/#" && "r/" + "#" == "r/#";
    SmallValid("l/", "l/#");
    SmallValid("r/", "r/#");
    assert e.remoteTopic[1..] == "/#";
    assert ScanMatch(NoPatterns, "r/#", "r") == Result(true);
    assert Scan(NoPatterns, "l/#", "l/r", 2, 2) == Compare(NoPatterns, "l/#", "l/r", 2, 2) == Result(true) by {
      assert LevelStart("l/#", 2);
    }
    assert "l/#"[1..] == "/#" && "l/#"[2..] == "#";
    assert Scan(NoPatterns, "l/#", "l/r", 0, 0) == Compare(NoPatterns, "l/#", "l/r", 0, 0)
        == Scan(NoPatterns, "l/#", "l/r", 1, 1) == Compare(NoPatterns, "l/#", "l/r", 1, 1);
    assert "l/r"[2..] == "r";
    assert RemapIn([e], "r") == Topic(MapIn(e, "r"));
    assert MapIn(e, "r") == "l/" + "r" == "l/r";
    assert MapOut(e, "l/r") == "r/" + "r" == "r/r";
  }

  lemma SmallValid(prefix: string, filter: string)
    requires |prefix| == 2 && !Wildcard(prefix[0]) && prefix[1] == '/' && filter == prefix + "#"
    ensures ValidTopic(prefix) && ValidFilter(filter)
  {
    SlashesConcat(prefix[..1], "/");
    SlashesConcat(prefix, "#");
    assert prefix == prefix[..1] + "/";
    assert "/"[..0] == "" && "#"[..0] == "" && prefix[..1][..0] == "";
    assert Slashes("/") == 1 && Slashes("#") == 0 && Slashes(prefix[..1]) <= 1;
  }
}
