/**
 Topic aliases: the table of a sender, the table of a receiver, and the agreement of the two
 over a connection.
 */
module Alias {
  import opened Basics
  import Codec

  /** A topic as the tables hold it: text, and not empty. */
  type Name = t: Bytes | t != [] && Codec.IsString(t) witness [0x61]

  datatype Entry = Entry(alias: nat, topic: Name)

  // ---------------------------------------------------------------- tables as lists

  /** Topic of the first entry with this alias. */
  function ByAlias(table: seq<Entry>, alias: nat): Option<Name> {
    if table == [] then None
    else if table[0].alias == alias then Some(table[0].topic)
    else ByAlias(table[1..], alias)
  }

  /** Alias of the first entry with this topic. */
  function ByTopic(table: seq<Entry>, topic: Name): Option<nat> {
    if table == [] then None
    else if table[0].topic == topic then Some(table[0].alias)
    else ByTopic(table[1..], topic)
  }

  /** Give the first entry with this alias a new topic, or append an entry. */
  function Put(table: seq<Entry>, topic: Name, alias: nat): seq<Entry> {
    if table == [] then [Entry(alias, topic)]
    else if table[0].alias == alias then [Entry(alias, topic)] + table[1..]
    else [table[0]] + Put(table[1..], topic, alias)
  }

  /** The loops of alias_mosq.c over the two tables of a client. */
  class Aliases {
    var l2r: seq<Entry>
    var r2l: seq<Entry>
    var maxL2r: nat

    constructor (maxL2r: nat, stale: seq<Entry>)
      ensures l2r == [] && r2l == stale && this.maxL2r == maxL2r
    {
      l2r, r2l, this.maxL2r := [], stale, maxL2r;
    }

    /** alias__add_l2r; 0 means there is no room. */
    method AddL2r(topic: Name) returns (alias: nat)
      modifies this
      ensures maxL2r == old(maxL2r) && r2l == old(r2l)
      ensures
        if |old(l2r)| < maxL2r then alias == |old(l2r)| + 1 && l2r == old(l2r) + [Entry(alias, topic)]
        else alias == 0 && l2r == old(l2r)
    {
      if |l2r| < maxL2r {
        alias := |l2r| + 1;
        l2r := l2r + [Entry(alias, topic)];
        return;
      }
      alias := 0;
    }

    /** alias__add_r2l. */
    method AddR2l(topic: Name, alias: nat)
      modifies this
      ensures maxL2r == old(maxL2r) && l2r == old(l2r)
      ensures r2l == Put(old(r2l), topic, alias)
    {
      var i := 0;
      while i < |r2l|
        invariant i <= |r2l| && r2l == old(r2l) && l2r == old(l2r) && maxL2r == old(maxL2r)
        invariant forall j | 0 <= j < i :: r2l[j].alias != alias
      {
        if r2l[i].alias == alias {
          PutAt(r2l, topic, alias, i);
          r2l := r2l[i := Entry(alias, topic)];
          return;
        }
        i := i + 1;
      }
      PutAt(r2l, topic, alias, i);
      r2l := r2l + [Entry(alias, topic)];
    }

    /** alias__find_by_alias in the receiving direction. */
    method FindByAlias(alias: nat) returns (topic: Option<Name>)
      ensures topic == ByAlias(r2l, alias)
    {
      var i := 0;
      while i < |r2l|
        invariant i <= |r2l|
        invariant ByAlias(r2l, alias) == ByAlias(r2l[i..], alias)
      {
        assert r2l[i..][1..] == r2l[i + 1..];
        if r2l[i].alias == alias {
          return Some(r2l[i].topic);
        }
        i := i + 1;
      }
      return None;
    }

    /** alias__find_by_topic in the sending direction. */
    method FindByTopic(topic: Name) returns (alias: Option<nat>)
      ensures alias == ByTopic(l2r, topic)
    {
      var i := 0;
      while i < |l2r|
        invariant i <= |l2r|
        invariant ByTopic(l2r, topic) == ByTopic(l2r[i..], topic)
      {
        assert l2r[i..][1..] == l2r[i + 1..];
        if l2r[i].topic == topic {
          return Some(l2r[i].alias);
        }
        i := i + 1;
      }
      return None;
    }

    /** The alias part of send__real_publish: what goes into the packet. */
    method Outgoing(topic: Name) returns (head: Head)
      modifies this
      ensures maxL2r == old(maxL2r) && r2l == old(r2l)
      ensures (l2r, head) == Send(old(l2r), maxL2r, topic)
    {
      var found := FindByTopic(topic);
      if found.Some? {
        head := Head(None, found);
      } else {
        var alias := AddL2r(topic);
        head := Head(Some(topic), if alias == 0 then None else Some(alias));
      }
    }
  }

  // ---------------------------------------------------------------- one PUBLISH

  /** The topic of a PUBLISH packet, and its alias property. */
  datatype Head = Head(topic: Option<Name>, alias: Option<nat>)

  function Send(l2r: seq<Entry>, max: nat, topic: Name): (seq<Entry>, Head) {
    match ByTopic(l2r, topic)
    case Some(alias) => (l2r, Head(None, Some(alias)))
    case None =>
      if |l2r| < max then (l2r + [Entry(|l2r| + 1, topic)], Head(Some(topic), Some(|l2r| + 1)))
      else (l2r, Head(Some(topic), None))
  }

  /** The topic meant by a packet; None is an error. */
  function Receive(r2l: seq<Entry>, max: nat, head: Head): (seq<Entry>, Option<Name>) {
    match head.alias
    case None => (r2l, head.topic)
    case Some(alias) =>
      if alias == 0 || alias > max then (r2l, None)
      else
        match head.topic
        case Some(topic) => (Put(r2l, topic, alias), Some(topic))
        case None => (r2l, ByAlias(r2l, alias))
  }

  // ---------------------------------------------------------------- tables

  lemma {:induction false} PutAt(table: seq<Entry>, topic: Name, alias: nat, i: nat)
    requires i <= |table|
    requires forall j | 0 <= j < i :: table[j].alias != alias
    ensures i == |table| ==> Put(table, topic, alias) == table + [Entry(alias, topic)]
    ensures i < |table| && table[i].alias == alias ==> Put(table, topic, alias) == table[i := Entry(alias, topic)]
  {
    var e := Entry(alias, topic);
    if i > 0 {
      var rest := table[1..];
      PutAt(rest, topic, alias, i - 1);
      if i == |table| {
        assert [table[0]] + (rest + [e]) == table + [e];
      } else {
        assert [table[0]] + rest[i - 1 := e] == table[i := e];
      }
    } else if table != [] {
      assert [e] + table[1..] == table[0 := e];
    }
  }

  lemma {:induction false} PutFound(table: seq<Entry>, topic: Name, alias: nat, other: nat)
    ensures ByAlias(Put(table, topic, alias), other) == if other == alias then Some(topic) else ByAlias(table, other)
  {
    if table != [] {
      PutFound(table[1..], topic, alias, other);
      var t := Put(table, topic, alias);
      assert t[1..] == if table[0].alias == alias then table[1..] else Put(table[1..], topic, alias);
    }
  }

  lemma {:induction false} ByTopicIsEntry(table: seq<Entry>, topic: Name)
    ensures ByTopic(table, topic).Some? ==>
      exists i :: 0 <= i < |table| && table[i] == Entry(ByTopic(table, topic).value, topic)
  {
    if table != [] {
      ByTopicIsEntry(table[1..], topic);
      if table[0].topic == topic {
        assert table[0] == Entry(table[0].alias, topic);
      } else if ByTopic(table[1..], topic).Some? {
        var i :| 0 <= i < |table[1..]| && table[1..][i] == Entry(ByTopic(table, topic).value, topic);
        assert table[i + 1] == table[1..][i];
      }
    }
  }

  /** Each alias the sender has given out is known to the receiver, with the sender's topic. */
  ghost predicate InAgreement(l2r: seq<Entry>, r2l: seq<Entry>, max: nat) {
    && |l2r| <= max
    && forall i | 0 <= i < |l2r| :: l2r[i].alias == i + 1 && ByAlias(r2l, i + 1) == Some(l2r[i].topic)
  }

  lemma PublishAgrees(l2r: seq<Entry>, r2l: seq<Entry>, max: nat, limit: nat, topic: Name)
    requires InAgreement(l2r, r2l, max) && max <= limit
    ensures
      var (l2r', head) := Send(l2r, max, topic);
      var (r2l', resolved) := Receive(r2l, limit, head);
      resolved == Some(topic) && InAgreement(l2r', r2l', max)
  {
    ByTopicIsEntry(l2r, topic);
    if ByTopic(l2r, topic).None? && |l2r| < max {
      NewAliasAgrees(l2r, r2l, max, topic);
      PutFound(r2l, topic, |l2r| + 1, |l2r| + 1);
    }
  }

  lemma NewAliasAgrees(l2r: seq<Entry>, r2l: seq<Entry>, max: nat, topic: Name)
    requires InAgreement(l2r, r2l, max) && |l2r| < max
    ensures InAgreement(l2r + [Entry(|l2r| + 1, topic)], Put(r2l, topic, |l2r| + 1), max)
  {
    var more, put := l2r + [Entry(|l2r| + 1, topic)], Put(r2l, topic, |l2r| + 1);
    forall i | 0 <= i < |more|
      ensures more[i].alias == i + 1 && ByAlias(put, i + 1) == Some(more[i].topic)
    {
      PutFound(r2l, topic, |l2r| + 1, i + 1);
      if i < |l2r| { assert more[i] == l2r[i]; }
    }
  }

  // ---------------------------------------------------------------- a connection

  /** What the receiver resolves for the topics sent over one connection, in order. */
  function Resolved(l2r: seq<Entry>, r2l: seq<Entry>, max: nat, limit: nat, topics: seq<Name>): seq<Option<Name>>
    decreases |topics|
  {
    if topics == [] then []
    else
      var (l2r', head) := Send(l2r, max, topics[0]);
      var (r2l', topic) := Receive(r2l, limit, head);
      [topic] + Resolved(l2r', r2l', max, limit, topics[1..])
  }

  lemma {:induction false} ResolvedFrom(l2r: seq<Entry>, r2l: seq<Entry>, max: nat, limit: nat, topics: seq<Name>)
    requires InAgreement(l2r, r2l, max) && max <= limit
    ensures var got := Resolved(l2r, r2l, max, limit, topics);
      |got| == |topics| && forall i | 0 <= i < |topics| :: got[i] == Some(topics[i])
    decreases |topics|
  {
    if topics != [] {
      PublishAgrees(l2r, r2l, max, limit, topics[0]);
      var (l2r', head) := Send(l2r, max, topics[0]);
      var (r2l', topic) := Receive(r2l, limit, head);
      ResolvedFrom(l2r', r2l', max, limit, topics[1..]);
    }
  }

  /**
   Over a new connection, whatever the receiver still has in its table, every topic arrives as
   the sender meant it, if the sender's alias limit is not above the receiver's.
   */
  lemma AliasesAgree(stale: seq<Entry>, max: nat, limit: nat, topics: seq<Name>)
    requires max <= limit
    ensures var got := Resolved([], stale, max, limit, topics);
      |got| == |topics| && forall i | 0 <= i < |topics| :: got[i] == Some(topics[i])
  {
    ResolvedFrom([], stale, max, limit, topics);
  }

  /**
   The limit is needed, and exactly so: a sender with a higher limit than the receiver has a
   run of topics that does not arrive.
   */
  lemma HigherLimitFails(stale: seq<Entry>, max: nat, limit: nat, topics: seq<Name>)
    requires limit < max && |topics| == limit + 1
    requires forall i, j | 0 <= i < j < |topics| :: topics[i] != topics[j]
    ensures |Resolved([], stale, max, limit, topics)| == |topics|
    ensures Resolved([], stale, max, limit, topics)[limit] == None
  {
    FreshTopics([], stale, max, limit, topics, 0);
    assert topics[0..] == topics;
  }

  lemma {:induction false} FreshTopics(l2r: seq<Entry>, r2l: seq<Entry>, max: nat, limit: nat, topics: seq<Name>, i: nat)
    requires limit < max && |topics| == limit + 1 && i <= |topics| && |l2r| == i
    requires forall j | 0 <= j < i :: l2r[j].topic == topics[j]
    requires forall j, k | 0 <= j < k < |topics| :: topics[j] != topics[k]
    ensures var got := Resolved(l2r, r2l, max, limit, topics[i..]);
      |got| == |topics| - i && (i <= limit ==> got[limit - i] == None)
    decreases |topics| - i
  {
    if i < |topics| {
      ByTopicIsEntry(l2r, topics[i]);
      var (l2r', head) := Send(l2r, max, topics[i]);
      var (r2l', topic) := Receive(r2l, limit, head);
      assert head == Head(Some(topics[i]), Some(i + 1));
      FreshTopics(l2r', r2l', max, limit, topics, i + 1);
      ResolvedFirst(l2r, r2l, max, limit, topics[i], topics[i + 1..]);
      assert topics[i..] == [topics[i]] + topics[i + 1..];
    }
  }

  lemma ResolvedFirst(l2r: seq<Entry>, r2l: seq<Entry>, max: nat, limit: nat, t: Name, topics: seq<Name>)
    ensures
      var (l2r', head) := Send(l2r, max, t);
      var (r2l', topic) := Receive(r2l, limit, head);
      Resolved(l2r, r2l, max, limit, [t] + topics) == [topic] + Resolved(l2r', r2l', max, limit, topics)
  {
    assert ([t] + topics)[1..] == topics;
  }
}
