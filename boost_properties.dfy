/** What one pass of `process_mailbox` guarantees: follower orders are
    deduplicated by username, `new_accounts_found` reports exactly whether a
    username was added, engagement orders follow the catalog, and a message
    is flagged `\Seen` exactly when it was fetched, after its orders. */
module BoostProperties {
  import opened Strings
  import opened FeedLink
  import opened FeedLinkForms
  import opened Boost

  // ---------------------------------------------------------------- catalog

  /** The engagement orders are exactly one order per `SERVICES` entry whose
      quantity is positive, with that entry's service id and quantity. */
  lemma {:induction false} EngagementsMembers(c: Catalog, services: seq<(string, int)>, link: string, a: Action)
    ensures a in Engagements(c, services, link) <==>
      exists k :: 0 <= k < |services| && QuantityFor(c, services[k].0) > 0 &&
        a == Place(Engagement(services[k].0), Order(services[k].1, link, QuantityFor(c, services[k].0)))
    decreases |services|
  {
    if services != [] {
      var init := services[..|services| - 1];
      EngagementsMembers(c, init, link, a);
      if exists k :: 0 <= k < |services| && QuantityFor(c, services[k].0) > 0 &&
          a == Place(Engagement(services[k].0), Order(services[k].1, link, QuantityFor(c, services[k].0))) {
        var k :| 0 <= k < |services| && QuantityFor(c, services[k].0) > 0 &&
          a == Place(Engagement(services[k].0), Order(services[k].1, link, QuantityFor(c, services[k].0)));
        if k < |init| {
          assert services[k] == init[k];
        }
      }
      if a in Engagements(c, init, link) {
        var k :| 0 <= k < |init| && QuantityFor(c, init[k].0) > 0 &&
          a == Place(Engagement(init[k].0), Order(init[k].1, link, QuantityFor(c, init[k].0)));
        assert services[k] == init[k];
      }
    }
  }

  /** A metric whose quantity is zero or negative gets no order (line 222),
      and every order of the loop is an engagement order for the link with a
      positive quantity. */
  lemma DisabledMetricSkipped(c: Catalog, link: string, metric: string)
    requires QuantityFor(c, metric) <= 0
    ensures forall a :: a in Engagements(c, c.services, link) ==>
              a.Place? && a.purpose != Engagement(metric) && a.purpose != Followers &&
              a.order.link == link && a.order.quantity > 0
  {
    forall a | a in Engagements(c, c.services, link)
      ensures a.Place? && a.purpose != Engagement(metric) && a.purpose != Followers &&
              a.order.link == link && a.order.quantity > 0
    {
      EngagementsMembers(c, c.services, link, a);
    }
  }

  /** With the shipped tables every link gets these five orders, in this order. */
  lemma ShippedEngagements(link: string)
    ensures Engagements(Shipped, Shipped.services, link) ==
      [Place(Engagement("likes"), Order(9326, link, 50)),
       Place(Engagement("retweets"), Order(5062, link, 10)),
       Place(Engagement("comments"), Order(98, link, 5)),
       Place(Engagement("bookmarks"), Order(1017, link, 20)),
       Place(Engagement("impressions"), Order(1375, link, 2000))]
  {
    var s := Shipped.services;
    var c := Shipped;
    assert QuantityFor(c, "likes") == 50 && QuantityFor(c, "retweets") == 10 &&
           QuantityFor(c, "comments") == 5 && QuantityFor(c, "bookmarks") == 20 &&
           QuantityFor(c, "impressions") == 2000;
    assert s[..1][..0] == [];
    assert Engagements(c, s[..1], link) == [Place(Engagement("likes"), Order(9326, link, 50))];
    assert s[..2][..1] == s[..1];
    assert Engagements(c, s[..2], link) == Engagements(c, s[..1], link) + [Place(Engagement("retweets"), Order(5062, link, 10))];
    assert s[..3][..2] == s[..2];
    assert Engagements(c, s[..3], link) == Engagements(c, s[..2], link) + [Place(Engagement("comments"), Order(98, link, 5))];
    assert s[..4][..3] == s[..3];
    assert Engagements(c, s[..4], link) == Engagements(c, s[..3], link) + [Place(Engagement("bookmarks"), Order(1017, link, 20))];
    assert s[..5][..4] == s[..4];
    assert s[..5] == s;
  }

  // ------------------------------------------------------------ one message

  /** A failed fetch changes nothing and flags nothing (lines 162-164); a
      fetched message without a link is flagged with no order at all
      (lines 185-189). */
  lemma StepWithoutLink(c: Catalog, s: PassState, m: Message)
    ensures m.FetchFailed? ==> Step(c, s, m) == s
    ensures m.Fetched? && ExtractFeedLink(m.hrefs).None? ==>
              Step(c, s, m) == s.(log := s.log + [MarkSeen(m.id)])
  {
  }

  /** A message with a link: the pass only appends to the log; it appends
      orders for that link, a follower order (with the catalog's follower
      service and quantity) only as the first of them, and then the
      message's flag as the last action. With the shipped tables
      that is six actions, or seven when the username was new. */
  lemma HandleLink(c: Catalog, s: PassState, id: nat, link: string)
    ensures var t := Handle(c, s, id, Some(link));
      |s.log| < |t.log| && t.log[..|s.log|] == s.log && t.log[|t.log| - 1] == MarkSeen(id) &&
      (forall k :: |s.log| <= k < |t.log| - 1 ==> t.log[k].Place? && t.log[k].order.link == link) &&
      (forall k :: |s.log| <= k < |t.log| - 1 && t.log[k].Place? && t.log[k].purpose == Followers ==>
                   k == |s.log|)
    ensures var t := Handle(c, s, id, Some(link));
      forall k :: |s.log| <= k < |t.log| && t.log[k].Place? && t.log[k].purpose == Followers ==>
                  t.log[k].order == Order(c.followerService, link, c.followerQuantity)
    ensures c == Shipped ==>
      |Handle(c, s, id, Some(link)).log| - |s.log| == 6 + (if Handle(c, s, id, Some(link)).seen != s.seen then 1 else 0)
  {
    var t := Handle(c, s, id, Some(link));
    var username := UserFromLink(link);
    var isNew := Truthy(username) && username.value !in s.seen;
    var follow := if isNew then [Place(Followers, Order(c.followerService, link, c.followerQuantity))] else [];
    var e := Engagements(c, c.services, link);
    assert t.log == s.log + follow + e + [MarkSeen(id)];
    forall k | 0 <= k < |e| ensures e[k].Place? && e[k].purpose != Followers && e[k].order.link == link {
      EngagementsMembers(c, c.services, link, e[k]);
    }
    forall k | |s.log| <= k < |t.log| - 1
      ensures t.log[k].Place? && t.log[k].order.link == link
      ensures t.log[k].purpose == Followers ==>
                k == |s.log| && t.log[k].order == Order(c.followerService, link, c.followerQuantity)
    {
      if k < |s.log| + |follow| {
        assert t.log[k] == follow[k - |s.log|];
      } else {
        assert t.log[k] == e[k - |s.log| - |follow|];
      }
    }
    if c == Shipped {
      ShippedEngagements(link);
    }
  }

  // ------------------------------------------------------------ usernames

  /** The username a link contributes to the seen set: the non-empty
      `link.split("/")[3]`, if there is a link. */
  function LinkUser(link: Option<string>): Option<string> {
    if link.Some? && Truthy(UserFromLink(link.value)) then UserFromLink(link.value) else None
  }

  /** The username a message contributes to the seen set. */
  function MessageUser(m: Message): Option<string> {
    if m.Fetched? then LinkUser(ExtractFeedLink(m.hrefs)) else None
  }

  /** The usernames the messages carry. */
  function LinkUsers(msgs: seq<Message>): set<string>
    decreases |msgs|
  {
    if msgs == [] then {}
    else
      var last := MessageUser(msgs[|msgs| - 1]);
      LinkUsers(msgs[..|msgs| - 1]) + (if last.Some? then {last.value} else {})
  }

  /** One message adds its username, if any, to the seen set, and raises the
      flag exactly when that username was new. */
  lemma HandleSeen(c: Catalog, s: PassState, id: nat, link: Option<string>)
    ensures Handle(c, s, id, link).seen == s.seen + (if LinkUser(link).Some? then {LinkUser(link).value} else {})
    ensures Handle(c, s, id, link).newFound <==> s.newFound || Handle(c, s, id, link).seen != s.seen
  {
    if LinkUser(link).Some? && LinkUser(link).value !in s.seen {
      assert LinkUser(link).value in Handle(c, s, id, link).seen;
    }
  }

  lemma StepSeen(c: Catalog, s: PassState, m: Message)
    ensures Step(c, s, m).seen == s.seen + (if MessageUser(m).Some? then {MessageUser(m).value} else {})
    ensures Step(c, s, m).newFound <==> s.newFound || Step(c, s, m).seen != s.seen
  {
    if m.Fetched? {
      HandleSeen(c, s, m.id, ExtractFeedLink(m.hrefs));
    }
  }

  /** The seen set after a pass is the set before it plus every username the
      messages carried, and the flag is raised exactly when the set grew. */
  lemma {:induction false} RunSeen(c: Catalog, s: PassState, msgs: seq<Message>)
    ensures Run(c, s, msgs).seen == s.seen + LinkUsers(msgs)
    ensures Run(c, s, msgs).newFound <==> s.newFound || Run(c, s, msgs).seen != s.seen
    decreases |msgs|
  {
    if msgs != [] {
      var init := msgs[..|msgs| - 1];
      RunSeen(c, s, init);
      StepSeen(c, Run(c, s, init), msgs[|msgs| - 1]);
    }
  }

  /** `new_accounts_found` is true after a pass exactly when some username
      of the pass was not in the seen set before it (lines 145, 202-211). */
  lemma NewAccountsFound(c: Catalog, seen: set<string>, log: seq<Action>, msgs: seq<Message>)
    ensures Run(c, PassState(seen, false, log), msgs).newFound <==>
            exists u :: u in LinkUsers(msgs) && u !in seen
  {
    var s := PassState(seen, false, log);
    RunSeen(c, s, msgs);
    var after := Run(c, s, msgs).seen;
    if after != seen {
      assert exists u :: u in after && u !in seen;
    }
  }

  /** Every username a link yields is a matched `[A-Za-z0-9_]+` user, so the
      username check of line 202 never sees a missing or empty one. */
  lemma MessageUserOfLink(m: Message)
    requires m.Fetched? && ExtractFeedLink(m.hrefs).Some?
    ensures MessageUser(m) == UserFromLink(ExtractFeedLink(m.hrefs).value)
    ensures MessageUser(m).Some? && IsRun(MessageUser(m).value, Word)
  {
    ExtractedLinkShape(m.hrefs);
  }

  // ---------------------------------------------------------- follower dedup

  /** `a` is a follower order for the account `u`. */
  predicate IsFollowerFor(a: Action, u: string) {
    a.Place? && a.purpose == Followers && UserFromLink(a.order.link) == Some(u)
  }

  /** How many follower orders for `u` the log holds. */
  function FollowerCount(log: seq<Action>, u: string): nat
    decreases |log|
  {
    if log == [] then 0
    else FollowerCount(log[..|log| - 1], u) + (if IsFollowerFor(log[|log| - 1], u) then 1 else 0)
  }

  lemma {:induction false} FollowerCountAppend(x: seq<Action>, y: seq<Action>, u: string)
    ensures FollowerCount(x + y, u) == FollowerCount(x, u) + FollowerCount(y, u)
    decreases |y|
  {
    if y == [] {
      assert x + y == x;
    } else {
      assert (x + y)[..|x + y| - 1] == x + y[..|y| - 1];
      FollowerCountAppend(x, y[..|y| - 1], u);
    }
  }

  lemma {:induction false} NoFollowerCount(log: seq<Action>, u: string)
    requires forall k :: 0 <= k < |log| ==> !(log[k].Place? && log[k].purpose == Followers)
    ensures FollowerCount(log, u) == 0
    decreases |log|
  {
    if log != [] {
      NoFollowerCount(log[..|log| - 1], u);
    }
  }

  /** One message adds a follower order for `u` exactly when it adds `u` to
      the seen set. */
  lemma HandleFollower(c: Catalog, s: PassState, id: nat, link: Option<string>, u: string)
    ensures FollowerCount(Handle(c, s, id, link).log, u) ==
            FollowerCount(s.log, u) + (if u in Handle(c, s, id, link).seen && u !in s.seen then 1 else 0)
  {
    NoFollowerCount([MarkSeen(id)], u);
    match link
    case None =>
      FollowerCountAppend(s.log, [MarkSeen(id)], u);
    case Some(l) =>
      var username := UserFromLink(l);
      var isNew := Truthy(username) && username.value !in s.seen;
      var follow := if isNew then [Place(Followers, Order(c.followerService, l, c.followerQuantity))] else [];
      var e := Engagements(c, c.services, l);
      forall k | 0 <= k < |e| ensures !(e[k].Place? && e[k].purpose == Followers) {
        EngagementsMembers(c, c.services, l, e[k]);
      }
      NoFollowerCount(e, u);
      assert FollowerCount(follow, u) == if isNew && username.value == u then 1 else 0 by {
        if isNew {
          assert follow[..0] == [];
        }
      }
      FollowerCountAppend(s.log, follow, u);
      FollowerCountAppend(s.log + follow, e, u);
      FollowerCountAppend(s.log + follow + e, [MarkSeen(id)], u);
  }

  lemma StepFollower(c: Catalog, s: PassState, m: Message, u: string)
    ensures FollowerCount(Step(c, s, m).log, u) ==
            FollowerCount(s.log, u) + (if u in Step(c, s, m).seen && u !in s.seen then 1 else 0)
  {
    if m.Fetched? {
      HandleFollower(c, s, m.id, ExtractFeedLink(m.hrefs), u);
    }
  }

  /** Follower dedup over a pass: an account the pass carries and that was
      not seen before gets exactly one follower order, however often it
      recurs; any other account gets none (lines 202-215). */
  lemma {:induction false} RunFollowerDedup(c: Catalog, s: PassState, msgs: seq<Message>, u: string)
    ensures FollowerCount(Run(c, s, msgs).log, u) ==
            FollowerCount(s.log, u) + (if u in LinkUsers(msgs) && u !in s.seen then 1 else 0)
    decreases |msgs|
  {
    if msgs != [] {
      var init := msgs[..|msgs| - 1];
      RunFollowerDedup(c, s, init, u);
      RunSeen(c, s, init);
      RunSeen(c, s, msgs);
      StepFollower(c, Run(c, s, init), msgs[|msgs| - 1], u);
    }
  }

  // --------------------------------------------------------- acknowledgement

  /** The ids the log flags `\Seen`. */
  function Acked(log: seq<Action>): set<nat>
    decreases |log|
  {
    if log == [] then {}
    else Acked(log[..|log| - 1]) + (if log[|log| - 1].MarkSeen? then {log[|log| - 1].id} else {})
  }

  /** The ids of the messages that were fetched. */
  function FetchedIds(msgs: seq<Message>): set<nat>
    decreases |msgs|
  {
    if msgs == [] then {}
    else FetchedIds(msgs[..|msgs| - 1]) + (if msgs[|msgs| - 1].Fetched? then {msgs[|msgs| - 1].id} else {})
  }

  lemma {:induction false} AckedAppend(x: seq<Action>, y: seq<Action>)
    ensures Acked(x + y) == Acked(x) + Acked(y)
    decreases |y|
  {
    if y == [] {
      assert x + y == x;
    } else {
      assert (x + y)[..|x + y| - 1] == x + y[..|y| - 1];
      AckedAppend(x, y[..|y| - 1]);
    }
  }

  lemma {:induction false} NoAcked(log: seq<Action>)
    requires forall k :: 0 <= k < |log| ==> log[k].Place?
    ensures Acked(log) == {}
    decreases |log|
  {
    if log != [] {
      NoAcked(log[..|log| - 1]);
    }
  }

  /** A fetched message flags its own id and no other. */
  lemma HandleAcked(c: Catalog, s: PassState, id: nat, link: Option<string>)
    ensures Acked(Handle(c, s, id, link).log) == Acked(s.log) + {id}
  {
    assert [MarkSeen(id)][..0] == [];
    match link
    case None =>
      AckedAppend(s.log, [MarkSeen(id)]);
    case Some(l) =>
      var username := UserFromLink(l);
      var isNew := Truthy(username) && username.value !in s.seen;
      var follow := if isNew then [Place(Followers, Order(c.followerService, l, c.followerQuantity))] else [];
      var e := Engagements(c, c.services, l);
      forall k | 0 <= k < |e| ensures e[k].Place? {
        EngagementsMembers(c, c.services, l, e[k]);
      }
      NoAcked(e);
      NoAcked(follow);
      AckedAppend(s.log, follow);
      AckedAppend(s.log + follow, e);
      AckedAppend(s.log + follow + e, [MarkSeen(id)]);
  }

  lemma StepAcked(c: Catalog, s: PassState, m: Message)
    ensures Acked(Step(c, s, m).log) == Acked(s.log) + (if m.Fetched? then {m.id} else {})
  {
    if m.Fetched? {
      HandleAcked(c, s, m.id, ExtractFeedLink(m.hrefs));
    }
  }

  /** A pass flags `\Seen` exactly the messages it fetched, whether or not
      they held a link (lines 162-164, 189, 230). */
  lemma {:induction false} RunAcked(c: Catalog, s: PassState, msgs: seq<Message>)
    ensures Acked(Run(c, s, msgs).log) == Acked(s.log) + FetchedIds(msgs)
    decreases |msgs|
  {
    if msgs != [] {
      var init := msgs[..|msgs| - 1];
      RunAcked(c, s, init);
      StepAcked(c, Run(c, s, init), msgs[|msgs| - 1]);
    }
  }

  /** A pass only appends to the log and only adds to the seen set. */
  lemma {:induction false} RunExtends(c: Catalog, s: PassState, msgs: seq<Message>)
    ensures |s.log| <= |Run(c, s, msgs).log| && Run(c, s, msgs).log[..|s.log|] == s.log
    ensures s.seen <= Run(c, s, msgs).seen
    decreases |msgs|
  {
    if msgs != [] {
      var init := msgs[..|msgs| - 1];
      RunExtends(c, s, init);
      var p := Run(c, s, init);
      StepSeen(c, p, msgs[|msgs| - 1]);
      assert Step(c, p, msgs[|msgs| - 1]).log[..|p.log|] == p.log;
    }
  }
}
