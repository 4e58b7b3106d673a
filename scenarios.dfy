/** Whole passes over concrete mailboxes with the shipped order tables. */
module Scenarios {
  import opened Strings
  import opened FeedLink
  import opened FeedLinkForms
  import opened Boost
  import opened BoostProperties

  /** The five engagement orders of the shipped tables for a link. */
  function ShippedOrders(link: string): seq<Action> {
    [Place(Engagement("likes"), Order(9326, link, 50)),
     Place(Engagement("retweets"), Order(5062, link, 10)),
     Place(Engagement("comments"), Order(98, link, 5)),
     Place(Engagement("bookmarks"), Order(1017, link, 20)),
     Place(Engagement("impressions"), Order(1375, link, 2000))]
  }

  /** A notification whose only href is the RSS mirror link of a post. */
  lemma RssNotification(p: Post)
    requires ValidPost(p)
    ensures ExtractFeedLink([RssForm(p)]) == Some(Canonical(p))
    ensures UserFromLink(Canonical(p)) == Some(p.user) && Truthy(Some(p.user))
  {
    ClassifyRssForm(p);
    ExtractSingle(RssForm(p), p);
    CanonicalUser(p);
  }

  /** A single-message pass is one step. */
  lemma RunOne(c: Catalog, s: PassState, m: Message)
    ensures Run(c, s, [m]) == Step(c, s, m)
  {
    assert [m][..0] == [];
  }

  /** A new account: one follower order, the five engagement orders for the
      normalised link, the flag; the account is remembered and the pass
      reports a new account. */
  lemma ScenarioNewAccount(p: Post, id: nat)
    requires ValidPost(p)
    ensures Run(Shipped, PassState({}, false, []), [Fetched(id, [RssForm(p)])]) ==
            PassState({p.user}, true,
                      [Place(Followers, Order(9011, Canonical(p), 300))] + ShippedOrders(Canonical(p)) + [MarkSeen(id)])
  {
    RssNotification(p);
    ShippedEngagements(Canonical(p));
    RunOne(Shipped, PassState({}, false, []), Fetched(id, [RssForm(p)]));
  }

  /** A known account: no follower order, the same five engagement orders,
      the flag, and no new account reported. */
  lemma ScenarioKnownAccount(p: Post, id: nat)
    requires ValidPost(p)
    ensures Run(Shipped, PassState({p.user}, false, []), [Fetched(id, [RssForm(p)])]) ==
            PassState({p.user}, false, ShippedOrders(Canonical(p)) + [MarkSeen(id)])
  {
    RssNotification(p);
    ShippedEngagements(Canonical(p));
    RunOne(Shipped, PassState({p.user}, false, []), Fetched(id, [RssForm(p)]));
  }

  /** With the shipped tables, a link whose account is already seen gets the
      five engagement orders and the flag, and nothing else changes. */
  lemma ShippedKnown(s: PassState, id: nat, link: string, user: string)
    requires UserFromLink(link) == Some(user) && user in s.seen
    ensures Handle(Shipped, s, id, Some(link)) == s.(log := s.log + ShippedOrders(link) + [MarkSeen(id)])
  {
    ShippedEngagements(link);
  }

  /** A mirror-link notification for an account already seen. */
  lemma MirrorStepKnown(p: Post, id: nat, s: PassState)
    requires ValidPost(p) && p.user in s.seen
    ensures Step(Shipped, s, Fetched(id, [MirrorForm(p)])) ==
            s.(log := s.log + ShippedOrders(Canonical(p)) + [MarkSeen(id)])
  {
    ClassifyMirrorForm(p);
    ExtractSingle(MirrorForm(p), p);
    CanonicalUser(p);
    ShippedKnown(s, id, Canonical(p), p.user);
  }

  /** The same account twice in one pass, once through each mirror: the
      second message gets no follower order. */
  lemma ScenarioRepeatedAccount(p: Post, id1: nat, id2: nat)
    requires ValidPost(p)
    ensures Run(Shipped, PassState({}, false, []),
                [Fetched(id1, [RssForm(p)]), Fetched(id2, [MirrorForm(p)])]) ==
            PassState({p.user}, true,
                      [Place(Followers, Order(9011, Canonical(p), 300))] + ShippedOrders(Canonical(p)) +
                      [MarkSeen(id1)] + ShippedOrders(Canonical(p)) + [MarkSeen(id2)])
  {
    var msgs := [Fetched(id1, [RssForm(p)]), Fetched(id2, [MirrorForm(p)])];
    assert msgs[..1] == [Fetched(id1, [RssForm(p)])];
    ScenarioNewAccount(p, id1);
    MirrorStepKnown(p, id2, Run(Shipped, PassState({}, false, []), msgs[..1]));
  }

  /** A notification none of whose hrefs mentions `status` is flagged with no
      order, whatever the tables and the state. */
  lemma ScenarioNoStatusLink(c: Catalog, s: PassState, id: nat, hrefs: seq<string>)
    requires forall k :: 0 <= k < |hrefs| ==> !Contains(hrefs[k], "status")
    ensures Run(c, s, [Fetched(id, hrefs)]) == s.(log := s.log + [MarkSeen(id)])
  {
    forall k | 0 <= k < |hrefs| ensures Classify(hrefs[k]).None? {
      StatusFilterRedundant(hrefs[k]);
    }
    ExtractFirstInDocumentOrder(hrefs);
    RunOne(c, s, Fetched(id, [] + hrefs));
    assert [] + hrefs == hrefs;
  }

  /** A metric configured with quantity 0 gets no order; the others keep theirs. */
  lemma ScenarioDisabledMetric(link: string)
    ensures var c := Shipped.(quantities := Shipped.quantities["comments" := 0]);
      Engagements(c, c.services, link) ==
        [Place(Engagement("likes"), Order(9326, link, 50)),
         Place(Engagement("retweets"), Order(5062, link, 10)),
         Place(Engagement("bookmarks"), Order(1017, link, 20)),
         Place(Engagement("impressions"), Order(1375, link, 2000))]
  {
    var c := Shipped.(quantities := Shipped.quantities["comments" := 0]);
    var s := c.services;
    assert QuantityFor(c, "likes") == 50 && QuantityFor(c, "retweets") == 10 &&
           QuantityFor(c, "comments") == 0 && QuantityFor(c, "bookmarks") == 20 &&
           QuantityFor(c, "impressions") == 2000;
    assert s[..1][..0] == [];
    assert Engagements(c, s[..1], link) == [Place(Engagement("likes"), Order(9326, link, 50))];
    assert s[..2][..1] == s[..1];
    assert Engagements(c, s[..2], link) == Engagements(c, s[..1], link) + [Place(Engagement("retweets"), Order(5062, link, 10))];
    assert s[..3][..2] == s[..2];
    assert Engagements(c, s[..3], link) == Engagements(c, s[..2], link);
    assert s[..4][..3] == s[..3];
    assert Engagements(c, s[..4], link) == Engagements(c, s[..3], link) + [Place(Engagement("bookmarks"), Order(1017, link, 20))];
    assert s[..5][..4] == s[..4];
    assert s[..5] == s;
  }
}
