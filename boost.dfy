/** One pass of `process_mailbox` in create_x_auto_boost.py (lines 158-237):
    for each unseen notification, the link its HTML carries, a follower order
    for an account not seen before in this process, one engagement order per
    enabled metric, and the `\Seen` flag. The IMAP session, the HTTP calls and
    the MIME decoding are outside the model: a message arrives either as a
    failed fetch or as the hrefs of its HTML body, and every order request
    and every flag stored is an entry of an action log whose outcome the pass
    never inspects. */
module Boost {
  import opened Strings
  import opened FeedLink

  /** The order tables of lines 40-58: `SERVICES` in its iteration order,
      `QUANTITIES`, and the follower order's service and quantity. */
  datatype Catalog = Catalog(services: seq<(string, int)>, quantities: map<string, int>,
                             followerService: int, followerQuantity: int)

  const Shipped: Catalog :=
    Catalog([("likes", 9326), ("retweets", 5062), ("comments", 98), ("bookmarks", 1017), ("impressions", 1375)],
            map["likes" := 50, "retweets" := 10, "comments" := 5, "bookmarks" := 20, "impressions" := 2000],
            9011, 300)

  /** `QUANTITIES.get(metric, 0)` (line 221). */
  function QuantityFor(c: Catalog, metric: string): int {
    if metric in c.quantities then c.quantities[metric] else 0
  }

  /** The arguments of one `create_jap_order(service_id, link, quantity)` call. */
  datatype Order = Order(service: int, link: string, quantity: int)

  /** Why an order is placed: the follower boost, or an engagement metric. */
  datatype Purpose = Followers | Engagement(metric: string)

  /** What a pass does to the outside world, in order: an order request, or
      `M.store(msgid, "+FLAGS", "\\Seen")`. */
  datatype Action = Place(purpose: Purpose, order: Order) | MarkSeen(id: nat)

  /** A message returned by the unseen search: its fetch failed, or it was
      fetched and its HTML body holds these hrefs in document order. */
  datatype Message = FetchFailed(id: nat) | Fetched(id: nat, hrefs: seq<string>)

  /** The engagement order for one `SERVICES` entry, if its quantity is positive. */
  function EngagementFor(c: Catalog, entry: (string, int), link: string): seq<Action> {
    var qty := QuantityFor(c, entry.0);
    if qty <= 0 then [] else [Place(Engagement(entry.0), Order(entry.1, link, qty))]
  }

  /** The engagement orders of lines 220-227 for the entries `services`. */
  function Engagements(c: Catalog, services: seq<(string, int)>, link: string): seq<Action>
    decreases |services|
  {
    if services == [] then []
    else Engagements(c, services[..|services| - 1], link) + EngagementFor(c, services[|services| - 1], link)
  }

  /** Python truthiness of `username` at line 202: present and non-empty. */
  predicate Truthy(username: Option<string>) {
    username.Some? && username.value != ""
  }

  /** The state a pass carries from message to message: `seen_accounts_memory`,
      `new_accounts_found` and everything done so far. */
  datatype PassState = PassState(seen: set<string>, newFound: bool, log: seq<Action>)

  /** Lines 184-230 for a fetched message whose extracted link is `link`. */
  function Handle(c: Catalog, s: PassState, id: nat, link: Option<string>): PassState {
    match link
    case None => s.(log := s.log + [MarkSeen(id)])
    case Some(l) =>
      var username := UserFromLink(l);
      var isNew := Truthy(username) && username.value !in s.seen;
      var follow := if isNew then [Place(Followers, Order(c.followerService, l, c.followerQuantity))] else [];
      PassState(if isNew then s.seen + {username.value} else s.seen,
                s.newFound || isNew,
                s.log + follow + Engagements(c, c.services, l) + [MarkSeen(id)])
  }

  /** Lines 161-230 for one message. */
  function Step(c: Catalog, s: PassState, m: Message): PassState {
    match m
    case FetchFailed(_) => s
    case Fetched(id, hrefs) => Handle(c, s, id, ExtractFeedLink(hrefs))
  }

  /** The pass over the messages, in the order the server returned them. */
  function Run(c: Catalog, s: PassState, msgs: seq<Message>): PassState
    decreases |msgs|
  {
    if msgs == [] then s else Step(c, Run(c, s, msgs[..|msgs| - 1]), msgs[|msgs| - 1])
  }

  /** The `seen_accounts_memory` set and the action log, updated in place. */
  class Booster {
    const catalog: Catalog
    var seen: set<string>
    var log: seq<Action>

    /** The process starts with nothing seen (line 10) and nothing done. */
    constructor(catalog: Catalog)
      ensures this.catalog == catalog && seen == {} && log == []
    {
      this.catalog := catalog;
      seen := {};
      log := [];
    }

    /** The message loop of `process_mailbox` (lines 160-230); the result is
        `new_accounts_found`. */
    method ProcessMailbox(msgs: seq<Message>) returns (newAccountsFound: bool)
      modifies this
      ensures PassState(seen, newAccountsFound, log) == Run(catalog, PassState(old(seen), false, old(log)), msgs)
    {
      newAccountsFound := false;
      var i := 0;
      while i < |msgs|
        invariant 0 <= i <= |msgs|
        invariant PassState(seen, newAccountsFound, log) ==
                  Run(catalog, PassState(old(seen), false, old(log)), msgs[..i])
      {
        assert msgs[..i + 1][..i] == msgs[..i];
        var m := msgs[i];
        if m.Fetched? {
          var link := ExtractFeedLink(m.hrefs);
          if link.Some? {
            var username := UserFromLink(link.value);
            if Truthy(username) && username.value !in seen {
              log := log + [Place(Followers, Order(catalog.followerService, link.value, catalog.followerQuantity))];
              seen := seen + {username.value};
              newAccountsFound := true;
            }
            PlaceEngagements(link.value);
          }
          log := log + [MarkSeen(m.id)];
        }
        i := i + 1;
      }
      assert msgs[..i] == msgs;
    }

    /** The loop over `SERVICES` (lines 220-227): one order per entry whose
        quantity is positive, in iteration order. */
    method PlaceEngagements(link: string)
      modifies this
      ensures seen == old(seen) && log == old(log) + Engagements(catalog, catalog.services, link)
    {
      var k := 0;
      while k < |catalog.services|
        invariant 0 <= k <= |catalog.services|
        invariant seen == old(seen)
        invariant log == old(log) + Engagements(catalog, catalog.services[..k], link)
      {
        assert catalog.services[..k + 1][..k] == catalog.services[..k];
        var (metric, sid) := catalog.services[k];
        var qty := QuantityFor(catalog, metric);
        if qty > 0 {
          log := log + [Place(Engagement(metric), Order(sid, link, qty))];
        }
        k := k + 1;
      }
      assert catalog.services[..k] == catalog.services;
    }
  }
}
