# x auto boost: link extraction and the mailbox pass

`create_x_auto_boost.py` polls a mailbox for unread feed notifications. It
finds the post link in each notification's HTML and normalises it to
`https://x.com/{user}/status/{id}`. For an account it has not seen before in
this process, it places one follower order. It then places one engagement
order per metric whose configured quantity is positive, and finally flags the
message `\Seen`.

This project models two parts of that program:

- **Link extractor** (`extract_feed_link_from_html`). It is pure, so the model
  uses functions and lemmas. Its regular expressions are written as patterns:
  literal leads, then a greedy `[A-Za-z0-9_]+` user run, `/status/`, a greedy
  `\d+` id run and a literal tail. `re.search` is the leftmost position where
  the anchored matcher succeeds. The computed matcher is proved equal to a
  declarative definition of "matches here with these groups".
- **Mailbox pass** (`process_mailbox`). It is imperative, so the model is a
  class `Booster`. Its field `seen` is `seen_accounts_memory`, and its field
  `log` records every order request and every `\Seen` flag, in order. The
  loops of the pass are `while` loops proved against a specification
  function `Run`. The dedup, ordering and acknowledgement properties are
  lemmas about `Run`.

Files:

- `strings.dfy`: options, the character classes, substring occurrence, and
  `str.split` on one character.
- `feed_link.dfy`: the patterns, the anchored matcher, `re.search`, the rule
  precedence, the document-order scan and the username split.
- `feed_link_forms.dfy`: the href shapes each rule recognises, and the proof
  that they all normalise to the same link.
- `boost.dfy`: the order tables, one pass as a specification function, and
  the `Booster` class.
- `boost_properties.dfy`: follower dedup, `new_accounts_found`, the
  engagement orders, ordering within a message, and acknowledgement.
- `scenarios.dfy`: whole passes over small mailboxes with the shipped tables.

The seen set is kept in memory only, as the comment at lines 8-10 says, so it
starts empty in every process.

## Model

| member | source | states |
|---|---|---|
| Strings.Span | create_x_auto_boost.py:65 | The greedy `[A-Za-z0-9_]+` or `\d+` run at a position: every character it covers is in the class, and the next one is not (or the string ends). |
| Strings.SpanOfRun | create_x_auto_boost.py:65 | A run of class characters followed by a non-class character is exactly what the greedy run consumes. |
| Strings.Split | create_x_auto_boost.py:195 | `str.split` on one character: at least one piece, no piece contains the separator, and joining the pieces gives the input back. |
| Strings.SplitJoin | create_x_auto_boost.py:195 | Splitting inverts joining, for pieces without the separator. |
| FeedLink.RulesSeparated | create_x_auto_boost.py:65 | In each of the three patterns, the literal after each group cannot continue that group, so backtracking never shortens the greedy runs. |
| FeedLink.FirstLead | create_x_auto_boost.py:114 | The first alternative of `https?://` or `(?:twitter\.com\|x\.com)` that occurs at a position, or none of them occurs there. |
| FeedLink.MatchAtCharacterised | create_x_auto_boost.py:65 | For the RSS pattern, and the same proof covers lines 114 and 123: the anchored matcher returns groups `p` at `j` if and only if a lead, the user, `/status/`, the id and the tail occur there in sequence, with no digit after the id when the tail is empty. |
| FeedLink.MatchWithHasSep | create_x_auto_boost.py:114 | Any match contains the separator `/status/`. |
| FeedLink.Search | create_x_auto_boost.py:105 | `re.search` returns a match at the first position where the pattern matches, with no match earlier, and it returns nothing exactly when no position matches. |
| FeedLink.SearchLeftmost | create_x_auto_boost.py:105 | The search finds groups `p` if and only if `p` are the groups at the leftmost matching position. It finds nothing if and only if no position matches. |
| FeedLink.SearchRuleLeftmost | create_x_auto_boost.py:114 | The same, stated for each of the three rules on an href. |
| FeedLink.ClassifyPrecedence | create_x_auto_boost.py:103-129 | An href yields `p` if and only if one of these holds: `p` is the leftmost RSS-mirror match; or no RSS-mirror match exists and `p` is the leftmost mirror match; or neither exists and `p` is the leftmost direct match. It yields nothing if and only if no rule matches anywhere. |
| FeedLink.ClassifySound | create_x_auto_boost.py:107-109 | A classified href gives a non-empty `[A-Za-z0-9_]` user and a non-empty digit id, and the href contains `status`. |
| FeedLink.StatusFilterRedundant | create_x_auto_boost.py:100 | The `'status' in href` pre-filter never changes the result: an href without `status` matches no rule. |
| FeedLink.FirstMatch | create_x_auto_boost.py:95-129 | The scan over hrefs returns the first href in document order that is accepted, and every earlier href is rejected. When it returns nothing, every href is rejected. |
| FeedLink.FirstMatchFirst | create_x_auto_boost.py:95-129 | The scan returns groups `p` if and only if some href is the first accepted one and yields `p`. |
| FeedLink.FirstMatchAgree | create_x_auto_boost.py:100 | Two classifications that agree on every href give the same scan result. |
| FeedLink.ExtractFirstInDocumentOrder | create_x_auto_boost.py:95-136 | The extracted link is the normalised link of the first href, in document order, that some rule classifies. The result is `None` if and only if no href is classified. |
| FeedLink.CanonicalUser | create_x_auto_boost.py:195 | Username round trip: `link.split("/")[3]` of `https://x.com/{user}/status/{id}` is `user`. |
| FeedLink.ExtractedLinkShape | create_x_auto_boost.py:193-199 | Every extracted link is `https://x.com/{user}/status/{id}` for a valid user and id. Its fourth `/`-separated piece is that non-empty user, so the fallback at lines 197-199 is never taken. |
| FeedLinkForms.ClassifyRssForm | create_x_auto_boost.py:105-111 | `https://rss.xcancel.com/{user}/status/{id}#m` is classified as `(user, id)`. |
| FeedLinkForms.ClassifyMirrorForm | create_x_auto_boost.py:113-120 | `https://xcancel.com/{user}/status/{id}` has no RSS-mirror match. The mirror pattern matches it at position 0 with groups `(user, id)`, so it is classified as `(user, id)`. |
| FeedLinkForms.ClassifyTwitterForm | create_x_auto_boost.py:122-129 | `https://twitter.com/{user}/status/{id}` matches neither mirror pattern. The direct pattern's leftmost match is at position 8 (the `twitter.com/` lead) with groups `(user, id)`, so it is classified as `(user, id)`. |
| FeedLinkForms.ClassifyCanonical | create_x_auto_boost.py:122-129 | The normalised link `https://x.com/{user}/status/{id}` is itself classified as `(user, id)`. |
| FeedLinkForms.ExtractSingle | create_x_auto_boost.py:95-111 | A document whose only href is classified as `p` yields the normalised link of `p`. |
| FeedLinkForms.FormsAgree | create_x_auto_boost.py:107-127 | All three href shapes, and the normalised link itself, yield the same normalised link for the same user and id. |
| Boost.Booster.constructor | create_x_auto_boost.py:10 | A process starts with an empty seen set and nothing done. |
| Boost.Booster.ProcessMailbox | create_x_auto_boost.py:145-230 | The loop over messages leaves the seen set and the action log equal to `Run` of the messages from the old state. It returns `new_accounts_found` as `Run` computes it, starting from `false`. |
| Boost.Booster.PlaceEngagements | create_x_auto_boost.py:220-227 | The loop over `SERVICES` leaves the seen set unchanged and appends exactly `Engagements` for the link. |
| BoostProperties.EngagementsMembers | create_x_auto_boost.py:220-225 | An action is among a link's engagement orders if and only if it is the order for some `SERVICES` entry with a positive quantity, carrying that entry's service id and quantity. |
| BoostProperties.DisabledMetricSkipped | create_x_auto_boost.py:221-224 | A metric whose quantity is zero or negative gets no order. Every engagement order is for the link, with a positive quantity, and is not a follower order. |
| BoostProperties.ShippedEngagements | create_x_auto_boost.py:40-54 | With the shipped tables, every link gets exactly five orders, in this order: likes 9326×50, retweets 5062×10, comments 98×5, bookmarks 1017×20, impressions 1375×2000. |
| BoostProperties.StepWithoutLink | create_x_auto_boost.py:161-189 | A failed fetch changes nothing and flags nothing. A fetched message without a link is flagged `\Seen` and gets no order. |
| BoostProperties.HandleLink | create_x_auto_boost.py:201-230 | A message with a link only appends to the log. Every order it adds is for that link, and a follower order can only come first. The message's `\Seen` flag comes last. Its follower order, if any, is `Order(followerService, link, followerQuantity)` (9011×300 in the shipped tables). With the shipped tables it adds six actions, or seven when the account was new. |
| BoostProperties.HandleSeen | create_x_auto_boost.py:202-211 | For one fetched message, the seen set gains the username of its link when there is one and it is non-empty. The flag is raised exactly when that username was new. |
| BoostProperties.StepSeen | create_x_auto_boost.py:202-211 | One message adds its username to the seen set, if it carries one. The flag is raised exactly when the set grew. |
| BoostProperties.RunSeen | create_x_auto_boost.py:160-211 | After a pass, the seen set is the old set plus every username the messages carried. `new_accounts_found` is raised exactly when the set grew. |
| BoostProperties.NewAccountsFound | create_x_auto_boost.py:145 | Starting from `false`, `new_accounts_found` ends true if and only if some username in the pass was not in the seen set before it. |
| BoostProperties.MessageUserOfLink | create_x_auto_boost.py:195-202 | Every message with a link contributes a non-empty `[A-Za-z0-9_]+` username, namely `link.split("/")[3]`. |
| BoostProperties.HandleFollower | create_x_auto_boost.py:202-208 | For one fetched message, a follower order for `u` is added exactly when `u` is added to the seen set. |
| BoostProperties.StepFollower | create_x_auto_boost.py:202-208 | One message adds one follower order for `u` exactly when it adds `u` to the seen set, and none otherwise. |
| BoostProperties.RunFollowerDedup | create_x_auto_boost.py:202-215 | Over a pass, an account that the messages carry and that was not seen before gets exactly one follower order, however often it recurs. Any other account gets none. |
| BoostProperties.HandleAcked | create_x_auto_boost.py:188-230 | A fetched message, with or without a link, flags its own id and no other. |
| BoostProperties.StepAcked | create_x_auto_boost.py:161-164 | One message flags its own id exactly when it was fetched. A failed fetch flags nothing. |
| BoostProperties.RunAcked | create_x_auto_boost.py:160-230 | A pass flags `\Seen` exactly the ids of the messages it fetched, with or without a link. Failed fetches are not flagged. |
| BoostProperties.RunExtends | create_x_auto_boost.py:160-230 | A pass only appends to the action log and only adds to the seen set. |
| Scenarios.RssNotification | create_x_auto_boost.py:105-111 | A notification with an RSS-mirror link yields the normalised link, whose username is the matched user. |
| Scenarios.RunOne | create_x_auto_boost.py:160 | A pass over one message is that message's step. |
| Scenarios.ScenarioNewAccount | create_x_auto_boost.py:184-230 | A new account from an RSS-mirror link, in this order: one follower order, the five engagement orders on the normalised link, then the flag. The account is remembered and reported as new. |
| Scenarios.ScenarioKnownAccount | create_x_auto_boost.py:213-230 | An account already seen gets no follower order. It still gets the five engagement orders and the flag, and it is not reported as new. |
| Scenarios.ShippedKnown | create_x_auto_boost.py:213-230 | With the shipped tables, a link whose account is already seen gets exactly the five engagement orders and its flag. The seen set and the flag are unchanged. |
| Scenarios.MirrorStepKnown | create_x_auto_boost.py:213-230 | A mirror-link message for an account already seen appends the five engagement orders and the flag, and nothing else. |
| Scenarios.ScenarioRepeatedAccount | create_x_auto_boost.py:202-215 | The same account twice in one pass, through two different mirrors, gets one follower order. Both messages get their five engagement orders and their flags. |
| Scenarios.ScenarioNoStatusLink | create_x_auto_boost.py:99-100 | A notification none of whose hrefs contains `status` is flagged `\Seen` with no order, whatever the tables and the state. |
| Scenarios.ScenarioDisabledMetric | create_x_auto_boost.py:222-224 | With the comments quantity set to 0, the other four orders are still placed in order, and no comments order is placed. |

## Left out

- The IMAP session is not modelled: login, `INBOX` selection, the unseen search and its failure return (lines 141-157), and the logout in `finally` (lines 241-246). A pass takes the server's messages as its input sequence.
- `create_jap_order` (lines 67-86) is not modelled. It is an HTTP request, and the pass never inspects its outcome, so each call is one `Place` entry in the action log.
- HTML parsing with BeautifulSoup (lines 92-97) is not modelled. A fetched message is the list of its `<a href>` values, in document order.
- MIME decoding is not modelled: the choice of the HTML part, the plain-text fallback and charset decoding (lines 165-182). Bad bytes never raise, because decoding uses `errors="replace"`. Two cases do raise. First, a multipart message with no `text/html` part: `get_payload(decode=True)` returns `None` at line 181, and `.decode` then raises AttributeError. Second, a charset name Python does not know raises LookupError. In both cases the `except` at line 239 ends the pass early, and the remaining messages stay unflagged. The model has no such exception path.
- The 1.2-second delays (lines 212 and 227), the poll loop and its sleep (lines 271-282), logging, the `.env` configuration and the credential check are not modelled.
- `new_accounts_found` is only logged by the program (lines 233-237). `Booster.ProcessMailbox` returns it, so that it can be stated.
- Message ids are natural numbers here; on the server they are byte strings.
- Strings.InClass: `\d` is modelled as the ASCII digits. In Python `str` patterns, `\d` also matches other Unicode decimal digits.
- FeedLinkForms.FormsAgree: the shapes are proved with the `https://` scheme. The `http://` alternatives are covered by `FeedLink.MatchAtCharacterised`, but not by a concrete-form lemma.
