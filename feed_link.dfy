/** The link extractor of create_x_auto_boost.py: classification of the
    `href` targets of a notification e-mail, in document order, by three
    regular expressions tried in a fixed order, and normalisation of the
    first hit to `https://x.com/{user}/status/{id}`.

    A regular expression here is a list of literal leads (its alternatives,
    e.g. `https?://` spelled out), a `[A-Za-z0-9_]+` user run, the literal
    `/status/`, a `\d+` id run and a literal tail. Neither character class
    contains the literal that follows it, so Python's backtracking matcher
    always returns the greedy runs; `re.search` returns the match at the
    leftmost position where one exists. */
module FeedLink {
  import opened Strings

  /** The three patterns of lines 65, 114 and 123. */
  datatype Rule = RssMirror | Mirror | Direct

  /** A pattern of the shape `lead ([A-Za-z0-9_]+) sep (\d+) tail`: `leads`
      are its literal alternatives for the opening (`s?` and `(?:a|b)`
      spelled out, in the order the matcher tries them), `sep` the literal
      between the two groups and `tail` the literal it ends with. */
  datatype Pattern = Pattern(leads: seq<string>, sep: string, tail: string)

  const StatusSep: string := "/status/"

  function PatternOf(r: Rule): Pattern {
    match r
    case RssMirror => Pattern(["https://rss.xcancel.com/", "http://rss.xcancel.com/"], StatusSep, "#m")
    case Mirror => Pattern(["https://xcancel.com/", "http://xcancel.com/"], StatusSep, "")
    case Direct => Pattern(["twitter.com/", "x.com/"], StatusSep, "")
  }

  /** The literal after each group cannot continue that group, so the greedy
      runs are the only ones a backtracking matcher can return. */
  predicate Separated(pat: Pattern) {
    |pat.sep| > 0 && !InClass(pat.sep[0], Word) &&
    (pat.tail != "" ==> !InClass(pat.tail[0], Digit))
  }

  lemma RulesSeparated(r: Rule)
    ensures Separated(PatternOf(r)) && PatternOf(r).sep == StatusSep
  {
    assert StatusSep[0] == '/';
  }

  /** The two captured groups of a match. */
  datatype Post = Post(user: string, id: string)

  predicate ValidPost(p: Post) {
    IsRun(p.user, Word) && IsRun(p.id, Digit)
  }

  /** The normalised link every rule produces. */
  function Canonical(p: Post): string {
    "https://x.com/" + p.user + StatusSep + p.id
  }

  /** Reference definition of the part of a match after its lead, at `a`:
      the user, the separator, the id and the tail occur one after the other
      from there, and the id is not followed by a further digit (the greedy
      `\d+` takes them all; after a non-empty tail nothing more is consumed). */
  ghost predicate RestAt(pat: Pattern, h: string, a: nat, p: Post) {
    var b := a + |p.user|;
    var c := b + |pat.sep|;
    var e := c + |p.id|;
    ValidPost(p) && OccursAt(p.user, h, a) && OccursAt(pat.sep, h, b) &&
    OccursAt(p.id, h, c) && OccursAt(pat.tail, h, e) &&
    (pat.tail == "" ==> e == |h| || !InClass(h[e], Digit))
  }

  /** Reference definition of "`pat` matches `h` at `j` with groups `p`": one
      of the leads occurs at `j` and the rest of the pattern right after it. */
  ghost predicate IsMatchWith(pat: Pattern, h: string, j: nat, p: Post) {
    exists i :: 0 <= i < |pat.leads| && OccursAt(pat.leads[i], h, j) &&
      RestAt(pat, h, j + |pat.leads[i]|, p)
  }

  /** Rule `r` matches `h` at `j` with groups `p`. */
  ghost predicate IsMatch(r: Rule, h: string, j: nat, p: Post) {
    IsMatchWith(PatternOf(r), h, j, p)
  }

  /** Index of the first lead in `leads[from..]` that occurs at `j`. */
  function FirstLead(leads: seq<string>, h: string, j: nat, from: nat): (k: Option<nat>)
    requires from <= |leads|
    ensures k.Some? ==> from <= k.value < |leads| && OccursAt(leads[k.value], h, j)
    ensures k.Some? ==> forall i :: from <= i < k.value ==> !OccursAt(leads[i], h, j)
    ensures k.None? ==> forall i :: from <= i < |leads| ==> !OccursAt(leads[i], h, j)
    decreases |leads| - from
  {
    if from == |leads| then None
    else if OccursAt(leads[from], h, j) then Some(from)
    else FirstLead(leads, h, j, from + 1)
  }

  /** The part of a match after its lead, starting at `a`: the greedy user
      run, the separator, the greedy id run and the tail. */
  function AfterLead(pat: Pattern, h: string, a: nat): Option<Post>
    requires a <= |h|
  {
    var n := Span(h, a, Word);
    var b := a + n;
    if n == 0 || !OccursAt(pat.sep, h, b) then None
    else
      var c := b + |pat.sep|;
      var d := Span(h, c, Digit);
      if d == 0 || !OccursAt(pat.tail, h, c + d) then None
      else Some(Post(h[a..b], h[c..c + d]))
  }

  /** The match of `pat` anchored at position `j`, if any. */
  function MatchWith(pat: Pattern, h: string, j: nat): Option<Post>
    requires j <= |h|
  {
    match FirstLead(pat.leads, h, j, 0)
    case None => None
    case Some(k) => AfterLead(pat, h, j + |pat.leads[k]|)
  }

  /** The match of rule `r` anchored at position `j`, if any. */
  function MatchAt(r: Rule, h: string, j: nat): Option<Post>
    requires j <= |h|
  {
    MatchWith(PatternOf(r), h, j)
  }

  lemma AfterLeadSound(pat: Pattern, h: string, a: nat)
    requires a <= |h| && AfterLead(pat, h, a).Some?
    ensures RestAt(pat, h, a, AfterLead(pat, h, a).value)
  {
  }

  lemma AfterLeadComplete(pat: Pattern, h: string, a: nat, p: Post)
    requires a <= |h| && Separated(pat) && RestAt(pat, h, a, p)
    ensures AfterLead(pat, h, a) == Some(p)
  {
    var b := a + |p.user|;
    var c := b + |pat.sep|;
    var e := c + |p.id|;
    OccursCharIf(pat.sep, h, b, 0);
    SpanOfRun(h, a, p.user, Word);
    if pat.tail != "" {
      OccursCharIf(pat.tail, h, e, 0);
    }
    SpanOfRun(h, c, p.id, Digit);
    AfterLeadIntro(pat, h, a, p);
  }

  /** `AfterLead` succeeds with `p` once its four steps do. */
  lemma AfterLeadIntro(pat: Pattern, h: string, a: nat, p: Post)
    requires a + |p.user| <= |h| && 0 < |p.user| == Span(h, a, Word)
    requires h[a..a + |p.user|] == p.user && OccursAt(pat.sep, h, a + |p.user|)
    requires a + |p.user| + |pat.sep| + |p.id| <= |h|
    requires 0 < |p.id| == Span(h, a + |p.user| + |pat.sep|, Digit)
    requires h[a + |p.user| + |pat.sep|..a + |p.user| + |pat.sep| + |p.id|] == p.id
    requires OccursAt(pat.tail, h, a + |p.user| + |pat.sep| + |p.id|)
    ensures AfterLead(pat, h, a) == Some(p)
  {
  }

  /** At most one lead of a rule occurs at a given position. */
  lemma LeadsExclusive(r: Rule, h: string, j: nat, k1: nat, k2: nat)
    requires k1 < |PatternOf(r).leads| && k2 < |PatternOf(r).leads|
    requires OccursAt(PatternOf(r).leads[k1], h, j) && OccursAt(PatternOf(r).leads[k2], h, j)
    ensures k1 == k2
  {
    var at := if r == Direct then 0 else 4;
    OccursCharIf(PatternOf(r).leads[k1], h, j, at);
    OccursCharIf(PatternOf(r).leads[k2], h, j, at);
  }

  /** No two leads of a pattern occur at the same position. */
  ghost predicate LeadsDisjointAt(leads: seq<string>, h: string, j: nat) {
    forall k1, k2 ::
      (0 <= k1 < |leads| && 0 <= k2 < |leads| &&
       OccursAt(leads[k1], h, j) && OccursAt(leads[k2], h, j)) ==> k1 == k2
  }

  lemma LeadsDisjoint(r: Rule, h: string, j: nat)
    ensures LeadsDisjointAt(PatternOf(r).leads, h, j)
  {
    var leads := PatternOf(r).leads;
    forall k1, k2 | 0 <= k1 < |leads| && 0 <= k2 < |leads| &&
      OccursAt(leads[k1], h, j) && OccursAt(leads[k2], h, j)
      ensures k1 == k2
    {
      LeadsExclusive(r, h, j, k1, k2);
    }
  }

  lemma MatchWithSound(pat: Pattern, h: string, j: nat, p: Post)
    requires j <= |h| && MatchWith(pat, h, j) == Some(p)
    ensures IsMatchWith(pat, h, j, p)
  {
    var k := FirstLead(pat.leads, h, j, 0).value;
    var a := j + |pat.leads[k]|;
    assert AfterLead(pat, h, a) == Some(p);
    AfterLeadSound(pat, h, a);
    assert 0 <= k < |pat.leads| && OccursAt(pat.leads[k], h, j) && RestAt(pat, h, a, p);
  }

  lemma MatchWithComplete(pat: Pattern, h: string, j: nat, p: Post)
    requires j <= |h| && Separated(pat) && LeadsDisjointAt(pat.leads, h, j)
    requires IsMatchWith(pat, h, j, p)
    ensures MatchWith(pat, h, j) == Some(p)
  {
    var i :| 0 <= i < |pat.leads| && OccursAt(pat.leads[i], h, j) &&
      RestAt(pat, h, j + |pat.leads[i]|, p);
    assert FirstLead(pat.leads, h, j, 0) == Some(i);
    AfterLeadComplete(pat, h, j + |pat.leads[i]|, p);
  }

  /** The computed anchored match is exactly the reference match: the
      regular expression's groups at `j` are `p` if and only if `IsMatch`. */
  lemma MatchAtCharacterised(r: Rule, h: string, j: nat, p: Post)
    requires j <= |h|
    ensures MatchAt(r, h, j) == Some(p) <==> IsMatch(r, h, j, p)
  {
    if MatchAt(r, h, j) == Some(p) {
      MatchWithSound(PatternOf(r), h, j, p);
    }
    if IsMatch(r, h, j, p) {
      RulesSeparated(r);
      LeadsDisjoint(r, h, j);
      MatchWithComplete(PatternOf(r), h, j, p);
    }
  }

  /** A match always contains the pattern's separator. */
  lemma MatchWithHasSep(pat: Pattern, h: string, j: nat)
    requires j <= |h| && MatchWith(pat, h, j).Some?
    ensures Contains(h, pat.sep)
  {
    var k := FirstLead(pat.leads, h, j, 0).value;
    var a := j + |pat.leads[k]|;
    assert OccursAt(pat.sep, h, a + Span(h, a, Word));
  }

  /** `/status/` contains `status`. */
  lemma StatusInSep(h: string)
    requires Contains(h, StatusSep)
    ensures Contains(h, "status")
  {
    var b: nat :| b <= |h| && OccursAt(StatusSep, h, b);
    assert StatusSep == "/" + ("status" + "/");
    OccursSplit("/", "status" + "/", h, b);
    OccursSplit("status", "/", h, b + 1);
  }

  /** Where `re.search` reports a match. */
  datatype Hit = Hit(pos: nat, post: Post)

  /** `re.search` from position `from`, given the anchored matcher of a
      pattern over a string of length `len`: the leftmost position (up to and
      including the end of the string) where the pattern matches. */
  function Search(anchored: nat -> Option<Post>, len: nat, from: nat): (hit: Option<Hit>)
    requires from <= len
    ensures hit.Some? ==> from <= hit.value.pos <= len &&
                          anchored(hit.value.pos) == Some(hit.value.post)
    ensures hit.Some? ==> forall j :: from <= j < hit.value.pos ==> anchored(j).None?
    ensures hit.None? ==> forall j :: from <= j <= len ==> anchored(j).None?
    decreases len - from
  {
    var m := anchored(from);
    if m.Some? then Some(Hit(from, m.value))
    else if from == len then None
    else Search(anchored, len, from + 1)
  }

  /** `p` are the groups at the leftmost position where `anchored` matches. */
  ghost predicate LeftmostIs(anchored: nat -> Option<Post>, len: nat, p: Post) {
    exists j: nat :: j <= len && anchored(j) == Some(p) &&
      forall i: nat :: i < j ==> anchored(i).None?
  }

  /** `anchored` matches at no position. */
  ghost predicate Nowhere(anchored: nat -> Option<Post>, len: nat) {
    forall j: nat :: j <= len ==> anchored(j).None?
  }

  /** The search from the start finds exactly the leftmost match. */
  lemma SearchLeftmost(anchored: nat -> Option<Post>, len: nat, p: Post)
    ensures Search(anchored, len, 0) == None <==> Nowhere(anchored, len)
    ensures Search(anchored, len, 0).Some? && Search(anchored, len, 0).value.post == p <==>
            LeftmostIs(anchored, len, p)
  {
    var s := Search(anchored, len, 0);
    if LeftmostIs(anchored, len, p) {
      var j: nat :| j <= len && anchored(j) == Some(p) &&
        forall i: nat :: i < j ==> anchored(i).None?;
      assert s.Some?;
      assert s.value.pos == j;
    }
    if s.Some? {
      assert anchored(s.value.pos) == Some(s.value.post);
    }
  }

  /** The anchored matcher of rule `r` on `h`. */
  function Anchored(r: Rule, h: string): nat -> Option<Post> {
    (j: nat) => if j <= |h| then MatchAt(r, h, j) else None
  }

  /** `re.search(pattern, h)` for the pattern of rule `r`. */
  function SearchRule(r: Rule, h: string): Option<Hit> {
    Search(Anchored(r, h), |h|, 0)
  }

  /** `p` are the groups of the leftmost match of rule `r` in `h`. */
  ghost predicate Leftmost(r: Rule, h: string, p: Post) {
    LeftmostIs(Anchored(r, h), |h|, p)
  }

  /** Rule `r` matches nowhere in `h`. */
  ghost predicate NoMatch(r: Rule, h: string) {
    Nowhere(Anchored(r, h), |h|)
  }

  /** `re.search` with rule `r`: no result exactly when the rule matches
      nowhere, and otherwise the groups of its leftmost match. */
  lemma SearchRuleLeftmost(r: Rule, h: string, p: Post)
    ensures SearchRule(r, h) == None <==> NoMatch(r, h)
    ensures SearchRule(r, h).Some? && SearchRule(r, h).value.post == p <==> Leftmost(r, h, p)
  {
    SearchLeftmost(Anchored(r, h), |h|, p);
  }

  /** Lines 105-129 once the `'status' in href` test has passed: the three
      patterns in order, the first that matches anywhere wins. */
  function Classify(h: string): Option<Post> {
    var rss := SearchRule(RssMirror, h);
    if rss.Some? then Some(rss.value.post)
    else
      var mirror := SearchRule(Mirror, h);
      if mirror.Some? then Some(mirror.value.post)
      else
        var direct := SearchRule(Direct, h);
        if direct.Some? then Some(direct.value.post) else None
  }

  /** Rule precedence: the result is the leftmost match of the first rule, in
      the order RSS mirror, mirror, direct, that matches anywhere in the href;
      no match of any rule gives no result. */
  lemma ClassifyPrecedence(h: string, p: Post)
    ensures Classify(h) == Some(p) <==>
      Leftmost(RssMirror, h, p) ||
      (NoMatch(RssMirror, h) && Leftmost(Mirror, h, p)) ||
      (NoMatch(RssMirror, h) && NoMatch(Mirror, h) && Leftmost(Direct, h, p))
    ensures Classify(h) == None <==>
      NoMatch(RssMirror, h) && NoMatch(Mirror, h) && NoMatch(Direct, h)
  {
    SearchRuleLeftmost(RssMirror, h, p);
    SearchRuleLeftmost(Mirror, h, p);
    SearchRuleLeftmost(Direct, h, p);
  }

  /** Every classified href yields valid groups and contains `status`. */
  lemma ClassifySound(h: string)
    requires Classify(h).Some?
    ensures ValidPost(Classify(h).value)
    ensures Contains(h, "status")
  {
    var r := if SearchRule(RssMirror, h).Some? then RssMirror
             else if SearchRule(Mirror, h).Some? then Mirror else Direct;
    var hit := SearchRule(r, h).value;
    assert MatchAt(r, h, hit.pos) == Some(hit.post);
    MatchAtCharacterised(r, h, hit.pos, hit.post);
    MatchWithHasSep(PatternOf(r), h, hit.pos);
    RulesSeparated(r);
    StatusInSep(h);
  }

  /** Lines 99-129 for one href: skipped unless it contains `status`. */
  function Candidate(h: string): Option<Post> {
    if Contains(h, "status") then Classify(h) else None
  }

  /** The `status` pre-filter at line 100 never changes the outcome: an href
      without `status` matches no rule. */
  lemma StatusFilterRedundant(h: string)
    ensures Candidate(h) == Classify(h)
    ensures !Contains(h, "status") ==> Classify(h) == None
  {
    if Classify(h).Some? {
      ClassifySound(h);
    }
  }

  /** The first href (from index `from`) that `classify` accepts. */
  datatype Found = Found(index: nat, post: Post)

  function FirstMatch(classify: string -> Option<Post>, hrefs: seq<string>, from: nat): (f: Option<Found>)
    requires from <= |hrefs|
    ensures f.Some? ==> from <= f.value.index < |hrefs| &&
                        classify(hrefs[f.value.index]) == Some(f.value.post)
    ensures f.Some? ==> forall k :: from <= k < f.value.index ==> classify(hrefs[k]).None?
    ensures f.None? ==> forall k :: from <= k < |hrefs| ==> classify(hrefs[k]).None?
    decreases |hrefs| - from
  {
    if from == |hrefs| then None
    else
      match classify(hrefs[from])
      case Some(p) => Some(Found(from, p))
      case None => FirstMatch(classify, hrefs, from + 1)
  }

  /** `p` comes from href `k`, and no earlier href is accepted. */
  ghost predicate FirstAccepted(classify: string -> Option<Post>, hrefs: seq<string>, k: int, p: Post) {
    0 <= k < |hrefs| && classify(hrefs[k]) == Some(p) &&
    forall i :: 0 <= i < k ==> classify(hrefs[i]).None?
  }

  /** The search through the hrefs stops at exactly the first accepted one. */
  lemma FirstMatchFirst(classify: string -> Option<Post>, hrefs: seq<string>, p: Post)
    ensures (exists k :: FirstAccepted(classify, hrefs, k, p)) <==>
            FirstMatch(classify, hrefs, 0).Some? && FirstMatch(classify, hrefs, 0).value.post == p
  {
    var f := FirstMatch(classify, hrefs, 0);
    if exists k :: FirstAccepted(classify, hrefs, k, p) {
      var k :| FirstAccepted(classify, hrefs, k, p);
      assert f.Some? && f.value.index == k;
    }
    if f.Some? && f.value.post == p {
      assert FirstAccepted(classify, hrefs, f.value.index, p);
    }
  }

  /** Two classifiers that agree on every href find the same first href. */
  lemma {:induction false} FirstMatchAgree(f: string -> Option<Post>, g: string -> Option<Post>,
                                           hrefs: seq<string>, from: nat)
    requires from <= |hrefs|
    requires forall k :: from <= k < |hrefs| ==> f(hrefs[k]) == g(hrefs[k])
    ensures FirstMatch(f, hrefs, from) == FirstMatch(g, hrefs, from)
    decreases |hrefs| - from
  {
    if from < |hrefs| {
      FirstMatchAgree(f, g, hrefs, from + 1);
    }
  }

  /** `extract_feed_link_from_html` on the document's hrefs, in order. */
  function ExtractFeedLink(hrefs: seq<string>): Option<string> {
    match FirstMatch(Candidate, hrefs, 0)
    case Some(f) => Some(Canonical(f.post))
    case None => None
  }

  /** The result comes from the first href in document order that some rule
      classifies; when no href is classified the result is `None`. */
  lemma ExtractFirstInDocumentOrder(hrefs: seq<string>)
    ensures forall k, p :: FirstAccepted(Classify, hrefs, k, p) ==>
              ExtractFeedLink(hrefs) == Some(Canonical(p))
    ensures ExtractFeedLink(hrefs) == None <==> forall k :: 0 <= k < |hrefs| ==> Classify(hrefs[k]).None?
  {
    forall k | 0 <= k < |hrefs| ensures Candidate(hrefs[k]) == Classify(hrefs[k]) {
      StatusFilterRedundant(hrefs[k]);
    }
    FirstMatchAgree(Candidate, Classify, hrefs, 0);
    forall k, p | FirstAccepted(Classify, hrefs, k, p)
      ensures ExtractFeedLink(hrefs) == Some(Canonical(p))
    {
      FirstMatchFirst(Classify, hrefs, p);
    }
  }

  /** `link.split("/")[3]` (line 195): `None` where Python raises IndexError. */
  function UserFromLink(link: string): Option<string> {
    var parts := Split(link, '/');
    if |parts| > 3 then Some(parts[3]) else None
  }

  /** Username round trip: the fourth `/`-separated piece of a canonical link
      is the matched user. */
  lemma CanonicalUser(p: Post)
    requires ValidPost(p)
    ensures UserFromLink(Canonical(p)) == Some(p.user)
  {
    var parts := ["https:", "", "x.com", p.user, "status", p.id];
    assert Join(parts[5..], '/') == p.id;
    assert Join(parts[4..], '/') == "status" + "/" + p.id;
    assert Join(parts[3..], '/') == p.user + "/" + ("status" + "/" + p.id);
    assert Join(parts[2..], '/') == "x.com" + "/" + (p.user + "/" + ("status" + "/" + p.id));
    assert Join(parts[1..], '/') == "" + "/" + ("x.com" + "/" + (p.user + "/" + ("status" + "/" + p.id)));
    assert Join(parts, '/') == "https:" + "/" + ("" + "/" + ("x.com" + "/" + (p.user + "/" + ("status" + "/" + p.id))));
    assert Join(parts, '/') == Canonical(p);
    assert forall k :: 0 <= k < |p.user| ==> p.user[k] != '/';
    assert forall k :: 0 <= k < |p.id| ==> p.id[k] != '/';
    SplitJoin(parts, '/');
  }

  /** Any link the extractor returns is `https://x.com/{user}/status/{id}` with
      a non-empty `[A-Za-z0-9_]` user and a non-empty digit id, and splitting
      it on `/` gives back that user, so the username branch at lines 197-199
      cannot be taken for it. */
  lemma ExtractedLinkShape(hrefs: seq<string>)
    requires ExtractFeedLink(hrefs).Some?
    ensures exists p :: ValidPost(p) && ExtractFeedLink(hrefs).value == Canonical(p) &&
                        UserFromLink(Canonical(p)) == Some(p.user) && p.user != ""
  {
    var f := FirstMatch(Candidate, hrefs, 0).value;
    StatusFilterRedundant(hrefs[f.index]);
    ClassifySound(hrefs[f.index]);
    CanonicalUser(f.post);
  }
}
