/** The three href shapes the extractor recognises, each with a literal
    prefix, and what it returns for them: the same normalised link for the
    same user and id (lines 65, 114 and 123 of create_x_auto_boost.py). */
module FeedLinkForms {
  import opened Strings
  import opened FeedLink

  /** An href `prefix + user + "/status/" + id + tail`. */
  function Form(prefix: string, p: Post, tail: string): string {
    prefix + p.user + StatusSep + p.id + tail
  }

  function RssForm(p: Post): string {
    Form("https://rss.xcancel.com/", p, "#m")
  }

  function MirrorForm(p: Post): string {
    Form("https://xcancel.com/", p, "")
  }

  function TwitterForm(p: Post): string {
    Form("https://twitter.com/", p, "")
  }

  /** A character that cannot occur in the groups, the separator or the tail
      occurs in a form only inside its prefix. */
  lemma FormChar(prefix: string, p: Post, tail: string, c: char, i: nat)
    requires ValidPost(p) && !InClass(c, Word) && c !in StatusSep && c !in tail
    ensures i < |Form(prefix, p, tail)| && Form(prefix, p, tail)[i] == c ==>
              i < |prefix| && prefix[i] == c
  {
    var h := Form(prefix, p, tail);
    assert forall k :: 0 <= k < |p.id| ==> InClass(p.id[k], Word);
  }

  /** Where `c` occurs only at `at` in the prefix, it occurs only there in the form. */
  lemma FormCharOnly(prefix: string, p: Post, tail: string, c: char, at: nat)
    requires ValidPost(p) && !InClass(c, Word) && c !in StatusSep && c !in tail
    requires forall i :: 0 <= i < |prefix| && prefix[i] == c ==> i == at
    ensures forall i :: 0 <= i < |Form(prefix, p, tail)| && Form(prefix, p, tail)[i] == c ==> i == at
  {
    forall i | 0 <= i < |Form(prefix, p, tail)| && Form(prefix, p, tail)[i] == c
      ensures i == at
    {
      FormChar(prefix, p, tail, c, i);
    }
  }

  /** The groups, the separator and the tail sit right after the prefix. */
  lemma FormRest(prefix: string, p: Post, pat: Pattern)
    requires ValidPost(p) && pat.sep == StatusSep
    ensures RestAt(pat, Form(prefix, p, pat.tail), |prefix|, p)
  {
  }

  /** A lead at the end of the prefix starts a match of the whole form. */
  lemma FormMatchAt(r: Rule, prefix: string, p: Post, j: nat, i: nat)
    requires ValidPost(p) && i < |PatternOf(r).leads|
    requires j + |PatternOf(r).leads[i]| == |prefix| && OccursAt(PatternOf(r).leads[i], prefix, j)
    ensures j <= |Form(prefix, p, PatternOf(r).tail)|
    ensures MatchAt(r, Form(prefix, p, PatternOf(r).tail), j) == Some(p)
  {
    var pat := PatternOf(r);
    var h := Form(prefix, p, pat.tail);
    RulesSeparated(r);
    FormRest(prefix, p, pat);
    assert OccursAt(pat.leads[i], h, j);
    assert IsMatch(r, h, j, p);
    MatchAtCharacterised(r, h, j, p);
  }

  /** No lead of the pattern at `i`, no match there. */
  lemma NoLeadNoMatch(pat: Pattern, h: string, i: nat)
    requires i <= |h| && forall k :: 0 <= k < |pat.leads| ==> !OccursAt(pat.leads[k], h, i)
    ensures MatchWith(pat, h, i) == None
  {
    assert FirstLead(pat.leads, h, i, 0).None?;
  }

  /** No lead of the rule before `j`. */
  ghost predicate LeadFreeBefore(r: Rule, h: string, j: nat) {
    forall i, k :: 0 <= i < j && 0 <= k < |PatternOf(r).leads| ==> !OccursAt(PatternOf(r).leads[k], h, i)
  }

  /** A rule none of whose leads occurs anywhere finds nothing. */
  lemma NoLeadNoHit(r: Rule, h: string)
    requires LeadFreeBefore(r, h, |h| + 1)
    ensures SearchRule(r, h) == None
  {
    forall i: nat | i <= |h| ensures Anchored(r, h)(i).None? {
      NoLeadNoMatch(PatternOf(r), h, i);
    }
  }

  /** The search stops at the first position where the matcher succeeds. */
  lemma SearchFinds(anchored: nat -> Option<Post>, len: nat, j: nat, p: Post)
    requires j <= len && anchored(j) == Some(p)
    requires forall i :: 0 <= i < j ==> anchored(i).None?
    ensures Search(anchored, len, 0) == Some(Hit(j, p))
  {
  }

  /** A match at `j` with no lead of the rule before it is what `re.search` finds. */
  lemma FirstHitAt(r: Rule, h: string, j: nat, p: Post)
    requires j <= |h| && MatchAt(r, h, j) == Some(p) && LeadFreeBefore(r, h, j)
    ensures SearchRule(r, h) == Some(Hit(j, p))
  {
    forall i: nat | i < j ensures Anchored(r, h)(i).None? {
      NoLeadNoMatch(PatternOf(r), h, i);
    }
    SearchFinds(Anchored(r, h), |h|, j, p);
  }

  /** A lead with character `c` at `at`, where `c` occurs in `h` only at
      `only`, can start at `i` only if `i + at == only`; a differing character
      rules that one position out too. */
  lemma NoLeadBy(lead: string, h: string, i: nat, c: char, at: nat, only: nat, diff: nat)
    requires at < |lead| && lead[at] == c && diff < |lead|
    requires forall j :: 0 <= j < |h| && h[j] == c ==> j == only
    requires i + at == only && i + diff < |h| ==> h[i + diff] != lead[diff]
    ensures !OccursAt(lead, h, i)
  {
    OccursCharIf(lead, h, i, at);
    OccursCharIf(lead, h, i, diff);
  }

  lemma NoMirrorHit(r: Rule, prefix: string, p: Post, tail: string, diff: nat)
    requires r != Direct && ValidPost(p) && ':' !in tail
    requires forall i :: 0 <= i < |prefix| && prefix[i] == ':' ==> i == 5
    requires |prefix| > 1 && prefix[1] == 't'
    requires diff < |prefix| && diff < |PatternOf(r).leads[0]| && prefix[diff] != PatternOf(r).leads[0][diff]
    ensures SearchRule(r, Form(prefix, p, tail)) == None
  {
    var h := Form(prefix, p, tail);
    FormCharOnly(prefix, p, tail, ':', 5);
    forall i, k | 0 <= i < |h| + 1 && 0 <= k < |PatternOf(r).leads|
      ensures !OccursAt(PatternOf(r).leads[k], h, i)
    {
      if k == 0 {
        NoLeadBy(PatternOf(r).leads[0], h, i, ':', 5, 5, diff);
      } else {
        NoLeadBy(PatternOf(r).leads[1], h, i, ':', 4, 5, 0);
      }
    }
    NoLeadNoHit(r, h);
  }

  /** The RSS pattern takes its own form. */
  lemma ClassifyRssForm(p: Post)
    requires ValidPost(p)
    ensures Classify(RssForm(p)) == Some(p)
  {
    FormMatchAt(RssMirror, "https://rss.xcancel.com/", p, 0, 0);
    FirstHitAt(RssMirror, RssForm(p), 0, p);
  }

  /** The mirror form is not an RSS link, and the mirror pattern takes it. */
  lemma ClassifyMirrorForm(p: Post)
    requires ValidPost(p)
    ensures SearchRule(RssMirror, MirrorForm(p)) == None
    ensures SearchRule(Mirror, MirrorForm(p)) == Some(Hit(0, p))
    ensures Classify(MirrorForm(p)) == Some(p)
  {
    NoMirrorHit(RssMirror, "https://xcancel.com/", p, "", 8);
    FormMatchAt(Mirror, "https://xcancel.com/", p, 0, 0);
    FirstHitAt(Mirror, MirrorForm(p), 0, p);
  }

  /** In a direct form, neither direct lead occurs before `at`, given the only
      `.` of the form and, for `twitter.com/`, a second character to tell it apart. */
  lemma DirectFreeBefore(prefix: string, p: Post, dot: nat, diff: nat, at: nat)
    requires ValidPost(p)
    requires forall i :: 0 <= i < |prefix| && prefix[i] == '.' ==> i == dot
    requires at + 1 <= dot
    requires at + 7 <= dot || (7 <= dot && diff < 12 && dot - 7 + diff < |prefix| &&
                               prefix[dot - 7 + diff] != "twitter.com/"[diff])
    ensures LeadFreeBefore(Direct, Form(prefix, p, ""), at)
  {
    var h := Form(prefix, p, "");
    FormCharOnly(prefix, p, "", '.', dot);
    forall i, k | 0 <= i < at && 0 <= k < |PatternOf(Direct).leads|
      ensures !OccursAt(PatternOf(Direct).leads[k], h, i)
    {
      if k == 0 {
        NoLeadBy("twitter.com/", h, i, '.', 7, dot, if at + 7 <= dot then 0 else diff);
      } else {
        NoLeadBy("x.com/", h, i, '.', 1, dot, 0);
      }
    }
  }

  lemma TwitterFormNoRss(p: Post)
    requires ValidPost(p)
    ensures SearchRule(RssMirror, TwitterForm(p)) == None
  {
    NoMirrorHit(RssMirror, "https://twitter.com/", p, "", 8);
  }

  lemma TwitterFormNoMirror(p: Post)
    requires ValidPost(p)
    ensures SearchRule(Mirror, TwitterForm(p)) == None
  {
    NoMirrorHit(Mirror, "https://twitter.com/", p, "", 8);
  }

  lemma TwitterFormDirect(p: Post)
    requires ValidPost(p)
    ensures SearchRule(Direct, TwitterForm(p)) == Some(Hit(8, p))
  {
    DirectFreeBefore("https://twitter.com/", p, 15, 0, 8);
    FormMatchAt(Direct, "https://twitter.com/", p, 8, 0);
    FirstHitAt(Direct, TwitterForm(p), 8, p);
  }

  /** The twitter.com form is no mirror link, and the direct pattern takes it
      from position 8. */
  lemma ClassifyTwitterForm(p: Post)
    requires ValidPost(p)
    ensures SearchRule(RssMirror, TwitterForm(p)) == None
    ensures SearchRule(Mirror, TwitterForm(p)) == None
    ensures SearchRule(Direct, TwitterForm(p)) == Some(Hit(8, p))
    ensures Classify(TwitterForm(p)) == Some(p)
  {
    TwitterFormNoRss(p);
    TwitterFormNoMirror(p);
    TwitterFormDirect(p);
  }

  /** The normalised link is the form with the `https://x.com/` prefix. */
  lemma CanonicalForm(p: Post)
    ensures Canonical(p) == Form("https://x.com/", p, "")
  {
  }

  lemma CanonicalNoRss(p: Post)
    requires ValidPost(p)
    ensures SearchRule(RssMirror, Canonical(p)) == None
  {
    CanonicalForm(p);
    NoMirrorHit(RssMirror, "https://x.com/", p, "", 8);
  }

  lemma CanonicalNoMirror(p: Post)
    requires ValidPost(p)
    ensures SearchRule(Mirror, Canonical(p)) == None
  {
    CanonicalForm(p);
    NoMirrorHit(Mirror, "https://x.com/", p, "", 9);
  }

  lemma CanonicalDirect(p: Post)
    requires ValidPost(p)
    ensures SearchRule(Direct, Canonical(p)) == Some(Hit(8, p))
  {
    CanonicalForm(p);
    DirectFreeBefore("https://x.com/", p, 9, 1, 8);
    FormMatchAt(Direct, "https://x.com/", p, 8, 1);
    FirstHitAt(Direct, Canonical(p), 8, p);
  }

  /** The extractor's own output is a direct link to the same post. */
  lemma ClassifyCanonical(p: Post)
    requires ValidPost(p)
    ensures Classify(Canonical(p)) == Some(p)
  {
    CanonicalNoRss(p);
    CanonicalNoMirror(p);
    CanonicalDirect(p);
  }

  /** A document whose only href is classified as `p` yields `Canonical(p)`. */
  lemma ExtractSingle(h: string, p: Post)
    requires Classify(h) == Some(p)
    ensures ExtractFeedLink([h]) == Some(Canonical(p))
  {
    StatusFilterRedundant(h);
    assert FirstMatch(Candidate, [h], 0) == Some(Found(0, p));
  }

  /** All three patterns yield the same normalised link for the same user and
      id, and the normalised link is a fixed point of the extractor. */
  lemma FormsAgree(p: Post)
    requires ValidPost(p)
    ensures ExtractFeedLink([RssForm(p)]) == Some(Canonical(p))
    ensures ExtractFeedLink([MirrorForm(p)]) == Some(Canonical(p))
    ensures ExtractFeedLink([TwitterForm(p)]) == Some(Canonical(p))
    ensures ExtractFeedLink([Canonical(p)]) == Some(Canonical(p))
  {
    ClassifyRssForm(p);
    ExtractSingle(RssForm(p), p);
    ClassifyMirrorForm(p);
    ExtractSingle(MirrorForm(p), p);
    ClassifyTwitterForm(p);
    ExtractSingle(TwitterForm(p), p);
    ClassifyCanonical(p);
    ExtractSingle(Canonical(p), p);
  }
}
