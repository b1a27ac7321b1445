/**
 * The keyword co-occurrence graph built from collected posts, and the clean-up
 * applied to post texts before they are stored.
 *
 * A record is one search hit: the text of a post (under "text", or under
 * "testo" as a fall-back) and the keyword whose search found it. The same post
 * can come back from several searches, so records are first grouped by text:
 * a post is a distinct non-empty text, tagged with the set of keywords that
 * found it. Every keyword of the keyword list is a node whose count is the
 * number of posts it tags; two different listed keywords are joined by an
 * undirected edge whose weight is the number of posts they both tag.
 */
module Cooccurrence {
  import opened Wrappers
  import opened AdjacencyMatrix
  import Reachability
  import Metrics

  // ---------------------------------------------------------------------
  // Text clean-up

  /** Every double quote becomes a single quote; nothing else changes. */
  function ReplaceQuotes(s: string): (r: string)
    ensures |r| == |s|
    ensures forall i | 0 <= i < |s| :: r[i] == (if s[i] == '"' then '\'' else s[i])
  {
    if s == [] then []
    else
      var last := s[|s| - 1];
      ReplaceQuotes(s[..|s| - 1]) + [if last == '"' then '\'' else last]
  }

  /** A missing or empty text cleans to ""; any other text has its double
      quotes replaced, keeping its length, and no double quote is left. */
  function CleanText(text: Option<string>): (r: string)
    ensures text.None? ==> r == ""
    ensures text.Some? ==> |r| == |text.value|
    ensures '"' !in r
  {
    match text
    case None => ""
    case Some(s) => if s == "" then "" else ReplaceQuotes(s)
  }

  /** Cleaning changes exactly the double quotes, each into a single quote. */
  lemma CleanTextChangesOnlyQuotes(s: string, i: nat)
    requires i < |s|
    ensures CleanText(Some(s))[i] == '\'' <==> s[i] == '"' || s[i] == '\''
    ensures s[i] != '"' ==> CleanText(Some(s))[i] == s[i]
  {
  }

  /** Cleaning a cleaned text changes nothing. */
  lemma CleanTextIdempotent(text: Option<string>)
    ensures CleanText(Some(CleanText(text))) == CleanText(text)
  {
    var once := CleanText(text);
    var twice := CleanText(Some(once));
    assert |twice| == |once|;
    forall i | 0 <= i < |once|
      ensures twice[i] == once[i]
    {
      assert once[i] != '"';
    }
  }

  // ---------------------------------------------------------------------
  // Records and the posts they describe

  datatype Record = Record(text: Option<string>, testo: Option<string>, keyword: string)

  /** The text a record is filed under: its "text" when that is present and
      non-empty, otherwise its "testo", and "" when that is missing too. */
  function PostText(r: Record): string
  {
    if r.text.Some? && r.text.value != "" then r.text.value
    else if r.testo.Some? then r.testo.value
    else ""
  }

  /** The distinct non-empty texts of the records. */
  function Posts(records: seq<Record>): set<string>
  {
    set r | r in records && PostText(r) != "" :: PostText(r)
  }

  /** The keywords whose records carry text t. */
  function KeywordsOf(records: seq<Record>, t: string): set<string>
  {
    set r | r in records && PostText(r) == t :: r.keyword
  }

  /** The posts tagged with every keyword of ks. */
  function Support(records: seq<Record>, ks: set<string>): set<string>
  {
    set t | t in Posts(records) && ks <= KeywordsOf(records, t)
  }

  /** The number of posts tagged with k. */
  function PostCount(records: seq<Record>, k: string): nat
  {
    |Support(records, {k})|
  }

  /** The number of posts tagged with both u and v. */
  function CoCount(records: seq<Record>, u: string, v: string): nat
  {
    |Support(records, {u, v})|
  }

  /** Appending one record adds its text to the posts when that text is
      non-empty, and its keyword to the keywords of that text. */
  lemma RecordAppended(records: seq<Record>, r: Record)
    ensures Posts(records + [r]) == Posts(records) + (if PostText(r) != "" then {PostText(r)} else {})
    ensures forall t :: KeywordsOf(records + [r], t) ==
                        KeywordsOf(records, t) + (if PostText(r) == t then {r.keyword} else {})
  {
    var rs := records + [r];
    assert forall q :: q in rs <==> q in records || q == r;
  }

  /** A record without text changes no count and no co-occurrence. */
  lemma EmptyTextIgnored(records: seq<Record>, r: Record)
    requires PostText(r) == ""
    ensures forall ks :: Support(records + [r], ks) == Support(records, ks)
    ensures forall k :: PostCount(records + [r], k) == PostCount(records, k)
    ensures forall u, v :: CoCount(records + [r], u, v) == CoCount(records, u, v)
  {
    RecordAppended(records, r);
  }

  /** A record repeating the text and keyword of an earlier one changes
      nothing: a post is counted once however many records carry it. */
  lemma RepeatedRecordIgnored(records: seq<Record>, q: Record, r: Record)
    requires q in records && PostText(q) == PostText(r) && q.keyword == r.keyword
    ensures forall ks :: Support(records + [r], ks) == Support(records, ks)
    ensures forall k :: PostCount(records + [r], k) == PostCount(records, k)
    ensures forall u, v :: CoCount(records + [r], u, v) == CoCount(records, u, v)
  {
    RecordAppended(records, r);
    if PostText(r) != "" {
      assert PostText(r) in Posts(records);
    }
    forall t
      ensures KeywordsOf(records + [r], t) == KeywordsOf(records, t)
    {
      if PostText(r) == t {
        assert r.keyword in KeywordsOf(records, t);
      }
    }
  }

  /** A record whose keyword is not in ks leaves the posts tagged with all of
      ks unchanged (ks non-empty). */
  lemma SupportWithoutKeyword(records: seq<Record>, r: Record, ks: set<string>)
    requires ks != {} && r.keyword !in ks
    ensures Support(records + [r], ks) == Support(records, ks)
  {
    RecordAppended(records, r);
    var k :| k in ks;
    forall t | t in Support(records + [r], ks)
      ensures t in Support(records, ks)
    {
      assert k in KeywordsOf(records, t);
      var q :| q in records && PostText(q) == t && q.keyword == k;
      assert t in Posts(records);
    }
  }

  /** A record for a keyword outside the keyword list changes no count and no
      co-occurrence of listed keywords. */
  lemma UnlistedKeywordIgnored(records: seq<Record>, allKw: seq<string>, r: Record)
    requires r.keyword !in allKw
    ensures forall k | k in allKw :: PostCount(records + [r], k) == PostCount(records, k)
    ensures forall u, v | u in allKw && v in allKw :: CoCount(records + [r], u, v) == CoCount(records, u, v)
  {
    forall k | k in allKw
      ensures PostCount(records + [r], k) == PostCount(records, k)
    {
      SupportWithoutKeyword(records, r, {k});
    }
    forall u, v | u in allKw && v in allKw
      ensures CoCount(records + [r], u, v) == CoCount(records, u, v)
    {
      SupportWithoutKeyword(records, r, {u, v});
    }
  }

  /** A keyword no record names is in no post. */
  lemma UnmentionedKeywordCountsZero(records: seq<Record>, k: string)
    requires forall r | r in records :: r.keyword != k
    ensures PostCount(records, k) == 0
  {
    assert Support(records, {k}) == {};
  }

  /** Two keywords co-occur exactly when some post is tagged with both. */
  lemma CoCountPositiveIffShared(records: seq<Record>, u: string, v: string)
    ensures CoCount(records, u, v) >= 1 <==>
      exists t :: t in Posts(records) && u in KeywordsOf(records, t) && v in KeywordsOf(records, t)
  {
    if CoCount(records, u, v) >= 1 {
      var t :| t in Support(records, {u, v});
    }
    if exists t :: t in Posts(records) && u in KeywordsOf(records, t) && v in KeywordsOf(records, t) {
      var t :| t in Posts(records) && u in KeywordsOf(records, t) && v in KeywordsOf(records, t);
      assert t in Support(records, {u, v});
    }
  }

  /** Two keywords share no more posts than either of them has. */
  lemma CoCountAtMostPostCounts(records: seq<Record>, u: string, v: string)
    ensures CoCount(records, u, v) <= PostCount(records, u)
    ensures CoCount(records, u, v) <= PostCount(records, v)
  {
    Reachability.SubsetNoLarger(Support(records, {u, v}), Support(records, {u}));
    Reachability.SubsetNoLarger(Support(records, {u, v}), Support(records, {v}));
  }

  /** Co-occurrence does not depend on the order of the two keywords. */
  lemma CoCountSymmetric(records: seq<Record>, u: string, v: string)
    ensures CoCount(records, u, v) == CoCount(records, v, u)
  {
    assert {u, v} == {v, u};
  }

  // ---------------------------------------------------------------------
  // Sequences of distinct strings

  predicate Distinct(xs: seq<string>)
  {
    forall i, j | 0 <= i < j < |xs| :: xs[i] != xs[j]
  }

  /** The first position of x in xs. */
  function IndexOf(xs: seq<string>, x: string): (i: nat)
    requires x in xs
    ensures i < |xs| && xs[i] == x
    ensures forall j | 0 <= j < i :: xs[j] != x
  {
    if xs[0] == x then 0 else 1 + IndexOf(xs[1..], x)
  }

  lemma IndexOfDistinct(xs: seq<string>, p: nat)
    requires Distinct(xs) && p < |xs|
    ensures IndexOf(xs, xs[p]) == p
  {
  }

  /** The list without repetitions, each element kept where it first occurs
      (the node order of a graph that adds the list's keywords one by one). */
  function Dedup(xs: seq<string>): (ys: seq<string>)
    ensures forall y :: y in ys <==> y in xs
    ensures Distinct(ys)
  {
    if xs == [] then []
    else
      var front := xs[..|xs| - 1];
      var last := xs[|xs| - 1];
      assert xs == front + [last];
      var kept := Dedup(front);
      if last in kept then kept else kept + [last]
  }

  /** The first position of x does not move when xs is extended at the back. */
  lemma IndexOfExtended(xs: seq<string>, y: string, x: string)
    requires x in xs
    ensures IndexOf(xs + [y], x) == IndexOf(xs, x)
  {
    var i, j := IndexOf(xs + [y], x), IndexOf(xs, x);
    assert (xs + [y])[j] == x;
    assert i <= j;
    assert xs[i] == x;
  }

  /** Dedup lists the keywords in the order of their first occurrence. */
  lemma {:induction false} DedupFirstOccurrenceOrder(xs: seq<string>)
    ensures forall p, q | 0 <= p < q < |Dedup(xs)| ::
      IndexOf(xs, Dedup(xs)[p]) < IndexOf(xs, Dedup(xs)[q])
  {
    if xs != [] {
      var front, last := xs[..|xs| - 1], xs[|xs| - 1];
      assert xs == front + [last];
      var kept := Dedup(front);
      DedupFirstOccurrenceOrder(front);
      forall y | y in kept
        ensures IndexOf(xs, y) == IndexOf(front, y) < |front|
      {
        IndexOfExtended(front, last, y);
      }
      if last !in kept {
        assert IndexOf(xs, last) == |front|;
        assert Dedup(xs) == kept + [last];
      }
    }
  }

  // ---------------------------------------------------------------------
  // The graph

  /** Nodes in insertion order, the count of each keyword, and the weight of
      each edge; an undirected edge {u, v} is stored under (u, v) and (v, u). */
  datatype KeywordGraph = KeywordGraph(
    nodes: seq<string>,
    count: map<string, nat>,
    weight: map<(string, string), nat>)

  /** The weight of edge (u, v), 0 when there is no such edge. */
  function Weight(w: map<(string, string), nat>, u: string, v: string): nat
  {
    if (u, v) in w then w[(u, v)] else 0
  }

  /** The co-occurrence graph of the records over the keyword list: every
      listed keyword is a node counting its posts; two different listed
      keywords are joined exactly when they share a post, with the number of
      shared posts as weight; no other edge exists. */
  ghost predicate IsCooccurrenceGraph(g: KeywordGraph, records: seq<Record>, allKw: seq<string>)
  {
    g.nodes == Dedup(allKw) &&
    (forall k :: k in g.count <==> k in allKw) &&
    (forall k | k in g.count :: g.count[k] == PostCount(records, k)) &&
    (forall u, v :: Weight(g.weight, u, v) ==
       if u != v && u in allKw && v in allKw then CoCount(records, u, v) else 0) &&
    (forall e | e in g.weight :: g.weight[e] >= 1)
  }

  // ---------------------------------------------------------------------
  // Building it

  /** The grouping of the records rs: the distinct non-empty texts, each
      once, and for each the set of keywords of its records. */
  ghost predicate Grouped(rs: seq<Record>, order: seq<string>, groups: map<string, set<string>>)
  {
    Distinct(order) &&
    (forall t :: t in order <==> t in Posts(rs)) &&
    groups.Keys == Posts(rs) &&
    (forall t | t in groups :: groups[t] == KeywordsOf(rs, t))
  }

  /** Files one more record: a record with text adds its keyword to that
      text's group, opening the group when the text is new. */
  method FileRecord(rs: seq<Record>, r: Record, order: seq<string>, groups: map<string, set<string>>)
    returns (order': seq<string>, groups': map<string, set<string>>)
    requires Grouped(rs, order, groups)
    ensures Grouped(rs + [r], order', groups')
  {
    RecordAppended(rs, r);
    order', groups' := order, groups;
    var txt := PostText(r);
    if txt != "" {
      if txt !in groups' {
        groups' := groups'[txt := {}];
        order' := order' + [txt];
      }
      groups' := groups'[txt := groups'[txt] + {r.keyword}];
    }
  }

  /** Groups the records by text: the distinct non-empty texts in order of
      first appearance, and the keywords found for each. */
  method GroupByText(records: seq<Record>) returns (order: seq<string>, groups: map<string, set<string>>)
    ensures Distinct(order)
    ensures forall t :: t in order <==> t in Posts(records)
    ensures groups.Keys == Posts(records)
    ensures forall t | t in groups :: groups[t] == KeywordsOf(records, t)
  {
    order, groups := [], map[];
    for i := 0 to |records|
      invariant Grouped(records[..i], order, groups)
    {
      TakeOneMore(records, i);
      order, groups := FileRecord(records[..i], records[i], order, groups);
    }
    assert records[..|records|] == records;
  }

  /** The keywords of a post that are in the keyword list, each once. */
  method ListedKeywords(tagged: set<string>, allKw: seq<string>) returns (kws: seq<string>)
    ensures Distinct(kws)
    ensures forall k :: k in kws <==> k in tagged && k in allKw
  {
    kws := [];
    var rest := tagged;
    while rest != {}
      invariant rest <= tagged
      invariant Distinct(kws)
      invariant forall k :: k in kws <==> k in tagged - rest && k in allKw
      decreases rest
    {
      var k :| k in rest;
      if k in allKw {
        kws := kws + [k];
      }
      rest := rest - {k};
    }
  }

  /** Adds one to the count of every keyword of the post. */
  method IncrementCounts(count: map<string, nat>, kws: seq<string>) returns (after: map<string, nat>)
    requires Distinct(kws) && forall k | k in kws :: k in count
    ensures after.Keys == count.Keys
    ensures forall k | k in after :: after[k] == count[k] + (if k in kws then 1 else 0)
  {
    after := count;
    for j := 0 to |kws|
      invariant after.Keys == count.Keys
      invariant forall k | k in after :: after[k] == count[k] + (if k in kws[..j] then 1 else 0)
    {
      assert kws[..j + 1] == kws[..j] + [kws[j]];
      after := after[kws[j] := after[kws[j]] + 1];
    }
    assert kws[..|kws|] == kws;
  }

  /** The pair {u, v} of different keywords of kws has been handled by the
      time the pair loop reaches position (i, j): its earlier position is
      below i, or is i and its later position is below j. */
  ghost predicate Paired(kws: seq<string>, i: nat, j: nat, u: string, v: string)
  {
    u in kws && v in kws && u != v &&
    var p := IndexOf(kws, u);
    var q := IndexOf(kws, v);
    var lo := if p < q then p else q;
    var hi := if p < q then q else p;
    lo < i || (lo == i && hi < j)
  }

  lemma PairStep(kws: seq<string>, i: nat, j: nat, u: string, v: string)
    requires Distinct(kws) && i < j < |kws|
    ensures Paired(kws, i, j + 1, u, v) <==>
      Paired(kws, i, j, u, v) || (u == kws[i] && v == kws[j]) || (u == kws[j] && v == kws[i])
  {
    IndexOfDistinct(kws, i);
    IndexOfDistinct(kws, j);
  }

  lemma RowFinished(kws: seq<string>, i: nat, u: string, v: string)
    requires Distinct(kws) && i < |kws|
    ensures Paired(kws, i, |kws|, u, v) <==> Paired(kws, i + 1, i + 2, u, v)
  {
  }

  /** The weights are the starting weights plus one for every pair handled
      by position (i, j), and every stored weight is at least 1. */
  ghost predicate PairsCounted(weight: map<(string, string), nat>, kws: seq<string>, i: nat, j: nat,
                               after: map<(string, string), nat>)
  {
    (forall e | e in after :: after[e] >= 1) &&
    (forall u, v :: Weight(after, u, v) == Weight(weight, u, v) + (if Paired(kws, i, j, u, v) then 1 else 0))
  }

  /** Adding one to the weight of {kws[i], kws[j]} in both directions
      extends the handled pairs by that pair. */
  lemma PairAdded(weight: map<(string, string), nat>, kws: seq<string>, i: nat, j: nat,
                  before: map<(string, string), nat>, after: map<(string, string), nat>)
    requires Distinct(kws) && i < j < |kws|
    requires PairsCounted(weight, kws, i, j, before)
    requires forall e | e in after :: e in before || e == (kws[i], kws[j]) || e == (kws[j], kws[i])
    requires (kws[i], kws[j]) in after && (kws[j], kws[i]) in after
    requires after[(kws[i], kws[j])] == Weight(before, kws[i], kws[j]) + 1
    requires after[(kws[j], kws[i])] == Weight(before, kws[j], kws[i]) + 1
    requires forall e | e in before && e != (kws[i], kws[j]) && e != (kws[j], kws[i]) :: e in after && after[e] == before[e]
    ensures PairsCounted(weight, kws, i, j + 1, after)
  {
    forall x, y
      ensures Weight(after, x, y) == Weight(weight, x, y) + (if Paired(kws, i, j + 1, x, y) then 1 else 0)
    {
      PairStep(kws, i, j, x, y);
    }
  }

  /** Pairs kws[i] with each later keyword, adding one to the weight of
      their edge or creating it with weight 1. */
  method PairWithLater(weight: map<(string, string), nat>, kws: seq<string>, i: nat,
                       current: map<(string, string), nat>)
    returns (after: map<(string, string), nat>)
    requires Distinct(kws) && i < |kws|
    requires forall u, v :: Weight(weight, u, v) == Weight(weight, v, u)
    requires PairsCounted(weight, kws, i, i + 1, current)
    ensures PairsCounted(weight, kws, i + 1, i + 2, after)
  {
    after := current;
    for j := i + 1 to |kws|
      invariant PairsCounted(weight, kws, i, j, after)
    {
      var u, v := kws[i], kws[j];
      ghost var before := after;
      assert Weight(before, v, u) == Weight(before, u, v);
      if (u, v) in after {
        var w := after[(u, v)] + 1;
        after := after[(u, v) := w][(v, u) := w];
      } else {
        after := after[(u, v) := 1][(v, u) := 1];
      }
      PairAdded(weight, kws, i, j, before, after);
    }
    forall x, y
      ensures Weight(after, x, y) == Weight(weight, x, y) + (if Paired(kws, i + 1, i + 2, x, y) then 1 else 0)
    {
      RowFinished(kws, i, x, y);
    }
  }

  /** Adds one to the weight of the edge between every two different
      keywords of the post, creating the edge with weight 1 when absent. */
  method AddCooccurrences(weight: map<(string, string), nat>, kws: seq<string>)
    returns (after: map<(string, string), nat>)
    requires Distinct(kws)
    requires forall u, v :: Weight(weight, u, v) == Weight(weight, v, u)
    requires forall e | e in weight :: weight[e] >= 1
    ensures forall e | e in after :: after[e] >= 1
    ensures forall u, v :: Weight(after, u, v) ==
                           Weight(weight, u, v) + (if u != v && u in kws && v in kws then 1 else 0)
  {
    after := weight;
    forall u, v
      ensures !Paired(kws, 0, 1, u, v)
    {
    }
    for i := 0 to |kws|
      invariant PairsCounted(weight, kws, i, i + 1, after)
    {
      after := PairWithLater(weight, kws, i, after);
    }
  }

  lemma TakeOneMore<T>(s: seq<T>, i: nat)
    requires i < |s|
    ensures s[..i + 1] == s[..i] + [s[i]]
  {
  }

  /** The posts among texts that the grouping tags with every keyword of ks. */
  ghost function Carrying(groups: map<string, set<string>>, texts: seq<string>, ks: set<string>): set<string>
  {
    set t | t in texts && t in groups && ks <= groups[t]
  }

  lemma CarryingStep(groups: map<string, set<string>>, texts: seq<string>, t: string, ks: set<string>)
    requires t !in texts
    ensures |Carrying(groups, texts + [t], ks)| ==
      |Carrying(groups, texts, ks)| + (if t in groups && ks <= groups[t] then 1 else 0)
  {
    var before := Carrying(groups, texts, ks);
    if t in groups && ks <= groups[t] {
      assert Carrying(groups, texts + [t], ks) == before + {t};
    } else {
      assert Carrying(groups, texts + [t], ks) == before;
    }
  }

  /** Once every grouped text is visited, Carrying is the record-level Support. */
  lemma CarryingAll(records: seq<Record>, order: seq<string>, groups: map<string, set<string>>, ks: set<string>)
    requires forall t :: t in order <==> t in Posts(records)
    requires groups.Keys == Posts(records)
    requires forall t | t in groups :: groups[t] == KeywordsOf(records, t)
    ensures Carrying(groups, order, ks) == Support(records, ks)
  {
  }

  /** The counts and weights are those of the posts among texts: each listed
      keyword counts the posts it tags, and each pair of different listed
      keywords weighs the posts both tag, an edge being stored only when
      that is at least 1. */
  ghost predicate Tallied(groups: map<string, set<string>>, texts: seq<string>, allKw: seq<string>,
                          count: map<string, nat>, weight: map<(string, string), nat>)
  {
    (forall k :: k in count <==> k in allKw) &&
    (forall k | k in count :: count[k] == |Carrying(groups, texts, {k})|) &&
    (forall u, v :: Weight(weight, u, v) ==
                    if u != v && u in allKw && v in allKw then |Carrying(groups, texts, {u, v})| else 0) &&
    (forall e | e in weight :: weight[e] >= 1)
  }

  lemma TalliedSymmetric(groups: map<string, set<string>>, texts: seq<string>, allKw: seq<string>,
                         count: map<string, nat>, weight: map<(string, string), nat>)
    requires Tallied(groups, texts, allKw, count, weight)
    ensures forall u, v :: Weight(weight, u, v) == Weight(weight, v, u)
  {
    forall u, v
      ensures Weight(weight, u, v) == Weight(weight, v, u)
    {
      assert {u, v} == {v, u};
    }
  }

  /** Visiting one more post keeps the tally. */
  lemma TallyStep(groups: map<string, set<string>>, texts: seq<string>, txt: string, allKw: seq<string>,
                  kws: seq<string>, count: map<string, nat>, weight: map<(string, string), nat>,
                  count': map<string, nat>, weight': map<(string, string), nat>)
    requires Tallied(groups, texts, allKw, count, weight)
    requires txt !in texts && txt in groups
    requires forall k :: k in kws <==> k in groups[txt] && k in allKw
    requires count'.Keys == count.Keys
    requires forall k | k in count' :: count'[k] == count[k] + (if k in kws then 1 else 0)
    requires forall e | e in weight' :: weight'[e] >= 1
    requires forall u, v :: Weight(weight', u, v) ==
                            Weight(weight, u, v) + (if u != v && u in kws && v in kws then 1 else 0)
    ensures Tallied(groups, texts + [txt], allKw, count', weight')
  {
    forall k | k in count'
      ensures count'[k] == |Carrying(groups, texts + [txt], {k})|
    {
      CarryingStep(groups, texts, txt, {k});
    }
    forall u, v
      ensures Weight(weight', u, v) ==
              if u != v && u in allKw && v in allKw then |Carrying(groups, texts + [txt], {u, v})| else 0
    {
      if u != v && u in allKw && v in allKw {
        CarryingStep(groups, texts, txt, {u, v});
      }
    }
  }

  /** The tally over all grouped texts is the co-occurrence graph. */
  lemma TallyComplete(records: seq<Record>, order: seq<string>, groups: map<string, set<string>>,
                      allKw: seq<string>, count: map<string, nat>, weight: map<(string, string), nat>)
    requires forall t :: t in order <==> t in Posts(records)
    requires groups.Keys == Posts(records)
    requires forall t | t in groups :: groups[t] == KeywordsOf(records, t)
    requires Tallied(groups, order, allKw, count, weight)
    ensures IsCooccurrenceGraph(KeywordGraph(Dedup(allKw), count, weight), records, allKw)
  {
    forall k | k in count
      ensures count[k] == PostCount(records, k)
    {
      CarryingAll(records, order, groups, {k});
    }
    forall u, v
      ensures Weight(weight, u, v) == if u != v && u in allKw && v in allKw then CoCount(records, u, v) else 0
    {
      CarryingAll(records, order, groups, {u, v});
    }
  }

  /** Visits post order[i]: its listed keywords each gain 1 in count, and
      each pair of them gains 1 in weight. */
  method TallyPost(groups: map<string, set<string>>, order: seq<string>, i: nat, allKw: seq<string>,
                   count: map<string, nat>, weight: map<(string, string), nat>)
    returns (count': map<string, nat>, weight': map<(string, string), nat>)
    requires Distinct(order) && i < |order| && order[i] in groups
    requires Tallied(groups, order[..i], allKw, count, weight)
    ensures Tallied(groups, order[..i + 1], allKw, count', weight')
  {
    var txt := order[i];
    var kws := ListedKeywords(groups[txt], allKw);
    count' := IncrementCounts(count, kws);
    TalliedSymmetric(groups, order[..i], allKw, count, weight);
    weight' := AddCooccurrences(weight, kws);
    TakeOneMore(order, i);
    TallyStep(groups, order[..i], txt, allKw, kws, count, weight, count', weight');
  }

  /** Builds the weighted co-occurrence graph of the records over the keyword
      list. */
  method BuildGraph(records: seq<Record>, allKw: seq<string>) returns (g: KeywordGraph)
    ensures IsCooccurrenceGraph(g, records, allKw)
  {
    var count: map<string, nat> := map k | k in allKw :: 0;
    var order, groups := GroupByText(records);
    var weight: map<(string, string), nat> := map[];
    for i := 0 to |order|
      invariant Tallied(groups, order[..i], allKw, count, weight)
    {
      count, weight := TallyPost(groups, order, i, allKw, count, weight);
    }
    assert order[..|order|] == order;
    TallyComplete(records, order, groups, allKw, count, weight);
    g := KeywordGraph(Dedup(allKw), count, weight);
  }

  // ---------------------------------------------------------------------
  // Shape of the graph

  /** An edge joins two different listed keywords exactly when some post is
      tagged with both of them. */
  lemma EdgeIffSharedPost(g: KeywordGraph, records: seq<Record>, allKw: seq<string>, u: string, v: string)
    requires IsCooccurrenceGraph(g, records, allKw)
    ensures (u, v) in g.weight <==>
      u != v && u in allKw && v in allKw &&
      exists t :: t in Posts(records) && u in KeywordsOf(records, t) && v in KeywordsOf(records, t)
  {
    CoCountPositiveIffShared(records, u, v);
    assert Weight(g.weight, u, v) >= 1 <==> (u, v) in g.weight;
  }

  /** No self-loops, the same weight in both directions, and no edge heavier
      than the count of either end. */
  lemma GraphShape(g: KeywordGraph, records: seq<Record>, allKw: seq<string>)
    requires IsCooccurrenceGraph(g, records, allKw)
    ensures forall u :: (u, u) !in g.weight
    ensures forall u, v :: Weight(g.weight, u, v) == Weight(g.weight, v, u)
    ensures forall e | e in g.weight ::
      e.0 in g.count && e.1 in g.count && e.0 != e.1 &&
      g.weight[e] <= g.count[e.0] && g.weight[e] <= g.count[e.1]
  {
    forall u
      ensures (u, u) !in g.weight
    {
      assert Weight(g.weight, u, u) == 0;
    }
    forall u, v
      ensures Weight(g.weight, u, v) == Weight(g.weight, v, u)
    {
      CoCountSymmetric(records, u, v);
    }
    forall e | e in g.weight
      ensures e.0 in g.count && e.1 in g.count && e.0 != e.1
      ensures g.weight[e] <= g.count[e.0] && g.weight[e] <= g.count[e.1]
    {
      assert Weight(g.weight, e.0, e.1) == g.weight[e];
      CoCountAtMostPostCounts(records, e.0, e.1);
    }
  }

  // ---------------------------------------------------------------------
  // From the graph to GraphMetrics

  /** The adjacency matrix of the graph in node order, 0 where there is no
      edge. */
  function ToAdjacency(g: KeywordGraph): (a: Matrix)
    ensures IsSquare(a) && |a| == |g.nodes|
    ensures forall i, j | 0 <= i < |a| && 0 <= j < |a| ::
      a[i][j] == Weight(g.weight, g.nodes[i], g.nodes[j])
  {
    seq(|g.nodes|, i requires 0 <= i < |g.nodes| =>
      seq(|g.nodes|, j requires 0 <= j < |g.nodes| => Weight(g.weight, g.nodes[i], g.nodes[j]) as int))
  }

  /** The matrix of a co-occurrence graph is square, symmetric, non-negative
      and zero on the diagonal; its nodes are the distinct listed keywords. */
  lemma CooccurrenceMatrixUndirected(g: KeywordGraph, records: seq<Record>, allKw: seq<string>)
    requires IsCooccurrenceGraph(g, records, allKw)
    ensures IsSquare(ToAdjacency(g)) && IsSymmetric(ToAdjacency(g))
    ensures forall i | 0 <= i < |ToAdjacency(g)| :: ToAdjacency(g)[i][i] == 0
    ensures forall i, j | 0 <= i < |ToAdjacency(g)| && 0 <= j < |ToAdjacency(g)| :: ToAdjacency(g)[i][j] >= 0
  {
    var a := ToAdjacency(g);
    GraphShape(g, records, allKw);
    SymmetricIffMirrored(a);
  }

  /** Builds the co-occurrence graph and hands its matrix to GraphMetrics,
      which therefore treats it as undirected. */
  method KeywordMetrics(records: seq<Record>, allKw: seq<string>)
    returns (g: KeywordGraph, metrics: Metrics.GraphMetrics)
    ensures IsCooccurrenceGraph(g, records, allKw)
    ensures metrics.Valid() && metrics.adjMatrix == ToAdjacency(g)
    ensures metrics.nNodes == |Dedup(allKw)| && !metrics.directed
  {
    g := BuildGraph(records, allKw);
    CooccurrenceMatrixUndirected(g, records, allKw);
    metrics := new Metrics.GraphMetrics(ToAdjacency(g));
  }
}
