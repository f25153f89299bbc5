/** The knowledge-base ingestion: every (health issue, remedy) pair of the
    knowledge base becomes one index record, in nested iteration order, with a
    slug id, a fixed-template `chunk_text` and the descriptive fields copied
    unchanged. The record list is then sent in batches of four. */
module KnowledgeBase {
  import opened Text
  import opened Upsert

  datatype Remedy = Remedy(
    plantName: string,
    scientificName: string,
    preparation: string,
    source: string)

  datatype HealthIssue = HealthIssue(condition: string, remedies: seq<Remedy>)

  /** `slug(condition) + "-" + slug(plantName)`. */
  function RemedyId(condition: string, plantName: string): (id: string)
    ensures NoSpace(id) && NoUpper(id)
    ensures |id| == |Slug(condition)| + 1 + |Slug(plantName)|
    ensures id[..|Slug(condition)|] == Slug(condition)
    ensures id[|Slug(condition)|] == '-'
    ensures id[|Slug(condition)| + 1..] == Slug(plantName)
  {
    Slug(condition) + "-" + Slug(plantName)
  }

  const TemplateHead := "For the health issue '"
  const TemplateMiddle := "', the herb '"
  const TemplateTail := "' is recommended. The preparation is: "

  /** The text that is embedded for one remedy. */
  function RemedyChunkText(condition: string, plantName: string, preparation: string): (t: string)
    ensures |t| == |TemplateHead| + |condition| + |TemplateMiddle| + |plantName| + |TemplateTail| + |preparation|
    ensures t[..|TemplateHead|] == TemplateHead
    ensures t[|TemplateHead|..|TemplateHead| + |condition|] == condition
    ensures t[|TemplateHead| + |condition|..][..|TemplateMiddle|] == TemplateMiddle
    ensures t[|TemplateHead| + |condition| + |TemplateMiddle|..][..|plantName|] == plantName
    ensures t[|TemplateHead| + |condition| + |TemplateMiddle| + |plantName|..][..|TemplateTail|] == TemplateTail
    ensures t[|t| - |preparation|..] == preparation
  {
    TemplateHead + condition + TemplateMiddle + plantName + TemplateTail + preparation
  }

  /** When `t` holds the apostrophe-free `w` at `start`, no apostrophe occurs
      in that stretch of `t`. */
  lemma QuoteFree(t: string, start: nat, w: string)
    requires start + |w| <= |t|
    requires t[start..start + |w|] == w && '\'' !in w
    ensures forall k :: start <= k < start + |w| ==> t[k] != '\''
  {
    forall k | start <= k < start + |w|
      ensures t[k] != '\''
    {
      assert t[k] == w[k - start];
    }
  }

  /** The template reads back: when neither name contains an apostrophe, the
      embedded text determines the condition, the plant name and the
      preparation. */
  lemma RemedyChunkTextInjective(c1: string, p1: string, r1: string, c2: string, p2: string, r2: string)
    requires '\'' !in c1 && '\'' !in p1 && '\'' !in c2 && '\'' !in p2
    requires RemedyChunkText(c1, p1, r1) == RemedyChunkText(c2, p2, r2)
    ensures c1 == c2 && p1 == p2 && r1 == r2
  {
    var t := RemedyChunkText(c1, p1, r1);
    var h := |TemplateHead|;
    assert t[h + |c1|] == '\'' by { assert t[h + |c1|..][..|TemplateMiddle|][0] == '\''; }
    assert t[h + |c2|] == '\'' by { assert t[h + |c2|..][..|TemplateMiddle|][0] == '\''; }
    QuoteFree(t, h, c1);
    QuoteFree(t, h, c2);
    assert |c1| == |c2|;
    var m := h + |c1| + |TemplateMiddle|;
    assert t[m + |p1|] == '\'' by { assert t[m + |p1|..][..|TemplateTail|][0] == '\''; }
    assert t[m + |p2|] == '\'' by { assert t[m + |p2|..][..|TemplateTail|][0] == '\''; }
    assert t[m..m + |p1|] == p1 by { assert t[m..][..|p1|] == p1; }
    assert t[m..m + |p2|] == p2 by { assert t[m..][..|p2|] == p2; }
    QuoteFree(t, m, p1);
    QuoteFree(t, m, p2);
    assert |p1| == |p2|;
  }

  /** The record for one remedy of one issue. */
  function RemedyRecord(issue: HealthIssue, remedy: Remedy): Record {
    Record(
      RemedyId(issue.condition, remedy.plantName),
      RemedyChunkText(issue.condition, remedy.plantName, remedy.preparation),
      issue.condition,
      remedy.plantName,
      remedy.scientificName,
      remedy.preparation,
      remedy.source)
  }

  /** The records of one issue, one per remedy in order. */
  function IssueRemedyRecords(issue: HealthIssue): (rs: seq<Record>)
    ensures |rs| == |issue.remedies|
    ensures forall j :: 0 <= j < |rs| ==> rs[j] == RemedyRecord(issue, issue.remedies[j])
  {
    seq(|issue.remedies|, j requires 0 <= j < |issue.remedies| => RemedyRecord(issue, issue.remedies[j]))
  }

  /** The number of remedies over all issues. */
  function RemedyCount(issues: seq<HealthIssue>): nat {
    if issues == [] then 0
    else RemedyCount(issues[..|issues| - 1]) + |issues[|issues| - 1].remedies|
  }

  /** `f` applied to each element, the results concatenated in order. */
  function ConcatMap<A, B>(xs: seq<A>, f: A -> seq<B>): seq<B> {
    if xs == [] then []
    else ConcatMap(xs[..|xs| - 1], f) + f(xs[|xs| - 1])
  }

  lemma ConcatMapAppend<A, B>(xs: seq<A>, x: A, f: A -> seq<B>)
    ensures ConcatMap(xs + [x], f) == ConcatMap(xs, f) + f(x)
  {
    assert (xs + [x])[..|xs|] == xs;
  }

  /** Element `j` of the result for `xs[i]` sits right after the results for
      the elements before `i`. */
  lemma {:induction false} ConcatMapAt<A, B>(xs: seq<A>, f: A -> seq<B>, i: nat, j: nat)
    requires i < |xs| && j < |f(xs[i])|
    ensures |ConcatMap(xs[..i], f)| + j < |ConcatMap(xs, f)|
    ensures ConcatMap(xs, f)[|ConcatMap(xs[..i], f)| + j] == f(xs[i])[j]
    decreases |xs|
  {
    var init := xs[..|xs| - 1];
    if i == |xs| - 1 {
      assert xs[..i] == init;
    } else {
      assert init[..i] == xs[..i];
      ConcatMapAt(init, f, i, j);
    }
  }

  /** Every element of the result comes from the result for some element. */
  lemma {:induction false} ConcatMapFrom<A, B>(xs: seq<A>, f: A -> seq<B>, k: nat)
    requires k < |ConcatMap(xs, f)|
    ensures exists i, j :: 0 <= i < |xs| && 0 <= j < |f(xs[i])| && ConcatMap(xs, f)[k] == f(xs[i])[j]
    decreases |xs|
  {
    var n := |xs|;
    var init := xs[..n - 1];
    var head := ConcatMap(init, f);
    if k < |head| {
      ConcatMapFrom(init, f, k);
      var i, j :| 0 <= i < |init| && 0 <= j < |f(init[i])| && head[k] == f(init[i])[j];
      assert init[i] == xs[i];
    } else {
      assert ConcatMap(xs, f)[k] == f(xs[n - 1])[k - |head|];
    }
  }

  /** The transform of the whole knowledge base: the records of each issue, in
      issue order. */
  function KnowledgeBaseRecords(issues: seq<HealthIssue>): seq<Record> {
    ConcatMap(issues, IssueRemedyRecords)
  }

  /** Exactly one record per remedy. */
  lemma {:induction false} KnowledgeBaseRecordsLength(issues: seq<HealthIssue>)
    ensures |KnowledgeBaseRecords(issues)| == RemedyCount(issues)
    decreases |issues|
  {
    if issues != [] {
      KnowledgeBaseRecordsLength(issues[..|issues| - 1]);
    }
  }

  /** Remedy `j` of issue `i` sits right after the remedies of the issues
      before `i`: the records follow the nested iteration order. */
  lemma KnowledgeBaseRecordAt(issues: seq<HealthIssue>, i: nat, j: nat)
    requires i < |issues| && j < |issues[i].remedies|
    ensures RemedyCount(issues[..i]) + j < |KnowledgeBaseRecords(issues)|
    ensures KnowledgeBaseRecords(issues)[RemedyCount(issues[..i]) + j] == RemedyRecord(issues[i], issues[i].remedies[j])
  {
    KnowledgeBaseRecordsLength(issues[..i]);
    ConcatMapAt(issues, IssueRemedyRecords, i, j);
  }

  /** Records are only ever produced from a remedy of the knowledge base: the
      copied fields of every record are those of some issue and remedy. */
  lemma KnowledgeBaseRecordFrom(issues: seq<HealthIssue>, k: nat)
    requires k < |KnowledgeBaseRecords(issues)|
    ensures exists i, j ::
              0 <= i < |issues| && 0 <= j < |issues[i].remedies| &&
              KnowledgeBaseRecords(issues)[k] == RemedyRecord(issues[i], issues[i].remedies[j])
  {
    ConcatMapFrom(issues, IssueRemedyRecords, k);
    var i, j :| 0 <= i < |issues| && 0 <= j < |IssueRemedyRecords(issues[i])|
      && KnowledgeBaseRecords(issues)[k] == IssueRemedyRecords(issues[i])[j];
  }

  /** The inner loop over one issue's remedies. */
  method IssueLoop(issue: HealthIssue) returns (records: seq<Record>)
    ensures records == IssueRemedyRecords(issue)
  {
    records := [];
    var j := 0;
    while j < |issue.remedies|
      invariant j <= |issue.remedies|
      invariant |records| == j
      invariant forall k :: 0 <= k < j ==> records[k] == RemedyRecord(issue, issue.remedies[k])
    {
      records := records + [RemedyRecord(issue, issue.remedies[j])];
      j := j + 1;
    }
  }

  /** The nested `for … of` loops shared by the standalone record preparation
      and the ingestion script. */
  method PrepareRecords(issues: seq<HealthIssue>) returns (records: seq<Record>)
    ensures records == KnowledgeBaseRecords(issues)
    ensures |records| == RemedyCount(issues)
  {
    records := [];
    var i := 0;
    while i < |issues|
      invariant i <= |issues|
      invariant records == KnowledgeBaseRecords(issues[..i])
    {
      var recs := IssueLoop(issues[i]);
      ConcatMapAppend(issues[..i], issues[i], IssueRemedyRecords);
      assert issues[..i] + [issues[i]] == issues[..i + 1];
      records := records + recs;
      i := i + 1;
    }
    assert issues[..i] == issues;
    KnowledgeBaseRecordsLength(issues);
  }

  /** The ingestion script: the same transform, then the batches of four. */
  method IngestKnowledgeBase(issues: seq<HealthIssue>) returns (records: seq<Record>, batches: seq<seq<Record>>)
    ensures records == KnowledgeBaseRecords(issues)
    ensures |batches| == (RemedyCount(issues) + BatchSize - 1) / BatchSize
    ensures forall k :: 0 <= k < |batches| ==> 0 < |batches[k]| <= BatchSize
    ensures Flatten(batches) == records
  {
    records := PrepareRecords(issues);
    batches := UpsertInBatches(records);
  }

  /** Without white space in the names, the id is the two lower-cased names
      joined by a dash. */
  lemma RemedyIdWithoutSpaces(condition: string, plantName: string)
    requires NoSpace(condition) && NoSpace(plantName)
    ensures RemedyId(condition, plantName) == Lower(condition) + "-" + Lower(plantName)
  {
  }

  lemma SlugOfTwoWords(a: char, b: char)
    requires 'a' <= a <= 'z' && 'a' <= b <= 'z'
    ensures Slug([a, ' ', b]) == [a, '-', b]
  {
    var s := [a, ' ', b];
    assert Lower(s) == s;
    assert s == [a] + [' '] + [b];
    CollapseSpacesSplit([a], [' '], [b]);
    CollapseSpacesKeeps([a]);
    CollapseSpacesKeeps([b]);
  }

  /** The id ignores the case of both names. */
  lemma RemedyIdIgnoresCase(condition: string, plantName: string)
    ensures RemedyId(condition, plantName) == RemedyId(Lower(condition), Lower(plantName))
  {
    assert Lower(Lower(condition)) == Lower(condition);
    assert Lower(Lower(plantName)) == Lower(plantName);
  }

  lemma SlugOfLetter(a: char)
    requires 'a' <= a <= 'z'
    ensures Slug([a]) == [a]
  {
    assert Lower([a]) == [a];
  }

  /** The id does not determine the pair: names that split the same words
      differently share an id (as do names that differ only in case), so the
      later record replaces the earlier one in the index. */
  lemma RemedyIdsCollideOnWordSplit()
    ensures RemedyId("a b", "c") == RemedyId("a", "b c")
  {
    SlugOfTwoWords('a', 'b');
    SlugOfTwoWords('b', 'c');
    SlugOfLetter('a');
    SlugOfLetter('c');
    assert "a b" == ['a', ' ', 'b'] && "b c" == ['b', ' ', 'c'];
  }
}
