/** The knowledge tools: adding an entry under one of the fixed categories,
    searching with the project post-filter and the merge of recently cached
    entries, listing categories and deleting. The recent-knowledge cache of
    the Memory server is a parameter: the entries it returns, in order (an
    unavailable server returns none). */
module KnowledgeTools {
  import opened Wrappers
  import opened Json
  import opened Strings
  import Seqs
  import Clock
  import opened RagIndex
  import RagClient
  import Keywords

  const Categories: seq<string> := ["問題解決", "技術Tips", "ベストプラクティス", "落とし穴", "設計パターン", "その他"]

  /** `get_categories`: a copy of the six categories, none repeated. */
  function GetCategories(): (r: seq<string>)
    ensures r == Categories
    ensures |r| == 6 && forall i, j :: 0 <= i < j < |r| ==> r[i] != r[j]
  {
    var r := Categories;
    assert r[0][0] == '問' && r[1][0] == '技' && r[2][0] == 'ベ' && r[3][0] == '落' && r[4][0] == '設' && r[5][0] == 'そ';
    r
  }

  // ---------------------------------------------------------- add_knowledge

  datatype AddResult = AddResult(success: bool, knowledgeId: string, tags: seq<string>)

  /** The project an entry is filed under: the argument if given, else the
      current project; none is stored as "". */
  function FiledProject(project: Option<string>, current: Option<string>): string {
    if project.Some? then project.value else current.GetOr("")
  }

  /** `add_knowledge`. `current` is the user's current project, `stamp` the
      id's time stamp. The category is checked before anything is written;
      omitted tags are generated from the content. */
  function AddKnowledge(st: Store, content: string, category: string, project: Option<string>,
                        current: Option<string>, tags: Option<seq<string>>, source: Option<string>,
                        stamp: string, now: Clock.Instant): (r: (Store, AddResult))
    ensures r.1.success <==> category in Categories
    ensures !r.1.success ==> r == (st, AddResult(false, "", []))
    ensures r.1.success ==>
      r.1.knowledgeId == "knowledge:" + stamp
      && r.1.tags == (if tags.Some? then tags.value else Keywords.GenerateTags(content))
    ensures tags.None? ==> |r.1.tags| <= 10
    ensures r.1.success ==>
      var d := GetDocument(r.0, r.1.knowledgeId);
      d.Some? && d.value.content == content
      && Field(d.value.metadata, "type") == JStr("knowledge")
      && Field(d.value.metadata, "category") == JStr(category)
      && StrListField(d.value.metadata, "tags") == r.1.tags
      && Field(d.value.metadata, "project") == JStr(FiledProject(project, current))
    ensures forall k :: k != "knowledge:" + stamp ==> GetDocument(r.0, k) == GetDocument(st, k)
  {
    if category !in Categories then (st, AddResult(false, "", []))
    else
      var t := if tags.Some? then tags.value else Keywords.GenerateTags(content);
      var (s1, res) := RagClient.AddKnowledge(st, content, category, t, FiledProject(project, current),
                                              source.GetOr(""), stamp, now);
      (s1, AddResult(true, res.docId, t))
  }

  /** A stored entry is found again by a search with its category and
      project (or with no project) and carries every one of its tags. */
  lemma {:induction false} AddedIsSearchable(st: Store, content: string, category: string, project: Option<string>,
                                             current: Option<string>, tags: Option<seq<string>>,
                                             source: Option<string>, stamp: string, now: Clock.Instant)
    requires category in Categories
    ensures var r := AddKnowledge(st, content, category, project, current, tags, source, stamp, now);
      var d := GetDocument(r.0, r.1.knowledgeId).value;
      MatchWhere(d.metadata, RagClient.KnowledgeWhere(category, FiledProject(project, current)))
      && MatchWhere(d.metadata, RagClient.KnowledgeWhere(category, ""))
      && MatchWhere(d.metadata, RagClient.KnowledgeWhere("", ""))
      && RagClient.HasAllTags(d, r.1.tags)
  {
  }

  // ------------------------------------------------------- search_knowledge

  datatype Entry = Entry(id: string, content: string, category: string, project: Option<Json>,
                         tags: seq<string>, source: Option<Json>, createdAt: string, score: real)

  /** `meta.get(k)`: None when absent (or null). */
  function FieldOpt(m: Obj, k: string): Option<Json> {
    if k in m && m[k] != JNull then Some(m[k]) else None
  }

  /** The stored tags: a list of strings, or a string split on commas. */
  function ParseTags(j: Json): seq<string> {
    if j.JStr? then SplitList(j.s) else AsStrList(j)
  }

  function ToEntry(d: Doc): (e: Entry)
    ensures e.id == d.id && e.content == d.content && e.score == d.score
    ensures e.project == FieldOpt(d.metadata, "project")
  {
    Entry(d.id, d.content, StrField(d.metadata, "category", ""), FieldOpt(d.metadata, "project"),
          ParseTags(Field(d.metadata, "tags")), FieldOpt(d.metadata, "source"),
          StrField(d.metadata, "created_at", ""), d.score)
  }

  function Entries(docs: seq<Doc>): (r: seq<Entry>)
    ensures |r| == |docs|
    ensures forall i :: 0 <= i < |docs| ==> r[i] == ToEntry(docs[i])
  {
    seq(|docs|, i requires 0 <= i < |docs| => ToEntry(docs[i]))
  }

  /** A search hit keeps its category, and every tag it was required to carry. */
  lemma {:induction false} HitFields(d: Doc, category: string, project: string, tags: seq<string>)
    requires MatchWhere(d.metadata, RagClient.KnowledgeWhere(category, project))
    requires RagClient.HasAllTags(d, tags)
    ensures category != "" ==> ToEntry(d).category == category
    ensures forall k :: 0 <= k < |tags| ==> tags[k] in ToEntry(d).tags
  {
    if |tags| > 0 {
      assert tags[0] in StrListField(d.metadata, "tags");
      assert "tags" in d.metadata && !d.metadata["tags"].JStr?;
      assert ToEntry(d).tags == StrListField(d.metadata, "tags");
    }
  }

  /** The entry has the requested category (if any) and every requested tag. */
  predicate Carries(e: Entry, category: string, tags: seq<string>) {
    (category == "" || e.category == category) && forall k :: 0 <= k < |tags| ==> tags[k] in e.tags
  }

  /** Every search hit keeps its category and required tags. */
  lemma {:induction false} HitsFields(docs: seq<Doc>, category: string, project: string, tags: seq<string>)
    requires forall i :: 0 <= i < |docs| ==>
      MatchWhere(docs[i].metadata, RagClient.KnowledgeWhere(category, project)) && RagClient.HasAllTags(docs[i], tags)
    ensures forall i :: 0 <= i < |docs| ==> Carries(Entries(docs)[i], category, tags)
  {
    forall i | 0 <= i < |docs|
      ensures Carries(Entries(docs)[i], category, tags)
    {
      HitFields(docs[i], category, project, tags);
    }
  }

  /** The project post-filter: with general knowledge, entries of this
      project or of none; without, only this project's. */
  predicate KeepEntry(e: Entry, project: string, includeGeneral: bool) {
    e.project == Some(JStr(project)) || (includeGeneral && (e.project == Some(JStr("")) || e.project.None?))
  }

  /** `[k for k in ks if KeepEntry(k, ...)]`. */
  function KeepProject(ks: seq<Entry>, project: string, includeGeneral: bool): (r: seq<Entry>)
    ensures |r| <= |ks|
    ensures forall i :: 0 <= i < |r| ==> r[i] in ks && KeepEntry(r[i], project, includeGeneral)
    ensures forall i :: 0 <= i < |ks| && KeepEntry(ks[i], project, includeGeneral) ==> ks[i] in r
  {
    if |ks| == 0 then []
    else
      var rest := KeepProject(ks[1..], project, includeGeneral);
      assert forall i :: 1 <= i < |ks| ==> ks[i] == ks[1..][i - 1];
      if KeepEntry(ks[0], project, includeGeneral) then [ks[0]] + rest else rest
  }

  /** The project post-filter of `search_knowledge`, applied only when there is a
      project to filter by. */
  function ProjectFilter(ks: seq<Entry>, project: string, includeGeneral: bool): (r: seq<Entry>)
    ensures project == "" ==> r == ks
    ensures forall i :: 0 <= i < |r| ==> r[i] in ks
    ensures project != "" ==> forall i :: 0 <= i < |r| ==> KeepEntry(r[i], project, includeGeneral)
    ensures forall i :: 0 <= i < |ks| && (project == "" || KeepEntry(ks[i], project, includeGeneral)) ==> ks[i] in r
  {
    if project == "" then ks else KeepProject(ks, project, includeGeneral)
  }

  /** A filter that every entry passes changes nothing. */
  lemma {:induction false} FilterKeepsAll(ks: seq<Entry>, project: string, includeGeneral: bool)
    requires forall i :: 0 <= i < |ks| ==> KeepEntry(ks[i], project, includeGeneral)
    ensures KeepProject(ks, project, includeGeneral) == ks
  {
    if |ks| > 0 {
      assert forall i :: 0 <= i < |ks[1..]| ==> ks[1..][i] == ks[i + 1];
      FilterKeepsAll(ks[1..], project, includeGeneral);
      assert ks == [ks[0]] + ks[1..];
    }
  }

  /** The RAG where-clause already admits only this project and general
      knowledge, so with `include_general` the post-filter drops nothing. */
  lemma {:induction false} GeneralFilterKeepsAll(st: Store, query: string, category: string, project: string,
                                                 tags: seq<string>, n: int)
    requires project != ""
    ensures var docs := RagClient.SearchKnowledge(st, query, category, project, tags, n).documents;
      ProjectFilter(Entries(docs), project, true) == Entries(docs)
  {
    var docs := RagClient.SearchKnowledge(st, query, category, project, tags, n).documents;
    var ks := Entries(docs);
    forall i | 0 <= i < |ks|
      ensures KeepEntry(ks[i], project, true)
    {
      assert ks[i] == ToEntry(docs[i]);
    }
    FilterKeepsAll(ks, project, true);
  }

  /** Without `include_general`, the general hits are exactly the ones dropped. */
  lemma {:induction false} OwnProjectOnly(ks: seq<Entry>, project: string, i: nat)
    requires project != "" && i < |ks|
    requires ks[i].project == Some(JStr(project)) || ks[i].project == Some(JStr("")) || ks[i].project.None?
    ensures ks[i] in ProjectFilter(ks, project, false) <==> ks[i].project == Some(JStr(project))
  {
    if ks[i] in ProjectFilter(ks, project, false) {
      var r := ProjectFilter(ks, project, false);
      var j :| 0 <= j < |r| && r[j] == ks[i];
    }
  }

  /** An entry as the Memory server's recent-knowledge cache returns it. */
  datatype Cached = Cached(id: string, content: string, category: string, tags: seq<string>,
                           source: string, project: Option<Json>, cachedAt: string)

  /** `query.lower() in content.lower()`. */
  predicate QueryIn(content: string, query: string) {
    Contains(Lower(content), Lower(query))
  }

  /** In `search_knowledge`: a cached entry is taken when its id is non-empty and
      unseen, its content contains the query, and it passes the category
      and tag filters. */
  predicate Admit(c: Cached, seen: set<string>, query: string, category: string, tags: seq<string>) {
    c.id != "" && c.id !in seen && QueryIn(c.content, query)
    && (category == "" || c.category == category)
    && forall k :: 0 <= k < |tags| ==> tags[k] in c.tags
  }

  function FromCache(c: Cached): Entry {
    Entry(c.id, c.content, c.category, c.project, c.tags, Some(JStr(c.source)), c.cachedAt, 1.0)
  }

  /** What every entry the merge adds satisfies. */
  predicate Fresh(e: Entry, seen: set<string>, query: string, category: string, tags: seq<string>) {
    e.score == 1.0 && e.id != "" && e.id !in seen && QueryIn(e.content, query)
    && (category == "" || e.category == category)
    && forall k :: 0 <= k < |tags| ==> tags[k] in e.tags
  }

  /** The cached entries taken, in the order they end up: each one taken is
      inserted at the front, its id added to `seen`. */
  function Admitted(cached: seq<Cached>, seen: set<string>, query: string, category: string,
                    tags: seq<string>): (r: seq<Entry>)
    ensures |r| <= |cached|
    ensures forall i :: 0 <= i < |r| ==> Fresh(r[i], seen, query, category, tags)
    ensures forall i, j :: 0 <= i < j < |r| ==> r[i].id != r[j].id
    decreases |cached|
  {
    if |cached| == 0 then []
    else
      var c := cached[0];
      if Admit(c, seen, query, category, tags) then
        var rest := Admitted(cached[1..], seen + {c.id}, query, category, tags);
        assert forall i :: 0 <= i < |rest| ==> rest[i].id != c.id;
        rest + [FromCache(c)]
      else Admitted(cached[1..], seen, query, category, tags)
  }

  /** The cache merge of `search_knowledge`: the admitted cached entries, latest first, then `ks`. */
  function MergeCached(ks: seq<Entry>, cached: seq<Cached>, seen: set<string>, query: string,
                       category: string, tags: seq<string>): (r: seq<Entry>)
    ensures |ks| <= |r| <= |ks| + |cached|
    ensures r[|r| - |ks|..] == ks
    ensures forall i :: 0 <= i < |r| - |ks| ==> Fresh(r[i], seen, query, category, tags)
    ensures forall i, j :: 0 <= i < j < |r| - |ks| ==> r[i].id != r[j].id
  {
    var a := Admitted(cached, seen, query, category, tags);
    assert (a + ks)[|a|..] == ks;
    a + ks
  }

  /** A cached entry that passes the filters, unseen and not preceded by a
      cached entry of the same id, is taken. */
  lemma {:induction false} MergeComplete(cached: seq<Cached>, seen: set<string>, query: string,
                                         category: string, tags: seq<string>, j: nat)
    requires j < |cached| && Admit(cached[j], seen, query, category, tags)
    requires forall i :: 0 <= i < j ==> cached[i].id != cached[j].id
    ensures FromCache(cached[j]) in Admitted(cached, seen, query, category, tags)
    decreases j
  {
    var c := cached[0];
    if j == 0 {
      var rest := Admitted(cached[1..], seen + {c.id}, query, category, tags);
      assert (rest + [FromCache(c)])[|rest|] == FromCache(c);
    } else {
      forall i | 0 <= i < j - 1
        ensures cached[1..][i].id != cached[1..][j - 1].id
      {
        assert cached[1..][i] == cached[i + 1];
      }
      assert cached[1..][j - 1] == cached[j];
      if Admit(c, seen, query, category, tags) {
        MergeComplete(cached[1..], seen + {c.id}, query, category, tags, j - 1);
      } else {
        MergeComplete(cached[1..], seen, query, category, tags, j - 1);
      }
    }
  }

  function EntryIds(ks: seq<Entry>): set<string> {
    set i | 0 <= i < |ks| :: ks[i].id
  }

  /** A cached entry never duplicates a search hit. */
  lemma {:induction false} MergeNoDuplicate(ks: seq<Entry>, cached: seq<Cached>, query: string,
                                            category: string, tags: seq<string>, i: nat, j: nat)
    requires i < |MergeCached(ks, cached, EntryIds(ks), query, category, tags)| - |ks| && j < |ks|
    ensures MergeCached(ks, cached, EntryIds(ks), query, category, tags)[i].id != ks[j].id
  {
    assert ks[j].id in EntryIds(ks);
  }

  /** The category and tag guarantees carry over to the merged list. */
  lemma {:induction false} MergedFields(hits: seq<Entry>, ks: seq<Entry>, merged: seq<Entry>, seen: set<string>,
                                        query: string, category: string, tags: seq<string>)
    requires forall i :: 0 <= i < |ks| ==> ks[i] in hits
    requires forall i :: 0 <= i < |hits| ==> Carries(hits[i], category, tags)
    requires |ks| <= |merged| && merged[|merged| - |ks|..] == ks
    requires forall i :: 0 <= i < |merged| - |ks| ==> Fresh(merged[i], seen, query, category, tags)
    ensures forall i :: 0 <= i < |merged| ==> Carries(merged[i], category, tags)
  {
    forall i | |merged| - |ks| <= i < |merged|
      ensures Carries(merged[i], category, tags)
    {
      assert merged[i] == ks[i - (|merged| - |ks|)];
      var h :| 0 <= h < |hits| && hits[h] == merged[i];
    }
  }

  datatype SearchOutcome = SearchOutcome(success: bool, totalCount: int, knowledge: seq<Entry>)

  /** `search_knowledge`. Empty `category` and `tags` stand for omitted
      filters; `current` is the user's current project; `cached` is what
      the recent-knowledge cache returns. */
  function SearchKnowledge(st: Store, query: string, category: string, project: Option<string>,
                           current: Option<string>, tags: seq<string>, includeGeneral: bool, limit: int,
                           cached: seq<Cached>): (r: SearchOutcome)
    ensures r.success && r.totalCount == |r.knowledge|
    ensures limit >= 0 ==> |r.knowledge| <= limit
    ensures forall i :: 0 <= i < |r.knowledge| ==> Carries(r.knowledge[i], category, tags)
  {
    var sp := FiledProject(project, current);
    var merged := Gathered(st, query, category, sp, tags, if includeGeneral then limit * 2 else limit,
                           includeGeneral, cached);
    var out := Seqs.Prefix(merged, limit);
    SearchOutcome(true, |out|, out)
  }

  /** The search hits of the filed project, filtered by project, with the
      admitted cached entries in front; each carries the requested category
      and tags. */
  function Gathered(st: Store, query: string, category: string, sp: string, tags: seq<string>,
                    n: int, includeGeneral: bool, cached: seq<Cached>): (r: seq<Entry>)
    ensures forall i :: 0 <= i < |r| ==> Carries(r[i], category, tags)
  {
    var res := RagClient.SearchKnowledge(st, query, category, sp, tags, n);
    var hits := Entries(res.documents);
    HitsFields(res.documents, category, sp, tags);
    var ks := ProjectFilter(hits, sp, includeGeneral);
    var merged := MergeCached(ks, cached, EntryIds(ks), query, category, tags);
    MergedFields(hits, ks, merged, EntryIds(ks), query, category, tags);
    merged
  }

  /** The result is the admitted cached entries first, then the filtered
      hits, cut at `limit`; without cached entries it is the filtered hits. */
  lemma {:induction false} SearchWithoutCache(st: Store, query: string, category: string, project: Option<string>,
                                              current: Option<string>, tags: seq<string>, includeGeneral: bool,
                                              limit: int)
    ensures var sp := FiledProject(project, current);
      var res := RagClient.SearchKnowledge(st, query, category, sp, tags, if includeGeneral then limit * 2 else limit);
      SearchKnowledge(st, query, category, project, current, tags, includeGeneral, limit, []).knowledge
        == Seqs.Prefix(ProjectFilter(Entries(res.documents), sp, includeGeneral), limit)
  {
  }

  // ------------------------------------------------------- delete_knowledge

  /** `delete_knowledge`: true iff the entry existed; it is gone afterwards. */
  function DeleteKnowledge(st: Store, id: string): (r: (Store, bool))
    ensures r.1 <==> GetDocument(st, id).Some?
    ensures GetDocument(r.0, id).None?
    ensures forall k :: k != id ==> GetDocument(r.0, k) == GetDocument(st, k)
  {
    var (s1, res) := DeleteDocument(st, id);
    (s1, res.success)
  }
}
