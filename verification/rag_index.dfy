/** The RAG index as an in-memory document collection with the semantics of
    the reference implementation the tests use: documents keyed by id in
    insertion order, a metadata where-clause interpreter, and a word-overlap
    similarity in place of embeddings. */
module RagIndex {
  import opened Wrappers
  import opened Json
  import opened Strings
  import Dict
  import Seqs

  datatype Doc = Doc(id: string, content: string, metadata: Obj, score: real)

  type Store = Dict.Dict<Doc>

  datatype OpResult = OpResult(success: bool, docId: string)

  datatype SearchResult = SearchResult(success: bool, documents: seq<Doc>, totalCount: int)

  function GetDocument(st: Store, id: string): Option<Doc> {
    Dict.Get(st, id)
  }

  /** Ids are unique and every document is filed under its own id. */
  predicate WellFormed(st: Store) {
    Dict.UniqueKeys(st) && forall i :: 0 <= i < |st| ==> st[i].1.id == st[i].0
  }

  lemma {:induction false} GetWellFormed(st: Store, k: string)
    requires WellFormed(st)
    ensures GetDocument(st, k).Some? ==> GetDocument(st, k).value.id == k
  {
    if GetDocument(st, k).Some? {
      var i :| 0 <= i < |st| && st[i] == (k, GetDocument(st, k).value);
    }
  }

  /** Writing a document under its own id keeps the store well formed. */
  lemma {:induction false} PutWellFormed(st: Store, d: Doc)
    ensures WellFormed(st) ==> WellFormed(Dict.Put(st, d.id, d))
  {
    if WellFormed(st) {
      Dict.PutUnique(st, d.id, d);
      Dict.PutPairs(st, d.id, d);
      var r := Dict.Put(st, d.id, d);
      forall i | 0 <= i < |r|
        ensures r[i].1.id == r[i].0
      {
        assert r[i] in r;
      }
    }
  }

  lemma {:induction false} RemoveWellFormed(st: Store, k: string)
    ensures WellFormed(st) ==> WellFormed(Dict.Remove(st, k))
  {
    if !WellFormed(st) {
      return;
    }
    Dict.RemoveShape(st, k);
    var r := Dict.Remove(st, k);
    forall i | 0 <= i < |r|
      ensures r[i].1.id == r[i].0
    {
      assert r[i] in st;
    }
  }

  /** `add_document`: inserts or overwrites, always succeeds. */
  function AddDocument(st: Store, id: string, content: string, metadata: Obj): (r: (Store, OpResult))
    ensures WellFormed(st) ==> WellFormed(r.0)
    ensures r.1.success
    ensures GetDocument(r.0, id) == Some(Doc(id, content, metadata, 0.0))
    ensures forall k :: k != id ==> GetDocument(r.0, k) == GetDocument(st, k)
  {
    PutWellFormed(st, Doc(id, content, metadata, 0.0));
    (Dict.Put(st, id, Doc(id, content, metadata, 0.0)), OpResult(true, id))
  }

  /** `update_document`: fails on a missing id, otherwise replaces only the
      parts that were supplied. */
  function UpdateDocument(st: Store, id: string, content: Option<string>, metadata: Option<Obj>)
    : (r: (Store, OpResult))
    ensures r.1.success <==> GetDocument(st, id).Some?
    ensures !r.1.success ==> r.0 == st
    ensures r.1.success ==>
      var prev := GetDocument(st, id).value;
      GetDocument(r.0, id) == Some(Doc(id, content.GetOr(prev.content), metadata.GetOr(prev.metadata), 0.0))
    ensures forall k :: k != id ==> GetDocument(r.0, k) == GetDocument(st, k)
  {
    match GetDocument(st, id)
    case None => (st, OpResult(false, id))
    case Some(prev) =>
      (Dict.Put(st, id, Doc(id, content.GetOr(prev.content), metadata.GetOr(prev.metadata), 0.0)),
       OpResult(true, id))
  }

  /** `delete_document`: succeeds iff the id was present; removes only it. */
  function DeleteDocument(st: Store, id: string): (r: (Store, OpResult))
    ensures WellFormed(st) ==> WellFormed(r.0)
    ensures r.1.success <==> GetDocument(st, id).Some?
    ensures GetDocument(r.0, id).None?
    ensures forall k :: k != id ==> GetDocument(r.0, k) == GetDocument(st, k)
  {
    var present := GetDocument(st, id).Some?;
    RemoveWellFormed(st, id);
    (Dict.Remove(st, id), OpResult(present, id))
  }

  // ---------------------------------------------------------------- where

  /** One operator of a `{field: {op: value}}` condition. An unknown operator
      imposes nothing. */
  datatype Op = OpEq(v: Json) | OpNe(v: Json) | OpIn(vs: seq<Json>) | OpNin(vs: seq<Json>) | OpOther(name: string)

  /** A where clause: a conjunction of conditions. */
  datatype Where = Where(clauses: seq<Clause>)

  datatype Clause =
    | AnyOf(branches: seq<Where>)            // "$or"
    | AllOf(branches: seq<Where>)            // "$and"
    | Ops(field: string, ops: seq<Op>)       // {field: {op: value, ...}}
    | Equals(field: string, value: Json)     // {field: value}

  predicate OpHolds(actual: Json, op: Op) {
    match op
    case OpEq(v) => actual == v
    case OpNe(v) => actual != v
    case OpIn(vs) => actual in vs
    case OpNin(vs) => actual !in vs
    case OpOther(_) => true
  }

  /** `_match_where_clause`. */
  predicate MatchWhere(m: Obj, w: Where)
    decreases w
  {
    forall i :: 0 <= i < |w.clauses| ==> MatchClause(m, w.clauses[i])
  }

  predicate MatchClause(m: Obj, c: Clause)
    decreases c
  {
    match c
    case AnyOf(bs) => exists i :: 0 <= i < |bs| && MatchWhere(m, bs[i])
    case AllOf(bs) => forall i :: 0 <= i < |bs| ==> MatchWhere(m, bs[i])
    case Ops(f, ops) => forall i :: 0 <= i < |ops| ==> OpHolds(Field(m, f), ops[i])
    case Equals(f, v) => Field(m, f) == v
  }

  /** `{field: {"$eq": value}}`, the form every builder in the client uses. */
  function Eq(field: string, value: string): Clause {
    Ops(field, [OpEq(JStr(value))])
  }

  /** The empty clause matches everything; `$eq` means equality of the field;
      an empty `$or` matches nothing. */
  lemma {:induction false} WhereBasics(m: Obj, f: string, v: string)
    ensures MatchWhere(m, Where([]))
    ensures MatchWhere(m, Where([Eq(f, v)])) <==> Field(m, f) == JStr(v)
    ensures !MatchWhere(m, Where([AnyOf([])]))
  {
    var c := Eq(f, v);
    assert c.ops[0] == OpEq(JStr(v));
    assert MatchClause(m, c) <==> OpHolds(Field(m, f), OpEq(JStr(v)));
    assert Where([c]).clauses[0] == c;
    var e := AnyOf([]);
    assert !MatchClause(m, e);
    assert Where([e]).clauses[0] == e;
  }

  /** Conjunction: a clause list matches iff both halves match. */
  lemma {:induction false} WhereConcat(m: Obj, a: seq<Clause>, b: seq<Clause>)
    ensures MatchWhere(m, Where(a + b)) <==> MatchWhere(m, Where(a)) && MatchWhere(m, Where(b))
  {
    var w := Where(a + b);
    if MatchWhere(m, Where(a)) && MatchWhere(m, Where(b)) {
      forall i | 0 <= i < |a + b|
        ensures MatchClause(m, (a + b)[i])
      {
        if i < |a| {
          assert (a + b)[i] == Where(a).clauses[i];
        } else {
          assert (a + b)[i] == Where(b).clauses[i - |a|];
        }
      }
    }
    if MatchWhere(m, w) {
      forall i | 0 <= i < |a|
        ensures MatchClause(m, a[i])
      {
        assert a[i] == w.clauses[i];
      }
      forall i | 0 <= i < |b|
        ensures MatchClause(m, b[i])
      {
        assert b[i] == w.clauses[|a| + i];
      }
    }
  }

  // ----------------------------------------------------------- similarity

  /** `set(s.lower().split())`. */
  function WordSet(s: string): set<string> {
    set w | w in Words(Lower(s))
  }

  /** `_calculate_similarity`: the share of query words found in the content. */
  function Similarity(query: string, content: string): (r: real)
    ensures 0.0 <= r <= 1.0
    ensures WordSet(query) == {} ==> r == 0.0
    ensures r > 0.0 <==> WordSet(query) * WordSet(content) != {}
    ensures WordSet(query) != {} ==> (r == 1.0 <==> WordSet(query) <= WordSet(content))
  {
    var q := WordSet(query);
    var c := WordSet(content);
    if |q| == 0 then 0.0
    else
      SubsetCard(q * c, q);
      Ratio(|q * c|, |q|);
      assert q <= c <==> q * c == q;
      (|q * c| as real) / (|q| as real)
  }

  lemma {:induction false} Ratio(x: nat, y: nat)
    requires 0 < y && x <= y
    ensures 0.0 <= (x as real) / (y as real) <= 1.0
    ensures (x as real) / (y as real) == 1.0 <==> x == y
    ensures (x as real) / (y as real) > 0.0 <==> x > 0
  {
    var r := (x as real) / (y as real);
    assert r * (y as real) == x as real;
  }

  /** A subset is no larger, and equal in size only when equal. */
  lemma {:induction false} SubsetCard(a: set<string>, b: set<string>)
    requires a <= b
    ensures |a| <= |b|
    ensures |a| == |b| ==> a == b
    ensures |a| == 0 <==> a == {}
    decreases |b|
  {
    if b != {} {
      var x :| x in b;
      SubsetCard(a - {x}, b - {x});
      if x in a {
        assert a == (a - {x}) + {x};
      } else {
        assert a - {x} == a;
      }
    }
  }

  // --------------------------------------------------------------- search

  predicate SortedDesc(xs: seq<Doc>) {
    forall i, j :: 0 <= i < j < |xs| ==> xs[i].score >= xs[j].score
  }

  /** Where `x` goes in a descending list: after every element scoring at
      least as much, so equal scores keep their order (the sort is stable). */
  function InsertPos(xs: seq<Doc>, x: Doc): (k: nat)
    ensures k <= |xs|
    ensures forall i :: 0 <= i < k ==> xs[i].score >= x.score
    ensures k < |xs| ==> xs[k].score < x.score
  {
    if |xs| == 0 || xs[0].score < x.score then 0
    else 1 + InsertPos(xs[1..], x)
  }

  /** `x` inserted into a descending list, which stays descending. */
  function InsertDesc(xs: seq<Doc>, x: Doc): (r: seq<Doc>)
    requires SortedDesc(xs)
    ensures SortedDesc(r)
    ensures multiset(r) == multiset(xs) + multiset{x}
    ensures |r| == |xs| + 1
  {
    var k := InsertPos(xs, x);
    InsertSorted(xs, x, k);
    Seqs.InsertAt(xs, x, k);
    xs[..k] + [x] + xs[k..]
  }

  lemma InsertSorted(xs: seq<Doc>, x: Doc, k: nat)
    requires SortedDesc(xs) && k <= |xs|
    requires forall i :: 0 <= i < k ==> xs[i].score >= x.score
    requires k < |xs| ==> xs[k].score < x.score
    ensures SortedDesc(xs[..k] + [x] + xs[k..])
  {
    var r := xs[..k] + [x] + xs[k..];
    forall i, j | 0 <= i < j < |r|
      ensures r[i].score >= r[j].score
    {
      if j < k {
        assert r[i] == xs[i] && r[j] == xs[j];
      } else if j == k {
        assert r[j] == x && r[i] == xs[i];
      } else if i < k {
        assert r[i] == xs[i] && r[j] == xs[j - 1];
      } else if i == k {
        assert r[i] == x && r[j] == xs[j - 1];
        assert xs[k].score >= xs[j - 1].score;
      } else {
        assert r[i] == xs[i - 1] && r[j] == xs[j - 1];
      }
    }
  }

  /** `sort(key=score, reverse=True)`: a descending permutation. */
  function SortDesc(xs: seq<Doc>): (r: seq<Doc>)
    ensures SortedDesc(r)
    ensures multiset(r) == multiset(xs)
    ensures |r| == |xs|
  {
    if |xs| == 0 then []
    else
      var init, last := xs[..|xs| - 1], xs[|xs| - 1];
      assert xs == init + [last];
      InsertDesc(SortDesc(init), last)
  }

  /** The scored documents a query can return, in store order. */
  function Scored(docs: seq<Doc>, query: string, where: Where): (r: seq<Doc>)
    ensures forall i :: 0 <= i < |r| ==> r[i].score > 0.0 && MatchWhere(r[i].metadata, where)
  {
    if |docs| == 0 then []
    else
      var d := docs[0];
      var s := Similarity(query, d.content);
      var rest := Scored(docs[1..], query, where);
      if MatchWhere(d.metadata, where) && s > 0.0 then [d.(score := s)] + rest else rest
  }

  /** The values of the store, in insertion order. */
  function Docs(st: Store): (r: seq<Doc>)
    ensures |r| == |st|
  {
    seq(|st|, i requires 0 <= i < |st| => st[i].1)
  }

  /** `search`: only documents matching `where` with a positive score, best
      first, at most `n`. */
  function Search(st: Store, query: string, n: int, where: Where): (r: SearchResult)
    ensures r.success && r.totalCount == |r.documents|
    ensures SortedDesc(r.documents)
    ensures forall i :: 0 <= i < |r.documents| ==>
      r.documents[i].score > 0.0 && MatchWhere(r.documents[i].metadata, where)
    ensures n >= 0 ==> |r.documents| <= n
    ensures n >= |st| ==> multiset(r.documents) == multiset(Scored(Docs(st), query, where))
  {
    var scored := Scored(Docs(st), query, where);
    var all := SortDesc(scored);
    var docs := Seqs.Prefix(all, n);
    SortedPrefix(all, |docs|);
    ScoredLength(Docs(st), query, where);
    SortedKeeps(scored, all, docs, where);
    SearchResult(true, docs, |docs|)
  }

  /** A prefix of a rearrangement of scored documents holds only scored,
      matching documents. */
  lemma SortedKeeps(scored: seq<Doc>, all: seq<Doc>, docs: seq<Doc>, where: Where)
    requires forall i :: 0 <= i < |scored| ==> scored[i].score > 0.0 && MatchWhere(scored[i].metadata, where)
    requires multiset(all) == multiset(scored)
    requires |docs| <= |all| && docs == all[..|docs|]
    ensures forall i :: 0 <= i < |docs| ==> docs[i].score > 0.0 && MatchWhere(docs[i].metadata, where)
  {
    forall i | 0 <= i < |docs|
      ensures docs[i].score > 0.0 && MatchWhere(docs[i].metadata, where)
    {
      assert docs[i] == all[i];
      assert all[i] in multiset(all);
      assert docs[i] in scored;
    }
  }

  lemma {:induction false} SortedPrefix(xs: seq<Doc>, k: nat)
    requires SortedDesc(xs) && k <= |xs|
    ensures SortedDesc(xs[..k])
  {
  }

  lemma {:induction false} ScoredLength(docs: seq<Doc>, query: string, where: Where)
    ensures |Scored(docs, query, where)| <= |docs|
  {
    if |docs| > 0 {
      ScoredLength(docs[1..], query, where);
    }
  }

  /** The documents matching `where`, in store order, scored 1. */
  function Matching(docs: seq<Doc>, where: Where): (r: seq<Doc>)
    ensures |r| <= |docs|
    ensures forall i :: 0 <= i < |r| ==> MatchWhere(r[i].metadata, where) && r[i].score == 1.0
  {
    if |docs| == 0 then []
    else
      var rest := Matching(docs[1..], where);
      if MatchWhere(docs[0].metadata, where) then [docs[0].(score := 1.0)] + rest else rest
  }

  /** `search_by_metadata`: matching documents in insertion order. The loop
      checks the limit after appending, so a limit below 1 still returns one. */
  function SearchByMetadata(st: Store, where: Where, n: int): (r: SearchResult)
    ensures r.success && r.totalCount == |r.documents|
    ensures forall i :: 0 <= i < |r.documents| ==> MatchWhere(r.documents[i].metadata, where)
    ensures |r.documents| <= (if n < 1 then 1 else n)
    ensures |r.documents| <= |Matching(Docs(st), where)|
    ensures r.documents == Matching(Docs(st), where)[..|r.documents|]
    ensures |r.documents| < (if n < 1 then 1 else n) ==> r.documents == Matching(Docs(st), where)
    ensures |Matching(Docs(st), where)| <= (if n < 1 then 1 else n) ==> r.documents == Matching(Docs(st), where)
  {
    var all := Matching(Docs(st), where);
    var docs := Seqs.Prefix(all, if n < 1 then 1 else n);
    SearchResult(true, docs, |docs|)
  }

  /** The ids of a document list. */
  function Ids(docs: seq<Doc>): (r: seq<string>)
    ensures |r| == |docs|
    ensures forall i :: 0 <= i < |docs| ==> r[i] == docs[i].id
  {
    seq(|docs|, i requires 0 <= i < |docs| => docs[i].id)
  }

  /** Every listed document that matches `where` keeps its id in `Matching`. */
  lemma {:induction false} MatchingHas(docs: seq<Doc>, where: Where, d: Doc)
    requires d in docs && MatchWhere(d.metadata, where)
    ensures d.id in Ids(Matching(docs, where))
  {
    var m := Matching(docs, where);
    if docs[0] == d {
      assert m[0].id == d.id;
    } else {
      MatchingHas(docs[1..], where, d);
      var rest := Matching(docs[1..], where);
      var i :| 0 <= i < |rest| && rest[i].id == d.id;
      if MatchWhere(docs[0].metadata, where) {
        assert m[i + 1] == rest[i];
      } else {
        assert m[i] == rest[i];
      }
    }
  }

  /** Every stored document that matches `where` is listed by `Matching`. */
  lemma {:induction false} MatchingComplete(st: Store, where: Where, k: string)
    requires WellFormed(st)
    requires GetDocument(st, k).Some? && MatchWhere(GetDocument(st, k).value.metadata, where)
    ensures k in Ids(Matching(Docs(st), where))
  {
    var d := GetDocument(st, k).value;
    GetWellFormed(st, k);
    var i :| 0 <= i < |st| && st[i] == (k, d);
    assert Docs(st)[i] == d;
    MatchingHas(Docs(st), where, d);
  }
}
