/** The global document-type storage shared by all projects: a map from type
    id to type kept in insertion order, with register, update and delete, and
    the similarity lookup that falls back from semantic search to local
    string matching. */
module GlobalDocTypes {
  import opened Wrappers
  import opened Strings
  import Dict

  datatype DocType = DocType(
    typeId: string, name: string, folderName: string, templateDocId: string,
    description: string, fields: seq<string>, isBuiltin: bool, isGlobal: bool)

  /** The `type_id -> DocumentType` map. */
  type Store = Dict.Dict<DocType>

  /** Ids are unique and every type is filed under its own id. */
  predicate Keyed(st: Store) {
    Dict.UniqueKeys(st) && forall i :: 0 <= i < |st| ==> st[i].1.typeId == st[i].0
  }

  /** `register`: refuses an id already present, leaving the map alone;
      otherwise files the type, marked global, after the existing ones. */
  function Register(st: Store, t: DocType): (r: (Store, bool))
    ensures !r.1 <==> t.typeId in Dict.Keys(st)
    ensures !r.1 ==> r.0 == st
    ensures r.1 ==> Dict.Get(r.0, t.typeId) == Some(t.(isGlobal := true))
    ensures r.1 ==> Dict.Keys(r.0) == Dict.Keys(st) + [t.typeId]
    ensures forall k :: k != t.typeId ==> Dict.Get(r.0, k) == Dict.Get(st, k)
  {
    if t.typeId in Dict.Keys(st) then (st, false)
    else
      Dict.PutKeys(st, t.typeId, t.(isGlobal := true));
      (Dict.Put(st, t.typeId, t.(isGlobal := true)), true)
  }

  /** `update`: refuses an absent id; otherwise replaces the entry in place,
      marked global. */
  function Update(st: Store, t: DocType): (r: (Store, bool))
    ensures r.1 <==> t.typeId in Dict.Keys(st)
    ensures !r.1 ==> r.0 == st
    ensures r.1 ==> Dict.Get(r.0, t.typeId) == Some(t.(isGlobal := true)) && Dict.Keys(r.0) == Dict.Keys(st)
    ensures forall k :: k != t.typeId ==> Dict.Get(r.0, k) == Dict.Get(st, k)
  {
    if t.typeId !in Dict.Keys(st) then (st, false)
    else
      Dict.PutKeys(st, t.typeId, t.(isGlobal := true));
      (Dict.Put(st, t.typeId, t.(isGlobal := true)), true)
  }

  /** `delete`: refuses an absent id; otherwise removes exactly that id. */
  function Delete(st: Store, id: string): (r: (Store, bool))
    ensures r.1 <==> id in Dict.Keys(st)
    ensures !r.1 ==> r.0 == st
    ensures Dict.Get(r.0, id) == None
    ensures forall k :: k != id ==> Dict.Get(r.0, k) == Dict.Get(st, k)
    ensures Keyed(st) && r.1 ==> |r.0| == |st| - 1
  {
    if id !in Dict.Keys(st) then
      assert Dict.Get(st, id) == None;
      (st, false)
    else
      Dict.RemoveShape(st, id);
      (Dict.Remove(st, id), true)
  }

  /** A written entry and the old ones are the only entries after a write. */
  lemma PutKeyed(st: Store, t: DocType)
    requires Keyed(st)
    ensures Keyed(Dict.Put(st, t.typeId, t))
  {
    Dict.PutUnique(st, t.typeId, t);
    Dict.PutPairs(st, t.typeId, t);
    var r := Dict.Put(st, t.typeId, t);
    forall i | 0 <= i < |r|
      ensures r[i].1.typeId == r[i].0
    {
      assert r[i] in r;
      if r[i] != (t.typeId, t) {
        var j :| 0 <= j < |st| && st[j] == r[i];
      }
    }
  }

  /** Register, update and delete keep every type filed under its own id. */
  lemma OperationsKeepKeyed(st: Store, t: DocType, id: string)
    requires Keyed(st)
    ensures Keyed(Register(st, t).0) && Keyed(Update(st, t).0) && Keyed(Delete(st, id).0)
  {
    PutKeyed(st, t.(isGlobal := true));
    Dict.RemoveShape(st, id);
    var r := Dict.Remove(st, id);
    forall i | 0 <= i < |r|
      ensures r[i].1.typeId == r[i].0
    {
      assert r[i] in r;
      var j :| 0 <= j < |st| && st[j] == r[i];
    }
  }

  /** Deleting a type just registered under a fresh id restores the map. */
  lemma {:induction false} RegisterThenDelete(st: Store, t: DocType)
    requires t.typeId !in Dict.Keys(st)
    ensures Delete(Register(st, t).0, t.typeId) == (st, true)
  {
    var v := t.(isGlobal := true);
    Dict.PutKeys(st, t.typeId, v);
    PutRemove(st, t.typeId, v);
  }

  lemma {:induction false} PutRemove(d: Store, k: string, v: DocType)
    requires k !in Dict.Keys(d)
    ensures Dict.Remove(Dict.Put(d, k, v), k) == d
    decreases |d|
  {
    if |d| > 0 {
      assert Dict.Keys(d) == [d[0].0] + Dict.Keys(d[1..]);
      assert Dict.Put(d, k, v) == [d[0]] + Dict.Put(d[1..], k, v);
      assert ([d[0]] + Dict.Put(d[1..], k, v))[1..] == Dict.Put(d[1..], k, v);
      PutRemove(d[1..], k, v);
      assert [d[0]] + d[1..] == d;
    } else {
      assert Dict.Put(d, k, v)[1..] == [];
    }
  }

  // ---- _find_similar_local ----

  function NormChar(c: char): char {
    if c == '-' || c == ' ' then '_' else LowerChar(c)
  }

  /** `query.lower().replace("-", "_").replace(" ", "_")`. */
  function Normalise(q: string): (r: string)
    ensures |r| == |q|
    ensures forall i :: 0 <= i < |q| ==> r[i] == NormChar(q[i])
  {
    seq(|q|, i requires 0 <= i < |q| => NormChar(q[i]))
  }

  /** The match tiers after the exact id: the lower-cased name equals the
      normalised query; the id and the query are prefixes one of the other;
      one contains the other. */
  datatype Tier = ByName | ByPrefix | BySubstring

  predicate Matches(e: (string, DocType), q: string, tier: Tier) {
    match tier
    case ByName => Lower(e.1.name) == q
    case ByPrefix => StartsWith(e.0, q) || StartsWith(q, e.0)
    case BySubstring => Contains(q, e.0) || Contains(e.0, q)
  }

  /** The position of the first entry matching at `tier`, or `|st|`. */
  function FirstMatch(st: Store, q: string, tier: Tier): (k: nat)
    ensures k <= |st|
    ensures k < |st| ==> Matches(st[k], q, tier)
    ensures forall j :: 0 <= j < k ==> !Matches(st[j], q, tier)
    decreases |st|
  {
    if |st| == 0 then 0
    else if Matches(st[0], q, tier) then 0
    else
      var k := FirstMatch(st[1..], q, tier);
      assert forall j :: 1 <= j < k + 1 ==> st[j] == st[1..][j - 1];
      1 + k
  }

  /** The type at a tier's first match, if any. */
  function AtTier(st: Store, q: string, tier: Tier): Option<DocType> {
    var k := FirstMatch(st, q, tier);
    if k < |st| then Some(st[k].1) else None
  }

  /** `_find_similar_local(query)`. */
  function FindSimilarLocal(st: Store, query: string): Option<DocType> {
    var q := Normalise(query);
    if q in Dict.Keys(st) then Dict.Get(st, q)
    else if AtTier(st, q, ByName).Some? then AtTier(st, q, ByName)
    else if AtTier(st, q, ByPrefix).Some? then AtTier(st, q, ByPrefix)
    else AtTier(st, q, BySubstring)
  }

  /** A prefix is a substring. */
  lemma PrefixContains(s: string, p: string)
    requires StartsWith(s, p)
    ensures Contains(s, p)
  {
  }

  /** Any entry the normalised query matches at some tier. */
  predicate Related(e: (string, DocType), q: string) {
    e.0 == q || Matches(e, q, ByName) || Matches(e, q, BySubstring)
  }

  /** When the local matcher finds a type, it is an entry of the map
      related to the normalised query. */
  lemma LocalFound(st: Store, query: string)
    ensures FindSimilarLocal(st, query).Some? ==>
      exists i :: 0 <= i < |st| && st[i].1 == FindSimilarLocal(st, query).value && Related(st[i], Normalise(query))
  {
    var q := Normalise(query);
    var r := FindSimilarLocal(st, query);
    if q in Dict.Keys(st) {
      var j :| 0 <= j < |st| && st[j] == (q, r.value);
      assert Related(st[j], q);
    } else if r.Some? {
      var kp := FirstMatch(st, q, ByPrefix);
      if AtTier(st, q, ByName).None? && kp < |st| {
        if StartsWith(st[kp].0, q) {
          PrefixContains(st[kp].0, q);
        } else {
          PrefixContains(q, st[kp].0);
        }
        assert Related(st[kp], q);
      }
    }
  }

  /** The local matcher finds nothing exactly when no entry is related to
      the normalised query. */
  lemma LocalNone(st: Store, query: string)
    ensures FindSimilarLocal(st, query).None? <==> forall i :: 0 <= i < |st| ==> !Related(st[i], Normalise(query))
  {
    var q := Normalise(query);
    LocalFound(st, query);
    if FindSimilarLocal(st, query).None? {
      assert q !in Dict.Keys(st);
      assert forall i :: 0 <= i < |st| ==> st[i].0 != q by {
        assert forall i :: 0 <= i < |st| ==> st[i].0 == Dict.Keys(st)[i];
      }
      assert FirstMatch(st, q, ByName) == |st| && FirstMatch(st, q, BySubstring) == |st|;
    }
  }

  /** Each tier outranks the ones after it: an entry matching by name wins
      over an earlier entry matching only by prefix. */
  lemma NameBeatsPrefix(st: Store, query: string, i: nat)
    requires Normalise(query) !in Dict.Keys(st)
    requires i < |st| && Matches(st[i], Normalise(query), ByName)
    requires forall j :: 0 <= j < i ==> !Matches(st[j], Normalise(query), ByName)
    ensures FindSimilarLocal(st, query) == Some(st[i].1)
  {
    var q := Normalise(query);
    assert FirstMatch(st, q, ByName) == i;
  }

  /** A type is found by its own id, written in any case with '-' or ' ' for
      '_', when the id itself is lower-case and uses only '_'. */
  lemma FoundById(st: Store, query: string, j: nat)
    requires Keyed(st) && j < |st|
    requires Normalise(query) == st[j].0
    ensures FindSimilarLocal(st, query) == Some(st[j].1)
  {
    assert st[j].0 in Dict.Keys(st) by {
      assert Dict.Keys(st)[j] == st[j].0;
    }
    Dict.GetAt(st, j);
  }

  // ---- find_similar / find_similar_with_score ----

  /** The semantic search's top match as `(type_id, score)`; `None` when the
      RAG server is unavailable or returned nothing. The search itself runs
      outside this model. */
  type RagMatch = Option<(string, real)>

  /** Whether the semantic match names a stored type. */
  predicate Usable(st: Store, rag: RagMatch) {
    rag.Some? && rag.value.0 != "" && rag.value.0 in Dict.Keys(st)
  }

  /** `find_similar_with_score`: the semantic match with its score when it
      names a stored type; else a local match scored 0.8; else (None, 0.0). */
  function FindSimilarWithScore(st: Store, query: string, rag: RagMatch): (r: (Option<DocType>, real))
    ensures Usable(st, rag) ==> r == (Dict.Get(st, rag.value.0), rag.value.1) && r.0.Some?
    ensures !Usable(st, rag) ==> r.0 == FindSimilarLocal(st, query)
    ensures !Usable(st, rag) ==> r.1 == if r.0.Some? then 0.8 else 0.0
  {
    if Usable(st, rag) then (Dict.Get(st, rag.value.0), rag.value.1)
    else
      var m := FindSimilarLocal(st, query);
      if m.Some? then (m, 0.8) else (None, 0.0)
  }

  /** `find_similar`: the same lookup without the score. */
  function FindSimilar(st: Store, query: string, rag: RagMatch): (r: Option<DocType>)
    ensures Usable(st, rag) ==> r == Dict.Get(st, rag.value.0) && r.Some?
    ensures !Usable(st, rag) ==> r == FindSimilarLocal(st, query)
  {
    if Usable(st, rag) then Dict.Get(st, rag.value.0) else FindSimilarLocal(st, query)
  }

  /** Both lookups return the same type, and "nothing found" always scores 0. */
  lemma SimilarAgree(st: Store, query: string, rag: RagMatch)
    ensures FindSimilar(st, query, rag) == FindSimilarWithScore(st, query, rag).0
    ensures FindSimilarWithScore(st, query, rag).0.None? ==> FindSimilarWithScore(st, query, rag).1 == 0.0
  {
  }
}
