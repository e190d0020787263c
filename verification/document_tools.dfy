/** The document tools: reading a document by id or through a catalog
    search, updating its text and catalog metadata, the catalog sheet row
    written for a new document, and the project's custom document types
    kept in its configuration. Google Docs is a parameter (a lookup that
    either yields the document or fails); the project configuration is
    reduced to its custom type list. */
module DocumentTools {
  import opened Wrappers
  import opened Json
  import opened Strings
  import Seqs
  import Dict
  import Clock
  import CatalogModel
  import opened RagIndex
  import RagClient
  import GlobalDocTypes

  type DocType = GlobalDocTypes.DocType

  // ------------------------------------------------------- document types

  /** `list_document_types`, corrected: the built-in types, then the
      custom types of the current project (none without a project
      configuration). The corrected tools read and save the custom list
      under the `document_types` key the registration writes into the
      configuration data; `ListTypesAsWritten` and its neighbours are the
      code as written. */
  function ListTypes(builtins: seq<DocType>, custom: Option<seq<DocType>>): (r: seq<DocType>)
    ensures |r| == |builtins| + |custom.GetOr([])|
    ensures r[..|builtins|] == builtins
    ensures forall i :: 0 <= i < |custom.GetOr([])| ==> r[|builtins| + i] == custom.GetOr([])[i]
  {
    builtins + custom.GetOr([])
  }

  predicate Names(t: DocType, q: string) {
    t.typeId == q || t.name == q
  }

  /** Index of the first type whose id or name is `q`, or `|ts|`. */
  function FirstNamed(ts: seq<DocType>, q: string): (k: nat)
    ensures k <= |ts|
    ensures k < |ts| ==> Names(ts[k], q)
    ensures forall j :: 0 <= j < k ==> !Names(ts[j], q)
  {
    if |ts| == 0 || Names(ts[0], q) then 0
    else
      var k := 1 + FirstNamed(ts[1..], q);
      assert forall j :: 1 <= j < k ==> ts[j] == ts[1..][j - 1];
      k
  }

  /** `get_document_type`: the first listed type, built-ins first, whose id
      or display name is the query. */
  function GetDocumentType(builtins: seq<DocType>, custom: Option<seq<DocType>>, query: string)
    : (r: Option<DocType>)
    ensures r.None? <==> forall i :: 0 <= i < |ListTypes(builtins, custom)| ==> !Names(ListTypes(builtins, custom)[i], query)
    ensures r.Some? ==> Names(r.value, query) && r.value in ListTypes(builtins, custom)
  {
    var all := ListTypes(builtins, custom);
    var k := FirstNamed(all, query);
    if k < |all| then Some(all[k]) else None
  }

  /** A built-in type shadows every custom type answering to the same query. */
  lemma {:induction false} BuiltinShadows(builtins: seq<DocType>, custom: Option<seq<DocType>>, query: string, i: nat)
    requires i < |builtins| && Names(builtins[i], query)
    ensures GetDocumentType(builtins, custom, query).Some?
    ensures GetDocumentType(builtins, custom, query).value in builtins
  {
    var all := ListTypes(builtins, custom);
    assert all[i] == builtins[i];
    var k := FirstNamed(all, query);
    assert k <= i;
    assert all[k] == builtins[k];
  }

  /** `s.replace("_", "")`. */
  function WithoutUnderscores(s: string): (r: string)
    ensures |r| <= |s|
    ensures forall i :: 0 <= i < |r| ==> r[i] != '_' && r[i] in s
    ensures forall i :: 0 <= i < |s| && s[i] != '_' ==> s[i] in r
  {
    Seqs.Filter(c => c != '_', s)
  }

  /** The type id check of `register_document_type`: non-empty, and
      `type_id.replace("_", "").isalnum()`, which is false on "". */
  predicate ValidTypeId(id: string) {
    id != "" && WithoutUnderscores(id) != ""
    && forall i :: 0 <= i < |WithoutUnderscores(id)| ==> IsAlnum(WithoutUnderscores(id)[i])
  }

  /** A valid id is one made of letters, digits and underscores that is not
      all underscores. */
  lemma {:induction false} ValidTypeIdMeaning(id: string)
    ensures ValidTypeId(id) <==>
      (exists i :: 0 <= i < |id| && id[i] != '_')
      && (forall i :: 0 <= i < |id| ==> id[i] == '_' || IsAlnum(id[i]))
  {
    var w := WithoutUnderscores(id);
    if ValidTypeId(id) {
      assert w[0] in id;
      var j :| 0 <= j < |id| && id[j] == w[0];
      forall i | 0 <= i < |id| && id[i] != '_'
        ensures IsAlnum(id[i])
      {
        assert id[i] in w;
      }
    }
    if (exists i :: 0 <= i < |id| && id[i] != '_')
      && (forall i :: 0 <= i < |id| ==> id[i] == '_' || IsAlnum(id[i])) {
      var j :| 0 <= j < |id| && id[j] != '_';
      assert id[j] in w;
      forall i | 0 <= i < |w|
        ensures IsAlnum(w[i])
      {
        var k :| 0 <= k < |id| && id[k] == w[i];
      }
    }
  }

  predicate HasType(ts: seq<DocType>, id: string) {
    exists i :: 0 <= i < |ts| && ts[i].typeId == id
  }

  /** The fields of a registration request. */
  datatype TypeRequest = TypeRequest(
    typeId: string, name: string, folderName: string, templateDocId: Option<string>,
    description: Option<string>, fields: Option<seq<string>>, createFolder: bool)

  /** The new custom type: optional fields default to empty. */
  function NewType(req: TypeRequest): (t: DocType)
    ensures t.typeId == req.typeId && !t.isBuiltin && !t.isGlobal
    ensures req.templateDocId.None? ==> t.templateDocId == ""
    ensures req.fields.None? ==> t.fields == []
  {
    GlobalDocTypes.DocType(req.typeId, req.name, req.folderName, req.templateDocId.GetOr(""),
            req.description.GetOr(""), req.fields.GetOr([]), false, false)
  }

  /** The outcomes of registering or deleting a custom type. */
  datatype TypeOutcome =
    | InvalidId | Reserved | NoProject | Duplicate | Missing | SaveFailed
    | Registered(folderCreated: bool)
    | Deleted

  /** `register_document_type`. `project` is the current project's custom
      type list (None without a project), `rootFolder` its root folder id,
      `folderFound` what the folder lookup said (None when the Drive call
      raised; the failure is only logged), `saveOk` whether saving the
      configuration succeeded. Returns the outcome and the custom list as
      it is stored afterwards. */
  function RegisterType(builtins: seq<DocType>, project: Option<seq<DocType>>, rootFolder: string,
                        req: TypeRequest, folderFound: Option<bool>, saveOk: bool)
    : (r: (TypeOutcome, Option<seq<DocType>>))
    ensures r.0 == InvalidId <==> !ValidTypeId(req.typeId)
    ensures r.0 == Reserved <==> ValidTypeId(req.typeId) && HasType(builtins, req.typeId)
    ensures r.0 == NoProject <==>
      ValidTypeId(req.typeId) && !HasType(builtins, req.typeId) && project.None?
    ensures r.0 == Duplicate <==>
      ValidTypeId(req.typeId) && !HasType(builtins, req.typeId) && project.Some?
      && HasType(project.value, req.typeId)
    ensures r.0.Registered? <==>
      ValidTypeId(req.typeId) && !HasType(builtins, req.typeId) && project.Some?
      && !HasType(project.value, req.typeId) && saveOk
    ensures r.0 == SaveFailed <==>
      ValidTypeId(req.typeId) && !HasType(builtins, req.typeId) && project.Some?
      && !HasType(project.value, req.typeId) && !saveOk
    ensures r.0.Registered? ==> r.1 == Some(project.value + [NewType(req)])
    ensures r.0.Registered? ==>
      (r.0.folderCreated <==> req.createFolder && rootFolder != "" && folderFound == Some(false))
    ensures !r.0.Registered? ==> r.1 == project
  {
    if !ValidTypeId(req.typeId) then (InvalidId, project)
    else if HasType(builtins, req.typeId) then (Reserved, project)
    else if project.None? then (NoProject, project)
    else if HasType(project.value, req.typeId) then (Duplicate, project)
    else
      var created := req.createFolder && rootFolder != "" && folderFound == Some(false);
      if saveOk then (Registered(created), Some(project.value + [NewType(req)]))
      else (SaveFailed, project)
  }

  /** The custom list without the types of id `id`. */
  function WithoutType(ts: seq<DocType>, id: string): (r: seq<DocType>)
    ensures |r| <= |ts|
    ensures forall i :: 0 <= i < |r| ==> r[i].typeId != id && r[i] in ts
    ensures forall i :: 0 <= i < |ts| && ts[i].typeId != id ==> ts[i] in r
  {
    Seqs.Filter((t: DocType) => t.typeId != id, ts)
  }

  /** Deleting keeps the length exactly when no type has that id, in which
      case the list is unchanged. */
  lemma {:induction false} WithoutTypeLength(ts: seq<DocType>, id: string)
    ensures |WithoutType(ts, id)| == |ts| <==> !HasType(ts, id)
    ensures !HasType(ts, id) ==> WithoutType(ts, id) == ts
  {
    if |ts| > 0 {
      WithoutTypeLength(ts[1..], id);
      assert WithoutType(ts, id) == if ts[0].typeId != id then [ts[0]] + WithoutType(ts[1..], id)
                                     else WithoutType(ts[1..], id);
      if HasType(ts[1..], id) {
        var i :| 0 <= i < |ts[1..]| && ts[1..][i].typeId == id;
        assert ts[i + 1].typeId == id;
      }
      if HasType(ts, id) && ts[0].typeId != id {
        var i :| 0 <= i < |ts| && ts[i].typeId == id;
        assert ts[1..][i - 1].typeId == id;
      }
      assert ts == [ts[0]] + ts[1..];
    }
  }

  /** `delete_document_type`: built-in ids are refused first (with no id
      check), then a missing project; not-found is reported when filtering
      the custom list keeps its length. */
  function DeleteType(builtins: seq<DocType>, project: Option<seq<DocType>>, id: string, saveOk: bool)
    : (r: (TypeOutcome, Option<seq<DocType>>))
    ensures r.0 in {Reserved, NoProject, Missing, SaveFailed, Deleted}
    ensures r.0 == Reserved <==> HasType(builtins, id)
    ensures r.0 == NoProject <==> !HasType(builtins, id) && project.None?
    ensures r.0 == Missing <==> !HasType(builtins, id) && project.Some? && !HasType(project.value, id)
    ensures r.0 == Deleted <==>
      !HasType(builtins, id) && project.Some? && HasType(project.value, id) && saveOk
    ensures r.0 == Deleted ==>
      r.1.Some? && !HasType(r.1.value, id)
      && forall i :: 0 <= i < |project.value| && project.value[i].typeId != id ==> project.value[i] in r.1.value
    ensures r.0 != Deleted ==> r.1 == project
  {
    if HasType(builtins, id) then (Reserved, project)
    else if project.None? then (NoProject, project)
    else
      var kept := WithoutType(project.value, id);
      WithoutTypeLength(project.value, id);
      if |kept| == |project.value| then (Missing, project)
      else if saveOk then (Deleted, Some(kept))
      else (SaveFailed, project)
  }

  /** A registration that succeeds is undone by deleting the same id. */
  lemma {:induction false} RegisterThenDelete(builtins: seq<DocType>, project: Option<seq<DocType>>,
                                              rootFolder: string, req: TypeRequest, folderFound: Option<bool>)
    requires RegisterType(builtins, project, rootFolder, req, folderFound, true).0.Registered?
    ensures DeleteType(builtins, RegisterType(builtins, project, rootFolder, req, folderFound, true).1, req.typeId, true)
            == (Deleted, project)
  {
    var ts := project.value;
    var added := ts + [NewType(req)];
    assert added[|ts|].typeId == req.typeId;
    assert added[..|ts|] == ts;
    WithoutTypeLength(ts, req.typeId);
    WithoutTypeAppend(ts, NewType(req));
  }

  lemma {:induction false} WithoutTypeAppend(ts: seq<DocType>, t: DocType)
    ensures WithoutType(ts + [t], t.typeId) == WithoutType(ts, t.typeId)
  {
    if |ts| > 0 {
      WithoutTypeAppend(ts[1..], t);
      assert (ts + [t])[1..] == ts[1..] + [t];
    } else {
      assert WithoutType([t], t.typeId) == WithoutType([], t.typeId);
    }
  }

  /** Once registered, the type is found by its id, unless some listed type
      already carries that id as its display name. */
  lemma {:induction false} RegisteredIsFound(builtins: seq<DocType>, project: Option<seq<DocType>>,
                                             rootFolder: string, req: TypeRequest, folderFound: Option<bool>)
    requires RegisterType(builtins, project, rootFolder, req, folderFound, true).0.Registered?
    requires forall i :: 0 <= i < |ListTypes(builtins, project)| ==> ListTypes(builtins, project)[i].name != req.typeId
    ensures GetDocumentType(builtins, RegisterType(builtins, project, rootFolder, req, folderFound, true).1, req.typeId)
            == Some(NewType(req))
  {
    var after := RegisterType(builtins, project, rootFolder, req, folderFound, true).1;
    var before := ListTypes(builtins, project);
    var all := ListTypes(builtins, after);
    assert all == before + [NewType(req)];
    forall i | 0 <= i < |before|
      ensures !Names(all[i], req.typeId)
    {
      assert all[i] == before[i];
      if i < |builtins| {
        assert before[i] == builtins[i];
      } else {
        assert before[i] == project.value[i - |builtins|];
      }
    }
    var k := FirstNamed(all, req.typeId);
    assert Names(all[|before|], req.typeId);
    assert k == |before|;
  }

  /** Registering the same id twice: the second attempt is a duplicate and
      stores nothing. */
  lemma {:induction false} RegisterTwice(builtins: seq<DocType>, project: Option<seq<DocType>>, rootFolder: string,
                                         req: TypeRequest, req2: TypeRequest, folderFound: Option<bool>, saveOk: bool)
    requires RegisterType(builtins, project, rootFolder, req, folderFound, true).0.Registered?
    requires req2.typeId == req.typeId
    ensures RegisterType(builtins, RegisterType(builtins, project, rootFolder, req, folderFound, true).1,
                         rootFolder, req2, folderFound, saveOk)
            == (Duplicate, RegisterType(builtins, project, rootFolder, req, folderFound, true).1)
  {
    var after := RegisterType(builtins, project, rootFolder, req, folderFound, true).1.value;
    assert after[|after| - 1].typeId == req.typeId;
  }

  // ------------------------------------------- document types, as written

  /** An exception that escapes a document-type tool. */
  datatype Escaped = AttributeError

  /** `list_document_types` as written: with a current project it reads
      `config.document_types`, an attribute `ProjectConfig` does not have,
      and the `AttributeError` escapes; without one the built-in types are
      listed. */
  function ListTypesAsWritten(builtins: seq<DocType>, configured: bool): (r: Result<seq<DocType>, Escaped>)
    ensures r.Err? <==> configured
    ensures r.Ok? ==> r.value == ListTypes(builtins, None)
  {
    if configured then Err(AttributeError) else Ok(builtins)
  }

  /** `get_document_type` as written: it lists through
      `list_document_types`, so the same exception escapes with a current
      project; otherwise only the built-in types are searched. */
  function GetDocumentTypeAsWritten(builtins: seq<DocType>, configured: bool, query: string)
    : (r: Result<Option<DocType>, Escaped>)
    ensures r.Err? <==> configured
    ensures r.Ok? ==> r.value == GetDocumentType(builtins, None, query)
    ensures r.Ok? && r.value.Some? ==> r.value.value in builtins && Names(r.value.value, query)
  {
    match ListTypesAsWritten(builtins, configured)
    case Err(e) => Err(e)
    case Ok(all) =>
      var k := FirstNamed(all, query);
      Ok(if k < |all| then Some(all[k]) else None)
  }

  /** `register_document_type` as written: the id checks and the missing
      project are reported as in the corrected tool, but the duplicate scan
      over `config.document_types` raises outside any `try`, so no type is
      ever registered. */
  function RegisterTypeAsWritten(builtins: seq<DocType>, configured: bool, req: TypeRequest)
    : (r: Result<TypeOutcome, Escaped>)
    ensures r == Ok(InvalidId) <==> !ValidTypeId(req.typeId)
    ensures r == Ok(Reserved) <==> ValidTypeId(req.typeId) && HasType(builtins, req.typeId)
    ensures r == Ok(NoProject) <==> ValidTypeId(req.typeId) && !HasType(builtins, req.typeId) && !configured
    ensures r.Err? <==> ValidTypeId(req.typeId) && !HasType(builtins, req.typeId) && configured
  {
    if !ValidTypeId(req.typeId) then Ok(InvalidId)
    else if HasType(builtins, req.typeId) then Ok(Reserved)
    else if !configured then Ok(NoProject)
    else Err(AttributeError)
  }

  /** `delete_document_type` as written: built-in ids are refused and a
      missing project reported, but `len(config.document_types)` raises for
      every project, so no type is ever deleted. */
  function DeleteTypeAsWritten(builtins: seq<DocType>, configured: bool, id: string)
    : (r: Result<TypeOutcome, Escaped>)
    ensures r == Ok(Reserved) <==> HasType(builtins, id)
    ensures r == Ok(NoProject) <==> !HasType(builtins, id) && !configured
    ensures r.Err? <==> !HasType(builtins, id) && configured
  {
    if HasType(builtins, id) then Ok(Reserved)
    else if !configured then Ok(NoProject)
    else Err(AttributeError)
  }

  /** With a current project every custom-type tool as written raises,
      where the corrected registration of a valid new id succeeds and the
      corrected listing then shows the new type after the built-ins. */
  lemma {:induction false} CustomTypesUnreachable(builtins: seq<DocType>, rootFolder: string, req: TypeRequest,
                                                  folderFound: Option<bool>)
    requires ValidTypeId(req.typeId) && !HasType(builtins, req.typeId)
    ensures ListTypesAsWritten(builtins, true) == Err(AttributeError)
    ensures GetDocumentTypeAsWritten(builtins, true, req.typeId) == Err(AttributeError)
    ensures RegisterTypeAsWritten(builtins, true, req) == Err(AttributeError)
    ensures DeleteTypeAsWritten(builtins, true, req.typeId) == Err(AttributeError)
    ensures var reg := RegisterType(builtins, Some([]), rootFolder, req, folderFound, true);
      reg.0.Registered? && ListTypes(builtins, reg.1) == builtins + [NewType(req)]
  {
    var reg := RegisterType(builtins, Some([]), rootFolder, req, folderFound, true);
    assert reg.1 == Some([] + [NewType(req)]);
    assert [] + [NewType(req)] == [NewType(req)];
  }

  // --------------------------------------------------------- get_document

  /** The catalog where-clause `{"doc_id": {"$eq": docId}}`. */
  function DocIdWhere(docId: string): Where {
    Where([Eq("doc_id", docId)])
  }

  /** `search_by_metadata(where={"doc_id": ...}, n_results=1)`, first hit. */
  function CatalogHit(st: Store, docId: string): (r: Option<Doc>)
    ensures r.Some? ==> Field(r.value.metadata, "doc_id") == JStr(docId)
  {
    var res := SearchByMetadata(st, DocIdWhere(docId), 1);
    RagClient.EqWhere("doc_id", docId);
    if res.success && |res.documents| > 0 then Some(res.documents[0]) else None
  }

  lemma {:induction false} MatchingAt(docs: seq<Doc>, w: Where, i: nat)
    requires i < |docs| && MatchWhere(docs[i].metadata, w)
    requires forall j :: 0 <= j < i ==> !MatchWhere(docs[j].metadata, w)
    ensures |Matching(docs, w)| > 0 && Matching(docs, w)[0] == docs[i].(score := 1.0)
  {
    if i > 0 {
      assert !MatchWhere(docs[0].metadata, w);
      forall j | 0 <= j < i - 1
        ensures !MatchWhere(docs[1..][j].metadata, w)
      {
        assert docs[1..][j] == docs[j + 1];
      }
      MatchingAt(docs[1..], w, i - 1);
    }
  }

  lemma {:induction false} MatchingNone(docs: seq<Doc>, w: Where)
    ensures |Matching(docs, w)| == 0 <==> forall j :: 0 <= j < |docs| ==> !MatchWhere(docs[j].metadata, w)
  {
    if |docs| > 0 {
      MatchingNone(docs[1..], w);
      if !MatchWhere(docs[0].metadata, w) {
        forall j | 1 <= j < |docs|
          ensures docs[j] == docs[1..][j - 1]
        {
        }
      }
    }
  }

  lemma {:induction false} MatchingHead(docs: seq<Doc>, w: Where) returns (i: nat)
    requires |Matching(docs, w)| > 0
    ensures i < |docs| && MatchWhere(docs[i].metadata, w)
    ensures forall j :: 0 <= j < i ==> !MatchWhere(docs[j].metadata, w)
    ensures Matching(docs, w)[0] == docs[i].(score := 1.0)
  {
    if MatchWhere(docs[0].metadata, w) {
      i := 0;
    } else {
      var k := MatchingHead(docs[1..], w);
      i := k + 1;
      forall j | 1 <= j < i
        ensures !MatchWhere(docs[j].metadata, w)
      {
        assert docs[j] == docs[1..][j - 1];
      }
    }
  }

  /** The hit is the first stored document whose `doc_id` is `docId`. */
  lemma {:induction false} CatalogHitIsFirst(st: Store, docId: string, i: nat)
    requires i < |st| && Field(st[i].1.metadata, "doc_id") == JStr(docId)
    requires forall j :: 0 <= j < i ==> Field(st[j].1.metadata, "doc_id") != JStr(docId)
    ensures CatalogHit(st, docId) == Some(st[i].1.(score := 1.0))
  {
    var w := DocIdWhere(docId);
    RagClient.EqWhere("doc_id", docId);
    assert Docs(st)[i] == st[i].1;
    forall j | 0 <= j < i
      ensures !MatchWhere(Docs(st)[j].metadata, w)
    {
      assert Docs(st)[j] == st[j].1;
    }
    MatchingAt(Docs(st), w, i);
  }

  /** There is no hit exactly when no stored document has that `doc_id`. */
  lemma {:induction false} CatalogHitNone(st: Store, docId: string)
    ensures CatalogHit(st, docId).None? <==>
      forall j :: 0 <= j < |st| ==> Field(st[j].1.metadata, "doc_id") != JStr(docId)
  {
    var w := DocIdWhere(docId);
    RagClient.EqWhere("doc_id", docId);
    MatchingNone(Docs(st), w);
    assert forall j :: 0 <= j < |st| ==> Docs(st)[j] == st[j].1;
  }

  /** Where the hit sits in a well-formed store. */
  lemma {:induction false} HitAt(st: Store, docId: string) returns (i: nat)
    requires WellFormed(st) && CatalogHit(st, docId).Some?
    ensures i < |st| && CatalogHit(st, docId) == Some(st[i].1.(score := 1.0))
    ensures st[i].0 == st[i].1.id
    ensures forall j :: 0 <= j < i ==> Field(st[j].1.metadata, "doc_id") != JStr(docId)
    ensures forall j :: 0 <= j < i ==> st[j].0 != st[i].0
    ensures GetDocument(st, st[i].0) == Some(st[i].1)
  {
    var w := DocIdWhere(docId);
    RagClient.EqWhere("doc_id", docId);
    i := MatchingHead(Docs(st), w);
    assert Docs(st)[i] == st[i].1;
    forall j | 0 <= j < i
      ensures Field(st[j].1.metadata, "doc_id") != JStr(docId)
    {
      assert Docs(st)[j] == st[j].1;
    }
    Dict.GetAt(st, i);
  }

  /** In a well-formed store the hit is the stored document under its id. */
  lemma {:induction false} HitStored(st: Store, docId: string)
    ensures WellFormed(st) && CatalogHit(st, docId).Some? ==>
      var h := CatalogHit(st, docId).value;
      GetDocument(st, h.id).Some? && GetDocument(st, h.id).value.(score := 1.0) == h
  {
    if WellFormed(st) && CatalogHit(st, docId).Some? {
      var i := HitAt(st, docId);
    }
  }

  datatype DocContent = DocContent(title: string, bodyText: string, url: string)

  /** The Google Docs read: None when the API call raises. */
  type DocsReader = string -> Option<DocContent>

  datatype Document = Document(docId: string, name: string, docType: string, content: string,
                               source: string, metadata: map<string, Json>)

  datatype DocRef = DocRef(name: string, docId: string, reason: string)

  datatype DocumentResult = DocumentResult(found: bool, document: Option<Document>, candidates: seq<DocRef>)

  const NotFound := DocumentResult(false, None, [])

  /** `meta.get(k, "")` kept as the JSON value it is. */
  function FieldOr(m: Obj, k: string): Json {
    if k in m then m[k] else JStr("")
  }

  /** `_get_document_by_id`: the text from Docs, the catalog metadata (if
      any entry has this doc_id) from the index. */
  function FetchById(st: Store, docId: string, content: Option<DocContent>): (r: DocumentResult)
    ensures r.found <==> content.Some?
    ensures r.found == r.document.Some? && r.candidates == []
    ensures r.found ==>
      var d := r.document.value;
      d.docId == docId && d.name == content.value.title && d.content == content.value.bodyText
      && d.source == "Google Docs" && d.metadata.Keys == {"url", "phase_task", "feature", "updated_at"}
      && d.metadata["url"] == JStr(content.value.url)
    ensures r.found && CatalogHit(st, docId).None? ==>
      r.document.value.docType == "" && r.document.value.metadata["phase_task"] == JStr("")
      && r.document.value.metadata["feature"] == JStr("")
      && r.document.value.metadata["updated_at"] == JStr("")
  {
    match content
    case None => NotFound
    case Some(c) =>
      var meta := if CatalogHit(st, docId).Some? then CatalogHit(st, docId).value.metadata else map[];
      DocumentResult(true, Some(Document(docId, c.title, StrField(meta, "doc_type", ""), c.bodyText, "Google Docs",
        map["url" := JStr(c.url), "phase_task" := FieldOr(meta, "phase_task"),
            "feature" := FieldOr(meta, "feature"), "updated_at" := FieldOr(meta, "updated_at")])), [])
  }

  /** The fetched document carries the type and phase of the first stored
      document with that doc_id. */
  lemma {:induction false} FetchUsesFirstEntry(st: Store, docId: string, c: DocContent, i: nat)
    requires i < |st| && Field(st[i].1.metadata, "doc_id") == JStr(docId)
    requires forall j :: 0 <= j < i ==> Field(st[j].1.metadata, "doc_id") != JStr(docId)
    ensures FetchById(st, docId, Some(c)).document.value.docType == StrField(st[i].1.metadata, "doc_type", "")
    ensures FetchById(st, docId, Some(c)).document.value.metadata["phase_task"] == FieldOr(st[i].1.metadata, "phase_task")
  {
    CatalogHitIsFirst(st, docId, i);
  }

  function Ref(d: Doc): DocRef {
    DocRef(StrField(d.metadata, "name", ""), StrField(d.metadata, "doc_id", ""),
           StrField(d.metadata, "doc_type", "") + " / " + StrField(d.metadata, "phase_task", ""))
  }

  /** One candidate per hit, in hit order. */
  function Refs(docs: seq<Doc>): (r: seq<DocRef>)
    ensures |r| == |docs|
    ensures forall i :: 0 <= i < |docs| ==> r[i] == Ref(docs[i])
  {
    seq(|docs|, i requires 0 <= i < |docs| => Ref(docs[i]))
  }

  /** `get_document`. Empty strings stand for omitted optional arguments
      (the source tests their truthiness); `project` is the current project
      id ("" for none) and `docs` the Google Docs read. */
  function ResolveDocument(st: Store, project: string, query: string, docId: string, docType: string,
                       phaseTask: string, docs: DocsReader): (r: DocumentResult)
    ensures docId != "" ==> (r.found <==> docs(docId).Some?) && r.candidates == []
    ensures r.found ==> r.candidates == [] && r.document.Some?
    ensures docId != "" && r.found ==> r.document.value.docId == docId
    ensures docId == "" && query == "" ==> r == NotFound
    ensures |r.candidates| > 0 ==> !r.found && docId == "" && query != "" && 2 <= |r.candidates| <= 10
    ensures forall i :: 0 <= i < |r.candidates| ==>
      (docType != "" ==> Seqs.Prefix(r.candidates[i].reason, |docType| + 3) == docType + " / ")
  {
    if docId != "" then FetchById(st, docId, docs(docId))
    else if query == "" then NotFound
    else
      var res := RagClient.SearchCatalog(st, query, project, docType, phaseTask, 10);
      if !res.success || |res.documents| == 0 then NotFound
      else if |res.documents| == 1 then
        var id := StrField(res.documents[0].metadata, "doc_id", "");
        FetchById(st, id, docs(id))
      else
        var refs := Refs(res.documents);
        assert forall i :: 0 <= i < |refs| && docType != "" ==>
          refs[i].reason[..|docType| + 3] == docType + " / ";
        DocumentResult(false, None, refs)
  }

  /** Several hits give one candidate per hit, in order; a single hit is
      fetched by the doc_id its metadata carries. */
  lemma {:induction false} SearchResolution(st: Store, project: string, query: string, docType: string,
                                            phaseTask: string, docs: DocsReader)
    requires query != ""
    ensures var res := RagClient.SearchCatalog(st, query, project, docType, phaseTask, 10);
      var r := ResolveDocument(st, project, query, "", docType, phaseTask, docs);
      (|res.documents| == 0 ==> r == NotFound)
      && (|res.documents| == 1 ==>
            r == FetchById(st, StrField(res.documents[0].metadata, "doc_id", ""),
                           docs(StrField(res.documents[0].metadata, "doc_id", ""))))
      && (|res.documents| > 1 ==> r.candidates == Refs(res.documents) && !r.found)
  {
    var res := RagClient.SearchCatalog(st, query, project, docType, phaseTask, 10);
    assert res == Search(st, query, 10, RagClient.CatalogWhere(project, docType, phaseTask));
  }

  // ------------------------------------------------------ update_document

  /** `{**existing, **metadata}` with a fresh `updated_at`. */
  function Merged(existing: Obj, metadata: Dict.Dict<Json>, stamp: string): (m: Obj)
    ensures forall k :: k in m <==> k in existing || k in Dict.Keys(metadata) || k == "updated_at"
    ensures m["updated_at"] == JStr(stamp)
    ensures forall k :: k in Dict.Keys(metadata) && k != "updated_at" ==> Dict.Get(metadata, k) == Some(m[k])
    ensures forall k :: k in existing && k !in Dict.Keys(metadata) && k != "updated_at" ==> m[k] == existing[k]
  {
    (existing + Dict.ToMap(metadata))["updated_at" := JStr(stamp)]
  }

  /** In `update_document`: non-empty metadata and a catalog entry for `docId`
      rewrite that entry's metadata and report the caller's keys. */
  function MergeStep(st: Store, docId: string, metadata: Dict.Dict<Json>, stamp: string)
    : (r: (Store, seq<string>))
    ensures |metadata| == 0 || CatalogHit(st, docId).None? ==> r == (st, [])
    ensures |metadata| > 0 && CatalogHit(st, docId).Some? ==> r.1 == Dict.Keys(metadata)
    ensures WellFormed(st) ==> WellFormed(r.0)
    ensures WellFormed(st) && |metadata| > 0 && CatalogHit(st, docId).Some? ==>
      GetDocument(r.0, CatalogHit(st, docId).value.id)
        == Some(CatalogHit(st, docId).value.(metadata := Merged(CatalogHit(st, docId).value.metadata, metadata, stamp),
                                            score := 0.0))
    ensures forall k :: (CatalogHit(st, docId).None? || k != CatalogHit(st, docId).value.id) ==>
      GetDocument(r.0, k) == GetDocument(st, k)
  {
    if |metadata| == 0 then (st, [])
    else match CatalogHit(st, docId)
      case None => (st, [])
      case Some(h) =>
        var (s1, _) := UpdateDocument(st, h.id, None, Some(Merged(h.metadata, metadata, stamp)));
        PutWellFormed(st, Doc(h.id, GetDocument(st, h.id).GetOr(h).content, Merged(h.metadata, metadata, stamp), 0.0));
        HitStored(st, docId);
        (s1, Dict.Keys(metadata))
  }

  /** In `update_document`: with new content, the entry's `updated_at` is set again. */
  function Touch(st: Store, docId: string, stamp: string): (r: Store)
    ensures CatalogHit(st, docId).None? ==> r == st
    ensures WellFormed(st) ==> WellFormed(r)
    ensures WellFormed(st) && CatalogHit(st, docId).Some? ==>
      GetDocument(r, CatalogHit(st, docId).value.id)
        == Some(CatalogHit(st, docId).value.(metadata := CatalogHit(st, docId).value.metadata["updated_at" := JStr(stamp)],
                                            score := 0.0))
    ensures forall k :: (CatalogHit(st, docId).None? || k != CatalogHit(st, docId).value.id) ==>
      GetDocument(r, k) == GetDocument(st, k)
  {
    match CatalogHit(st, docId)
    case None => st
    case Some(h) =>
      var meta := h.metadata["updated_at" := JStr(stamp)];
      PutWellFormed(st, Doc(h.id, GetDocument(st, h.id).GetOr(h).content, meta, 0.0));
      HitStored(st, docId);
      UpdateDocument(st, h.id, None, Some(meta)).0
  }

  datatype UpdateResult = UpdateResult(success: bool, docId: string, updatedFields: seq<string>)

  /** `update_document`. `docsOk` says whether the Docs text edit succeeded
      (it only happens when `content` is given); `now` and `later` are the
      two clock readings. The Docs text itself is not modelled here. */
  function UpdateDoc(st: Store, docId: string, content: Option<string>, metadata: Dict.Dict<Json>,
                     docsOk: bool, now: Clock.Instant, later: Clock.Instant): (r: (Store, UpdateResult))
    ensures r.1.success <==> content.None? || docsOk
    ensures r.1.docId == docId
    ensures !r.1.success ==> r.0 == st && r.1.updatedFields == []
    ensures r.1.success ==>
      r.1.updatedFields == (if content.Some? then ["content"] else [])
                           + (if |metadata| > 0 && CatalogHit(st, docId).Some? then Dict.Keys(metadata) else [])
    ensures content.None? && (|metadata| == 0 || CatalogHit(st, docId).None?) ==> r.0 == st
    ensures WellFormed(st) ==> WellFormed(r.0)
  {
    if content.Some? && !docsOk then (st, UpdateResult(false, docId, []))
    else
      var (s1, keys) := MergeStep(st, docId, metadata, Clock.IsoFormat(now));
      var s2 := if content.Some? then Touch(s1, docId, Clock.IsoFormat(later)) else s1;
      (s2, UpdateResult(true, docId, (if content.Some? then ["content"] else []) + keys))
  }

  /** Replacing the document at position `i` keeps its place. */
  lemma {:induction false} PutAt(st: Store, i: nat, d: Doc)
    requires i < |st| && forall j :: 0 <= j < i ==> st[j].0 != st[i].0
    ensures Dict.Put(st, st[i].0, d) == st[i := (st[i].0, d)]
  {
    var k := st[i].0;
    if i > 0 {
      assert st[0].0 != k;
      var t := st[1..];
      assert t[i - 1] == st[i];
      forall j | 0 <= j < i - 1
        ensures t[j].0 != t[i - 1].0
      {
        assert t[j] == st[j + 1];
      }
      PutAt(t, i - 1, d);
      assert Dict.Put(st, k, d) == [st[0]] + Dict.Put(t, k, d);
      assert [st[0]] + t[i - 1 := (k, d)] == st[i := (k, d)];
    }
  }

  /** Content and metadata together: the refresh after the merge finds the
      entry the merge rewrote, provided the caller did not rewrite its
      doc_id, so that entry ends with the merged metadata and the later
      stamp. */
  lemma {:induction false} UpdateBoth(st: Store, docId: string, content: string, metadata: Dict.Dict<Json>,
                                      now: Clock.Instant, later: Clock.Instant)
    requires WellFormed(st) && |metadata| > 0 && CatalogHit(st, docId).Some?
    requires "doc_id" !in Dict.Keys(metadata)
    ensures var h := CatalogHit(st, docId).value;
      var r := UpdateDoc(st, docId, Some(content), metadata, true, now, later);
      r.1.updatedFields == ["content"] + Dict.Keys(metadata)
      && GetDocument(r.0, h.id)
         == Some(h.(metadata := Merged(h.metadata, metadata, Clock.IsoFormat(now))["updated_at" := JStr(Clock.IsoFormat(later))],
                    score := 0.0))
      && forall k :: k != h.id ==> GetDocument(r.0, k) == GetDocument(st, k)
  {
    var h := CatalogHit(st, docId).value;
    var i := HitAt(st, docId);
    var m1 := Merged(h.metadata, metadata, Clock.IsoFormat(now));
    var d1 := Doc(h.id, h.content, m1, 0.0);
    var s1 := MergeStep(st, docId, metadata, Clock.IsoFormat(now)).0;
    assert s1 == Dict.Put(st, h.id, d1);
    PutAt(st, i, d1);
    assert s1 == st[i := (st[i].0, d1)];
    assert Field(m1, "doc_id") == JStr(docId);
    assert s1[i].1 == d1;
    forall j | 0 <= j < i
      ensures Field(s1[j].1.metadata, "doc_id") != JStr(docId)
    {
      assert s1[j] == st[j];
    }
    CatalogHitIsFirst(s1, docId, i);
    assert CatalogHit(s1, docId) == Some(d1.(score := 1.0));
  }

  /** Content alone: "content" is the only field reported and the entry only
      gets a new `updated_at`. */
  lemma {:induction false} UpdateContentOnly(st: Store, docId: string, content: string,
                                             now: Clock.Instant, later: Clock.Instant)
    requires WellFormed(st) && CatalogHit(st, docId).Some?
    ensures var h := CatalogHit(st, docId).value;
      var r := UpdateDoc(st, docId, Some(content), [], true, now, later);
      r.1.updatedFields == ["content"]
      && GetDocument(r.0, h.id) == Some(h.(metadata := h.metadata["updated_at" := JStr(Clock.IsoFormat(later))], score := 0.0))
  {
  }

  // ------------------------------------------------------- catalog sheet

  /** `_register_in_sheets_catalog`: the 13 cells appended to the catalog
      sheet, in header order. */
  function CatalogRow(project: string, docId: string, name: string, docType: string, phaseTask: string,
                      feature: Option<string>, timing: Option<string>, keywords: seq<string>,
                      now: Clock.Instant): (row: seq<string>)
    ensures |row| == |CatalogModel.CatalogSheetHeaders|
    ensures row[1] == "Google Docs" && row[8] == "" && row[11] == "" && row[12] == "active"
  {
    [name, "Google Docs", docId, docType, project, phaseTask, feature.GetOr(""), timing.GetOr(""),
     "", Join(keywords, ", "), Clock.FormatDate(now), "", "active"]
  }

  /** Reading the row back gives the entry that was meant: the keywords
      survive the ", " join, the date is the day of `now` at midnight, no
      related documents, no author, status active. */
  lemma {:induction false} CatalogRowReadBack(project: string, docId: string, name: string, docType: string,
                                              phaseTask: string, feature: Option<string>, timing: Option<string>,
                                              keywords: seq<string>, now: Clock.Instant, readAt: Clock.Instant)
    requires AllListItems(keywords) && Clock.Valid(now)
    ensures CatalogModel.FromSheetRow(CatalogRow(project, docId, name, docType, phaseTask, feature, timing, keywords, now), readAt)
      == CatalogModel.CatalogEntry(docId, name, "Google Docs", docType, project, phaseTask, feature.GetOr(""),
                                   timing.GetOr(""), [], keywords, Clock.Midnight(now),
                                   "", "active")
  {
    var row := CatalogRow(project, docId, name, docType, phaseTask, feature, timing, keywords, now);
    var date := Clock.Midnight(now);
    assert row[2] == docId && row[0] == name && row[1] == "Google Docs" && row[3] == docType;
    assert row[4] == project && row[5] == phaseTask && row[6] == feature.GetOr("") && row[7] == timing.GetOr("");
    assert row[11] == "" && row[12] == "active";
    assert row[8] == "" && row[9] == Join(keywords, ", ") && row[10] == Clock.FormatDate(now);
    KeywordsCell(keywords);
    DateCell(now, readAt);
    assert SplitList(row[8]) == [];
    RowCells(row, readAt, keywords, date);
  }

  /** Reading a full row whose list and date cells are known. */
  lemma {:induction false} RowCells(row: seq<string>, readAt: Clock.Instant, keywords: seq<string>, date: Clock.Instant)
    requires |row| == 13
    requires SplitList(row[8]) == [] && SplitList(row[9]) == keywords
    requires CatalogModel.UpdatedAt(row[10], readAt) == date
    ensures CatalogModel.FromSheetRow(row, readAt)
      == CatalogModel.CatalogEntry(row[2], row[0], row[1], row[3], row[4], row[5], row[6], row[7], [], keywords,
                                   date, row[11], row[12])
  {
    CatalogModel.FullRow(row, readAt);
  }

  lemma {:induction false} KeywordsCell(keywords: seq<string>)
    requires AllListItems(keywords)
    ensures SplitList(Join(keywords, ", ")) == keywords
  {
    assert AllSpace(" ");
    assert ", " == "," + " ";
    SplitListJoin(keywords, " ");
  }

  lemma {:induction false} DateCell(now: Clock.Instant, readAt: Clock.Instant)
    requires Clock.Valid(now)
    ensures CatalogModel.UpdatedAt(Clock.FormatDate(now), readAt) == Clock.Midnight(now)
  {
    Clock.DateRoundTrip(now);
    assert |Clock.FormatDate(now)| == 10;
  }

}
