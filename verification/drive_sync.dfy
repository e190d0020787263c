/** `sync_projects_from_drive`: Drive's projects folder is the master
    list. Each subfolder holding a spreadsheet is a project named after the
    folder; known projects missing from Drive are removed and Drive projects
    not yet known are registered. */
module DriveSync {
  import opened Wrappers
  import opened Json
  import Clock
  import Dict
  import RagIndex
  import RagClient
  import StringOrder
  import opened ProjectRegistry

  const SpreadsheetMime := "application/vnd.google-apps.spreadsheet"

  datatype FileInfo = FileInfo(fileId: string, name: string, mimeType: string)

  datatype FolderContents = FolderContents(files: seq<FileInfo>, subfolders: seq<FileInfo>)

  /** Drive as the tools see it: the contents of every folder whose listing
      answers. Listing a folder without an entry raises. */
  type Drive = map<string, FolderContents>

  /** The position of the first spreadsheet among `files`. */
  function FirstSpreadsheet(files: seq<FileInfo>): (r: Option<nat>)
    ensures r.Some? ==> r.value < |files| && files[r.value].mimeType == SpreadsheetMime
    ensures r.Some? ==> forall i :: 0 <= i < r.value ==> files[i].mimeType != SpreadsheetMime
    ensures r.None? <==> forall i :: 0 <= i < |files| ==> files[i].mimeType != SpreadsheetMime
    decreases |files|
  {
    if |files| == 0 then None
    else if files[0].mimeType == SpreadsheetMime then Some(0)
    else
      var rest := FirstSpreadsheet(files[1..]);
      assert forall i :: 1 <= i < |files| ==> files[i] == files[1..][i - 1];
      if rest.None? then None else Some(rest.value + 1)
  }

  /** `_find_project_spreadsheet`: the folder's first spreadsheet; a
      listing that raises counts as none. */
  function FindSpreadsheet(drive: Drive, folderId: string): (r: Option<FileInfo>)
    ensures r.Some? ==> folderId in drive && r.value in drive[folderId].files && r.value.mimeType == SpreadsheetMime
    ensures r.None? <==>
      folderId !in drive || forall i :: 0 <= i < |drive[folderId].files| ==> drive[folderId].files[i].mimeType != SpreadsheetMime
  {
    if folderId !in drive then None
    else
      match FirstSpreadsheet(drive[folderId].files)
      case None => None
      case Some(i) => Some(drive[folderId].files[i])
  }

  /** What a project folder contributes: its own id and its spreadsheet's. */
  datatype DriveProject = DriveProject(folderId: string, spreadsheetId: string)

  function Entry(drive: Drive, folder: FileInfo): (r: Option<DriveProject>)
    ensures r.Some? <==> FindSpreadsheet(drive, folder.fileId).Some?
    ensures r.Some? ==> r.value.folderId == folder.fileId
  {
    match FindSpreadsheet(drive, folder.fileId)
    case None => None
    case Some(f) => Some(DriveProject(folder.fileId, f.fileId))
  }

  /** The last folder called `name` that holds a spreadsheet. */
  function Owner(drive: Drive, folders: seq<FileInfo>, name: string): (r: Option<nat>)
    ensures r.Some? ==> r.value < |folders| && folders[r.value].name == name && Entry(drive, folders[r.value]).Some?
    ensures r.Some? ==> forall j :: r.value < j < |folders| && folders[j].name == name ==> Entry(drive, folders[j]).None?
    ensures r.None? ==> forall j :: 0 <= j < |folders| && folders[j].name == name ==> Entry(drive, folders[j]).None?
    decreases |folders|
  {
    if |folders| == 0 then None
    else
      var last := |folders| - 1;
      if folders[last].name == name && Entry(drive, folders[last]).Some? then Some(last)
      else
        var r := Owner(drive, folders[..last], name);
        assert forall j :: 0 <= j < last ==> folders[..last][j] == folders[j];
        r
  }

  /** The entry that folder names `name`. */
  function OwnedBy(drive: Drive, folders: seq<FileInfo>, name: string): Option<DriveProject> {
    var i := Owner(drive, folders, name);
    if i.Some? then Entry(drive, folders[i.value]) else None
  }

  /** `drive_projects`: the subfolders that hold a spreadsheet, keyed by
      folder name; a later folder of the same name overwrites an earlier
      one. */
  function DriveProjects(drive: Drive, folders: seq<FileInfo>): (d: Dict.Dict<DriveProject>)
    ensures forall name :: Dict.Get(d, name) == OwnedBy(drive, folders, name)
    decreases |folders|
  {
    if |folders| == 0 then []
    else
      var last := |folders| - 1;
      var d := DriveProjects(drive, folders[..last]);
      var r := match Entry(drive, folders[last])
        case None => d
        case Some(e) => Dict.Put(d, folders[last].name, e);
      forall name
        ensures Dict.Get(r, name) == OwnedBy(drive, folders, name)
      {
        OwnedByStep(drive, folders, name);
      }
      r
  }

  /** The owner of a name among some folders: the last folder if it is
      called that and holds a spreadsheet, else the owner among the rest. */
  lemma {:induction false} OwnedByStep(drive: Drive, folders: seq<FileInfo>, name: string)
    requires |folders| > 0
    ensures var last := |folders| - 1;
      OwnedBy(drive, folders, name)
      == if folders[last].name == name && Entry(drive, folders[last]).Some? then Entry(drive, folders[last])
         else OwnedBy(drive, folders[..last], name)
  {
    var last := |folders| - 1;
    if folders[last].name == name && Entry(drive, folders[last]).Some? {
      assert Owner(drive, folders, name) == Some(last);
    } else {
      var i := Owner(drive, folders[..last], name);
      assert Owner(drive, folders, name) == i;
      if i.Some? {
        assert folders[..last][i.value] == folders[i.value];
      }
    }
  }

  /** The ids the registry knows: non-empty ids RAG lists, then every
      local key. */
  function KnownIds(reg: Registry): (r: seq<string>)
    ensures forall k :: k in r <==> k in RagIds(reg) || k in Dict.Keys(reg.fallback)
  {
    var docs := RagListed(reg);
    var fromRag := seq(|docs|, i requires 0 <= i < |docs| => RagClient.ProjectIdOf(docs[i]));
    forall k | k in RagIds(reg)
      ensures k in fromRag
    {
      var i :| 0 <= i < |docs| && RagClient.ProjectIdOf(docs[i]) != "" && RagClient.ProjectIdOf(docs[i]) == k;
      assert fromRag[i] == k;
    }
    NonEmpty(fromRag) + Dict.Keys(reg.fallback)
  }

  function NonEmpty(ids: seq<string>): (r: seq<string>)
    ensures forall k :: k in r <==> k in ids && k != ""
  {
    if |ids| == 0 then [] else (if ids[0] != "" then [ids[0]] else []) + NonEmpty(ids[1..])
  }

  datatype Plan = Plan(toAdd: seq<string>, toRemove: seq<string>, kept: seq<string>)

  /** The three sorted differences between Drive's ids and the known ones. */
  function Diff(driveIds: seq<string>, known: seq<string>): (p: Plan)
    ensures StringOrder.Ascending(p.toAdd) && StringOrder.Ascending(p.toRemove)
            && StringOrder.Ascending(p.kept)
    ensures forall k :: k in p.toAdd <==> k in driveIds && k !in known
    ensures forall k :: k in p.toRemove <==> k in known && k !in driveIds
    ensures forall k :: k in p.kept <==> k in driveIds && k in known
  {
    Plan(StringOrder.SortedSet(Only(driveIds, known, false)),
         StringOrder.SortedSet(Only(known, driveIds, false)),
         StringOrder.SortedSet(Only(driveIds, known, true)))
  }

  /** The members of `xs` that are (`inside`) or are not in `ys`. */
  function Only(xs: seq<string>, ys: seq<string>, inside: bool): (r: seq<string>)
    ensures forall k :: k in r <==> k in xs && (k in ys <==> inside)
  {
    if |xs| == 0 then []
    else (if (xs[0] in ys) == inside then [xs[0]] else []) + Only(xs[1..], ys, inside)
  }

  /** The configuration data a synced project is saved with. */
  function SyncData(e: DriveProject): (m: Obj)
    ensures m.Keys == {"spreadsheet_id", "root_folder_id"}
    ensures m["spreadsheet_id"] == JStr(e.spreadsheetId) && m["root_folder_id"] == JStr(e.folderId)
  {
    map["spreadsheet_id" := JStr(e.spreadsheetId), "root_folder_id" := JStr(e.folderId)]
  }

  /** Registers each id in turn under its folder name with an empty
      description. */
  function AddAll(reg: Registry, ids: seq<string>, projects: Dict.Dict<DriveProject>, now: Clock.Instant)
    : (r: Registry)
    requires forall k :: k in ids ==> Dict.Get(projects, k).Some?
    ensures SameOtherwise(reg, r)
    ensures forall p :: p !in ids ==> GetConfig(r, p) == GetConfig(reg, p)
    ensures reg.ragState != Up ==> forall k :: k in ids ==> Dict.Get(r.fallback, k).Some?
    ensures forall p :: p !in ids ==> Dict.Get(r.fallback, p) == Dict.Get(reg.fallback, p)
    decreases |ids|
  {
    if |ids| == 0 then reg
    else
      var last := |ids| - 1;
      assert forall k :: k in ids[..last] ==> k in ids;
      var before := AddAll(reg, ids[..last], projects, now);
      var r := SaveConfig(before, ids[last], ids[last], "", SyncData(Dict.Get(projects, ids[last]).value), now).0;
      AddFrame(reg, before, r, ids, projects, now);
      r
  }

  /** The project `k` is registered with its Drive ids. */
  predicate Synced(reg: Registry, k: string, projects: Dict.Dict<DriveProject>, now: Clock.Instant) {
    Dict.Get(projects, k).Some? && GetConfig(reg, k).Some?
    && StoredFrom(GetConfig(reg, k).value.metadata, k, k, "", SyncData(Dict.Get(projects, k).value), now)
  }

  /** Every id added ends up registered with its Drive ids. */
  lemma {:induction false} AddAllSyncs(reg: Registry, ids: seq<string>, projects: Dict.Dict<DriveProject>,
                                       now: Clock.Instant)
    requires forall k :: k in ids ==> Dict.Get(projects, k).Some?
    ensures forall k :: k in ids ==> Synced(AddAll(reg, ids, projects, now), k, projects, now)
  {
    forall k | k in ids
      ensures Synced(AddAll(reg, ids, projects, now), k, projects, now)
    {
      AddAllSynced(reg, ids, projects, now, k);
    }
  }

  lemma {:induction false} AddAllSynced(reg: Registry, ids: seq<string>, projects: Dict.Dict<DriveProject>,
                                        now: Clock.Instant, k: string)
    requires forall k :: k in ids ==> Dict.Get(projects, k).Some?
    requires k in ids
    ensures Synced(AddAll(reg, ids, projects, now), k, projects, now)
    decreases |ids|
  {
    var last := |ids| - 1;
    if k == ids[last] {
      AddAllLast(reg, ids, projects, now);
    } else {
      var front := ids[..last];
      var i :| 0 <= i < |ids| && ids[i] == k;
      assert i < last && front[i] == k;
      assert forall k :: k in front ==> k in ids;
      AddAllSynced(reg, front, projects, now, k);
      AddAllOthers(reg, ids, projects, now, k);
      SyncedKept(AddAll(reg, front, projects, now), AddAll(reg, ids, projects, now), k, projects, now);
    }
  }

  /** One step of `AddAll`: the last id is saved on top of the others. */
  lemma {:induction false} AddAllUnfold(reg: Registry, ids: seq<string>, projects: Dict.Dict<DriveProject>,
                                        now: Clock.Instant)
    requires forall k :: k in ids ==> Dict.Get(projects, k).Some?
    requires |ids| > 0
    ensures var last := |ids| - 1;
      (forall k :: k in ids[..last] ==> Dict.Get(projects, k).Some?)
      && AddAll(reg, ids, projects, now)
         == SaveConfig(AddAll(reg, ids[..last], projects, now), ids[last], ids[last], "",
                       SyncData(Dict.Get(projects, ids[last]).value), now).0
  {
    var last := |ids| - 1;
    assert forall k :: k in ids[..last] ==> k in ids;
  }

  lemma {:induction false} AddAllLast(reg: Registry, ids: seq<string>, projects: Dict.Dict<DriveProject>,
                                      now: Clock.Instant)
    requires forall k :: k in ids ==> Dict.Get(projects, k).Some?
    requires |ids| > 0
    ensures Synced(AddAll(reg, ids, projects, now), ids[|ids| - 1], projects, now)
  {
    AddAllUnfold(reg, ids, projects, now);
  }

  lemma {:induction false} AddAllOthers(reg: Registry, ids: seq<string>, projects: Dict.Dict<DriveProject>,
                                        now: Clock.Instant, k: string)
    requires forall k :: k in ids ==> Dict.Get(projects, k).Some?
    requires |ids| > 0 && k != ids[|ids| - 1]
    ensures var last := |ids| - 1;
      (forall k :: k in ids[..last] ==> Dict.Get(projects, k).Some?)
      && GetConfig(AddAll(reg, ids, projects, now), k) == GetConfig(AddAll(reg, ids[..last], projects, now), k)
  {
    AddAllUnfold(reg, ids, projects, now);
  }

  /** A project whose stored configuration is unchanged stays synced. */
  lemma {:induction false} SyncedKept(before: Registry, r: Registry, k: string, projects: Dict.Dict<DriveProject>,
                                      now: Clock.Instant)
    requires Synced(before, k, projects, now)
    requires GetConfig(r, k) == GetConfig(before, k)
    ensures Synced(r, k, projects, now)
  {
  }

  lemma {:induction false} AddFrame(reg: Registry, before: Registry, r: Registry, ids: seq<string>,
                 projects: Dict.Dict<DriveProject>, now: Clock.Instant)
    requires |ids| > 0 && Dict.Get(projects, ids[|ids| - 1]).Some?
    requires var last := |ids| - 1;
      r == SaveConfig(before, ids[last], ids[last], "", SyncData(Dict.Get(projects, ids[last]).value), now).0
    requires SameOtherwise(reg, before)
    requires forall p :: p !in ids[..|ids| - 1] ==> GetConfig(before, p) == GetConfig(reg, p)
    requires reg.ragState != Up ==> forall k :: k in ids[..|ids| - 1] ==> Dict.Get(before.fallback, k).Some?
    requires forall p :: p !in ids[..|ids| - 1] ==> Dict.Get(before.fallback, p) == Dict.Get(reg.fallback, p)
    ensures SameOtherwise(reg, r)
    ensures forall p :: p !in ids ==> GetConfig(r, p) == GetConfig(reg, p)
    ensures reg.ragState != Up ==> forall k :: k in ids ==> Dict.Get(r.fallback, k).Some?
    ensures forall p :: p !in ids ==> Dict.Get(r.fallback, p) == Dict.Get(reg.fallback, p)
  {
    var last := |ids| - 1;
    assert ids == ids[..last] + [ids[last]];
    forall p | p !in ids
      ensures GetConfig(r, p) == GetConfig(reg, p) && Dict.Get(r.fallback, p) == Dict.Get(reg.fallback, p)
    {
      assert p !in ids[..last] && p != ids[last];
    }
    if reg.ragState != Up {
      forall k | k in ids
        ensures Dict.Get(r.fallback, k).Some?
      {
        if k != ids[last] {
          assert k in ids[..last];
        }
      }
    }
  }

  /** Removes each id from both tiers. */
  function RemoveAll(reg: Registry, ids: seq<string>): (r: Registry)
    ensures SameOtherwise(reg, r)
    ensures forall k :: k in ids ==> GetConfig(r, k).None? && Dict.Get(r.fallback, k).None?
    ensures forall p :: p !in ids ==> GetConfig(r, p) == GetConfig(reg, p)
    ensures forall p :: p !in ids ==> Dict.Get(r.fallback, p) == Dict.Get(reg.fallback, p)
    ensures reg.ragState != Up ==> r.rag == reg.rag
    decreases |ids|
  {
    if |ids| == 0 then reg
    else
      var last := |ids| - 1;
      var before := RemoveAll(reg, ids[..last]);
      assert forall k :: k in ids <==> k in ids[..last] || k == ids[last] by {
        assert ids == ids[..last] + [ids[last]];
      }
      DeleteConfig(before, ids[last]).0
  }

  datatype SyncResult = SyncResult(success: bool, added: seq<string>, removed: seq<string>, kept: seq<string>)

  const SyncFailure := SyncResult(false, [], [], [])

  /** The plan a sync of `drive` would carry out on `reg`. */
  function PlanFor(reg: Registry, drive: Drive, projectsFolderId: string): (p: Plan)
    requires projectsFolderId in drive
  {
    Diff(Dict.Keys(DriveProjects(drive, drive[projectsFolderId].subfolders)), KnownIds(reg))
  }

  /** `sync_projects_from_drive`. Without a projects folder, or when its
      listing raises, nothing happens. A dry run only reports the plan.
      Otherwise every planned addition is registered (saving never fails)
      and every planned removal is deleted from both tiers. */
  function SyncProjects(reg: Registry, drive: Drive, projectsFolderId: string, dryRun: bool, now: Clock.Instant)
    : (r: (Registry, SyncResult))
    ensures projectsFolderId == "" || projectsFolderId !in drive ==> r == (reg, SyncFailure)
    ensures projectsFolderId != "" && projectsFolderId in drive ==>
      var p := PlanFor(reg, drive, projectsFolderId);
      r.1 == SyncResult(true, p.toAdd, p.toRemove, p.kept)
    ensures dryRun ==> r.0 == reg
    ensures r.1.success && !dryRun ==>
      var projects := DriveProjects(drive, drive[projectsFolderId].subfolders);
      (forall k :: k in r.1.added ==> Synced(r.0, k, projects, now))
      && (forall k :: k in r.1.removed ==> GetConfig(r.0, k).None?)
      && (forall k :: k !in r.1.added && k !in r.1.removed ==> GetConfig(r.0, k) == GetConfig(reg, k))
    ensures SameOtherwise(reg, r.0)
  {
    if projectsFolderId == "" || projectsFolderId !in drive then (reg, SyncFailure)
    else
      var projects := DriveProjects(drive, drive[projectsFolderId].subfolders);
      var p := PlanFor(reg, drive, projectsFolderId);
      var result := SyncResult(true, p.toAdd, p.toRemove, p.kept);
      if dryRun then (reg, result)
      else
        var added := AddAll(reg, p.toAdd, projects, now);
        AddAllSyncs(reg, p.toAdd, projects, now);
        (RemoveAll(added, p.toRemove), result)
  }

  /** Without a working RAG, a sync leaves nothing to do: syncing the same
      Drive again plans no additions and no removals. */
  lemma {:induction false} SyncSettles(reg: Registry, drive: Drive, projectsFolderId: string, now: Clock.Instant)
    requires reg.ragState != Up
    requires projectsFolderId != "" && projectsFolderId in drive
    ensures var after := SyncProjects(reg, drive, projectsFolderId, false, now).0;
      var p := PlanFor(after, drive, projectsFolderId);
      p.toAdd == [] && p.toRemove == []
  {
    var projects := DriveProjects(drive, drive[projectsFolderId].subfolders);
    var driveIds := Dict.Keys(projects);
    var p := PlanFor(reg, drive, projectsFolderId);
    var added := AddAll(reg, p.toAdd, projects, now);
    var after := RemoveAll(added, p.toRemove);
    assert after == SyncProjects(reg, drive, projectsFolderId, false, now).0;
    var q := PlanFor(after, drive, projectsFolderId);
    assert RagIds(reg) == {} && RagIds(after) == {};
    forall k | k in driveIds
      ensures k in KnownIds(after)
    {
      assert k !in p.toRemove;
      if k in p.toAdd {
        assert Dict.Get(added.fallback, k).Some?;
      } else {
        assert k in Dict.Keys(reg.fallback);
        assert Dict.Get(added.fallback, k) == Dict.Get(reg.fallback, k);
      }
      assert Dict.Get(after.fallback, k) == Dict.Get(added.fallback, k);
    }
    forall k | k in KnownIds(after)
      ensures k in driveIds
    {
      assert Dict.Get(after.fallback, k).Some?;
      if k !in p.toAdd {
        assert k !in p.toRemove;
        assert Dict.Get(reg.fallback, k).Some?;
        assert k in KnownIds(reg);
      }
    }
    StringOrder.SameEmpty(q.toAdd, []);
    StringOrder.SameEmpty(q.toRemove, []);
  }
}
