/** The initial contents the server writes into a new project's three sheets. */
module Summary {
  import Wrappers
  import Strings
  import Clock
  import ProgressModel
  import CatalogModel

  /** Column A of the summary sheet. */
  const SummaryLabels: seq<string> := [
    "プロジェクト情報", "プロジェクト名", "説明", "開始日", "作成者", "",
    "進捗サマリ", "現在のフェーズ", "完了タスク", "全タスク", "最終更新"]

  /** `create_summary_template`. */
  function SummaryTemplate(projectName: string, description: string, createdBy: string,
                           start: Clock.Instant): (r: seq<seq<string>>)
    ensures |r| == |SummaryLabels|
    ensures forall i :: 0 <= i < |r| ==> |r[i]| == 2 && r[i][0] == SummaryLabels[i]
    ensures r[1][1] == projectName && r[2][1] == description && r[4][1] == createdBy
    ensures r[7][1] == "Phase 1" && r[8][1] == "0" && r[9][1] == "1"
  {
    [["プロジェクト情報", ""],
     ["プロジェクト名", projectName],
     ["説明", description],
     ["開始日", Clock.FormatDate(start)],
     ["作成者", createdBy],
     ["", ""],
     ["進捗サマリ", ""],
     ["現在のフェーズ", "Phase 1"],
     ["完了タスク", "0"],
     ["全タスク", "1"],
     ["最終更新", Clock.FormatMinute(start)]]
  }

  /** The start date and the last-update stamp describe the same day: the
      first is the date prefix of the second. */
  lemma {:induction false} SummaryDatesAgree(projectName: string, description: string, createdBy: string, start: Clock.Instant)
    ensures var r := SummaryTemplate(projectName, description, createdBy, start);
      |r[10][1]| == 16 && r[10][1][..10] == r[3][1]
  {
    var r := SummaryTemplate(projectName, description, createdBy, start);
    assert r[10][1] == Clock.FormatDate(start) + (" " + Strings.ZeroPad(start.hour, 2) + ":" + Strings.ZeroPad(start.minute, 2));
  }

  const InitialProgressData: seq<seq<string>> := [
    ["Phase 1", "T01", "プロジェクト概要設定", "not_started", "", "", "プロジェクトの目標、スコープ、成果物を定義する"]]

  /** `create_progress_template`: the headers, then one not-started task. */
  function ProgressTemplate(): (r: seq<seq<string>>)
    ensures |r| == 2 && r[0] == ProgressModel.ProgressSheetHeaders
    ensures |r[1]| == |ProgressModel.ProgressSheetHeaders| && r[1][3] == "not_started"
  {
    [ProgressModel.ProgressSheetHeaders] + InitialProgressData
  }

  /** The initial task row is a well-formed task: it reads back as task T01,
      not started, with no blockers and no completion date. */
  lemma {:induction false} InitialTaskReads()
    ensures ProgressModel.TaskFromSheetRow(ProgressTemplate()[1])
            == ProgressModel.TaskProgress("T01", "プロジェクト概要設定", "not_started", [], Wrappers.None,
                                          "プロジェクトの目標、スコープ、成果物を定義する")
  {
    var row := ProgressTemplate()[1];
    assert row[4] == "";
    Strings.SplitListJoin([], "");
  }

  /** `create_catalog_template`: the header row alone. */
  function CatalogTemplate(): (r: seq<seq<string>>)
    ensures |r| == 1 && r[0] == CatalogModel.CatalogSheetHeaders
  {
    [CatalogModel.CatalogSheetHeaders]
  }
}
