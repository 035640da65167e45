/** The board's templates (js/templates/board.js), without their markup:
    the description shown on a task card, the card's subtask progress, and
    the two layouts of a subtask row in the popup. */
module BoardTemplates {
  import opened JsString

  /** The description shown on a card: at most 75 characters fit; a longer
      one keeps its first 72 and ends in "...". */
  function TrimDescription(description: string): (r: string)
    ensures |r| <= 75
    ensures |description| <= 75 ==> r == description
    ensures |description| > 75 ==> |r| == 75 && r[..72] == description[..72] && r[72..] == "..."
  {
    if |description| > 75 then description[..72] + "..." else description
  }

  /** Truncating an already shown description changes nothing. */
  lemma TrimDescriptionIdempotent(description: string)
    ensures TrimDescription(TrimDescription(description)) == TrimDescription(description)
  {
  }

  /** A shown description is the original or a prefix of it followed by
      "...": it never shows text the task does not have. */
  lemma TrimDescriptionPrefix(description: string)
    ensures var r := TrimDescription(description);
      r == description || (|description| > 75 && r == description[..|r| - 3] + "...")
  {
  }

  /** What createTaskElementHtml shows, apart from markup, images and the
      assignees' badges. */
  datatype Card = Card(
    categoryClass: string, categoryName: string, title: string, description: string,
    progressMax: nat, progressValue: nat, progressLabel: string)

  /** createTaskElementHtml: `subTasksLength` subtasks, `subTasks` of them
      done. */
  function CreateTaskElementHtml(category: string, categoryName: string, title: string, description: string,
                                 subTasksLength: nat, subTasks: nat): (r: Card)
    ensures r.categoryClass == category && r.categoryName == categoryName && r.title == title
    ensures r.description == TrimDescription(description)
    ensures r.progressMax == subTasksLength && r.progressValue == subTasks
  {
    Card(category, categoryName, title, TrimDescription(description), subTasksLength, subTasks,
         NatToString(subTasksLength) + " Subtasks")
  }

  /** The label under the progress bar is the decimal count of subtasks
      followed by " Subtasks", and its digits read back as the bar's
      maximum. */
  lemma ProgressLabelStatesCount(category: string, categoryName: string, title: string, description: string,
                                 subTasksLength: nat, subTasks: nat)
    ensures var c := CreateTaskElementHtml(category, categoryName, title, description, subTasksLength, subTasks);
      var n := |c.progressLabel| - 9;
      && n >= 1
      && c.progressLabel[n..] == " Subtasks"
      && (forall i :: 0 <= i < n ==> '0' <= c.progressLabel[i] <= '9')
      && DecimalValue(c.progressLabel[..n]) == c.progressMax
  {
    var digits := NatToString(subTasksLength);
    var shown := digits + " Subtasks";
    assert shown[..|digits|] == digits;
    assert shown[|digits|..] == " Subtasks";
    NatToStringRoundTrip(subTasksLength);
  }

  /** A subtask row in the popup: the checkbox's state and which of the
      checkbox and the edit/remove actions carry `d-none`. */
  datatype SubtaskRow = SubtaskRow(index: nat, text: string, checked: bool, checkboxHidden: bool, actionsHidden: bool)

  /** updateSubtaskListHtml: the viewing row, checkbox shown and actions
      hidden. */
  function UpdateSubtaskListHtml(subtask: string, index: nat, isChecked: bool): (r: SubtaskRow)
    ensures r.checked == isChecked
    ensures !r.checkboxHidden && r.actionsHidden
  {
    SubtaskRow(index, subtask, isChecked, false, true)
  }

  /** subtaskElementHml: the editing row, checkbox hidden and actions shown. */
  function SubtaskElementHml(index: nat, isChecked: bool, subtask: string): (r: SubtaskRow)
    ensures r.checked == isChecked
    ensures r.checkboxHidden && !r.actionsHidden
  {
    SubtaskRow(index, subtask, isChecked, true, false)
  }

  /** The two layouts show the same subtask with the same checked state;
      each hides exactly what the other shows. */
  lemma RowLayoutsComplement(subtask: string, index: nat, isChecked: bool)
    ensures var view := UpdateSubtaskListHtml(subtask, index, isChecked);
      var edit := SubtaskElementHml(index, isChecked, subtask);
      && view.index == edit.index && view.text == edit.text && view.checked == edit.checked
      && view.checkboxHidden == !edit.checkboxHidden
      && view.actionsHidden == !edit.actionsHidden
      && view.checkboxHidden != view.actionsHidden
  {
  }
}
