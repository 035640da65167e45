/** The add-task form (js/addTask.js): the working list of subtasks kept by
    the subtask input's key handler, validation of the collected form data
    before submission, the priority buttons and the reset of the assignee
    checkboxes after a successful submission. */
module AddTask {
  import opened Optional
  import opened JsString
  import JsArray
  import Assign

  /** One entry of the working subtask list: `{text, isEditing}`. */
  datatype Subtask = Subtask(text: string, isEditing: bool)

  /** The text an entry contributes to `#subtaskList li` once rendered: an
      entry in edit mode is rendered as an input field, which has no text. */
  function RenderedText(s: Subtask): string {
    if s.isEditing then "" else s.text
  }

  /** The `subTasks` array that initializeSubtaskInput creates and its
      handlers change in place. */
  class SubtaskList {
    var subTasks: seq<Subtask>

    constructor ()
      ensures subTasks == []
    {
      subTasks := [];
    }

    /** handleSubtaskInput: on Enter with text that is not blank, the trimmed
        text is appended as a non-editing entry and the input is cleared;
        any other key, or blank text, changes nothing. Returns the input
        field's value afterwards. */
    method HandleSubtaskInput(key: string, value: string) returns (valueAfter: string)
      modifies this
      ensures key == "Enter" && !AllWhitespace(value) ==>
        subTasks == old(subTasks) + [Subtask(Trim(value), false)] && valueAfter == ""
      ensures key != "Enter" || AllWhitespace(value) ==>
        subTasks == old(subTasks) && valueAfter == value
      ensures |subTasks| <= |old(subTasks)| + 1
    {
      valueAfter := value;
      if key == "Enter" {
        var subtaskValue := Trim(value);
        TrimEmptyIffBlank(value);
        if subtaskValue != "" {
          subTasks := subTasks + [Subtask(subtaskValue, false)];
          valueAfter := "";
        }
      }
    }

    /** editSubtask (js/addTask.js): only entry `index` enters edit mode;
        every text and every other flag is unchanged. */
    method EditSubtask(index: nat)
      requires index < |subTasks|
      modifies this
      ensures |subTasks| == |old(subTasks)|
      ensures subTasks[index] == Subtask(old(subTasks[index].text), true)
      ensures forall k :: 0 <= k < |subTasks| && k != index ==> subTasks[k] == old(subTasks[k])
    {
      subTasks := subTasks[index := subTasks[index].(isEditing := true)];
    }

    /** saveSubtask: entry `index` becomes `{text: newText, isEditing: false}`
        (the text is stored as typed, not trimmed); every other entry and
        the length are unchanged. */
    method SaveSubtask(index: nat, newText: string)
      requires index < |subTasks|
      modifies this
      ensures |subTasks| == |old(subTasks)|
      ensures subTasks[index] == Subtask(newText, false)
      ensures forall k :: 0 <= k < |subTasks| && k != index ==> subTasks[k] == old(subTasks[k])
    {
      subTasks := subTasks[index := subTasks[index].(text := newText)];
      subTasks := subTasks[index := subTasks[index].(isEditing := false)];
    }

    /** deleteSubtask: `splice(index, 1)`: one entry fewer, the later ones
        moved down by one. */
    method DeleteSubtask(index: nat)
      requires index < |subTasks|
      modifies this
      ensures subTasks == JsArray.Splice(old(subTasks), index)
      ensures |subTasks| == |old(subTasks)| - 1
      ensures forall k :: 0 <= k < |subTasks| ==> subTasks[k] == old(subTasks[if k < index then k else k + 1])
    {
      subTasks := subTasks[..index] + subTasks[index + 1..];
    }
  }

  /** What collectTaskData gathers from the form. */
  datatype TaskData = TaskData(
    title: string, description: string, dueDate: string,
    assigneeNames: seq<string>, category: string, priority: string, subTasks: string)

  /** The raw values of the form's fields. */
  datatype FormInput = FormInput(title: string, description: string, date: string, category: string, inputPrio: string)

  /** collectTaskData: every field trimmed; the subtasks are the rendered
      list items' texts joined with ", ". */
  function CollectTaskData(form: FormInput, toAssignUser: seq<string>, rendered: seq<Subtask>): TaskData {
    TaskData(
      Trim(form.title), Trim(form.description), Trim(form.date),
      toAssignUser, Trim(form.category), Trim(form.inputPrio),
      Join(seq(|rendered|, i requires 0 <= i < |rendered| => RenderedText(rendered[i])), ", "))
  }

  /** The message shown under a field. */
  datatype FieldError = FieldError(fieldId: string, message: string)

  /** The required fields in the order validateTaskData checks them, each
      with the error it reports when the field is empty. */
  const RequiredFields: seq<FieldError> := [
    FieldError("title", "Title is required"),
    FieldError("description", "Description is required"),
    FieldError("date", "Due date is required"),
    FieldError("categorySelect", "Category is required")]

  /** The collected value a form field id stands for. */
  function FieldValue(d: TaskData, fieldId: string): string {
    if fieldId == "title" then d.title
    else if fieldId == "description" then d.description
    else if fieldId == "date" then d.dueDate
    else if fieldId == "categorySelect" then d.category
    else ""
  }

  /** The entries of `required` whose field is empty, in order. */
  function Missing(d: TaskData, required: seq<FieldError>): seq<FieldError> {
    if |required| == 0 then []
    else (if FieldValue(d, required[0].fieldId) == "" then [required[0]] else []) + Missing(d, required[1..])
  }

  predicate Complete(d: TaskData) {
    d.title != "" && d.description != "" && d.dueDate != "" && d.category != ""
  }

  /** validateTaskData: valid exactly when title, description, due date and
      category are all non-empty; every empty one is reported, in form
      order, not only the first. */
  method ValidateTaskData(d: TaskData) returns (isValid: bool, errors: seq<FieldError>)
    ensures isValid <==> Complete(d)
    ensures errors == Missing(d, RequiredFields)
    ensures isValid <==> errors == []
  {
    isValid := true;
    errors := [];
    if d.title == "" { errors := errors + [RequiredFields[0]]; isValid := false; }
    if d.description == "" { errors := errors + [RequiredFields[1]]; isValid := false; }
    if d.dueDate == "" { errors := errors + [RequiredFields[2]]; isValid := false; }
    if d.category == "" { errors := errors + [RequiredFields[3]]; isValid := false; }
    MissingFour(d);
  }

  /** The error `e` if its field is empty, else nothing. */
  function ErrorIf(d: TaskData, e: FieldError): seq<FieldError> {
    if FieldValue(d, e.fieldId) == "" then [e] else []
  }

  lemma MissingCons(d: TaskData, required: seq<FieldError>)
    requires |required| > 0
    ensures Missing(d, required) == ErrorIf(d, required[0]) + Missing(d, required[1..])
  {
  }

  /** The errors among four required fields. */
  lemma MissingOfFour(d: TaskData, r: seq<FieldError>)
    requires |r| == 4
    ensures Missing(d, r) == ErrorIf(d, r[0]) + ErrorIf(d, r[1]) + ErrorIf(d, r[2]) + ErrorIf(d, r[3])
  {
    assert r[1..][1..] == r[2..] && r[2..][1..] == r[3..] && r[3..][1..] == [];
    MissingCons(d, r);
    MissingCons(d, r[1..]);
    MissingCons(d, r[2..]);
    MissingCons(d, r[3..]);
  }

  /** The errors validateTaskData reports, field by field in form order. */
  lemma MissingFour(d: TaskData)
    ensures Missing(d, RequiredFields) ==
      (if d.title == "" then [RequiredFields[0]] else []) +
      (if d.description == "" then [RequiredFields[1]] else []) +
      (if d.dueDate == "" then [RequiredFields[2]] else []) +
      (if d.category == "" then [RequiredFields[3]] else [])
  {
    MissingOfFour(d, RequiredFields);
    RequiredFieldValues(d);
  }

  lemma RequiredFieldValues(d: TaskData)
    ensures FieldValue(d, RequiredFields[0].fieldId) == d.title
    ensures FieldValue(d, RequiredFields[1].fieldId) == d.description
    ensures FieldValue(d, RequiredFields[2].fieldId) == d.dueDate
    ensures FieldValue(d, RequiredFields[3].fieldId) == d.category
  {
  }

  /** A field's error is reported exactly when the field is empty, whatever
      the other fields hold. */
  lemma {:induction false} MissingReportsEach(d: TaskData, required: seq<FieldError>)
    ensures forall e :: e in Missing(d, required) <==> e in required && FieldValue(d, e.fieldId) == ""
  {
    if |required| > 0 {
      MissingReportsEach(d, required[1..]);
      assert required == [required[0]] + required[1..];
    }
  }

  /** handleTaskSubmission: the collected data is sent (submitTask) only when
      it validates; otherwise nothing is sent and the errors are shown. */
  method HandleTaskSubmission(form: FormInput, toAssignUser: seq<string>, rendered: seq<Subtask>)
    returns (submitted: Option<TaskData>, errors: seq<FieldError>)
    ensures var d := CollectTaskData(form, toAssignUser, rendered);
      && (submitted.Some? <==> Complete(d))
      && (submitted.Some? ==> submitted.value == d)
      && errors == Missing(d, RequiredFields)
  {
    var taskData := CollectTaskData(form, toAssignUser, rendered);
    var ok;
    ok, errors := ValidateTaskData(taskData);
    if !ok {
      return None, errors;
    }
    submitted := Some(taskData);
  }

  predicate IsPriority(p: string) {
    p == "urgent" || p == "medium" || p == "low"
  }

  /** The priority buttons: the text of `#input-prio` and the set of
      priorities whose button is styled as selected. */
  class PriorityPicker {
    var inputPrio: string
    var active: set<string>

    /** Only the three priority buttons can be styled. */
    ghost predicate Valid()
      reads this
    {
      active <= {"urgent", "medium", "low"}
    }

    constructor ()
      ensures Valid() && inputPrio == "" && active == {}
    {
      inputPrio, active := "", {};
    }

    /** changePriority (js/addTask.js): urgent, medium or low becomes the
        priority text and the only selected button; any other value changes
        nothing. */
    method ChangePriority(prio: string)
      requires Valid()
      modifies this
      ensures Valid()
      ensures IsPriority(prio) ==> inputPrio == prio && active == {prio}
      ensures !IsPriority(prio) ==> inputPrio == old(inputPrio) && active == old(active)
    {
      if prio == "urgent" {
        active := active + {"urgent"};
        inputPrio := "urgent";
        active := active - {"medium", "low"};
      } else if prio == "medium" {
        active := active + {"medium"};
        inputPrio := "medium";
        active := active - {"urgent", "low"};
      } else if prio == "low" {
        active := active + {"low"};
        inputPrio := "low";
        active := active - {"medium", "urgent"};
      }
    }
  }

  /** resetAllCheckboxes: every checkbox unchecked, every row unmarked, no
      chips and an empty `toAssignUser`. */
  method ResetAllCheckboxes(picker: Assign.AssigneePicker)
    modifies picker`rows, picker`chips, picker`toAssignUser
    ensures picker.Valid()
    ensures |picker.rows| == |old(picker.rows)|
    ensures forall k :: 0 <= k < |picker.rows| ==>
      && picker.rows[k].key == old(picker.rows[k].key)
      && picker.rows[k].name == old(picker.rows[k].name)
      && !picker.rows[k].checked && !picker.rows[k].selected
    ensures picker.chips == [] && picker.toAssignUser == []
  {
    var i := 0;
    while i < |picker.rows|
      invariant 0 <= i <= |picker.rows| == |old(picker.rows)|
      invariant forall k :: 0 <= k < |picker.rows| ==>
        && picker.rows[k].key == old(picker.rows[k].key)
        && picker.rows[k].name == old(picker.rows[k].name)
        && picker.rows[k].selected == old(picker.rows[k].selected)
        && (k < i ==> !picker.rows[k].checked)
    {
      picker.rows := picker.rows[i := picker.rows[i].(checked := false)];
      i := i + 1;
    }
    picker.chips := [];
    picker.toAssignUser := [];
    i := 0;
    while i < |picker.rows|
      invariant 0 <= i <= |picker.rows| == |old(picker.rows)|
      invariant forall k :: 0 <= k < |picker.rows| ==>
        && picker.rows[k].key == old(picker.rows[k].key)
        && picker.rows[k].name == old(picker.rows[k].name)
        && !picker.rows[k].checked
        && (k < i ==> !picker.rows[k].selected)
      invariant picker.chips == [] && picker.toAssignUser == []
    {
      picker.rows := picker.rows[i := picker.rows[i].(selected := false)];
      i := i + 1;
    }
  }
}
