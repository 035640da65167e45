/** The board's task popup (js/taskActions.js): the cache `tasksGlobal` of
    tasks by id, the popup opened on one of them, the working copy
    `editingSubtasks`, the whole-task edit mode, the two removals of a
    subtask, saving an edited subtask, the profile-colour lookup through a
    localStorage cache, the formatting of assignee names, and this file's
    own definitions of toggleUser and changePriority. Every reply of the
    backend is passed in (an ok flag, or the accounts it returned). */
module TaskActions {
  import opened Optional
  import opened JsString
  import JsArray
  import Assign
  import AddTask

  /** A task's `assigneeNames`, as far as formatAssigneeNames and editTask
      tell its kinds apart: missing or another falsy value that is not a
      string, a string, an array of names, or some other truthy value. */
  datatype AssigneeField = Absent | Text(s: string) | List(names: seq<string>) | OtherValue

  /** A cached task record. */
  datatype Task = Task(
    title: string, description: string, dueDate: string, category: string, priority: string,
    assigneeNames: AssigneeField, subTasks: seq<string>, subTasksChecked: seq<bool>, state: string)

  // ---------------------------------------------------------------------
  // formatAssigneeNames

  /** What the popup shows for one assignee: the initials, the full name,
      and the first and last name by which the colour is looked up. */
  datatype AssigneeEntry = AssigneeEntry(initials: string, fullName: string, firstName: string, lastName: string)

  datatype AssigneeView = NoOneAssigned | Assignees(entries: seq<AssigneeEntry>)

  /** `part[0]` as `join('')` writes it: nothing for an empty part. */
  function FirstChar(part: string): string {
    if |part| == 0 then "" else [part[0]]
  }

  /** `parts.map(part => part[0]).join('')`. */
  function Initials(parts: seq<string>): string {
    if |parts| == 0 then "" else FirstChar(parts[0]) + Initials(parts[1..])
  }

  /** The entry built from one comma-separated piece. */
  function EntryFor(piece: string): AssigneeEntry {
    var parts := Split(Trim(piece), ' ');
    AssigneeEntry(Initials(parts), Join(parts, " "), parts[0], Join(parts[1..], " "))
  }

  /** One entry per comma-separated piece of `text`. */
  function EntriesOf(text: string): AssigneeView {
    var pieces := Split(text, ',');
    Assignees(seq(|pieces|, k requires 0 <= k < |pieces| => EntryFor(pieces[k])))
  }

  /** formatAssigneeNames, without the markup and the colour lookups. */
  function FormatAssigneeNames(names: AssigneeField): (r: AssigneeView)
    ensures r == NoOneAssigned <==> names.Absent? || names.OtherValue? || names == Text("")
    ensures names.Text? && names.s != "" ==> |r.entries| == |Split(names.s, ',')|
  {
    match names
    case Absent => NoOneAssigned
    case OtherValue => NoOneAssigned
    case Text(s) => if s == "" then NoOneAssigned else EntriesOf(s)
    case List(ns) => EntriesOf(Join(ns, ", "))
  }

  /** Each entry's full name is its piece with the surrounding whitespace
      removed. */
  lemma EntryFullName(piece: string)
    ensures EntryFor(piece).fullName == Trim(piece)
  {
    JoinSplit(Trim(piece), ' ');
  }

  ghost predicate NoWhitespace(w: string) {
    forall i :: 0 <= i < |w| ==> !IsWhitespace(w[i])
  }

  /** For a name made of non-empty words without whitespace, written with
      single spaces, the initials are the words' first letters, the first
      name is the first word and the last name the rest. */
  lemma InitialsOfWords(words: seq<string>)
    requires |words| >= 1
    requires forall k :: 0 <= k < |words| ==> |words[k]| > 0 && NoWhitespace(words[k])
    ensures var e := EntryFor(Join(words, " "));
      && |e.initials| == |words|
      && (forall k :: 0 <= k < |words| ==> e.initials[k] == words[k][0])
      && e.firstName == words[0]
      && e.lastName == Join(words[1..], " ")
  {
    var s := Join(words, " ");
    JoinShape(words);
    TrimOfClean(s);
    forall k | 0 <= k < |words| ensures ' ' !in words[k] {
      assert IsWhitespace(' ');
    }
    SplitJoin(words, ' ');
    InitialsOfNonEmpty(words);
  }

  lemma {:induction false} InitialsOfNonEmpty(parts: seq<string>)
    requires forall k :: 0 <= k < |parts| ==> |parts[k]| > 0
    ensures |Initials(parts)| == |parts|
    ensures forall k :: 0 <= k < |parts| ==> Initials(parts)[k] == parts[k][0]
  {
    if |parts| > 0 {
      InitialsOfNonEmpty(parts[1..]);
      assert Initials(parts) == [parts[0][0]] + Initials(parts[1..]);
    }
  }

  /** A join of non-empty whitespace-free words starts and ends with a
      letter of a word. */
  lemma {:induction false} JoinShape(words: seq<string>)
    requires |words| >= 1
    requires forall k :: 0 <= k < |words| ==> |words[k]| > 0 && NoWhitespace(words[k])
    ensures var s := Join(words, " ");
      |s| > 0 && s[0] == words[0][0] && s[|s| - 1] == words[|words| - 1][|words[|words| - 1]| - 1]
  {
    if |words| > 1 {
      JoinShape(words[1..]);
    }
  }

  /** Adds a space before every name. */
  function Spaced(names: seq<string>): (r: seq<string>)
    ensures |r| == |names|
    ensures forall k :: 0 <= k < |names| ==> r[k] == " " + names[k]
  {
    if |names| == 0 then [] else [" " + names[0]] + Spaced(names[1..])
  }

  lemma {:induction false} SpacedJoin(names: seq<string>)
    requires |names| >= 1
    ensures " " + Join(names, ", ") == Join(Spaced(names), ",")
  {
    if |names| > 1 {
      SpacedJoin(names[1..]);
      assert Spaced(names)[1..] == Spaced(names[1..]);
    }
  }

  /** The comma-separated pieces of `names.join(", ")`: the first name,
      then each further name after a space. */
  function Pieces(names: seq<string>): seq<string>
    requires |names| >= 1
  {
    [names[0]] + Spaced(names[1..])
  }

  lemma PiecesJoin(names: seq<string>)
    requires |names| >= 1
    ensures Join(names, ", ") == Join(Pieces(names), ",")
  {
    var pieces := Pieces(names);
    if |names| == 1 {
      assert pieces == [names[0]];
    } else {
      SpacedJoin(names[1..]);
      assert pieces[1..] == Spaced(names[1..]);
      CommaSpace(names[0], Join(names[1..], ", "));
    }
  }

  lemma CommaSpace(a: string, rest: string)
    ensures a + ", " + rest == a + "," + (" " + rest)
  {
    assert ", " == "," + " ";
  }

  lemma PiecesCommaFree(names: seq<string>)
    requires |names| >= 1
    requires forall k :: 0 <= k < |names| ==> ',' !in names[k]
    ensures forall k :: 0 <= k < |names| ==> ',' !in Pieces(names)[k]
  {
    var pieces := Pieces(names);
    forall k | 0 <= k < |pieces| ensures ',' !in pieces[k] {
      if k > 0 {
        assert pieces[k] == " " + names[k];
      }
    }
  }

  lemma PieceFullName(names: seq<string>, k: nat)
    requires k < |names|
    ensures EntryFor(Pieces(names)[k]).fullName == Trim(names[k])
  {
    var pieces := Pieces(names);
    EntryFullName(pieces[k]);
    if k > 0 {
      assert pieces[k] == " " + names[k];
      TrimLeadingSpace(names[k]);
    }
  }

  /** The entries built from a text whose comma-split is `pieces`. */
  lemma EntriesOfPieces(text: string, pieces: seq<string>)
    requires Split(text, ',') == pieces
    ensures EntriesOf(text).Assignees? && |EntriesOf(text).entries| == |pieces|
    ensures forall k :: 0 <= k < |pieces| ==> EntriesOf(text).entries[k] == EntryFor(pieces[k])
  {
  }

  /** For an array of names without commas, formatAssigneeNames yields one
      entry per name whose full name is the name trimmed. */
  lemma FormatListOfNames(names: seq<string>)
    requires |names| >= 1
    requires forall k :: 0 <= k < |names| ==> ',' !in names[k]
    ensures var r := FormatAssigneeNames(List(names));
      && r.Assignees? && |r.entries| == |names|
      && forall k :: 0 <= k < |names| ==> r.entries[k].fullName == Trim(names[k])
  {
    var pieces := Pieces(names);
    var text := Join(names, ", ");
    PiecesJoin(names);
    PiecesCommaFree(names);
    SplitJoin(pieces, ',');
    EntriesOfPieces(text, pieces);
    var r := EntriesOf(text);
    forall k | 0 <= k < |names| ensures r.entries[k].fullName == Trim(names[k]) {
      PieceFullName(names, k);
    }
  }

  /** An empty array is truthy: it yields one entry with an empty name,
      not 'No one assigned'. */
  lemma FormatEmptyList()
    ensures FormatAssigneeNames(List([])) == Assignees([AssigneeEntry("", "", "", "")])
  {
    assert Split("", ',') == [""];
    assert Trim("") == "";
    assert Split("", ' ') == [""];
    assert Initials([""]) == "";
    assert [""][1..] == [];
    var r := FormatAssigneeNames(List([]));
    assert |r.entries| == 1 && r.entries[0] == EntryFor("");
  }

  // ---------------------------------------------------------------------
  // fillPopupFields

  /** `categoryMap[category] || category`. */
  function CategoryLabel(category: string): (r: string)
    ensures category == "technicalTask" ==> r == "Technical Task"
    ensures category == "userStory" ==> r == "User Story"
    ensures category == "technicalTask" || category == "userStory" || r == category
    ensures r == "" <==> category == ""
  {
    if category == "technicalTask" then "Technical Task"
    else if category == "userStory" then "User Story"
    else category
  }

  /** What the popup shows for a task. */
  datatype PopupView = PopupView(
    title: string, description: string, dueDate: string,
    categoryLabel: string, categoryClass: string, priority: string, assignees: AssigneeView)

  /** fillPopupFields together with fillAssignees. */
  function PopupFields(t: Task): PopupView {
    PopupView(t.title, t.description, t.dueDate, CategoryLabel(t.category), t.category, t.priority,
              FormatAssigneeNames(t.assigneeNames))
  }

  /** The actions offered in `#taskOptions`. */
  datatype TaskOptions = NoOptions | DeleteAndEdit(taskId: string) | SaveOnly(taskId: string)

  // ---------------------------------------------------------------------
  // Subtask removal

  /** Indices of the subtask texts and their checked flags agree. */
  predicate Aligned(t: Task) {
    |t.subTasks| == |t.subTasksChecked|
  }

  /** What the first removeSubtask does to the cached task: only the texts
      are spliced. */
  function SpliceTextsOnly(t: Task, i: nat): Task {
    t.(subTasks := JsArray.Splice(t.subTasks, i))
  }

  /** What the second removeSubtask does to the cached task: texts and
      flags are spliced at the same index. */
  function SpliceBoth(t: Task, i: nat): Task {
    t.(subTasks := JsArray.Splice(t.subTasks, i), subTasksChecked := JsArray.Splice(t.subTasksChecked, i))
  }

  /** Splicing both arrays keeps them aligned: entry j+1 of each becomes
      entry j, so every remaining text keeps its own flag. */
  lemma SpliceBothKeepsPairs(t: Task, i: nat)
    requires Aligned(t) && i < |t.subTasks|
    ensures var r := SpliceBoth(t, i);
      && Aligned(r) && |r.subTasks| == |t.subTasks| - 1
      && forall j :: 0 <= j < |r.subTasks| ==>
           var src := if j < i then j else j + 1;
           r.subTasks[j] == t.subTasks[src] && r.subTasksChecked[j] == t.subTasksChecked[src]
  {
  }

  /** Splicing only the texts of an aligned task breaks the alignment. */
  lemma SpliceTextsOnlyMisaligns(t: Task, i: nat)
    requires Aligned(t) && i < |t.subTasks|
    ensures !Aligned(SpliceTextsOnly(t, i))
    ensures |SpliceTextsOnly(t, i).subTasksChecked| == |t.subTasksChecked|
  {
  }

  /** Removing the first of ["a", "b"] with flags [true, false] by the first
      definition leaves "b" at index 0 reading the flag `true` that
      belonged to "a"; the second definition keeps `false` with it. */
  lemma RemoveFirstSubtaskExample()
    ensures var t := Task("", "", "", "", "", Absent, ["a", "b"], [true, false], "todo");
      && SpliceTextsOnly(t, 0).subTasks == ["b"]
      && SpliceTextsOnly(t, 0).subTasksChecked == [true, false]
      && SpliceBoth(t, 0).subTasks == ["b"]
      && SpliceBoth(t, 0).subTasksChecked == [false]
  {
    var t := Task("", "", "", "", "", Absent, ["a", "b"], [true, false], "todo");
    assert ["a", "b"][1..] == ["b"];
    assert [true, false][1..] == [false];
  }

  // ---------------------------------------------------------------------
  // The popup

  class TaskPopup {
    /** `tasksGlobal`: the cached tasks by id. */
    var tasksGlobal: map<string, Task>
    /** `editingSubtasks`: the popup's working list of subtask texts. */
    var editingSubtasks: seq<string>
    /** The value of the hidden input `#popupTaskId`. */
    var popupTaskId: string
    /** The popup's fields, or `None` while no popup has been shown. */
    var view: Option<PopupView>
    var options: TaskOptions

    constructor (tasks: map<string, Task>)
      ensures tasksGlobal == tasks && editingSubtasks == [] && popupTaskId == ""
      ensures view == None && options == NoOptions
    {
      tasksGlobal, editingSubtasks, popupTaskId, view, options := tasks, [], "", None, NoOptions;
    }

    /** The popup shows cached task `id` as openTask leaves it. */
    ghost predicate ShowsTask(id: string)
      reads this
    {
      && id in tasksGlobal
      && view == Some(PopupFields(tasksGlobal[id]))
      && popupTaskId == id
      && options == DeleteAndEdit(id)
      && editingSubtasks == tasksGlobal[id].subTasks
    }

    /** openTask: an id missing from the cache changes nothing; otherwise the
        popup shows the task and its subtasks become the working list. */
    method OpenTask(id: string) returns (found: bool)
      modifies this
      ensures found <==> id in old(tasksGlobal)
      ensures tasksGlobal == old(tasksGlobal)
      ensures found ==> ShowsTask(id)
      ensures !found ==>
        && editingSubtasks == old(editingSubtasks) && popupTaskId == old(popupTaskId)
        && view == old(view) && options == old(options)
    {
      if id !in tasksGlobal {
        return false;
      }
      var task := tasksGlobal[id];
      view := Some(PopupFields(task));
      popupTaskId := id;
      options := DeleteAndEdit(id);
      editingSubtasks := task.subTasks;
      found := true;
    }

    /** editTask: an id missing from the cache changes nothing. Otherwise the
        options become a single save action, the priority buttons show the
        task's priority, `toAssignUser` is seeded from the task's names, the
        dropdown is rebuilt from the accounts (when they arrive) and every
        checkbox is then set by membership in `toAssignUser`. A truthy
        `assigneeNames` that cannot be spread stops the handler before the
        seeding. */
    method EditTask(id: string, picker: Assign.AssigneePicker, prio: AddTask.PriorityPicker,
                    accounts: Option<seq<Assign.AccountEntry>>) returns (found: bool)
      requires prio.Valid()
      modifies this`options, picker`rows, picker`toAssignUser, prio
      ensures prio.Valid()
      ensures found <==> id in tasksGlobal
      ensures !found ==>
        && options == old(options) && picker.rows == old(picker.rows)
        && picker.toAssignUser == old(picker.toAssignUser)
        && prio.inputPrio == old(prio.inputPrio) && prio.active == old(prio.active)
      ensures found ==>
        var task := tasksGlobal[id];
        && options == SaveOnly(id)
        && prio.inputPrio == task.priority
        && prio.active == (if AddTask.IsPriority(task.priority) then {task.priority} else {})
        && match SeedSelection(task.assigneeNames)
           case None =>
             picker.rows == old(picker.rows) && picker.toAssignUser == old(picker.toAssignUser)
           case Some(seed) =>
             && picker.toAssignUser == seed
             && Assign.InStep(picker.rows, seed)
             && (forall k :: 0 <= k < |picker.rows| ==> picker.rows[k].selected == picker.rows[k].checked)
             && (accounts.None? ==>
                   && |picker.rows| == |old(picker.rows)|
                   && forall k :: 0 <= k < |picker.rows| ==>
                        picker.rows[k].key == old(picker.rows[k].key) && picker.rows[k].name == old(picker.rows[k].name))
             && (accounts.Some? ==>
                   && |picker.rows| == |accounts.value|
                   && forall k :: 0 <= k < |picker.rows| ==>
                        && picker.rows[k].key == accounts.value[k].key
                        && picker.rows[k].name == Assign.FullName(accounts.value[k].account))
    {
      if id !in tasksGlobal {
        return false;
      }
      found := true;
      var task := tasksGlobal[id];
      ChangePriority(prio, task.priority);
      options := SaveOnly(id);
      var seed := SeedSelection(task.assigneeNames);
      if seed.None? {
        return;
      }
      picker.toAssignUser := seed.value;
      if accounts.Some? {
        picker.PopulateDropdown(accounts.value);
      }
      SynchronizeCheckboxesWithArray(picker);
    }

    /** The first removeSubtask (js/taskActions.js:350): on a cached task,
        only the texts are spliced, before the request and whatever its
        reply; the flags are left as they were. An ok reply leads to a
        refresh and a reopen (`refresh`). */
    method RemoveSubtaskWholeList(id: string, subtaskIndex: nat, replyOk: bool) returns (refresh: bool)
      modifies this`tasksGlobal
      ensures id !in old(tasksGlobal) ==> tasksGlobal == old(tasksGlobal) && !refresh
      ensures id in old(tasksGlobal) ==>
        && tasksGlobal == old(tasksGlobal)[id := SpliceTextsOnly(old(tasksGlobal[id]), subtaskIndex)]
        && refresh == replyOk
    {
      if id !in tasksGlobal {
        return false;
      }
      var task := tasksGlobal[id];
      tasksGlobal := tasksGlobal[id := task.(subTasks := JsArray.Splice(task.subTasks, subtaskIndex))];
      refresh := replyOk;
    }

    /** The second removeSubtask (js/taskActions.js:378): only after an ok
        reply, texts and flags are spliced at the same index and the popup
        is reopened on the task; a failed request, or a task no longer
        cached, changes nothing. */
    method RemoveSubtaskByIndex(id: string, subtaskIndex: nat, replyOk: bool)
      modifies this
      ensures !replyOk || id !in old(tasksGlobal) ==>
        && tasksGlobal == old(tasksGlobal) && editingSubtasks == old(editingSubtasks)
        && popupTaskId == old(popupTaskId) && view == old(view) && options == old(options)
      ensures replyOk && id in old(tasksGlobal) ==>
        && tasksGlobal == old(tasksGlobal)[id := SpliceBoth(old(tasksGlobal[id]), subtaskIndex)]
        && ShowsTask(id)
      ensures replyOk && id in old(tasksGlobal) && Aligned(old(tasksGlobal[id])) ==> Aligned(tasksGlobal[id])
    {
      if !replyOk || id !in tasksGlobal {
        return;
      }
      var task := tasksGlobal[id];
      tasksGlobal := tasksGlobal[id := task.(subTasks := JsArray.Splice(task.subTasks, subtaskIndex))];
      task := tasksGlobal[id];
      tasksGlobal := tasksGlobal[id := task.(subTasksChecked := JsArray.Splice(task.subTasksChecked, subtaskIndex))];
      var _ := OpenTask(id);
    }

    /** saveEditedSubtask: only after an ok reply, and only entry
        `subtaskIndex` of the working list takes the new text. */
    method SaveEditedSubtask(subtaskIndex: nat, newSubtask: string, replyOk: bool)
      requires subtaskIndex < |editingSubtasks|
      modifies this`editingSubtasks
      ensures |editingSubtasks| == |old(editingSubtasks)|
      ensures editingSubtasks[subtaskIndex] == if replyOk then newSubtask else old(editingSubtasks[subtaskIndex])
      ensures forall k :: 0 <= k < |editingSubtasks| && k != subtaskIndex ==> editingSubtasks[k] == old(editingSubtasks[k])
    {
      if replyOk {
        editingSubtasks := editingSubtasks[subtaskIndex := newSubtask];
      }
    }
  }

  /** `task.assigneeNames ? [...task.assigneeNames] : []`: spreading a
      string gives its characters one by one; a value that cannot be
      spread throws (`None`). */
  function SeedSelection(names: AssigneeField): Option<seq<string>> {
    match names
    case Absent => Some([])
    case Text(s) => Some(seq(|s|, i requires 0 <= i < |s| => [s[i]]))
    case List(ns) => Some(ns)
    case OtherValue => None
  }

  /** Seeding from a one-word string selects its letters, not the name. */
  lemma SeedFromString()
    ensures SeedSelection(Text("Ann")) == Some(["A", "n", "n"])
  {
    var s := "Ann";
    var r := seq(|s|, i requires 0 <= i < |s| => [s[i]]);
    assert s[0] == 'A' && s[1] == 'n' && s[2] == 'n';
    assert r[0] == ['A'] && r[1] == ['n'] && r[2] == ['n'];
    assert r == ["A", "n", "n"];
  }

  // ---------------------------------------------------------------------
  // Assignee checkboxes (this file's definitions)

  /** toggleUser (js/taskActions.js): flips row `i`; a now-checked row's name
      is pushed unless present, a now-unchecked row's name loses its first
      occurrence. Chips are not touched. */
  method ToggleUser(picker: Assign.AssigneePicker, i: nat)
    requires i < |picker.rows|
    modifies picker`rows, picker`toAssignUser
    ensures picker.rows == old(picker.rows)[i := Flipped(old(picker.rows[i]))]
    ensures picker.toAssignUser == ToggledNames(old(picker.toAssignUser), old(picker.rows[i]))
  {
    var row := picker.rows[i];
    var userFullName := row.name;
    var list := picker.toAssignUser;
    if !row.checked {
      if userFullName !in list {
        list := list + [userFullName];
      }
    } else {
      var index := JsArray.IndexOf(list, userFullName);
      if index > -1 {
        list := JsArray.Splice(list, index);
      }
    }
    picker.rows := picker.rows[i := row.(checked := !row.checked, selected := !row.checked)];
    picker.toAssignUser := list;
  }

  /** A row after a click: checkbox flipped, `selected` following it. */
  function Flipped(row: Assign.Row): Assign.Row {
    row.(checked := !row.checked, selected := !row.checked)
  }

  /** The selection after a click on `row` (given as it was before). */
  function ToggledNames(list: seq<string>, row: Assign.Row): seq<string> {
    if !row.checked then JsArray.PushIfAbsent(list, row.name) else JsArray.RemoveFirst(list, row.name)
  }

  /** Checking a box whose name is not selected and unchecking it again
      gives back the selection exactly. */
  lemma ToggleTwiceRestores(list: seq<string>, row: Assign.Row)
    requires !row.checked && row.name !in list
    ensures ToggledNames(ToggledNames(list, row), Flipped(row)) == list
  {
    JsArray.PushThenRemove(list, row.name);
  }

  /** Checking a box puts its name in the selection exactly once, given a
      selection without duplicates; unchecking removes it. */
  lemma ToggleNoDup(list: seq<string>, row: Assign.Row)
    requires JsArray.NoDup(list)
    ensures JsArray.NoDup(ToggledNames(list, row))
    ensures !row.checked ==> multiset(ToggledNames(list, row))[row.name] == 1
    ensures row.checked ==> row.name !in ToggledNames(list, row)
  {
    if !row.checked {
      JsArray.PushIfAbsentOnce(list, row.name);
    } else {
      JsArray.RemoveFirstNoDup(list, row.name);
    }
  }

  /** With one row per name and no duplicate selections, a click keeps
      every checkbox in step with the selection. */
  lemma ToggleKeepsInStep(rows: seq<Assign.Row>, list: seq<string>, i: nat)
    requires i < |rows| && Assign.InStep(rows, list) && JsArray.NoDup(list)
    requires forall a, b :: 0 <= a < b < |rows| ==> rows[a].name != rows[b].name
    ensures Assign.InStep(rows[i := Flipped(rows[i])], ToggledNames(list, rows[i]))
  {
    var r := rows[i := Flipped(rows[i])];
    var l := ToggledNames(list, rows[i]);
    ToggleNoDup(list, rows[i]);
    forall k | 0 <= k < |r| ensures r[k].checked <==> r[k].name in l {
      if k != i {
        assert r[k] == rows[k] && rows[k].name != rows[i].name;
        if !rows[i].checked {
          assert l == JsArray.PushIfAbsent(list, rows[i].name);
        } else {
          assert multiset(l) == multiset(list) - multiset{rows[i].name};
          assert multiset(l)[rows[k].name] == multiset(list)[rows[k].name];
        }
      }
    }
  }

  /** synchronizeCheckboxesWithArray: every checkbox, and its row's
      `selected` mark, follows membership of the row's name in
      `toAssignUser`. */
  method SynchronizeCheckboxesWithArray(picker: Assign.AssigneePicker)
    modifies picker`rows
    ensures |picker.rows| == |old(picker.rows)|
    ensures forall k :: 0 <= k < |picker.rows| ==>
      && picker.rows[k].key == old(picker.rows[k].key)
      && picker.rows[k].name == old(picker.rows[k].name)
      && picker.rows[k].selected == picker.rows[k].checked
    ensures Assign.InStep(picker.rows, picker.toAssignUser)
  {
    var i := 0;
    while i < |picker.rows|
      invariant 0 <= i <= |picker.rows| == |old(picker.rows)|
      invariant forall k :: 0 <= k < |picker.rows| ==>
        && picker.rows[k].key == old(picker.rows[k].key)
        && picker.rows[k].name == old(picker.rows[k].name)
      invariant forall k :: 0 <= k < i ==>
        && picker.rows[k].selected == picker.rows[k].checked
        && (picker.rows[k].checked <==> picker.rows[k].name in picker.toAssignUser)
    {
      var checked := picker.rows[i].name in picker.toAssignUser;
      picker.rows := picker.rows[i := picker.rows[i].(checked := checked, selected := checked)];
      i := i + 1;
    }
  }

  /** The names of the checked rows, in row order. */
  function CheckedNames(rows: seq<Assign.Row>): (r: seq<string>)
    ensures |r| <= |rows|
    ensures forall x :: x in r <==> exists k :: 0 <= k < |rows| && rows[k].checked && rows[k].name == x
  {
    if |rows| == 0 then []
    else
      var rest := CheckedNames(rows[1..]);
      assert forall k :: 1 <= k < |rows| ==> rows[k] == rows[1..][k - 1];
      (if rows[0].checked then [rows[0].name] else []) + rest
  }

  /** A single row contributes its name exactly when it is checked. */
  lemma CheckedNamesOne(row: Assign.Row)
    ensures CheckedNames([row]) == if row.checked then [row.name] else []
  {
    assert [row][1..] == [];
  }

  lemma CheckedNamesCons(rows: seq<Assign.Row>)
    requires |rows| > 0
    ensures CheckedNames(rows) == (if rows[0].checked then [rows[0].name] else []) + CheckedNames(rows[1..])
  {
  }

  lemma Regroup(h: seq<string>, whole: seq<string>, restWhole: seq<string>, restA: seq<string>,
                ca: seq<string>, cb: seq<string>)
    requires whole == h + restWhole && restWhole == restA + cb && ca == h + restA
    ensures whole == ca + cb
  {
  }

  /** `filter` then `map` works row by row: the names of two stretches of
      rows are the names of the first followed by those of the second, so
      each checked row gives one entry, in row order. */
  lemma {:induction false} CheckedNamesAppend(a: seq<Assign.Row>, b: seq<Assign.Row>)
    ensures CheckedNames(a + b) == CheckedNames(a) + CheckedNames(b)
    decreases |a|
  {
    if |a| == 0 {
      assert a + b == b;
    } else {
      assert (a + b)[0] == a[0];
      assert (a + b)[1..] == a[1..] + b;
      CheckedNamesAppend(a[1..], b);
      CheckedNamesCons(a);
      CheckedNamesCons(a + b);
      Regroup(if a[0].checked then [a[0].name] else [], CheckedNames(a + b), CheckedNames(a[1..] + b),
              CheckedNames(a[1..]), CheckedNames(a), CheckedNames(b));
    }
  }

  /** updateAssigneesFromCheckboxes: the selection becomes the names of the
      checked rows. */
  method UpdateAssigneesFromCheckboxes(picker: Assign.AssigneePicker)
    modifies picker`toAssignUser
    ensures picker.toAssignUser == CheckedNames(picker.rows)
  {
    picker.toAssignUser := CheckedNames(picker.rows);
  }

  /** Reading the checkboxes back after they were put in step keeps exactly
      the selected names that have a row: selections without an account
      row are dropped at save time. */
  lemma CheckedNamesAfterSync(rows: seq<Assign.Row>, list: seq<string>)
    requires Assign.InStep(rows, list)
    ensures forall x :: x in CheckedNames(rows) <==> x in list && exists k :: 0 <= k < |rows| && rows[k].name == x
  {
  }

  // ---------------------------------------------------------------------
  // changePriority (this file's definition)

  /** changePriority (js/taskActions.js): the priority text is set to the
      value whatever it is, and each of the three buttons is selected
      exactly when it equals the value. */
  method ChangePriority(prio: AddTask.PriorityPicker, p: string)
    requires prio.Valid()
    modifies prio
    ensures prio.Valid()
    ensures prio.inputPrio == p
    ensures prio.active == if AddTask.IsPriority(p) then {p} else {}
  {
    prio.active := if p == "urgent" then prio.active + {"urgent"} else prio.active - {"urgent"};
    prio.active := if p == "medium" then prio.active + {"medium"} else prio.active - {"medium"};
    prio.active := if p == "low" then prio.active + {"low"} else prio.active - {"low"};
    prio.inputPrio := p;
  }

  // ---------------------------------------------------------------------
  // getProfileColor

  /** The browser's localStorage, as used for profile colours. */
  class ProfileColorCache {
    var items: map<string, string>

    constructor ()
      ensures items == map[]
    {
      items := map[];
    }
  }

  predicate NamesMatch(a: Assign.Account, firstName: string, lastName: string) {
    a.firstName == firstName && a.lastName == lastName
  }

  /** Account `i` is the first whose names match, and has colour `color`. */
  ghost predicate FirstMatchAt(accounts: seq<Assign.AccountEntry>, firstName: string, lastName: string, i: nat, color: string)
    requires i < |accounts|
  {
    && NamesMatch(accounts[i].account, firstName, lastName)
    && color == accounts[i].account.profileColor
    && forall j :: 0 <= j < i ==> !NamesMatch(accounts[j].account, firstName, lastName)
  }

  /** The colour of the first account whose first and last names both
      match, if any. */
  function AccountColor(accounts: seq<Assign.AccountEntry>, firstName: string, lastName: string): (r: Option<string>)
    ensures r.None? <==> forall i :: 0 <= i < |accounts| ==> !NamesMatch(accounts[i].account, firstName, lastName)
    ensures r.Some? ==>
      exists i :: 0 <= i < |accounts| && FirstMatchAt(accounts, firstName, lastName, i, r.value)
  {
    if |accounts| == 0 then None
    else if NamesMatch(accounts[0].account, firstName, lastName) then
      assert FirstMatchAt(accounts, firstName, lastName, 0, accounts[0].account.profileColor);
      Some(accounts[0].account.profileColor)
    else
      var r := AccountColor(accounts[1..], firstName, lastName);
      assert forall i :: 1 <= i < |accounts| ==> accounts[i] == accounts[1..][i - 1];
      assert r.Some? ==>
        forall i :: 0 <= i < |accounts| - 1 && FirstMatchAt(accounts[1..], firstName, lastName, i, r.value) ==>
          FirstMatchAt(accounts, firstName, lastName, i + 1, r.value);
      r
  }

  /** getProfileColor: a non-empty cached colour for "first last" is
      returned as it is; otherwise, if the accounts arrive, the colour of
      the first matching account is stored under that name and returned;
      no match or a failed request gives `null`. */
  method GetProfileColor(cache: ProfileColorCache, firstName: string, lastName: string,
                         accounts: Option<seq<Assign.AccountEntry>>) returns (color: Option<string>)
    modifies cache
    ensures var fullName := firstName + " " + lastName;
      if fullName in old(cache.items) && old(cache.items[fullName]) != "" then
        color == Some(old(cache.items[fullName])) && cache.items == old(cache.items)
      else if accounts.None? then
        color == None && cache.items == old(cache.items)
      else
        && color == AccountColor(accounts.value, firstName, lastName)
        && cache.items == if color.Some? then old(cache.items)[fullName := color.value] else old(cache.items)
  {
    var fullName := firstName + " " + lastName;
    if fullName in cache.items && cache.items[fullName] != "" {
      return Some(cache.items[fullName]);
    }
    if accounts.None? {
      return None;
    }
    var list := accounts.value;
    var i := 0;
    while i < |list|
      invariant 0 <= i <= |list|
      invariant AccountColor(list[i..], firstName, lastName) == AccountColor(list, firstName, lastName)
      invariant cache.items == old(cache.items)
    {
      var account := list[i].account;
      if account.firstName == firstName && account.lastName == lastName {
        cache.items := cache.items[fullName := account.profileColor];
        return Some(account.profileColor);
      }
      assert list[i..][1..] == list[i + 1..];
      i := i + 1;
    }
    return None;
  }
}
