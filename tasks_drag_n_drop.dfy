/** Drag and drop on the board (js/tasksDragNDrop.js): the columns
    (`.task-box` elements) with their children, the set of highlighted
    columns, the dragover, dragleave, dragend and drop handlers, the
    placeholder pass on the source and target columns, and the fixed
    placeholder messages. The state request a drop issues is returned, not
    sent. */
module TasksDragNDrop {
  import opened Optional
  import opened JsString
  import JsArray

  /** A child of a column: a task card, whose element id is the task id, or
      the `no-tasks` placeholder with its text. */
  datatype Child = Card(taskId: string) | NoTasks(message: string)

  /** A `.task-box` element: its id and its children in document order. */
  datatype Column = Column(id: string, children: seq<Child>)

  /** getNoTaskMessage: the four fixed messages, and the default for any
      other column state. */
  function GetNoTaskMessage(category: string): (r: string)
    ensures r == "No tasks found." <==>
      category != "todo" && category != "in-progress" && category != "awaiting-feedback" && category != "done"
  {
    match category
    case "todo" => "No tasks to do."
    case "in-progress" => "No tasks in progress."
    case "awaiting-feedback" => "No tasks awaiting feedback."
    case "done" => "No tasks done."
    case _ => "No tasks found."
  }

  /** The state a column id stands for: the id with its first "-box" removed. */
  function StateOf(columnId: string): string {
    ReplaceFirst(columnId, "-box", "")
  }

  /** The placeholder text for a column emptied by a drop. */
  function MessageFor(columnId: string): string {
    GetNoTaskMessage(StateOf(columnId))
  }

  // The four board columns map to their states and messages.

  lemma TodoColumn()
    ensures StateOf("todo-box") == "todo"
    ensures MessageFor("todo-box") == "No tasks to do."
  {
    StateOfColumn("todo", "todo-box");
  }

  lemma InProgressColumn()
    ensures StateOf("in-progress-box") == "in-progress"
    ensures MessageFor("in-progress-box") == "No tasks in progress."
  {
    StateOfColumn("in-progress", "in-progress-box");
  }

  lemma AwaitingFeedbackColumn()
    ensures StateOf("awaiting-feedback-box") == "awaiting-feedback"
    ensures MessageFor("awaiting-feedback-box") == "No tasks awaiting feedback."
  {
    StateOfColumn("awaiting-feedback", "awaiting-feedback-box");
  }

  lemma DoneColumn()
    ensures StateOf("done-box") == "done"
    ensures MessageFor("done-box") == "No tasks done."
  {
    StateOfColumn("done", "done-box");
  }

  /** A column id made of a state with no "-b" in it, followed by "-box". */
  lemma StateOfColumn(state: string, columnId: string)
    requires columnId == state + "-box"
    requires forall k :: 0 <= k < |state| - 1 ==> state[k] != '-' || state[k + 1] != 'b'
    ensures StateOf(columnId) == state
  {
    NoBoxBefore(state);
  }

  /** A state with no "-b" in it is recovered from its column id. */
  lemma NoBoxBefore(state: string)
    requires forall k :: 0 <= k < |state| - 1 ==> state[k] != '-' || state[k + 1] != 'b'
    ensures StateOf(state + "-box") == state
  {
    var s := state + "-box";
    forall k | 0 <= k < |state| ensures !OccursAt(s, "-box", k) {
      var w := s[k..k + 4];
      assert w[0] == s[k] == state[k] && w[1] == s[k + 1];
      if k + 1 < |state| {
        assert s[k + 1] == state[k + 1];
      } else {
        assert s[k + 1] == '-';
      }
      assert w[0] != '-' || w[1] != 'b';
    }
    StripSuffix(state, "-box");
  }

  /** Where a card sits: column index and child index. */
  datatype Loc = Loc(column: nat, index: nat)

  /** `document.getElementById`: the first card with that id in document
      order, searched from column `from` on. */
  function FindCardFrom(cols: seq<Column>, id: string, from: nat): (r: Option<Loc>)
    requires from <= |cols|
    ensures r.None? ==> forall c :: from <= c < |cols| ==> Card(id) !in cols[c].children
    ensures r.Some? ==>
      && from <= r.value.column < |cols|
      && r.value.index == JsArray.IndexOf(cols[r.value.column].children, Card(id)) >= 0
      && forall c :: from <= c < r.value.column ==> Card(id) !in cols[c].children
    decreases |cols| - from
  {
    if from == |cols| then None
    else
      var k := JsArray.IndexOf(cols[from].children, Card(id));
      if k >= 0 then Some(Loc(from, k)) else FindCardFrom(cols, id, from + 1)
  }

  function FindCard(cols: seq<Column>, id: string): Option<Loc> {
    FindCardFrom(cols, id, 0)
  }

  /** The first column with id `id`, or -1. */
  function ColumnIndex(cols: seq<Column>, id: string): (r: int)
    ensures -1 <= r < |cols|
    ensures r == -1 <==> forall c :: 0 <= c < |cols| ==> cols[c].id != id
    ensures r >= 0 ==> cols[r].id == id && forall c :: 0 <= c < r ==> cols[c].id != id
  {
    if |cols| == 0 then -1
    else if cols[0].id == id then 0
    else
      var r := ColumnIndex(cols[1..], id);
      assert forall c :: 1 <= c < |cols| ==> cols[c] == cols[1..][c - 1];
      if r < 0 then -1 else r + 1
  }

  /** The first placeholder among `children`, or -1 (`querySelector('.no-tasks')`). */
  function FirstPlaceholder(children: seq<Child>): (r: int)
    ensures -1 <= r < |children|
    ensures r == -1 <==> forall i :: 0 <= i < |children| ==> children[i].Card?
    ensures r >= 0 ==> children[r].NoTasks? && forall i :: 0 <= i < r ==> children[i].Card?
  {
    if |children| == 0 then -1
    else if children[0].NoTasks? then 0
    else
      var r := FirstPlaceholder(children[1..]);
      assert forall i :: 1 <= i < |children| ==> children[i] == children[1..][i - 1];
      if r < 0 then -1 else r + 1
  }

  /** The move itself: the card leaves its column and is appended to the
      target's children. */
  function MoveCard(cols: seq<Column>, loc: Loc, t: nat): seq<Column>
    requires loc.column < |cols| && loc.index < |cols[loc.column].children| && t < |cols|
  {
    var c := loc.column;
    var card := cols[c].children[loc.index];
    var cols1 := cols[c := cols[c].(children := JsArray.Splice(cols[c].children, loc.index))];
    cols1[t := cols1[t].(children := cols1[t].children + [card])]
  }

  /** The first half of checkAndUpdateTaskBoxes: an empty source column
      gains one placeholder with its column's message. */
  function FillEmpty(cols: seq<Column>, s: nat): seq<Column>
    requires s < |cols|
  {
    if |cols[s].children| == 0 then cols[s := cols[s].(children := [NoTasks(MessageFor(cols[s].id))])]
    else cols
  }

  /** The second half: a target with more than one child loses its first
      placeholder. */
  function DropPlaceholder(children: seq<Child>): seq<Child> {
    var i := FirstPlaceholder(children);
    if i >= 0 && |children| > 1 then JsArray.Splice(children, i) else children
  }

  /** checkAndUpdateTaskBoxes on columns `s` (source) and `t` (target). */
  function PlaceholderPass(cols: seq<Column>, s: nat, t: nat): seq<Column>
    requires s < |cols| && t < |cols|
  {
    var cols1 := FillEmpty(cols, s);
    cols1[t := cols1[t].(children := DropPlaceholder(cols1[t].children))]
  }

  /** The columns after dropping the card at `loc` on column `t`. */
  function AfterDrop(cols: seq<Column>, loc: Loc, t: nat): seq<Column>
    requires loc.column < |cols| && loc.index < |cols[loc.column].children| && t < |cols|
  {
    PlaceholderPass(MoveCard(cols, loc, t), loc.column, t)
  }

  /** The related target of a dragleave: none, or an element that lies in a
      given column (`None` when it lies in no column). */
  datatype Related = NoRelated | RelatedIn(column: Option<nat>)

  class Board {
    var columns: seq<Column>
    /** Indices of the columns carrying the class `highlighted`. */
    var highlighted: set<nat>

    ghost predicate Valid()
      reads this
    {
      forall i :: i in highlighted ==> i < |columns|
    }

    constructor (cols: seq<Column>)
      ensures Valid() && columns == cols && highlighted == {}
    {
      columns, highlighted := cols, {};
    }

    /** allowDrop: over a column (`over`, the target's closest column),
        exactly that column is highlighted; over no column, nothing
        changes. */
    method AllowDrop(over: Option<nat>)
      requires Valid()
      requires over.Some? ==> over.value < |columns|
      modifies this`highlighted
      ensures Valid()
      ensures over.Some? ==> highlighted == {over.value}
      ensures over.None? ==> highlighted == old(highlighted)
    {
      if over.Some? {
        highlighted := {};
        highlighted := highlighted + {over.value};
      }
    }

    /** dragLeave: the column being left loses its highlight when there is
        no related target or it lies outside that column; nothing else
        changes. */
    method DragLeave(box: Option<nat>, related: Related)
      requires Valid()
      modifies this`highlighted
      ensures Valid()
      ensures box.Some? && (related.NoRelated? || related.column != box) ==>
        highlighted == old(highlighted) - {box.value}
      ensures box.None? || (related.RelatedIn? && related.column == box) ==>
        highlighted == old(highlighted)
    {
      if box.Some? && (related.NoRelated? || related.column != box) {
        highlighted := highlighted - {box.value};
      }
    }

    /** The dragend listener: no column stays highlighted. */
    method DragEnd()
      modifies this`highlighted
      ensures Valid() && highlighted == {}
    {
      highlighted := {};
    }

    /** handleDrop: without a card for the payload or a column for
        `targetId`, the handler throws before changing anything. Otherwise
        the card is appended to the target, every highlight is cleared, the
        new state (the target id without its first "-box") is sent, and the
        placeholder pass runs on source and target. */
    method HandleDrop(taskId: string, targetId: string) returns (newState: Option<string>)
      requires Valid()
      modifies this
      ensures Valid()
      ensures |columns| == |old(columns)|
      ensures var loc := FindCard(old(columns), taskId);
        var t := ColumnIndex(old(columns), targetId);
        if loc.None? || t < 0 then
          columns == old(columns) && highlighted == old(highlighted) && newState == None
        else
          && columns == AfterDrop(old(columns), loc.value, t)
          && highlighted == {}
          && newState == Some(StateOf(targetId))
    {
      var loc := FindCard(columns, taskId);
      var t := ColumnIndex(columns, targetId);
      if loc.None? || t < 0 {
        return None;
      }
      var c := loc.value.column;
      var card := columns[c].children[loc.value.index];
      columns := columns[c := columns[c].(children := JsArray.Splice(columns[c].children, loc.value.index))];
      columns := columns[t := columns[t].(children := columns[t].children + [card])];
      highlighted := {};
      newState := Some(ReplaceFirst(targetId, "-box", ""));
      CheckAndUpdateTaskBoxes(c, t);
    }

    /** checkAndUpdateTaskBoxes: an empty source gains one placeholder with
        its column's message; the target's first placeholder goes when the
        target has more than one child. */
    method CheckAndUpdateTaskBoxes(sourceBox: nat, targetBox: nat)
      requires sourceBox < |columns| && targetBox < |columns|
      modifies this`columns
      ensures columns == PlaceholderPass(old(columns), sourceBox, targetBox)
    {
      var cols := columns;
      if |cols[sourceBox].children| == 0 {
        var message := MessageFor(cols[sourceBox].id);
        cols := cols[sourceBox := cols[sourceBox].(children := [NoTasks(message)])];
      }
      var children := cols[targetBox].children;
      var noTaskElement := FirstPlaceholder(children);
      if noTaskElement >= 0 && |children| > 1 {
        children := JsArray.Splice(children, noTaskElement);
      }
      columns := cols[targetBox := cols[targetBox].(children := children)];
    }
  }

  // ---------------------------------------------------------------------
  // What a drop does to the cards

  /** The task ids of the cards among `children`, in order. */
  function Cards(children: seq<Child>): seq<string> {
    if |children| == 0 then []
    else (if children[0].Card? then [children[0].taskId] else []) + Cards(children[1..])
  }

  lemma {:induction false} CardsAppend(a: seq<Child>, b: seq<Child>)
    ensures Cards(a + b) == Cards(a) + Cards(b)
  {
    if |a| == 0 {
      assert a + b == b;
    } else {
      AppendTail(a, b);
      CardsAppend(a[1..], b);
    }
  }

  lemma AppendTail(a: seq<Child>, b: seq<Child>)
    requires |a| > 0
    ensures (a + b)[0] == a[0] && (a + b)[1..] == a[1..] + b
  {
  }

  lemma {:induction false} CardsWithout(children: seq<Child>, id: string)
    requires Card(id) !in children
    ensures id !in Cards(children)
  {
    if |children| > 0 {
      assert children[0] != Card(id);
      assert forall i :: 0 <= i < |children| - 1 ==> children[1..][i] == children[i + 1];
      CardsWithout(children[1..], id);
    }
  }

  /** The cards around one child `x` at index `k`. */
  lemma CardsAround(children: seq<Child>, k: nat)
    requires k < |children|
    ensures Cards(children) == Cards(children[..k]) + Cards([children[k]]) + Cards(children[k + 1..])
    ensures Cards(JsArray.Splice(children, k)) == Cards(children[..k]) + Cards(children[k + 1..])
  {
    var p, x, q := children[..k], [children[k]], children[k + 1..];
    JsArray.SplitAt(children, k);
    CardsAppend(p + x, q);
    CardsAppend(p, x);
    CardsAppend(p, q);
  }

  /** Taking out the first card with id `id` takes its id out of the cards
      and leaves the others in order. */
  lemma CardsSplice(children: seq<Child>, id: string)
    requires JsArray.IndexOf(children, Card(id)) >= 0
    ensures Cards(JsArray.Splice(children, JsArray.IndexOf(children, Card(id)))) ==
            JsArray.RemoveFirst(Cards(children), id)
  {
    var k := JsArray.IndexOf(children, Card(id));
    CardsAround(children, k);
    assert Cards([children[k]]) == [id];
    CardsWithout(children[..k], id);
    JsArray.RemoveFirstAt(Cards(children[..k]), id, Cards(children[k + 1..]));
  }

  /** A lone child's cards. */
  lemma CardsOfOne(x: Child)
    ensures Cards([x]) == if x.Card? then [x.taskId] else []
  {
    assert [x][1..] == [];
  }

  /** Removing a placeholder leaves the cards as they were. */
  lemma CardsSplicePlaceholder(children: seq<Child>, i: nat)
    requires i < |children| && children[i].NoTasks?
    ensures Cards(JsArray.Splice(children, i)) == Cards(children)
  {
    CardsAround(children, i);
    CardsOfOne(children[i]);
  }

  /** The pass changes only the source and target columns: the source as
      FillEmpty leaves it, the target by DropPlaceholder. */
  lemma PassShape(cols: seq<Column>, s: nat, t: nat)
    requires s < |cols| && t < |cols|
    ensures var r := PlaceholderPass(cols, s, t);
      var f := FillEmpty(cols, s);
      && |r| == |cols| && |f| == |cols|
      && (forall j :: 0 <= j < |cols| ==> r[j].id == cols[j].id)
      && (forall j :: 0 <= j < |cols| && j != s && j != t ==> r[j] == cols[j])
      && (s != t ==> r[s] == f[s])
      && r[t].children == DropPlaceholder(f[t].children)
      && (s != t || |cols[s].children| > 0 ==> f[t] == cols[t])
      && (|cols[s].children| == 0 ==> f[s].children == [NoTasks(MessageFor(cols[s].id))])
      && (|cols[s].children| > 0 ==> f[s] == cols[s])
  {
  }

  /** Dropping a placeholder keeps the cards. */
  lemma DropPlaceholderCards(children: seq<Child>)
    ensures Cards(DropPlaceholder(children)) == Cards(children)
  {
    var i := FirstPlaceholder(children);
    if i >= 0 && |children| > 1 {
      CardsSplicePlaceholder(children, i);
    }
  }

  /** Dropping a placeholder keeps a last card last. */
  lemma DropPlaceholderKeepsLast(children: seq<Child>)
    requires |children| > 0 && children[|children| - 1].Card?
    ensures var r := DropPlaceholder(children);
      |r| > 0 && r[|r| - 1] == children[|children| - 1]
  {
    var i := FirstPlaceholder(children);
    if i >= 0 && |children| > 1 {
      SpliceKeepsLast(children, i);
    }
  }

  lemma SpliceKeepsLast(children: seq<Child>, i: nat)
    requires i < |children| && children[i].NoTasks? && children[|children| - 1].Card?
    ensures var r := JsArray.Splice(children, i);
      |r| > 0 && r[|r| - 1] == children[|children| - 1]
  {
  }

  /** The placeholder pass only adds or removes placeholders. */
  lemma PassKeepsCards(cols: seq<Column>, s: nat, t: nat)
    requires s < |cols| && t < |cols|
    ensures var r := PlaceholderPass(cols, s, t);
      && |r| == |cols|
      && forall j :: 0 <= j < |cols| ==>
           r[j].id == cols[j].id && Cards(r[j].children) == Cards(cols[j].children)
  {
    PassShape(cols, s, t);
    var f := FillEmpty(cols, s);
    CardsOfOne(NoTasks(MessageFor(cols[s].id)));
    DropPlaceholderCards(f[t].children);
  }

  /** The pass leaves untouched every column but source and target, and
      keeps a card that is the target's last child last. */
  lemma PassKeepsLast(cols: seq<Column>, s: nat, t: nat)
    requires s < |cols| && t < |cols|
    requires |cols[t].children| > 0 && cols[t].children[|cols[t].children| - 1].Card?
    ensures var r := PlaceholderPass(cols, s, t);
      && (forall j :: 0 <= j < |cols| && j != s && j != t ==> r[j] == cols[j])
      && |r[t].children| > 0
      && r[t].children[|r[t].children| - 1] == cols[t].children[|cols[t].children| - 1]
  {
    PassShape(cols, s, t);
    DropPlaceholderKeepsLast(cols[t].children);
  }

  /** The columns after the move, child by child. */
  lemma MoveCardShape(cols: seq<Column>, loc: Loc, t: nat)
    requires loc.column < |cols| && loc.index < |cols[loc.column].children| && t < |cols|
    ensures var m := MoveCard(cols, loc, t);
      var c := loc.column;
      var spliced := JsArray.Splice(cols[c].children, loc.index);
      && |m| == |cols|
      && (forall j :: 0 <= j < |cols| ==> m[j].id == cols[j].id)
      && (forall j :: 0 <= j < |cols| && j != c && j != t ==> m[j] == cols[j])
      && (c != t ==> m[c].children == spliced && m[t].children == cols[t].children + [cols[c].children[loc.index]])
      && (c == t ==> m[t].children == spliced + [cols[c].children[loc.index]])
  {
  }

  /** `after` is `before` with card `id` moved from column `c` to the end
      of column `t`: the same columns with the same ids, every other column
      unchanged, the card last in `t`, the source losing only the card's first
      occurrence and every other card keeping its place. */
  ghost predicate CardMoved(before: seq<Column>, after: seq<Column>, id: string, c: nat, t: nat)
    requires c < |before| && t < |before|
  {
    && |after| == |before|
    && (forall j :: 0 <= j < |before| ==> after[j].id == before[j].id)
    && (forall j :: 0 <= j < |before| && j != c && j != t ==> after[j] == before[j])
    && |after[t].children| > 0 && after[t].children[|after[t].children| - 1] == Card(id)
    && (c != t ==> Cards(after[c].children) == JsArray.RemoveFirst(Cards(before[c].children), id))
    && (c != t ==> Cards(after[t].children) == Cards(before[t].children) + [id])
    && (c == t ==> Cards(after[t].children) == JsArray.RemoveFirst(Cards(before[t].children), id) + [id])
  }

  /** The move alone: the first card `id` of column `c` leaves it and is
      appended to the target. */
  lemma MoveCardEffect(cols: seq<Column>, id: string, c: nat, t: nat)
    requires c < |cols| && t < |cols| && JsArray.IndexOf(cols[c].children, Card(id)) >= 0
    ensures CardMoved(cols, MoveCard(cols, Loc(c, JsArray.IndexOf(cols[c].children, Card(id))), t), id, c, t)
  {
    var k := JsArray.IndexOf(cols[c].children, Card(id));
    MoveCardShape(cols, Loc(c, k), t);
    CardsSplice(cols[c].children, id);
    CardsOfOne(Card(id));
    CardsAppend(if c != t then cols[t].children else JsArray.Splice(cols[c].children, k), [Card(id)]);
  }

  /** The placeholder pass keeps a completed move a move. */
  lemma PassKeepsMove(cols: seq<Column>, m: seq<Column>, id: string, c: nat, t: nat)
    requires c < |cols| && t < |cols| && CardMoved(cols, m, id, c, t)
    ensures CardMoved(cols, PlaceholderPass(m, c, t), id, c, t)
  {
    PassKeepsCards(m, c, t);
    PassKeepsLast(m, c, t);
  }

  /** handleDrop's effect on the cards: the dropped card leaves its
      column (only its first occurrence there, the others keeping their
      order) and becomes the last child of the target; every other column
      is unchanged. This holds on any board. */
  lemma DropMovesCard(cols: seq<Column>, id: string, t: nat)
    requires FindCard(cols, id).Some? && t < |cols|
    ensures var loc := FindCard(cols, id).value;
      CardMoved(cols, AfterDrop(cols, loc, t), id, loc.column, t)
  {
    var loc := FindCard(cols, id).value;
    MoveCardEffect(cols, id, loc.column, t);
    PassKeepsMove(cols, MoveCard(cols, loc, t), id, loc.column, t);
  }

  // ---------------------------------------------------------------------
  // Placeholder consistency

  /** A column shows a placeholder exactly when it holds no card: either a
      single placeholder, or cards only, at least one. */
  ghost predicate ConsistentColumn(col: Column) {
    || (|col.children| == 1 && col.children[0].NoTasks?)
    || (|col.children| > 0 && forall i :: 0 <= i < |col.children| ==> col.children[i].Card?)
  }

  ghost predicate ConsistentBoard(cols: seq<Column>) {
    forall j :: 0 <= j < |cols| ==> ConsistentColumn(cols[j])
  }

  ghost predicate AllCards(children: seq<Child>) {
    forall i :: 0 <= i < |children| ==> children[i].Card?
  }

  /** A consistent column holding a card holds cards only, and still does
      once one child is spliced out. */
  lemma SourceAllCards(col: Column, k: nat)
    requires ConsistentColumn(col) && k < |col.children| && col.children[k].Card?
    ensures AllCards(col.children) && AllCards(JsArray.Splice(col.children, k))
  {
  }

  /** Cards only: no placeholder to drop, and a card appended keeps it so. */
  lemma AllCardsStay(children: seq<Child>, id: string)
    requires AllCards(children)
    ensures AllCards(children + [Card(id)])
    ensures DropPlaceholder(children + [Card(id)]) == children + [Card(id)]
  {
  }

  /** A non-empty list of cards has a card. */
  lemma AllCardsHaveCards(children: seq<Child>)
    requires AllCards(children) && |children| > 0
    ensures Cards(children) != []
  {
  }

  /** A placeholder followed by the dropped card loses the placeholder. */
  lemma PlaceholderThenCard(message: string, id: string)
    ensures DropPlaceholder([NoTasks(message), Card(id)]) == [Card(id)]
  {
    assert FirstPlaceholder([NoTasks(message), Card(id)]) == 0;
  }

  /** The source column after a drop elsewhere: its remaining cards, or its
      own placeholder when none remain. */
  lemma SourceAfterDrop(col: Column, k: nat)
    requires ConsistentColumn(col) && k < |col.children| && col.children[k].Card?
    ensures var spliced := JsArray.Splice(col.children, k);
      var after := if |spliced| == 0 then [NoTasks(MessageFor(col.id))] else spliced;
      && ConsistentColumn(col.(children := after))
      && (Cards(after) == [] ==> after == [NoTasks(MessageFor(col.id))])
  {
    var spliced := JsArray.Splice(col.children, k);
    SourceAllCards(col, k);
    if |spliced| > 0 {
      AllCardsHaveCards(spliced);
    }
  }

  /** The target column after a drop from elsewhere: consistent again. */
  lemma TargetAfterDrop(col: Column, id: string)
    requires ConsistentColumn(col)
    ensures ConsistentColumn(col.(children := DropPlaceholder(col.children + [Card(id)])))
  {
    if |col.children| == 1 && col.children[0].NoTasks? {
      assert col.children + [Card(id)] == [col.children[0], Card(id)];
      PlaceholderThenCard(col.children[0].message, id);
    } else {
      AllCardsStay(col.children, id);
    }
  }

  /** A column the card is dropped back onto: consistent, with a card. */
  lemma SameAfterDrop(col: Column, k: nat, id: string)
    requires ConsistentColumn(col) && k < |col.children| && col.children[k].Card?
    ensures var after := DropPlaceholder(JsArray.Splice(col.children, k) + [Card(id)]);
      ConsistentColumn(col.(children := after)) && Cards(after) != []
  {
    var spliced := JsArray.Splice(col.children, k);
    SourceAllCards(col, k);
    AllCardsStay(spliced, id);
    AllCardsHaveCards(spliced + [Card(id)]);
  }

  /** A board whose columns are consistent except possibly two, and those
      two are consistent too. */
  lemma BoardFromColumns(cols: seq<Column>, r: seq<Column>, c: nat, t: nat)
    requires ConsistentBoard(cols) && |r| == |cols| && c < |r| && t < |r|
    requires forall j :: 0 <= j < |cols| && j != c && j != t ==> r[j] == cols[j]
    requires ConsistentColumn(r[c]) && ConsistentColumn(r[t])
    ensures ConsistentBoard(r)
  {
  }

  /** A drop keeps every column consistent, and a source emptied by it shows
      exactly its own column's message. */
  lemma DropKeepsConsistent(cols: seq<Column>, id: string, t: nat)
    requires ConsistentBoard(cols)
    requires FindCard(cols, id).Some? && t < |cols|
    ensures var loc := FindCard(cols, id).value;
      var r := AfterDrop(cols, loc, t);
      && ConsistentBoard(r)
      && (Cards(r[loc.column].children) == [] ==>
            r[loc.column].children == [NoTasks(MessageFor(cols[loc.column].id))])
  {
    var loc := FindCard(cols, id).value;
    var c, k := loc.column, loc.index;
    var m := MoveCard(cols, loc, t);
    MoveCardShape(cols, loc, t);
    PassShape(m, c, t);
    if c != t {
      SourceAfterDrop(cols[c], k);
      TargetAfterDrop(cols[t], id);
    } else {
      SameAfterDrop(cols[c], k, id);
    }
    BoardFromColumns(cols, PlaceholderPass(m, c, t), c, t);
  }

  /** Dragging t1 out of todo-box, where it is the only card, onto done-box,
      which shows its placeholder: todo-box then shows "No tasks to do.",
      done-box holds t1 alone, and the state sent is "done". */
  lemma DropScenario()
    ensures var cols := [Column("todo-box", [Card("t1")]), Column("done-box", [NoTasks("No tasks done.")])];
      && FindCard(cols, "t1") == Some(Loc(0, 0))
      && ColumnIndex(cols, "done-box") == 1
      && AfterDrop(cols, Loc(0, 0), 1) ==
           [Column("todo-box", [NoTasks("No tasks to do.")]), Column("done-box", [Card("t1")])]
      && StateOf("done-box") == "done"
  {
    var cols := [Column("todo-box", [Card("t1")]), Column("done-box", [NoTasks("No tasks done.")])];
    DoneColumn();
    ScenarioLookups(cols);
    ScenarioMove(cols);
    ScenarioPass(MoveCard(cols, Loc(0, 0), 1));
  }

  lemma ScenarioLookups(cols: seq<Column>)
    requires cols == [Column("todo-box", [Card("t1")]), Column("done-box", [NoTasks("No tasks done.")])]
    ensures FindCard(cols, "t1") == Some(Loc(0, 0)) && ColumnIndex(cols, "done-box") == 1
  {
    assert JsArray.IndexOf(cols[0].children, Card("t1")) == 0;
    assert "todo-box"[0] != "done-box"[0];
  }

  lemma ScenarioMove(cols: seq<Column>)
    requires cols == [Column("todo-box", [Card("t1")]), Column("done-box", [NoTasks("No tasks done.")])]
    ensures MoveCard(cols, Loc(0, 0), 1) ==
      [Column("todo-box", []), Column("done-box", [NoTasks("No tasks done."), Card("t1")])]
  {
    assert JsArray.Splice([Card("t1")], 0) == [];
    assert [NoTasks("No tasks done.")] + [Card("t1")] == [NoTasks("No tasks done."), Card("t1")];
  }

  lemma ScenarioPass(m: seq<Column>)
    requires m == [Column("todo-box", []), Column("done-box", [NoTasks("No tasks done."), Card("t1")])]
    ensures PlaceholderPass(m, 0, 1) ==
      [Column("todo-box", [NoTasks("No tasks to do.")]), Column("done-box", [Card("t1")])]
  {
    TodoColumn();
    PlaceholderThenCard("No tasks done.", "t1");
  }
}
