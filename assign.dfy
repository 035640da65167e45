/** The assignee selection of the add-task form and the edit popup
    (js/assign.js): the module-level list `toAssignUser` of full names, the
    dropdown of accounts with one checkbox row each, the chips shown for
    selected users and the dropdown's display style. Account data is
    passed in as a list of (key, account) entries in `Object.keys` order;
    whether the accounts request succeeded is passed in as a flag. */
module Assign {
  import opened Optional
  import JsArray

  datatype Account = Account(firstName: string, lastName: string, profileColor: string, initials: string)

  datatype AccountEntry = AccountEntry(key: string, account: Account)

  /** `${firstName} ${lastName}`: the name by which a user is selected. */
  function FullName(a: Account): string {
    a.firstName + " " + a.lastName
  }

  /** `accounts[key]`: the account filed under a key, if any. */
  function FindAccount(accounts: seq<AccountEntry>, key: string): (r: Option<Account>)
    ensures r.None? <==> forall i :: 0 <= i < |accounts| ==> accounts[i].key != key
    ensures r.Some? ==> exists i :: 0 <= i < |accounts| && accounts[i].key == key && accounts[i].account == r.value
  {
    if |accounts| == 0 then None
    else if accounts[0].key == key then Some(accounts[0].account)
    else
      var r := FindAccount(accounts[1..], key);
      assert forall i :: 1 <= i < |accounts| ==> accounts[i] == accounts[1..][i - 1];
      r
  }

  /** getUserNameByCheckboxValue: the full name of the account filed under a
      checkbox value; `null` for an unknown key or a failed request. */
  function GetUserNameByCheckboxValue(accounts: seq<AccountEntry>, value: string, replyOk: bool): (r: Option<string>)
    ensures !replyOk ==> r == None
    ensures replyOk ==> (r.Some? <==> exists i :: 0 <= i < |accounts| && accounts[i].key == value)
    ensures r.Some? ==> exists i :: 0 <= i < |accounts| && accounts[i].key == value && r.value == FullName(accounts[i].account)
  {
    if !replyOk then None
    else match FindAccount(accounts, value)
      case None => None
      case Some(a) => Some(FullName(a))
  }

  /** `if (name) { if (!list.includes(name)) list.push(name) }`. */
  function NameAdded(list: seq<string>, name: Option<string>): seq<string> {
    if name.Some? then JsArray.PushIfAbsent(list, name.value) else list
  }

  /** `if (name) { let i = list.indexOf(name); if (i > -1) list.splice(i, 1) }`. */
  function NameRemoved(list: seq<string>, name: Option<string>): seq<string> {
    if name.Some? then JsArray.RemoveFirst(list, name.value) else list
  }

  /** Resolving a name and adding it never introduces a duplicate. */
  lemma NameAddedNoDup(list: seq<string>, name: Option<string>)
    requires JsArray.NoDup(list)
    ensures JsArray.NoDup(NameAdded(list, name))
    ensures name.Some? ==> multiset(NameAdded(list, name))[name.value] == 1
  {
    if name.Some? { JsArray.PushIfAbsentOnce(list, name.value); }
  }

  /** Removing a resolved name takes out at most one entry and keeps the
      others. */
  lemma NameRemovedAtMostOne(list: seq<string>, name: Option<string>)
    ensures multiset(NameRemoved(list, name)) <= multiset(list)
    ensures |list| - 1 <= |NameRemoved(list, name)| <= |list|
  {
    if name.Some? {
      var x := name.value;
      var r := JsArray.RemoveFirst(list, x);
      if x in list {
        assert multiset(list)[x] >= 1;
        assert multiset(r) == multiset(list) - multiset{x};
        assert |multiset(r)| == |multiset(list)| - 1;
      }
    }
  }

  /** The `style.display` value after toggleDropdown. */
  function ToggledDisplay(display: string): (r: string)
    ensures r == "block" || r == "none"
    ensures r == "block" <==> display != "block"
  {
    if display == "block" then "none" else "block"
  }

  /** One user row of the dropdown: its checkbox value (the account key),
      its `data-name`, whether the checkbox is checked and whether the row
      carries the class `selected`. */
  datatype Row = Row(key: string, name: string, checked: bool, selected: bool)

  /** createUserDiv: the row for one account. */
  function CreateUserDiv(e: AccountEntry, isChecked: bool): Row {
    Row(e.key, FullName(e.account), isChecked, isChecked)
  }

  /** Every row's checkbox is checked exactly when its name is selected. */
  ghost predicate InStep(rows: seq<Row>, list: seq<string>) {
    forall k :: 0 <= k < |rows| ==> (rows[k].checked <==> rows[k].name in list)
  }

  /** The first row with a given checkbox value, or -1
      (`querySelector('… input[value="…"]')`). */
  function RowIndex(rows: seq<Row>, key: string): (r: int)
    ensures -1 <= r < |rows|
    ensures r == -1 <==> forall k :: 0 <= k < |rows| ==> rows[k].key != key
    ensures 0 <= r ==> rows[r].key == key && forall k :: 0 <= k < r ==> rows[k].key != key
  {
    if |rows| == 0 then -1
    else if rows[0].key == key then 0
    else
      var k := RowIndex(rows[1..], key);
      assert forall j :: 1 <= j < |rows| ==> rows[j] == rows[1..][j - 1];
      if k == -1 then -1 else k + 1
  }

  class AssigneePicker {
    /** `dropdownContent.style.display`. */
    var display: string
    /** The rows of `#dropdownContent`, in document order. */
    var rows: seq<Row>
    /** The `data-value` of each chip in `#selectedUsers`, in document order. */
    var chips: seq<string>
    /** The module-level `toAssignUser`. */
    var toAssignUser: seq<string>

    /** Chips are only ever added for a value that has none, so no value has
        two chips. */
    ghost predicate Valid()
      reads this
    {
      JsArray.NoDup(chips)
    }

    constructor ()
      ensures Valid()
      ensures display == "" && rows == [] && chips == [] && toAssignUser == []
    {
      display, rows, chips, toAssignUser := "", [], [], [];
    }

    /** toggleDropdown: shown exactly when it was not shown before. */
    method ToggleDropdown()
      modifies this`display
      ensures display == ToggledDisplay(old(display))
    {
      display := if display == "block" then "none" else "block";
    }

    /** populateDropdown: one row per account, in key order; a row is checked
        and marked `selected` exactly when its full name is in
        `toAssignUser`. */
    method PopulateDropdown(accounts: seq<AccountEntry>)
      modifies this`rows
      ensures |rows| == |accounts|
      ensures forall i :: 0 <= i < |rows| ==>
        && rows[i].key == accounts[i].key
        && rows[i].name == FullName(accounts[i].account)
        && (rows[i].checked <==> FullName(accounts[i].account) in toAssignUser)
        && rows[i].selected == rows[i].checked
      ensures InStep(rows, toAssignUser)
    {
      rows := [];
      var i := 0;
      while i < |accounts|
        invariant 0 <= i <= |accounts| && |rows| == i
        invariant forall k :: 0 <= k < i ==>
          && rows[k].key == accounts[k].key
          && rows[k].name == FullName(accounts[k].account)
          && (rows[k].checked <==> FullName(accounts[k].account) in toAssignUser)
          && rows[k].selected == rows[k].checked
      {
        var user := accounts[i].account;
        var isChecked := FullName(user) in toAssignUser;
        rows := rows + [CreateUserDiv(accounts[i], isChecked)];
        i := i + 1;
      }
    }

    /** addUser: a chip is added only for a value without one; only then is
        the name resolved and pushed, and only if it is absent. */
    method AddUser(value: string, accounts: seq<AccountEntry>, replyOk: bool)
      requires Valid()
      modifies this`chips, this`toAssignUser
      ensures Valid()
      ensures value in old(chips) ==> chips == old(chips) && toAssignUser == old(toAssignUser)
      ensures value !in old(chips) ==>
        && chips == old(chips) + [value]
        && toAssignUser == NameAdded(old(toAssignUser), GetUserNameByCheckboxValue(accounts, value, replyOk))
      ensures JsArray.NoDup(old(toAssignUser)) ==> JsArray.NoDup(toAssignUser)
    {
      if value !in chips {
        chips := chips + [value];
        var userFullName := GetUserNameByCheckboxValue(accounts, value, replyOk);
        if userFullName.Some? {
          if userFullName.value !in toAssignUser {
            toAssignUser := toAssignUser + [userFullName.value];
          }
        }
        if JsArray.NoDup(old(toAssignUser)) {
          NameAddedNoDup(old(toAssignUser), userFullName);
        }
      }
    }

    /** removeUser: acts only when a chip for the value exists; removes that
        chip and at most one occurrence of the resolved name. */
    method RemoveUser(value: string, accounts: seq<AccountEntry>, replyOk: bool)
      requires Valid()
      modifies this`chips, this`toAssignUser
      ensures Valid()
      ensures value !in old(chips) ==> chips == old(chips) && toAssignUser == old(toAssignUser)
      ensures value in old(chips) ==>
        && chips == JsArray.RemoveFirst(old(chips), value)
        && toAssignUser == NameRemoved(old(toAssignUser), GetUserNameByCheckboxValue(accounts, value, replyOk))
      ensures value !in chips
    {
      if value in chips {
        JsArray.RemoveFirstNoDup(chips, value);
        chips := JsArray.RemoveFirst(chips, value);
        var userFullName := GetUserNameByCheckboxValue(accounts, value, replyOk);
        if userFullName.Some? {
          var index := JsArray.IndexOf(toAssignUser, userFullName.value);
          if index > -1 {
            toAssignUser := JsArray.Splice(toAssignUser, index);
          }
        }
      }
    }

    /** removeUserFromEditTask: the same rule as removeUser, written a second
        time in the source. */
    method RemoveUserFromEditTask(value: string, accounts: seq<AccountEntry>, replyOk: bool)
      requires Valid()
      modifies this`chips, this`toAssignUser
      ensures Valid()
      ensures value !in old(chips) ==> chips == old(chips) && toAssignUser == old(toAssignUser)
      ensures value in old(chips) ==>
        && chips == JsArray.RemoveFirst(old(chips), value)
        && toAssignUser == NameRemoved(old(toAssignUser), GetUserNameByCheckboxValue(accounts, value, replyOk))
      ensures value !in chips
    {
      var userDivIndex := JsArray.IndexOf(chips, value);
      if userDivIndex != -1 {
        JsArray.RemoveFirstNoDup(chips, value);
        chips := JsArray.Splice(chips, userDivIndex);
        var userFullName := GetUserNameByCheckboxValue(accounts, value, replyOk);
        if userFullName.Some? {
          var index := JsArray.IndexOf(toAssignUser, userFullName.value);
          if index != -1 {
            toAssignUser := JsArray.Splice(toAssignUser, index);
          }
        }
      }
    }

    /** toggleUser (js/assign.js): flips row `i`'s checkbox; a now-checked box
        adds the user, a now-unchecked one removes the chip and one
        occurrence of the name (the second removal finds no chip). */
    method ToggleUser(i: nat, accounts: seq<AccountEntry>, replyOk: bool)
      requires Valid() && i < |rows|
      modifies this`rows, this`chips, this`toAssignUser
      ensures Valid()
      ensures var now := !old(rows[i].checked);
        rows == old(rows)[i := old(rows[i]).(checked := now, selected := now)]
      ensures var value := old(rows[i].key);
        var name := GetUserNameByCheckboxValue(accounts, value, replyOk);
        if !old(rows[i].checked) then
          if value in old(chips) then chips == old(chips) && toAssignUser == old(toAssignUser)
          else chips == old(chips) + [value] && toAssignUser == NameAdded(old(toAssignUser), name)
        else
          if value in old(chips) then chips == JsArray.RemoveFirst(old(chips), value) && toAssignUser == NameRemoved(old(toAssignUser), name)
          else chips == old(chips) && toAssignUser == old(toAssignUser)
    {
      var value := rows[i].key;
      var now := !rows[i].checked;
      rows := rows[i := rows[i].(checked := now)];
      if now {
        AddUser(value, accounts, replyOk);
        rows := rows[i := rows[i].(selected := true)];
      } else {
        RemoveUserFromEditTask(value, accounts, replyOk);
        RemoveUser(value, accounts, replyOk);
        rows := rows[i := rows[i].(selected := false)];
      }
    }

    /** removeUserDiv: clicking chip `j` unchecks and unmarks the row with the
        chip's value, removes the chip and one occurrence of the name. With
        no such row the lookup of its checkbox fails and nothing changes. */
    method RemoveUserDiv(j: nat, accounts: seq<AccountEntry>, replyOk: bool)
      requires Valid() && j < |chips|
      modifies this`rows, this`chips, this`toAssignUser
      ensures Valid()
      ensures var value := old(chips[j]);
        var k := RowIndex(old(rows), value);
        if k == -1 then
          rows == old(rows) && chips == old(chips) && toAssignUser == old(toAssignUser)
        else
          && rows == old(rows)[k := old(rows[k]).(checked := false, selected := false)]
          && chips == old(chips[..j] + chips[j + 1..])
          && value !in chips
          && toAssignUser == NameRemoved(old(toAssignUser), GetUserNameByCheckboxValue(accounts, value, replyOk))
    {
      var value := chips[j];
      var k := RowIndex(rows, value);
      if k != -1 {
        rows := rows[k := rows[k].(checked := false)];
        JsArray.SplitAt(chips, j);
        JsArray.SpliceNoDup(chips, j);
        chips := chips[..j] + chips[j + 1..];
        rows := rows[k := rows[k].(selected := false)];
        var userFullName := GetUserNameByCheckboxValue(accounts, value, replyOk);
        RemoveName(userFullName);
      }
    }

    /** The name removal removeUserDiv ends with: the first occurrence of a
        resolved name leaves `toAssignUser`. */
    method RemoveName(userFullName: Option<string>)
      modifies this`toAssignUser
      ensures toAssignUser == NameRemoved(old(toAssignUser), userFullName)
    {
      if userFullName.Some? {
        var index := JsArray.IndexOf(toAssignUser, userFullName.value);
        if index > -1 {
          toAssignUser := JsArray.Splice(toAssignUser, index);
        }
      }
    }
  }
}
