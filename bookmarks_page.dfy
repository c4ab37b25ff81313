/**
 * The bookmarks page's selection state machine: which bookmarked employees
 * are ticked, the chosen bulk action, the employee a modal is about, and the
 * two modal flags.
 */
module BookmarksPage {
  import opened Seqs
  import opened Employees
  import opened Wrappers
  import opened Store
  import opened BookmarkHooks

  /** One entry of the department filter's options: `{ value, label }`
      (`label` is a reserved word in Dafny, hence `labelText`). */
  datatype SelectOption = SelectOption(value: string, labelText: string)

  /** `departmentOptions`: each department of the bookmarked employees once,
      in order of first appearance, shown under its own name. */
  function DepartmentOptions(bookmarked: seq<User>): (r: seq<SelectOption>)
    ensures forall k | 0 <= k < |r| :: r[k].value == r[k].labelText
    ensures forall d :: (exists k | 0 <= k < |r| :: r[k].value == d) <==> d in DepartmentsOf(bookmarked)
    ensures forall i, j | 0 <= i < j < |r| :: r[i].value != r[j].value
    ensures forall i, j | 0 <= i < j < |r| ::
      FirstIndex(DepartmentsOf(bookmarked), r[i].value) < FirstIndex(DepartmentsOf(bookmarked), r[j].value)
  {
    var ds := Distinct(DepartmentsOf(bookmarked));
    DistinctNoDups(DepartmentsOf(bookmarked));
    DistinctOrder(DepartmentsOf(bookmarked));
    var r := MapSeq(ds, (d: string) => SelectOption(d, d));
    assert forall d :: (exists k | 0 <= k < |r| :: r[k].value == d) <==> d in ds by {
      forall d ensures (exists k | 0 <= k < |r| :: r[k].value == d) <==> d in ds {
        if d in ds {
          var k :| 0 <= k < |ds| && ds[k] == d;
          assert r[k].value == d;
        }
      }
    }
    r
  }

  /** The bulk actions the page acts on. */
  predicate IsBulkAction(a: string)
  {
    a == "promote" || a == "assign" || a == "remove"
  }

  class BookmarksPage {
    var showPromoteModal: bool
    var showAssignModal: bool
    var selectedUser: Option<User>
    var selectedUsers: seq<int>
    var bulkAction: string

    constructor()
      ensures !showPromoteModal && !showAssignModal
      ensures selectedUser == None && selectedUsers == [] && bulkAction == ""
    {
      showPromoteModal := false;
      showAssignModal := false;
      selectedUser := None;
      selectedUsers := [];
      bulkAction := "";
    }

    /** Is the select-all box ticked for the list on screen? */
    predicate SelectAllChecked(filtered: seq<User>)
      reads this
      ensures SelectAllChecked(filtered) ==> selectedUsers != [] && filtered != []
    {
      |selectedUsers| == |filtered| && |filtered| > 0
    }

    method SetBulkAction(a: string)
      modifies this
      ensures bulkAction == a
      ensures selectedUsers == old(selectedUsers) && selectedUser == old(selectedUser)
      ensures showPromoteModal == old(showPromoteModal) && showAssignModal == old(showAssignModal)
    {
      bulkAction := a;
    }

    /** `handlePromote`: opens the promotion modal about `user`. */
    method HandlePromote(user: User)
      modifies this
      ensures selectedUser == Some(user) && showPromoteModal
      ensures selectedUsers == old(selectedUsers) && bulkAction == old(bulkAction)
      ensures showAssignModal == old(showAssignModal)
    {
      selectedUser := Some(user);
      showPromoteModal := true;
    }

    /** `handleAssignToProject`: opens the assignment modal about `user`. */
    method HandleAssignToProject(user: User)
      modifies this
      ensures selectedUser == Some(user) && showAssignModal
      ensures selectedUsers == old(selectedUsers) && bulkAction == old(bulkAction)
      ensures showPromoteModal == old(showPromoteModal)
    {
      selectedUser := Some(user);
      showAssignModal := true;
    }

    /** `handleUserSelect`: tick or untick one employee. */
    method HandleUserSelect(id: int)
      modifies this
      ensures selectedUsers == Toggled(old(selectedUsers), id)
      ensures id in selectedUsers <==> id !in old(selectedUsers)
      ensures selectedUser == old(selectedUser) && bulkAction == old(bulkAction)
      ensures showPromoteModal == old(showPromoteModal) && showAssignModal == old(showAssignModal)
    {
      if id in selectedUsers {
        selectedUsers := Without(selectedUsers, id);
      } else {
        selectedUsers := selectedUsers + [id];
      }
    }

    /** `handleSelectAll`: only the lengths are compared; equal lengths clear
      the selection, otherwise every listed employee is selected in list
      order. */
    method HandleSelectAll(filtered: seq<User>)
      modifies this
      ensures |old(selectedUsers)| == |filtered| ==> selectedUsers == []
      ensures |old(selectedUsers)| != |filtered| ==> selectedUsers == IdsOf(filtered)
      ensures old(SelectAllChecked(filtered)) ==> !SelectAllChecked(filtered)
      ensures |old(selectedUsers)| != |filtered| ==> (SelectAllChecked(filtered) <==> filtered != [])
      ensures selectedUser == old(selectedUser) && bulkAction == old(bulkAction)
      ensures showPromoteModal == old(showPromoteModal) && showAssignModal == old(showAssignModal)
    {
      if |selectedUsers| == |filtered| {
        selectedUsers := [];
      } else {
        selectedUsers := IdsOf(filtered);
      }
    }

    /** `handleBulkAction`: nothing without a selection or a known action;
      promote and assign open their modal; remove drops every selected id
      from the bookmarks and clears the selection. */
    method HandleBulkAction(store: Store)
      modifies this, store
      ensures old(selectedUsers) == [] || !IsBulkAction(old(bulkAction)) ==>
        selectedUsers == old(selectedUsers) && store.State() == old(store.State())
        && showPromoteModal == old(showPromoteModal) && showAssignModal == old(showAssignModal)
      ensures old(selectedUsers) != [] && old(bulkAction) == "promote" ==>
        showPromoteModal && selectedUsers == old(selectedUsers) && store.State() == old(store.State())
        && showAssignModal == old(showAssignModal)
      ensures old(selectedUsers) != [] && old(bulkAction) == "assign" ==>
        showAssignModal && selectedUsers == old(selectedUsers) && store.State() == old(store.State())
        && showPromoteModal == old(showPromoteModal)
      ensures old(selectedUsers) != [] && old(bulkAction) == "remove" ==>
        selectedUsers == []
        && store.State() == old(store.State()).(bookmarks := Filter(old(store.bookmarks), (x: int) => x !in old(selectedUsers)))
        && showPromoteModal == old(showPromoteModal) && showAssignModal == old(showAssignModal)
      ensures selectedUser == old(selectedUser) && bulkAction == old(bulkAction)
    {
      if |selectedUsers| == 0 {
        return;
      }
      if bulkAction == "promote" {
        showPromoteModal := true;
      } else if bulkAction == "assign" {
        showAssignModal := true;
      } else if bulkAction == "remove" {
        RemoveEach(store, selectedUsers);
        selectedUsers := [];
      }
    }

    /** Cancelling, confirming or closing the promotion modal. */
    method ClosePromoteModal()
      modifies this
      ensures !showPromoteModal && selectedUser == None && selectedUsers == []
      ensures showAssignModal == old(showAssignModal) && bulkAction == old(bulkAction)
    {
      showPromoteModal := false;
      selectedUser := None;
      selectedUsers := [];
    }

    /** Cancelling, confirming or closing the assignment modal. */
    method CloseAssignModal()
      modifies this
      ensures !showAssignModal && selectedUser == None && selectedUsers == []
      ensures showPromoteModal == old(showPromoteModal) && bulkAction == old(bulkAction)
    {
      showAssignModal := false;
      selectedUser := None;
      selectedUsers := [];
    }
  }

  /** After a bulk removal none of the selected employees is bookmarked any
      more, and every other bookmark stays, in order. */
  lemma BulkRemoveEffect(bookmarks: seq<int>, selected: seq<int>)
    ensures forall id | id in selected :: id !in Filter(bookmarks, (x: int) => x !in selected)
    ensures forall id | id !in selected :: multiset(Filter(bookmarks, (x: int) => x !in selected))[id] == multiset(bookmarks)[id]
    ensures IsSubseq(Filter(bookmarks, (x: int) => x !in selected), bookmarks)
  {
    forall id | id !in selected
      ensures multiset(Filter(bookmarks, (x: int) => x !in selected))[id] == multiset(bookmarks)[id]
    {
      FilterMultiset(bookmarks, (x: int) => x !in selected, id);
    }
    FilterIsSubseq(bookmarks, (x: int) => x !in selected);
  }
}
