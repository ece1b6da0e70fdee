/**
  The issue list of src/View/IssueBrowser.cpp: the data-view model that
  shows the issue manager's issues (all of them, or only those not ignored),
  the notifications it sends to the tree control, the quick fixes offered
  for a selection, and showing or hiding the selected issues.

  The issue manager's linked list of issues is a sequence; a tree item is
  either the invisible root (`wxDataViewItem(NULL)`) or an issue; the
  toolkit notifications are an appended log.
*/
module IssueBrowser {

  /** A quick fix; two quick fixes are the same when they compare equal. */
  datatype QuickFix = QuickFix(id: nat)

  class Issue {
    /** The line the issue refers to; 0 when it has none. Saving the document renumbers it. */
    var filePosition: nat
    const description: string
    const quickFixes: seq<QuickFix>
    var ignore: bool

    constructor (filePosition: nat, description: string, quickFixes: seq<QuickFix>)
      ensures this.filePosition == filePosition && this.description == description
      ensures this.quickFixes == quickFixes && !ignore
    {
      this.filePosition := filePosition;
      this.description := description;
      this.quickFixes := quickFixes;
      ignore := false;
    }
  }

  class IssueManager {
    var issues: seq<Issue>

    constructor ()
      ensures issues == []
    {
      issues := [];
    }
  }

  /** A tree item: the root, or the item of an issue. */
  datatype Item = Root | IssueItem(issue: Issue)

  /** The notifications the model sends to its tree control. */
  datatype Notification =
    | Cleared
    | ItemAdded(parent: Item, item: Item)
    | ItemDeleted(parent: Item, item: Item)
    | ValueChanged(item: Item, col: nat)

  /** `GetColumnCount`: the line column and the description column. */
  const ColumnCount: nat := 2

  /** Whether the model lists `issue`. */
  predicate Shown(issue: Issue, showHidden: bool)
    reads issue
  {
    showHidden || !issue.ignore
  }

  /** The issues the model lists, in list order. */
  function VisibleIssues(issues: seq<Issue>, showHidden: bool): seq<Issue>
    reads set i | i in issues
  {
    if issues == [] then []
    else
      var init := VisibleIssues(issues[..|issues| - 1], showHidden);
      var last := issues[|issues| - 1];
      if Shown(last, showHidden) then init + [last] else init
  }

  /** The tree items of `issues`. */
  function Items(issues: seq<Issue>): (r: seq<Item>)
    ensures |r| == |issues| && forall k :: 0 <= k < |issues| ==> r[k] == IssueItem(issues[k])
  {
    seq(|issues|, k requires 0 <= k < |issues| => IssueItem(issues[k]))
  }

  /** The `ItemAdded` notifications for `issues`, under the root. */
  function AddedNotifications(issues: seq<Issue>): (r: seq<Notification>)
    ensures |r| == |issues| && forall k :: 0 <= k < |issues| ==> r[k] == ItemAdded(Root, IssueItem(issues[k]))
  {
    seq(|issues|, k requires 0 <= k < |issues| => ItemAdded(Root, IssueItem(issues[k])))
  }

  /** The `ValueChanged` notifications of column 0 for `issues`. */
  function LineChangedNotifications(issues: seq<Issue>): (r: seq<Notification>)
    ensures |r| == |issues| && forall k :: 0 <= k < |issues| ==> r[k] == ValueChanged(IssueItem(issues[k]), 0)
  {
    seq(|issues|, k requires 0 <= k < |issues| => ValueChanged(IssueItem(issues[k]), 0))
  }

  // ---------------------------------------------------------------------
  // Decimal text of a line number (`wxString() << n`)
  // ---------------------------------------------------------------------

  function Digit(d: nat): (c: char)
    requires d < 10
    ensures '0' <= c <= '9'
  {
    ('0' as int + d) as char
  }

  function DigitValue(c: char): nat
  {
    if '0' <= c <= '9' then (c as int - '0' as int) else 0
  }

  /** The value of a string of decimal digits. */
  function DecimalValue(s: string): nat
  {
    if s == [] then 0 else DecimalValue(s[..|s| - 1]) * 10 + DigitValue(s[|s| - 1])
  }

  /** The decimal text of `n`: digits only, without a leading zero. */
  function DecimalText(n: nat): (r: string)
    ensures |r| >= 1
    ensures forall i :: 0 <= i < |r| ==> '0' <= r[i] <= '9'
    ensures n > 0 ==> r[0] != '0'
  {
    if n < 10 then [Digit(n)] else DecimalText(n / 10) + [Digit(n % 10)]
  }

  /** Reading the decimal text back gives the number. */
  lemma {:induction false} DecimalRoundTrip(n: nat)
    ensures DecimalValue(DecimalText(n)) == n
  {
    if n < 10 {
      assert DecimalText(n)[..0] == [];
    } else {
      DecimalRoundTrip(n / 10);
      var r := DecimalText(n);
      assert r[..|r| - 1] == DecimalText(n / 10);
      assert DigitValue(r[|r| - 1]) == n % 10;
    }
  }

  // ---------------------------------------------------------------------
  // The data-view model
  // ---------------------------------------------------------------------

  class IssueBrowserDataModel {
    const issueManager: IssueManager
    var showHidden: bool
    var notifications: seq<Notification>

    constructor (issueManager: IssueManager)
      ensures this.issueManager == issueManager && !showHidden && notifications == []
    {
      this.issueManager := issueManager;
      showHidden := false;
      notifications := [];
    }

    /** `IsContainer`: only the root has children. */
    function IsContainer(item: Item): (r: bool)
      ensures r <==> item == Root
    {
      item.Root?
    }

    /** `GetParent`: every item hangs directly below the root. */
    function GetParent(item: Item): (r: Item)
      ensures r == Root
    {
      Root
    }

    /** `GetColumnType`: both columns hold strings. */
    function GetColumnType(col: nat): (r: string)
      requires col < ColumnCount
      ensures r == "string"
    {
      "string"
    }

    /**
      `GetChildren`: the root's children are the listed issues, in list
      order; any other item has none. The count returned is the number of
      children.
    */
    method GetChildren(item: Item) returns (children: seq<Item>, count: nat)
      ensures count == |children|
      ensures item == Root ==> children == Items(VisibleIssues(issueManager.issues, showHidden))
      ensures item != Root ==> children == []
    {
      children := [];
      if item == Root {
        var issues := issueManager.issues;
        var i := 0;
        while i < |issues|
          invariant i <= |issues|
          invariant children == Items(VisibleIssues(issues[..i], showHidden))
        {
          assert issues[..i + 1][..i] == issues[..i];
          var issue := issues[i];
          if showHidden || !issue.ignore {
            children := children + [IssueItem(issue)];
          }
          i := i + 1;
        }
        assert issues[..|issues|] == issues;
      }
      count := |children|;
    }

    /**
      `GetValue`: column 0 is the line number as decimal digits, or empty
      when the issue has no line; column 1 is the description.
    */
    function GetValue(item: Item, col: nat): (r: string)
      requires col < ColumnCount && item.IssueItem?
      reads item.issue
      ensures col == 0 && item.issue.filePosition == 0 ==> r == []
      ensures col == 0 && item.issue.filePosition > 0 ==>
                && r != [] && r[0] != '0'
                && (forall i :: 0 <= i < |r| ==> '0' <= r[i] <= '9')
                && DecimalValue(r) == item.issue.filePosition
      ensures col == 1 ==> r == item.issue.description
    {
      DecimalRoundTrip(item.issue.filePosition);
      if col == 0 then
        if item.issue.filePosition == 0 then [] else DecimalText(item.issue.filePosition)
      else item.issue.description
    }

    /** `SetValue`: the issue list cannot be edited; the answer is always no. */
    method SetValue(value: string, item: Item, col: nat) returns (r: bool)
      requires col < ColumnCount
      ensures !r
    {
      r := false;
    }

    /**
      `setShowHidden`: nothing happens when the value does not change;
      otherwise the tree is cleared and every issue now listed is added back.
    */
    method SetShowHidden(show: bool)
      modifies this`showHidden, this`notifications
      ensures showHidden == show
      ensures notifications == old(notifications) +
        (if show == old(showHidden) then []
         else [Cleared] + AddedNotifications(VisibleIssues(issueManager.issues, show)))
    {
      if show == showHidden {
        return;
      }
      showHidden := show;
      notifications := notifications + [Cleared];
      AddIssues(issueManager.issues);
    }

    /** The loop of `setShowHidden`: `addIssue` for each issue of the list, in order. */
    method AddIssues(issues: seq<Issue>)
      modifies this`notifications
      ensures notifications == old(notifications) + AddedNotifications(VisibleIssues(issues, showHidden))
    {
      for i := 0 to |issues|
        invariant notifications == old(notifications) + AddedNotifications(VisibleIssues(issues[..i], showHidden))
      {
        ghost var before := notifications;
        AddIssue(issues[i]);
        AddedStep(issues, i, showHidden);
        assert notifications == before + AddedNotifications(if Shown(issues[i], showHidden) then [issues[i]] else []);
      }
      assert issues[..|issues|] == issues;
    }

    /** `refreshLineNumbers`: column 0 of every listed issue is reported changed. */
    method RefreshLineNumbers()
      modifies this`notifications
      ensures notifications == old(notifications) + LineChangedNotifications(VisibleIssues(issueManager.issues, showHidden))
    {
      var issues := issueManager.issues;
      var i := 0;
      while i < |issues|
        invariant i <= |issues|
        invariant notifications == old(notifications) + LineChangedNotifications(VisibleIssues(issues[..i], showHidden))
      {
        assert issues[..i + 1][..i] == issues[..i];
        var issue := issues[i];
        if showHidden || !issue.ignore {
          notifications := notifications + [ValueChanged(IssueItem(issue), 0)];
        }
        i := i + 1;
      }
      assert issues[..|issues|] == issues;
    }

    /** `issueWasAdded`. */
    method IssueWasAdded(issue: Issue)
      modifies this`notifications
      ensures notifications == old(notifications) + (if Shown(issue, showHidden) then [ItemAdded(Root, IssueItem(issue))] else [])
    {
      AddIssue(issue);
    }

    /** `issueWillBeRemoved`. */
    method IssueWillBeRemoved(issue: Issue)
      modifies this`notifications
      ensures notifications == old(notifications) + [ItemDeleted(Root, IssueItem(issue))]
    {
      RemoveIssue(issue);
    }

    /**
      `issueIgnoreChanged`: an issue that is now ignored is removed from the
      tree; otherwise it is added, if it is listed.
    */
    method IssueIgnoreChanged(issue: Issue)
      modifies this`notifications
      ensures notifications == old(notifications) +
        (if issue.ignore then [ItemDeleted(Root, IssueItem(issue))]
         else [ItemAdded(Root, IssueItem(issue))])
    {
      if issue.ignore {
        RemoveIssue(issue);
      } else {
        AddIssue(issue);
      }
    }

    /** `issuesCleared`. */
    method IssuesCleared()
      modifies this`notifications
      ensures notifications == old(notifications) + [Cleared]
    {
      notifications := notifications + [Cleared];
    }

    /** `addIssue`: only a listed issue is announced. */
    method AddIssue(issue: Issue)
      modifies this`notifications
      ensures notifications == old(notifications) + (if Shown(issue, showHidden) then [ItemAdded(Root, IssueItem(issue))] else [])
    {
      if showHidden || !issue.ignore {
        notifications := notifications + [ItemAdded(Root, IssueItem(issue))];
      }
    }

    /** `removeIssue`. */
    method RemoveIssue(issue: Issue)
      modifies this`notifications
      ensures notifications == old(notifications) + [ItemDeleted(Root, IssueItem(issue))]
    {
      notifications := notifications + [ItemDeleted(Root, IssueItem(issue))];
    }
  }

  // ---------------------------------------------------------------------
  // Properties of the listing
  // ---------------------------------------------------------------------

  /**
    The listed issues are exactly the shown ones: each listed issue is
    shown and comes from the list, each shown issue of the list is listed.
  */
  lemma {:induction false} VisibleIssuesMembers(issues: seq<Issue>, showHidden: bool)
    ensures var r := VisibleIssues(issues, showHidden);
      && |r| <= |issues|
      && (forall x :: x in r ==> x in issues && Shown(x, showHidden))
      && (forall x :: x in issues && Shown(x, showHidden) ==> x in r)
  {
    if issues != [] {
      var init := issues[..|issues| - 1];
      VisibleIssuesMembers(init, showHidden);
      assert issues == init + [issues[|issues| - 1]];
    }
  }

  /** One more issue: it is listed after the others exactly when it is shown. */
  lemma VisibleStep(issues: seq<Issue>, i: nat, showHidden: bool)
    requires i < |issues|
    ensures VisibleIssues(issues[..i + 1], showHidden) ==
      VisibleIssues(issues[..i], showHidden) + (if Shown(issues[i], showHidden) then [issues[i]] else [])
  {
    assert issues[..i + 1][..i] == issues[..i];
  }

  /** The `ItemAdded` notifications of one more issue follow those of the others. */
  lemma AddedStep(issues: seq<Issue>, i: nat, showHidden: bool)
    requires i < |issues|
    ensures AddedNotifications(VisibleIssues(issues[..i + 1], showHidden)) ==
      AddedNotifications(VisibleIssues(issues[..i], showHidden)) +
      AddedNotifications(if Shown(issues[i], showHidden) then [issues[i]] else [])
  {
    VisibleStep(issues, i, showHidden);
    var a := VisibleIssues(issues[..i], showHidden);
    var b: seq<Issue> := if Shown(issues[i], showHidden) then [issues[i]] else [];
    assert AddedNotifications(a + b) == AddedNotifications(a) + AddedNotifications(b);
  }

  /** When hidden issues are shown, every issue is listed. */
  lemma {:induction false} ShowHiddenListsAll(issues: seq<Issue>)
    ensures VisibleIssues(issues, true) == issues
  {
    if issues != [] {
      ShowHiddenListsAll(issues[..|issues| - 1]);
      assert issues == issues[..|issues| - 1] + [issues[|issues| - 1]];
    }
  }

  // ---------------------------------------------------------------------
  // Quick fixes of a selection
  // ---------------------------------------------------------------------

  /** The elements of `s` that `t` contains, in the order of `s`. */
  function Retain(s: seq<QuickFix>, t: seq<QuickFix>): seq<QuickFix>
  {
    if s == [] then []
    else
      var init := Retain(s[..|s| - 1], t);
      if s[|s| - 1] in t then init + [s[|s| - 1]] else init
  }

  /** The quick-fix lists of the selected issues. */
  function FixLists(selections: seq<Issue>): (r: seq<seq<QuickFix>>)
    ensures |r| == |selections| && forall k :: 0 <= k < |selections| ==> r[k] == selections[k].quickFixes
  {
    seq(|selections|, k requires 0 <= k < |selections| => selections[k].quickFixes)
  }

  /** The quick fixes of the first list that every other list also offers. */
  function CommonQuickFixes(lists: seq<seq<QuickFix>>): seq<QuickFix>
    requires |lists| > 0
  {
    if |lists| == 1 then lists[0]
    else Retain(CommonQuickFixes(lists[..|lists| - 1]), lists[|lists| - 1])
  }

  /** The `while (it != result.end())` loop: erase in place every quick fix `fixes` lacks. */
  method RetainContained(result: seq<QuickFix>, fixes: seq<QuickFix>) returns (r: seq<QuickFix>)
    ensures r == Retain(result, fixes)
  {
    r := result;
    var j := 0;
    ghost var k := 0;
    while j < |r|
      invariant j <= |r| && k <= |result|
      invariant r[..j] == Retain(result[..k], fixes)
      invariant r[j..] == result[k..]
      decreases |r| - j
    {
      assert result[..k + 1][..k] == result[..k];
      assert result[k] == r[j];
      if r[j] !in fixes {
        r := r[..j] + r[j + 1..];
      } else {
        j := j + 1;
      }
      k := k + 1;
    }
    assert result[..k] == result;
  }

  /**
    `collectQuickFixes` as written: line 210 takes the quick fixes of
    `selections[0]` in every round, so nothing is ever erased and the result
    is the first selected issue's list.
  */
  method CollectQuickFixes(selections: seq<Issue>) returns (result: seq<QuickFix>)
    requires |selections| > 0
    ensures result == selections[0].quickFixes
  {
    result := selections[0].quickFixes;
    for i := 1 to |selections|
      invariant result == selections[0].quickFixes
    {
      var quickFixes := selections[0].quickFixes;
      RetainAll(result, quickFixes);
      result := RetainContained(result, quickFixes);
    }
  }

  /**
    `collectQuickFixes` as evidently intended, reading `selections[i]` in
    round `i`: the quick fixes of the first issue that every selected issue
    offers.
  */
  method CollectCommonQuickFixes(selections: seq<Issue>) returns (result: seq<QuickFix>)
    requires |selections| > 0
    ensures result == CommonQuickFixes(FixLists(selections))
  {
    ghost var lists := FixLists(selections);
    result := selections[0].quickFixes;
    assert lists[..1] == [lists[0]];
    for i := 1 to |selections|
      invariant result == CommonQuickFixes(lists[..i])
    {
      assert lists[..i + 1][..i] == lists[..i];
      var quickFixes := selections[i].quickFixes;
      result := RetainContained(result, quickFixes);
    }
    assert lists[..|selections|] == lists;
  }

  /** Retaining what a list contains entirely keeps the whole list. */
  lemma {:induction false} RetainAll(s: seq<QuickFix>, t: seq<QuickFix>)
    requires forall x :: x in s ==> x in t
    ensures Retain(s, t) == s
  {
    if s != [] {
      RetainAll(s[..|s| - 1], t);
      assert s == s[..|s| - 1] + [s[|s| - 1]];
    }
  }

  /** Retain keeps exactly the elements of `s` that `t` contains. */
  lemma {:induction false} RetainMembers(s: seq<QuickFix>, t: seq<QuickFix>)
    ensures |Retain(s, t)| <= |s|
    ensures forall x :: x in Retain(s, t) <==> x in s && x in t
  {
    if s != [] {
      RetainMembers(s[..|s| - 1], t);
      assert s == s[..|s| - 1] + [s[|s| - 1]];
    }
  }

  /** A quick fix is offered for the selection exactly when every selected issue offers it. */
  lemma {:induction false} CommonQuickFixesMembers(lists: seq<seq<QuickFix>>)
    requires |lists| > 0
    ensures |CommonQuickFixes(lists)| <= |lists[0]|
    ensures forall x :: x in CommonQuickFixes(lists) <==> forall k :: 0 <= k < |lists| ==> x in lists[k]
  {
    if |lists| > 1 {
      var init := lists[..|lists| - 1];
      CommonQuickFixesMembers(init);
      RetainMembers(CommonQuickFixes(init), lists[|lists| - 1]);
      forall x ensures x in CommonQuickFixes(lists) <==> forall k :: 0 <= k < |lists| ==> x in lists[k] {
        if forall k :: 0 <= k < |lists| ==> x in lists[k] {
          assert forall k :: 0 <= k < |init| ==> x in init[k] by {
            forall k | 0 <= k < |init| ensures x in init[k] { assert init[k] == lists[k]; }
          }
        }
        if x in CommonQuickFixes(lists) {
          forall k | 0 <= k < |lists| ensures x in lists[k] {
            if k < |init| { assert init[k] == lists[k]; }
          }
        }
      }
    }
  }

  /** Keeping the quick fixes that an empty list offers keeps none. */
  lemma {:induction false} RetainNothing(s: seq<QuickFix>)
    ensures Retain(s, []) == []
  {
    if s != [] {
      RetainNothing(s[..|s| - 1]);
    }
  }

  /**
    The discrepancy of line 210: when the first selected issue offers quick
    fixes and a second one offers none, the code as written still offers the
    first issue's fixes, although no quick fix is common to the selection.
  */
  method FirstSelectionOnly(first: Issue, second: Issue) returns (asWritten: seq<QuickFix>, intended: seq<QuickFix>)
    requires first.quickFixes != [] && second.quickFixes == []
    ensures asWritten == first.quickFixes && asWritten != []
    ensures intended == []
  {
    var selections := [first, second];
    asWritten := CollectQuickFixes(selections);
    intended := CollectCommonQuickFixes(selections);
    var lists := FixLists(selections);
    assert lists == [first.quickFixes, []];
    assert lists[..1] == [first.quickFixes];
    RetainNothing(first.quickFixes);
  }

  // ---------------------------------------------------------------------
  // Showing and hiding the selected issues
  // ---------------------------------------------------------------------

  /**
    `IssueBrowser::setIssueVisibility(show)`: every selected issue becomes
    ignored when hiding and not ignored when showing; nothing else changes.
  */
  method SetIssueVisibility(selections: seq<Issue>, show: bool)
    modifies set i | i in selections
    ensures forall x :: x in selections ==> x.ignore == !show && x.filePosition == old(x.filePosition)
  {
    for i := 0 to |selections|
      invariant forall k :: 0 <= k < i ==> selections[k].ignore == !show
      invariant forall x :: x in selections ==> x.filePosition == old(x.filePosition)
    {
      selections[i].ignore := !show;
    }
  }
}
