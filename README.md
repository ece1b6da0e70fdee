# TrenchBroom editor core: a Dafny model

This project models six parts of the TrenchBroom level editor and proves
properties about them:

- **Vertex handle bookkeeping** (`VertexHandleManager`). The vertex tool keeps a handle at every brush
  vertex, at every edge centre and at every face centre. Each of the three
  handle classes has a selected and an unselected position-to-owners map, a
  selected counter and a total counter. The model covers adding and removing brushes,
  selecting and deselecting handles one at a time, in groups or all at once,
  looking up the owners at a position, and the candidate rules of `pick`.
  The invariant kept by every operation pairs each handle class's maps with
  a ghost multiset of registered (position, owner) pairs. It says that no position
  is both selected and unselected, that the selected counter counts the selected handles
  and that the total counter counts all of them (modules `HandleMaps` and `VertexHandleManager`).
- **String splitting and joining** (`StringUtils::split` and `join`). `split` drops the leading and trailing
  delimiters and then cuts at every delimiter. `join` puts the delimiter between
  consecutive elements. Splitting on one character and joining with it
  gives back the stripped string (module `StringUtils`).
- **Quake texture paths** (`QuakeGame::doExtractTexturePaths`). The worldspawn entity's `wad` property is split on
  `;`, each piece is trimmed, and the non-empty pieces are returned in
  order (module `QuakeGame`).
- **List box selection** (`ControlListBox`). The selection index ranges over `[0, n]`, where `n`
  means "nothing selected". The model covers how resizing, clicking and out-of-range
  requests move the index, and the selection events the box queues (module `ControlListBox`).
- **Issue browser** (`IssueBrowser`). The data-view model lists the issue manager's issues, or
  only those not ignored, and sends notifications to its tree control. The model
  also covers the quick fixes offered for a selection and showing or hiding the selected
  issues (module `IssueBrowser`).
- **Face attribute editor** (`FaceAttribsEditor`). The model covers whether the game has surface
  attributes, the flag labels and tooltips read from the game configuration,
  and the aggregation in `updateControls` that marks each attribute as
  "multi" when the selected faces do not agree on it (module `FaceAttribsEditor`).

Mutable objects are classes: the three handle groups, the manager, the
list box, the issues and the issue browser model. Their methods state
their whole new state. The rest is datatypes and functions. Loops in the
source are `while`/`for` loops with invariants, proved against
specification functions (`Tokens`, `Joined`, `TexturePaths`,
`VisibleIssues`, `CommonQuickFixes`, `Mixed`, ...). Lemmas prove the
properties of those functions.

## Model

| member | source | states |
|---|---|---|
| HandleMaps.Lookup | src/View/VertexHandleManager.cpp:112-140 | a selected position yields its selected owners; because no position is in both maps, the result is the selected list followed by the unselected list at that position |
| HandleMaps.LookupCounts | src/View/VertexHandleManager.cpp:112-140 | under the invariant, each owner occurs in the lookup result exactly as often as its (position, owner) pair is registered |
| HandleMaps.RemoveHandle | src/View/VertexHandleManager.cpp:202-206 | reports whether the owner is listed at the position; if so, exactly one listing is removed there; no other position changes and no position is added |
| HandleMaps.MoveHandle | src/View/VertexHandleManager.cpp:266-281 | the owners at the position leave the source map completely and are appended to the target's owners there; the count returned is how many moved; the key sets change only at that position |
| HandleMaps.AddHandles | src/View/VertexHandleManager.cpp:142-189 | keeps the invariant; each owner joins the selected list where its position is selected and the unselected list otherwise; the registered pairs grow by exactly the added handles, and the selected ones by exactly the handles at selected positions; the selected counter grows by the number added at selected positions, the total by the number of handles |
| HandleMaps.AtPositions | src/View/VertexHandleManager.cpp:147-153 | the handles of a brush that land at selected positions are no more than the brush's handles |
| HandleMaps.AtPositionsMembers | src/View/VertexHandleManager.cpp:147-153 | the handles at selected positions are exactly the input handles whose position is a key |
| HandleMaps.AtPositionsAppend | src/View/VertexHandleManager.cpp:191-195 | the handles at selected positions of brushes added one after the other are those of each brush, in order |
| HandleMaps.OwnersAtCounts | src/View/VertexHandleManager.cpp:147-155 | the owners appended at a position list each owner as often as its handle at that position occurs among the added handles |
| HandleMaps.AddHandle | src/View/VertexHandleManager.cpp:147-155 | one step of the `addBrush` loop: the pair is registered in the selected map exactly when its position is selected, the selected registrations and the selected counter growing by it exactly then |
| HandleMaps.RemoveHandles | src/View/VertexHandleManager.cpp:197-242 | keeps the invariant; the removed handles leave the registered pairs, and the selected ones leave the selected pairs; the total drops by the number of handles without underflow; no position is added |
| HandleMaps.RemoveOwnedHandle | src/View/VertexHandleManager.cpp:201-207 | one step of the `removeBrush` loop: a handle registered as selected leaves the selected pairs and lowers the selected counter by one; otherwise it leaves the unselected pairs |
| HandleMaps.SelectHandle | src/View/VertexHandleManager.cpp:266-272 | keeps the invariant; the unselected handles at the position move to the selected map; the selected counter grows by their number; every other position is unchanged and no handle is lost |
| HandleMaps.DeselectHandle | src/View/VertexHandleManager.cpp:274-281 | keeps the invariant; the selected handles at the position move to the unselected map; the selected counter, which is at least their number, drops by it; nothing else changes |
| HandleMaps.SelectHandlesIn | src/View/VertexHandleManager.cpp:283-287 | keeps the invariant; every position of the set has moved, every other position is unchanged, and the selected counter grows by the number moved |
| HandleMaps.SelectHandlesAt | src/View/VertexHandleManager.cpp:319-325 | the same for a list of edge (or face) centres: listed positions moved, others unchanged |
| HandleMaps.DeselectAll | src/View/VertexHandleManager.cpp:289-300 | keeps the invariant; the selected map is empty and its counter zero; each position's unselected owners gain the selected owners after them, so every registered pair is now unselected |
| HandleMaps.CountersAreListed | src/View/VertexHandleManager.cpp:142-264 | under the invariant the selected counter equals the number of owners listed in the selected map, the total equals that plus the number listed in the unselected map, so the selected counter never exceeds the total |
| HandleMaps.ListedCounts | src/View/VertexHandleManager.cpp:142-189 | the registered pairs of a map are as many as the owners it lists, summed over its positions |
| HandleMaps.RegistersMember | src/View/VertexHandleManager.cpp:202-206 | a handle is registered exactly when its owner is listed at its position |
| HandleMaps.RegistersRemoveOne | src/View/VertexHandleManager.cpp:202-206 | removing one listing of an owner, and nothing else, unregisters exactly one pair |
| HandleMaps.MoveRegisters | src/View/VertexHandleManager.cpp:266-281 | moving the owners at a position carries their registered pairs from one map to the other and keeps the sizes |
| HandleMaps.SelectConsistent | src/View/VertexHandleManager.cpp:266-272 | after a move from unselected to selected, the invariant holds with the counter raised by the number moved |
| HandleMaps.DeselectConsistent | src/View/VertexHandleManager.cpp:274-281 | after a move from selected to unselected, the counter is at least the number moved and the invariant holds with the counter lowered by it |
| HandleMaps.AppendAll | src/View/VertexHandleManager.cpp:291-296 | each position's unselected owners gain the selected owners, the key set is the union of both, and the registered pairs are the union |
| VertexHandleManager.HandleGroup.constructor | src/View/VertexHandleManager.cpp:39-50 | both maps are empty, both counters zero, the invariant holds |
| VertexHandleManager.HandleGroup.IsSelected | src/View/VertexHandleManager.cpp:76-86 | under the invariant, a selected position has no unselected handle and its owners are the selected ones; at a position that is not selected, the owners are the unselected ones |
| VertexHandleManager.HandleGroup.Owners | src/View/VertexHandleManager.cpp:112-140 | under the invariant, the owners are the selected and the unselected ones at the position, each owner counted as often as it is registered there |
| VertexHandleManager.HandleGroup.Add | src/View/VertexHandleManager.cpp:147-157 | one handle class of `addBrush`, with the contract of `HandleMaps.AddHandles` on the group's fields; the selected positions stay the same |
| VertexHandleManager.HandleGroup.Remove | src/View/VertexHandleManager.cpp:199-210 | one handle class of `removeBrush`, with the contract of `HandleMaps.RemoveHandles` on the group's fields |
| VertexHandleManager.HandleGroup.Select | src/View/VertexHandleManager.cpp:266-272 | the handles at the position are selected; the count is how many moved; the total and the registered pairs are unchanged |
| VertexHandleManager.HandleGroup.Deselect | src/View/VertexHandleManager.cpp:274-281 | the handles at the position are deselected; the count is how many moved; the total and the registered pairs are unchanged |
| VertexHandleManager.HandleGroup.SelectIn | src/View/VertexHandleManager.cpp:283-287 | the positions of the set are moved, the others unchanged, the counter raised by the number moved |
| VertexHandleManager.HandleGroup.SelectAt | src/View/VertexHandleManager.cpp:319-325 | the listed positions are moved, the others unchanged, the counter raised by the number moved |
| VertexHandleManager.HandleGroup.DeselectAll | src/View/VertexHandleManager.cpp:289-300 | nothing stays selected, the counter is zero, the total is kept, every owner is appended to the unselected list at its position |
| VertexHandleManager.HandleGroup.Clear | src/View/VertexHandleManager.cpp:250-264 | both maps are empty, both counters zero, no pair is registered |
| VertexHandleManager.VertexHandleManager.constructor | src/View/VertexHandleManager.cpp:39-50 | no handle of any class, all totals zero, the invariant holds |
| VertexHandleManager.VertexHandleManager.AddBrush | src/View/VertexHandleManager.cpp:142-189 | every vertex, edge and face handle of the brush is registered, at a selected position when there is one; the selected positions stay the same; the selected registrations and each selected counter grow by the handles added at selected positions; each total grows by the brush's number of vertices, edges or faces; the render state is invalidated |
| VertexHandleManager.VertexHandleManager.AddBrushes | src/View/VertexHandleManager.cpp:191-195 | the handles of all brushes, brush by brush, are registered and counted in the totals; the selected positions stay the same, and the selected registrations and counters grow by exactly the brushes' handles at those positions; the render state is invalidated when there is a brush |
| VertexHandleManager.VertexHandleManager.RemoveBrush | src/View/VertexHandleManager.cpp:197-242 | every handle of the brush is unregistered, the selected ones from the selected pairs; each total drops by the brush's number of vertices, edges or faces; the render state is invalidated |
| VertexHandleManager.VertexHandleManager.RemoveBrushes | src/View/VertexHandleManager.cpp:244-248 | the handles of all brushes are unregistered, the selected ones among them from the selected registrations; each total drops by the brushes' number of handles; the render state is invalidated when there is a brush |
| VertexHandleManager.VertexHandleManager.Clear | src/View/VertexHandleManager.cpp:250-264 | all six maps are empty, all six counters zero, the render state is invalidated |
| VertexHandleManager.VertexHandleManager.SelectVertexHandle | src/View/VertexHandleManager.cpp:266-272 | the unselected vertex handles at the position become selected and nothing else moves; the counter grows by their number; the render state is invalidated exactly when one moved |
| VertexHandleManager.VertexHandleManager.DeselectVertexHandle | src/View/VertexHandleManager.cpp:274-281 | the selected vertex handles at the position become unselected and nothing else moves; the counter drops by their number; the render state is invalidated exactly when one moved |
| VertexHandleManager.VertexHandleManager.SelectVertexHandles | src/View/VertexHandleManager.cpp:283-287 | every position of the set is selected, the others are untouched; the render state is invalidated when the counter changed and kept otherwise |
| VertexHandleManager.VertexHandleManager.DeselectAllVertexHandles | src/View/VertexHandleManager.cpp:289-300 | no vertex handle stays selected, the counter is zero, each position's unselected brushes gain its selected brushes, no pair is lost |
| VertexHandleManager.VertexHandleManager.SelectEdgeHandle | src/View/VertexHandleManager.cpp:302-308 | as for vertex handles, on the edge handles |
| VertexHandleManager.VertexHandleManager.DeselectEdgeHandle | src/View/VertexHandleManager.cpp:310-317 | as for vertex handles, on the edge handles |
| VertexHandleManager.VertexHandleManager.SelectEdgeHandles | src/View/VertexHandleManager.cpp:319-325 | the handle at the centre of every listed edge is selected, all other positions are untouched |
| VertexHandleManager.VertexHandleManager.DeselectAllEdgeHandles | src/View/VertexHandleManager.cpp:327-338 | no edge handle stays selected and none is lost |
| VertexHandleManager.VertexHandleManager.SelectFaceHandle | src/View/VertexHandleManager.cpp:340-346 | as for vertex handles, on the face handles |
| VertexHandleManager.VertexHandleManager.DeselectFaceHandle | src/View/VertexHandleManager.cpp:348-355 | as for vertex handles, on the face handles |
| VertexHandleManager.VertexHandleManager.SelectFaceHandles | src/View/VertexHandleManager.cpp:357-363 | the handle at the centre of every listed face is selected, all other positions are untouched |
| VertexHandleManager.VertexHandleManager.DeselectAllFaceHandles | src/View/VertexHandleManager.cpp:365-376 | no face handle stays selected and none is lost |
| VertexHandleManager.VertexHandleManager.DeselectAllHandles | src/View/VertexHandleManager.cpp:378-382 | no handle of any class stays selected, every counter is zero, the totals are kept and every registered pair is now unselected |
| VertexHandleManager.VertexHandleManager.Pick | src/View/VertexHandleManager.cpp:384-436 | a hit is reported exactly for a matching candidate: selected handles of every class always; unselected vertex handles when no edge or face handle is selected or in split mode; unselected edge (face) handles only outside split mode and when no handle of the two other classes is selected |
| VertexHandleManager.CollectHits | src/View/VertexHandleManager.cpp:389-435 | one candidate loop of `pick`: the hits are exactly the positions that the ray test matches |
| VertexHandleManager.AllHandlesPrefix | src/View/VertexHandleManager.cpp:244-248 | the handles of the first brushes are among those of all of them, which makes each `removeBrush` call of `removeBrushes` legal |
| StringUtils.FindFirstOf | src/StringUtils.h:65 | the first index at or after the start that holds a delimiter, or none when no such index exists |
| StringUtils.FindFirstNotOf | src/StringUtils.h:54-56 | the first index at or after the start that does not hold a delimiter; none when every later character is a delimiter |
| StringUtils.FindLastNotOf | src/StringUtils.h:57-59 | the last index that does not hold a delimiter; none when every character is a delimiter |
| StringUtils.Stripped | src/StringUtils.h:54-59 | empty exactly when the string is all delimiters; otherwise it starts and ends with a non-delimiter |
| StringUtils.SplitTokens | src/StringUtils.h:49-71 | no token exactly when the string is empty or all delimiters |
| StringUtils.Split | src/StringUtils.h:49-72 | the result is the tokens of the stripped string between delimiters, none for an empty or all-delimiter string |
| StringUtils.SplitBetween | src/StringUtils.h:61-71 | the loop of `split` yields the tokens of the part between the first and the last non-delimiter |
| StringUtils.SplitStep | src/StringUtils.h:65-68 | one iteration: the token is the text up to the delimiter found, and the remaining tokens are those after it |
| StringUtils.SplitLastToken | src/StringUtils.h:69-70 | with no delimiter left before the last non-delimiter, the rest is one token |
| StringUtils.TokensWithoutDelimiter | src/StringUtils.h:62-71 | a string with no delimiter is one token |
| StringUtils.TokensAtDelimiter | src/StringUtils.h:65-68 | the first token is the text before the first delimiter, and splitting continues after it |
| StringUtils.TokensHaveNoDelimiter | src/StringUtils.h:62-71 | no token contains a delimiter |
| StringUtils.TokensCount | src/StringUtils.h:62-71 | `k` delimiters give `k + 1` tokens |
| StringUtils.TokensLast | src/StringUtils.h:62-71 | the last token is empty exactly when the string is empty or ends with a delimiter |
| StringUtils.AdjacentDelimitersGiveEmptyToken | src/StringUtils.h:65-68 | two adjacent delimiters give an empty token between them |
| StringUtils.SplitTokensShape | src/StringUtils.h:49-72 | no token of `split` contains a delimiter, and its first and last tokens are non-empty |
| StringUtils.SplitTokensCount | src/StringUtils.h:49-72 | `split` yields one token more than the delimiters between the first and the last non-delimiter |
| StringUtils.Join | src/StringUtils.h:74-86 | the result is the elements with the delimiter between consecutive ones: none for no element, the element itself for one |
| StringUtils.JoinedSnoc | src/StringUtils.h:83-84 | one element more appends the delimiter and the element |
| StringUtils.JoinedLength | src/StringUtils.h:81-85 | the length is the sum of the element lengths plus one delimiter between each two elements |
| StringUtils.JoinTokens | src/StringUtils.h:49-86 | joining the tokens of a string with its one-character delimiter gives back the string |
| StringUtils.SplitJoinRoundTrip | src/StringUtils.h:49-86 | joining what `split` returns with the same character gives the input with its leading and trailing delimiters removed |
| QuakeGame.ExtractTexturePaths | src/Model/QuakeGame.cpp:46-68 | no worldspawn or an empty `wad` value gives no path; otherwise the `;`-separated pieces are trimmed and the non-empty ones returned in order |
| QuakeGame.NonEmptyTrimmedElements | src/Model/QuakeGame.cpp:57-65 | every kept path is non-empty and is the trimmed form of some piece, and there are no more paths than pieces |
| QuakeGame.NonEmptyTrimmedKept | src/Model/QuakeGame.cpp:57-65 | every piece whose trimmed form is non-empty is among the paths |
| QuakeGame.NonEmptyTrimmedKeepsOrder | src/Model/QuakeGame.cpp:57-65 | two such pieces appear in the paths in their original order |
| QuakeGame.NoWadNoPaths | src/Model/QuakeGame.cpp:49-55 | a missing worldspawn or an empty `wad` property gives no paths |
| QuakeGame.TexturePathsShape | src/Model/QuakeGame.cpp:46-68 | every path is non-empty, is the trimmed form of a `;`-separated piece of the `wad` value, and there are no more paths than pieces |
| ControlListBox.Containers | common/src/View/ControlListBox.cpp:97-115 | `refresh` creates one container per item, in order |
| ControlListBox.SelectionValue | common/src/View/ControlListBox.cpp:45-49 | `wxNOT_FOUND` exactly when the index is the item count, otherwise the index |
| ControlListBox.ResizedIndex | common/src/View/ControlListBox.cpp:51-55 | the new index is within the new count; it is a real selection exactly when the old one was and is still below the new count, and then it is unchanged |
| ControlListBox.ClampedIndex | common/src/View/ControlListBox.cpp:61-66 | an index from 0 to the count is kept; one below 0 or beyond the count becomes the count |
| ControlListBox.ListBox.constructor | common/src/View/ControlListBox.cpp:33-43 | no items, nothing selected, no event queued; the empty text is shown when there is one |
| ControlListBox.ListBox.GetSelection | common/src/View/ControlListBox.cpp:45-49 | `wxNOT_FOUND` exactly when nothing is selected, otherwise the selection index |
| ControlListBox.ListBox.SetItemCount | common/src/View/ControlListBox.cpp:51-59 | the items are recreated for the new count; the index is resized as `ResizedIndex` says, so that no selection stays none and a selection survives, unchanged, exactly when it is below the new count; no selection event is queued |
| ControlListBox.ListBox.SetSelection | common/src/View/ControlListBox.cpp:61-66 | the index is clamped as `ClampedIndex` says, so that the selection reads back as the index inside `[0, count)` and as nothing selected outside it; an event carrying the new selection is queued exactly when the index changed |
| ControlListBox.ListBox.Refresh | common/src/View/ControlListBox.cpp:91-141 | one container per item, and the empty text is shown exactly when there is no item and the text is not empty |
| ControlListBox.ListBox.SetSelectionIndex | common/src/View/ControlListBox.cpp:185-202 | the index is set; an event carrying the new selection is queued exactly when it changed |
| ControlListBox.ListBox.OnClickChild | common/src/View/ControlListBox.cpp:159-166 | the clicked or focused item becomes selected; an event is queued exactly when it was not already selected |
| ControlListBox.ListBox.OnClickList | common/src/View/ControlListBox.cpp:175-177 | the selection is cleared; an event carrying `wxNOT_FOUND` is queued exactly when something was selected |
| ControlListBox.ListBox.OnDoubleClickChild | common/src/View/ControlListBox.cpp:168-173 | a double-click event carrying the current selection is queued |
| ControlListBox.ResizeKeepsNoSelection | common/src/View/ControlListBox.cpp:51-55 | resizing never selects anything when nothing was selected |
| ControlListBox.ResizeKeepsSelection | common/src/View/ControlListBox.cpp:51-55 | a selection survives a resize, unchanged, exactly when its index is below the new count |
| ControlListBox.OutOfRangeClears | common/src/View/ControlListBox.cpp:61-66 | requesting an index outside `[0, count)` reads back as nothing selected |
| ControlListBox.InRangeSelects | common/src/View/ControlListBox.cpp:61-66 | requesting an index inside `[0, count)` reads back as that index |
| IssueBrowser.IssueBrowserDataModel.IsContainer | src/View/IssueBrowser.cpp:61-65 | only the root has children |
| IssueBrowser.IssueBrowserDataModel.GetParent | src/View/IssueBrowser.cpp:80-82 | every item hangs below the root |
| IssueBrowser.IssueBrowserDataModel.GetColumnType | src/View/IssueBrowser.cpp:56-59 | both columns hold strings |
| IssueBrowser.IssueBrowserDataModel.GetChildren | src/View/IssueBrowser.cpp:67-78 | the root's children are the listed issues in list order; any other item has none; the count is the number of children |
| IssueBrowser.IssueBrowserDataModel.GetValue | src/View/IssueBrowser.cpp:84-101 | column 0 is empty for an issue with no line, and otherwise a decimal string with no leading zero whose value is the line; column 1 is the description |
| IssueBrowser.IssueBrowserDataModel.SetValue | src/View/IssueBrowser.cpp:103-106 | editing is always refused |
| IssueBrowser.IssueBrowserDataModel.SetShowHidden | src/View/IssueBrowser.cpp:108-119 | nothing is notified when the value does not change; otherwise the tree is cleared and then every issue listed under the new value is added, in list order |
| IssueBrowser.IssueBrowserDataModel.AddIssues | src/View/IssueBrowser.cpp:114-118 | the loop of `setShowHidden`: one `ItemAdded` per listed issue, in list order |
| IssueBrowser.IssueBrowserDataModel.RefreshLineNumbers | src/View/IssueBrowser.cpp:121-128 | column 0 of every listed issue, and of no other issue, is reported changed, in list order |
| IssueBrowser.IssueBrowserDataModel.IssueWasAdded | src/View/IssueBrowser.cpp:144-147 | a listed issue is added to the tree; an unlisted one is not |
| IssueBrowser.IssueBrowserDataModel.IssueWillBeRemoved | src/View/IssueBrowser.cpp:149-152 | the issue is deleted from the tree |
| IssueBrowser.IssueBrowserDataModel.IssueIgnoreChanged | src/View/IssueBrowser.cpp:154-160 | an issue that is now ignored is deleted from the tree; otherwise it is added |
| IssueBrowser.IssueBrowserDataModel.IssuesCleared | src/View/IssueBrowser.cpp:162-164 | the tree is cleared |
| IssueBrowser.IssueBrowserDataModel.AddIssue | src/View/IssueBrowser.cpp:166-171 | `ItemAdded` is sent exactly when hidden issues are shown or the issue is not ignored |
| IssueBrowser.IssueBrowserDataModel.RemoveIssue | src/View/IssueBrowser.cpp:173-176 | `ItemDeleted` is sent for the issue |
| IssueBrowser.DecimalText | src/View/IssueBrowser.cpp:96 | at least one character, all decimal digits, no leading zero for a positive number |
| IssueBrowser.DecimalRoundTrip | src/View/IssueBrowser.cpp:92-97 | reading the decimal text back gives the number |
| IssueBrowser.VisibleIssuesMembers | src/View/IssueBrowser.cpp:67-78 | the listed issues are exactly the shown issues of the list, and there are no more of them than issues |
| IssueBrowser.ShowHiddenListsAll | src/View/IssueBrowser.cpp:67-78 | with hidden issues shown, every issue is listed, in order |
| IssueBrowser.RetainContained | src/View/IssueBrowser.cpp:212-219 | erasing in place every quick fix the other list lacks leaves those it contains, in their order |
| IssueBrowser.RetainMembers | src/View/IssueBrowser.cpp:212-219 | a quick fix survives the erase loop exactly when it is in both lists, and the list never grows |
| IssueBrowser.RetainAll | src/View/IssueBrowser.cpp:212-219 | erasing against a list that contains every element keeps the whole list |
| IssueBrowser.CollectQuickFixes | src/View/IssueBrowser.cpp:206-222 | as written: the result is always the first selected issue's quick fixes |
| IssueBrowser.CollectCommonQuickFixes | src/View/IssueBrowser.cpp:206-222 | as intended: the first issue's quick fixes retained against each selected issue in turn |
| IssueBrowser.CommonQuickFixesMembers | src/View/IssueBrowser.cpp:206-222 | a quick fix is offered exactly when every selected issue offers it, and no more are offered than the first issue has |
| IssueBrowser.FirstSelectionOnly | src/View/IssueBrowser.cpp:208-210 | for any first selected issue offering quick fixes and a second offering none, `CollectQuickFixes` (as written) returns the first issue's non-empty list while `CollectCommonQuickFixes` (as intended) returns none |
| IssueBrowser.SetIssueVisibility | src/View/IssueBrowser.cpp:342-359 | every selected issue becomes ignored when hiding and not ignored when showing; its line is untouched |
| FaceAttribsEditor.HasSurfaceAttribs | common/src/View/FaceAttribsEditor.cpp:436-443 | true exactly when the game defines both surface flags and content flags |
| FaceAttribsEditor.FlagNames | common/src/View/FaceAttribsEditor.cpp:466-473 | one name per flag, in configuration order |
| FaceAttribsEditor.FlagDescriptions | common/src/View/FaceAttribsEditor.cpp:466-473 | one description per flag, in configuration order |
| FaceAttribsEditor.GetFlags | common/src/View/FaceAttribsEditor.cpp:466-473 | the names and the descriptions of the flags are appended in configuration order, so both lists grow by the number of flags |
| FaceAttribsEditor.AggregateMulti | common/src/View/FaceAttribsEditor.cpp:321-351 | each attribute's "multi" flag is true exactly when some selected face differs from the first in that attribute |
| FaceAttribsEditor.UpdateControls | common/src/View/FaceAttribsEditor.cpp:309-433 | the surface editors and their flag lists exist exactly when the game has surface attributes; with no face the editors are disabled; otherwise each editor's "multi" state is whether the faces disagree |
| FaceAttribsEditor.DiffersBeforeStep | common/src/View/FaceAttribsEditor.cpp:343-351 | one face more: a flag is the old flag or-ed with whether the new face differs |
| FaceAttribsEditor.SingleFaceNotMixed | common/src/View/FaceAttribsEditor.cpp:322-343 | a single selected face is never "multi" |
| FaceAttribsEditor.DiffersBeforeMonotone | common/src/View/FaceAttribsEditor.cpp:345-351 | once a flag is set by the loop, later faces cannot clear it |
| FaceAttribsEditor.NotMixedIffUniform | common/src/View/FaceAttribsEditor.cpp:330-351 | no attribute is "multi" exactly when every face agrees with the first on every attribute |

## Left out

- Floating point: handle positions (`Vec3`) and face attributes are reals compared exactly. Rounding and NaN are not modelled.
- The bodies of `moveHandle` and `removeHandle` are not in src/View/VertexHandleManager.cpp, which only calls them. `HandleMaps.MoveHandle` and `HandleMaps.RemoveHandle` are written from what the calls rely on: the count returned, and whether an owner was found.
- `pickHandle`'s ray test is the parameter `isMatch`. Handle radii, the camera and the distances stored in hits are not modelled. The order of the hits in the pick result is not modelled. In the same way, the iteration order of the source's `std::map` is not modelled.
- Rendering (`render`, `renderHighlight`, `validateRenderState` and the renderers) is not modelled. The only trace of it is the `renderStateValid` flag that the operations clear.
- Every handle class's two maps and two counters are held by one `HandleGroup` object. In the source they are six maps and six counters directly in `VertexHandleManager`. The counter getters (`selectedVertexCount` and the rest) are plain field reads of the group objects.
- The constructor of `VertexHandleManager` does not set `m_renderStateValid`: no line of the source file initialises it. `VertexHandleManager.VertexHandleManager.constructor` therefore states nothing about the flag.
- A brush is given by its vertex positions and its edge and face centres. The geometry that computes them is not modelled. `selectEdgeHandles` and `selectFaceHandles` receive the centres of the edges and faces.
- Counters are unbounded naturals. Every decrement the source guards with an assert is proved not to underflow, so `size_t` wrap-around cannot occur in the model.
- `VertexHandleManager.VertexHandleManager.RemoveBrush`: requires that the brush's handles are registered. The source only asserts that each total is at least the brush's count. Removing a brush that was never added is outside the contract.
- `VertexHandleManager.VertexHandleManager.RemoveBrushes`: requires that the handles of all brushes are registered, for the same reason.
- `VertexHandleManager.HandleGroup.Remove`: requires that the handles are registered, for the same reason.
- `HandleMaps.RemoveHandles`: requires that the handles are registered, for the same reason.
- `StringUtils::trim` has no body in src/StringUtils.h. It is the parameter `trim` of `QuakeGame.ExtractTexturePaths`. `Entity::property` is not part of this model: a missing key reads as the empty value.
- `split`'s template delimiter argument is modelled as a string of delimiter characters, which is how `find_first_of` reads it.
- The `IssueBrowser` widgets (tree control, context menu, column sizing) and the `Controller` calls that apply a quick fix are not modelled.
- `IssueBrowser.SetIssueVisibility`: sets each selected issue's `ignore` flag directly. The source calls `IssueManager::setIgnoreIssue`, which is not part of this model. The notification that call sends, `incModificationCount` and `UnselectAll` are also not modelled.
- In `ControlListBox`, sizers, colours, fonts, scrolling and event binding are not modelled; an item container is the index it was created for. `createItem` is abstract in the source.
- In `FaceAttribsEditor`, the surface-flag and content-flag aggregation through `combineFlags` (lines 337-340 and 353-354) is not modelled, because `combineFlags` has no body in the file; neither are the float formatting and the "multi" and "n/a" hints.
- In `FaceAttribsEditor`, the widgets are not modelled. The model keeps the values they show: the labels, the tooltips and the "multi" flags. The texture is identified by a number.

## Findings

| source | as written | input that shows it | evidently intended | confidence | as-written member | corrected member |
|---|---|---|---|---|---|---|
| src/View/IssueBrowser.cpp:210 | every round reads the quick fixes of `selections[0]`, so nothing is ever erased and the menu offers the first issue's quick fixes for the whole selection | two selected issues, the first offering `[QuickFix(0)]`, the second offering none: the code offers `QuickFix(0)` | read `selections[i]`, so that only quick fixes every selected issue offers remain | not executed | IssueBrowser.CollectQuickFixes, IssueBrowser.FirstSelectionOnly | IssueBrowser.CollectCommonQuickFixes, IssueBrowser.CommonQuickFixesMembers |
