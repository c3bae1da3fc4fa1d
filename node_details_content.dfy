/**
 * The node details panel (`NodeDetailsContent`): the node being edited, the
 * test context chosen for display, and the rules its form fields follow.
 *
 * The panel's `testResults` prop holds the results of this one node, as
 * `resultsForNode` builds them.
 */
module NodeDetails {
  import opened Wrappers
  import opened Values
  import opened TestResultUtils
  import opened NodeData

  /** What `stateForSelectTestResults` returns. */
  datatype Selection = Selection(testResultsToShow: ContextResults, testResultsIdToShow: string)

  /** One entry of `mockedResultsFor...`. */
  datatype MockedResult = MockedResult(value: string)

  datatype FieldType = Input | Checkbox | PlainTextarea | Textarea | UnknownFieldType

  /** `hasTestResults`: the prop is present and lists at least one context. */
  function HasTestResults(testResults: Option<NodeTestResults>): (r: bool)
    ensures r <==> testResults.Some? && |testResults.value.nodeResults| > 0
  {
    testResults.Some? && |AvailableContexts(testResults.value)| > 0
  }

  /** An id the `||` in `stateForSelectTestResults` replaces: `undefined`, or the empty string. */
  predicate IsFalsyId(id: Option<string>)
  {
    id.None? || id.value == ""
  }

  /** `stateForSelectTestResults(id)`: `null` without test results; otherwise the given id, or the
      id of the first available context when the given one is falsy, and the results of that
      context. */
  function StateForSelectTestResults(testResults: Option<NodeTestResults>, id: Option<string>): (r: Option<Selection>)
    ensures r.None? <==> !HasTestResults(testResults)
    ensures r.Some? && IsFalsyId(id) ==> r.value.testResultsIdToShow == testResults.value.nodeResults[0].context.id
    ensures r.Some? && !IsFalsyId(id) ==> r.value.testResultsIdToShow == id.value
    ensures r.Some? ==> r.value.testResultsToShow == NodeResultsForContext(testResults.value, r.value.testResultsIdToShow)
  {
    if HasTestResults(testResults) then
      var chosenId := if IsFalsyId(id) then AvailableContexts(testResults.value)[0].id else id.value;
      Some(Selection(NodeResultsForContext(testResults.value, chosenId), chosenId))
    else None
  }

  /** With no id given, the panel shows the snapshot of the first node result. */
  lemma DefaultSelectionShowsFirstContext(testResults: NodeTestResults)
    requires |testResults.nodeResults| > 0
    ensures StateForSelectTestResults(Some(testResults), None).Some?
    ensures StateForSelectTestResults(Some(testResults), None).value.testResultsToShow.context
            == Some(testResults.nodeResults[0].context)
  {
    var first := testResults.nodeResults[0].context;
    var found := FindContext(testResults.nodeResults, first.id);
    assert found.Some?;
    var i :| 0 <= i < |testResults.nodeResults| && testResults.nodeResults[i].context == found.value
             && found.value.id == first.id
             && forall k :: 0 <= k < i ==> testResults.nodeResults[k].context.id != first.id;
    assert i == 0;
  }

  /** A chosen id that some node result carries shows a snapshot with that id. */
  lemma SelectedContextHasChosenId(testResults: NodeTestResults, id: string, i: nat)
    requires id != "" && i < |testResults.nodeResults| && testResults.nodeResults[i].context.id == id
    ensures StateForSelectTestResults(Some(testResults), Some(id)).Some?
    ensures StateForSelectTestResults(Some(testResults), Some(id)).value.testResultsToShow.context.Some?
    ensures StateForSelectTestResults(Some(testResults), Some(id)).value.testResultsToShow.context.value.id == id
  {
  }

  /** `_.join(values, "\n\n")`: empty for no values, otherwise it starts with the first. */
  function Join(values: seq<string>): (r: string)
    ensures |values| == 0 ==> r == ""
    ensures |values| > 0 ==> values[0] <= r
  {
    if |values| == 0 then ""
    else if |values| == 1 then values[0]
    else values[0] + "\n\n" + Join(values[1..])
  }

  /** `mergedMockedResults`: the values, in order, separated by blank lines. */
  function MergedMockedResults(mockedResults: seq<MockedResult>): (r: string)
    ensures |mockedResults| == 0 ==> r == ""
    ensures |mockedResults| == 1 ==> r == mockedResults[0].value
  {
    Join(seq(|mockedResults|, i requires 0 <= i < |mockedResults| => mockedResults[i].value))
  }

  lemma {:induction false} JoinAppend(a: seq<string>, b: seq<string>)
    requires |a| > 0 && |b| > 0
    ensures Join(a + b) == Join(a) + "\n\n" + Join(b)
  {
    if |a| > 1 {
      assert (a + b)[1..] == a[1..] + b;
      JoinAppend(a[1..], b);
    } else {
      assert (a + b)[1..] == b;
    }
  }

  /** Merging two non-empty lists one after the other puts one blank line between their merges. */
  lemma MergedMockedResultsAppend(a: seq<MockedResult>, b: seq<MockedResult>)
    requires |a| > 0 && |b| > 0
    ensures MergedMockedResults(a + b) == MergedMockedResults(a) + "\n\n" + MergedMockedResults(b)
  {
    var va := seq(|a|, i requires 0 <= i < |a| => a[i].value);
    var vb := seq(|b|, i requires 0 <= i < |b| => b[i].value);
    var ab := a + b;
    assert seq(|ab|, i requires 0 <= i < |ab| => ab[i].value) == va + vb;
    JoinAppend(va, vb);
  }

  /** `doCreateField`'s `readOnly`: in view mode every field is read-only, and a forced one too,
      except that the expression textarea looks at the edit mode alone. */
  function FieldReadOnly(fieldType: FieldType, isEditMode: bool, forceReadonly: bool): (r: bool)
    ensures !isEditMode ==> r
    ensures fieldType != Textarea ==> (r <==> !isEditMode || forceReadonly)
    ensures fieldType == Textarea ==> (r <==> !isEditMode)
  {
    if fieldType == Textarea then !isEditMode else !isEditMode || forceReadonly
  }

  /** `wrapWithTestResult`'s lookup: the value evaluated in the shown test case, when there is a
      field name and that value is truthy; otherwise the field is shown alone. */
  function ShownTestValue(fieldName: Option<string>, testResultsToShow: Option<ContextResults>): (r: Option<Value>)
    ensures r.Some? <==> fieldName.Some? && fieldName.value != "" && testResultsToShow.Some?
                         && fieldName.value in testResultsToShow.value.expressionResults
                         && Truthy(testResultsToShow.value.expressionResults[fieldName.value])
    ensures r.Some? ==> r.value == testResultsToShow.value.expressionResults[fieldName.value]
  {
    if fieldName.None? || fieldName.value == "" || testResultsToShow.None? then None
    else if fieldName.value in testResultsToShow.value.expressionResults
            && Truthy(testResultsToShow.value.expressionResults[fieldName.value])
    then Some(testResultsToShow.value.expressionResults[fieldName.value])
    else None
  }

  /** After a checkbox change the box reads the opposite of what it read before. */
  lemma CheckboxChangeFlips(node: Json, path: seq<string>)
    requires node.Obj? && |path| > 0
    ensures CheckedAt(SetAt(node, path, Leaf(Bool(!CheckedAt(node, path)))), path) == !CheckedAt(node, path)
  {
    SetAtThenGet(node, path, Leaf(Bool(!CheckedAt(node, path))));
  }

  class NodeDetailsContent {
    /** The `node` prop. */
    var node: Json
    /** The `testResults` prop. */
    var testResults: Option<NodeTestResults>
    /** `state.editedNode`. */
    var editedNode: Json
    /** `state.testResultsToShow` (`undefined` until a context is selected). */
    var testResultsToShow: Option<ContextResults>
    /** `state.testResultsIdToShow`. */
    var testResultsIdToShow: Option<string>
    /** Every node handed to the `onChange` prop, in order. */
    var changes: seq<Json>
    /** The `isEditMode` prop: in view mode every field is read-only and no change is reported. */
    var isEditMode: bool

    /** Mounting: `mergedNode` is the node with its missing parameters added, then the default
        context is selected when there are test results. */
    constructor (node: Json, mergedNode: Json, testResults: Option<NodeTestResults>, isEditMode: bool)
      ensures this.node == node && this.testResults == testResults && this.isEditMode == isEditMode
      ensures editedNode == mergedNode && changes == []
      ensures match StateForSelectTestResults(testResults, None)
              case None => testResultsToShow.None? && testResultsIdToShow.None?
              case Some(s) => testResultsToShow == Some(s.testResultsToShow)
                              && testResultsIdToShow == Some(s.testResultsIdToShow)
    {
      this.node := node;
      this.testResults := testResults;
      this.isEditMode := isEditMode;
      editedNode := mergedNode;
      changes := [];
      var selection := StateForSelectTestResults(testResults, None);
      match selection {
        case None =>
          testResultsToShow := None;
          testResultsIdToShow := None;
        case Some(s) =>
          testResultsToShow := Some(s.testResultsToShow);
          testResultsIdToShow := Some(s.testResultsIdToShow);
      }
    }

    /** `setNodeDataAt`: a copy of the edited node with `value` set at `path` becomes the edited
        node, and that same node is passed to `onChange`. Only a field's change handler calls it,
        and no field reports a change outside edit mode. */
    method SetNodeDataAt(path: seq<string>, value: Json)
      requires isEditMode
      modifies this
      ensures editedNode == SetAt(old(editedNode), path, value)
      ensures changes == old(changes) + [editedNode]
      ensures old(editedNode).Obj? && |path| > 0 ==> GetAt(editedNode, path) == Some(value)
      ensures forall other :: Diverge(path, other) ==> GetAt(editedNode, other) == GetAt(old(editedNode), other)
      ensures node == old(node) && testResults == old(testResults) && isEditMode == old(isEditMode)
      ensures testResultsToShow == old(testResultsToShow) && testResultsIdToShow == old(testResultsIdToShow)
    {
      var newNode := SetAt(editedNode, path, value);
      if editedNode.Obj? && |path| > 0 {
        SetAtThenGet(editedNode, path, value);
      }
      forall other | Diverge(path, other)
        ensures GetAt(newNode, other) == GetAt(editedNode, other)
      {
        SetAtKeepsOthers(editedNode, path, value, other);
      }
      editedNode := newNode;
      changes := changes + [newNode];
    }

    /** A checkbox field's `onChange`: the value at `path` becomes the negation of the one the
        box shows. The box is disabled outside edit mode. */
    method ToggleCheckbox(path: seq<string>)
      requires isEditMode
      modifies this
      ensures editedNode == SetAt(old(editedNode), path, Leaf(Bool(!CheckedAt(old(editedNode), path))))
      ensures changes == old(changes) + [editedNode]
      ensures old(editedNode).Obj? && |path| > 0 ==> CheckedAt(editedNode, path) == !CheckedAt(old(editedNode), path)
      ensures node == old(node) && testResults == old(testResults) && isEditMode == old(isEditMode)
      ensures testResultsToShow == old(testResultsToShow) && testResultsIdToShow == old(testResultsIdToShow)
    {
      var fieldValue := CheckedAt(editedNode, path);
      SetNodeDataAt(path, Leaf(Bool(!fieldValue)));
    }

    /** `selectTestResults(id)`: nothing changes without test results. */
    method SelectTestResults(id: Option<string>)
      modifies this
      ensures match StateForSelectTestResults(testResults, id)
              case None => testResultsToShow == old(testResultsToShow) && testResultsIdToShow == old(testResultsIdToShow)
              case Some(s) => testResultsToShow == Some(s.testResultsToShow)
                              && testResultsIdToShow == Some(s.testResultsIdToShow)
      ensures editedNode == old(editedNode) && changes == old(changes)
      ensures node == old(node) && testResults == old(testResults) && isEditMode == old(isEditMode)
    {
      var stateForSelect := StateForSelectTestResults(testResults, id);
      if stateForSelect.Some? {
        testResultsToShow := Some(stateForSelect.value.testResultsToShow);
        testResultsIdToShow := Some(stateForSelect.value.testResultsIdToShow);
      }
    }

    /** New props followed by `componentDidUpdate`: a different node discards the unsaved edits,
        and a different node or different test results select the default context again. */
    method ReceiveProps(newNode: Json, newTestResults: Option<NodeTestResults>, newIsEditMode: bool)
      modifies this
      ensures node == newNode && testResults == newTestResults && isEditMode == newIsEditMode
      ensures editedNode == if newNode != old(node) then newNode else old(editedNode)
      ensures changes == old(changes)
      ensures newNode != old(node) || newTestResults != old(testResults) ==>
                match StateForSelectTestResults(newTestResults, None)
                case None => testResultsToShow == old(testResultsToShow) && testResultsIdToShow == old(testResultsIdToShow)
                case Some(s) => testResultsToShow == Some(s.testResultsToShow)
                                && testResultsIdToShow == Some(s.testResultsIdToShow)
      ensures newNode == old(node) && newTestResults == old(testResults) ==>
                testResultsToShow == old(testResultsToShow) && testResultsIdToShow == old(testResultsIdToShow)
    {
      var prevNode, prevTestResults := node, testResults;
      node, testResults, isEditMode := newNode, newTestResults, newIsEditMode;
      if prevNode != node {
        editedNode := node;
      }
      if prevNode != node || prevTestResults != testResults {
        SelectTestResults(None);
      }
    }
  }
}
