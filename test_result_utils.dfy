/**
 * Lookup of test results for one node and one test context
 * (the `TestResultUtils` singleton of the client).
 *
 * A `TestResults` collection keeps, per node id, the context snapshots seen at
 * that node (`nodeResults`) and the named expression values evaluated there
 * (`invocationResults`). Either map may be absent from the collection.
 */
module TestResultUtils {
  import opened Wrappers
  import opened Values

  /** One test-execution context: its id and its variables. */
  datatype Context = Context(id: string, variables: map<string, Value>)

  /** The `{id}` reference an invocation result carries. */
  datatype ContextRef = ContextRef(id: string)

  /** One context snapshot seen at a node. */
  datatype NodeResult = NodeResult(context: Context)

  /** One named sub-expression's value, evaluated within a context. */
  datatype InvocationResult = InvocationResult(context: ContextRef, name: string, value: Value)

  datatype TestResults = TestResults(
    nodeResults: Option<map<string, seq<NodeResult>>>,
    invocationResults: Option<map<string, seq<InvocationResult>>>)

  /** The results of one node, as `resultsForNode` builds them. */
  datatype NodeTestResults = NodeTestResults(
    invocationResults: seq<InvocationResult>,
    nodeResults: seq<NodeResult>)

  /** What `nodeResultsForContext` returns: `context` is `undefined` when no node result matches. */
  datatype ContextResults = ContextResults(context: Option<Context>, expressionResults: map<string, Value>)

  /** One selectable context: `{id, input}`. */
  datatype ContextSummary = ContextSummary(id: string, input: Value)

  /** `_nodeResults`: a missing map or a missing entry gives `[]`. */
  function NodeResultsOf(testResults: TestResults, nodeId: string): (r: seq<NodeResult>)
    ensures testResults.nodeResults.None? ==> r == []
    ensures testResults.nodeResults.Some? && nodeId !in testResults.nodeResults.value ==> r == []
    ensures testResults.nodeResults.Some? && nodeId in testResults.nodeResults.value ==>
              r == testResults.nodeResults.value[nodeId]
  {
    match testResults.nodeResults
    case None => []
    case Some(m) => if nodeId in m then m[nodeId] else []
  }

  /** `_invocationResults`: a missing map or a missing entry gives `[]`. */
  function InvocationResultsOf(testResults: TestResults, nodeId: string): (r: seq<InvocationResult>)
    ensures testResults.invocationResults.None? ==> r == []
    ensures testResults.invocationResults.Some? && nodeId !in testResults.invocationResults.value ==> r == []
    ensures testResults.invocationResults.Some? && nodeId in testResults.invocationResults.value ==>
              r == testResults.invocationResults.value[nodeId]
  {
    match testResults.invocationResults
    case None => []
    case Some(m) => if nodeId in m then m[nodeId] else []
  }

  /** `resultsForNode`: `null` exactly when the collection itself is absent; the guard on
      `_nodeResults` never fails because `[]` is truthy. */
  function ResultsForNode(testResults: Option<TestResults>, nodeId: string): (r: Option<NodeTestResults>)
    ensures r.None? <==> testResults.None?
    ensures r.Some? ==> r.value.nodeResults == NodeResultsOf(testResults.value, nodeId)
    ensures r.Some? ==> r.value.invocationResults == InvocationResultsOf(testResults.value, nodeId)
  {
    match testResults
    case None => None
    case Some(t) => Some(NodeTestResults(InvocationResultsOf(t, nodeId), NodeResultsOf(t, nodeId)))
  }

  /** A node absent from the collection resolves to two empty lists, never to `null`. */
  lemma MissingNodeGivesEmptyLists(testResults: TestResults, nodeId: string)
    requires testResults.nodeResults.None? || nodeId !in testResults.nodeResults.value
    requires testResults.invocationResults.None? || nodeId !in testResults.invocationResults.value
    ensures ResultsForNode(Some(testResults), nodeId) == Some(NodeTestResults([], []))
  {
  }

  /** `nodeResults.find(r => r.context.id == contextId)`, projected to its context. */
  function FindContext(nodeResults: seq<NodeResult>, contextId: string): (r: Option<Context>)
    ensures r.None? <==> forall i :: 0 <= i < |nodeResults| ==> nodeResults[i].context.id != contextId
    ensures r.Some? ==> exists i :: 0 <= i < |nodeResults| && nodeResults[i].context == r.value
                                    && r.value.id == contextId
                                    && forall k :: 0 <= k < i ==> nodeResults[k].context.id != contextId
  {
    if |nodeResults| == 0 then None
    else if nodeResults[0].context.id == contextId then Some(nodeResults[0].context)
    else
      var rest := FindContext(nodeResults[1..], contextId);
      assert forall i :: 1 <= i < |nodeResults| ==> nodeResults[i] == nodeResults[1..][i - 1];
      rest
  }

  /** The `[name, value]` pairs of the invocation results of one context, in list order
      (the `filter` and `map` of `nodeResultsForContext`). */
  function MatchingPairs(invocationResults: seq<InvocationResult>, contextId: string): (r: seq<(string, Value)>)
    ensures forall p :: p in r ==> exists i :: 0 <= i < |invocationResults| && invocationResults[i].context.id == contextId
                                               && p == (invocationResults[i].name, invocationResults[i].value)
  {
    if |invocationResults| == 0 then []
    else
      var head := invocationResults[0];
      var rest := MatchingPairs(invocationResults[1..], contextId);
      assert forall i :: 1 <= i < |invocationResults| ==> invocationResults[i] == invocationResults[1..][i - 1];
      (if head.context.id == contextId then [(head.name, head.value)] else []) + rest
  }

  /** `_.fromPairs`: pairs are assigned in order, so a later pair overrides an earlier one. */
  function FromPairs(pairs: seq<(string, Value)>): (r: map<string, Value>)
    ensures forall k :: k in r ==> exists i :: 0 <= i < |pairs| && pairs[i] == (k, r[k])
  {
    if |pairs| == 0 then map[]
    else FromPairs(pairs[..|pairs| - 1])[pairs[|pairs| - 1].0 := pairs[|pairs| - 1].1]
  }

  /** The `expressionResults` of `nodeResultsForContext`: every entry is the name and value of
      some invocation result of that context. */
  function ExpressionResults(invocationResults: seq<InvocationResult>, contextId: string): (r: map<string, Value>)
    ensures forall name :: name in r ==>
              exists i :: 0 <= i < |invocationResults| && invocationResults[i].context.id == contextId
                          && invocationResults[i].name == name && invocationResults[i].value == r[name]
  {
    var pairs := MatchingPairs(invocationResults, contextId);
    assert forall i :: 0 <= i < |pairs| ==> pairs[i] in pairs;
    FromPairs(pairs)
  }

  /** `nodeResultsForContext`. */
  function NodeResultsForContext(nodeTestResults: NodeTestResults, contextId: string): (r: ContextResults)
    ensures r.context == FindContext(nodeTestResults.nodeResults, contextId)
    ensures r.expressionResults == ExpressionResults(nodeTestResults.invocationResults, contextId)
  {
    ContextResults(
      FindContext(nodeTestResults.nodeResults, contextId),
      ExpressionResults(nodeTestResults.invocationResults, contextId))
  }

  /** The `{id, input}` entry built for one node result; a missing `input` variable is `undefined`. */
  function Summary(nodeResult: NodeResult): ContextSummary
  {
    var variables := nodeResult.context.variables;
    ContextSummary(nodeResult.context.id, if "input" in variables then variables["input"] else Undefined)
  }

  /** `availableContexts`: one entry per node result, in order. `_.uniq` compares the freshly
      built objects by reference, so it removes nothing. */
  function AvailableContexts(nodeTestResults: NodeTestResults): (r: seq<ContextSummary>)
    ensures |r| == |nodeTestResults.nodeResults|
    ensures forall i :: 0 <= i < |r| ==>
              var context := nodeTestResults.nodeResults[i].context;
              r[i].id == context.id
              && r[i].input == if "input" in context.variables then context.variables["input"] else Undefined
  {
    Summaries(nodeTestResults.nodeResults)
  }

  function Summaries(nodeResults: seq<NodeResult>): (r: seq<ContextSummary>)
    ensures |r| == |nodeResults|
    ensures forall i :: 0 <= i < |r| ==> r[i] == Summary(nodeResults[i])
  {
    if |nodeResults| == 0 then []
    else
      var rest := Summaries(nodeResults[1..]);
      assert forall i :: 1 <= i < |nodeResults| ==> nodeResults[i] == nodeResults[1..][i - 1];
      [Summary(nodeResults[0])] + rest
  }

  // ---------------------------------------------------------------------------
  // Properties of the expression-results map
  // ---------------------------------------------------------------------------

  lemma {:induction false} MatchingPairsAt(invocationResults: seq<InvocationResult>, contextId: string, name: string, value: Value)
    ensures (name, value) in MatchingPairs(invocationResults, contextId) <==>
            exists i :: 0 <= i < |invocationResults| && invocationResults[i].context.id == contextId
                        && invocationResults[i].name == name && invocationResults[i].value == value
  {
    if |invocationResults| > 0 {
      MatchingPairsAt(invocationResults[1..], contextId, name, value);
      var tail := invocationResults[1..];
      assert forall i :: 1 <= i < |invocationResults| ==> invocationResults[i] == tail[i - 1];
      if exists i :: 0 <= i < |invocationResults| && invocationResults[i].context.id == contextId
                     && invocationResults[i].name == name && invocationResults[i].value == value {
        var i :| 0 <= i < |invocationResults| && invocationResults[i].context.id == contextId
                 && invocationResults[i].name == name && invocationResults[i].value == value;
        if i > 0 {
          assert tail[i - 1] == invocationResults[i];
        }
      }
    }
  }

  lemma {:induction false} MatchingPairsConcat(a: seq<InvocationResult>, b: seq<InvocationResult>, contextId: string)
    ensures MatchingPairs(a + b, contextId) == MatchingPairs(a, contextId) + MatchingPairs(b, contextId)
  {
    if |a| > 0 {
      assert (a + b)[1..] == a[1..] + b;
      MatchingPairsConcat(a[1..], b, contextId);
    } else {
      assert a + b == b;
    }
  }

  /** A key of `_.fromPairs` is the first component of some pair, and conversely. */
  lemma {:induction false} FromPairsKeys(pairs: seq<(string, Value)>, name: string)
    ensures name in FromPairs(pairs) <==> exists i :: 0 <= i < |pairs| && pairs[i].0 == name
  {
    if |pairs| > 0 {
      var init := pairs[..|pairs| - 1];
      FromPairsKeys(init, name);
      assert forall i :: 0 <= i < |init| ==> init[i] == pairs[i];
    }
  }

  /** The value stored under a key is that of the last pair with that key. */
  lemma {:induction false} FromPairsLast(pairs: seq<(string, Value)>, i: nat)
    requires i < |pairs|
    requires forall j :: i < j < |pairs| ==> pairs[j].0 != pairs[i].0
    ensures pairs[i].0 in FromPairs(pairs) && FromPairs(pairs)[pairs[i].0] == pairs[i].1
  {
    if i < |pairs| - 1 {
      var init := pairs[..|pairs| - 1];
      assert forall j :: 0 <= j < |init| ==> init[j] == pairs[j];
      FromPairsLast(init, i);
    }
  }

  /** A name is a key of `expressionResults` exactly when some invocation result of that
      context carries it. */
  lemma ExpressionResultsKeys(invocationResults: seq<InvocationResult>, contextId: string, name: string)
    ensures name in NodeResultsForContext(NodeTestResults(invocationResults, []), contextId).expressionResults <==>
            exists i :: 0 <= i < |invocationResults| && invocationResults[i].context.id == contextId
                        && invocationResults[i].name == name
  {
    var pairs := MatchingPairs(invocationResults, contextId);
    FromPairsKeys(pairs, name);
    if exists i :: 0 <= i < |pairs| && pairs[i].0 == name {
      var i :| 0 <= i < |pairs| && pairs[i].0 == name;
      assert pairs[i] in pairs;
      MatchingPairsAt(invocationResults, contextId, name, pairs[i].1);
    }
    if exists i :: 0 <= i < |invocationResults| && invocationResults[i].context.id == contextId
                   && invocationResults[i].name == name {
      var i :| 0 <= i < |invocationResults| && invocationResults[i].context.id == contextId
               && invocationResults[i].name == name;
      MatchingPairsAt(invocationResults, contextId, name, invocationResults[i].value);
      var k :| 0 <= k < |pairs| && pairs[k] == (name, invocationResults[i].value);
      assert pairs[k].0 == name;
    }
  }

  /** When several results of the context share a name, the last one in list order wins. */
  lemma {:induction false} ExpressionResultsLastWins(invocationResults: seq<InvocationResult>, contextId: string, i: nat)
    requires i < |invocationResults| && invocationResults[i].context.id == contextId
    requires forall j :: i < j < |invocationResults| && invocationResults[j].context.id == contextId ==>
               invocationResults[j].name != invocationResults[i].name
    ensures invocationResults[i].name in ExpressionResults(invocationResults, contextId)
    ensures ExpressionResults(invocationResults, contextId)[invocationResults[i].name] == invocationResults[i].value
  {
    var before, x, after := invocationResults[..i], invocationResults[i], invocationResults[i + 1..];
    assert invocationResults == before + [x] + after;
    MatchingPairsConcat(before + [x], after, contextId);
    MatchingPairsConcat(before, [x], contextId);
    assert MatchingPairs([x], contextId) == [(x.name, x.value)];
    var pre, post := MatchingPairs(before, contextId), MatchingPairs(after, contextId);
    var pairs := pre + [(x.name, x.value)] + post;
    assert MatchingPairs(invocationResults, contextId) == pairs;
    forall j | |pre| < j < |pairs| ensures pairs[j].0 != x.name {
      var p := pairs[j];
      assert p == post[j - |pre| - 1];
      assert p in post;
      MatchingPairsAt(after, contextId, p.0, p.1);
      var k :| 0 <= k < |after| && after[k].context.id == contextId && after[k].name == p.0 && after[k].value == p.1;
      assert after[k] == invocationResults[i + 1 + k];
    }
    FromPairsLast(pairs, |pre|);
  }

  /** A result recorded for another context never contributes, wherever it stands in the list. */
  lemma OtherContextIgnored(a: seq<InvocationResult>, x: InvocationResult, b: seq<InvocationResult>, contextId: string)
    requires x.context.id != contextId
    ensures ExpressionResults(a + [x] + b, contextId) == ExpressionResults(a + b, contextId)
  {
    MatchingPairsConcat(a + [x], b, contextId);
    MatchingPairsConcat(a, [x], contextId);
    MatchingPairsConcat(a, b, contextId);
    assert [x][1..] == [];
    assert MatchingPairs([x], contextId) == [];
    assert MatchingPairs(a, contextId) + [] == MatchingPairs(a, contextId);
  }

  /** `availableContexts` keeps equal entries: two identical node results give two equal
      `{id, input}` pairs. */
  lemma AvailableContextsKeepsDuplicates(nodeResult: NodeResult)
    ensures var r := AvailableContexts(NodeTestResults([], [nodeResult, nodeResult]));
            |r| == 2 && r[0] == r[1]
  {
  }

  /** Two contexts at one node: choosing `ctx2` shows `ctx2`'s snapshot and only the values
      evaluated in `ctx2`. */
  lemma TwoContextsScenario()
    ensures var ctx1 := Context("ctx1", map["input" := Num(1)]);
            var ctx2 := Context("ctx2", map["input" := Num(2)]);
            var results := NodeTestResults(
              [InvocationResult(ContextRef("ctx1"), "expression", Bool(true)),
               InvocationResult(ContextRef("ctx2"), "expression", Bool(false))],
              [NodeResult(ctx1), NodeResult(ctx2)]);
            NodeResultsForContext(results, "ctx2") == ContextResults(Some(ctx2), map["expression" := Bool(false)])
            && AvailableContexts(results) == [ContextSummary("ctx1", Num(1)), ContextSummary("ctx2", Num(2))]
  {
    var irs := [InvocationResult(ContextRef("ctx1"), "expression", Bool(true)),
                InvocationResult(ContextRef("ctx2"), "expression", Bool(false))];
    var pairs := [("expression", Bool(false))];
    assert MatchingPairs(irs[1..][1..], "ctx2") == [];
    assert MatchingPairs(irs[1..], "ctx2") == pairs;
    assert MatchingPairs(irs, "ctx2") == pairs;
    assert pairs[..0] == [];
    assert FromPairs(pairs) == map["expression" := Bool(false)];
  }
}
