/** Main: after parsing the command line, either print the usage text or call
    the operations that the selected action stands for, in order. A run is
    modelled by the ordered trace of what it does. */
module Dispatch {
  import A = Arguments

  /** The operations Main can call, named after the program's own helpers. */
  datatype Operation = CreateIndex | Index | DeleteIndex | CreateLargeIndex | IndexLarge | Query

  /** One step of a run: printing the usage text, or calling an operation
      against a server and an index. */
  datatype Step = Usage | Call(op: Operation, server: string, index: string)

  /** The outcomes for which no operation runs: a parse error, the help flag,
      or an action value the switch has no case for. */
  predicate UsageOnly(outcome: A.ParseOutcome)
  {
    match outcome
    case ArgError(_) => true
    case Parsed(o) => o.help || o.action.Unlisted?
  }

  /** The trace of Main for one parse outcome. */
  function Run(outcome: A.ParseOutcome): (trace: seq<Step>)
    ensures |trace| >= 1
    ensures UsageOnly(outcome) <==> Usage in trace
    ensures Usage in trace ==> trace == [Usage]
    ensures outcome.Parsed? ==>
      forall s :: s in trace && s.Call? ==>
        s.server == outcome.options.server && s.index == outcome.options.index
  {
    match outcome
    case ArgError(_) => [Usage]
    case Parsed(o) =>
      if o.help then [Usage]
      else
        match o.action
        case CreateIndex => [Call(CreateIndex, o.server, o.index)]
        case Index => [Call(Index, o.server, o.index)]
        case LargeIndex =>
          [Call(DeleteIndex, o.server, o.index),
           Call(CreateLargeIndex, o.server, o.index),
           Call(IndexLarge, o.server, o.index)]
        case Query => [Call(Query, o.server, o.index)]
        case DeleteIndex => [Call(DeleteIndex, o.server, o.index)]
        case Unlisted(_) => [Usage]
  }

  /** The large-index action deletes the index, then creates it with the
      product mapping and analysis chain, then ingests, in exactly that order. */
  lemma LargeIndexOrder(server: string, index: string, help: bool)
    ensures var trace := Run(A.Parsed(A.Options(help, A.LargeIndex, server, index)));
      !help ==> trace == [Call(DeleteIndex, server, index),
                          Call(CreateLargeIndex, server, index),
                          Call(IndexLarge, server, index)]
    ensures help ==> Run(A.Parsed(A.Options(help, A.LargeIndex, server, index))) == [Usage]
  {
  }

  /** Each of the other named actions calls its one operation and nothing else. */
  lemma SingleOperationActions(o: A.Options)
    requires !o.help
    ensures o.action == A.CreateIndex ==> Run(A.Parsed(o)) == [Call(CreateIndex, o.server, o.index)]
    ensures o.action == A.Index ==> Run(A.Parsed(o)) == [Call(Index, o.server, o.index)]
    ensures o.action == A.Query ==> Run(A.Parsed(o)) == [Call(Query, o.server, o.index)]
    ensures o.action == A.DeleteIndex ==> Run(A.Parsed(o)) == [Call(DeleteIndex, o.server, o.index)]
  {
  }

  /** The mapping of the target index: the small item mapping of CreateIndex,
      the product mapping with the custom analysis chain of CreateLargeIndex,
      or the mapping the backend infers when a document is indexed into a
      missing index and the backend creates the index by itself. */
  datatype Schema = ItemSchema | ProductSchema | DynamicSchema

  /** The state of the target index on the search backend. */
  datatype IndexState = Missing | Exists(schema: Schema)

  /** What one step does to the target index. answered says whether the
      request reached the backend and was answered; a request lost to a
      transport error changes nothing, and the program does not notice,
      since it only prints the response. Deleting a missing index is a
      NotFound answer and leaves it missing; creating an index that exists is
      an AlreadyExists answer and leaves the old mapping in place; indexing
      documents into a missing index creates it with an inferred mapping;
      a query changes nothing. For an ingestion step, answered also means
      that at least one document was sent: a fetch that returns no rows gives
      only empty batches (Partition.EmptyFetchEmptyBatches), which carry
      nothing that could create the index, so it counts as unanswered. */
  function Effect(step: Step, st: IndexState, answered: bool): (next: IndexState)
    ensures !answered || step.Usage? ==> next == st
    ensures answered && step.Call? && step.op == DeleteIndex ==> next == Missing
    ensures st.Exists? && (step.Usage? || step.op != DeleteIndex) ==> next == st
    ensures st == Missing && answered && step.Call? && step.op != DeleteIndex && step.op != Query ==>
      next.Exists?
  {
    if !answered then st
    else
      match step
      case Usage => st
      case Call(op, _, _) =>
        match op
        case DeleteIndex => Missing
        case CreateIndex => if st == Missing then Exists(ItemSchema) else st
        case CreateLargeIndex => if st == Missing then Exists(ProductSchema) else st
        case Index => if st == Missing then Exists(DynamicSchema) else st
        case IndexLarge => if st == Missing then Exists(DynamicSchema) else st
        case Query => st
  }

  /** The state of the target index after a trace of steps, answered[k]
      telling whether step k reached the backend. */
  function Execute(trace: seq<Step>, st: IndexState, answered: seq<bool>): IndexState
    requires |answered| == |trace|
    decreases |trace|
  {
    if trace == [] then st else Execute(trace[1..], Effect(trace[0], st, answered[0]), answered[1..])
  }

  /** Every bulk ingestion in the trace finds the target index present with
      the product mapping, so no batch is indexed against a missing index or
      the wrong mapping. */
  ghost predicate IngestsIntoProductIndex(trace: seq<Step>, st: IndexState, answered: seq<bool>)
    requires |answered| == |trace|
  {
    forall k :: 0 <= k < |trace| && trace[k].Call? && trace[k].op == IndexLarge ==>
      Execute(trace[..k], st, answered[..k]) == Exists(ProductSchema)
  }

  /** Every delete and create-large-index request of the trace was answered. */
  predicate SetupAnswered(trace: seq<Step>, answered: seq<bool>)
    requires |answered| == |trace|
  {
    forall k :: 0 <= k < |trace| && trace[k].Call? && trace[k].op in {DeleteIndex, CreateLargeIndex} ==>
      answered[k]
  }

  /** The target index just before the ingestion step of the large-index
      action: it is the product index exactly when the create request was
      answered after the delete was answered or on a missing index, or when
      the delete was lost and the index already had the product mapping. */
  lemma LargeIndexIngestionTarget(o: A.Options, st: IndexState, answered: seq<bool>)
    requires !o.help && o.action == A.LargeIndex && |answered| == 3
    ensures |Run(A.Parsed(o))| == 3 && Run(A.Parsed(o))[2].op == IndexLarge
    ensures Execute(Run(A.Parsed(o))[..2], st, answered[..2]) == Exists(ProductSchema) <==>
      (answered[1] && (answered[0] || st == Missing)) || (!answered[0] && st == Exists(ProductSchema))
  {
    var trace := Run(A.Parsed(o));
    var first := Effect(trace[0], st, answered[0]);
    var second := Effect(trace[1], first, answered[1]);
    assert trace[..2] == [trace[0], trace[1]];
    assert answered[..2] == [answered[0], answered[1]];
    assert [trace[0], trace[1]][1..] == [trace[1]];
    assert [answered[0], answered[1]][1..] == [answered[1]];
    assert Execute(trace[..2], st, answered[..2]) == Execute([trace[1]], first, [answered[1]]);
    assert Execute([trace[1]], first, [answered[1]]) == second;
  }

  /** Whatever the index looked like before, and whatever the command line
      said, a run whose delete and create requests are answered never ingests
      into anything but a freshly created product index. */
  lemma RunIngestsIntoProductIndex(outcome: A.ParseOutcome, st: IndexState, answered: seq<bool>)
    requires |answered| == |Run(outcome)|
    requires SetupAnswered(Run(outcome), answered)
    ensures IngestsIntoProductIndex(Run(outcome), st, answered)
  {
    var trace := Run(outcome);
    if |trace| == 3 {
      assert trace[0].op == DeleteIndex && trace[1].op == CreateLargeIndex;
      LargeIndexIngestionTarget(outcome.options, st, answered);
    }
  }

  /** A run that an exception other than an argument error cuts short
      performs only a prefix of its trace; the prefix still ingests only into
      the product index when its own delete and create requests are answered.
      Since the ingestion is the last step of the only trace that has one, a
      proper prefix holds no ingestion at all, and the whole trace is the case
      RunIngestsIntoProductIndex covers: this adds no safety fact beyond it,
      it only says that cutting a run short cannot produce a bad ingestion. */
  lemma AbortedRunIngestsIntoProductIndex(outcome: A.ParseOutcome, st: IndexState, answered: seq<bool>, m: nat)
    requires m <= |Run(outcome)| && |answered| == m
    requires SetupAnswered(Run(outcome)[..m], answered)
    ensures IngestsIntoProductIndex(Run(outcome)[..m], st, answered)
  {
    var trace := Run(outcome);
    if m == |trace| {
      assert trace[..m] == trace;
      RunIngestsIntoProductIndex(outcome, st, answered);
    } else {
      forall k | 0 <= k < m ensures !(trace[..m][k].Call? && trace[..m][k].op == IndexLarge) {
        assert trace[..m][k] == trace[k];
      }
    }
  }

  /** A delete request lost in transport leaves an index with the item mapping
      in place; the create request is then refused and the bulk ingestion runs
      against the item mapping. */
  lemma LostDeleteIngestsIntoItemMapping(o: A.Options)
    requires !o.help && o.action == A.LargeIndex
    ensures Execute(Run(A.Parsed(o))[..2], Exists(ItemSchema), [false, true]) == Exists(ItemSchema)
    ensures !IngestsIntoProductIndex(Run(A.Parsed(o)), Exists(ItemSchema), [false, true, true])
  {
    var trace := Run(A.Parsed(o));
    var answered := [false, true, true];
    LargeIndexIngestionTarget(o, Exists(ItemSchema), answered);
    assert answered[..2] == [false, true];
    assert trace[..2] == [trace[0], trace[1]] && [trace[0], trace[1]][1..] == [trace[1]];
    assert [false, true][1..] == [true];
    assert Execute([trace[1]], Exists(ItemSchema), [true]) == Exists(ItemSchema);
  }

  /** A create request lost in transport after the delete leaves the index
      missing; a bulk ingestion that sends documents then creates it with an
      inferred mapping, and one that sends none (an empty fetch) leaves it
      missing. */
  lemma LostCreateIngestsIntoInferredMapping(o: A.Options, st: IndexState, sent: bool)
    requires !o.help && o.action == A.LargeIndex
    ensures sent ==> Execute(Run(A.Parsed(o)), st, [true, false, sent]) == Exists(DynamicSchema)
    ensures !sent ==> Execute(Run(A.Parsed(o)), st, [true, false, sent]) == Missing
  {
    var trace := Run(A.Parsed(o));
    var first := Effect(trace[0], st, true);
    var last := Effect(trace[2], Missing, sent);
    assert first == Missing;
    assert trace[1..] == [trace[1], trace[2]] && [trace[1], trace[2]][1..] == [trace[2]];
    assert [true, false, sent][1..] == [false, sent] && [false, sent][1..] == [sent];
    assert Execute([trace[2]], Missing, [sent]) == last;
    assert Execute([trace[1], trace[2]], Missing, [false, sent]) == last;
  }

  /** Why the delete comes first: without it, an index that already exists
      with the item mapping survives the create request, and the bulk
      ingestion then runs against the item mapping. */
  lemma CreateWithoutDeleteKeepsOldMapping(server: string, index: string)
    ensures Execute([Call(CreateLargeIndex, server, index)], Exists(ItemSchema), [true]) == Exists(ItemSchema)
    ensures !IngestsIntoProductIndex(
      [Call(CreateLargeIndex, server, index), Call(IndexLarge, server, index)],
      Exists(ItemSchema), [true, true])
  {
    var trace := [Call(CreateLargeIndex, server, index), Call(IndexLarge, server, index)];
    assert trace[..1] == [trace[0]];
    assert [true, true][..1] == [true];
    assert Execute(trace[..1], Exists(ItemSchema), [true]) == Exists(ItemSchema);
  }
}
