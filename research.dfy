/** The research-process panel of a chat answer: it unwraps the trace items
    of the answer's data, shows the HyDE reasoning if any, and one entry per
    chunk evaluation. */
module Research {
  import opened Wrappers
  import opened Seqs

  /** An unwrapped trace with the members the panel reads. */
  datatype Trace = Trace(traceType: string, content: string, isRelevant: bool, reasoning: string, quotes: Option<seq<string>>)

  /** One item of the answer's data: `{ type, content }`. */
  datatype Item = Item(itemType: string, content: Trace)

  function IsTraceItem(d: Item): bool {
    d.itemType == "trace"
  }

  function IsEvaluation(t: Trace): bool {
    t.traceType == "react-evaluation"
  }

  /** `data.filter(d => d.type === "trace").map(d => d.content)`. */
  function Traces(data: seq<Item>): (r: seq<Trace>)
    ensures |r| <= |data|
    decreases |data|
  {
    if |data| == 0 then []
    else (if IsTraceItem(data[0]) then [data[0].content] else []) + Traces(data[1..])
  }

  /** The traces are the contents of the trace items, in input order:
      unwrapping a concatenation unwraps each part. */
  lemma {:induction false} TracesAppend(xs: seq<Item>, ys: seq<Item>)
    ensures Traces(xs + ys) == Traces(xs) + Traces(ys)
    decreases |xs|
  {
    if |xs| == 0 {
      assert xs + ys == ys;
    } else {
      var h := if IsTraceItem(xs[0]) then [xs[0].content] else [];
      assert (xs + ys)[0] == xs[0];
      assert (xs + ys)[1..] == xs[1..] + ys;
      assert Traces(xs + ys) == h + Traces(xs[1..] + ys);
      TracesAppend(xs[1..], ys);
      assert Traces(xs) == h + Traces(xs[1..]);
    }
  }

  lemma {:induction false} TracesMembers(data: seq<Item>)
    ensures forall t :: t in Traces(data) <==> exists d :: d in data && IsTraceItem(d) && d.content == t
    decreases |data|
  {
    if |data| > 0 {
      TracesMembers(data[1..]);
      assert forall d :: d in data <==> d == data[0] || d in data[1..];
    }
  }

  /** `traces.find(d => d.type === 'hyde-generated')`. */
  function Hyde(traces: seq<Trace>): (r: Option<Trace>)
    ensures r.None? <==> forall k :: 0 <= k < |traces| ==> traces[k].traceType != "hyde-generated"
    ensures r.Some? ==> exists i :: (0 <= i < |traces| && traces[i] == r.value
      && r.value.traceType == "hyde-generated"
      && forall k :: 0 <= k < i ==> traces[k].traceType != "hyde-generated")
    decreases |traces|
  {
    if |traces| == 0 then None
    else if traces[0].traceType == "hyde-generated" then Some(traces[0])
    else
      var r := Hyde(traces[1..]);
      assert forall k :: 1 <= k < |traces| ==> traces[k] == traces[1..][k - 1];
      if r.Some? then
        ghost var i :| 0 <= i < |traces[1..]| && traces[1..][i] == r.value
          && forall k :: 0 <= k < i ==> traces[1..][k].traceType != "hyde-generated";
        assert traces[i + 1] == r.value;
        r
      else r
  }

  /** `traces.filter(d => d.type === 'react-evaluation')`. */
  function Evaluations(traces: seq<Trace>): (r: seq<Trace>)
    ensures |r| <= |traces|
    ensures forall t :: t in r <==> t in traces && t.traceType == "react-evaluation"
  {
    Filter(IsEvaluation, traces)
  }

  datatype EvaluationEntry = EvaluationEntry(verdict: string, reasoning: string, quote: Option<string>)

  /** The rendered panel: the HyDE text, the count in the header, and the
      evaluation entries. */
  datatype Panel = Panel(hyde: Option<string>, count: nat, entries: seq<EvaluationEntry>)

  function Label(ev: Trace): string {
    if ev.isRelevant then "Relevant Content Found" else "Discarded"
  }

  /** The quote shown under an evaluation. */
  function Quote(ev: Trace): (r: Option<string>)
    ensures r.Some? <==> ev.isRelevant && ev.quotes.Some? && |ev.quotes.value| > 0
    ensures r.Some? ==> r.value == ev.quotes.value[0]
  {
    if ev.isRelevant && ev.quotes.Some? && |ev.quotes.value| > 0 then Some(ev.quotes.value[0]) else None
  }

  function Entry(ev: Trace): EvaluationEntry {
    EvaluationEntry(Label(ev), ev.reasoning, Quote(ev))
  }

  /** `ResearchProcess({ data })`: `None` where the component returns
      `null`. */
  function Render(data: Option<seq<Item>>): (r: Option<Panel>)
    ensures data.None? ==> r.None?
    ensures r.Some? ==> r.value.count == |r.value.entries| <= |Traces(data.value)|
  {
    if data.None? then None
    else
      var traces := Traces(data.value);
      var hyde := Hyde(traces);
      var evaluations := Evaluations(traces);
      if |evaluations| == 0 && hyde.None? then None
      else
        Some(Panel(
          if hyde.Some? then Some(hyde.value.content) else None,
          |evaluations|,
          seq(|evaluations|, i requires 0 <= i < |evaluations| => Entry(evaluations[i]))))
  }

  /** Nothing is rendered exactly when there is no data, or neither an
      evaluation nor a HyDE trace; otherwise the header counts the
      evaluations, there is one entry per evaluation in order, labelled by
      relevance, and the HyDE text is the first HyDE trace's content. */
  lemma RenderContract(data: Option<seq<Item>>)
    ensures Render(data).None? <==>
      data.None?
      || (forall t :: t in Traces(data.value) ==> t.traceType != "react-evaluation" && t.traceType != "hyde-generated")
    ensures Render(data).Some? ==>
      var traces := Traces(data.value);
      var evaluations := Evaluations(traces);
      var p := Render(data).value;
      && p.count == |evaluations| == |p.entries|
      && (forall i :: 0 <= i < |p.entries| ==>
            && p.entries[i].verdict == (if evaluations[i].isRelevant then "Relevant Content Found" else "Discarded")
            && p.entries[i].reasoning == evaluations[i].reasoning
            && p.entries[i].quote == Quote(evaluations[i]))
      && (p.hyde.Some? <==> exists t :: t in traces && t.traceType == "hyde-generated")
      && (p.hyde.Some? ==> exists i :: (0 <= i < |traces| && traces[i].traceType == "hyde-generated"
            && p.hyde.value == traces[i].content
            && forall k :: 0 <= k < i ==> traces[k].traceType != "hyde-generated"))
  {
    if data.Some? {
      var traces := Traces(data.value);
      var evaluations := Evaluations(traces);
      if |evaluations| > 0 {
        assert evaluations[0] in evaluations;
      }
      if Hyde(traces).Some? {
        var h := Hyde(traces).value;
        assert h in traces;
      }
      if exists t :: t in traces && t.traceType == "react-evaluation" {
        var t :| t in traces && t.traceType == "react-evaluation";
        assert t in evaluations;
      }
    }
  }
}
