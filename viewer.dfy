/** The ingestion viewer: it maps each pipeline message to the stage the
    server has reached, and lets the user step the view forward, never past
    the server, through four stages and a final "complete" screen. */
module Viewer {
  import opened Wrappers
  import opened Strings

  /** The fields of the current pipeline event the viewer inspects; the
      event itself may be absent. */
  datatype Event = Event(eventType: Option<string>, status: Option<string>)

  /** Index of the "complete" screen, one past the four stages. */
  const FinalStep: nat := 4

  predicate IsSimilarity(e: Option<Event>) {
    e.Some? && e.value.eventType == Some("similarity")
  }

  predicate IsCompleteEvent(e: Option<Event>) {
    e.Some? && e.value.status == Some("complete")
  }

  /** The stage a message announces, tried rule by rule in order; `current`
      when no rule applies. */
  function Classify(message: string, event: Option<Event>, current: nat): (r: nat)
    ensures r <= FinalStep || r == current
  {
    if Includes(message, "Extracting") then 0
    else if Includes(message, "Saving raw") then 1
    else if Includes(message, "Embedding") || IsSimilarity(event) then 2
    else if Includes(message, "Re-embedding") then 2
    else if Includes(message, "Saving") && Includes(message, "embeddings") then 3
    else if message == "complete" || IsCompleteEvent(event) then FinalStep
    else current
  }

  /** No rule applies: the stage is left as it is. */
  predicate Unrecognised(message: string, event: Option<Event>) {
    && !Includes(message, "Extracting")
    && !Includes(message, "Saving raw")
    && !Includes(message, "Embedding") && !IsSimilarity(event)
    && !Includes(message, "Re-embedding")
    && !(Includes(message, "Saving") && Includes(message, "embeddings"))
    && !(message == "complete" || IsCompleteEvent(event))
  }

  /** A message is either unrecognised, and the stage stays, or it names a
      stage independently of the current one. */
  lemma ClassifyIsStageOrCurrent(message: string, event: Option<Event>, current: nat, other: nat)
    ensures Unrecognised(message, event) ==> Classify(message, event, current) == current
    ensures !Unrecognised(message, event) ==>
      Classify(message, event, current) <= FinalStep && Classify(message, event, current) == Classify(message, event, other)
  {
  }

  /** An earlier rule wins over a later one: a message mentioning
      "Extracting" is stage 0 whatever else it says or the event is. */
  lemma ExtractingWins(message: string, event: Option<Event>, current: nat)
    requires Includes(message, "Extracting")
    ensures Classify(message, event, current) == 0
  {
  }

  datatype StepStatus = Pending | Current | Completed

  datatype Step = Step(id: string, status: StepStatus)

  const StepIds: seq<string> := ["extract", "save_raw", "embed", "index"]

  /** `displayedSteps`: each of the four stages marked against the view. */
  function DisplayedSteps(view: nat): (r: seq<Step>)
    ensures |r| == |StepIds|
  {
    seq(|StepIds|, idx requires 0 <= idx < |StepIds| =>
      Step(StepIds[idx], if idx < view then Completed else if idx == view then Current else Pending))
  }

  /** Stages before the view are completed, the one at the view is
      current, the later ones pending; the stage ids keep their order; there
      is exactly one current stage before the final screen and none on it. */
  lemma DisplayedStepsContract(view: nat)
    ensures var r := DisplayedSteps(view);
      && (forall i :: 0 <= i < |r| ==> r[i].id == StepIds[i])
      && (forall i :: 0 <= i < |r| ==> (r[i].status == Completed <==> i < view))
      && (forall i :: 0 <= i < |r| ==> (r[i].status == Current <==> i == view))
      && (forall i :: 0 <= i < |r| ==> (r[i].status == Pending <==> i > view))
      && (forall i, j :: 0 <= i < |r| && 0 <= j < |r| && r[i].status == Current && r[j].status == Current ==> i == j)
      && ((exists i :: 0 <= i < |r| && r[i].status == Current) <==> view < FinalStep)
  {
    var r := DisplayedSteps(view);
    if view < FinalStep {
      assert r[view].status == Current;
    }
  }

  /** `Math.max(5, (currentViewIndex / 4) * 100)`. */
  function Progress(view: nat): (r: real)
    ensures 5.0 <= r
    ensures view <= FinalStep ==> r <= 100.0
  {
    var p := (view as real) / (FinalStep as real) * 100.0;
    if p > 5.0 then p else 5.0
  }

  /** The bar never shows less than 5, is full on the final screen, shows
      25 per stage once the view has moved, and grows with the view. */
  lemma ProgressContract(view: nat, later: nat)
    requires view <= later
    ensures Progress(view) >= 5.0
    ensures view == FinalStep ==> Progress(view) == 100.0
    ensures view >= 1 ==> Progress(view) == (view as real) * 25.0
    ensures Progress(view) <= Progress(later)
  {
    assert (view as real) / 4.0 * 100.0 == (view as real) * 25.0;
    assert (later as real) / 4.0 * 100.0 == (later as real) * 25.0;
  }

  class RagProcessViewer {
    var serverStepIndex: nat
    var currentViewIndex: nat

    /** The view never runs past the server's stage nor past the final
        screen. */
    ghost predicate Valid()
      reads this
    {
      currentViewIndex <= serverStepIndex <= FinalStep
    }

    constructor ()
      ensures Valid()
      ensures serverStepIndex == 0 && currentViewIndex == 0
    {
      serverStepIndex, currentViewIndex := 0, 0;
    }

    /** The message effect: an empty message does nothing; otherwise the
        server stage moves to the classified one only when that is later. */
    method OnMessage(message: string, event: Option<Event>)
      requires Valid()
      modifies this`serverStepIndex
      ensures Valid()
      ensures message == "" ==> serverStepIndex == old(serverStepIndex)
      ensures message != "" ==>
        var next := Classify(message, event, old(serverStepIndex));
        serverStepIndex == if next > old(serverStepIndex) then next else old(serverStepIndex)
      ensures serverStepIndex >= old(serverStepIndex)
    {
      if message == "" {
        return;
      }
      var newServerStep := Classify(message, event, serverStepIndex);
      if newServerStep > serverStepIndex {
        serverStepIndex := newServerStep;
      }
    }

    /** `handleNext`: one stage forward, up to the final screen. */
    method HandleNext()
      modifies this`currentViewIndex
      ensures currentViewIndex == if old(currentViewIndex) < FinalStep then old(currentViewIndex) + 1 else old(currentViewIndex)
      ensures old(currentViewIndex) <= FinalStep ==> currentViewIndex <= FinalStep
    {
      if currentViewIndex < FinalStep {
        currentViewIndex := currentViewIndex + 1;
      }
    }

    /** The Next button is disabled once the view has caught up with the
        server. */
    function NextDisabled(): bool
      reads this
    {
      currentViewIndex >= serverStepIndex
    }

    /** A click on Next: `handleNext`, unless the button is disabled. */
    method ClickNext()
      requires Valid()
      modifies this`currentViewIndex
      ensures Valid()
      ensures old(NextDisabled()) ==> currentViewIndex == old(currentViewIndex)
      ensures !old(NextDisabled()) ==> currentViewIndex == old(currentViewIndex) + 1
    {
      if !NextDisabled() {
        HandleNext();
      }
    }
  }
}
