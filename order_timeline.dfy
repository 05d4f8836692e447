/** The order-status timeline: five steps from payment to delivery. The
    step matching the order's status is current, it and every earlier step
    are completed, and the connector into a step is highlighted when that
    step is completed. A cancelled order shows a notice instead. */
module OrderTimeline {
  import opened Common

  const StepStatuses: seq<string> := ["PENDING_PAYMENT", "PAYMENT_VERIFIED", "PROCESSING", "SHIPPED", "DELIVERED"]
  const Cancelled: string := "CANCELLED"

  /** `connector` is absent before the first step, otherwise whether it is
      highlighted. */
  datatype StepView = StepView(completed: bool, current: bool, connector: Option<bool>)

  datatype Timeline = CancelledNotice | Steps(views: seq<StepView>)

  /** `steps.findIndex(s => s.status === status)`. */
  function CurrentStepIndex(status: string): (i: int)
    ensures -1 <= i < |StepStatuses|
    ensures 0 <= i ==> StepStatuses[i] == status && forall j :: 0 <= j < i ==> StepStatuses[j] != status
    ensures i == -1 <==> status !in StepStatuses
  {
    FindFrom(status, 0)
  }

  function FindFrom(status: string, from: nat): (i: int)
    requires from <= |StepStatuses|
    ensures -1 <= i < |StepStatuses|
    ensures 0 <= i ==> from <= i && StepStatuses[i] == status && forall j :: from <= j < i ==> StepStatuses[j] != status
    ensures i == -1 <==> forall j :: from <= j < |StepStatuses| ==> StepStatuses[j] != status
    decreases |StepStatuses| - from
  {
    if from == |StepStatuses| then -1
    else if StepStatuses[from] == status then from
    else FindFrom(status, from + 1)
  }

  function View(index: nat, current: int): StepView
  {
    StepView(index as int <= current, index as int == current, if index != 0 then Some(index as int <= current) else None)
  }

  function Views(n: nat, current: int): (vs: seq<StepView>)
    ensures |vs| == n && forall i :: 0 <= i < n ==> vs[i] == View(i, current)
  {
    if n == 0 then [] else Views(n - 1, current) + [View(n - 1, current)]
  }

  function Render(status: string): Timeline
  {
    if status == Cancelled then CancelledNotice
    else Steps(Views(|StepStatuses|, CurrentStepIndex(status)))
  }

  /** A cancelled order shows no steps; any other status shows all five. */
  lemma CancelledShortCircuits(status: string)
    ensures Render(status) == CancelledNotice <==> status == Cancelled
    ensures status != Cancelled ==> |Render(status).views| == |StepStatuses|
  {
  }

  /** The completed steps are exactly the steps up to the one matching the
      status, so they form a prefix and an unknown status completes none;
      exactly one step is current for a known status and none for an
      unknown one; the connector into step `i > 0` is highlighted iff step
      `i` is completed. */
  lemma TimelineSpec(status: string)
    requires status != Cancelled
    ensures var vs := Render(status).views;
            var cur := CurrentStepIndex(status);
            && (forall i :: 0 <= i < |vs| ==> (vs[i].completed <==> i <= cur))
            && (forall i, j :: 0 <= i <= j < |vs| && vs[j].completed ==> vs[i].completed)
            && (status !in StepStatuses ==> forall i :: 0 <= i < |vs| ==> !vs[i].completed && !vs[i].current)
            && (forall i, j :: 0 <= i < |vs| && 0 <= j < |vs| && vs[i].current && vs[j].current ==> i == j)
            && (status in StepStatuses ==> vs[cur].current && StepStatuses[cur] == status)
            && vs[0].connector.None?
            && (forall i :: 0 < i < |vs| ==> vs[i].connector == Some(vs[i].completed))
  {
  }

  /** A delivered order completes every step, a new one only the first. */
  lemma TimelineExamples()
    ensures forall i :: 0 <= i < 5 ==> Render("DELIVERED").views[i].completed
    ensures Render("PENDING_PAYMENT").views[0].current
    ensures forall i :: 1 <= i < 5 ==> !Render("PENDING_PAYMENT").views[i].completed
  {
    assert CurrentStepIndex("DELIVERED") == 4 by {
      assert StepStatuses[4] == "DELIVERED";
    }
    assert CurrentStepIndex("PENDING_PAYMENT") == 0 by {
      assert StepStatuses[0] == "PENDING_PAYMENT";
    }
  }
}
