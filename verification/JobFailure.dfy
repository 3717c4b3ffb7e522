/** The message of a failed genclust Job: the cause lives in a pod that may be collected any time. */
module JobFailure {
  import opened Wrappers

  datatype Condition = Condition(status: string, reason: string, message: string)

  /** One reconcile of a failed Job: the cause its pod shows ("" when the pod is gone) and the Job's own message. */
  datatype Look = Look(podCause: string, jobMessage: string)

  predicate Captured(c: Option<Condition>) {
    c.Some? && c.value.status == "False" && c.value.reason == "JobFailed" && c.value.message != ""
  }

  /** chooseJobFailedMessage. */
  function ChooseMessage(podCause: string, existing: Option<Condition>, jobMessage: string): string {
    if podCause != "" then "genclust failed: " + podCause
    else if Captured(existing) then existing.value.message
    else "genclust Job failed: " + jobMessage
  }

  function Report(c: Option<Condition>, l: Look): Option<Condition> {
    Some(Condition("False", "JobFailed", ChooseMessage(l.podCause, c, l.jobMessage)))
  }

  /** The condition after a row of reconciles. */
  function After(c: Option<Condition>, looks: seq<Look>): Option<Condition> {
    if looks == [] then c else Report(After(c, looks[..|looks| - 1]), looks[|looks| - 1])
  }

  /** The Warning fires on every change of the condition, its generation being fixed. */
  function Warnings(c: Option<Condition>, looks: seq<Look>): nat {
    if looks == [] then 0
    else
      var n := |looks| - 1;
      Warnings(c, looks[..n]) + if After(c, looks[..n]) != After(c, looks) then 1 else 0
  }

  /** The last cause a pod has shown, "" if none has. */
  function LastCause(looks: seq<Look>): string {
    if looks == [] then ""
    else if looks[|looks| - 1].podCause != "" then looks[|looks| - 1].podCause
    else LastCause(looks[..|looks| - 1])
  }

  /** A cause, once seen, stays in the message until a pod shows another one, whatever becomes of the pods; the
      generic message appears only when no cause was ever seen, and then it stays as it first was. */
  lemma {:induction false} CauseIsNeverLost(c: Option<Condition>, looks: seq<Look>)
    requires looks != []
    ensures After(c, looks) == Some(Condition("False", "JobFailed",
      if LastCause(looks) != "" then "genclust failed: " + LastCause(looks)
      else if c.Some? && c.value.status == "False" && c.value.reason == "JobFailed" && c.value.message != "" then c.value.message
      else "genclust Job failed: " + looks[0].jobMessage))
  {
    var before := looks[..|looks| - 1];
    if before != [] {
      CauseIsNeverLost(c, before);
      assert before[0] == looks[0];
    }
  }

  /** The number of times a pod shows a cause other than the last one seen. */
  function NewCauses(looks: seq<Look>): nat {
    if looks == [] then 0
    else
      var n := |looks| - 1;
      NewCauses(looks[..n]) + if looks[n].podCause != "" && looks[n].podCause != LastCause(looks[..n]) then 1 else 0
  }

  /** The Warning does not repeat: beyond the first report it fires for new causes only. */
  lemma {:induction false} WarningsAreBounded(c: Option<Condition>, looks: seq<Look>)
    ensures Warnings(c, looks) <= 1 + NewCauses(looks)
  {
    if looks != [] {
      var n := |looks| - 1;
      var before := looks[..n];
      WarningsAreBounded(c, before);
      if before != [] {
        CauseIsNeverLost(c, before);
        CauseIsNeverLost(c, looks);
        assert before[0] == looks[0];
      }
    }
  }

  /** After any other condition it fires exactly for the first report, and then for every new cause. */
  lemma {:induction false} WarningsAreExact(c: Option<Condition>, looks: seq<Look>)
    requires c.None? || c.value.status != "False" || c.value.reason != "JobFailed" || c.value.message == ""
    ensures Warnings(c, looks) ==
      if looks == [] then 0 else 1 + NewCauses(looks) - if looks[0].podCause != "" then 1 else 0
  {
    if looks != [] {
      var n := |looks| - 1;
      var before := looks[..n];
      WarningsAreExact(c, before);
      CauseIsNeverLost(c, looks);
      if before == [] {
        assert looks == [looks[0]];
        assert NewCauses(looks) == if looks[0].podCause != "" then 1 else 0;
      } else {
        CauseIsNeverLost(c, before);
        assert before[0] == looks[0];
        WordingTellsCauses(LastCause(before), LastCause(looks), looks[0].jobMessage);
      }
    }
  }

  /** The two forms of the message never agree, and a cause can be read off its message. */
  lemma WordingTellsCauses(a: string, b: string, jobMessage: string)
    ensures "genclust failed: " + a == "genclust failed: " + b <==> a == b
    ensures "genclust failed: " + b != "genclust Job failed: " + jobMessage
  {
    assert ("genclust failed: " + b)[9] == 'f' && ("genclust Job failed: " + jobMessage)[9] == 'J';
    assert ("genclust failed: " + a)[17..] == a && ("genclust failed: " + b)[17..] == b;
  }
}
