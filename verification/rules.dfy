/** How both text validators turn an ordered list of rules into a verdict:
    start from "Approved" with no remarks; each rule that fires appends its
    remark, and a hard remark also sets the status to "Not Approved". */
module Rules {
  import opened Wrappers

  datatype Status = Approved | NotApproved

  /** The status as it is written into the results table. */
  function StatusText(s: Status): string
  {
    if s == Approved then "Approved" else "Not Approved"
  }

  /** A rule's remark. A hard remark fails the invoice; an informational one
      (`hard == false`) is only reported. */
  datatype Remark = Remark(message: string, hard: bool)

  datatype Outcome = Outcome(status: Status, remarks: seq<Remark>)

  /** One rule applied to the running outcome, as each `if` block of the source
      does it. */
  function Step(o: Outcome, fired: Option<Remark>): Outcome
  {
    match fired
    case None => o
    case Some(r) => Outcome(if r.hard then NotApproved else o.status, o.remarks + [r])
  }

  /** Some rule of the list fired with a hard remark. */
  predicate AnyHard(checks: seq<Option<Remark>>)
  {
    exists k :: 0 <= k < |checks| && checks[k].Some? && checks[k].value.hard
  }

  /** The rules run in order from `status = "Approved"`, `remarks = []`. The
      remarks are exactly the fired ones in rule order, and the status is
      "Not Approved" exactly when a hard rule fired. */
  function Run(checks: seq<Option<Remark>>): (o: Outcome)
    ensures o.remarks == Somes(checks)
    ensures o.status == NotApproved <==> AnyHard(checks)
  {
    if |checks| == 0 then Outcome(Approved, [])
    else
      var init := checks[..|checks| - 1];
      assert forall k :: 0 <= k < |init| ==> init[k] == checks[k];
      Step(Run(init), checks[|checks| - 1])
  }

  /** The verdict invariant: "Not Approved" exactly when a hard remark is
      present; informational remarks never change the status. */
  lemma StatusMatchesRemarks(checks: seq<Option<Remark>>)
    ensures var o := Run(checks);
            o.status == NotApproved <==> exists k :: 0 <= k < |o.remarks| && o.remarks[k].hard
  {
    var o := Run(checks);
    SomesSound(checks);
    if AnyHard(checks) {
      var k :| 0 <= k < |checks| && checks[k].Some? && checks[k].value.hard;
      SomesComplete(checks, k);
    }
  }

  function Messages(remarks: seq<Remark>): seq<string>
  {
    seq(|remarks|, k requires 0 <= k < |remarks| => remarks[k].message)
  }

  /** The remark of a rule that fires when `cond` holds. */
  function FiresIf(cond: bool, r: Remark): Option<Remark>
  {
    if cond then Some(r) else None
  }
}
