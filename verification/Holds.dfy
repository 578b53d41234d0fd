/** The fail-to-human hold queue: pending once, then settled for good. */
module Holds {
  import opened Wrappers

  datatype Status = Pending | Approved | Rejected | TimedOut | Aborted

  datatype Subject = Subject(customer: string, trajectoryId: string, spanId: string, ruleId: string,
                             policyVersion: string, proposedAction: string, reason: string)

  datatype Hold = Hold(subject: Subject, status: Status, createdAt: int, expiresAt: int,
                       resolvedAt: Option<int>, approver: Option<string>, decisionReason: string)

  type Queue = map<string, Hold>

  datatype Response = BadRequest | Forbidden | Conflict | Resolved(hold: Hold)

  function CreateStep(q: Queue, id: string, subject: Subject, now: int, timeout: nat): Queue {
    q[id := Hold(subject, Pending, now, now + timeout, None, None, "")]
  }

  function ResolveStep(q: Queue, id: string, status: Status, approver: Option<string>, reason: string, now: int): Queue {
    if id !in q || q[id].status != Pending then q
    else q[id := q[id].(status := status, approver := approver, decisionReason := reason, resolvedAt := Some(now))]
  }

  predicate Due(h: Hold, cutoff: int) {
    h.status == Pending && h.expiresAt <= cutoff
  }

  function ExpireStep(q: Queue, cutoff: int): Queue {
    map id | id in q
      :: if Due(q[id], cutoff) then q[id].(status := TimedOut, resolvedAt := Some(cutoff), decisionReason := "hold expired")
         else q[id]
  }

  /** The reviewer's request: only the two review outcomes, and only within a bound reviewer's own tenant. */
  function ResponseTo(q: Queue, id: string, decision: string, reviewer: Option<string>): Response {
    if decision != "approved" && decision != "rejected" then BadRequest
    else if reviewer.Some? && id in q && q[id].subject.customer != reviewer.value then Forbidden
    else if id !in q || q[id].status != Pending then Conflict
    else Resolved(q[id])
  }

  function ReviewStatus(decision: string): Status {
    if decision == "approved" then Approved else Rejected
  }

  function ReviewStep(q: Queue, id: string, decision: string, reviewer: Option<string>, approver: Option<string>,
                      reason: string, now: int): Queue {
    if ResponseTo(q, id, decision, reviewer).Resolved?
    then ResolveStep(q, id, ReviewStatus(decision), approver, reason, now)
    else q
  }

  class HoldQueue {
    var holds: Queue

    constructor ()
      ensures holds == map[]
    {
      holds := map[];
    }

    method Create(id: string, subject: Subject, now: int, timeout: nat)
      requires id !in holds
      modifies this
      ensures holds == CreateStep(old(holds), id, subject, now, timeout)
      ensures id in holds && holds[id].status == Pending && holds[id].subject == subject
      ensures holds[id].createdAt == now && holds[id].expiresAt - now == timeout
      ensures forall k :: k in old(holds) ==> k in holds && holds[k] == old(holds)[k]
    {
      var hold := Hold(subject, Pending, now, now + timeout, None, None, "");
      holds := holds[id := hold];
    }

    method Resolve(id: string, status: Status, approver: Option<string>, reason: string, now: int) returns (r: Option<Hold>)
      modifies this
      ensures holds == ResolveStep(old(holds), id, status, approver, reason, now)
      ensures r.Some? <==> id in old(holds) && old(holds)[id].status == Pending
      ensures r.Some? ==> id in holds && r.value == holds[id]
    {
      if id !in holds || holds[id].status != Pending {
        return None;
      }
      var hold := holds[id];
      hold := hold.(status := status);
      hold := hold.(approver := approver, decisionReason := reason);
      hold := hold.(resolvedAt := Some(now));
      holds := holds[id := hold];
      r := Some(hold);
    }

    /** One bulk update of everything due, and how many rows it changed. */
    method ExpireDue(cutoff: int) returns (n: nat)
      modifies this
      ensures holds == ExpireStep(old(holds), cutoff)
      ensures n == |set id | id in old(holds) && old(holds)[id].status == Pending && old(holds)[id].expiresAt <= cutoff|
    {
      var due := set id | id in holds && Due(holds[id], cutoff);
      n := |due|;
      assert due == set id | id in holds && holds[id].status == Pending && holds[id].expiresAt <= cutoff;
      holds := map id | id in holds
        :: if id in due then holds[id].(status := TimedOut, resolvedAt := Some(cutoff), decisionReason := "hold expired")
           else holds[id];
    }

    method ResolveHold(id: string, decision: string, reviewer: Option<string>, approver: Option<string>, reason: string, now: int)
        returns (r: Response)
      modifies this
      ensures holds == ReviewStep(old(holds), id, decision, reviewer, approver, reason, now)
      ensures r.BadRequest? <==> decision !in {"approved", "rejected"}
      ensures r.Forbidden? <==> !r.BadRequest? && reviewer.Some? && id in old(holds) && old(holds)[id].subject.customer != reviewer.value
      ensures r.Conflict? <==> !r.BadRequest? && !r.Forbidden? && !(id in old(holds) && old(holds)[id].status == Pending)
      ensures !r.Resolved? ==> holds == old(holds)
      ensures r.Resolved? ==> id in holds && r.hold == holds[id] && holds[id].subject == old(holds)[id].subject
      ensures r.Resolved? ==> holds[id].approver == approver && holds[id].decisionReason == reason && holds[id].resolvedAt == Some(now)
      ensures r.Resolved? ==> (holds[id].status == Approved <==> decision == "approved")
      ensures r.Resolved? ==> (holds[id].status == Rejected <==> decision == "rejected")
      ensures forall k :: k in old(holds) && k != id ==> k in holds && holds[k] == old(holds)[k]
    {
      if decision != "approved" && decision != "rejected" {
        return BadRequest;
      }
      if reviewer.Some? && id in holds && holds[id].subject.customer != reviewer.value {
        return Forbidden;
      }
      var hold := Resolve(id, ReviewStatus(decision), approver, reason, now);
      if hold.None? {
        return Conflict;
      }
      r := Resolved(hold.value);
    }
  }

  // ---- what every change keeps ----

  /** Holds never vanish, never change their subject, and never change at all once they have left pending. */
  ghost predicate Settles(before: Queue, after: Queue) {
    forall id :: id in before ==>
      id in after && after[id].subject == before[id].subject && after[id].expiresAt == before[id].expiresAt
      && (before[id].status != Pending ==> after[id] == before[id])
  }

  lemma SettlesTransitive(a: Queue, b: Queue, c: Queue)
    requires Settles(a, b) && Settles(b, c)
    ensures Settles(a, c)
  {
  }

  lemma {:induction false} ReviewSettles(q: Queue, id: string, decision: string, reviewer: Option<string>,
                                         approver: Option<string>, reason: string, now: int)
    ensures var q' := ReviewStep(q, id, decision, reviewer, approver, reason, now);
            Settles(q, q') && forall k :: k in q' && q'[k] != q[k] ==>
              k == id && q[k].status == Pending
              && q'[k].status == if decision == "approved" then Approved else Rejected
    ensures var q' := ReviewStep(q, id, decision, reviewer, approver, reason, now);
            id in q && q[id].status == Pending ==>
              (q'[id] == q[id] <==>
               decision !in {"approved", "rejected"} || (reviewer.Some? && reviewer.value != q[id].subject.customer))
  {
  }

  /** Expiry settles exactly the pending holds whose time is up, so a late approval and an expiry exclude each other. */
  lemma {:induction false} ExpireSettles(q: Queue, cutoff: int)
    ensures var q' := ExpireStep(q, cutoff);
            Settles(q, q') && q'.Keys == q.Keys
            && forall k :: k in q ==>
                 && (q'[k] == q[k] <==> q[k].status != Pending || cutoff < q[k].expiresAt)
                 && (q'[k] != q[k] ==> q'[k].status == TimedOut && q'[k].resolvedAt == Some(cutoff))
  {
  }

  // ---- what a poll sees ----

  datatype ResolutionBody = ResolutionBody(status: string, decision: Option<string>)

  function StatusText(s: Status): string {
    match s
    case Pending => "pending"
    case Approved => "approved"
    case Rejected => "rejected"
    case TimedOut => "timed_out"
    case Aborted => "aborted"
  }

  function ResolutionOf(h: Hold): (body: ResolutionBody)
    ensures body.decision.None? <==> h.status == Pending
    ensures body.decision == Some("allow") <==> h.status == Approved
    ensures body.decision in {None, Some("allow"), Some("block")}
    ensures body.status == "pending" <==> h.status == Pending
    ensures body.status == "approved" <==> h.status == Approved
    ensures body.status == "rejected" <==> h.status == Rejected
    ensures body.status == "timed_out" <==> h.status == TimedOut
  {
    ResolutionBody(StatusText(h.status),
                   match h.status
                   case Pending => None
                   case Approved => Some("allow")
                   case _ => Some("block"))
  }
}
