/**
 Properties that span the components: registration followed by lookup,
 a staff decision followed by lookup, and a decision removing a record from
 the staff's pending queue.
 */
module Workflow {
  import opened Types
  import opened Builtins
  import opened App
  import opened AdminPage
  import opened LookupPage

  /** Right after registering with phone number P, looking up P finds the new
      record, even when older records carry the same phone number, because
      new records are put in front. */
  lemma LookupAfterRegistration(vs: seq<Visitor>, f: VisitorForm, id: string, now: int)
    ensures FindByPhone(AddVisitor(vs, f, id, now), f.phoneNumber) == Some(NewVisitor(f, id, now))
    ensures FindByPhone(AddVisitor(vs, f, id, now), f.phoneNumber).value.id == id
  {
    FindHead(NewVisitor(f, id, now), vs, (v: Visitor) => v.phoneNumber == f.phoneNumber);
  }

  /** Submitting the lookup form with the phone number just registered shows
      the new, still pending record. */
  lemma LookupPageAfterRegistration(st: LookupState, vs: seq<Visitor>, f: VisitorForm, id: string, now: int)
    requires st.phone == f.phoneNumber
    ensures var r := HandleSearch(st, AddVisitor(vs, f, id, now));
            r.hasSearched && r.result == Some(NewVisitor(f, id, now)) &&
            StatusBadge(r.result.value.status) == WaitingBadge
  {
    LookupAfterRegistration(vs, f, id, now);
  }

  /** After registering and then deciding on the new record, looking up its
      phone number finds it with the decided status and its other fields intact. */
  lemma LookupAfterDecision(vs: seq<Visitor>, f: VisitorForm, id: string, now: int, s: VisitStatus)
    ensures var found := FindByPhone(UpdateStatus(AddVisitor(vs, f, id, now), id, s), f.phoneNumber);
            found.Some? && found.value.id == id && found.value.status == s &&
            Form(found.value) == f && found.value.createdAt == now
  {
    var added := AddVisitor(vs, f, id, now);
    var updated := UpdateStatus(added, id, s);
    assert updated == [updated[0]] + updated[1..];
    assert updated[0].phoneNumber == f.phoneNumber;
    FindHead(updated[0], updated[1..], (v: Visitor) => v.phoneNumber == f.phoneNumber);
  }

  /** Once a record is approved or rejected, no record with its id is left in
      the pending queue, whatever the search term. */
  lemma {:induction false} DecidedLeavesPending(lower: string -> string, vs: seq<Visitor>, id: string,
                                               s: VisitStatus, term: string)
    requires s != PENDING
    ensures forall v :: v in Pending(Search(lower, UpdateStatus(vs, id, s), term)) ==> v.id != id
  {
    var updated := UpdateStatus(vs, id, s);
    var queue := Pending(Search(lower, updated, term));
    forall v | v in queue
      ensures v.id != id
    {
      var k :| 0 <= k < |queue| && queue[k] == v;
      var filtered := Search(lower, updated, term);
      var j :| 0 <= j < |filtered| && filtered[j] == v;
      var i :| 0 <= i < |updated| && updated[i] == v;
      assert v.status == PENDING;
    }
  }

  /** A newly registered record heads the pending queue, and heads the search
      result for any term it matches. */
  lemma NewRecordHeadsViews(lower: string -> string, vs: seq<Visitor>, f: VisitorForm, id: string,
                            now: int, term: string)
    ensures Pending(AddVisitor(vs, f, id, now))[0] == NewVisitor(f, id, now)
    ensures Matches(lower, NewVisitor(f, id, now), term) ==>
              Search(lower, AddVisitor(vs, f, id, now), term)[0] == NewVisitor(f, id, now)
  {
    var nv := NewVisitor(f, id, now);
    FilterCons(nv, vs, IsPending);
    FilterCons(nv, vs, v => Matches(lower, v, term));
  }

  /** The registration scenario: a visitor registers, is found by phone number
      while pending, is approved, is then found approved and has left the
      pending queue. */
  lemma RegistrationScenario(lower: string -> string, vs: seq<Visitor>, id: string, now: int)
    ensures var f := VisitorForm("Nguyen Van A", "0901234567", "Mr. Binh", "Business meeting", "2024-06-01T09:00");
            var registered := AddVisitor(vs, f, id, now);
            var approved := UpdateStatus(registered, id, APPROVED);
            && FindByPhone(registered, "0901234567").value.status == PENDING
            && FindByPhone(approved, "0901234567").value.status == APPROVED
            && StatusBadge(FindByPhone(approved, "0901234567").value.status) == ApprovedBadge
            && (forall v :: v in Pending(Search(lower, approved, "")) ==> v.id != id)
  {
    var f := VisitorForm("Nguyen Van A", "0901234567", "Mr. Binh", "Business meeting", "2024-06-01T09:00");
    LookupAfterRegistration(vs, f, id, now);
    LookupAfterDecision(vs, f, id, now, APPROVED);
    DecidedLeavesPending(lower, AddVisitor(vs, f, id, now), id, APPROVED, "");
  }
}
