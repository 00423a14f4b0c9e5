/**
 The visitor-facing status lookup: find a registration by its exact phone
 number, and map a status to the badge shown for it.
 */
module LookupPage {
  import opened Types
  import opened Builtins

  /** The first record, in list order, whose phone number equals the query
      exactly, or None when no record carries that phone number. */
  function FindByPhone(vs: seq<Visitor>, phone: string): (r: Option<Visitor>)
    ensures r.Some? ==> r.value.phoneNumber == phone
    ensures r.Some? ==> exists i :: 0 <= i < |vs| && vs[i] == r.value &&
                                    forall j :: 0 <= j < i ==> vs[j].phoneNumber != phone
    ensures r.None? <==> forall j :: 0 <= j < |vs| ==> vs[j].phoneNumber != phone
  {
    Find(vs, (v: Visitor) => v.phoneNumber == phone)
  }

  /** The record found is the first carrier of the phone number: any earlier
      position in the list carries a different one. */
  lemma FindByPhoneIsFirst(vs: seq<Visitor>, phone: string, i: nat)
    requires i < |vs| && vs[i].phoneNumber == phone
    ensures FindByPhone(vs, phone).Some?
    ensures exists k :: 0 <= k <= i && vs[k] == FindByPhone(vs, phone).value
  {
  }

  /** No normalisation: a query containing a space finds nothing in a list
      whose phone numbers contain no spaces, however close the digits are. */
  lemma LookupIsNotNormalised(vs: seq<Visitor>, q: string)
    requires ' ' in q
    requires forall v :: v in vs ==> ' ' !in v.phoneNumber
    ensures FindByPhone(vs, q).None?
  {
  }

  /** The state of the lookup page: the typed phone number, the last result
      and whether a search has been made. */
  datatype LookupState = LookupState(phone: string, result: Option<Visitor>, hasSearched: bool)

  /** Submitting the lookup form: the result becomes the first exact match
      for the typed phone number (or none), and the page records that a
      search was made. */
  function HandleSearch(st: LookupState, vs: seq<Visitor>): (r: LookupState)
    ensures r.hasSearched && r.phone == st.phone
    ensures r.result == FindByPhone(vs, st.phone)
    ensures r.result.Some? ==> r.result.value in vs && r.result.value.phoneNumber == st.phone
    ensures r.result.None? <==> forall j :: 0 <= j < |vs| ==> vs[j].phoneNumber != st.phone
  {
    LookupState(st.phone, FindByPhone(vs, st.phone), true)
  }

  // ---------------------------------------------------------------------------
  // Status badge
  // ---------------------------------------------------------------------------

  datatype Tone = Green | Red | Yellow

  /** The coloured badge shown next to a found record. */
  datatype Badge = Badge(tone: Tone, text: string)

  const ApprovedBadge: Badge := Badge(Green, "ĐÃ PHÊ DUYỆT")
  const RejectedBadge: Badge := Badge(Red, "TỪ CHỐI")
  const WaitingBadge: Badge := Badge(Yellow, "ĐANG CHỜ DUYỆT")

  /** The badge for a status: approved and rejected have their own badges,
      every other status falls through to the waiting badge. */
  function StatusBadge(s: VisitStatus): (b: Badge)
    ensures b == ApprovedBadge <==> s == APPROVED
    ensures b == RejectedBadge <==> s == REJECTED
    ensures b == WaitingBadge <==> s == PENDING
  {
    match s
    case APPROVED => ApprovedBadge
    case REJECTED => RejectedBadge
    case _ => WaitingBadge
  }

  /** The badge tells the status apart: different statuses get different badges. */
  lemma StatusBadgeInjective(a: VisitStatus, b: VisitStatus)
    ensures StatusBadge(a) == StatusBadge(b) <==> a == b
  {
  }
}
