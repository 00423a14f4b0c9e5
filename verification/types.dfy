/**
 The record types of the visitor store: the three-state visit status and
 the eight-field visitor record, plus the five-field registration form that
 a visitor fills in (the record minus its system-assigned fields).
 */
module Types {

  datatype Option<+T> = None | Some(value: T)

  /** The lifecycle state of a visit request. */
  datatype VisitStatus = PENDING | APPROVED | REJECTED

  /** One visit request. `createdAt` is an epoch-millisecond clock reading. */
  datatype Visitor = Visitor(
    id: string,
    fullName: string,
    phoneNumber: string,
    hostName: string,
    purpose: string,
    visitDateTime: string,
    status: VisitStatus,
    createdAt: int)

  /** The user-supplied part of a visitor: every field except id, status and createdAt. */
  datatype VisitorForm = VisitorForm(
    fullName: string,
    phoneNumber: string,
    hostName: string,
    purpose: string,
    visitDateTime: string)

  /** Every status, each listed once. */
  const AllStatuses: seq<VisitStatus> := [PENDING, APPROVED, REJECTED]

  /** The string value each enum member carries: its own name, so decoding
      the value gives the member back. */
  function Tag(s: VisitStatus): (t: string)
    ensures ParseTag(t) == Some(s)
  {
    match s
    case PENDING => "PENDING"
    case APPROVED => "APPROVED"
    case REJECTED => "REJECTED"
  }

  /** Decodes a string back into the enum member whose value it is, if any. */
  function ParseTag(t: string): (r: Option<VisitStatus>)
    ensures r.Some? <==> t == "PENDING" || t == "APPROVED" || t == "REJECTED"
  {
    if t == "PENDING" then Some(PENDING)
    else if t == "APPROVED" then Some(APPROVED)
    else if t == "REJECTED" then Some(REJECTED)
    else None
  }

  /** The enum is closed: exactly three distinct members and nothing else. */
  lemma StatusEnumClosed()
    ensures |AllStatuses| == 3
    ensures forall s: VisitStatus :: s in AllStatuses
    ensures forall i, j :: 0 <= i < j < |AllStatuses| ==> AllStatuses[i] != AllStatuses[j]
  {
    forall s: VisitStatus
      ensures s in AllStatuses
    {
      match s
      case PENDING => assert AllStatuses[0] == s;
      case APPROVED => assert AllStatuses[1] == s;
      case REJECTED => assert AllStatuses[2] == s;
    }
  }

  /** A decoded value re-encodes to the same string. */
  lemma ParseTagRoundTrip(t: string)
    ensures ParseTag(t).Some? ==> Tag(ParseTag(t).value) == t
  {
  }

  /** Encoding a status as its value is injective. */
  lemma TagInjective(a: VisitStatus, b: VisitStatus)
    ensures Tag(a) == Tag(b) <==> a == b
  {
  }

  /** The user-supplied part of a visitor record. */
  function Form(v: Visitor): (f: VisitorForm)
  {
    VisitorForm(v.fullName, v.phoneNumber, v.hostName, v.purpose, v.visitDateTime)
  }

  /** A fresh record: the form's fields, the given id and clock value, and status PENDING. */
  function NewVisitor(f: VisitorForm, id: string, now: int): (v: Visitor)
    ensures Form(v) == f
    ensures v.id == id && v.createdAt == now
    ensures v.status == PENDING
  {
    Visitor(id, f.fullName, f.phoneNumber, f.hostName, f.purpose, f.visitDateTime, PENDING, now)
  }

  /** A record is fully determined by its form, id, status and creation time. */
  lemma VisitorDeterminedByParts(a: Visitor, b: Visitor)
    ensures a == b <==>
      Form(a) == Form(b) && a.id == b.id && a.status == b.status && a.createdAt == b.createdAt
  {
  }

  /** Every pending record is a fresh record rebuilt from its own parts. */
  lemma NewVisitorFromParts(v: Visitor)
    ensures v.status == PENDING <==> NewVisitor(Form(v), v.id, v.createdAt) == v
  {
  }
}
