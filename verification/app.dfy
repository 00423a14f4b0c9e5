/**
 The state handlers of the top-level application component: registering a
 visitor, changing a visitor's status, and the staff login flag.

 The random id and the clock reading that registration stamps on a new
 record are parameters, since they come from `Math.random` and `Date.now`.
 */
module App {
  import opened Types

  // ---------------------------------------------------------------------------
  // Ids
  // ---------------------------------------------------------------------------

  /** The ids of the records, in list order. */
  function Ids(vs: seq<Visitor>): (ids: seq<string>)
    ensures |ids| == |vs|
    ensures forall i :: 0 <= i < |vs| ==> ids[i] == vs[i].id
  {
    seq(|vs|, i requires 0 <= i < |vs| => vs[i].id)
  }

  /** No two records share an id. */
  predicate UniqueIds(vs: seq<Visitor>)
  {
    forall i, j :: 0 <= i < j < |vs| ==> vs[i].id != vs[j].id
  }

  // ---------------------------------------------------------------------------
  // Registration
  // ---------------------------------------------------------------------------

  /** Registers a visit request: a PENDING record built from the form, the
      generated id and the clock value, put in front of the existing records. */
  function AddVisitor(vs: seq<Visitor>, f: VisitorForm, id: string, now: int): (r: seq<Visitor>)
    ensures |r| == |vs| + 1
    ensures r[0].status == PENDING
    ensures Form(r[0]) == f && r[0].id == id && r[0].createdAt == now
    ensures r[1..] == vs
  {
    [NewVisitor(f, id, now)] + vs
  }

  /** The list after registration has unique ids exactly when the list before
      did and the generated id was not already in use. */
  lemma {:induction false} AddVisitorKeepsIdsUnique(vs: seq<Visitor>, f: VisitorForm, id: string, now: int)
    ensures UniqueIds(AddVisitor(vs, f, id, now)) <==> UniqueIds(vs) && id !in Ids(vs)
  {
    var r := AddVisitor(vs, f, id, now);
    assert forall i :: 0 <= i < |vs| ==> r[i + 1] == vs[i];
    if UniqueIds(r) {
      forall i, j | 0 <= i < j < |vs|
        ensures vs[i].id != vs[j].id
      {
        assert r[i + 1].id != r[j + 1].id;
      }
    }
    if id in Ids(vs) {
      var k :| 0 <= k < |vs| && Ids(vs)[k] == id;
      assert r[0].id == r[k + 1].id;
    }
  }

  // ---------------------------------------------------------------------------
  // Status change
  // ---------------------------------------------------------------------------

  /** Sets the status of every record whose id is `id` to `s`; every other
      record, and every other field, is left as it was. */
  function UpdateStatus(vs: seq<Visitor>, id: string, s: VisitStatus): (r: seq<Visitor>)
    ensures |r| == |vs|
    ensures forall i :: 0 <= i < |vs| ==>
      r[i].id == vs[i].id && Form(r[i]) == Form(vs[i]) && r[i].createdAt == vs[i].createdAt
    ensures forall i :: 0 <= i < |vs| && vs[i].id == id ==> r[i].status == s
    ensures forall i :: 0 <= i < |vs| && vs[i].id != id ==> r[i] == vs[i]
    decreases |vs|
  {
    if |vs| == 0 then []
    else
      var head := if vs[0].id == id then vs[0].(status := s) else vs[0];
      [head] + UpdateStatus(vs[1..], id, s)
  }

  /** Updating keeps the list of ids, so it keeps them unique. */
  lemma UpdateStatusKeepsIds(vs: seq<Visitor>, id: string, s: VisitStatus)
    ensures Ids(UpdateStatus(vs, id, s)) == Ids(vs)
    ensures UniqueIds(UpdateStatus(vs, id, s)) <==> UniqueIds(vs)
  {
  }

  /** An id that no record carries leaves the list unchanged. */
  lemma {:induction false} UpdateUnknownIdIsNoop(vs: seq<Visitor>, id: string, s: VisitStatus)
    requires id !in Ids(vs)
    ensures UpdateStatus(vs, id, s) == vs
  {
    var r := UpdateStatus(vs, id, s);
    forall i | 0 <= i < |vs|
      ensures r[i] == vs[i]
    {
      assert Ids(vs)[i] == vs[i].id;
    }
  }

  /** No transition guard: a second update on the same id overrides the first. */
  lemma {:induction false} UpdateLastWriteWins(vs: seq<Visitor>, id: string, a: VisitStatus, b: VisitStatus)
    ensures UpdateStatus(UpdateStatus(vs, id, a), id, b) == UpdateStatus(vs, id, b)
  {
    var once := UpdateStatus(vs, id, a);
    var twice := UpdateStatus(once, id, b);
    var direct := UpdateStatus(vs, id, b);
    forall i | 0 <= i < |vs|
      ensures twice[i] == direct[i]
    {
      VisitorDeterminedByParts(twice[i], direct[i]);
    }
  }

  /** Updating twice with the same status is the same as updating once. */
  lemma UpdateIdempotent(vs: seq<Visitor>, id: string, s: VisitStatus)
    ensures UpdateStatus(UpdateStatus(vs, id, s), id, s) == UpdateStatus(vs, id, s)
  {
    UpdateLastWriteWins(vs, id, s, s);
  }

  /** A decided record can be sent back to PENDING: nothing forbids it. */
  lemma DecisionIsNotFinal(vs: seq<Visitor>, i: nat)
    requires i < |vs| && vs[i].status != PENDING
    ensures UpdateStatus(vs, vs[i].id, PENDING)[i].status == PENDING
  {
  }

  // ---------------------------------------------------------------------------
  // Staff login flag
  // ---------------------------------------------------------------------------

  /** The shared staff password. */
  const AdminPassword: string := "admin123"

  /** The message shown under the login form after a wrong password. */
  const WrongPasswordMessage: string := "Mật khẩu không đúng. Vui lòng thử lại."

  /** The staff flag of the application together with the login form's error text.
      The form exists only while the flag is down; it is created afresh, with
      an empty error text, whenever the flag drops. */
  datatype Session = Session(isAdmin: bool, loginError: string)

  /** Submits the login form: the right password raises the staff flag,
      any other input leaves it alone and sets the error text. */
  function SubmitPassword(st: Session, password: string): (r: Session)
    ensures password == AdminPassword ==> r.isAdmin && r.loginError == st.loginError
    ensures password != AdminPassword ==> r.isAdmin == st.isAdmin && r.loginError == WrongPasswordMessage
  {
    if password == AdminPassword then st.(isAdmin := true)
    else st.(loginError := WrongPasswordMessage)
  }

  /** Logging out always clears the staff flag, and the login form that
      reappears starts with no error text. */
  function Logout(st: Session): (r: Session)
    ensures !r.isAdmin
    ensures r.loginError == ""
  {
    Session(false, "")
  }

  /** From a logged-out session, submitting grants staff rights exactly for the password. */
  lemma LoginOnlyWithPassword(st: Session, password: string)
    requires !st.isAdmin
    ensures SubmitPassword(st, password).isAdmin <==> password == "admin123"
  {
  }

  /** Logging out undoes any login attempt: the session is back to a lowered
      flag and a fresh login form. */
  lemma LogoutAfterLogin(st: Session, password: string)
    ensures Logout(SubmitPassword(st, password)) == Session(false, "")
  {
  }
}
