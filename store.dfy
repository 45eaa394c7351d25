/** The four tables as one in-memory store, and each form handler of the
    admin and student screens as one method on it: the handler loads the
    workbook, changes the tables and saves all four back, which here is a
    single state change of the store. */
module Store {
  import opened Seqs
  import opened Records
  import opened Lookups

  /** Why a handler refused: a required field was left empty, the StudentNo
      is taken, nothing is selected (the empty StudentNo), or no row has the
      selected StudentNo. */
  datatype Error = MissingRequired | DuplicateStudentNo | NoSelection | NotFound

  /** The registration form's checks, in the order the handler makes them. */
  function CheckNewStudent(students: seq<Student>, info: StudentInfo, password: string): (r: Option<Error>)
    ensures r == Some(MissingRequired) <==> info.name == "" || info.studentNo == "" || password == ""
    ensures r == Some(DuplicateStudentNo) <==>
      info.name != "" && info.studentNo != "" && password != "" &&
      exists i :: 0 <= i < |students| && students[i].info.studentNo == info.studentNo
    ensures r.None? <==>
      info.name != "" && info.studentNo != "" && password != "" &&
      forall i :: 0 <= i < |students| ==> students[i].info.studentNo != info.studentNo
    ensures r != Some(NotFound) && r != Some(NoSelection)
  {
    if info.name == "" || info.studentNo == "" || password == "" then Some(MissingRequired)
    else if FirstIndex(students, StudentHasNo(info.studentNo)).Some? then Some(DuplicateStudentNo)
    else None
  }

  /** The row the registration form appends when its checks pass. */
  function NewStudent(students: seq<Student>, info: StudentInfo, password: string): (s: Student)
    ensures forall i :: 0 <= i < |students| ==> students[i].id < s.id
    ensures s.info == info && s.password == password
  {
    Student(NextId(students, StudentKey), info, password)
  }

  /** A student registered with unique StudentNos can log in with the
      StudentNo and Password just entered, and gets the new row's ID. */
  lemma RegisteredStudentCanLogIn(students: seq<Student>, info: StudentInfo, password: string)
    requires DistinctBy(students, StudentNoKey)
    requires CheckNewStudent(students, info, password).None?
    ensures LoginStudent(students + [NewStudent(students, info, password)], info.studentNo, password)
      == Some(NextId(students, StudentKey))
  {
    var s := NewStudent(students, info, password);
    var t := students + [s];
    DistinctByAppend(students, StudentNoKey, s);
    assert t[|students|] == s;
    LoginWithUniqueNumbers(t, info.studentNo, password, |students|);
  }

  /** The Points stored for an entered value: the value itself for a merit
      (상점), its negated absolute value for anything else. */
  function ScorePoints(category: string, entered: int): (p: int)
    ensures category == Merit ==> p == entered
    ensures category != Merit ==> p <= 0 && (p == entered || p == -entered)
  {
    if category == Merit then entered
    else if entered < 0 then entered else -entered
  }

  /** A demerit of 3 is stored as -3 and so is a demerit entered as -3; a merit entered as -3 stays -3. */
  lemma ScorePointsExamples()
    ensures ScorePoints(Demerit, 3) == -3 && ScorePoints(Demerit, -3) == -3
    ensures ScorePoints(Merit, 3) == 3 && ScorePoints(Merit, -3) == -3
  {
    assert Merit != Demerit;
  }

  /** The rows a student may cancel: that student's own outings whose Status is
      신청 or 대기, in table order. */
  function CancelChoices(outings: seq<Outing>, sid: int): (choices: seq<Outing>)
    ensures forall o :: o in choices <==>
      o in outings && o.studentId == sid && (o.status == Requested || o.status == Pending)
  {
    Filter(outings, OutingCancellableBy(sid))
  }

  /** While Outing IDs are unique, the row the cancel button changes (the
      first row carrying the chosen ID) is the chosen row itself, so it is the
      student's own and is 신청 or 대기. */
  lemma CancelHitsChosenRow(outings: seq<Outing>, sid: int, chosen: Outing)
    requires DistinctBy(outings, OutingKey)
    requires chosen in CancelChoices(outings, sid)
    ensures FirstIndex(outings, OutingHasId(chosen.id)).Some?
    ensures
      var i := FirstIndex(outings, OutingHasId(chosen.id)).value;
      outings[i] == chosen && outings[i].studentId == sid &&
      (outings[i].status == Requested || outings[i].status == Pending)
  {
    var k :| 0 <= k < |outings| && outings[k] == chosen;
    assert OutingHasId(chosen.id)(outings[k]);
    var i := FirstIndex(outings, OutingHasId(chosen.id)).value;
    assert !(k < i);
    assert !(i < k);
  }

  /** The IDs present in the Students table. */
  function IdsOf(students: seq<Student>): set<int>
  {
    set s | s in students :: s.id
  }

  /** Removing the rows with ID `sid` removes exactly that ID. */
  lemma IdsAfterDelete(students: seq<Student>, sid: int)
    ensures IdsOf(Filter(students, StudentOtherId(sid))) == IdsOf(students) - {sid}
  {
    var rest := Filter(students, StudentOtherId(sid));
    forall x | x in IdsOf(students) - {sid} ensures x in IdsOf(rest) {
      var i :| 0 <= i < |students| && students[i].id == x;
      assert students[i] in rest;
    }
    forall x | x in IdsOf(rest) ensures x in IdsOf(students) - {sid} {
      var i :| 0 <= i < |rest| && rest[i].id == x;
      assert rest[i] in rest;
    }
  }

  /** A delete with cascade leaves no row naming a StudentID the Students table does not hold. */
  lemma CascadeKeepsLinked(students: seq<Student>, outings: seq<Outing>, scores: seq<Score>, payments: seq<Payment>, sid: int)
    requires Linked(students, outings, scores, payments)
    ensures Linked(Filter(students, StudentOtherId(sid)), Filter(outings, OutingNotOf(sid)),
                   Filter(scores, ScoreNotOf(sid)), Filter(payments, PaymentNotOf(sid)))
  {
    var ids := IdsOf(Filter(students, StudentOtherId(sid)));
    IdsAfterDelete(students, sid);
    var os, cs, ps := Filter(outings, OutingNotOf(sid)), Filter(scores, ScoreNotOf(sid)), Filter(payments, PaymentNotOf(sid));
    forall o | o in os ensures o.studentId in ids {
      assert o in outings && OutingNotOf(sid)(o);
    }
    forall c | c in cs ensures c.studentId in ids {
      assert c in scores && ScoreNotOf(sid)(c);
    }
    forall p | p in ps ensures p.studentId in ids {
      assert p in payments && PaymentNotOf(sid)(p);
    }
  }

  /** A delete without cascade leaves the student's rows in place, pointing at
      an ID that no longer joins to any name. */
  lemma PlainDeleteLeavesOrphans(students: seq<Student>, outings: seq<Outing>, scores: seq<Score>, payments: seq<Payment>, k: int)
    requires 0 <= k < |scores|
    ensures !Linked(Filter(students, StudentOtherId(scores[k].studentId)), outings, scores, payments)
    ensures NameBySid(Filter(students, StudentOtherId(scores[k].studentId)), scores[k].studentId) == ""
  {
    var sid := scores[k].studentId;
    IdsAfterDelete(students, sid);
    assert scores[k] in scores;
    DeletedIdHasEmptyName(students, sid);
  }

  /** IDs are reused: when the deleted student held the largest ID and the row
      with the ID one below it remains, the next registration receives the
      deleted ID, and every row the delete left behind under that ID now joins
      to the new student's name. */
  lemma IdReusedAfterDelete(students: seq<Student>, sid: int, j: int, info: StudentInfo, password: string)
    requires forall i :: 0 <= i < |students| ==> students[i].id <= sid
    requires 0 <= j < |students| && students[j].id == sid - 1
    ensures
      var rest := Filter(students, StudentOtherId(sid));
      var s := NewStudent(rest, info, password);
      s.id == sid && NameBySid(rest + [s], sid) == info.name
  {
    var rest := Filter(students, StudentOtherId(sid));
    forall i | 0 <= i < |rest| ensures rest[i].id < sid {
      assert rest[i] in rest && rest[i] in students;
    }
    assert students[j] in students && StudentOtherId(sid)(students[j]);
    assert students[j] in rest;
    NextIdIsBound(rest, sid, students[j]);
    NameOfAppended(rest, NewStudent(rest, info, password));
  }

  /** A table whose IDs are all below `sid`, one of them `sid - 1`, hands out `sid` next. */
  lemma NextIdIsBound(rest: seq<Student>, sid: int, s: Student)
    requires forall i :: 0 <= i < |rest| ==> rest[i].id < sid
    requires s in rest && s.id == sid - 1
    ensures NextId(rest, StudentKey) == sid
  {
    var n := NextId(rest, StudentKey);
    var jr :| 0 <= jr < |rest| && rest[jr] == s;
    assert StudentKey(rest[jr]) < n;
    var k :| 0 <= k < |rest| && StudentKey(rest[k]) == n - 1;
    assert rest[k].id < sid;
  }

  /** A row appended with an ID no other row carries is the row that ID joins to. */
  lemma NameOfAppended(rest: seq<Student>, s: Student)
    requires forall i :: 0 <= i < |rest| ==> rest[i].id != s.id
    ensures NameBySid(rest + [s], s.id) == s.info.name
  {
    var t := rest + [s];
    forall i | 0 <= i < |t| && i != |rest| ensures !StudentHasId(s.id)(t[i]) {
      assert t[i] == rest[i];
    }
    assert OnlyAt(t, StudentHasId(s.id), |rest|);
  }

  /** Removing rows keeps every remaining row within the forms' fixed choices. */
  lemma CascadeKeepsWellFormed(outings: seq<Outing>, scores: seq<Score>, payments: seq<Payment>, sid: int)
    requires WellFormed(outings, scores, payments)
    ensures WellFormed(Filter(outings, OutingNotOf(sid)), Filter(scores, ScoreNotOf(sid)), Filter(payments, PaymentNotOf(sid)))
  {
  }

  /** Every outing, score and payment row names a StudentID that the Students table holds. */
  ghost predicate Linked(students: seq<Student>, outings: seq<Outing>, scores: seq<Score>, payments: seq<Payment>)
  {
    var ids := IdsOf(students);
    (forall o :: o in outings ==> o.studentId in ids) &&
    (forall c :: c in scores ==> c.studentId in ids) &&
    (forall p :: p in payments ==> p.studentId in ids)
  }

  /** The columns the forms fill from fixed choices hold one of those choices,
      and demerit rows hold no positive Points. */
  ghost predicate WellFormed(outings: seq<Outing>, scores: seq<Score>, payments: seq<Payment>)
  {
    (forall o :: o in outings ==> o.kind in OutingKinds && o.status in OutingStatuses) &&
    (forall c :: c in scores ==> c.category in ScoreCategories && (c.category == Demerit ==> c.points <= 0)) &&
    (forall p :: p in payments ==> p.amount >= 0 && p.status in PaymentStatuses && p.payMethod in PayMethods)
  }

  /** No two rows of a table share an ID, and the form-chosen columns hold the forms' choices. */
  ghost predicate TablesValid(students: seq<Student>, outings: seq<Outing>, scores: seq<Score>, payments: seq<Payment>)
  {
    DistinctBy(students, StudentKey) && DistinctBy(outings, OutingKey) &&
    DistinctBy(scores, ScoreKey) && DistinctBy(payments, PaymentKey) &&
    WellFormed(outings, scores, payments)
  }

  /** Deleting a student, with or without cascade, keeps the tables valid. */
  lemma DeleteKeepsValid(students: seq<Student>, outings: seq<Outing>, scores: seq<Score>, payments: seq<Payment>, sid: int)
    requires TablesValid(students, outings, scores, payments)
    ensures TablesValid(Filter(students, StudentOtherId(sid)), outings, scores, payments)
    ensures TablesValid(Filter(students, StudentOtherId(sid)), Filter(outings, OutingNotOf(sid)),
                        Filter(scores, ScoreNotOf(sid)), Filter(payments, PaymentNotOf(sid)))
  {
    DistinctByFilter(students, StudentKey, StudentOtherId(sid));
    DistinctByFilter(outings, OutingKey, OutingNotOf(sid));
    DistinctByFilter(scores, ScoreKey, ScoreNotOf(sid));
    DistinctByFilter(payments, PaymentKey, PaymentNotOf(sid));
    CascadeKeepsWellFormed(outings, scores, payments, sid);
  }

  class DormStore {
    var students: seq<Student>
    var outings: seq<Outing>
    var scores: seq<Score>
    var payments: seq<Payment>

    /** No two rows of a table share an ID, and the form-chosen columns hold the forms' choices. */
    ghost predicate Valid()
      reads this
    {
      TablesValid(students, outings, scores, payments)
    }

    ghost predicate Joined()
      reads this
    {
      Linked(students, outings, scores, payments)
    }

    /** The store of a freshly created workbook: four empty tables. */
    constructor ()
      ensures students == [] && outings == [] && scores == [] && payments == []
      ensures Valid() && Joined()
    {
      students, outings, scores, payments := [], [], [], [];
    }

    /** The store holding the four tables read from the workbook. */
    constructor Load(students: seq<Student>, outings: seq<Outing>, scores: seq<Score>, payments: seq<Payment>)
      ensures this.students == students && this.outings == outings
      ensures this.scores == scores && this.payments == payments
    {
      this.students, this.outings, this.scores, this.payments := students, outings, scores, payments;
    }

    /** Registration: on a failed check nothing changes; otherwise one row is
        appended with the next Student ID. */
    method CreateStudent(info: StudentInfo, password: string) returns (r: Option<Error>)
      modifies this
      ensures r == CheckNewStudent(old(students), info, password)
      ensures r.Some? ==> students == old(students)
      ensures r.None? ==> students == old(students) + [NewStudent(old(students), info, password)]
      ensures outings == old(outings) && scores == old(scores) && payments == old(payments)
      ensures old(Valid()) ==> Valid()
      ensures old(Joined()) ==> Joined()
      ensures old(DistinctBy(students, StudentNoKey)) ==> DistinctBy(students, StudentNoKey)
    {
      r := CheckNewStudent(students, info, password);
      if r.None? {
        var s := NewStudent(students, info, password);
        assert forall i :: 0 <= i < |students| ==> StudentNoKey(students[i]) != StudentNoKey(s);
        if DistinctBy(students, StudentKey) {
          NextIdKeepsDistinct(students, StudentKey, s);
        }
        if DistinctBy(students, StudentNoKey) {
          DistinctByAppend(students, StudentNoKey, s);
        }
        ghost var before := students;
        students := students + [s];
        forall sid | sid in IdsOf(before) ensures sid in IdsOf(students) {
          var i :| 0 <= i < |before| && before[i].id == sid;
          assert students[i] == before[i];
        }
      }
    }

    /** The edit form: the first row with the selected StudentNo gets the form's
        columns and keeps its ID; its Password changes only when a new one is
        entered; no other row changes. The empty StudentNo is no selection,
        so the form is not shown and nothing changes. */
    method UpdateStudent(selectedNo: string, info: StudentInfo, newPassword: string) returns (r: Option<Error>)
      modifies this
      ensures r == Some(NoSelection) <==> selectedNo == ""
      ensures r == Some(NotFound) <==> selectedNo != "" && FindStudentNo(old(students), selectedNo).None?
      ensures r.Some? ==> students == old(students)
      ensures r.None? <==> selectedNo != "" && FindStudentNo(old(students), selectedNo).Some?
      ensures r.None? ==>
        var i := FindStudentNo(old(students), selectedNo).value;
        |students| == |old(students)| &&
        students[i].id == old(students)[i].id &&
        students[i].info == info &&
        students[i].password == (if newPassword != "" then newPassword else old(students)[i].password) &&
        forall j :: 0 <= j < |students| && j != i ==> students[j] == old(students)[j]
      ensures outings == old(outings) && scores == old(scores) && payments == old(payments)
      ensures old(Valid()) ==> Valid()
      ensures old(Joined()) ==> Joined()
    {
      if selectedNo == "" {
        return Some(NoSelection);
      }
      match FindStudentNo(students, selectedNo)
      case None =>
        r := Some(NotFound);
      case Some(i) =>
        var row := students[i];
        var password := if newPassword != "" then newPassword else row.password;
        var edited := Student(row.id, info, password);
        DistinctByUpdateKeepsIds(students, i, edited);
        students := students[i := edited];
        r := None;
    }

    /** The delete button: the rows with the selected student's ID are removed;
        with the cascade box ticked so are that ID's outing, score and payment
        rows, and without it those tables stay as they are. The empty
        StudentNo is no selection, so nothing changes. */
    method DeleteStudent(selectedNo: string, cascade: bool) returns (r: Option<int>)
      modifies this
      ensures r.None? <==> selectedNo == "" || FindStudentNo(old(students), selectedNo).None?
      ensures r.None? ==>
        students == old(students) && outings == old(outings) && scores == old(scores) && payments == old(payments)
      ensures r.Some? ==>
        r.value == old(students)[FindStudentNo(old(students), selectedNo).value].id &&
        students == Filter(old(students), StudentOtherId(r.value))
      ensures r.Some? && cascade ==>
        outings == Filter(old(outings), OutingNotOf(r.value)) &&
        scores == Filter(old(scores), ScoreNotOf(r.value)) &&
        payments == Filter(old(payments), PaymentNotOf(r.value))
      ensures r.Some? && !cascade ==>
        outings == old(outings) && scores == old(scores) && payments == old(payments)
      ensures old(Valid()) ==> Valid()
      ensures cascade && old(Joined()) ==> Joined()
    {
      if selectedNo == "" {
        return None;
      }
      match FindStudentNo(students, selectedNo)
      case None =>
        r := None;
      case Some(i) =>
        var sid := students[i].id;
        if Valid() {
          DeleteKeepsValid(students, outings, scores, payments, sid);
        }
        if cascade && Joined() {
          CascadeKeepsLinked(students, outings, scores, payments, sid);
        }
        RemoveStudentRows(sid);
        if cascade {
          RemoveRowsOf(sid);
        }
        r := Some(sid);
    }

    /** The student rows with ID `sid` are removed; nothing else changes. */
    method RemoveStudentRows(sid: int)
      modifies this
      ensures students == Filter(old(students), StudentOtherId(sid))
      ensures outings == old(outings) && scores == old(scores) && payments == old(payments)
    {
      students := Filter(students, StudentOtherId(sid));
    }

    /** The outing, score and payment rows with StudentID `sid` are removed; nothing else changes. */
    method RemoveRowsOf(sid: int)
      modifies this
      ensures outings == Filter(old(outings), OutingNotOf(sid))
      ensures scores == Filter(old(scores), ScoreNotOf(sid))
      ensures payments == Filter(old(payments), PaymentNotOf(sid))
      ensures students == old(students)
    {
      outings := Filter(outings, OutingNotOf(sid));
      scores := Filter(scores, ScoreNotOf(sid));
      payments := Filter(payments, PaymentNotOf(sid));
    }

    /** The admin's outing form: one row with the next Outing ID, for a student
        and a type and status chosen from the form's lists. */
    method AddOuting(sid: int, kind: string, reason: string, startDate: string, endDate: string, status: string)
      requires sid in IdsOf(students)
      requires kind in OutingKinds && status in OutingStatuses
      modifies this
      ensures outings == old(outings) + [Outing(NextId(old(outings), OutingKey), sid, kind, reason, startDate, endDate, status)]
      ensures students == old(students) && scores == old(scores) && payments == old(payments)
      ensures old(Valid()) ==> Valid()
      ensures old(Joined()) ==> Joined()
    {
      var o := Outing(NextId(outings, OutingKey), sid, kind, reason, startDate, endDate, status);
      if DistinctBy(outings, OutingKey) {
        NextIdKeepsDistinct(outings, OutingKey, o);
      }
      outings := outings + [o];
    }

    /** The student's request form: one row with the next Outing ID and Status 신청. */
    method RequestOuting(sid: int, kind: string, reason: string, startDate: string, endDate: string)
      requires kind in OutingKinds
      modifies this
      ensures outings == old(outings) + [Outing(NextId(old(outings), OutingKey), sid, kind, reason, startDate, endDate, Requested)]
      ensures students == old(students) && scores == old(scores) && payments == old(payments)
      ensures old(Valid()) ==> Valid()
      ensures old(Joined()) && sid in IdsOf(students) ==> Joined()
    {
      var o := Outing(NextId(outings, OutingKey), sid, kind, reason, startDate, endDate, Requested);
      if DistinctBy(outings, OutingKey) {
        NextIdKeepsDistinct(outings, OutingKey, o);
      }
      outings := outings + [o];
    }

    /** The score form: one row with the next Score ID and the sign-normalised Points. */
    method AddScore(sid: int, category: string, entered: int, reason: string, date: string)
      requires sid in IdsOf(students)
      requires category in ScoreCategories
      modifies this
      ensures scores == old(scores) + [Score(NextId(old(scores), ScoreKey), sid, category, ScorePoints(category, entered), reason, date)]
      ensures students == old(students) && outings == old(outings) && payments == old(payments)
      ensures old(Valid()) ==> Valid()
      ensures old(Joined()) ==> Joined()
    {
      var c := Score(NextId(scores, ScoreKey), sid, category, ScorePoints(category, entered), reason, date);
      if DistinctBy(scores, ScoreKey) {
        NextIdKeepsDistinct(scores, ScoreKey, c);
      }
      scores := scores + [c];
    }

    /** The payment form: one row with the next Payment ID; the amount field does not go below 0. */
    method AddPayment(sid: int, period: string, amount: int, status: string, payDate: string, payMethod: string, note: string)
      requires sid in IdsOf(students)
      requires amount >= 0 && status in PaymentStatuses && payMethod in PayMethods
      modifies this
      ensures payments == old(payments) + [Payment(NextId(old(payments), PaymentKey), sid, period, amount, status, payDate, payMethod, note)]
      ensures students == old(students) && outings == old(outings) && scores == old(scores)
      ensures old(Valid()) ==> Valid()
      ensures old(Joined()) ==> Joined()
    {
      var p := Payment(NextId(payments, PaymentKey), sid, period, amount, status, payDate, payMethod, note);
      if DistinctBy(payments, PaymentKey) {
        NextIdKeepsDistinct(payments, PaymentKey, p);
      }
      payments := payments + [p];
    }

    /** The cancel button: the first outing row with the chosen ID gets Status
        취소 and nothing else changes; without such a row nothing changes. */
    method CancelOuting(cancelId: int) returns (done: bool)
      modifies this
      ensures done <==> FirstIndex(old(outings), OutingHasId(cancelId)).Some?
      ensures !done ==> outings == old(outings)
      ensures done ==>
        var i := FirstIndex(old(outings), OutingHasId(cancelId)).value;
        outings == old(outings)[i := old(outings)[i].(status := Cancelled)]
      ensures students == old(students) && scores == old(scores) && payments == old(payments)
      ensures old(Valid()) ==> Valid()
      ensures old(Joined()) ==> Joined()
    {
      match FirstIndex(outings, OutingHasId(cancelId))
      case None =>
        done := false;
      case Some(i) =>
        var o := outings[i];
        if DistinctBy(outings, OutingKey) {
          DistinctByUpdate(outings, OutingKey, i, o.(status := Cancelled));
        }
        outings := outings[i := o.(status := Cancelled)];
        done := true;
    }
  }

  /** Replacing a student row by one with the same ID keeps the IDs distinct and the ID set the same. */
  lemma DistinctByUpdateKeepsIds(students: seq<Student>, i: int, s: Student)
    requires 0 <= i < |students| && s.id == students[i].id
    ensures DistinctBy(students, StudentKey) ==> DistinctBy(students[i := s], StudentKey)
    ensures IdsOf(students[i := s]) == IdsOf(students)
  {
    if DistinctBy(students, StudentKey) {
      DistinctByUpdate(students, StudentKey, i, s);
    }
    var t := students[i := s];
    forall x | x in IdsOf(students) ensures x in IdsOf(t) {
      var j :| 0 <= j < |students| && students[j].id == x;
      assert t[j].id == x;
    }
    forall x | x in IdsOf(t) ensures x in IdsOf(students) {
      var j :| 0 <= j < |t| && t[j].id == x;
      assert students[j].id == x;
    }
  }
}
