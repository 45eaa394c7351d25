/** The rows of the four tables kept in the dormitory workbook (Students,
    Outings, Scores, Payments), with the fixed vocabularies the forms offer.
    IDs, StudentIDs, Points and Amount are integers; every other column,
    dates included, is an opaque string. */
module Records {

  /** The columns of a Students row that the registration and edit forms write:
      every column except ID and Password. */
  datatype StudentInfo = StudentInfo(
    name: string,
    studentNo: string,
    gender: string,
    room: string,
    phone: string,
    parentPhone: string,
    address: string,
    middleSchool: string,
    inDate: string,
    outDate: string,
    note: string)

  datatype Student = Student(id: int, info: StudentInfo, password: string)

  /** An outing (외출) or overnight (외박) request. */
  datatype Outing = Outing(
    id: int,
    studentId: int,
    kind: string,
    reason: string,
    startDate: string,
    endDate: string,
    status: string)

  /** A merit (상점) or demerit (벌점) entry. */
  datatype Score = Score(
    id: int,
    studentId: int,
    category: string,
    points: int,
    reason: string,
    date: string)

  /** A dormitory-fee payment record. */
  datatype Payment = Payment(
    id: int,
    studentId: int,
    period: string,
    amount: int,
    status: string,
    payDate: string,
    payMethod: string,
    note: string)

  // Outing types and statuses.
  const DayOut: string := "외출"
  const Overnight: string := "외박"
  const Requested: string := "신청"
  const Pending: string := "대기"
  const Approved: string := "승인"
  const Declined: string := "반려"
  const Cancelled: string := "취소"
  const OutingKinds: set<string> := {DayOut, Overnight}
  const OutingStatuses: set<string> := {Requested, Pending, Approved, Declined, Cancelled}

  // Score categories.
  const Merit: string := "상점"
  const Demerit: string := "벌점"
  const ScoreCategories: set<string> := {Merit, Demerit}

  // Payment statuses and methods.
  const Paid: string := "납부"
  const Unpaid: string := "미납"
  const PaymentStatuses: set<string> := {Paid, Unpaid}
  const PayMethods: set<string> := {"현금", "카드", "이체", "기타"}

  // The ID column of each table.
  function StudentKey(s: Student): int { s.id }
  function OutingKey(o: Outing): int { o.id }
  function ScoreKey(c: Score): int { c.id }
  function PaymentKey(p: Payment): int { p.id }

  // The StudentNo column.
  function StudentNoKey(s: Student): string { s.info.studentNo }

  // Row masks, named so that a filter in a body and in a contract is the same term.
  function StudentHasId(sid: int): Student -> bool { (s: Student) => s.id == sid }
  function StudentOtherId(sid: int): Student -> bool { (s: Student) => s.id != sid }
  function StudentHasNo(no: string): Student -> bool { (s: Student) => s.info.studentNo == no }
  function OutingHasId(id: int): Outing -> bool { (o: Outing) => o.id == id }
  function OutingNotOf(sid: int): Outing -> bool { (o: Outing) => o.studentId != sid }
  function OutingCancellableBy(sid: int): Outing -> bool
  {
    (o: Outing) => o.studentId == sid && (o.status == Requested || o.status == Pending)
  }
  function ScoreNotOf(sid: int): Score -> bool { (c: Score) => c.studentId != sid }
  function PaymentNotOf(sid: int): Payment -> bool { (p: Payment) => p.studentId != sid }
}
