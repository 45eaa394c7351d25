/** The common utilities of app.py: ID allocation and the lookups by ID and by
    StudentNo, and the student login check built on them. */
module Lookups {
  import opened Seqs
  import opened Records

  /** The largest ID of a non-empty table. */
  function MaxKey<T>(rows: seq<T>, key: T -> int): (m: int)
    requires |rows| > 0
    ensures forall i :: 0 <= i < |rows| ==> key(rows[i]) <= m
    ensures exists i :: 0 <= i < |rows| && key(rows[i]) == m
  {
    if |rows| == 1 then key(rows[0])
    else
      var rest := MaxKey(rows[1..], key);
      assert forall i :: 1 <= i < |rows| ==> rows[i] == rows[1..][i - 1];
      if key(rows[0]) > rest then key(rows[0]) else rest
  }

  /** The ID a new row of the table receives: 1 for an empty table, otherwise
      one more than the largest ID present (not one more than the row count). */
  function NextId<T>(rows: seq<T>, key: T -> int): (n: int)
    ensures rows == [] ==> n == 1
    ensures forall i :: 0 <= i < |rows| ==> key(rows[i]) < n
    ensures rows != [] ==> exists i :: 0 <= i < |rows| && key(rows[i]) == n - 1
  {
    if rows == [] then 1 else MaxKey(rows, key) + 1
  }

  /** A row appended with the next ID keeps the table's IDs distinct. */
  lemma NextIdKeepsDistinct<T>(rows: seq<T>, key: T -> int, row: T)
    requires DistinctBy(rows, key)
    requires key(row) == NextId(rows, key)
    ensures DistinctBy(rows + [row], key)
  {
    DistinctByAppend(rows, key, row);
  }

  /** The table with IDs 1, 3 and 5 gets 6 next: the maximum plus one, not the count plus one. */
  lemma NextIdAfterGaps()
    ensures NextId([1, 3, 5], (x: int) => x) == 6
  {
    var ids := [1, 3, 5];
    var n := NextId(ids, (x: int) => x);
    assert ids[2] == 5 < n;
    var i :| 0 <= i < |ids| && ids[i] == n - 1;
  }

  /** The students whose StudentNo string-equals `no`, in table order. */
  function GetStudentByStudentNo(students: seq<Student>, no: string): (rows: seq<Student>)
    ensures forall s :: s in rows <==> s in students && s.info.studentNo == no
    ensures forall s :: multiset(rows)[s] == if s.info.studentNo == no then multiset(students)[s] else 0
  {
    FilterCounts(students, StudentHasNo(no));
    Filter(students, StudentHasNo(no))
  }

  /** The selection keeps table order: a row appended to the table is selected
      after every row selected before it, or not at all. */
  lemma GetStudentByStudentNoAppend(students: seq<Student>, x: Student, no: string)
    ensures GetStudentByStudentNo(students + [x], no)
      == GetStudentByStudentNo(students, no) + (if x.info.studentNo == no then [x] else [])
  {
    FilterAppend(students, [x], StudentHasNo(no));
    assert [x][1..] == [];
  }

  /** The position of the first student with StudentNo `no`: the row that the
      edit form is filled from and that the update and delete handlers act on. */
  function FindStudentNo(students: seq<Student>, no: string): (r: Option<nat>)
    ensures r.None? <==> GetStudentByStudentNo(students, no) == []
    ensures r.Some? ==> r.value < |students| && students[r.value].info.studentNo == no
    ensures r.Some? ==> GetStudentByStudentNo(students, no)[0] == students[r.value]
    ensures r.Some? ==> forall j :: 0 <= j < r.value ==> students[j].info.studentNo != no
  {
    FirstIndexHeadsFilter(students, StudentHasNo(no));
    FirstIndex(students, StudentHasNo(no))
  }

  /** The first satisfying position is where the selection starts. */
  lemma {:induction false} FirstIndexHeadsFilter<T(!new)>(s: seq<T>, p: T -> bool)
    ensures FirstIndex(s, p).None? <==> Filter(s, p) == []
    ensures FirstIndex(s, p).Some? ==> Filter(s, p) != [] && Filter(s, p)[0] == s[FirstIndex(s, p).value]
  {
    if s != [] {
      assert s == [s[0]] + s[1..];
      FirstIndexHeadsFilter(s[1..], p);
      if !p(s[0]) {
        assert Filter(s, p) == Filter(s[1..], p);
        match FirstIndex(s[1..], p)
        case None =>
        case Some(i) => assert s[i + 1] == s[1..][i];
      }
    }
  }

  /** The Name of the student whose ID is `sid`, when exactly one row has that
      ID, and the empty string otherwise (a missing or repeated ID never fails). */
  function NameBySid(students: seq<Student>, sid: int): (name: string)
    ensures forall i :: OnlyAt(students, StudentHasId(sid), i) ==> name == students[i].info.name
    ensures (forall i :: !OnlyAt(students, StudentHasId(sid), i)) ==> name == ""
  {
    FilterSingle(students, StudentHasId(sid));
    var rows := Filter(students, StudentHasId(sid));
    if |rows| == 1 then rows[0].info.name else ""
  }

  /** An ID that no student row carries joins to the empty name. */
  lemma MissingIdHasEmptyName(students: seq<Student>, sid: int)
    requires forall i :: 0 <= i < |students| ==> students[i].id != sid
    ensures NameBySid(students, sid) == ""
  {
  }

  /** After the student rows with ID `sid` are removed, `sid` joins to the empty name. */
  lemma DeletedIdHasEmptyName(students: seq<Student>, sid: int)
    ensures NameBySid(Filter(students, StudentOtherId(sid)), sid) == ""
  {
    var rest := Filter(students, StudentOtherId(sid));
    forall i | 0 <= i < |rest| ensures rest[i].id != sid {
      assert rest[i] in rest;
    }
    MissingIdHasEmptyName(rest, sid);
  }

  /** Student login: succeeds, giving the row's ID, exactly when one row has
      StudentNo `no` and that row's Password string-equals `pw`. */
  function LoginStudent(students: seq<Student>, no: string, pw: string): (r: Option<int>)
    ensures r.Some? <==> exists i :: OnlyAt(students, StudentHasNo(no), i) && students[i].password == pw
    ensures forall i :: r.Some? && OnlyAt(students, StudentHasNo(no), i) ==> r.value == students[i].id
  {
    FilterSingle(students, StudentHasNo(no));
    var m := GetStudentByStudentNo(students, no);
    if |m| == 1 && m[0].password == pw then Some(m[0].id) else None
  }

  /** While StudentNos are unique, login succeeds exactly when some row has
      that StudentNo and Password, and yields that row's ID. */
  lemma LoginWithUniqueNumbers(students: seq<Student>, no: string, pw: string, i: int)
    requires DistinctBy(students, StudentNoKey)
    requires 0 <= i < |students| && students[i].info.studentNo == no
    ensures LoginStudent(students, no, pw) == if students[i].password == pw then Some(students[i].id) else None
  {
    forall j | 0 <= j < |students| && j != i ensures !StudentHasNo(no)(students[j]) {
      assert StudentNoKey(students[j]) != StudentNoKey(students[i]);
    }
    assert OnlyAt(students, StudentHasNo(no), i);
  }

  /** A StudentNo held by two rows locks both students out. */
  lemma LoginFailsOnSharedNumber(students: seq<Student>, no: string, pw: string, i: int, j: int)
    requires 0 <= i < j < |students|
    requires students[i].info.studentNo == no && students[j].info.studentNo == no
    ensures LoginStudent(students, no, pw) == None
  {
    assert forall k :: !OnlyAt(students, StudentHasNo(no), k);
  }
}
