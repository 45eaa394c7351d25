/** The merit/demerit summary sheet of the downloadable report (상벌점_요약),
    and the per-student totals shown on the student's own score tab. */
module Report {
  import opened Seqs
  import opened Records
  import opened Lookups

  /** 총 상점, 총 벌점 and 순점수 of a group of score rows. */
  datatype Totals = Totals(merit: int, demerit: int, net: int)

  const NoTotals: Totals := Totals(0, 0, 0)

  function Plus(a: Totals, b: Totals): Totals
  {
    Totals(a.merit + b.merit, a.demerit + b.demerit, a.net + b.net)
  }

  /** The totals of a column of points: the sum of the positive points (0 when
      there are none), the sum of the negative points, and the sum of all. */
  function Tally(points: seq<int>): (t: Totals)
    ensures t.merit >= 0 && t.demerit <= 0
    ensures t.net == t.merit + t.demerit
  {
    SumPositiveNonNegative(points);
    SumNegativeNonPositive(points);
    SumSplitsBySign(points);
    Totals(SumIf(points, Positive), SumIf(points, Negative), Sum(points))
  }

  /** Totals of two groups add up to the totals of their union. */
  lemma {:induction false} TallyAppend(a: seq<int>, b: seq<int>)
    ensures Tally(a + b) == Plus(Tally(a), Tally(b))
  {
    SumIfAppend(a, b, Positive);
    SumIfAppend(a, b, Negative);
    SumAppend(a, b);
    TallyOfSums(a, b, a + b);
  }

  /** Totals are determined by the three sums; stated apart from `TallyAppend`
      so that the solver compares the sums without unfolding them. */
  lemma TallyOfSums(a: seq<int>, b: seq<int>, c: seq<int>)
    requires SumIf(c, Positive) == SumIf(a, Positive) + SumIf(b, Positive)
    requires SumIf(c, Negative) == SumIf(a, Negative) + SumIf(b, Negative)
    requires Sum(c) == Sum(a) + Sum(b)
    ensures Tally(c) == Plus(Tally(a), Tally(b))
  {
  }

  /** A line of the exported score sheet, reduced to what the summary reads:
      the joined name (the grouping key) and the Points. */
  datatype Line<K> = Line(name: K, points: int)

  /** The score sheet: every score row, in order, joined with its student's
      Name (the empty name for a row whose student is gone). */
  function ScoreSheet(students: seq<Student>, scores: seq<Score>): (lines: seq<Line<string>>)
    ensures |lines| == |scores|
    ensures forall i :: 0 <= i < |scores| ==>
      lines[i] == Line(NameBySid(students, scores[i].studentId), scores[i].points)
  {
    if scores == [] then []
    else
      var last := scores[|scores| - 1];
      ScoreSheet(students, scores[..|scores| - 1]) + [Line(NameBySid(students, last.studentId), last.points)]
  }

  /** The names present on a sheet. */
  function NamesOf<K>(lines: seq<Line<K>>): set<K>
  {
    if lines == [] then {} else NamesOf(lines[..|lines| - 1]) + {lines[|lines| - 1].name}
  }

  /** A name is present on the sheet exactly when some line carries it. */
  lemma {:induction false} NamesOfLines<K>(lines: seq<Line<K>>)
    ensures forall n :: n in NamesOf(lines) <==> exists i :: 0 <= i < |lines| && lines[i].name == n
  {
    if lines != [] {
      var init := lines[..|lines| - 1];
      assert forall i :: 0 <= i < |init| ==> init[i] == lines[i];
      NamesOfLines(init);
    }
  }

  /** The points of the sheet's lines with name `n`, in sheet order (one group of `groupby`). */
  function PointsNamed<K(==)>(lines: seq<Line<K>>, n: K): (ps: seq<int>)
    ensures ps == [] <==> n !in NamesOf(lines)
  {
    if lines == [] then []
    else PointsNamed(lines[..|lines| - 1], n) + (if lines[|lines| - 1].name == n then [lines[|lines| - 1].points] else [])
  }

  /** Group the sheet by name and total each group. */
  function Summarize<K(==)>(lines: seq<Line<K>>): (summary: map<K, Totals>)
    ensures summary.Keys == NamesOf(lines)
    ensures forall n :: n in summary ==>
      summary[n].merit >= 0 && summary[n].demerit <= 0 && summary[n].net == summary[n].merit + summary[n].demerit
  {
    map n | n in NamesOf(lines) :: Tally(PointsNamed(lines, n))
  }

  /** One more line adds its points to the entry of its name, creating the
      entry if needed, and leaves every other entry as it was. */
  lemma SummarizeAppend<K>(lines: seq<Line<K>>, l: Line<K>)
    ensures
      var before := Summarize(lines);
      Summarize(lines + [l]) == before[l.name := Plus(if l.name in before then before[l.name] else NoTotals, Tally([l.points]))]
  {
    var before := Summarize(lines);
    var after := Summarize(lines + [l]);
    var expected := before[l.name := Plus(if l.name in before then before[l.name] else NoTotals, Tally([l.points]))];
    assert after.Keys == expected.Keys by {
      assert (lines + [l])[..|lines|] == lines;
    }
    forall n | n in after ensures after[n] == expected[n] {
      SummarizeAppendAt(lines, l, n);
    }
  }

  /** The entry of one name after one more line. */
  lemma SummarizeAppendAt<K>(lines: seq<Line<K>>, l: Line<K>, n: K)
    requires n in NamesOf(lines + [l])
    ensures
      var before := Summarize(lines);
      Summarize(lines + [l])[n]
        == if n == l.name then Plus(if n in before then before[n] else NoTotals, Tally([l.points])) else before[n]
  {
    var group := PointsNamed(lines, n);
    var extra := if l.name == n then [l.points] else [];
    assert (lines + [l])[..|lines|] == lines;
    assert PointsNamed(lines + [l], n) == group + extra;
    TallyAppend(group, extra);
    if n !in NamesOf(lines) {
      assert Tally(group) == NoTotals;
    }
  }

  /** The summary sheet of the report: nothing for an empty Scores table,
      otherwise one entry per name on the score sheet (rows of students who
      share a name are merged) holding that name's totals. */
  function ScoreSummary(students: seq<Student>, scores: seq<Score>): (summary: map<string, Totals>)
    ensures scores == [] ==> summary == map[]
    ensures forall n :: n in summary <==>
      exists i :: 0 <= i < |scores| && NameBySid(students, scores[i].studentId) == n
    ensures forall n :: n in summary ==>
      summary[n].merit >= 0 && summary[n].demerit <= 0 && summary[n].net == summary[n].merit + summary[n].demerit
  {
    var lines := ScoreSheet(students, scores);
    NamesOfLines(lines);
    if |lines| == 0 then map[] else Summarize(lines)
  }

  /** The students Kim (ID 1) and Lee (ID 2), and the score rows Kim +5, Kim -2, Lee -1. */
  function ExampleStudents(): seq<Student>
  {
    [Student(1, StudentInfo("Kim", "1001", "남", "", "", "", "", "", "", "", ""), "pw"),
     Student(2, StudentInfo("Lee", "1002", "남", "", "", "", "", "", "", "", ""), "pw")]
  }

  function ExampleScores(): seq<Score>
  {
    [Score(1, 1, Merit, 5, "", ""), Score(2, 1, Demerit, -2, "", ""), Score(3, 2, Demerit, -1, "", "")]
  }

  /** The report's summary for the example: Kim merit 5, demerit -2, net 3;
      Lee merit 0, demerit -1, net -1. */
  lemma SummaryExample()
    ensures ScoreSummary(ExampleStudents(), ExampleScores())
      == map["Kim" := Totals(5, -2, 3), "Lee" := Totals(0, -1, -1)]
  {
    var students, scores := ExampleStudents(), ExampleScores();
    ExampleNames();
    assert |scores| == 3;
    assert scores[0].studentId == 1 && scores[0].points == 5;
    assert scores[1].studentId == 1 && scores[1].points == -2;
    assert scores[2].studentId == 2 && scores[2].points == -1;
    ExampleSheet(students, scores, "Kim", "Lee");
    assert "Kim" != "Lee";
    SummarizeExample("Kim", "Lee");
  }

  lemma ExampleSheet(students: seq<Student>, scores: seq<Score>, kim: string, lee: string)
    requires NameBySid(students, 1) == kim && NameBySid(students, 2) == lee
    requires |scores| == 3
    requires scores[0].studentId == 1 && scores[0].points == 5
    requires scores[1].studentId == 1 && scores[1].points == -2
    requires scores[2].studentId == 2 && scores[2].points == -1
    ensures ScoreSheet(students, scores) == [Line(kim, 5), Line(kim, -2), Line(lee, -1)]
  {
    var lines := ScoreSheet(students, scores);
    assert lines[0] == Line(kim, 5) && lines[1] == Line(kim, -2) && lines[2] == Line(lee, -1);
  }

  lemma ExampleNames()
    ensures NameBySid(ExampleStudents(), 1) == "Kim" && NameBySid(ExampleStudents(), 2) == "Lee"
  {
    var students := ExampleStudents();
    assert OnlyAt(students, StudentHasId(1), 0);
    assert OnlyAt(students, StudentHasId(2), 1);
  }

  /** Grouping the lines a +5, a -2, b -1 for two different names a and b. */
  lemma SummarizeExample<K>(a: K, b: K)
    requires a != b
    ensures Summarize([Line(a, 5), Line(a, -2), Line(b, -1)]) == map[a := Totals(5, -2, 3), b := Totals(0, -1, -1)]
  {
    var m1, m2, m3 := map[a := Totals(5, 0, 5)], map[a := Totals(5, -2, 3)], map[a := Totals(5, -2, 3), b := Totals(0, -1, -1)];
    assert m1[a := Totals(5, -2, 3)] == m2;
    assert m2[b := Totals(0, -1, -1)] == m3;
    var l1, l2, l3 := Line(a, 5), Line(a, -2), Line(b, -1);
    var none: seq<Line<K>> := [];
    assert none + [l1] == [l1];
    assert [l1] + [l2] == [l1, l2];
    assert [l1, l2] + [l3] == [l1, l2, l3];
    TallySingle(5);
    TallySingle(-2);
    TallySingle(-1);
    assert Summarize(none) == map[];
    SummarizeAppend(none, l1);
    assert Summarize([l1]) == m1;
    assert Plus(m1[a], Tally([-2])) == Totals(5, -2, 3);
    assert a in m1;
    SummarizeAppend([l1], l2);
    assert Summarize([l1] + [l2]) == m1[a := Totals(5, -2, 3)];
    assert Summarize([l1, l2]) == m2;
    assert b !in m2;
    assert Plus(NoTotals, Tally([-1])) == Totals(0, -1, -1);
    SummarizeAppend([l1, l2], l3);
    assert Summarize([l1, l2] + [l3]) == m2[b := Totals(0, -1, -1)];
  }

  lemma TallySingle(x: int)
    ensures Tally([x]) == Totals(if x > 0 then x else 0, if x < 0 then x else 0, x)
  {
    assert [x][1..] == [];
    assert Positive(x) == (x > 0) && Negative(x) == (x < 0);
    assert SumIf([x], Positive) == (if x > 0 then x else 0);
    assert SumIf([x], Negative) == (if x < 0 then x else 0);
  }

  /** Every score row of a student the table no longer holds is summarised under the empty name. */
  lemma OrphansUnderEmptyName(students: seq<Student>, scores: seq<Score>, i: int)
    requires 0 <= i < |scores|
    requires forall j :: 0 <= j < |students| ==> students[j].id != scores[i].studentId
    ensures "" in ScoreSummary(students, scores)
  {
    MissingIdHasEmptyName(students, scores[i].studentId);
  }

  /** The Points of the rows with StudentID `sid`, in table order. */
  function StudentPoints(scores: seq<Score>, sid: int): (ps: seq<int>)
    ensures ps == [] <==> forall i :: 0 <= i < |scores| ==> scores[i].studentId != sid
  {
    if scores == [] then []
    else
      var init := scores[..|scores| - 1];
      assert forall i :: 0 <= i < |init| ==> init[i] == scores[i];
      var last := scores[|scores| - 1];
      StudentPoints(init, sid) + (if last.studentId == sid then [last.points] else [])
  }

  /** The totals on a student's own score tab; none when the student has no score rows. */
  function StudentTotals(scores: seq<Score>, sid: int): (t: Option<Totals>)
    ensures t.None? <==> forall i :: 0 <= i < |scores| ==> scores[i].studentId != sid
    ensures t.Some? ==> t.value.merit >= 0 && t.value.demerit <= 0
    ensures t.Some? ==> t.value.net == t.value.merit + t.value.demerit
  {
    var mine := StudentPoints(scores, sid);
    if |mine| == 0 then None else Some(Tally(mine))
  }

  /** When a score row joins to the name `n` exactly when it belongs to `sid`,
      the sheet's group for `n` is that student's points. */
  lemma {:induction false} GroupIsStudentPoints(students: seq<Student>, scores: seq<Score>, sid: int, n: string)
    requires forall i :: 0 <= i < |scores| ==>
      (NameBySid(students, scores[i].studentId) == n <==> scores[i].studentId == sid)
    ensures PointsNamed(ScoreSheet(students, scores), n) == StudentPoints(scores, sid)
  {
    if scores != [] {
      var init := scores[..|scores| - 1];
      assert forall i :: 0 <= i < |init| ==> init[i] == scores[i];
      GroupIsStudentPoints(students, init, sid, n);
      var lines := ScoreSheet(students, scores);
      assert lines[..|lines| - 1] == ScoreSheet(students, init);
    }
  }

  /** For a student whose ID and Name are each held by that row alone, the
      student's own totals are the report's entry for the student's name. */
  lemma StudentTotalsMatchSummary(students: seq<Student>, scores: seq<Score>, i: int)
    requires 0 <= i < |students|
    requires OnlyAt(students, StudentHasId(students[i].id), i)
    requires students[i].info.name != ""
    requires forall j :: 0 <= j < |students| && j != i ==> students[j].info.name != students[i].info.name
    ensures
      var n := students[i].info.name;
      var summary := ScoreSummary(students, scores);
      StudentTotals(scores, students[i].id) == if n in summary then Some(summary[n]) else None
  {
    var sid, n := students[i].id, students[i].info.name;
    forall k | 0 <= k < |scores|
      ensures NameBySid(students, scores[k].studentId) == n <==> scores[k].studentId == sid
    {
      if NameBySid(students, scores[k].studentId) == n {
        var j :| OnlyAt(students, StudentHasId(scores[k].studentId), j);
        assert j == i;
      }
    }
    GroupIsStudentPoints(students, scores, sid, n);
  }
}
