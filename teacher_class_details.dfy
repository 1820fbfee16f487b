/**
 * The teacher's class page: the class's students sorted by roll number, numerically when
 * both roll numbers being compared read as integers and as text otherwise, then cut down
 * to the three columns the table shows.
 */
module TeacherClassDetails {
  import opened Wrappers
  import opened JsRuntime
  import opened ClientTypes

  /**
   * The sort comparator: the difference of the two `parseInt` values when both are numbers,
   * otherwise `localeCompare` of the roll-number texts. Negative means `a` goes first.
   */
  function Compare(a: ClassStudent, b: ClassStudent): (r: int)
    ensures ParseInt(a.rollNum).Some? && ParseInt(b.rollNum).Some? ==>
      r == ParseInt(a.rollNum).value - ParseInt(b.rollNum).value
    ensures !(ParseInt(a.rollNum).Some? && ParseInt(b.rollNum).Some?) ==>
      r == LocaleCompare(a.rollNum, b.rollNum)
  {
    var rollA, rollB := ParseInt(a.rollNum), ParseInt(b.rollNum);
    if rollA.Some? && rollB.Some? then rollA.value - rollB.value
    else LocaleCompare(a.rollNum, b.rollNum)
  }

  /** Swapping the arguments negates the comparison, whichever branch applies. */
  lemma CompareAntisymmetric(a: ClassStudent, b: ClassStudent)
    ensures Compare(a, b) == -Compare(b, a)
  {
    LocaleCompareAntisymmetric(a.rollNum, b.rollNum);
  }

  /** Puts `x` in front of the first element it does not sort after. */
  function Insert(x: ClassStudent, s: seq<ClassStudent>): (r: seq<ClassStudent>)
    ensures |r| == |s| + 1
    ensures r[0] == x || (s != [] && r[0] == s[0])
  {
    if s == [] then [x]
    else if Compare(x, s[0]) <= 0 then [x] + s
    else [s[0]] + Insert(x, s[1..])
  }

  lemma {:induction false} InsertPermutation(x: ClassStudent, s: seq<ClassStudent>)
    ensures multiset(Insert(x, s)) == multiset{x} + multiset(s)
  {
    var r := Insert(x, s);
    if s == [] {
      assert r == [x];
    } else if Compare(x, s[0]) <= 0 {
      assert r == [x] + s;
    } else {
      var tail := Insert(x, s[1..]);
      assert r == [s[0]] + tail;
      InsertPermutation(x, s[1..]);
      assert s == [s[0]] + s[1..];
      assert multiset(r) == multiset{s[0]} + multiset(tail);
    }
  }

  /**
   * `[...sclassStudents].sort(comparator)`: a stable sort of a copy; the class's own list
   * is a value here and stays as it was.
   */
  function Sort(s: seq<ClassStudent>): (r: seq<ClassStudent>)
    ensures |r| == |s|
  {
    if s == [] then [] else Insert(s[0], Sort(s[1..]))
  }

  /** The sorted rows are a permutation of the students. */
  lemma {:induction false} SortPermutation(s: seq<ClassStudent>)
    ensures multiset(Sort(s)) == multiset(s)
  {
    if s != [] {
      SortPermutation(s[1..]);
      InsertPermutation(s[0], Sort(s[1..]));
      assert s == [s[0]] + s[1..];
    }
  }

  /** Every student of the class appears among the rows and no one else does. */
  lemma SortMembership(s: seq<ClassStudent>, x: ClassStudent)
    ensures x in Sort(s) <==> x in s
  {
    SortPermutation(s);
    assert x in Sort(s) <==> x in multiset(Sort(s));
    assert x in s <==> x in multiset(s);
  }

  predicate NeighboursInOrder(s: seq<ClassStudent>)
  {
    forall i :: 0 <= i < |s| - 1 ==> Compare(s[i], s[i + 1]) <= 0
  }

  lemma {:induction false} InsertInOrder(x: ClassStudent, s: seq<ClassStudent>)
    requires NeighboursInOrder(s)
    ensures NeighboursInOrder(Insert(x, s))
  {
    if s != [] && Compare(x, s[0]) > 0 {
      CompareAntisymmetric(x, s[0]);
      assert NeighboursInOrder(s[1..]) by {
        forall i | 0 <= i < |s[1..]| - 1 ensures Compare(s[1..][i], s[1..][i + 1]) <= 0 {
          assert s[1..][i] == s[i + 1] && s[1..][i + 1] == s[i + 2];
        }
      }
      InsertInOrder(x, s[1..]);
      var tail := Insert(x, s[1..]);
      assert Compare(s[0], tail[0]) <= 0 by {
        if tail[0] != x {
          assert tail[0] == s[1..][0] == s[1];
        }
      }
      var r := [s[0]] + tail;
      assert r == Insert(x, s);
      forall i | 0 <= i < |r| - 1 ensures Compare(r[i], r[i + 1]) <= 0 {
        if i > 0 {
          assert r[i] == tail[i - 1] && r[i + 1] == tail[i];
        }
      }
    }
  }

  /**
   * Whatever the roll numbers, each row and the next are in order under the comparator:
   * the sort result never has a neighbouring pair the comparator would swap.
   */
  lemma {:induction false} SortInOrder(s: seq<ClassStudent>)
    ensures NeighboursInOrder(Sort(s))
  {
    if s != [] {
      SortInOrder(s[1..]);
      InsertInOrder(s[0], Sort(s[1..]));
    }
  }

  predicate AllNumeric(s: seq<ClassStudent>)
  {
    forall x :: x in s ==> ParseInt(x.rollNum).Some?
  }

  predicate NoneNumeric(s: seq<ClassStudent>)
  {
    forall x :: x in s ==> ParseInt(x.rollNum).None?
  }

  lemma SortKeepsNumeric(s: seq<ClassStudent>)
    requires AllNumeric(s)
    ensures AllNumeric(Sort(s))
  {
    forall x | x in Sort(s) ensures x in s { SortMembership(s, x); }
  }

  lemma SortKeepsText(s: seq<ClassStudent>)
    requires NoneNumeric(s)
    ensures NoneNumeric(Sort(s))
  {
    forall x | x in Sort(s) ensures x in s { SortMembership(s, x); }
  }

  /** When every roll number reads as an integer, the rows ascend numerically. */
  lemma NumericRollsAscend(s: seq<ClassStudent>)
    requires AllNumeric(s)
    ensures AllNumeric(Sort(s))
    ensures var r := Sort(s);
      forall i, j :: 0 <= i < j < |r| ==> ParseInt(r[i].rollNum).value <= ParseInt(r[j].rollNum).value
  {
    SortInOrder(s);
    SortKeepsNumeric(s);
    NumericChain(Sort(s));
  }

  lemma {:induction false} NumericChain(r: seq<ClassStudent>)
    requires AllNumeric(r) && NeighboursInOrder(r)
    ensures forall i, j :: 0 <= i < j < |r| ==> ParseInt(r[i].rollNum).value <= ParseInt(r[j].rollNum).value
  {
    if |r| > 1 {
      var t := r[1..];
      assert AllNumeric(t) by { forall x | x in t ensures x in r { } }
      assert NeighboursInOrder(t) by {
        forall i | 0 <= i < |t| - 1 ensures Compare(t[i], t[i + 1]) <= 0 { assert t[i] == r[i + 1]; }
      }
      NumericChain(t);
      assert r[1] in r && r[0] in r;
      assert Compare(r[0], r[1]) <= 0;
      forall i, j | 0 <= i < j < |r| ensures ParseInt(r[i].rollNum).value <= ParseInt(r[j].rollNum).value {
        if i > 0 {
          assert r[i] == t[i - 1] && r[j] == t[j - 1];
        } else if j > 1 {
          assert r[j] == t[j - 1] && r[1] == t[0];
          assert r[j] in r;
        }
      }
    }
  }

  /** When no roll number reads as an integer, the rows ascend as text. */
  lemma TextRollsAscend(s: seq<ClassStudent>)
    requires NoneNumeric(s)
    ensures var r := Sort(s);
      forall i, j :: 0 <= i < j < |r| ==> LocaleCompare(r[i].rollNum, r[j].rollNum) <= 0
  {
    SortInOrder(s);
    SortKeepsText(s);
    TextChain(Sort(s));
  }

  lemma {:induction false} TextChain(r: seq<ClassStudent>)
    requires NoneNumeric(r) && NeighboursInOrder(r)
    ensures forall i, j :: 0 <= i < j < |r| ==> LocaleCompare(r[i].rollNum, r[j].rollNum) <= 0
  {
    if |r| > 1 {
      var t := r[1..];
      assert NoneNumeric(t) by { forall x | x in t ensures x in r { } }
      assert NeighboursInOrder(t) by {
        forall i | 0 <= i < |t| - 1 ensures Compare(t[i], t[i + 1]) <= 0 { assert t[i] == r[i + 1]; }
      }
      TextChain(t);
      assert r[0] in r;
      assert LocaleCompare(r[0].rollNum, r[1].rollNum) <= 0;
      forall i, j | 0 <= i < j < |r| ensures LocaleCompare(r[i].rollNum, r[j].rollNum) <= 0 {
        if i > 0 {
          assert r[i] == t[i - 1] && r[j] == t[j - 1];
        } else if j > 1 {
          assert r[j] == t[j - 1] && r[1] == t[0];
          LocaleCompareTransitive(r[0].rollNum, r[1].rollNum, r[j].rollNum);
        }
      }
    }
  }

  /** A table row: exactly the name, the roll number and the id. */
  datatype Row = Row(name: string, rollNum: string, id: string)

  function Project(s: seq<ClassStudent>): (rows: seq<Row>)
    ensures |rows| == |s|
    ensures forall i :: 0 <= i < |s| ==> rows[i] == Row(s[i].name, s[i].rollNum, s[i].id)
  {
    if s == [] then [] else [Row(s[0].name, s[0].rollNum, s[0].id)] + Project(s[1..])
  }

  /** `studentRows`: the sorted copy, projected. */
  function StudentRows(students: seq<ClassStudent>): (rows: seq<Row>)
    ensures |rows| == |students|
  {
    Project(Sort(students))
  }

  /** Each row is the projection of one student of the class, and each student gets a row. */
  lemma StudentRowsCover(students: seq<ClassStudent>, x: ClassStudent)
    ensures x in students ==> Row(x.name, x.rollNum, x.id) in StudentRows(students)
    ensures forall i :: 0 <= i < |students| ==>
      exists y :: y in students && StudentRows(students)[i] == Row(y.name, y.rollNum, y.id)
  {
    var sorted := Sort(students);
    SortMembership(students, x);
    if x in students {
      var k :| 0 <= k < |sorted| && sorted[k] == x;
      assert StudentRows(students)[k] == Row(x.name, x.rollNum, x.id);
    }
    forall i | 0 <= i < |students|
      ensures exists y :: y in students && StudentRows(students)[i] == Row(y.name, y.rollNum, y.id)
    {
      SortMembership(students, sorted[i]);
      assert StudentRows(students)[i] == Row(sorted[i].name, sorted[i].rollNum, sorted[i].id);
    }
  }
}
