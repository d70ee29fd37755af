/** The class-value list of the LULC tool: the comprehension
    `[int(x.strip()) for x in s.split(',') if x.strip()]` and the check of its
    length against the declared number of classes. */
module ClassList {
  import opened Outcomes
  import opened PyText
  import opened IntLiteral

  /** The fields the comprehension keeps: every field stripped, the blank ones
      dropped, the others in their original order. */
  function Kept(fields: seq<string>): (ts: seq<string>)
    ensures |ts| <= |fields|
  {
    if fields == [] then []
    else
      var t := Strip(fields[0]);
      if t == [] then Kept(fields[1..]) else [t] + Kept(fields[1..])
  }

  /** `Kept` works field by field: it distributes over concatenation, keeps a
      single field as its stripped text and drops it exactly when it is blank. */
  lemma {:induction false} KeptAppend(a: seq<string>, b: seq<string>)
    ensures Kept(a + b) == Kept(a) + Kept(b)
  {
    if a != [] {
      assert (a + b)[1..] == a[1..] + b;
      KeptAppend(a[1..], b);
    } else {
      assert a + b == b;
    }
  }

  lemma KeptSingle(f: string)
    ensures Kept([f]) == if AllSpace(f) then [] else [Strip(f)]
  {
    StripSpec(f);
  }

  /** `int()` on each kept field, left to right; the first field `int()`
      refuses makes the whole list fail, so no partial list is produced. */
  function ParseAll(ts: seq<string>): (r: Result<seq<int>>)
    ensures r.Success? ==>
      |r.value| == |ts| && forall i :: 0 <= i < |ts| ==> ParseInt(ts[i]) == Success(r.value[i])
  {
    if ts == [] then Success([])
    else
      match ParseInt(ts[0])
      case Failure(e) => Failure(e)
      case Success(v) =>
        match ParseAll(ts[1..])
        case Failure(e) => Failure(e)
        case Success(vs) => Success([v] + vs)
  }

  /** When `ParseAll` fails, its error is the one `int()` raises on the first
      field it refuses; every field before that one parses. */
  lemma {:induction false} ParseAllFailure(ts: seq<string>)
    ensures ParseAll(ts).Failure? ==>
      exists j :: 0 <= j < |ts| && ParseInt(ts[j]).Failure? && ParseAll(ts).error == InvalidLiteral(ts[j])
                  && forall k :: 0 <= k < j ==> ParseInt(ts[k]).Success?
  {
    if ts != [] && ParseInt(ts[0]).Success? && ParseAll(ts).Failure? {
      ParseAllFailure(ts[1..]);
      var j :| 0 <= j < |ts| - 1 && ParseInt(ts[1..][j]).Failure? && ParseAll(ts[1..]).error == InvalidLiteral(ts[1..][j])
               && forall k :: 0 <= k < j ==> ParseInt(ts[1..][k]).Success?;
      assert ts[j + 1] == ts[1..][j];
      forall k | 0 < k < j + 1 ensures ParseInt(ts[k]).Success? {
        assert ts[k] == ts[1..][k - 1];
      }
    }
  }

  /** Line 120: the class values parsed from the comma-separated text. */
  function ParseClassValues(s: string): Result<seq<int>> {
    ParseAll(Kept(Split(s)))
  }

  /** Lines 120-122: parse the class list, then require exactly `numClasses`
      values. It succeeds exactly when every non-blank field is an integer
      literal and there are `numClasses` of them; an invalid literal is
      reported before the count, naming the first one; otherwise the count
      error names the declared and the parsed count. */
  function ParseAndCheck(s: string, numClasses: int): (r: Result<seq<int>>)
    ensures var ts := Kept(Split(s));
      r.Success? <==> (forall i :: 0 <= i < |ts| ==> ParseInt(ts[i]).Success?) && |ts| == numClasses
    ensures var ts := Kept(Split(s));
      r.Success? ==> |r.value| == numClasses && forall i :: 0 <= i < |ts| ==> ParseInt(ts[i]) == Success(r.value[i])
    ensures var ts := Kept(Split(s));
      (forall i :: 0 <= i < |ts| ==> ParseInt(ts[i]).Success?) && |ts| != numClasses ==>
        r == Failure(ClassCountMismatch(numClasses, |ts|))
    ensures var ts := Kept(Split(s));
      r.Failure? && r.error.InvalidLiteral? ==>
        exists j :: 0 <= j < |ts| && r.error.text == ts[j] && ParseInt(ts[j]).Failure?
                    && forall k :: 0 <= k < j ==> ParseInt(ts[k]).Success?
  {
    ParseAllFailure(Kept(Split(s)));
    var parsed := ParseClassValues(s);
    if parsed.Failure? then parsed
    else if |parsed.value| != numClasses then Failure(ClassCountMismatch(numClasses, |parsed.value|))
    else parsed
  }

  lemma {:induction false} JoinAppend(a: seq<string>, b: seq<string>)
    requires |a| >= 1 && |b| >= 1
    ensures Join(a + b) == Join(a) + [Sep] + Join(b)
  {
    if |a| == 1 {
      assert (a + b)[1..] == b;
    } else {
      assert (a + b)[1..] == a[1..] + b;
      JoinAppend(a[1..], b);
    }
  }

  /** A separator splits the text into the fields of either side. */
  lemma SplitAtSep(u: string, w: string)
    ensures Split(u + [Sep] + w) == Split(u) + Split(w)
  {
    var fs := Split(u) + Split(w);
    JoinAppend(Split(u), Split(w));
    SplitJoin(fs);
  }

  lemma SplitAroundField(u: string, x: string, w: string)
    requires Sep !in x
    ensures Split(u + [Sep] + x + [Sep] + w) == Split(u) + [x] + Split(w)
  {
    SplitAtSep(u + [Sep] + x, w);
    SplitAtSep(u, x);
    SplitSingleField(x);
  }

  lemma KeptWithoutBlank(a: seq<string>, x: string, b: seq<string>)
    requires AllSpace(x)
    ensures Kept(a + [x] + b) == Kept(a + b)
  {
    KeptSingle(x);
    KeptAppend(a + [x], b);
    KeptAppend(a, [x]);
    KeptAppend(a, b);
  }

  /** A blank field anywhere in the list (as in "1,,2" or "1, ,2") is
      dropped, not refused: the result is that of the list without it. */
  lemma BlankFieldDropped(u: string, x: string, w: string)
    requires AllSpace(x) && Sep !in x
    ensures ParseClassValues(u + [Sep] + x + [Sep] + w) == ParseClassValues(u + [Sep] + w)
  {
    SplitAroundField(u, x, w);
    SplitAtSep(u, w);
    KeptWithoutBlank(Split(u), x, Split(w));
  }

  /** A trailing separator (as in "1,2,") adds nothing. */
  lemma TrailingSepDropped(u: string)
    ensures ParseClassValues(u + [Sep]) == ParseClassValues(u)
  {
    var fu := Split(u);
    SplitAtSep(u, []);
    assert u + [Sep] + [] == u + [Sep];
    assert Split([]) == [[]];
    KeptAppend(fu, [[]]);
    assert Kept([[]]) == [];
    assert Kept(fu + [[]]) == Kept(fu);
  }

  /** Fields without surrounding whitespace are all kept, unchanged. */
  lemma {:induction false} KeptPlain(fs: seq<string>)
    requires forall i :: 0 <= i < |fs| ==> fs[i] != [] && !IsSpace(fs[i][0]) && !IsSpace(fs[i][|fs[i]| - 1])
    ensures Kept(fs) == fs
  {
    if fs != [] {
      StripUnchanged(fs[0]);
      KeptPlain(fs[1..]);
      assert [fs[0]] + fs[1..] == fs;
    }
  }

  // The concrete examples below are each assembled from three steps (the
  // fields of the split, the kept fields, their values), proved apart so that
  // each proof stays small.

  lemma SplitOneXY()
    ensures Split("1,x,y") == ["1", "x", "y"]
  {
    var fs := ["1", "x", "y"];
    assert fs[1..] == ["x", "y"] && fs[1..][1..] == ["y"];
    assert Join(fs[1..]) == "x,y";
    assert Join(fs) == "1,x,y";
    SplitJoin(fs);
  }

  lemma SplitOneTwo()
    ensures Split("1,2") == ["1", "2"]
  {
    var fs := ["1", "2"];
    assert fs[1..] == ["2"];
    SplitJoin(fs);
  }

  lemma ParseOneTwo()
    ensures ParseAll(["1", "2"]) == Success([1, 2])
  {
    assert "1"[..0] == "" && "2"[..0] == "";
    assert ParseInt("1") == Success(1) && ParseInt("2") == Success(2);
    assert ParseAll(["2"]) == Success([2]) by {
      assert ["2"][1..] == [];
      assert ParseAll([]) == Success([]);
      assert [2] + [] == [2];
    }
    assert ["1", "2"][1..] == ["2"];
    assert [1] + [2] == [1, 2];
  }

  lemma ParseOneXY()
    ensures ParseAll(["1", "x", "y"]) == Failure(InvalidLiteral("x"))
  {
    var fs := ["1", "x", "y"];
    assert "1"[..0] == "";
    assert ParseInt("1") == Success(1) && ParseInt("x") == Failure(InvalidLiteral("x"));
    assert fs[1..][0] == "x";
    assert ParseAll(fs[1..]) == Failure(InvalidLiteral("x"));
  }

  /** " , ": both fields are blank, so the list is empty and only a declared
      count of 0 accepts it. */
  lemma ExampleBlankList()
    ensures ParseClassValues(" , ") == Success([])
    ensures ParseAndCheck(" , ", 0) == Success([])
    ensures forall n :: n != 0 ==> ParseAndCheck(" , ", n) == Failure(ClassCountMismatch(n, 0))
  {
    var fs := [" ", " "];
    assert Split(" , ") == fs by {
      assert fs[1..] == [" "];
      SplitJoin(fs);
    }
    assert Kept(fs) == [] by {
      assert Strip(" ") == "" by { StripSpec(" "); }
      assert Kept(fs[1..]) == [] by { assert fs[1..] == [" "] && fs[1..][1..] == []; }
    }
  }

  /** "1,x,y": the first field `int()` refuses fails the whole list. */
  lemma ExampleInvalidField()
    ensures ParseClassValues("1,x,y") == Failure(InvalidLiteral("x"))
  {
    SplitOneXY();
    KeptPlain(["1", "x", "y"]);
    ParseOneXY();
  }

  /** "1,2" with three classes declared: the count check fails. */
  lemma ExampleCountMismatch()
    ensures ParseAndCheck("1,2", 3) == Failure(ClassCountMismatch(3, 2))
  {
    SplitOneTwo();
    KeptPlain(["1", "2"]);
    ParseOneTwo();
  }
}
