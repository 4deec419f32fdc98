/** Worked examples of the model. Patterns without metacharacters get their
    exact java.util.regex behaviour (`find` returns the literal where it
    occurs, `matches` asks for equality); the group pattern `crossing\d+` is
    written out by hand. */
module Scenarios {
  import opened Wrappers
  import opened Text
  import opened Files
  import opened Patterns
  import opened Grouping
  import opened Request
  import opened Report

  /** A pattern made of ordinary characters only. */
  function Literal(lit: string): Pattern
  {
    Pattern((s: string) => if Occurs(lit, s) then Some(lit) else None, (s: string) => s == lit)
  }

  /** Length of the run of digits of `s` starting at `i`. */
  function DigitRun(s: string, i: nat): (r: nat)
    ensures i <= |s| ==> i + r <= |s|
    decreases |s| - i
  {
    if i < |s| && IsDigit(s[i]) then 1 + DigitRun(s, i + 1) else 0
  }

  /** The first match of `crossing\d+` in `s` at or after index `i`. */
  function FindCrossing(s: string, i: nat): Option<string>
    decreases |s| - i
  {
    if i + 8 >= |s| then None
    else if s[i..i + 8] == "crossing" && IsDigit(s[i + 8]) then Some(s[i..i + 8 + 1 + DigitRun(s, i + 9)])
    else FindCrossing(s, i + 1)
  }

  const CrossingPattern: Pattern := Pattern((s: string) => FindCrossing(s, 0), (s: string) => FindCrossing(s, 0) == Some(s))

  const Roles: RolePatterns := RolePatterns(Literal("front"), Literal("rear"), Literal("overview"))

  const FrontFile: File := File("images/crossing1_front.jpg", "crossing1_front.jpg")
  const RearFile: File := File("images/crossing1_rear.jpg", "crossing1_rear.jpg")

  /** Every file reads as one byte. */
  function ReadOneByte(f: File): Option<Image>
  {
    Some([1])
  }

  lemma CrossingKeys()
    ensures GroupKey(CrossingPattern, FrontFile.name) == "crossing1"
    ensures GroupKey(CrossingPattern, RearFile.name) == "crossing1"
  {
    var a, b := FrontFile.name, RearFile.name;
    assert a[0..8] == "crossing" && IsDigit(a[8]) && !IsDigit(a[9]);
    assert b[0..8] == "crossing" && IsDigit(b[8]) && !IsDigit(b[9]);
    assert DigitRun(a, 9) == 0 && DigitRun(b, 9) == 0;
    assert a[0..9] == "crossing1" && b[0..9] == "crossing1";
  }

  lemma CrossingKeySet()
    ensures KeysOf([FrontFile, RearFile], CrossingPattern) == {"crossing1"}
  {
    CrossingKeys();
    var files := [FrontFile, RearFile];
    assert files[0] == FrontFile && files[1] == RearFile;
  }

  lemma CrossingFilter()
    ensures Filter([FrontFile, RearFile], HasKey(CrossingPattern, "crossing1")) == [FrontFile, RearFile]
  {
    CrossingKeys();
    var files := [FrontFile, RearFile];
    var keep := HasKey(CrossingPattern, "crossing1");
    assert keep(FrontFile) && keep(RearFile);
    assert files[1..] == [RearFile] && files[1..][1..] == [];
  }

  /** The two files of one crossing form the single group "crossing1", in scan order. */
  lemma CrossingGroup()
    ensures GroupImages([FrontFile, RearFile], CrossingPattern).Keys == {"crossing1"}
    ensures GroupImages([FrontFile, RearFile], CrossingPattern)["crossing1"] == [FrontFile, RearFile]
  {
    CrossingKeySet();
    CrossingFilter();
  }

  /** A literal cannot occur where one of its characters is missing. */
  lemma AbsentCharBlocks(t: string, s: string, j: nat)
    requires j < |t|
    requires forall i :: 0 <= i < |s| ==> s[i] != t[j]
    ensures !Occurs(t, s)
  {
    forall i: nat | i <= |s|
      ensures !OccursAt(t, s, i)
    {
      if i + |t| <= |s| {
        assert s[i..i + |t|][j] == s[i + j];
      }
    }
  }

  lemma CrossingRoles()
    ensures RequestRole(Roles, FrontFile.name) == Some(Front)
    ensures RequestRole(Roles, RearFile.name) == Some(Rear)
  {
    var a, b := FrontFile.name, RearFile.name;
    AbsentCharBlocks("overview", a, 1);
    AbsentCharBlocks("overview", b, 1);
    AbsentCharBlocks("front", b, 0);
    assert a[10..15] == "front";
    assert OccursAt("front", a, 10);
    assert b[10..14] == "rear";
    assert OccursAt("rear", b, 10);
  }

  /** The crossing group yields one request with one front and one rear image. */
  lemma CrossingRequest()
    ensures RequestOf([FrontFile, RearFile], ReadOneByte, Roles) == Some(EventRequest([[1]], [[1]], []))
  {
    CrossingRoles();
    var files := [FrontFile, RearFile];
    assert files[1..] == [RearFile] && files[1..][1..] == [];
    var front, rear, overview := InRole(ReadOneByte, Roles, Front), InRole(ReadOneByte, Roles, Rear), InRole(ReadOneByte, Roles, Overview);
    var rd: Reader := ReadOneByte;
    assert rd(FrontFile).Some? && rd(RearFile).Some?;
    assert front(FrontFile) && !front(RearFile);
    assert rear(RearFile) && !rear(FrontFile);
    assert !overview(FrontFile) && !overview(RearFile);
    assert Filter(files, InRole(ReadOneByte, Roles, Front)) == [FrontFile];
    assert Filter(files, InRole(ReadOneByte, Roles, Rear)) == [RearFile];
    assert Filter(files, InRole(ReadOneByte, Roles, Overview)) == [];
    assert Payload(rd, FrontFile) == [1] && Payload(rd, RearFile) == [1];
    assert Payloads(rd, [FrontFile]) == [[1]];
    assert Payloads(rd, [RearFile]) == [[1]];
    assert Payloads(rd, []) == [];
  }

  const N1Result: EventResult := EventResult("N1", None, [], None, [], None, [])

  /** Neither crossing file's whole name is a role pattern, so every display list is empty. */
  lemma CrossingDisplayEmpty()
    ensures DisplayOverview([FrontFile, RearFile], Roles) == []
    ensures DisplayFront([FrontFile, RearFile], Roles) == []
    ensures DisplayRear([FrontFile, RearFile], Roles) == []
  {
    var files := [FrontFile, RearFile];
    assert |FrontFile.name| == 19 && |RearFile.name| == 18;
    assert !Roles.overview.matches(FrontFile.name) && !Roles.overview.matches(RearFile.name);
    assert !Roles.front.matches(FrontFile.name) && !Roles.front.matches(RearFile.name);
    assert !Roles.rear.matches(FrontFile.name) && !Roles.rear.matches(RearFile.name);
    FilterNone(files, WholeMatch(Roles.overview));
    var ov := DisplayOverview(files, Roles);
    FilterNone(files, MatchesAndNotIn(Roles.front, ov));
    FilterNone(files, MatchesAndNotIn(Roles.rear, ov));
  }

  lemma N1Fields()
    ensures RowFields([FrontFile, RearFile], Roles, N1Result) == ["", "", "", "N1", "", "", "", "", "", ""]
  {
    CrossingDisplayEmpty();
    assert Names([]) == [];
    assert MapSeq([], FormatPlate) == [];
    assert MapSeq([], FormatMmr) == [];
  }

  lemma JoinStep(sep: string, x: string, xs: seq<string>)
    requires |xs| > 0
    ensures Join(sep, [x] + xs) == x + sep + Join(sep, xs)
  {
    assert ([x] + xs)[1..] == xs;
  }

  lemma N1Join()
    ensures Join(",", ["", "", "", "N1", "", "", "", "", "", ""]) == ",,,N1,,,,,,"
  {
    var e: seq<string> := [""];
    JoinStep(",", "", e);
    var t8 := [""] + e;
    JoinStep(",", "", t8);
    var t7 := [""] + t8;
    JoinStep(",", "", t7);
    var t6 := [""] + t7;
    JoinStep(",", "", t6);
    var t5 := [""] + t6;
    JoinStep(",", "", t5);
    var t4 := [""] + t5;
    assert Join(",", t4) == ",,,,,";
    JoinStep(",", "N1", t4);
    var t3 := ["N1"] + t4;
    assert Join(",", t3) == "N1,,,,,,";
    JoinStep(",", "", t3);
    var t2 := [""] + t3;
    JoinStep(",", "", t2);
    var t1 := [""] + t2;
    JoinStep(",", "", t1);
    var t0 := [""] + t1;
    assert Join(",", t0) == ",,,N1,,,,,,";
    assert t0 == ["", "", "", "N1", "", "", "", "", "", ""];
  }

  /** The row the crossing group yields for a result carrying only the node
      "N1": the file-name columns are empty because the display lists use
      whole-name matching. */
  lemma CrossingRow()
    ensures RenderRow([FrontFile, RearFile], Roles, N1Result) == ",,,N1,,,,,,\n"
  {
    N1Fields();
    N1Join();
  }

  const StrayFile: File := File("images/notes.png", "notes.png")

  /** A file with no group match and no role match is grouped as "ungrouped"
      and, alone in its group, yields no request. */
  lemma StrayFileIgnored()
    ensures GroupImages([StrayFile], CrossingPattern).Keys == {Ungrouped}
    ensures GroupImages([StrayFile], CrossingPattern)[Ungrouped] == [StrayFile]
    ensures RequestOf([StrayFile], ReadOneByte, Roles) == None
  {
    var n := StrayFile.name;
    assert n[0..8] != "crossing" by { assert n[0] == 'n'; }
    assert FindCrossing(n, 0) == None;
    AbsentCharBlocks("overview", n, 1);
    AbsentCharBlocks("front", n, 0);
    AbsentCharBlocks("rear", n, 0);
    assert RequestRole(Roles, n) == None;
    FilterNone([StrayFile], InRole(ReadOneByte, Roles, Front));
    FilterNone([StrayFile], InRole(ReadOneByte, Roles, Rear));
    FilterNone([StrayFile], InRole(ReadOneByte, Roles, Overview));
    assert [StrayFile][1..] == [];
    assert Filter([StrayFile], HasKey(CrossingPattern, Ungrouped)) == [StrayFile];
  }
}
