/** The CSV side of `onNext`: the role lists recomputed for display with
    whole-name `String.matches`, `formatPlate`, `formatMmr`, and the
    ten-column row appended for an event result. */
module Report {
  import opened Wrappers
  import opened Text
  import opened Files
  import opened Patterns
  import opened Request

  /** A recognised licence plate. */
  datatype Plate = Plate(
    text: string, country: string, state: string, category: string,
    confidence: int, textConfidence: int, plateTypeConfidence: int)

  /** A make/model recognition record. */
  datatype Mmr = Mmr(
    make: string, model: string, generation: string, category: string,
    bodyType: string, viewPoint: string, colorName: string)

  /** The structured result of one event; absent optional messages are None. */
  datatype EventResult = EventResult(
    node: string,
    frontPlate: Option<Plate>, frontPlateAlternative: seq<Plate>,
    rearPlate: Option<Plate>, rearPlateAlternative: seq<Plate>,
    mmr: Option<Mmr>, mmrAlternative: seq<Mmr>)

  /** One streamed `EventResponse`: the final result, a partial result, or neither. */
  datatype EventResponse = Final(result: EventResult) | PartialResult | NoPayload

  // ---------------------------------------------------------------------
  // Formatters.

  const PlateTemplate: string := "%s %s %s %s %d%% (text: %d%%|state: %d%%)"
  const MmrTemplate: string := "%s %s (%s %s %s %s)"

  function PlateArgs(p: Plate): seq<Arg>
  {
    [Str(p.text), Str(p.country), Str(p.state), Str(p.category),
     Int(p.confidence), Int(p.textConfidence), Int(p.plateTypeConfidence)]
  }

  /** `formatMmr` passes seven arguments, the colour last. */
  function MmrArgs(m: Mmr): seq<Arg>
  {
    [Str(m.make), Str(m.model), Str(m.generation), Str(m.category),
     Str(m.bodyType), Str(m.viewPoint), Str(m.colorName)]
  }

  lemma PlateTemplateFormats(p: Plate)
    ensures Format(PlateTemplate, PlateArgs(p)) == Ok(
      p.text + " " + p.country + " " + p.state + " " + p.category + " "
      + IntToDecimal(p.confidence) + "% (text: " + IntToDecimal(p.textConfidence)
      + "%|state: " + IntToDecimal(p.plateTypeConfidence) + "%)")
  {
    var a := PlateArgs(p);
    var d0, d1, d2 := IntToDecimal(p.confidence), IntToDecimal(p.textConfidence), IntToDecimal(p.plateTypeConfidence);
    assert FormatFrom("", a, 7) == Ok("");
    var t13 := ")";
    FormatLiteral(t13, "", a, 7);
    assert t13 + "" == t13;
    assert FormatFrom(t13, a, 7) == Ok(")");
    var t12 := "%%" + t13;
    FormatPercent(t13, a, 7);
    assert "%" + ")" == "%)";
    assert FormatFrom(t12, a, 7) == Ok("%)");
    var t11 := "%d" + t12;
    FormatConversion('d', t12, a, 6);
    var e11 := d2 + "%)";
    assert FormatFrom(t11, a, 6) == Ok(e11);
    var t10 := "|state: " + t11;
    FormatLiteral("|state: ", t11, a, 6);
    var e10 := "|state: " + e11;
    assert FormatFrom(t10, a, 6) == Ok(e10);
    var t9 := "%%" + t10;
    FormatPercent(t10, a, 6);
    var e9 := "%" + e10;
    assert FormatFrom(t9, a, 6) == Ok(e9);
    var t8 := "%d" + t9;
    FormatConversion('d', t9, a, 5);
    var e8 := d1 + e9;
    assert FormatFrom(t8, a, 5) == Ok(e8);
    var t7 := " (text: " + t8;
    FormatLiteral(" (text: ", t8, a, 5);
    var e7 := " (text: " + e8;
    assert FormatFrom(t7, a, 5) == Ok(e7);
    var t6 := "%%" + t7;
    FormatPercent(t7, a, 5);
    var e6 := "%" + e7;
    assert FormatFrom(t6, a, 5) == Ok(e6);
    var t5 := "%d" + t6;
    FormatConversion('d', t6, a, 4);
    var e5 := d0 + e6;
    assert FormatFrom(t5, a, 4) == Ok(e5);
    var t4 := " " + t5;
    FormatLiteral(" ", t5, a, 4);
    var e4 := " " + e5;
    assert FormatFrom(t4, a, 4) == Ok(e4);
    var t3 := "%s" + t4;
    FormatConversion('s', t4, a, 3);
    var e3 := p.category + e4;
    assert FormatFrom(t3, a, 3) == Ok(e3);
    var t2 := " " + t3;
    FormatLiteral(" ", t3, a, 3);
    var e2 := " " + e3;
    assert FormatFrom(t2, a, 3) == Ok(e2);
    var t1 := "%s" + t2;
    FormatConversion('s', t2, a, 2);
    var e1 := p.state + e2;
    assert FormatFrom(t1, a, 2) == Ok(e1);
    var t0 := " " + t1;
    FormatLiteral(" ", t1, a, 2);
    var e0 := " " + e1;
    assert FormatFrom(t0, a, 2) == Ok(e0);
    var u1 := "%s" + t0;
    FormatConversion('s', t0, a, 1);
    var f1 := p.country + e0;
    assert FormatFrom(u1, a, 1) == Ok(f1);
    var u0 := " " + u1;
    FormatLiteral(" ", u1, a, 1);
    var f0 := " " + f1;
    assert FormatFrom(u0, a, 1) == Ok(f0);
    var all := "%s" + u0;
    FormatConversion('s', u0, a, 0);
    assert FormatFrom(all, a, 0) == Ok(p.text + f0);
    PlateTemplatePieces();
    assert all == PlateTemplate;
    Reassociate(p.text, p.country, p.state, p.category, d0, d1, d2);
  }

  lemma PlateTemplatePieces()
    ensures PlateTemplate == "%s" + (" " + ("%s" + (" " + ("%s" + (" " + ("%s" + (" " + ("%d" + ("%%"
      + (" (text: " + ("%d" + ("%%" + ("|state: " + ("%d" + ("%%" + ")")))))))))))))))
  {
    var tail := " (text: " + ("%d" + ("%%" + ("|state: " + ("%d" + ("%%" + ")")))));
    assert tail == " (text: %d%%|state: %d%%)";
    assert PlateTemplate == "%s %s %s %s %d%%" + tail;
  }

  lemma Reassociate(t: string, c: string, s: string, k: string, d0: string, d1: string, d2: string)
    ensures t + " " + c + " " + s + " " + k + " " + d0 + "% (text: " + d1 + "%|state: " + d2 + "%)"
         == t + (" " + (c + (" " + (s + (" " + (k + (" " + (d0 + ("%" + (" (text: " + (d1 + ("%"
            + ("|state: " + (d2 + "%)"))))))))))))))
  {
  }

  /** `formatPlate`: text, country, state and category separated by blanks,
      then the three confidences in decimal, each followed by a percent sign. */
  function FormatPlate(p: Plate): (r: string)
    ensures r == p.text + " " + p.country + " " + p.state + " " + p.category + " "
                 + IntToDecimal(p.confidence) + "% (text: " + IntToDecimal(p.textConfidence)
                 + "%|state: " + IntToDecimal(p.plateTypeConfidence) + "%)"
  {
    PlateTemplateFormats(p);
    Format(PlateTemplate, PlateArgs(p)).value
  }

  lemma MmrTemplateFormats(m: Mmr)
    ensures Format(MmrTemplate, MmrArgs(m)) == Ok(
      m.make + " " + m.model + " (" + m.generation + " " + m.category + " " + m.bodyType + " " + m.viewPoint + ")")
  {
    var a := MmrArgs(m);
    assert FormatFrom("", a, 6) == Ok("");
    var t10 := ")";
    FormatLiteral(t10, "", a, 6);
    assert t10 + "" == t10;
    assert FormatFrom(t10, a, 6) == Ok(")");
    var t9 := "%s" + t10;
    FormatConversion('s', t10, a, 5);
    var e9 := m.viewPoint + ")";
    assert FormatFrom(t9, a, 5) == Ok(e9);
    var t8 := " " + t9;
    FormatLiteral(" ", t9, a, 5);
    var e8 := " " + e9;
    assert FormatFrom(t8, a, 5) == Ok(e8);
    var t7 := "%s" + t8;
    FormatConversion('s', t8, a, 4);
    var e7 := m.bodyType + e8;
    assert FormatFrom(t7, a, 4) == Ok(e7);
    var t6 := " " + t7;
    FormatLiteral(" ", t7, a, 4);
    var e6 := " " + e7;
    assert FormatFrom(t6, a, 4) == Ok(e6);
    var t5 := "%s" + t6;
    FormatConversion('s', t6, a, 3);
    var e5 := m.category + e6;
    assert FormatFrom(t5, a, 3) == Ok(e5);
    var t4 := " " + t5;
    FormatLiteral(" ", t5, a, 3);
    var e4 := " " + e5;
    assert FormatFrom(t4, a, 3) == Ok(e4);
    var t3 := "%s" + t4;
    FormatConversion('s', t4, a, 2);
    var e3 := m.generation + e4;
    assert FormatFrom(t3, a, 2) == Ok(e3);
    var t2 := " (" + t3;
    FormatLiteral(" (", t3, a, 2);
    var e2 := " (" + e3;
    assert FormatFrom(t2, a, 2) == Ok(e2);
    var t1 := "%s" + t2;
    FormatConversion('s', t2, a, 1);
    var e1 := m.model + e2;
    assert FormatFrom(t1, a, 1) == Ok(e1);
    var t0 := " " + t1;
    FormatLiteral(" ", t1, a, 1);
    var e0 := " " + e1;
    assert FormatFrom(t0, a, 1) == Ok(e0);
    var all := "%s" + t0;
    FormatConversion('s', t0, a, 0);
    assert FormatFrom(all, a, 0) == Ok(m.make + e0);
    MmrTemplatePieces();
    assert all == MmrTemplate;
    ReassociateMmr(m.make, m.model, m.generation, m.category, m.bodyType, m.viewPoint);
  }

  lemma MmrTemplatePieces()
    ensures MmrTemplate == "%s" + (" " + ("%s" + (" (" + ("%s" + (" " + ("%s" + (" " + ("%s" + (" " + ("%s" + ")"))))))))))
  {
  }

  lemma ReassociateMmr(a: string, b: string, c: string, d: string, e: string, f: string)
    ensures a + " " + b + " (" + c + " " + d + " " + e + " " + f + ")"
         == a + (" " + (b + (" (" + (c + (" " + (d + (" " + (e + (" " + (f + ")"))))))))))
  {
  }

  /** `formatMmr`: make and model, then generation, category, body type and
      view point in parentheses. */
  function FormatMmr(m: Mmr): (r: string)
    ensures r == m.make + " " + m.model + " (" + m.generation + " " + m.category + " "
                 + m.bodyType + " " + m.viewPoint + ")"
  {
    MmrTemplateFormats(m);
    Format(MmrTemplate, MmrArgs(m)).value
  }

  /** `formatMmr` passes seven arguments to a template with six conversions:
      the colour, passed last, never reaches the output. */
  lemma MmrColourIgnored(m: Mmr, colour: string)
    ensures Format(MmrTemplate, MmrArgs(m.(colorName := colour))) == Format(MmrTemplate, MmrArgs(m))
  {
    MmrTemplateFormats(m);
    MmrTemplateFormats(m.(colorName := colour));
  }

  // ---------------------------------------------------------------------
  // The role lists shown in the CSV: whole-name `matches`, and front and rear
  // each exclude only the overview list.

  function WholeMatch(pattern: Pattern): File -> bool
  {
    (f: File) => pattern.matches(f.name)
  }

  function MatchesAndNotIn(pattern: Pattern, excluded: seq<File>): File -> bool
  {
    (f: File) => pattern.matches(f.name) && f !in excluded
  }

  /** `overviewFilesList`: the files whose whole name matches the overview pattern. */
  function DisplayOverview(files: seq<File>, p: RolePatterns): seq<File>
  {
    Filter(files, WholeMatch(p.overview))
  }

  /** `frontFilesList`: whole-name front matches not in the overview list. */
  function DisplayFront(files: seq<File>, p: RolePatterns): seq<File>
  {
    Filter(files, MatchesAndNotIn(p.front, DisplayOverview(files, p)))
  }

  /** `rearFilesList`: whole-name rear matches not in the overview list (the
      front list is not excluded). */
  function DisplayRear(files: seq<File>, p: RolePatterns): seq<File>
  {
    Filter(files, MatchesAndNotIn(p.rear, DisplayOverview(files, p)))
  }

  /** Membership in the display lists, by whole-name matching: overview wins
      over front and rear, but front and rear do not exclude each other. */
  lemma DisplayMembership(files: seq<File>, p: RolePatterns, f: File)
    ensures f in DisplayOverview(files, p) <==> f in files && p.overview.matches(f.name)
    ensures f in DisplayFront(files, p) <==> f in files && p.front.matches(f.name) && !p.overview.matches(f.name)
    ensures f in DisplayRear(files, p) <==> f in files && p.rear.matches(f.name) && !p.overview.matches(f.name)
  {
    var ov := DisplayOverview(files, p);
    FilterMembership(files, WholeMatch(p.overview), f);
    FilterMembership(files, MatchesAndNotIn(p.front, ov), f);
    FilterMembership(files, MatchesAndNotIn(p.rear, ov), f);
  }

  /** The overview list shares no file with the front list or the rear list. */
  lemma DisplayOverviewDisjoint(files: seq<File>, p: RolePatterns)
    ensures forall f :: f in DisplayOverview(files, p) ==> f !in DisplayFront(files, p) && f !in DisplayRear(files, p)
  {
    forall f | f in DisplayOverview(files, p)
      ensures f !in DisplayFront(files, p) && f !in DisplayRear(files, p)
    {
      DisplayMembership(files, p, f);
    }
  }

  /** A file whose whole name matches both the front and the rear pattern, and
      not the overview pattern, is listed as front and as rear. */
  lemma FrontRearOverlap(files: seq<File>, p: RolePatterns, f: File)
    requires f in files
    requires p.front.matches(f.name) && p.rear.matches(f.name) && !p.overview.matches(f.name)
    ensures f in DisplayFront(files, p) && f in DisplayRear(files, p)
  {
    DisplayMembership(files, p, f);
  }

  /** When a whole-name overview match is also found by `find()`, a readable
      file shown as overview was sent as an overview image. */
  lemma DisplayOverviewWasSentAsOverview(files: seq<File>, read: Reader, p: RolePatterns, f: File)
    requires WholeMatchIsFound(p.overview)
    requires f in DisplayOverview(files, p) && read(f).Some?
    ensures f in Filter(files, InRole(read, p, Overview))
  {
    DisplayMembership(files, p, f);
    RoleMembership(files, read, p, f);
  }

  // ---------------------------------------------------------------------
  // The CSV row.

  const RowTemplate: string := "%s,%s,%s,%s,%s,%s,%s,%s,%s,%s\n"

  function Names(files: seq<File>): seq<string>
  {
    MapSeq(files, (f: File) => f.name)
  }

  function OptionalPlate(o: Option<Plate>): string
  {
    match o
    case Some(plate) => FormatPlate(plate)
    case None => ""
  }

  function OptionalMmr(o: Option<Mmr>): string
  {
    match o
    case Some(m) => FormatMmr(m)
    case None => ""
  }

  /** The ten columns of the row, in header order. */
  function RowFields(files: seq<File>, p: RolePatterns, r: EventResult): (fields: seq<string>)
    ensures |fields| == 10
  {
    [ Join("|", Names(DisplayFront(files, p))),
      Join("|", Names(DisplayRear(files, p))),
      Join("|", Names(DisplayOverview(files, p))),
      r.node,
      OptionalPlate(r.frontPlate),
      Join("|", MapSeq(r.frontPlateAlternative, FormatPlate)),
      OptionalPlate(r.rearPlate),
      Join("|", MapSeq(r.rearPlateAlternative, FormatPlate)),
      OptionalMmr(r.mmr),
      Join("|", MapSeq(r.mmrAlternative, FormatMmr)) ]
  }

  function Strs(xs: seq<string>): seq<Arg>
  {
    MapSeq(xs, (x: string) => Str(x))
  }

  /** `n` conversions `%s` separated by commas. */
  function FieldsTemplate(n: nat): string
    requires n >= 1
    decreases n
  {
    if n == 1 then "%s" else "%s," + FieldsTemplate(n - 1)
  }

  lemma {:induction false} FormatFields(fields: seq<string>, k: nat)
    requires k < |fields|
    ensures WellFormedTemplate(FieldsTemplate(|fields| - k) + "\n")
    ensures FormatFrom(FieldsTemplate(|fields| - k) + "\n", Strs(fields), k) == Ok(Join(",", fields[k..]) + "\n")
    decreases |fields| - k
  {
    var args := Strs(fields);
    FormatLiteral("\n", "", args, k + 1);
    assert "\n" + "" == "\n";
    if |fields| - k == 1 {
      FormatConversion('s', "\n", args, k);
      assert fields[k..] == [fields[k]];
    } else {
      var rest := FieldsTemplate(|fields| - k - 1) + "\n";
      FormatFields(fields, k + 1);
      FormatLiteral(",", rest, args, k + 1);
      FormatConversion('s', "," + rest, args, k);
      assert FieldsTemplate(|fields| - k) + "\n" == "%s" + ("," + rest);
      assert fields[k..][1..] == fields[k + 1..];
      var j := Join(",", fields[k + 1..]);
      assert RenderArg(args[k]) == fields[k];
      assert Join(",", fields[k..]) == fields[k] + "," + j;
      assert fields[k] + ("," + (j + "\n")) == fields[k] + "," + j + "\n";
    }
  }

  lemma RowTemplateShape()
    ensures RowTemplate == FieldsTemplate(10) + "\n"
  {
  }

  /** The row template renders any ten strings joined by commas. */
  lemma FormatRow(fields: seq<string>)
    requires |fields| == 10
    ensures Format(RowTemplate, Strs(fields)) == Ok(Join(",", fields) + "\n")
  {
    FormatFields(fields, 0);
    assert fields[0..] == fields;
    var t := FieldsTemplate(|fields| - 0) + "\n";
    assert FormatFrom(t, Strs(fields), 0) == Ok(Join(",", fields) + "\n");
    RowTemplateShape();
    assert t == RowTemplate;
    assert WellFormedTemplate(RowTemplate);
  }

  /** The row the `String.format` call appends: the ten columns joined by
      commas, no quoting or escaping, terminated by a newline. */
  function RenderRow(files: seq<File>, p: RolePatterns, r: EventResult): (row: string)
    ensures row == Join(",", RowFields(files, p, r)) + "\n"
  {
    var fields := RowFields(files, p, r);
    FormatRow(fields);
    Format(RowTemplate, Strs(fields)).value
  }

  /** No column is quoted or escaped: the row holds exactly nine separating
      commas beyond those inside the columns themselves, so a comma in a file
      name or a plate text shifts the columns that follow. */
  lemma RowCommas(files: seq<File>, p: RolePatterns, r: EventResult)
    ensures Occurrences(RenderRow(files, p, r), ',') == 9 + OccurrencesAll(RowFields(files, p, r), ',')
  {
    var fields := RowFields(files, p, r);
    JoinOccurrences(',', fields);
    OccurrencesConcat(Join([','], fields), "\n", ',');
    assert Occurrences("\n", ',') == 0;
  }

  /** `onNext`: a response carrying the event result yields the row to append;
      a partial result or a response with neither only logs. */
  function OnNext(files: seq<File>, p: RolePatterns, response: EventResponse): (out: Option<string>)
    ensures out.Some? <==> response.Final?
    ensures response.Final? ==> out.value == Join(",", RowFields(files, p, response.result)) + "\n"
  {
    match response
    case Final(result) => Some(RenderRow(files, p, result))
    case _ => None
  }
}
