/**
 * Behaviour attached to the mapped classes: the attribute validators and
 * the `__str__` / `__repr__` renderers.
 */
module Classes {
  import opened Wrappers
  import opened Text
  import opened Schema
  import opened DateTimes

  /**
   * `Operator.validate_email`, the same in both revisions: `'@' in address`
   * must hold, and the address is stored as given.  A number has no `in`;
   * a list of records never holds the string `'@'`.
   */
  function ValidateEmail(address: Value): (r: Result<Value>)
    ensures r.Ok? ==> r.value == address
    ensures r.Ok? <==> address.Str? && Contains(address.s, "@")
    ensures address.Str? && !Contains(address.s, "@") ==> r == Err(AssertionError)
  {
    match address
    case Str(s) => if Contains(s, "@") then Ok(address) else Err(AssertionError)
    case Refs(_) => Err(AssertionError)
    case _ => Err(TypeError("argument is not iterable"))
  }

  // --- Rendering of dates (labbookdb/db/base_classes.py).

  /**
   * What `dt_format` hands back: the text "ONGOING" for a missing date, the
   * date part of a datetime at midnight, or the datetime itself.
   */
  datatype Formatted = Ongoing | Day(dt: Moment) | Stamp(dt: Moment)

  /** `dt_format` of the schema classes. */
  function DtFormat(d: Option<Moment>): (r: Formatted)
    ensures r == Ongoing <==> d.None?
    ensures d.Some? ==> !r.Ongoing? && r.dt == d.value
    ensures r.Day? <==> d.Some? && IsMidnight(d.value)
  {
    match d
    case None => Ongoing
    case Some(dt) => if IsMidnight(dt) then Day(dt) else Stamp(dt)
  }

  /** How a formatted value appears inside a `str.format` template. */
  function Shown(f: Formatted): string
  {
    match f
    case Ongoing => "ONGOING"
    case Day(dt) => DateString(dt)
    case Stamp(dt) => ToString(dt)
  }

  /** Python's `str` of an optional text: `None` is shown as "None". */
  function NoneText(o: Option<string>): (r: string)
    ensures o.Some? ==> r == o.value
  {
    match o
    case None => "None"
    case Some(s) => s
  }

  /**
   * Dropping the time of a midnight datetime loses nothing: the full
   * rendering is the shown date followed by a zero time.  Any other datetime
   * is shown in full.
   */
  lemma ShownDate(m: Moment)
    ensures IsMidnight(m) ==> ToString(m) == Shown(DtFormat(Some(m))) + " 00:00:00"
    ensures !IsMidnight(m) ==> Shown(DtFormat(Some(m))) == ToString(m)
  {
    if IsMidnight(m) {
      TwoZeros();
    }
  }

  lemma TwoZeros()
    ensures ZeroPad(0, 2) == "00"
  {
    assert NatToString(0) == "0";
    assert Zeros(1) == "0";
  }

  /** A shown date begins and ends with a digit, so it is never mistaken for "ONGOING". */
  lemma ShownDigits(m: Moment)
    ensures |Shown(DtFormat(Some(m)))| >= 10
    ensures IsDigit(Shown(DtFormat(Some(m)))[0])
    ensures IsDigit(Shown(DtFormat(Some(m)))[|Shown(DtFormat(Some(m)))| - 1])
  {
    ToStringShape(m);
    var year := ZeroPad(m.year, 4);
    assert DateString(m)[0] == year[0];
    assert ToString(m)[0] == DateString(m)[0];
    if m.micro != 0 {
      var tail := ZeroPad(m.micro, 6);
      assert ToString(m)[|ToString(m)| - 1] == tail[|tail| - 1];
    } else {
      var tail := ZeroPad(m.second, 2);
      assert ToString(m)[|ToString(m)| - 1] == tail[|tail| - 1];
    }
    var day := ZeroPad(m.day, 2);
    assert DateString(m)[|DateString(m)| - 1] == day[|day| - 1];
  }

  /** A text ends with "ONGOING" after a separator exactly when the date shown there is missing. */
  lemma EndsOngoing(prefix: string, d: Option<Moment>)
    ensures EndsWith(prefix + Shown(DtFormat(d)), "ONGOING") <==> d.None?
  {
    var s := prefix + Shown(DtFormat(d));
    if d.Some? {
      ShownDigits(d.value);
      var shown := Shown(DtFormat(d));
      assert s[|s| - 1] == shown[|shown| - 1];
    } else {
      assert s[|s| - 7..] == "ONGOING";
    }
  }

  // --- `__str__` of the schema classes (labbookdb/db/base_classes.py, labbookdb/db/common_classes.py).

  /** `Protocol.__str__`: the code, which can be read back from between the fixed brackets. */
  function ProtocolStr(code: Option<string>): (r: string)
    ensures |r| == |NoneText(code)| + 16
    ensures StartsWith(r, "Protocol(code: ") && EndsWith(r, ")")
    ensures r[15..|r| - 1] == NoneText(code)
  {
    "Protocol(code: " + NoneText(code) + ")"
  }

  /** `Measurement.__str__`: the measurement type, then the formatted date in brackets. */
  function MeasurementStr(kind: Option<string>, date: Option<Moment>): (r: string)
    ensures |r| == |NoneText(kind)| + |Shown(DtFormat(date))| + 8
    ensures StartsWith(r, NoneText(kind) + "(date: ") && EndsWith(r, ")")
    ensures r[|NoneText(kind)| + 7..|r| - 1] == Shown(DtFormat(date))
  {
    NoneText(kind) + "(date: " + Shown(DtFormat(date)) + ")"
  }

  /** The protocol a treatment follows; its `code` may be empty (`None`). */
  datatype ProtocolRef = ProtocolRef(code: Option<string>)

  datatype TreatmentRecord = TreatmentRecord(start: Option<Moment>, end: Option<Moment>, protocol: Option<ProtocolRef>)

  /**
   * `Treatment.__str__`: "protocol CODE, START - END".  A treatment without a
   * protocol has no `code` to show.
   */
  function TreatmentStr(t: TreatmentRecord): (r: Result<string>)
    ensures r.Err? <==> t.protocol.None?
    ensures r.Err? ==> r.error == AttributeError("code")
    ensures r.Ok? ==> StartsWith(r.value, "protocol " + NoneText(t.protocol.value.code) + ", " + Shown(DtFormat(t.start)) + " - ")
    ensures r.Ok? ==> (EndsWith(r.value, "ONGOING") <==> t.end.None?)
  {
    match t.protocol
    case None => Err(AttributeError("code"))
    case Some(p) =>
      var head := "protocol " + NoneText(p.code) + ", " + Shown(DtFormat(t.start)) + " - ";
      EndsOngoing(head, t.end);
      Ok(head + Shown(DtFormat(t.end)))
  }

  /** `Operation.__str__`: the formatted date and the types of the operation's protocols. */
  function OperationStr(date: Option<Moment>, types: seq<string>): (r: string)
    ensures |r| == |Shown(DtFormat(date))| + |Join(types, "; ")| + 13
    ensures StartsWith(r, "Operation(" + Shown(DtFormat(date)) + ": ") && EndsWith(r, ")")
    ensures r[|Shown(DtFormat(date))| + 12..|r| - 1] == Join(types, "; ")
  {
    "Operation(" + Shown(DtFormat(date)) + ": " + Join(types, "; ") + ")"
  }

  /**
   * The protocol types can be read back from an operation's text, in their
   * order, when none of them holds the separator "; " or ends in either of
   * its characters.
   */
  lemma OperationTypesBack(date: Option<Moment>, types: seq<string>)
    requires |types| >= 1
    requires forall k :: 0 <= k < |types| ==> CleanPart(types[k], "; ")
    ensures var r := OperationStr(date, types);
            Split(r[|Shown(DtFormat(date))| + 12..|r| - 1], "; ") == types
  {
    SplitJoin(types, "; ");
  }

  /** `CageStay.__str__`: "cage ID, starting START". */
  function CageStayStr(cageId: Option<int>, start: Option<Moment>): (r: string)
    ensures StartsWith(r, "cage " + (if cageId.Some? then IntToString(cageId.value) else "None") + ", starting ")
    ensures EndsWith(r, "ONGOING") <==> start.None?
  {
    var head := "cage " + (if cageId.Some? then IntToString(cageId.value) else "None") + ", starting ";
    EndsOngoing(head, start);
    head + Shown(DtFormat(start))
  }

  /** An external identifier of an animal, in a named database. */
  datatype ExternalId = ExternalId(identifier: string, database: string)

  /** An animal as a cage report sees it: its id and external identifiers. */
  datatype AnimalIds = AnimalIds(id: int, externalIds: seq<ExternalId>)

  /** "IDENTIFIER(DATABASE)" for each external identifier, in order. */
  function IdentifierList(ids: seq<ExternalId>): (r: seq<string>)
    ensures |r| == |ids|
    ensures forall k :: 0 <= k < |ids| ==> r[k] == ids[k].identifier + "(" + ids[k].database + ")"
  {
    if |ids| == 0 then []
    else [ids[0].identifier + "(" + ids[0].database + ")"] + IdentifierList(ids[1..])
  }

  /** The line of a cage report for one animal, its start date shown as a template would show it. */
  function AnimalLine(a: AnimalIds, start: Option<Moment>): string
  {
    "Animal " + IntToString(a.id) + "[" + Join(IdentifierList(a.externalIds), ", ") + "] starting " + Shown(DtFormat(start))
  }

  /** Python's type name of what `dt_format` returns for a date that is present. */
  function FormattedType(f: Formatted): string
  {
    match f
    case Ongoing => "str"
    case Day(_) => "datetime.date"
    case Stamp(_) => "datetime.datetime"
  }

  /**
   * `CageStay.report_animals` as written: each line ends in `"... starting " +
   * dt_format(start_date)`, and concatenating text with the date or
   * datetime `dt_format` returns for a present start date fails.
   */
  function ReportAnimalsAsWritten(animals: seq<AnimalIds>, start: Option<Moment>): (r: Result<seq<string>>)
  {
    if |animals| == 0 then Ok([])
    else
      match DtFormat(start)
      case Ongoing => Ok(ReportAnimals(animals, start))
      case _ => Err(TypeError("can only concatenate str (not \"" + FormattedType(DtFormat(start)) + "\") to str"))
  }

  /**
   * `CageStay.report_animals` as evidently intended: exactly one line per
   * animal of the stay, in order, the start date shown as the other
   * renderers show it.
   */
  function ReportAnimals(animals: seq<AnimalIds>, start: Option<Moment>): (r: seq<string>)
    ensures |r| == |animals|
    ensures forall k :: 0 <= k < |animals| ==> r[k] == AnimalLine(animals[k], start)
  {
    if |animals| == 0 then []
    else
      var rest := ReportAnimals(animals[1..], start);
      [AnimalLine(animals[0], start)] + rest
  }

  /**
   * The report as written succeeds only for a stay without animals or
   * without a start date, and then agrees with the intended report; a stay
   * with a start date and an animal raises a `TypeError`.
   */
  lemma ReportAnimalsDefect(animals: seq<AnimalIds>, start: Option<Moment>)
    ensures ReportAnimalsAsWritten(animals, start).Ok? <==> |animals| == 0 || start.None?
    ensures ReportAnimalsAsWritten(animals, start).Ok? ==> ReportAnimalsAsWritten(animals, start).value == ReportAnimals(animals, start)
    ensures |animals| > 0 && start.Some? ==> ReportAnimalsAsWritten(animals, start).error.TypeError?
  {
  }

  /** A cage stay as a cage report sees it. */
  datatype StayRecord = StayRecord(start: Option<Moment>, animals: seq<AnimalIds>)

  datatype CageRecord = CageRecord(id: int, idLocal: Option<string>, location: Option<string>, stays: seq<StayRecord>)

  /** The local id a cage is shown by: `id_local` when it is non-empty text, else the database id. */
  function LocalShown(c: CageRecord): (r: string)
    ensures c.idLocal.Some? && c.idLocal.value != "" ==> r == c.idLocal.value
    ensures c.idLocal.None? || c.idLocal.value == "" ==> r == IntToString(c.id)
  {
    if c.idLocal.Some? && c.idLocal.value != "" then c.idLocal.value else IntToString(c.id)
  }

  /** The report lines of each stay joined into one block per stay. */
  function StayBlocks(stays: seq<StayRecord>): (r: seq<string>)
    ensures |r| == |stays|
    ensures forall k :: 0 <= k < |stays| ==> r[k] == Join(ReportAnimals(stays[k].animals, stays[k].start), "\n\t")
  {
    if |stays| == 0 then []
    else
      var rest := StayBlocks(stays[1..]);
      [Join(ReportAnimals(stays[0].animals, stays[0].start), "\n\t")] + rest
  }

  /** The report lines of all stays, one after the other. */
  function AllLines(stays: seq<StayRecord>): seq<string>
  {
    if |stays| == 0 then [] else ReportAnimals(stays[0].animals, stays[0].start) + AllLines(stays[1..])
  }

  /** The first line of a cage's text: its id, location and shown local id. */
  function CageHeading(c: CageRecord): string
  {
    "Cage(id: " + IntToString(c.id) + ", location: " + NoneText(c.location) + ", id_local: " + LocalShown(c) + "):\n\t"
  }

  /**
   * `Cage.__str__` as evidently intended: a header naming the cage, then
   * the stays' report blocks on indented lines.
   */
  function CageStr(c: CageRecord): (r: string)
    ensures StartsWith(r, CageHeading(c))
    ensures r[|CageHeading(c)|..] == Join(StayBlocks(c.stays), "\n\t")
  {
    var head := CageHeading(c);
    var r := head + Join(StayBlocks(c.stays), "\n\t");
    assert r[..|head|] == head && r[|head|..] == Join(StayBlocks(c.stays), "\n\t");
    r
  }

  /** A stay whose report, as written, raises: it has an animal and a start date. */
  predicate ReportFails(st: StayRecord)
  {
    |st.animals| > 0 && st.start.Some?
  }

  /** The blocks of `Cage.__str__` as written: each stay's report in turn, the first failing one ending the call. */
  function StayBlocksAsWritten(stays: seq<StayRecord>): (r: Result<seq<string>>)
  {
    if |stays| == 0 then Ok([])
    else
      match ReportAnimalsAsWritten(stays[0].animals, stays[0].start)
      case Err(e) => Err(e)
      case Ok(lines) =>
        match StayBlocksAsWritten(stays[1..])
        case Err(e) => Err(e)
        case Ok(rest) => Ok([Join(lines, "\n\t")] + rest)
  }

  /** `Cage.__str__` as written, on top of `report_animals` as written. */
  function CageStrAsWritten(c: CageRecord): (r: Result<string>)
  {
    match StayBlocksAsWritten(c.stays)
    case Err(e) => Err(e)
    case Ok(blocks) => Ok(CageHeading(c) + Join(blocks, "\n\t"))
  }

  /**
   * The as-written blocks fail, with a `TypeError`, exactly when some stay
   * has an animal and a start date; otherwise they are the intended blocks.
   */
  lemma {:induction false} StayBlocksDefect(stays: seq<StayRecord>)
    ensures StayBlocksAsWritten(stays).Ok? <==> forall k :: 0 <= k < |stays| ==> !ReportFails(stays[k])
    ensures StayBlocksAsWritten(stays).Ok? ==> StayBlocksAsWritten(stays).value == StayBlocks(stays)
    ensures StayBlocksAsWritten(stays).Err? ==> StayBlocksAsWritten(stays).error.TypeError?
  {
    if |stays| > 0 {
      ReportAnimalsDefect(stays[0].animals, stays[0].start);
      StayBlocksDefect(stays[1..]);
      assert forall k :: 1 <= k < |stays| ==> stays[k] == stays[1..][k - 1];
    }
  }

  /**
   * A cage is shown as written only when none of its stays has both an
   * animal and a start date, and then as intended; otherwise the call
   * raises a `TypeError`.
   */
  lemma CageStrDefect(c: CageRecord)
    ensures CageStrAsWritten(c).Ok? <==> forall k :: 0 <= k < |c.stays| ==> !ReportFails(c.stays[k])
    ensures CageStrAsWritten(c).Ok? ==> CageStrAsWritten(c).value == CageStr(c)
    ensures CageStrAsWritten(c).Err? ==> CageStrAsWritten(c).error.TypeError?
  {
    StayBlocksDefect(c.stays);
  }

  /**
   * When every stay holds an animal, the body of a cage's text is its
   * animals' report lines, one per line, stay after stay: one line for each
   * animal of each stay.
   */
  lemma {:induction false} CageLines(c: CageRecord)
    requires forall k :: 0 <= k < |c.stays| ==> |c.stays[k].animals| > 0
    ensures CageStr(c) == CageHeading(c) + Join(AllLines(c.stays), "\n\t")
    ensures |AllLines(c.stays)| == AnimalCount(c.stays)
  {
    BlocksFlatten(c.stays);
  }

  /** The number of animals over all stays. */
  function AnimalCount(stays: seq<StayRecord>): nat
  {
    if |stays| == 0 then 0 else |stays[0].animals| + AnimalCount(stays[1..])
  }

  lemma {:induction false} BlocksFlatten(stays: seq<StayRecord>)
    requires forall k :: 0 <= k < |stays| ==> |stays[k].animals| > 0
    ensures Join(StayBlocks(stays), "\n\t") == Join(AllLines(stays), "\n\t")
    ensures |AllLines(stays)| == AnimalCount(stays)
    decreases |stays|
  {
    if |stays| > 0 {
      BlocksFlatten(stays[1..]);
      var first := ReportAnimals(stays[0].animals, stays[0].start);
      var blocks := StayBlocks(stays);
      assert blocks == [Join(first, "\n\t")] + StayBlocks(stays[1..]);
      assert AllLines(stays) == first + AllLines(stays[1..]);
      if |stays| > 1 {
        assert |AllLines(stays[1..])| > 0 by {
          assert |stays[1..][0].animals| > 0;
        }
        assert blocks[1..] == StayBlocks(stays[1..]);
        JoinAppend(first, AllLines(stays[1..]), "\n\t");
      } else {
        assert first + [] == first;
      }
    }
  }

  // --- `FMRIMeasurement.__str__` (labbookdb/db/common_classes.py).

  /** A temperature as `str.format` shows it, and whether it is zero (and so false). */
  datatype Temperature = Temperature(shown: string, zero: bool)

  datatype FMRIRecord = FMRIRecord(date: Option<Moment>, temperature: Option<Temperature>, stimulations: seq<string>)

  /** The attributes an `FMRIMeasurement` has: its own columns and relationships and those of `Measurement`. */
  const FMRIAttributes: set<string> := {
    "id", "date", "animal_id", "cage_id", "operator_id", "operator", "type",
    "temperature", "anesthesia_id", "anesthesia", "scanner_setup_id", "scanner_setup", "data_path", "stimulations"}

  /** The irregularity description that marks an animal as not responding. */
  const NonResponse := "failed to indicate response to stimulus"

  /**
   * `FMRIMeasurement.__str__` as written: after the temperature and the
   * stimulations the template asks for `self.irregularities`, which the
   * measurement looks up among its attributes.
   */
  function FMRIStrAsWritten(m: FMRIRecord): (r: Result<string>)
  {
    if "irregularities" in FMRIAttributes then Ok(FMRIStr(m, []))
    else Err(AttributeError("irregularities"))
  }

  /** No fMRI measurement can be shown as written: the irregularities are not an attribute of it. */
  lemma FMRIStrAlwaysFails(m: FMRIRecord)
    ensures FMRIStrAsWritten(m) == Err(AttributeError("irregularities"))
  {
    assert "irregularities" !in FMRIAttributes;
  }

  /** Some irregularity description says that the animal did not respond. */
  predicate Nonrespondent(descriptions: seq<string>)
  {
    exists k :: 0 <= k < |descriptions| && Contains(descriptions[k], NonResponse)
  }

  function TemperaturePart(m: FMRIRecord): string
  {
    if m.temperature.Some? && !m.temperature.value.zero then ": temp: " + m.temperature.value.shown else ""
  }

  function StimulationPart(m: FMRIRecord): string
  {
    if |m.stimulations| > 0 then "; stim: " + Join(m.stimulations, ", ") else ""
  }

  /**
   * `FMRIMeasurement.__str__` as evidently intended, with the descriptions
   * of the measurement's irregularities given: the date, the temperature
   * when it is true, the stimulation codes when there are any, and a
   * NONRESPONDENT mark when an irregularity says so.
   */
  function FMRIStr(m: FMRIRecord, descriptions: seq<string>): (r: string)
    ensures StartsWith(r, "fMRI(" + Shown(DtFormat(m.date)) + TemperaturePart(m) + StimulationPart(m)) && EndsWith(r, ")")
    ensures TemperaturePart(m) != "" <==> m.temperature.Some? && !m.temperature.value.zero
    ensures StimulationPart(m) != "" <==> |m.stimulations| > 0
    ensures Nonrespondent(descriptions) ==> EndsWith(r, "; NONRESPONDENT)")
  {
    var body := "fMRI(" + Shown(DtFormat(m.date)) + TemperaturePart(m) + StimulationPart(m);
    var mark := if Nonrespondent(descriptions) then "; NONRESPONDENT" else "";
    Closed(body, mark);
    body + mark + ")"
  }

  /** A text closed after an optional mark starts with its body, and ends with the mark and the parenthesis. */
  lemma Closed(body: string, mark: string)
    ensures StartsWith(body + mark + ")", body) && EndsWith(body + mark + ")", ")")
    ensures mark == "; NONRESPONDENT" ==> EndsWith(body + mark + ")", "; NONRESPONDENT)")
  {
    var r := body + mark + ")";
    assert r[..|body|] == body;
    assert r[|r| - |mark + ")"|..] == mark + ")";
    assert "; NONRESPONDENT" + ")" == "; NONRESPONDENT)";
  }

  /** A text that is not empty and does not end in the last letter of the mark. */
  predicate Unmarked(x: string)
  {
    |x| > 0 && x[|x| - 1] != 'T'
  }

  /**
   * The mark shows exactly the non-responding animals, provided the
   * temperature and the stimulation codes are shown as non-empty texts that
   * do not end in 'T' (no text of a number does, which covers the
   * temperature; for the stimulation codes it is a premise).
   */
  lemma FMRIMarkIff(m: FMRIRecord, descriptions: seq<string>)
    requires m.temperature.Some? ==> Unmarked(m.temperature.value.shown)
    requires forall k :: 0 <= k < |m.stimulations| ==> Unmarked(m.stimulations[k])
    ensures EndsWith(FMRIStr(m, descriptions), "; NONRESPONDENT)") <==> Nonrespondent(descriptions)
  {
    var body := "fMRI(" + Shown(DtFormat(m.date)) + TemperaturePart(m) + StimulationPart(m);
    if !Nonrespondent(descriptions) {
      var r := FMRIStr(m, descriptions);
      assert r == body + ")";
      var last: string;
      if |m.stimulations| > 0 {
        last := m.stimulations[|m.stimulations| - 1];
        JoinEndsWithLast(m.stimulations, ", ");
        var j := Join(m.stimulations, ", ");
        assert body[|body| - 1] == j[|j| - 1];
      } else if TemperaturePart(m) != "" {
        last := m.temperature.value.shown;
        assert body[|body| - 1] == last[|last| - 1];
      } else {
        last := Shown(DtFormat(m.date));
        if m.date.Some? {
          ShownDigits(m.date.value);
        }
        assert body[|body| - 1] == last[|last| - 1];
      }
      assert body[|body| - 1] != 'T';
    }
  }

  // --- `__repr__` of the older revision (db/common_classes.py).

  datatype GenotypeRecord = GenotypeRecord(code: Option<string>, construct: Option<string>, zygosity: Option<string>)

  /** `Genotype.__repr__`: code, construct and zygosity, each in single quotes (no comma before the zygosity). */
  function GenotypeRepr(g: GenotypeRecord): (r: string)
    ensures StartsWith(r, "<Genotype(code='" + NoneText(g.code) + "', construct='") && EndsWith(r, "')>")
  {
    "<Genotype(code='" + NoneText(g.code) + "', construct='" + NoneText(g.construct) + "' zygosity='" + NoneText(g.zygosity) + "')>"
  }

  /**
   * The three fields can be read back from the representation by splitting
   * it at the single quotes, when none of them holds a quote.
   */
  lemma GenotypeReprFields(g: GenotypeRecord)
    requires !Contains(NoneText(g.code), "'") && !Contains(NoneText(g.construct), "'") && !Contains(NoneText(g.zygosity), "'")
    ensures var parts := Split(GenotypeRepr(g), "'");
            |parts| == 7 && parts[1] == NoneText(g.code) && parts[3] == NoneText(g.construct) && parts[5] == NoneText(g.zygosity)
  {
    var a, b, c := NoneText(g.code), NoneText(g.construct), NoneText(g.zygosity);
    var parts := ["<Genotype(code=", a, ", construct=", b, " zygosity=", c, ")>"];
    GenotypeJoin(a, b, c);
    QuoteFree(a);
    QuoteFree(b);
    QuoteFree(c);
    GenotypeLiteralsClean(parts);
    SevenClean(parts, "'");
    SplitJoin(parts, "'");
  }

  lemma SevenClean(parts: seq<string>, sep: string)
    requires |sep| > 0 && |parts| == 7
    requires CleanPart(parts[0], sep) && CleanPart(parts[1], sep) && CleanPart(parts[2], sep) && CleanPart(parts[3], sep)
    requires CleanPart(parts[4], sep) && CleanPart(parts[5], sep) && CleanPart(parts[6], sep)
    ensures forall k :: 0 <= k < |parts| ==> CleanPart(parts[k], sep)
  {
  }

  /** The pieces of a genotype's representation between its quotes join back to it. */
  lemma GenotypeJoin(a: string, b: string, c: string)
    ensures Join(["<Genotype(code=", a, ", construct=", b, " zygosity=", c, ")>"], "'") ==
            "<Genotype(code='" + a + "', construct='" + b + "' zygosity='" + c + "')>"
  {
    JoinSeven("<Genotype(code=", a, ", construct=", b, " zygosity=", c, ")>", "'");
    assert "<Genotype(code=" + "'" == "<Genotype(code='";
    assert "'" + ", construct=" + "'" == "', construct='";
    assert "'" + " zygosity=" + "'" == "' zygosity='";
    assert "'" + ")>" == "')>";
  }

  /** Seven parts joined: each pair of neighbours with the separator between them. */
  lemma JoinSeven(p0: string, p1: string, p2: string, p3: string, p4: string, p5: string, p6: string, sep: string)
    ensures Join([p0, p1, p2, p3, p4, p5, p6], sep) ==
            (p0 + sep) + p1 + (sep + p2 + sep) + p3 + (sep + p4 + sep) + p5 + (sep + p6)
  {
    var tail := Join([p3, p4, p5, p6], sep);
    JoinFour(p3, p4, p5, p6, sep);
    JoinCons(p2, [p3, p4, p5, p6], sep);
    JoinCons(p1, [p2, p3, p4, p5, p6], sep);
    JoinCons(p0, [p1, p2, p3, p4, p5, p6], sep);
    JoinThreeOnto(p0, p1, p2, tail, sep);
  }

  lemma JoinFour(p3: string, p4: string, p5: string, p6: string, sep: string)
    ensures Join([p3, p4, p5, p6], sep) == p3 + (sep + p4 + sep) + p5 + (sep + p6)
  {
    var parts := [p3, p4, p5, p6];
    assert parts[2..] == [p5, p6];
    JoinTwo(p5, p6, sep);
    JoinStep(parts, 1, sep);
    JoinStep(parts, 0, sep);
    assert parts[0..] == parts;
  }

  lemma JoinTwo(p5: string, p6: string, sep: string)
    ensures Join([p5, p6], sep) == p5 + sep + p6
  {
    assert [p5, p6][1..] == [p6];
  }

  /** Three parts and their separators put in front of an already joined tail. */
  lemma JoinThreeOnto(p0: string, p1: string, p2: string, tail: string, sep: string)
    ensures p0 + sep + (p1 + sep + (p2 + sep + tail)) == (p0 + sep) + p1 + (sep + p2 + sep) + tail
  {
  }

  lemma GenotypeLiteralsClean(parts: seq<string>)
    requires |parts| == 7
    requires parts[0] == "<Genotype(code=" && parts[2] == ", construct=" && parts[4] == " zygosity=" && parts[6] == ")>"
    ensures CleanPart(parts[0], "'") && CleanPart(parts[2], "'") && CleanPart(parts[4], "'") && CleanPart(parts[6], "'")
  {
    NoQuoteChar(parts[0]);
    NoQuoteChar(parts[2]);
    NoQuoteChar(parts[4]);
    NoQuoteChar(parts[6]);
  }

  /** A text none of whose characters is a quote holds no quote. */
  lemma NoQuoteChar(x: string)
    requires forall i :: 0 <= i < |x| ==> x[i] != '\''
    ensures CleanPart(x, "'")
  {
    forall i | 0 <= i && i + 1 <= |x|
      ensures !OccursAt(x, "'", i)
    {
      assert x[i..i + 1][0] == x[i];
    }
    ContainsIff(x, "'");
  }

  /** A text without a quote does not end in one either. */
  lemma QuoteFree(x: string)
    requires !Contains(x, "'")
    ensures CleanPart(x, "'")
  {
    if |x| > 0 && x[|x| - 1] == '\'' {
      assert OccursAt(x, "'", |x| - 1);
      ContainsIff(x, "'");
    }
  }

  /** Python's `repr` of a list of texts, for texts without quotes or backslashes. */
  function ListRepr(items: seq<string>): string
  {
    "[" + Join(Quoted(items), ", ") + "]"
  }

  function Quoted(items: seq<string>): (r: seq<string>)
    ensures |r| == |items|
    ensures forall k :: 0 <= k < |items| ==> r[k] == "'" + items[k] + "'"
  {
    if |items| == 0 then [] else ["'" + items[0] + "'"] + Quoted(items[1..])
  }

  /**
   * `construct + " " + zygosity` for each genotype of an animal, in the
   * order of the relationship; adding to a missing text fails.
   */
  function GenotypeLabels(gs: seq<GenotypeRecord>): (r: Result<seq<string>>)
    ensures r.Ok? <==> forall k :: 0 <= k < |gs| ==> gs[k].construct.Some? && gs[k].zygosity.Some?
    ensures r.Ok? ==> |r.value| == |gs| &&
                      forall k :: 0 <= k < |gs| ==> r.value[k] == gs[k].construct.value + " " + gs[k].zygosity.value
    ensures r.Err? ==> r.error.TypeError?
  {
    if |gs| == 0 then Ok([])
    else if gs[0].construct.None? then Err(TypeError("unsupported operand type(s) for +: 'NoneType' and 'str'"))
    else if gs[0].zygosity.None? then Err(TypeError("can only concatenate str (not \"NoneType\") to str"))
    else
      match GenotypeLabels(gs[1..])
      case Err(e) => Err(e)
      case Ok(rest) =>
        assert forall k :: 1 <= k < |gs| ==> gs[k] == gs[1..][k - 1];
        Ok([gs[0].construct.value + " " + gs[0].zygosity.value] + rest)
  }

  /**
   * The representations of the solutions of an animal's treatments' protocols;
   * `None` stands for a treatment without a protocol, which has no `solution`.
   */
  function SolutionReprs(treatments: seq<Option<string>>): (r: Result<seq<string>>)
    ensures r.Ok? <==> forall k :: 0 <= k < |treatments| ==> treatments[k].Some?
    ensures r.Ok? ==> |r.value| == |treatments| && forall k :: 0 <= k < |treatments| ==> r.value[k] == treatments[k].value
    ensures r.Err? ==> r.error == AttributeError("solution")
  {
    if |treatments| == 0 then Ok([])
    else if treatments[0].None? then Err(AttributeError("solution"))
    else
      match SolutionReprs(treatments[1..])
      case Err(e) => Err(e)
      case Ok(rest) =>
        assert forall k :: 1 <= k < |treatments| ==> treatments[k] == treatments[1..][k - 1];
        Ok([treatments[0].value] + rest)
  }

  datatype AnimalRecord = AnimalRecord(
    id: int, idEth: Option<int>, idUzh: Option<string>, sex: Option<string>, earPunches: Option<string>,
    genotypes: seq<GenotypeRecord>, treatments: seq<Option<string>>)

  function IntText(o: Option<int>): string
  {
    if o.Some? then IntToString(o.value) else "None"
  }

  /**
   * `Animal.__repr__`: the identifiers, the list of "construct zygosity"
   * labels of the genotypes, sex, ear punches and the list of the
   * treatments' solutions.  The genotype labels are built first, so a
   * genotype without a text fails before a treatment without a protocol.
   */
  function AnimalRepr(a: AnimalRecord): (r: Result<string>)
    ensures r.Ok? <==> GenotypeLabels(a.genotypes).Ok? && SolutionReprs(a.treatments).Ok?
    ensures GenotypeLabels(a.genotypes).Err? ==> r == Err(GenotypeLabels(a.genotypes).error)
    ensures r.Ok? ==> StartsWith(r.value, "<Animal(id='" + IntToString(a.id) + "', id_eth='" + IntText(a.idEth) + "', id_uzh='" +
                                          NoneText(a.idUzh) + "', genotypes='" + ListRepr(GenotypeLabels(a.genotypes).value) + "', sex='")
    ensures r.Ok? ==> EndsWith(r.value, "', treatment='[" + Join(SolutionReprs(a.treatments).value, ", ") + "]')>")
  {
    match GenotypeLabels(a.genotypes)
    case Err(e) => Err(e)
    case Ok(labels) =>
      match SolutionReprs(a.treatments)
      case Err(e) => Err(e)
      case Ok(solutions) =>
        var head := "<Animal(id='" + IntToString(a.id) + "', id_eth='" + IntText(a.idEth) + "', id_uzh='" + NoneText(a.idUzh) +
                    "', genotypes='" + ListRepr(labels) + "', sex='";
        var tail := "', treatment='[" + Join(solutions, ", ") + "]')>";
        var r := head + NoneText(a.sex) + "', ear_punches='" + NoneText(a.earPunches) + tail;
        assert r[..|head|] == head;
        assert r[|r| - |tail|..] == tail;
        Ok(r)
  }
}
