/** The fault definitions the error log shows, and that all of them fit its pages. */
module FaultDefinitions {
  import opened ErrorLogScroll

  datatype Source = AcVoltage | OutputCurrent | Temperature | Battery | TaskWatchdog | Brownout | Nvs
    | Lcd | Button | RestartPolicy | Fan | PowerMeter | Other

  const NARROW: nat := 16
  const LINES: nat := 5

  /** source_definition, each text in the pieces a row of 16 columns can hold. */
  function Pieces(source: Source): seq<string> {
    match source
    case AcVoltage => ["AC voltage left ", "its safe range. ", "Check source and ", "output wiring."]
    case OutputCurrent => ["Output current ", "exceeded its ", "limit. Reduce ", "the connected ", "load."]
    case Temperature => ["Internal ", "temperature is ", "too high. Clear ", "vents and allow ", "cooling."]
    case Battery => ["Battery voltage ", "is outside ", "limits. Check ", "battery, wiring ", "and charge."]
    case TaskWatchdog => ["A monitored task ", "stopped ", "responding. ", "Review logs and ", "task health."]
    case Brownout => ["Supply voltage ", "dropped ", "unexpectedly. ", "Check battery ", "and connections."]
    case Nvs => ["Settings or log ", "storage failed. ", "Check NVS and ", "flash health."]
    case Lcd => ["LCD ", "communication ", "failed. Check ", "I2C wiring and ", "the 25 kHz bus."]
    case Button => ["Button input ", "fault detected. ", "Check switches ", "and button ", "wiring."]
    case RestartPolicy => ["Repeated restart ", "detected. ", "Inspect the ", "cause before ", "continued use."]
    case Fan => ["Cooling fan did ", "not respond as ", "expected. Check ", "fan and ", "tachometer."]
    case PowerMeter => ["Measurement or ", "telemetry event. ", "Verify sensors ", "and ADC ", "readings."]
    case Other => ["General system ", "event. Check the ", "event text and ", "system status."]
  }

  function Definition(source: Source): string { Join(Pieces(source)) }

  lemma PiecesAreRows(source: Source)
    ensures PiecesFit(Pieces(source), NARROW) && |Pieces(source)| <= LINES
  {
    match source
    case AcVoltage => ProtectionPiecesFit(source);
    case OutputCurrent => ProtectionPiecesFit(source);
    case Temperature => ProtectionPiecesFit(source);
    case Battery => ProtectionPiecesFit(source);
    case TaskWatchdog => SystemPiecesFit(source);
    case Brownout => SystemPiecesFit(source);
    case Nvs => SystemPiecesFit(source);
    case Lcd => SystemPiecesFit(source);
    case Button => SystemPiecesFit(source);
    case RestartPolicy => DevicePiecesFit(source);
    case Fan => DevicePiecesFit(source);
    case PowerMeter => DevicePiecesFit(source);
    case Other => DevicePiecesFit(source);
  }

  lemma ProtectionPiecesFit(source: Source)
    requires source.AcVoltage? || source.OutputCurrent? || source.Temperature? || source.Battery?
    ensures PiecesFit(Pieces(source), NARROW) && |Pieces(source)| <= LINES
  {
    match source
    case AcVoltage => assert PiecesFit(Pieces(AcVoltage), NARROW);
    case OutputCurrent => assert PiecesFit(Pieces(OutputCurrent), NARROW);
    case Temperature => assert PiecesFit(Pieces(Temperature), NARROW);
    case Battery => assert PiecesFit(Pieces(Battery), NARROW);
  }

  lemma SystemPiecesFit(source: Source)
    requires source.TaskWatchdog? || source.Brownout? || source.Nvs? || source.Lcd? || source.Button?
    ensures PiecesFit(Pieces(source), NARROW) && |Pieces(source)| <= LINES
  {
    match source
    case TaskWatchdog => assert PiecesFit(Pieces(TaskWatchdog), NARROW);
    case Brownout => assert PiecesFit(Pieces(Brownout), NARROW);
    case Nvs => assert PiecesFit(Pieces(Nvs), NARROW);
    case Lcd => assert PiecesFit(Pieces(Lcd), NARROW);
    case Button => assert PiecesFit(Pieces(Button), NARROW);
  }

  lemma DevicePiecesFit(source: Source)
    requires source.RestartPolicy? || source.Fan? || source.PowerMeter? || source.Other?
    ensures PiecesFit(Pieces(source), NARROW) && |Pieces(source)| <= LINES
  {
    match source
    case RestartPolicy => assert PiecesFit(Pieces(RestartPolicy), NARROW);
    case Fan => assert PiecesFit(Pieces(Fan), NARROW);
    case PowerMeter => assert PiecesFit(Pieces(PowerMeter), NARROW);
    case Other => assert PiecesFit(Pieces(Other), NARROW);
  }

  /** Every definition wraps into at most five lines on 16 columns, and so on any wider display. */
  lemma DefinitionsWrap(source: Source, width: nat)
    requires width >= NARROW
    ensures WrapsInto(Definition(source), width, 0, LINES)
  {
    PiecesAreRows(source);
    JoinedPiecesWrap(Definition(source), Pieces(source), NARROW, width, LINES);
  }

  /** So every line of every definition can be scrolled into view, and the rows of all pages together show
      every non-blank character of it, in order and once. */
  lemma DefinitionsAreShown(source: Source, width: nat)
    requires width >= NARROW
    ensures var lines := Lines(Definition(source), width);
            && NonBlank(Join(RowsFrom(lines, width, 0))) == NonBlank(Definition(source))
            && forall line :: 0 <= line < |lines| ==> Reachable(lines, width, line)
  {
    var text, lines := Definition(source), Lines(Definition(source), width);
    DefinitionsWrap(source, width);
    BudgetIsAmple(text, width, 0, LINES, Capacity(width));
    BudgetIsAmple(text, width, 0, LINES, MAX_LINES);
    PagesLoseNothing(text, width);
    forall line | 0 <= line < |lines|
      ensures Reachable(lines, width, line)
    {
      assert SameText(lines, width, line, line);
      ScrollsTo(lines, width, line, line);
    }
  }
}
