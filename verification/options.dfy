/**
 * The option checks of XLCalendar's `main`: each command-line option either
 * updates the settings or stops the program with a message (the help text
 * after an error, or the version). The command line reaches this module
 * already split into options, each with the words that follow it on the
 * command line, and each numeric word already read by Python's `int()`.
 */
module Options {
  import opened Results
  import opened Decimal

  /** A numeric option argument: absent (the command line ended), unreadable, or a number. */
  datatype IntArg = Missing | NotANumber | Number(value: int)

  datatype CliOption =
    | Help                                  // -h, --help
    | Version                               // -v, --version
    | Start(month: IntArg, year: IntArg)    // -s <M> <YYYY>
    | End(month: IntArg, year: IntArg)      // -e <M> <YYYY>
    | Output(name: Option<string>)          // -o <output_file>
    | ColumnWidth(percent: IntArg)          // -wr <%>
    | RowHeight(percent: IntArg)            // -hr <%>
    | ForceDutch                            // -fnl
    | Unknown(token: string)

  /**
   * The program's option dictionary. Column widths and row heights are kept as
   * the list of accepted percentages: the width is 3.5 times the product of
   * `p / 100` over the list, the height 12.7 times the same product.
   */
  datatype Settings = Settings(
    startMonth: int, startYear: int,
    endMonth: int, endYear: int,
    outputFile: string, outputFileSet: bool,
    columnWidthPercents: seq<int>, rowHeightPercents: seq<int>,
    forceDutch: bool)

  /** Why the program printed the help text and stopped. */
  datatype OptionError =
    | HelpRequested
    | MissingArgument(option: string)
    | NotANumberArgument(option: string)
    | MonthOutOfRange(option: string)
    | YearNotPositive(option: string)
    | PercentNotPositive(option: string)
    | InvalidFileName
    | NoSuchOption(token: string)
    | EndBeforeStart
    | SpanOverHundredYears

  /** What the command line leads to: a calendar file, the version line, or the help text. */
  datatype Verdict = Generate(settings: Settings) | ShowVersion | Reject(error: OptionError)

  /** The state after one option: keep going, or stop with a verdict. */
  datatype Step = Continue(settings: Settings) | Halt(verdict: Verdict)

  const DefaultOutputFile := "Calendar.xlsx"

  /** The settings before any option is read; `todayYear` is the current year. */
  function Defaults(todayYear: int): Settings {
    Settings(1, todayYear, 1, todayYear + 1, DefaultOutputFile, false, [], [], false)
  }

  /** The worksheet title, which is also the default file name without its extension. */
  function SheetTitle(s: Settings): string {
    "Calendar " + IntToDecimal(s.startMonth) + "-" + IntToDecimal(s.startYear)
      + " to " + IntToDecimal(s.endMonth) + "-" + IntToDecimal(s.endYear)
  }

  function SpanFileName(s: Settings): string {
    SheetTitle(s) + ".xlsx"
  }

  /** The title as the four numbers with their separators, grouped from the right. */
  lemma TitleParts(s: Settings)
    requires InRange(s)
    ensures SheetTitle(s) == "Calendar " + (NatToDecimal(s.startMonth) + ['-'] +
      (NatToDecimal(s.startYear) + [' '] + ("to " + (NatToDecimal(s.endMonth) + ['-'] + NatToDecimal(s.endYear)))))
  {
  }

  /** The title names the span: two accepted spans with the same title are the same span. */
  lemma SheetTitleNamesSpan(a: Settings, b: Settings)
    requires InRange(a) && InRange(b)
    requires SheetTitle(a) == SheetTitle(b)
    ensures a.startMonth == b.startMonth && a.startYear == b.startYear
    ensures a.endMonth == b.endMonth && a.endYear == b.endYear
  {
    TitleParts(a);
    TitleParts(b);
    var p := "Calendar ";
    var ea := NatToDecimal(a.endMonth) + ['-'] + NatToDecimal(a.endYear);
    var eb := NatToDecimal(b.endMonth) + ['-'] + NatToDecimal(b.endYear);
    var ya, yb := NatToDecimal(a.startYear) + [' '] + ("to " + ea), NatToDecimal(b.startYear) + [' '] + ("to " + eb);
    var ta, tb := NatToDecimal(a.startMonth) + ['-'] + ya, NatToDecimal(b.startMonth) + ['-'] + yb;
    assert ta == (p + ta)[|p|..] == (p + tb)[|p|..] == tb;
    SplitAfterNumber(a.startMonth, b.startMonth, '-', ya, yb);
    SplitAfterNumber(a.startYear, b.startYear, ' ', "to " + ea, "to " + eb);
    assert ea == ("to " + ea)[3..] == ("to " + eb)[3..] == eb;
    SplitAfterNumber(a.endMonth, b.endMonth, '-', NatToDecimal(a.endYear), NatToDecimal(b.endYear));
    NatToDecimalInjective(a.endYear, b.endYear);
  }

  // ---------------------------------------------------------------- file names

  /** First character of a file name: `[0-9a-zA-Z_-]`. */
  predicate IsNameStartChar(c: char) {
    ('0' <= c <= '9') || ('a' <= c <= 'z') || ('A' <= c <= 'Z') || c == '_' || c == '-'
  }

  /** Later characters of a file name: `[0-9a-zA-Z_-. ]`. */
  predicate IsNameChar(c: char) {
    IsNameStartChar(c) || c == '.' || c == ' '
  }

  /** A full match of `^[0-9a-zA-Z_\-][0-9a-zA-Z_\-. ]*$`. */
  predicate IsValidFileName(s: string) {
    |s| >= 1 && IsNameStartChar(s[0]) && forall i :: 1 <= i < |s| ==> IsNameChar(s[i])
  }

  predicate EndsWithXlsx(s: string) {
    |s| >= 5 && s[|s| - 5..] == ".xlsx"
  }

  /**
   * The extension rule as written: a full match of the whole name against the
   * pattern `.xlsx$` succeeds only for a name of exactly five characters
   * ending in `xlsx`, so every
   * other name, including one that already ends in `.xlsx`, gets `.xlsx`
   * appended, and a five-character name such as `axlsx` keeps no extension.
   * The `.` of the pattern matches any character except a newline.
   */
  predicate FullMatchesDotXlsx(name: string) {
    |name| == 5 && name[0] != '\n' && name[1..] == "xlsx"
  }

  /** The name the program stores for `-o name`. */
  function AppendXlsxAsWritten(name: string): (r: string)
    ensures r == name || r == name + ".xlsx"
    ensures |name| <= |r| && r[..|name|] == name
    ensures r == name ==> |name| == 5
    ensures IsValidFileName(name) ==> (r == name <==> |name| == 5 && name[1..] == "xlsx")
  {
    if FullMatchesDotXlsx(name) then name else name + ".xlsx"
  }

  /** A longer name that already ends in `.xlsx` gets a second extension as written. */
  lemma AsWrittenDoublesExtension(name: string)
    requires EndsWithXlsx(name) && |name| != 5
    ensures AppendXlsxAsWritten(name) == name + ".xlsx"
    ensures AppendXlsxAsWritten(name)[|name| - 5..] == ".xlsx.xlsx"
  {
  }

  /** The two inputs that show the discrepancy. */
  lemma AsWrittenCounterexamples()
    ensures AppendXlsxAsWritten("Calendar.xlsx") == "Calendar.xlsx.xlsx"
    ensures AppendXlsxAsWritten("axlsx") == "axlsx" && !EndsWithXlsx("axlsx")
  {
  }

  /**
   * The evident intent: append `.xlsx` unless the name already ends in it.
   * The result always ends in `.xlsx`, extends the name, and adds nothing
   * when the extension is already there.
   */
  function AppendXlsx(name: string): (r: string)
    ensures EndsWithXlsx(r)
    ensures |name| <= |r| && r[..|name|] == name
    ensures EndsWithXlsx(name) <==> r == name
    ensures |r| <= |name| + 5
  {
    if EndsWithXlsx(name) then name else name + ".xlsx"
  }

  /** Applying the corrected rule twice changes nothing more. */
  lemma AppendXlsxIdempotent(name: string)
    ensures AppendXlsx(AppendXlsx(name)) == AppendXlsx(name)
  {
  }

  // ---------------------------------------------------------------- options

  /** The option rules, stated per option and independently of the current settings. */
  predicate Acceptable(o: CliOption) {
    match o
    case Help => false
    case Version => false
    case Start(m, y) => AcceptableMonthYear(m, y)
    case End(m, y) => AcceptableMonthYear(m, y)
    case Output(n) => n.Some? && IsValidFileName(n.value)
    case ColumnWidth(p) => p.Number? && p.value > 0
    case RowHeight(p) => p.Number? && p.value > 0
    case ForceDutch => true
    case Unknown(_) => false
  }

  predicate AcceptableMonthYear(m: IntArg, y: IntArg) {
    m.Number? && 1 <= m.value <= 12 && y.Number? && y.value > 0
  }

  /** The `-s` and `-e` branch: month first, then year, then the default file name. */
  function ApplyMonthYear(st: Settings, flag: string, isStart: bool, month: IntArg, year: IntArg): (r: Step)
    ensures r.Continue? <==> AcceptableMonthYear(month, year)
    ensures !AcceptableMonthYear(month, year) ==> r == Halt(Reject(MonthYearError(flag, month, year)))
    ensures r.Continue? ==>
      && r.settings.forceDutch == st.forceDutch
      && r.settings.columnWidthPercents == st.columnWidthPercents
      && r.settings.rowHeightPercents == st.rowHeightPercents
    ensures r.Continue? && isStart ==>
      && r.settings.startMonth == month.value && r.settings.startYear == year.value
      && r.settings.endMonth == st.endMonth && r.settings.endYear == st.endYear
    ensures r.Continue? && !isStart ==>
      && r.settings.endMonth == month.value && r.settings.endYear == year.value
      && r.settings.startMonth == st.startMonth && r.settings.startYear == st.startYear
    ensures r.Continue? ==>
      && r.settings.outputFileSet == st.outputFileSet
      && r.settings.outputFile == if st.outputFileSet then st.outputFile else SpanFileName(r.settings)
  {
    match month
    case Missing => Halt(Reject(MissingArgument(flag)))
    case NotANumber => Halt(Reject(NotANumberArgument(flag)))
    case Number(m) =>
      if !(1 <= m <= 12) then Halt(Reject(MonthOutOfRange(flag)))
      else match year
        case Missing => Halt(Reject(MissingArgument(flag)))
        case NotANumber => Halt(Reject(NotANumberArgument(flag)))
        case Number(y) =>
          if y <= 0 then Halt(Reject(YearNotPositive(flag)))
          else
            var moved := if isStart then st.(startMonth := m, startYear := y)
                         else st.(endMonth := m, endYear := y);
            Continue(if moved.outputFileSet then moved else moved.(outputFile := SpanFileName(moved)))
  }

  /** The `-wr` and `-hr` branch: an accepted percentage is appended to its list. */
  function ApplyPercent(st: Settings, flag: string, isWidth: bool, percent: IntArg): (r: Step)
    ensures r.Continue? <==> percent.Number? && percent.value > 0
    ensures !(percent.Number? && percent.value > 0) ==> r == Halt(Reject(PercentError(flag, percent)))
    ensures r.Continue? ==>
      r.settings == if isWidth then st.(columnWidthPercents := st.columnWidthPercents + [percent.value])
                    else st.(rowHeightPercents := st.rowHeightPercents + [percent.value])
  {
    match percent
    case Missing => Halt(Reject(MissingArgument(flag)))
    // Python prints the same message as for a number <= 0 here.
    case NotANumber => Halt(Reject(NotANumberArgument(flag)))
    case Number(p) =>
      if p <= 0 then Halt(Reject(PercentNotPositive(flag)))
      else if isWidth then Continue(st.(columnWidthPercents := st.columnWidthPercents + [p]))
      else Continue(st.(rowHeightPercents := st.rowHeightPercents + [p]))
  }

  /**
   * The error a rejected `-s`/`-e` reports: the month is checked before the
   * year, each first for presence, then for being a number, then for its range.
   */
  function MonthYearError(flag: string, m: IntArg, y: IntArg): OptionError
    requires !AcceptableMonthYear(m, y)
  {
    if m.Missing? then MissingArgument(flag)
    else if m.NotANumber? then NotANumberArgument(flag)
    else if !(1 <= m.value <= 12) then MonthOutOfRange(flag)
    else if y.Missing? then MissingArgument(flag)
    else if y.NotANumber? then NotANumberArgument(flag)
    else YearNotPositive(flag)
  }

  /** The error a rejected `-wr`/`-hr` reports. */
  function PercentError(flag: string, p: IntArg): OptionError
    requires !(p.Number? && p.value > 0)
  {
    if p.Missing? then MissingArgument(flag)
    else if p.NotANumber? then NotANumberArgument(flag)
    else PercentNotPositive(flag)
  }

  /**
   * What an unacceptable option ends the program with, whatever the settings
   * gathered so far: `-h` shows the usage, `-v` the version, and every other
   * option the message of the first rule it breaks.
   */
  function HaltVerdict(o: CliOption): Verdict
    requires !Acceptable(o)
  {
    match o
    case Help => Reject(HelpRequested)
    case Version => ShowVersion
    case Start(m, y) => Reject(MonthYearError("-s", m, y))
    case End(m, y) => Reject(MonthYearError("-e", m, y))
    case Output(n) => if n.None? then Reject(MissingArgument("-o")) else Reject(InvalidFileName)
    case ColumnWidth(p) => Reject(PercentError("-wr", p))
    case RowHeight(p) => Reject(PercentError("-hr", p))
    case Unknown(t) => Reject(NoSuchOption(t))
  }

  /** The command line holds `-fnl`. */
  predicate AsksForDutch(opts: seq<CliOption>) {
    exists i :: 0 <= i < |opts| && opts[i] == ForceDutch
  }

  /** The `-wr` percentages of the command line, in order. */
  function WidthPercents(opts: seq<CliOption>): seq<int>
    decreases |opts|
  {
    if |opts| == 0 then [] else WidthOf(opts[0]) + WidthPercents(opts[1..])
  }

  /** The percentage one option contributes to the `-wr` list. */
  function WidthOf(o: CliOption): seq<int> {
    if o.ColumnWidth? && o.percent.Number? then [o.percent.value] else []
  }

  /** The `-hr` percentages of the command line, in order. */
  function HeightPercents(opts: seq<CliOption>): seq<int>
    decreases |opts|
  {
    if |opts| == 0 then [] else HeightOf(opts[0]) + HeightPercents(opts[1..])
  }

  /** The percentage one option contributes to the `-hr` list. */
  function HeightOf(o: CliOption): seq<int> {
    if o.RowHeight? && o.percent.Number? then [o.percent.value] else []
  }

  /** `-fnl` is on the command line when it comes first or later. */
  lemma AsksForDutchStep(opts: seq<CliOption>)
    requires |opts| > 0
    ensures AsksForDutch(opts) <==> opts[0] == ForceDutch || AsksForDutch(opts[1..])
  {
    var rest := opts[1..];
    if AsksForDutch(rest) {
      var i :| 0 <= i < |rest| && rest[i] == ForceDutch;
      assert opts[i + 1] == rest[i];
    }
    if AsksForDutch(opts) && opts[0] != ForceDutch {
      var i :| 0 <= i < |opts| && opts[i] == ForceDutch;
      assert rest[i - 1] == opts[i];
    }
  }

  /** One pass of the option loop in `main`. */
  function ApplyOption(st: Settings, o: CliOption): (r: Step)
    ensures r.Continue? <==> Acceptable(o)
    ensures !Acceptable(o) ==> r == Halt(HaltVerdict(o))
    ensures o == Help ==> r == Halt(Reject(HelpRequested))
    ensures o == Version ==> r == Halt(ShowVersion)
    ensures o.Unknown? ==> r == Halt(Reject(NoSuchOption(o.token)))
    ensures o.Start? && o.month.Number? && !(1 <= o.month.value <= 12) ==> r == Halt(Reject(MonthOutOfRange("-s")))
    ensures o.End? && o.month.Number? && !(1 <= o.month.value <= 12) ==> r == Halt(Reject(MonthOutOfRange("-e")))
    ensures o.Output? && o.name.Some? && !IsValidFileName(o.name.value) ==> r == Halt(Reject(InvalidFileName))
    ensures r.Continue? && o.Start? ==>
      r.settings.startMonth == o.month.value && r.settings.startYear == o.year.value
      && r.settings.endMonth == st.endMonth && r.settings.endYear == st.endYear
    ensures r.Continue? && o.End? ==>
      r.settings.endMonth == o.month.value && r.settings.endYear == o.year.value
      && r.settings.startMonth == st.startMonth && r.settings.startYear == st.startYear
    ensures r.Continue? && !o.Start? && !o.End? ==>
      r.settings.startMonth == st.startMonth && r.settings.startYear == st.startYear
      && r.settings.endMonth == st.endMonth && r.settings.endYear == st.endYear
    ensures r.Continue? ==> r.settings.forceDutch == (st.forceDutch || o == ForceDutch)
    ensures r.Continue? ==> r.settings.columnWidthPercents == st.columnWidthPercents + WidthOf(o)
    ensures r.Continue? ==> r.settings.rowHeightPercents == st.rowHeightPercents + HeightOf(o)
  {
    match o
    case Help => Halt(Reject(HelpRequested))
    case Version => Halt(ShowVersion)
    case Start(m, y) => ApplyMonthYear(st, "-s", true, m, y)
    case End(m, y) => ApplyMonthYear(st, "-e", false, m, y)
    case Output(n) =>
      if n.None? then Halt(Reject(MissingArgument("-o")))
      else if !IsValidFileName(n.value) then Halt(Reject(InvalidFileName))
      else Continue(st.(outputFile := AppendXlsxAsWritten(n.value), outputFileSet := true))
    case ColumnWidth(p) => ApplyPercent(st, "-wr", true, p)
    case RowHeight(p) => ApplyPercent(st, "-hr", false, p)
    case ForceDutch => Continue(st.(forceDutch := true))
    case Unknown(t) => Halt(Reject(NoSuchOption(t)))
  }

  /** Months in 1..12 and years above zero, as the option checks keep them. */
  predicate InRange(s: Settings) {
    1 <= s.startMonth <= 12 && 1 <= s.endMonth <= 12 && s.startYear > 0 && s.endYear > 0
  }

  /** Option `i` is the first one the rules reject. */
  predicate FirstUnacceptable(opts: seq<CliOption>, i: int) {
    0 <= i < |opts| && !Acceptable(opts[i]) && forall j :: 0 <= j < i ==> Acceptable(opts[j])
  }

  /** Reading past an acceptable first option shifts every position by one. */
  lemma AcceptableShift(opts: seq<CliOption>)
    requires |opts| > 0 && Acceptable(opts[0])
    ensures (forall i :: 0 <= i < |opts| ==> Acceptable(opts[i])) <==>
      (forall i :: 0 <= i < |opts[1..]| ==> Acceptable(opts[1..][i]))
    ensures forall i :: FirstUnacceptable(opts, i) ==>
      i > 0 && FirstUnacceptable(opts[1..], i - 1) && opts[1..][i - 1] == opts[i]
  {
    var rest := opts[1..];
    forall i | FirstUnacceptable(opts, i)
      ensures i > 0 && FirstUnacceptable(rest, i - 1) && rest[i - 1] == opts[i]
    {
      forall j | 0 <= j < i - 1 ensures Acceptable(rest[j]) {
        assert rest[j] == opts[j + 1];
      }
    }
    if forall i :: 0 <= i < |rest| ==> Acceptable(rest[i]) {
      forall i | 0 <= i < |opts| ensures Acceptable(opts[i]) {
        if i > 0 { assert opts[i] == rest[i - 1]; }
      }
    }
  }

  /**
   * The option loop: options in command-line order until one stops the
   * program, which then ends with that option's own verdict.
   */
  function Run(st: Settings, opts: seq<CliOption>): (r: Step)
    ensures r.Continue? <==> forall i :: 0 <= i < |opts| ==> Acceptable(opts[i])
    ensures forall i :: FirstUnacceptable(opts, i) ==> r == Halt(HaltVerdict(opts[i]))
    ensures r.Continue? && InRange(st) ==> InRange(r.settings)
    ensures r.Halt? ==> !r.verdict.Generate?
    decreases |opts|
  {
    if |opts| == 0 then Continue(st)
    else match ApplyOption(st, opts[0])
      case Continue(next) => AcceptableShift(opts); Run(next, opts[1..])
      case Halt(v) => Halt(v)
  }

  /**
   * What the option loop records besides the span and the file name: the
   * Dutch month names are switched on by `-fnl` and never off, and each
   * percentage list grows by the `-wr` (or `-hr`) percentages in order.
   */
  lemma {:induction false} RunSwitches(st: Settings, opts: seq<CliOption>)
    requires Run(st, opts).Continue?
    ensures Run(st, opts).settings.forceDutch == (st.forceDutch || AsksForDutch(opts))
    ensures Run(st, opts).settings.columnWidthPercents == st.columnWidthPercents + WidthPercents(opts)
    ensures Run(st, opts).settings.rowHeightPercents == st.rowHeightPercents + HeightPercents(opts)
    decreases |opts|
  {
    if |opts| == 0 {
      assert !AsksForDutch(opts);
    } else {
      var o, rest := opts[0], opts[1..];
      var next := ApplyOption(st, o).settings;
      assert Run(st, opts) == Run(next, rest);
      RunSwitches(next, rest);
      AsksForDutchStep(opts);
      SeqAssoc(st.columnWidthPercents, WidthOf(o), WidthPercents(rest));
      SeqAssoc(st.rowHeightPercents, HeightOf(o), HeightPercents(rest));
    }
  }

  lemma SeqAssoc(a: seq<int>, b: seq<int>, c: seq<int>)
    ensures a + b + c == a + (b + c)
  {
  }

  /** The closing check of `main`: the end may not precede the start, nor lie over 100 years later. */
  function SpanCheck(s: Settings): (r: Option<OptionError>)
    ensures r == Some(EndBeforeStart) <==>
      s.endYear < s.startYear || (s.endYear == s.startYear && s.endMonth < s.startMonth)
    ensures r == Some(SpanOverHundredYears) <==>
      s.endYear > s.startYear && s.endYear - s.startYear > 100
    ensures r.Some? <==>
      s.endYear < s.startYear || (s.endYear == s.startYear && s.endMonth < s.startMonth)
      || s.endYear - s.startYear > 100
  {
    if s.endYear < s.startYear then Some(EndBeforeStart)
    else if s.endYear == s.startYear then
      (if s.endMonth < s.startMonth then Some(EndBeforeStart) else None)
    else if s.endYear - s.startYear > 100 then Some(SpanOverHundredYears)
    else None
  }

  /** What every generated calendar's settings satisfy once options were given. */
  predicate AcceptedSpan(s: Settings) {
    && InRange(s)
    && (s.startYear < s.endYear || (s.startYear == s.endYear && s.startMonth <= s.endMonth))
    && s.endYear - s.startYear <= 100
  }

  /**
   * `main`: without options the defaults are used as they are; otherwise every
   * option is checked in order and then the span.
   */
  function Validate(todayYear: int, opts: seq<CliOption>): (v: Verdict)
    requires todayYear >= 1
    ensures |opts| == 0 ==> v == Generate(Defaults(todayYear))
    ensures |opts| > 0 && v.Generate? ==> AcceptedSpan(v.settings)
    ensures v.Generate? ==> forall i :: 0 <= i < |opts| ==> Acceptable(opts[i])
    ensures |opts| > 0 && (forall i :: 0 <= i < |opts| ==> Acceptable(opts[i])) ==> v.Generate? || v.Reject?
    ensures forall i :: |opts| > 0 && FirstUnacceptable(opts, i) ==> v == HaltVerdict(opts[i])
    ensures |opts| > 0 && (forall i :: 0 <= i < |opts| ==> Acceptable(opts[i])) ==>
      var s := Run(Defaults(todayYear), opts).settings;
      && (v.Generate? <==> AcceptedSpan(s))
      && (v.Generate? ==> v.settings == s)
      && (v.Reject? ==> SpanCheck(s) == Some(v.error))
    ensures v.Generate? ==>
      && v.settings.forceDutch == AsksForDutch(opts)
      && v.settings.columnWidthPercents == WidthPercents(opts)
      && v.settings.rowHeightPercents == HeightPercents(opts)
  {
    if |opts| == 0 then
      assert !AsksForDutch(opts) && WidthPercents(opts) == [] && HeightPercents(opts) == [];
      Generate(Defaults(todayYear))
    else match Run(Defaults(todayYear), opts)
      case Halt(v) => v
      case Continue(s) =>
        RunSwitches(Defaults(todayYear), opts);
        match SpanCheck(s)
        case Some(e) => Reject(e)
        case None => Generate(s)
  }

  // ---------------------------------------------------------------- output name

  /** The name given to the last `-o` option, if any. */
  function LastOutputName(opts: seq<CliOption>): Option<string>
    decreases |opts|
  {
    if |opts| == 0 then None
    else match LastOutputName(opts[1..])
      case Some(n) => Some(n)
      case None => if opts[0].Output? && opts[0].name.Some? then opts[0].name else None
  }

  predicate HasMonthYearOption(opts: seq<CliOption>) {
    exists i :: 0 <= i < |opts| && (opts[i].Start? || opts[i].End?)
  }

  predicate SameSpan(a: Settings, b: Settings) {
    a.startMonth == b.startMonth && a.startYear == b.startYear
    && a.endMonth == b.endMonth && a.endYear == b.endYear
  }

  lemma HasMonthYearStep(opts: seq<CliOption>)
    requires |opts| > 0
    ensures HasMonthYearOption(opts) <==> opts[0].Start? || opts[0].End? || HasMonthYearOption(opts[1..])
  {
    var rest := opts[1..];
    if HasMonthYearOption(rest) {
      var i :| 0 <= i < |rest| && (rest[i].Start? || rest[i].End?);
      assert opts[i + 1] == rest[i];
    }
    if HasMonthYearOption(opts) && !(opts[0].Start? || opts[0].End?) {
      var i :| 0 <= i < |opts| && (opts[i].Start? || opts[i].End?);
      assert rest[i - 1] == opts[i];
    }
  }

  lemma SpanFileNameOfSameSpan(a: Settings, b: Settings)
    requires SameSpan(a, b)
    ensures SpanFileName(a) == SpanFileName(b)
  {
  }

  /** One accepted option's effect on the file name. */
  lemma OutputFileStep(st: Settings, o: CliOption)
    requires ApplyOption(st, o).Continue?
    ensures var n := ApplyOption(st, o).settings;
      && n.outputFileSet == (st.outputFileSet || o.Output?)
      && (o.Output? ==> o.name.Some? && n.outputFile == AppendXlsxAsWritten(o.name.value))
      && (!o.Output? ==>
            n.outputFile == if !st.outputFileSet && (o.Start? || o.End?) then SpanFileName(n) else st.outputFile)
      && (!o.Start? && !o.End? ==> SameSpan(n, st))
  {
  }

  /**
   * The file name after the option loop: the last `-o` name wins; without
   * `-o`, a `-s` or `-e` that came while no `-o` had been seen names the file
   * after the final span; otherwise the name is unchanged.
   */
  lemma {:induction false} RunOutputFile(st: Settings, opts: seq<CliOption>)
    requires Run(st, opts).Continue?
    ensures var s := Run(st, opts).settings;
      && s.outputFileSet == (st.outputFileSet || LastOutputName(opts).Some?)
      && (!HasMonthYearOption(opts) ==> SameSpan(s, st))
      && s.outputFile == (match LastOutputName(opts)
           case Some(n) => AppendXlsxAsWritten(n)
           case None =>
             if !st.outputFileSet && HasMonthYearOption(opts) then SpanFileName(s) else st.outputFile)
    decreases |opts|
  {
    if |opts| > 0 {
      var o := opts[0];
      var next := ApplyOption(st, o).settings;
      var rest := opts[1..];
      var s := Run(st, opts).settings;
      assert s == Run(next, rest).settings;
      RunOutputFile(next, rest);
      OutputFileStep(st, o);
      HasMonthYearStep(opts);
      if LastOutputName(rest).None? && !o.Output? && !st.outputFileSet
        && (o.Start? || o.End?) && !HasMonthYearOption(rest) {
        SpanFileNameOfSameSpan(s, next);
      }
    }
  }

  /**
   * The output file of a generated calendar: the last `-o` name after the
   * extension rule as written; else, after a `-s` or `-e`, the sheet title plus `.xlsx`; else
   * `Calendar.xlsx`.
   */
  lemma OutputFileOutcome(todayYear: int, opts: seq<CliOption>)
    requires todayYear >= 1
    requires Validate(todayYear, opts).Generate?
    ensures var s := Validate(todayYear, opts).settings;
      s.outputFile == match LastOutputName(opts)
        case Some(n) => AppendXlsxAsWritten(n)
        case None => if HasMonthYearOption(opts) then SheetTitle(s) + ".xlsx" else DefaultOutputFile
  {
    if |opts| > 0 {
      RunOutputFile(Defaults(todayYear), opts);
    }
  }
}
