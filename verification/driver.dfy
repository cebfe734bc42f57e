/**
 The command-line driver: files are validated one after another in argument
 order, each verdict is printed (one line for a valid file, one per result for
 a rejected one), every printed result adds one to `errorCount`, and the exit
 code is 1 exactly when `errorCount` ended positive. With no file arguments
 the usage text is shown and the process ends with code 0.
 */
module Driver {
  import opened Validation
  import opened Lines

  /** A file argument together with what the RAML loader made of it. */
  datatype FileInput = FileInput(name: string, outcome: LoadOutcome)

  function FileVerdict(opts: Options, f: FileInput): Verdict {
    Validate(opts, f.name, f.outcome)
  }

  /** The number of results a verdict adds to `errorCount`. */
  function IssueCount(v: Verdict): nat {
    match v
    case Valid(_) => 0
    case Rejected(results) => |results|
  }

  /** `[src] message`: the source label in brackets, then the message; warnings differ only in colour. */
  function ReportLine(r: Report): (line: string)
    ensures |line| == |r.src| + |r.message| + 3
    ensures line[0] == '[' && line[1..|r.src| + 1] == r.src
    ensures line[|r.src| + 1..|r.src| + 3] == "] " && line[|r.src| + 3..] == r.message
  {
    BracketLine(r.src, r.message)
  }

  /** What the driver prints for one verdict, colour left out. */
  function VerdictLines(v: Verdict): (lines: seq<string>)
    ensures v.Valid? ==> |lines| == 1
    ensures v.Rejected? ==> |lines| == IssueCount(v)
  {
    match v
    case Valid(src) => [ValidLine(src)]
    case Rejected(results) => seq(|results|, k requires 0 <= k < |results| => ReportLine(results[k]))
  }

  /** The lines printed for a sequence of verdicts, in order. */
  function PrintedLines(vs: seq<Verdict>): seq<string> {
    if vs == [] then [] else VerdictLines(vs[0]) + PrintedLines(vs[1..])
  }

  /** What a sequence of verdicts adds to `errorCount`. */
  function ErrorTotal(vs: seq<Verdict>): nat {
    if vs == [] then 0 else IssueCount(vs[0]) + ErrorTotal(vs[1..])
  }

  /** How many of the verdicts are VALID. */
  function ValidCount(vs: seq<Verdict>): nat {
    if vs == [] then 0 else (if vs[0].Valid? then 1 else 0) + ValidCount(vs[1..])
  }

  /** One line per valid file and one per counted result, nothing else. */
  lemma {:induction false} PrintedLinesCount(vs: seq<Verdict>)
    ensures |PrintedLines(vs)| == ErrorTotal(vs) + ValidCount(vs)
  {
    if vs != [] {
      PrintedLinesCount(vs[1..]);
    }
  }

  /** Printing a concatenation prints the two parts one after the other. */
  lemma {:induction false} PrintedLinesAppend(a: seq<Verdict>, b: seq<Verdict>)
    ensures PrintedLines(a + b) == PrintedLines(a) + PrintedLines(b)
  {
    if a == [] {
      assert a + b == b;
    } else {
      assert (a + b)[0] == a[0];
      assert (a + b)[1..] == a[1..] + b;
      PrintedLinesAppend(a[1..], b);
      var vl := VerdictLines(a[0]);
      assert vl + (PrintedLines(a[1..]) + PrintedLines(b)) == (vl + PrintedLines(a[1..])) + PrintedLines(b);
    }
  }

  /** The count of a concatenation is the sum of the parts' counts. */
  lemma {:induction false} ErrorTotalAppend(a: seq<Verdict>, b: seq<Verdict>)
    ensures ErrorTotal(a + b) == ErrorTotal(a) + ErrorTotal(b)
  {
    if a == [] {
      assert a + b == b;
    } else {
      assert (a + b)[0] == a[0];
      assert (a + b)[1..] == a[1..] + b;
      ErrorTotalAppend(a[1..], b);
    }
  }

  /** Verdicts as `validate` produces them: a rejection carries at least one result. */
  predicate NonEmptyRejections(vs: seq<Verdict>) {
    forall i :: 0 <= i < |vs| && vs[i].Rejected? ==> |vs[i].results| > 0
  }

  /** The count is positive exactly when some verdict is a rejection. */
  lemma {:induction false} ErrorTotalPositiveIffRejected(vs: seq<Verdict>)
    requires NonEmptyRejections(vs)
    ensures ErrorTotal(vs) > 0 <==> exists i :: 0 <= i < |vs| && vs[i].Rejected?
  {
    if vs != [] {
      var rest := vs[1..];
      assert forall i :: 0 <= i < |rest| ==> rest[i] == vs[i + 1];
      ErrorTotalPositiveIffRejected(rest);
      if ErrorTotal(rest) > 0 {
        var i :| 0 <= i < |rest| && rest[i].Rejected?;
        assert vs[i + 1].Rejected?;
      }
    }
  }

  /** Each verdict prints at least one line, and every counted result is a printed line. */
  lemma PrintedLinesCoverCount(vs: seq<Verdict>)
    requires NonEmptyRejections(vs)
    ensures |PrintedLines(vs)| >= |vs|
    ensures |PrintedLines(vs)| >= ErrorTotal(vs)
  {
    PrintedLinesCount(vs);
    VerdictsOutnumberLines(vs);
  }

  /** With non-empty rejections, every verdict adds at least one to the count or to the valid files. */
  lemma {:induction false} VerdictsOutnumberLines(vs: seq<Verdict>)
    requires NonEmptyRejections(vs)
    ensures ErrorTotal(vs) + ValidCount(vs) >= |vs|
  {
    if vs != [] {
      var rest := vs[1..];
      assert forall i :: 0 <= i < |rest| ==> rest[i] == vs[i + 1];
      VerdictsOutnumberLines(rest);
    }
  }

  /** The verdicts of the file arguments, in argument order. */
  function Verdicts(opts: Options, files: seq<FileInput>): (vs: seq<Verdict>)
    ensures |vs| == |files|
    ensures NonEmptyRejections(vs)
  {
    seq(|files|, i requires 0 <= i < |files| => FileVerdict(opts, files[i]))
  }

  /** Printed lines and the running `errorCount`. */
  datatype Tally = Tally(lines: seq<string>, errorCount: nat)

  /** The sequential pass over the file arguments: one line per valid file plus one per counted result. */
  function ProcessAll(opts: Options, files: seq<FileInput>): (t: Tally)
    ensures |t.lines| == t.errorCount + ValidCount(Verdicts(opts, files))
    ensures |t.lines| >= |files|
  {
    var vs := Verdicts(opts, files);
    PrintedLinesCount(vs);
    PrintedLinesCoverCount(vs);
    Tally(PrintedLines(vs), ErrorTotal(vs))
  }

  /** File `i`'s lines come after those of every earlier file and before those of every later one. */
  lemma ProcessAllInArgumentOrder(opts: Options, files: seq<FileInput>, i: nat)
    requires i < |files|
    ensures ProcessAll(opts, files).lines
      == ProcessAll(opts, files[..i]).lines
         + VerdictLines(FileVerdict(opts, files[i]))
         + ProcessAll(opts, files[i + 1..]).lines
    ensures ProcessAll(opts, files).errorCount
      == ProcessAll(opts, files[..i]).errorCount
         + IssueCount(FileVerdict(opts, files[i]))
         + ProcessAll(opts, files[i + 1..]).errorCount
  {
    var vs := Verdicts(opts, files);
    var one := [vs[i]];
    assert Verdicts(opts, files[..i]) == vs[..i];
    assert Verdicts(opts, files[i + 1..]) == vs[i + 1..];
    assert vs == vs[..i] + one + vs[i + 1..];
    assert one[..0] == [];
    PrintedLinesAppend(vs[..i] + one, vs[i + 1..]);
    PrintedLinesAppend(vs[..i], one);
    ErrorTotalAppend(vs[..i] + one, vs[i + 1..]);
    ErrorTotalAppend(vs[..i], one);
  }

  /** One more file prints its verdict's lines after the others and adds its results to the count. */
  lemma ProcessAllSnoc(opts: Options, files: seq<FileInput>, f: FileInput)
    ensures ProcessAll(opts, files + [f])
      == Tally(ProcessAll(opts, files).lines + VerdictLines(FileVerdict(opts, f)),
               ProcessAll(opts, files).errorCount + IssueCount(FileVerdict(opts, f)))
  {
    var vs := Verdicts(opts, files);
    var v := FileVerdict(opts, f);
    assert Verdicts(opts, files + [f]) == vs + [v];
    PrintedLinesAppend(vs, [v]);
    ErrorTotalAppend(vs, [v]);
    assert [v][1..] == [];
    assert VerdictLines(v) + [] == VerdictLines(v);
  }

  /** A run over one file prints and counts just that file's verdict. */
  lemma ProcessOneFile(opts: Options, f: FileInput)
    ensures ProcessAll(opts, [f]) == Tally(VerdictLines(FileVerdict(opts, f)), IssueCount(FileVerdict(opts, f)))
  {
    ProcessAllSnoc(opts, [], f);
    assert [] + [f] == [f];
    assert [] + VerdictLines(FileVerdict(opts, f)) == VerdictLines(FileVerdict(opts, f));
  }

  /**
   `errorCount` is positive exactly when some file was rejected; the output is
   one line per valid file plus one per counted result.
   */
  lemma ProcessAllCounts(opts: Options, files: seq<FileInput>)
    ensures ProcessAll(opts, files).errorCount > 0
        <==> exists i :: 0 <= i < |files| && FileVerdict(opts, files[i]).Rejected?
    ensures |ProcessAll(opts, files).lines| == ProcessAll(opts, files).errorCount + ValidCount(Verdicts(opts, files))
    ensures |ProcessAll(opts, files).lines| >= |files|
    ensures |ProcessAll(opts, files).lines| >= ProcessAll(opts, files).errorCount
  {
    var vs := Verdicts(opts, files);
    ErrorTotalPositiveIffRejected(vs);
    PrintedLinesCoverCount(vs);
    assert forall i :: 0 <= i < |files| ==> vs[i] == FileVerdict(opts, files[i]);
  }

  /** The `then`/`catch` pair for one file: print the verdict, counting every result. */
  method PrintVerdict(v: Verdict, lines: seq<string>, errorCount: nat) returns (lines': seq<string>, errorCount': nat)
    ensures lines' == lines + VerdictLines(v)
    ensures errorCount' == errorCount + IssueCount(v)
  {
    match v {
      case Valid(src) =>
        lines' := lines + [ValidLine(src)];
        errorCount' := errorCount;
      case Rejected(results) =>
        lines' := lines;
        errorCount' := errorCount;
        var k := 0;
        while k < |results|
          invariant 0 <= k <= |results|
          invariant lines' == lines + VerdictLines(v)[..k]
          invariant errorCount' == errorCount + k
        {
          assert VerdictLines(v)[..k + 1] == VerdictLines(v)[..k] + [ReportLine(results[k])];
          lines' := lines' + [ReportLine(results[k])];
          errorCount' := errorCount' + 1;
          k := k + 1;
        }
        assert VerdictLines(v)[..k] == VerdictLines(v);
    }
  }

  /** The `Bluebird.each` loop: one file at a time, in argument order. */
  method ProcessFiles(opts: Options, files: seq<FileInput>) returns (lines: seq<string>, errorCount: nat)
    ensures Tally(lines, errorCount) == ProcessAll(opts, files)
  {
    lines := [];
    errorCount := 0;
    var i := 0;
    while i < |files|
      invariant 0 <= i <= |files|
      invariant Tally(lines, errorCount) == ProcessAll(opts, files[..i])
    {
      assert files[..i + 1] == files[..i] + [files[i]];
      ProcessAllSnoc(opts, files[..i], files[i]);
      var v := Validate(opts, files[i].name, files[i].outcome);
      lines, errorCount := PrintVerdict(v, lines, errorCount);
      i := i + 1;
    }
    assert files[..i] == files;
  }

  /** How a run ended: usage shown or files processed, what was printed, and the exit code. */
  datatype RunOutcome = RunOutcome(showedUsage: bool, lines: seq<string>, errorCount: nat, exitCode: int)

  /** A whole invocation, from the parsed flags and the file arguments. */
  function Cli(includes: bool, warnings: bool, files: seq<FileInput>): (r: RunOutcome)
    ensures r.showedUsage <==> |files| == 0
    ensures r.showedUsage ==> r.exitCode == 0 && r.lines == [] && r.errorCount == 0
    ensures r.exitCode == 0 || r.exitCode == 1
    ensures r.exitCode == 1
        <==> exists i :: 0 <= i < |files| && FileVerdict(OptionsFromFlags(includes, warnings), files[i]).Rejected?
  {
    if |files| == 0 then RunOutcome(true, [], 0, 0)
    else
      var opts := OptionsFromFlags(includes, warnings);
      var t := ProcessAll(opts, files);
      ProcessAllCounts(opts, files);
      RunOutcome(false, t.lines, t.errorCount, if t.errorCount > 0 then 1 else 0)
  }

  /** A single valid file prints `[file] VALID` and exits 0. */
  lemma SingleValidFile(includes: bool, warnings: bool, name: string)
    ensures Cli(includes, warnings, [FileInput(name, Loaded)])
      == RunOutcome(false, [ValidLine(name)], 0, 0)
  {
    ProcessOneFile(OptionsFromFlags(includes, warnings), FileInput(name, Loaded));
  }

  /** A file whose only records come from includes is VALID under `--no-includes`, and the run exits 0. */
  lemma NoIncludesHidesIncludedErrors(warnings: bool, name: string, errors: seq<ParserError>)
    requires forall i :: 0 <= i < |errors| ==> FromInclude(name, errors[i])
    ensures Cli(false, warnings, [FileInput(name, ParserErrors(errors))])
      == RunOutcome(false, [ValidLine(name)], 0, 0)
  {
    ProcessOneFile(OptionsFromFlags(false, warnings), FileInput(name, ParserErrors(errors)));
    assert Validate(OptionsFromFlags(false, warnings), name, ParserErrors(errors)).Valid?;
  }

  /** A file with only warnings is VALID under `--no-warnings`, and the run exits 0. */
  lemma NoWarningsHidesWarnings(includes: bool, name: string, errors: seq<ParserError>)
    requires forall i :: 0 <= i < |errors| ==> errors[i].isWarning
    ensures Cli(includes, false, [FileInput(name, ParserErrors(errors))])
      == RunOutcome(false, [ValidLine(name)], 0, 0)
  {
    ProcessOneFile(OptionsFromFlags(includes, false), FileInput(name, ParserErrors(errors)));
    assert Validate(OptionsFromFlags(includes, false), name, ParserErrors(errors)).Valid?;
  }

  /** With default flags a file with records prints one line per record, counts each, and exits 1. */
  lemma DefaultReportsEveryRecord(name: string, errors: seq<ParserError>)
    requires |errors| > 0
    ensures var r := Cli(true, true, [FileInput(name, ParserErrors(errors))]);
      && r.exitCode == 1
      && r.errorCount == |errors|
      && |r.lines| == |errors|
      && forall i :: 0 <= i < |errors| ==> r.lines[i] == ReportLine(ToReport(name, errors[i]))
  {
    ProcessOneFile(DefaultOptions, FileInput(name, ParserErrors(errors)));
    ValidateDefaultReportsAll(name, errors);
  }
}
