/**
 The `validate` step of the command-line tool: the outcome of loading one RAML
 file is normalised into either a VALID verdict or a non-empty list of
 reported issues, after the include and warning filters have been applied.

 The RAML loader itself is outside the model; its outcome is an input here.
 */
module Validation {
  import opened Text
  import opened Locations
  import Paths

  /** `reportIncludeErrors` and `reportIncludeWarnings`, the two filter switches. */
  datatype Options = Options(reportIncludeErrors: bool, reportIncludeWarnings: bool)

  /** Both filters off: every parser record is reported. */
  const DefaultOptions := Options(true, true)

  /** The options the command line builds: `--no-includes` and `--no-warnings` clear a switch. */
  function OptionsFromFlags(includes: bool, warnings: bool): (o: Options)
    ensures includes && warnings ==> o == DefaultOptions
    ensures o.reportIncludeErrors == includes && o.reportIncludeWarnings == warnings
  {
    Options(includes, warnings)
  }

  /** One located record of the parser's error list; `path` is relative to the file's directory. */
  datatype ParserError = ParserError(path: string, line: nat, column: nat, message: string, isWarning: bool)

  /** What loading a file produced: success, an error without `parserErrors`, or a record list. */
  datatype LoadOutcome =
    | Loaded
    | GenericError(message: string, isWarning: bool)
    | ParserErrors(errors: seq<ParserError>)

  /** One line-to-be of the report: `src` is a file name or a `path:line:column` location. */
  datatype Report = Report(src: string, message: string, isWarning: bool)

  /** A resolved promise (`{src, message: 'VALID'}`) or a rejection carrying `results`. */
  datatype Verdict = Valid(src: string) | Rejected(results: seq<Report>)

  /** Where an issue lives: the file's directory joined with the record's path. */
  function ResolvedPath(filename: string, e: ParserError): string {
    Paths.Join(Paths.Dirname(filename), e.path)
  }

  /**
   The include test compares the resolved path with the argument as typed; for
   a file named without a directory, that is the record's own path.
   */
  predicate FromInclude(filename: string, e: ParserError)
    ensures '/' !in filename ==> (FromInclude(filename, e) <==> e.path != filename)
  {
    ResolvedPath(filename, e) != filename
  }

  /**
   The filter test: only a switched-off kind is dropped, so a non-warning
   record located in the file itself is never suppressed.
   */
  predicate Suppressed(opts: Options, filename: string, e: ParserError)
    ensures opts == DefaultOptions ==> !Suppressed(opts, filename, e)
    ensures !FromInclude(filename, e) && !e.isWarning ==> !Suppressed(opts, filename, e)
    ensures opts.reportIncludeErrors && !e.isWarning ==> !Suppressed(opts, filename, e)
    ensures opts.reportIncludeWarnings && !FromInclude(filename, e) ==> !Suppressed(opts, filename, e)
  {
    || (!opts.reportIncludeErrors && FromInclude(filename, e))
    || (!opts.reportIncludeWarnings && e.isWarning)
  }

  /** The report pushed for a kept record: located in the resolved file, with the record's message and severity. */
  function ToReport(filename: string, e: ParserError): (r: Report)
    ensures r.message == e.message && r.isWarning == e.isWarning
    ensures |r.src| > |ResolvedPath(filename, e)| && r.src[..|ResolvedPath(filename, e)| + 1] == ResolvedPath(filename, e) + ":"
  {
    Report(LocatedSrc(ResolvedPath(filename, e), e.line, e.column), e.message, e.isWarning)
  }

  /** A kept record's report names its resolved file and position, and keeps its message and severity. */
  lemma ToReportLocates(filename: string, e: ParserError)
    ensures SplitLocatedSrc(ToReport(filename, e).src) == Some(Location(ResolvedPath(filename, e), e.line, e.column))
    ensures ToReport(filename, e).message == e.message && ToReport(filename, e).isWarning == e.isWarning
  {
    SplitLocatedSrcRoundTrip(ResolvedPath(filename, e), e.line, e.column);
  }

  /** The `forEach`/`push` pass over the parser's records: filter, then convert. */
  function Collect(opts: Options, filename: string, errors: seq<ParserError>): (r: seq<Report>)
    ensures |r| <= |errors|
  {
    if errors == [] then []
    else
      var last := errors[|errors| - 1];
      Collect(opts, filename, errors[..|errors| - 1])
        + (if Suppressed(opts, filename, last) then [] else [ToReport(filename, last)])
  }

  /** Positions of the records the filters keep, in increasing order. */
  function KeptIndices(opts: Options, filename: string, errors: seq<ParserError>): (ks: seq<nat>)
    ensures forall k :: 0 <= k < |ks| ==> ks[k] < |errors| && !Suppressed(opts, filename, errors[ks[k]])
    ensures forall k, l :: 0 <= k < l < |ks| ==> ks[k] < ks[l]
  {
    if errors == [] then []
    else
      var n := |errors| - 1;
      var prefix := errors[..n];
      assert forall i :: 0 <= i < n ==> prefix[i] == errors[i];
      KeptIndices(opts, filename, prefix) + (if Suppressed(opts, filename, errors[n]) then [] else [n])
  }

  /** No kept record is missing from the positions. */
  lemma {:induction false} KeptIndicesComplete(opts: Options, filename: string, errors: seq<ParserError>, i: nat)
    requires i < |errors| && !Suppressed(opts, filename, errors[i])
    ensures i in KeptIndices(opts, filename, errors)
  {
    var n := |errors| - 1;
    if i < n {
      var prefix := errors[..n];
      assert prefix[i] == errors[i];
      KeptIndicesComplete(opts, filename, prefix, i);
    }
  }

  /**
   The reported list is exactly the kept records, converted, in their original
   order: a record is dropped iff a filter suppresses it.
   */
  lemma {:induction false} CollectIsKeptRecords(opts: Options, filename: string, errors: seq<ParserError>)
    ensures var ks := KeptIndices(opts, filename, errors);
      && |Collect(opts, filename, errors)| == |ks|
      && forall k :: 0 <= k < |ks| ==> Collect(opts, filename, errors)[k] == ToReport(filename, errors[ks[k]])
  {
    if errors != [] {
      var n := |errors| - 1;
      var prefix := errors[..n];
      CollectIsKeptRecords(opts, filename, prefix);
      assert forall i :: 0 <= i < n ==> prefix[i] == errors[i];
    }
  }

  /** The filters leave nothing exactly when they suppress every record. */
  lemma NothingKeptIffAllSuppressed(opts: Options, filename: string, errors: seq<ParserError>)
    ensures |Collect(opts, filename, errors)| == 0
        <==> forall i :: 0 <= i < |errors| ==> Suppressed(opts, filename, errors[i])
  {
    var ks := KeptIndices(opts, filename, errors);
    CollectIsKeptRecords(opts, filename, errors);
    if |ks| > 0 {
      assert !Suppressed(opts, filename, errors[ks[0]]);
    } else {
      forall i | 0 <= i < |errors|
        ensures Suppressed(opts, filename, errors[i])
      {
        if !Suppressed(opts, filename, errors[i]) {
          KeptIndicesComplete(opts, filename, errors, i);
        }
      }
    }
  }

  /** With both switches on, every record is reported, in the parser's order. */
  lemma {:induction false} CollectDefaultKeepsAll(filename: string, errors: seq<ParserError>)
    ensures |Collect(DefaultOptions, filename, errors)| == |errors|
    ensures forall i :: 0 <= i < |errors| ==> Collect(DefaultOptions, filename, errors)[i] == ToReport(filename, errors[i])
  {
    if errors != [] {
      var n := |errors| - 1;
      var prefix := errors[..n];
      CollectDefaultKeepsAll(filename, prefix);
      var r := Collect(DefaultOptions, filename, errors);
      var rp := Collect(DefaultOptions, filename, prefix);
      assert !Suppressed(DefaultOptions, filename, errors[n]);
      assert r == rp + [ToReport(filename, errors[n])];
      forall i | 0 <= i < |errors|
        ensures r[i] == ToReport(filename, errors[i])
      {
        if i < n {
          assert r[i] == rp[i] && prefix[i] == errors[i];
        }
      }
    }
  }

  /** `--no-includes` keeps every record located in the file itself (unless it is a filtered warning). */
  lemma NoIncludesKeepsOwnRecords(opts: Options, filename: string, errors: seq<ParserError>, i: nat)
    requires i < |errors|
    requires ResolvedPath(filename, errors[i]) == filename
    requires opts.reportIncludeWarnings || !errors[i].isWarning
    ensures ToReport(filename, errors[i]) in Collect(opts, filename, errors)
  {
    var ks := KeptIndices(opts, filename, errors);
    CollectIsKeptRecords(opts, filename, errors);
    KeptIndicesComplete(opts, filename, errors, i);
    var k :| 0 <= k < |ks| && ks[k] == i;
    assert Collect(opts, filename, errors)[k] == ToReport(filename, errors[i]);
  }

  /** A record whose path is the file's own base name resolves to that file. */
  lemma OwnBasenameIsNotInclude(filename: string, e: ParserError)
    requires Paths.PlainPath(filename)
    requires e.path == Paths.Basename(filename)
    ensures !FromInclude(filename, e)
  {
    Paths.JoinDirnameBasename(filename);
  }

  /** `--no-warnings` on a list without warnings changes nothing. */
  lemma {:induction false} NoWarningsWithoutWarnings(includes: bool, filename: string, errors: seq<ParserError>)
    requires forall i :: 0 <= i < |errors| ==> !errors[i].isWarning
    ensures Collect(Options(includes, false), filename, errors) == Collect(Options(includes, true), filename, errors)
  {
    if errors != [] {
      var n := |errors| - 1;
      NoWarningsWithoutWarnings(includes, filename, errors[..n]);
    }
  }

  /**
   The `validate` function: success resolves VALID, a generic error is one
   unfiltered result naming the file, and a record list is filtered; if
   nothing survives the file is VALID after all.
   */
  function Validate(opts: Options, filename: string, outcome: LoadOutcome): (v: Verdict)
    ensures v.Valid? ==> v.src == filename
    ensures v.Rejected? ==> |v.results| > 0
    ensures outcome.Loaded? ==> v.Valid?
    ensures outcome.GenericError? ==>
      v.Rejected? && |v.results| == 1 && v.results[0].src == filename
      && v.results[0].message == outcome.message && v.results[0].isWarning == outcome.isWarning
    ensures outcome.ParserErrors? ==>
      (v.Valid? <==> forall i :: 0 <= i < |outcome.errors| ==> Suppressed(opts, filename, outcome.errors[i]))
    ensures outcome.ParserErrors? && v.Rejected? ==> |v.results| <= |outcome.errors|
  {
    match outcome
    case Loaded => Valid(filename)
    case GenericError(message, isWarning) => Rejected([Report(filename, message, isWarning)])
    case ParserErrors(errors) =>
      var reports := Collect(opts, filename, errors);
      NothingKeptIffAllSuppressed(opts, filename, errors);
      if |reports| > 0 then Rejected(reports) else Valid(filename)
  }

  /** A rejected record list reports exactly the kept records, converted, in the parser's order. */
  lemma ValidateReportsKeptRecords(opts: Options, filename: string, errors: seq<ParserError>)
    ensures var v := Validate(opts, filename, ParserErrors(errors));
      var ks := KeptIndices(opts, filename, errors);
      && (v.Valid? <==> |ks| == 0)
      && (v.Rejected? ==>
            |v.results| == |ks| && forall k :: 0 <= k < |ks| ==> v.results[k] == ToReport(filename, errors[ks[k]]))
  {
    CollectIsKeptRecords(opts, filename, errors);
  }

  /** The filter switches have no say over a generic error. */
  lemma GenericErrorIgnoresOptions(a: Options, b: Options, filename: string, message: string, isWarning: bool)
    ensures Validate(a, filename, GenericError(message, isWarning)) == Validate(b, filename, GenericError(message, isWarning))
  {
  }

  /** With default options a rejected record list reports every record, in order. */
  lemma ValidateDefaultReportsAll(filename: string, errors: seq<ParserError>)
    requires |errors| > 0
    ensures Validate(DefaultOptions, filename, ParserErrors(errors)).Rejected?
    ensures var rs := Validate(DefaultOptions, filename, ParserErrors(errors)).results;
      |rs| == |errors| && forall i :: 0 <= i < |errors| ==> rs[i] == ToReport(filename, errors[i])
  {
    CollectDefaultKeepsAll(filename, errors);
  }

  /** The imperative `forEach` loop that builds `errorsToReport`. */
  method CollectReports(opts: Options, filename: string, errors: seq<ParserError>) returns (errorsToReport: seq<Report>)
    ensures errorsToReport == Collect(opts, filename, errors)
  {
    errorsToReport := [];
    var i := 0;
    while i < |errors|
      invariant 0 <= i <= |errors|
      invariant errorsToReport == Collect(opts, filename, errors[..i])
    {
      var e := errors[i];
      assert errors[..i + 1][..i] == errors[..i];
      if !Suppressed(opts, filename, e) {
        errorsToReport := errorsToReport + [ToReport(filename, e)];
      }
      i := i + 1;
    }
    assert errors[..i] == errors;
  }
}
