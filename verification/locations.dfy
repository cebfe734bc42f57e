/**
 Source labels of located issues, `path:line:column`, as the validator prints
 them for parser records and the reporter prints them for problem marks.
 */
module Locations {
  import opened Text

  /** `path:line:column`, the source label of a located issue. */
  function LocatedSrc(path: string, line: nat, column: nat): string {
    path + ":" + NatToString(line) + ":" + NatToString(column)
  }

  datatype Location = Location(path: string, line: nat, column: nat)

  /** Splits a source label at its last two colons; the path part may itself contain colons. */
  function SplitLocatedSrc(s: string): Option<Location> {
    match LastIndexOf(s, ':')
    case None => None
    case Some(j) =>
      match LastIndexOf(s[..j], ':')
      case None => None
      case Some(i) =>
        match (ParseNat(s[i + 1..j]), ParseNat(s[j + 1..]))
        case (Some(line), Some(column)) => Some(Location(s[..i], line, column))
        case _ => None
  }

  /** A location label can always be read back, whatever the path contains. */
  lemma SplitLocatedSrcRoundTrip(path: string, line: nat, column: nat)
    ensures SplitLocatedSrc(LocatedSrc(path, line, column)) == Some(Location(path, line, column))
  {
    var l := NatToString(line);
    var c := NatToString(column);
    var s := LocatedSrc(path, line, column);
    var head := path + ":" + l;
    assert ':' !in c by { assert !IsDigit(':'); }
    assert ':' !in l by { assert !IsDigit(':'); }
    assert s == head + [':'] + c;
    LastIndexOfBeforeTail(head, ':', c);
    var pre := s[..|head|];
    assert pre == path + [':'] + l;
    LastIndexOfBeforeTail(path, ':', l);
    assert s[..|path|] == path;
    assert s[|path| + 1..|head|] == l;
    assert s[|head| + 1..] == c;
    ParseNatToString(line);
    ParseNatToString(column);
  }
}
