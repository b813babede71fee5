/** How one finding becomes one line of the email body: `name (severity): uri`.
    The partner is a parser that reads the three fields back. */
module FindingFormat {
  import opened Options
  import opened Events

  /** The line for one finding. */
  function FormatFinding(f: Finding): (line: string)
    ensures |line| == |f.name| + |f.severity| + |f.uri| + 5
    ensures line[..|f.name|] == f.name
    ensures line[|f.name|..|f.name| + 2] == " ("
    ensures line[|f.name| + 2..|f.name| + 2 + |f.severity|] == f.severity
    ensures line[|f.name| + 2 + |f.severity|..|f.name| + 5 + |f.severity|] == "): "
    ensures line[|line| - |f.uri|..] == f.uri
  {
    var open := f.name + " (";
    var closed := open + f.severity + "): ";
    assert (open + f.severity)[..|open|] == open;
    assert closed[..|open| + |f.severity|] == open + f.severity;
    closed + f.uri
  }

  /** One line per finding, in the order ECR listed them (`findings.map(...)`). */
  function Lines(fs: seq<Finding>): (lines: seq<string>)
    ensures |lines| == |fs|
    ensures forall i :: 0 <= i < |fs| ==> lines[i] == FormatFinding(fs[i])
  {
    seq(|fs|, i requires 0 <= i < |fs| => FormatFinding(fs[i]))
  }

  /** The first position of c in s. */
  function IndexOf(s: string, c: char): (r: Option<nat>)
    ensures r.None? <==> c !in s
    ensures r.Some? ==> r.value < |s| && s[r.value] == c && c !in s[..r.value]
    decreases |s|
  {
    if |s| == 0 then None
    else if s[0] == c then Some(0)
    else match IndexOf(s[1..], c)
      case None => None
      case Some(k) =>
        assert s[..k + 1] == [s[0]] + s[1..][..k];
        Some(k + 1)
  }

  /** The first occurrence of c lies right after a prefix free of c. */
  lemma IndexOfAfter(a: string, c: char, b: string)
    requires c !in a
    ensures IndexOf(a + [c] + b, c) == Some(|a|)
  {
    var s := a + [c] + b;
    var r := IndexOf(s, c);
    assert s[|a|] == c;
    assert s[..|a|] == a;
  }

  /** Reads what follows "(" back into a severity and a uri: the severity runs
      to the first ")", which must be followed by ": "; the rest is the uri. */
  function ParseTail(tail: string): Option<(string, string)> {
    match IndexOf(tail, ')')
    case None => None
    case Some(j) =>
      if |tail| < j + 3 || tail[j..j + 3] != "): " then None
      else Some((tail[..j], tail[j + 3..]))
  }

  /** Reads a line back into a finding: the name runs up to the first "(",
      less the space before it, and the rest is read by ParseTail. */
  function ParseFinding(line: string): Option<Finding> {
    match IndexOf(line, '(')
    case None => None
    case Some(i) =>
      if i == 0 || line[i - 1] != ' ' then None
      else match ParseTail(line[i + 1..])
        case None => None
        case Some(fields) => Some(Finding(line[..i - 1], fields.0, fields.1))
  }

  lemma ParseTailOf(severity: string, uri: string)
    requires ')' !in severity
    ensures ParseTail(severity + "): " + uri) == Some((severity, uri))
  {
    var tail := severity + "): " + uri;
    assert tail == severity + [')'] + (": " + uri);
    IndexOfAfter(severity, ')', ": " + uri);
    var j := |severity|;
    assert tail[j..j + 3] == "): ";
    assert tail[..j] == severity;
    assert tail[j + 3..] == uri;
  }

  /** Round trip: the fields of a finding are recovered from its line, as long as
      the name holds no "(" and the severity no ")". The line format is therefore
      unambiguous for such findings. */
  lemma ParseFormatted(f: Finding)
    requires '(' !in f.name && ')' !in f.severity
    ensures ParseFinding(FormatFinding(f)) == Some(f)
  {
    var line := FormatFinding(f);
    var pre := f.name + " ";
    var tail := f.severity + "): " + f.uri;
    assert '(' !in pre;
    assert line == pre + ['('] + tail;
    IndexOfAfter(pre, '(', tail);
    var i := |pre|;
    assert line[i - 1] == ' ';
    assert line[i + 1..] == tail;
    assert line[..i - 1] == f.name;
    ParseTailOf(f.severity, f.uri);
  }
}
