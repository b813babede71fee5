/** The email subject, `Got <n> security findings for <repo> at <completedAt>`.
    The partner is a reader that takes the count back out of a subject. */
module Subject {
  import opened Options
  import opened Decimal

  const Prefix := "Got "
  const Middle := " security findings for "
  const At := " at "

  /** The summary line used as the subject. */
  function Summary(count: nat, repo: string, completedAt: string): (s: string)
    ensures |s| == RepoStart(count) + |repo| + |At| + |completedAt|
    ensures Prefix <= s
    ensures s[|Prefix|..|Prefix| + |FromNat(count)|] == FromNat(count)
    ensures s[|Prefix| + |FromNat(count)|..RepoStart(count)] == Middle
    ensures s[RepoStart(count)..RepoStart(count) + |repo|] == repo
    ensures s[RepoStart(count) + |repo|..RepoStart(count) + |repo| + |At|] == At
    ensures s[|s| - |completedAt|..] == completedAt
  {
    var numeral := FromNat(count);
    var s := Prefix + numeral + Middle + repo + At + completedAt;
    PieceAt(Prefix, numeral, Middle + repo + At + completedAt);
    PieceAt(Prefix + numeral, Middle, repo + At + completedAt);
    PieceAt(Prefix + numeral + Middle, repo, At + completedAt);
    PieceAt(Prefix + numeral + Middle + repo, At, completedAt);
    s
  }

  /** The middle piece of a three-part concatenation sits right after the first. */
  lemma PieceAt(a: string, b: string, c: string)
    ensures (a + b + c)[|a|..|a| + |b|] == b
  {
    assert (a + b + c)[|a|..|a| + |b|] == (a + b)[|a|..];
  }

  /** Where the repository name starts in a summary for this count. */
  function RepoStart(count: nat): nat {
    |Prefix| + |FromNat(count)| + |Middle|
  }

  /** The longest run of digits at the front of s. */
  function DigitRun(s: string): (d: string)
    ensures d <= s && AllDigits(d)
    ensures |d| < |s| ==> !IsDigit(s[|d|])
    decreases |s|
  {
    if |s| == 0 || !IsDigit(s[0]) then ""
    else [s[0]] + DigitRun(s[1..])
  }

  lemma {:induction false} DigitRunOfNumeral(d: string, rest: string)
    requires AllDigits(d)
    requires |rest| > 0 && !IsDigit(rest[0])
    ensures DigitRun(d + rest) == d
    decreases |d|
  {
    if |d| > 0 {
      assert (d + rest)[1..] == d[1..] + rest;
      DigitRunOfNumeral(d[1..], rest);
      assert [d[0]] + d[1..] == d;
    } else {
      assert d + rest == rest;
    }
  }

  /** The count a subject reports: the number written right after "Got ". */
  function CountOf(subject: string): Option<nat> {
    if |subject| < |Prefix| || subject[..|Prefix|] != Prefix then None
    else
      var d := DigitRun(subject[|Prefix|..]);
      if |d| == 0 then None else Some(Value(d))
  }

  lemma SummaryAfterPrefix(count: nat, repo: string, completedAt: string)
    ensures Summary(count, repo, completedAt)[|Prefix|..]
         == FromNat(count) + (Middle + repo + At + completedAt)
  {
    var s := Summary(count, repo, completedAt);
    assert s == Prefix + (FromNat(count) + (Middle + repo + At + completedAt));
  }

  /** The subject states the number of findings in decimal, readable back exactly. */
  lemma SummaryCount(count: nat, repo: string, completedAt: string)
    ensures CountOf(Summary(count, repo, completedAt)) == Some(count)
  {
    var n := FromNat(count);
    var rest := Middle + repo + At + completedAt;
    SummaryAfterPrefix(count, repo, completedAt);
    DigitRunOfNumeral(n, rest);
    ValueOfFromNat(count);
  }

  /** The subject names the repository verbatim, right after
      `Got <n> security findings for `. */
  lemma SummaryRepository(count: nat, repo: string, completedAt: string)
    ensures RepoStart(count) + |repo| <= |Summary(count, repo, completedAt)|
    ensures Summary(count, repo, completedAt)[RepoStart(count)..RepoStart(count) + |repo|] == repo
  {
    var s := Summary(count, repo, completedAt);
    assert s == (Prefix + FromNat(count) + Middle) + repo + (At + completedAt);
  }
}
