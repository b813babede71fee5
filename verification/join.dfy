/** Joining lines with a separator the way `lines.reduce((previous, current) =>
    previous + sep + current)` does when it is given no initial value. Partners:
    a front-to-back reference join, the position of every line and separator in the
    text, and a split that recovers the lines. */
module Join {

  /** Sum of the lengths of the lines. */
  function TotalLength(lines: seq<string>): nat
    decreases |lines|
  {
    if |lines| == 0 then 0
    else TotalLength(lines[..|lines| - 1]) + |lines[|lines| - 1]|
  }

  /** The left fold with no initial value. JavaScript's reduce throws on an empty
      array in this form, so at least one line is required. */
  function Fold(lines: seq<string>, sep: string): (r: string)
    requires |lines| > 0
    ensures |r| == TotalLength(lines) + (|lines| - 1) * |sep|
    ensures lines[0] <= r
    decreases |lines|
  {
    if |lines| == 1 then lines[0]
    else Fold(lines[..|lines| - 1], sep) + sep + lines[|lines| - 1]
  }

  /** Reference definition, built front to back: the first line, the separator,
      then the rest joined. */
  function Joined(lines: seq<string>, sep: string): string
    requires |lines| > 0
    decreases |lines|
  {
    if |lines| == 1 then lines[0]
    else lines[0] + sep + Joined(lines[1..], sep)
  }

  lemma {:induction false} JoinedSnoc(lines: seq<string>, last: string, sep: string)
    requires |lines| > 0
    ensures Joined(lines + [last], sep) == Joined(lines, sep) + sep + last
    decreases |lines|
  {
    var all := lines + [last];
    if |lines| > 1 {
      assert all[1..] == lines[1..] + [last];
      JoinedSnoc(lines[1..], last, sep);
    } else {
      assert all[1..] == [last];
    }
  }

  /** The fold joins lines in their original order: it agrees with the
      front-to-back join on every non-empty list. */
  lemma {:induction false} FoldIsJoined(lines: seq<string>, sep: string)
    requires |lines| > 0
    ensures Fold(lines, sep) == Joined(lines, sep)
    decreases |lines|
  {
    if |lines| > 1 {
      var init := lines[..|lines| - 1];
      FoldIsJoined(init, sep);
      JoinedSnoc(init, lines[|lines| - 1], sep);
      assert init + [lines[|lines| - 1]] == lines;
    }
  }

  /** Where line i starts in the joined text: the lengths of the earlier lines,
      each followed by one separator. */
  function Offset(lines: seq<string>, sep: string, i: nat): nat
    requires i <= |lines|
    decreases i
  {
    if i == 0 then 0 else Offset(lines, sep, i - 1) + |lines[i - 1]| + |sep|
  }

  lemma {:induction false} OffsetOfPrefix(lines: seq<string>, sep: string, k: nat, i: nat)
    requires i <= k <= |lines|
    ensures Offset(lines[..k], sep, i) == Offset(lines, sep, i)
    decreases i
  {
    if i > 0 {
      OffsetOfPrefix(lines, sep, k, i - 1);
    }
  }

  /** The fold ends right after its last line. */
  lemma {:induction false} FoldEnd(lines: seq<string>, sep: string)
    requires |lines| > 0
    ensures |Fold(lines, sep)| == Offset(lines, sep, |lines| - 1) + |lines[|lines| - 1]|
    decreases |lines|
  {
    if |lines| > 1 {
      var init := lines[..|lines| - 1];
      FoldEnd(init, sep);
      OffsetOfPrefix(lines, sep, |lines| - 1, |lines| - 2);
    }
  }

  /** Offsets grow along the list: line i ends before line i + 1 starts. */
  lemma {:induction false} OffsetBounds(lines: seq<string>, sep: string, i: nat)
    requires |lines| > 0 && i < |lines|
    ensures Offset(lines, sep, i) + |lines[i]| <= Offset(lines, sep, |lines| - 1) + |lines[|lines| - 1]|
    decreases |lines| - i
  {
    if i < |lines| - 1 {
      OffsetBounds(lines, sep, i + 1);
    }
  }

  /** One fold step: the fold of n > 1 lines extends the fold of the first n - 1. */
  lemma FoldStep(lines: seq<string>, sep: string)
    requires |lines| > 1
    ensures Fold(lines, sep) == Fold(lines[..|lines| - 1], sep) + (sep + lines[|lines| - 1])
  {
    var n := |lines|;
    assert Fold(lines, sep) == Fold(lines[..n - 1], sep) + sep + lines[n - 1];
  }

  lemma SliceOfFront(a: string, b: string, lo: nat, hi: nat)
    requires lo <= hi <= |a|
    ensures (a + b)[lo..hi] == a[lo..hi]
  {
  }

  lemma SliceOfBack(a: string, b: string, lo: nat, hi: nat)
    requires |a| <= lo <= hi <= |a| + |b|
    ensures (a + b)[lo..hi] == b[lo - |a|..hi - |a|]
  {
  }

  /** Line i sits verbatim at Offset(i) in the fold. */
  lemma {:induction false} FoldLineAt(lines: seq<string>, sep: string, i: nat)
    requires i < |lines|
    ensures Offset(lines, sep, i) + |lines[i]| <= |Fold(lines, sep)|
    ensures Fold(lines, sep)[Offset(lines, sep, i)..Offset(lines, sep, i) + |lines[i]|] == lines[i]
    decreases |lines|
  {
    var n := |lines|;
    FoldEnd(lines, sep);
    OffsetBounds(lines, sep, i);
    if n > 1 {
      var init := lines[..n - 1];
      var head := Fold(init, sep);
      var o := Offset(lines, sep, i);
      FoldStep(lines, sep);
      FoldEnd(init, sep);
      OffsetOfPrefix(lines, sep, n - 1, n - 2);
      if i < n - 1 {
        FoldLineAt(init, sep, i);
        OffsetOfPrefix(lines, sep, n - 1, i);
        SliceOfFront(head, sep + lines[n - 1], o, o + |lines[i]|);
      } else {
        SliceOfBack(head, sep + lines[n - 1], o, o + |lines[i]|);
      }
    }
  }

  /** Exactly the separator lies between line i and line i + 1 in the fold. */
  lemma {:induction false} FoldSeparatorAt(lines: seq<string>, sep: string, i: nat)
    requires i + 1 < |lines|
    ensures Offset(lines, sep, i + 1) <= |Fold(lines, sep)|
    ensures Fold(lines, sep)[Offset(lines, sep, i) + |lines[i]|..Offset(lines, sep, i + 1)] == sep
    decreases |lines|
  {
    var n := |lines|;
    FoldEnd(lines, sep);
    OffsetBounds(lines, sep, i + 1);
    var init := lines[..n - 1];
    var head := Fold(init, sep);
    var e := Offset(lines, sep, i) + |lines[i]|;
    var f := Offset(lines, sep, i + 1);
    FoldStep(lines, sep);
    FoldEnd(init, sep);
    OffsetOfPrefix(lines, sep, n - 1, n - 2);
    if i + 1 < n - 1 {
      FoldSeparatorAt(init, sep, i);
      OffsetOfPrefix(lines, sep, n - 1, i);
      OffsetOfPrefix(lines, sep, n - 1, i + 1);
      SliceOfFront(head, sep + lines[n - 1], e, f);
    } else {
      SliceOfBack(head, sep + lines[n - 1], e, f);
      assert (sep + lines[n - 1])[..|sep|] == sep;
    }
  }

  /** Splits s at every occurrence of sep, scanning left to right, as
      String.prototype.split does for a non-empty separator. */
  function Split(s: string, sep: string): (parts: seq<string>)
    requires |sep| > 0
    ensures |parts| > 0
    decreases |s|
  {
    if |s| < |sep| then [s]
    else if s[..|sep|] == sep then [""] + Split(s[|sep|..], sep)
    else
      var rest := Split(s[1..], sep);
      [[s[0]] + rest[0]] + rest[1..]
  }

  lemma {:induction false} SplitWithoutSeparator(x: string, sep: string)
    requires |sep| > 0 && sep[0] !in x
    ensures Split(x, sep) == [x]
    decreases |x|
  {
    if |x| >= |sep| {
      assert x[0] in x;
      assert x[..|sep|][0] != sep[0];
      assert sep[0] !in x[1..] by {
        forall j | 0 <= j < |x[1..]| ensures x[1..][j] != sep[0] {
          assert x[1..][j] == x[j + 1];
        }
      }
      SplitWithoutSeparator(x[1..], sep);
      assert [x[0]] + x[1..] == x;
    }
  }

  lemma {:induction false} SplitAfterLine(x: string, sep: string, rest: string)
    requires |sep| > 0 && sep[0] !in x
    ensures Split(x + sep + rest, sep) == [x] + Split(rest, sep)
    decreases |x|
  {
    var s := x + sep + rest;
    if |x| == 0 {
      assert s == sep + rest;
      assert s[..|sep|] == sep;
      assert s[|sep|..] == rest;
    } else {
      assert x[0] in x;
      assert s[..|sep|][0] == x[0];
      assert sep[0] !in x[1..] by {
        forall j | 0 <= j < |x[1..]| ensures x[1..][j] != sep[0] {
          assert x[1..][j] == x[j + 1];
        }
      }
      assert s[1..] == x[1..] + sep + rest;
      SplitAfterLine(x[1..], sep, rest);
      assert [x[0]] + x[1..] == x;
    }
  }

  lemma {:induction false} SplitJoined(lines: seq<string>, sep: string)
    requires |lines| > 0 && |sep| > 0
    requires forall i :: 0 <= i < |lines| ==> sep[0] !in lines[i]
    ensures Split(Joined(lines, sep), sep) == lines
    decreases |lines|
  {
    if |lines| == 1 {
      SplitWithoutSeparator(lines[0], sep);
    } else {
      SplitAfterLine(lines[0], sep, Joined(lines[1..], sep));
      SplitJoined(lines[1..], sep);
      assert [lines[0]] + lines[1..] == lines;
    }
  }

  /** Round trip: when no line contains the separator's first character,
      splitting the fold at the separator gives back exactly the lines. */
  lemma SplitFold(lines: seq<string>, sep: string)
    requires |lines| > 0 && |sep| > 0
    requires forall i :: 0 <= i < |lines| ==> sep[0] !in lines[i]
    ensures Split(Fold(lines, sep), sep) == lines
  {
    FoldIsJoined(lines, sep);
    SplitJoined(lines, sep);
  }
}
