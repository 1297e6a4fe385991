/** The "Current Test Dates" field of the alert built by
    `send_discord_notification`: one bullet line per date. */
module Notification {

  /** U+2022 BULLET and a space. */
  const BulletPrefix: string := "\U{2022} "

  /** `f"• {date}"`: the line holds a line break exactly when the date
      does, and it ends as the date ends. */
  function BulletLine(date: string): (line: string)
    ensures |line| == |date| + 2
    ensures '\n' in line <==> '\n' in date
    ensures date != [] ==> line[|line| - 1] == date[|date| - 1]
  {
    assert forall k :: 0 <= k < |date| ==> (BulletPrefix + date)[k + 2] == date[k];
    BulletPrefix + date
  }

  /** `"\n".join(lines)`: the lines with a single newline between
      consecutive ones, and none before the first or after the last. */
  function JoinLines(lines: seq<string>): (s: string)
    ensures lines == [] ==> s == []
    ensures |lines| == 1 ==> s == lines[0]
    ensures |lines| >= 1 ==> lines[0] <= s
  {
    if |lines| == 0 then []
    else if |lines| == 1 then lines[0]
    else lines[0] + "\n" + JoinLines(lines[1..])
  }

  /** The field value: a bullet line for each date, in list order. It is
      empty exactly when there is no date; otherwise it starts with the
      bullet and ends with the last date. */
  function BulletField(dates: seq<string>): (field: string)
    ensures field == [] <==> dates == []
    ensures |dates| >= 1 ==> BulletPrefix <= field
    ensures |dates| >= 1 ==> var last := dates[|dates| - 1];
                             |last| <= |field| && field[|field| - |last|..] == last
  {
    var lines := seq(|dates|, i requires 0 <= i < |dates| => BulletLine(dates[i]));
    JoinEndsWithLast(lines);
    JoinLines(lines)
  }

  /** Cutting a text at every newline (Python's `s.split("\n")`): the
      reference against which the join is checked. */
  function SplitLines(s: string): (lines: seq<string>)
    ensures |lines| >= 1
    ensures forall i :: 0 <= i < |lines| ==> '\n' !in lines[i]
  {
    if s == [] then [[]]
    else
      var rest := SplitLines(s[1..]);
      if s[0] == '\n' then [[]] + rest
      else [[s[0]] + rest[0]] + rest[1..]
  }

  lemma {:induction false} SplitSingleLine(line: string)
    requires '\n' !in line
    ensures SplitLines(line) == [line]
  {
    if line != [] {
      assert '\n' !in line[1..] by {
        forall k | 0 <= k < |line[1..]| ensures line[1..][k] != '\n' {
          assert line[1..][k] == line[k + 1];
        }
      }
      SplitSingleLine(line[1..]);
      assert [line[0]] + line[1..] == line;
    }
  }

  lemma {:induction false} SplitFirstLine(line: string, tail: string)
    requires '\n' !in line
    ensures SplitLines(line + "\n" + tail) == [line] + SplitLines(tail)
  {
    if line == [] {
      assert line + "\n" + tail == "\n" + tail;
      assert ("\n" + tail)[1..] == tail;
    } else {
      var s := line + "\n" + tail;
      assert s[0] == line[0];
      assert s[1..] == line[1..] + "\n" + tail;
      assert '\n' !in line[1..] by {
        forall k | 0 <= k < |line[1..]| ensures line[1..][k] != '\n' {
          assert line[1..][k] == line[k + 1];
        }
      }
      SplitFirstLine(line[1..], tail);
      assert [line[0]] + line[1..] == line;
    }
  }

  /** Splitting a join gives back the lines, provided there is at least
      one and none contains a newline. */
  lemma {:induction false} SplitJoin(lines: seq<string>)
    requires |lines| >= 1
    requires forall i :: 0 <= i < |lines| ==> '\n' !in lines[i]
    ensures SplitLines(JoinLines(lines)) == lines
  {
    if |lines| == 1 {
      SplitSingleLine(lines[0]);
    } else {
      SplitJoin(lines[1..]);
      SplitFirstLine(lines[0], JoinLines(lines[1..]));
      assert [lines[0]] + lines[1..] == lines;
    }
  }

  /** Joining a split gives back the text: every newline of the text is
      exactly one separator of the join. */
  lemma {:induction false} JoinSplit(s: string)
    ensures JoinLines(SplitLines(s)) == s
  {
    if s != [] {
      var rest := SplitLines(s[1..]);
      JoinSplit(s[1..]);
      if s[0] == '\n' {
        assert ([[]] + rest)[1..] == rest;
        assert s == "\n" + s[1..];
      } else {
        var lines := [[s[0]] + rest[0]] + rest[1..];
        assert lines[1..] == rest[1..];
        if |rest| == 1 {
          assert s == [s[0]] + s[1..];
        } else {
          assert JoinLines(rest) == rest[0] + "\n" + JoinLines(rest[1..]);
          assert s == [s[0]] + s[1..];
        }
      }
    }
  }

  /** Joining two non-empty runs of lines is joining each and putting one
      newline between them, whatever the lines hold. */
  lemma {:induction false} JoinAppend(a: seq<string>, b: seq<string>)
    requires |a| >= 1 && |b| >= 1
    ensures JoinLines(a + b) == JoinLines(a) + "\n" + JoinLines(b)
  {
    assert (a + b)[0] == a[0];
    if |a| == 1 {
      assert (a + b)[1..] == b;
    } else {
      assert (a + b)[1..] == a[1..] + b;
      JoinAppend(a[1..], b);
    }
  }

  /** The joined text ends with the last line: nothing is added after it. */
  lemma {:induction false} JoinEndsWithLast(lines: seq<string>)
    ensures |lines| >= 1 ==>
              var j := JoinLines(lines); var last := lines[|lines| - 1];
              |last| <= |j| && j[|j| - |last|..] == last
  {
    if |lines| > 1 {
      JoinEndsWithLast(lines[1..]);
    }
  }

  /** The field has exactly one line per date, in list order, each the
      bullet followed by the date; it needs at least one date and no newline inside any date. */
  lemma BulletFieldLines(dates: seq<string>)
    requires |dates| >= 1
    requires forall i :: 0 <= i < |dates| ==> '\n' !in dates[i]
    ensures |SplitLines(BulletField(dates))| == |dates|
    ensures forall i :: 0 <= i < |dates| ==> SplitLines(BulletField(dates))[i] == BulletPrefix + dates[i]
  {
    var lines := seq(|dates|, i requires 0 <= i < |dates| => BulletLine(dates[i]));
    SplitJoin(lines);
  }
}
