/**
  The two-line header at the top of a post's `in.md`: line 1 is `# ` and the
  title, line 2 the creation time in Unix seconds wrapped in
  `<span class="date">…</span>`. Written once by the new-post command and
  read back by the index builder and the publisher.
 */
module Header {
  import opened Wrappers
  import opened Text
  import opened Decimal
  import opened Site

  const DATE_OPEN := "<span class=\"date\">"
  const DATE_CLOSE := "</span>"

  function TitleLine(title: string): string {
    "# " + title
  }

  function DateLine(date: string): string {
    DATE_OPEN + date + DATE_CLOSE
  }

  /** What the new-post command writes to `in.md`: both header lines and a blank line. */
  function HeaderText(title: string, date: string): string {
    TitleLine(title) + "\n" + DateLine(date) + "\n" + "\n"
  }

  /** Lines 1 and 2 of a markdown source, as two scanner steps read them. */
  function HeadLines(source: string): (string, string) {
    var (first, rest) := NextLine(source);
    (first, NextLine(rest).0)
  }

  /**
    The title is line 1 with its first two characters cut off; nothing checks
    that they are `# `. A line shorter than two characters makes the slice
    fail.
   */
  function ParseTitle(line: string): (r: Result<string, Error>)
    ensures r.Success? <==> |line| >= 2
    ensures r.Success? ==> line == line[..2] + r.value
    ensures r.Failure? ==> r.error == TitleLineTooShort
  {
    if |line| < 2 then Failure(TitleLineTooShort) else Success(line[2..])
  }

  /** Ten decimal digits start at position `i` of `s`. */
  predicate IsTenDigitRun(s: string, i: int) {
    0 <= i && i + 10 <= |s| && forall j :: i <= j < i + 10 ==> IsDigit(s[j])
  }

  predicate NoDigits(s: string) {
    forall i :: 0 <= i < |s| ==> !IsDigit(s[i])
  }

  /** The leftmost start of a run of ten digits at or after `from`. */
  function FindTenDigits(s: string, from: nat): (r: Option<nat>)
    ensures r.Some? ==> from <= r.value && IsTenDigitRun(s, r.value)
    ensures r.Some? ==> forall i :: from <= i < r.value ==> !IsTenDigitRun(s, i)
    ensures r.None? ==> forall i :: from <= i ==> !IsTenDigitRun(s, i)
    decreases |s| - from
  {
    if from + 10 > |s| then None
    else if IsTenDigitRun(s, from) then Some(from)
    else FindTenDigits(s, from + 1)
  }

  /**
    `regexp.MustCompile("[0-9]{10}").Find(line)` as a string: the leftmost
    ten-digit run, or the empty string when there is none.
   */
  function MatchTenDigits(line: string): string {
    match FindTenDigits(line, 0)
    case Some(i) => line[i..i + 10]
    case None => ""
  }

  /**
    The creation time recorded on line 2: the leftmost ten-digit run parsed
    as a decimal int64. The empty match does not parse.
   */
  function ParseTimestamp(line: string): (r: Option<int>)
    ensures r.Some? ==> 0 <= r.value < 10_000_000_000
  {
    var m := MatchTenDigits(line);
    match FindTenDigits(line, 0)
    case None =>
      assert m == [];
      None
    case Some(i) =>
      assert Pow10(10) == 10_000_000_000;
      assert m == line[i..i + 10];
      forall j | 0 <= j < 10 ensures IsDigit(m[j]) {
        assert m[j] == line[i + j];
      }
      ParseDigits(m);
      ParseInt64(m)
  }

  /**
    A timestamp is read exactly when line 2 has a run of ten digits, and it
    is the value of the leftmost such run.
   */
  lemma TimestampFound(line: string)
    ensures ParseTimestamp(line).Some? <==> exists i :: IsTenDigitRun(line, i)
    ensures ParseTimestamp(line).Some? ==>
              exists i :: IsTenDigitRun(line, i) && (forall j :: 0 <= j < i ==> !IsTenDigitRun(line, j))
                          && ParseTimestamp(line).value == Value(line[i..i + 10])
  {
    match FindTenDigits(line, 0)
    case None =>
    case Some(i) =>
      var m := line[i..i + 10];
      assert MatchTenDigits(line) == m;
      forall j | 0 <= j < 10 ensures IsDigit(m[j]) {
        assert m[j] == line[i + j];
      }
      assert Pow10(10) == 10_000_000_000;
      ParseDigits(m);
      assert ParseTimestamp(line) == Some(Value(m));
  }

  /** A ten-digit run in `pre + mid + post` lies inside `mid` when the others have no digit. */
  lemma RunInside(pre: string, mid: string, post: string, k: int)
    requires NoDigits(pre) && NoDigits(post) && post != []
    requires IsTenDigitRun(pre + mid + post, k)
    ensures |pre| <= k && k + 10 <= |pre| + |mid|
  {
    var s := pre + mid + post;
    var q := |pre| + |mid|;
    // a position of the run that lies in post, if the run reaches post
    var p := if k + 10 > q then (if k > q then k else q) else k;
    assert IsDigit(s[k]) && IsDigit(s[p]);
    if k < |pre| {
      assert false;
    }
    if k + 10 > q {
      assert false;
    }
  }

  lemma DateDelimitersHaveNoDigits()
    ensures NoDigits(DATE_OPEN) && NoDigits(DATE_CLOSE) && |DATE_OPEN| == 19 && DATE_CLOSE != []
  {
  }

  /**
    Reading back the date line written for time `now` gives `now` exactly
    when `now` has ten decimal digits (from September 2001 to November 2286):
    a shorter number leaves no ten-digit run, and a negative or longer one is
    read as some other number.
   */
  lemma DateRoundTrip(now: int)
    ensures ParseTimestamp(DateLine(FormatInt(now))) == Some(now)
        <==> 1_000_000_000 <= now < 10_000_000_000
  {
    var d := FormatInt(now);
    var line := DateLine(d);
    DateDelimitersHaveNoDigits();
    if 1_000_000_000 <= now < 10_000_000_000 {
      TenDigits(now);
      assert IsTenDigitRun(line, 19);
      forall i | 0 <= i < 19 ensures !IsTenDigitRun(line, i) {
        assert line[i] == DATE_OPEN[i];
      }
      assert FindTenDigits(line, 0) == Some(19);
      assert line[19..29] == d;
      ValueOfDigits(now);
      assert d[0] != '+' && d[0] != '-' by { assert IsDigit(d[0]); }
    } else if ParseTimestamp(line) == Some(now) {
      DateReadBackHasTenDigits(now);
    }
  }

  lemma DateReadBackHasTenDigits(now: int)
    ensures ParseTimestamp(DateLine(FormatInt(now))) == Some(now) ==> 1_000_000_000 <= now < 10_000_000_000
  {
    if ParseTimestamp(DateLine(FormatInt(now))) != Some(now) {
      return;
    }
    var d := FormatInt(now);
    var line := DateLine(d);
    DateDelimitersHaveNoDigits();
    assert 0 <= now < 10_000_000_000;
    TimestampFound(line);
    var k :| IsTenDigitRun(line, k);
    RunInside(DATE_OPEN, d, DATE_CLOSE, k);
    assert |d| >= 10;
    DigitsLength(now, 9);
    assert Pow10(9) == 1_000_000_000;
  }

  /**
    The header the new-post command writes, followed by whatever body the
    editor leaves after it, reads back as the title and the time it was
    written with. The title must not end in a carriage return, which the
    scanner would drop.
   */
  lemma HeaderRoundTrip(title: string, now: int, body: string)
    requires '\n' !in title
    requires title == [] || title[|title| - 1] != '\r'
    requires 1_000_000_000 <= now < 10_000_000_000
    ensures ParseTitle(HeadLines(HeaderText(title, FormatInt(now)) + body).0) == Success(title)
    ensures ParseTimestamp(HeadLines(HeaderText(title, FormatInt(now)) + body).1) == Some(now)
  {
    var d := FormatInt(now);
    var t1, t2 := TitleLine(title), DateLine(d);
    TenDigits(now);
    assert '\n' !in d by {
      forall i | 0 <= i < |d| ensures d[i] != '\n' {
        assert IsDigit(d[i]);
      }
    }
    assert '\n' !in t1 by {
      assert forall i :: 0 <= i < |title| ==> t1[i + 2] == title[i];
    }
    assert '\n' !in t2 by {
      DateDelimitersHaveNoDigits();
      assert forall i :: 0 <= i < |d| ==> t2[i + 19] == d[i];
    }
    var rest := t2 + "\n" + "\n" + body;
    assert HeaderText(title, d) + body == t1 + "\n" + rest;
    NextLineAt(t1, rest);
    assert rest == t2 + "\n" + ("\n" + body);
    NextLineAt(t2, "\n" + body);
    DateRoundTrip(now);
  }
}
