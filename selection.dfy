/**
  Picking a published post interactively: the posts are listed with their
  zero-based positions, one line is read from standard input, and the line
  must be a decimal integer that is a position of the listing.
 */
module Selection {
  import opened Wrappers
  import opened Text
  import opened Decimal
  import opened Site

  /**
    `reader.ReadString('\n')` on what standard input still holds: everything
    up to and including the first newline. Input that ends before a newline
    is an error.
   */
  function ReadLine(input: string): (r: Result<string, Error>)
    ensures r.Success? <==> '\n' in input
    ensures r.Success? ==> |r.value| >= 1 && r.value[|r.value| - 1] == '\n'
    ensures r.Success? ==> '\n' !in r.value[..|r.value| - 1] && r.value <= input
    ensures r.Failure? ==> r.error == NoInputLine
  {
    if '\n' in input then
      var (line, rest) := SplitLine(input);
      SplitLineAt(line, rest);
      SplitLinePrefix(input);
      Success(line + "\n")
    else Failure(NoInputLine)
  }

  lemma {:induction false} SplitLinePrefix(s: string)
    requires '\n' in s
    ensures SplitLine(s).0 + "\n" <= s
  {
    if s[0] != '\n' {
      assert s[1..] + [] == s[1..];
      assert '\n' in s[1..] by {
        var i :| 0 <= i < |s| && s[i] == '\n';
        assert s[1..][i - 1] == '\n';
      }
      SplitLinePrefix(s[1..]);
    }
  }

  /**
    The position typed at the prompt: the line read, newline removed, parsed
    by `strconv.Atoi`, and used to index a listing of `count` posts.
   */
  function Choose(count: nat, input: string): (r: Result<nat, Error>)
    ensures r.Success? ==> r.value < count
    ensures r.Failure? ==> r.error in {NoInputLine, NotAnInteger, IndexOutOfRange}
  {
    match ReadLine(input)
    case Failure(e) => Failure(e)
    case Success(line) =>
      match ParseInt64(StripNewlines(line))
      case None => Failure(NotAnInteger)
      case Some(i) => if 0 <= i < count then Success(i) else Failure(IndexOutOfRange)
  }

  /** `select_post`: the path of the chosen post, `out/p/` and its name. */
  function SelectPost(names: seq<string>, input: string): (r: Result<string, Error>)
    ensures r.Success? <==> Choose(|names|, input).Success?
    ensures r.Success? ==> r.value == POST_DIR + "/" + names[Choose(|names|, input).value]
  {
    match Choose(|names|, input)
    case Failure(e) => Failure(e)
    case Success(i) => Success(POST_DIR + "/" + names[i])
  }

  /**
    Typing the decimal text of `i` and a newline chooses `i` exactly when it
    is a position of the listing; any other int64 is out of range.
   */
  lemma ChooseTyped(count: nat, i: int, more: string)
    requires MIN_INT64 <= i <= MAX_INT64
    ensures Choose(count, FormatInt(i) + "\n" + more)
         == if 0 <= i < count then Success(i) else Failure(IndexOutOfRange)
  {
    var typed := FormatInt(i);
    assert '\n' !in typed by {
      if i < 0 {
        var d := Digits(-i);
        assert typed == "-" + d;
        assert forall k :: 1 <= k < |typed| ==> typed[k] == d[k - 1];
        assert forall k :: 0 <= k < |d| ==> IsDigit(d[k]);
      } else {
        assert forall k :: 0 <= k < |typed| ==> IsDigit(typed[k]);
      }
    }
    var input := typed + "\n" + more;
    assert input[|typed|] == '\n';
    SplitLineAt(typed, more);
    assert ReadLine(input) == Success(typed + "\n");
    StripNewlinesAppend(typed, "\n");
    StripNewlinesIdentity(typed);
    assert StripNewlines("\n") == [];
    assert typed + [] == typed;
    FormatParseRoundTrip(i);
  }

  /** A line that is not a decimal int64 fails before the listing is used. */
  lemma ChooseRejectsNonNumbers(count: nat, line: string, more: string)
    requires '\n' !in line
    requires ParseInt64(line).None?
    ensures Choose(count, line + "\n" + more) == Failure(NotAnInteger)
  {
    var input := line + "\n" + more;
    assert input[|line|] == '\n';
    SplitLineAt(line, more);
    StripNewlinesAppend(line, "\n");
    StripNewlinesIdentity(line);
    assert StripNewlines("\n") == [];
    assert line + [] == line;
  }

  /**
    The edit and delete commands take the post's name back out of the
    selected path as its last slash-separated component: for any name
    without a slash that is the name that was listed.
   */
  lemma SelectedName(names: seq<string>, input: string)
    requires forall k :: 0 <= k < |names| ==> '/' !in names[k]
    requires SelectPost(names, input).Success?
    ensures LastComponent(SelectPost(names, input).value) == names[Choose(|names|, input).value]
  {
    LastComponentOfJoin(POST_DIR, names[Choose(|names|, input).value]);
  }
}
