/**
  String helpers shared by the slug sanitiser, the header reader and the
  selection prompt: newline removal, line scanning, path splitting and case
  folding.
 */
module Text {

  predicate IsDigit(c: char) {
    '0' <= c <= '9'
  }

  predicate AllDigits(s: string) {
    forall i :: 0 <= i < |s| ==> IsDigit(s[i])
  }

  /** `strings.ReplaceAll(s, "\n", "")`: every newline removed, nothing else touched. */
  function StripNewlines(s: string): (r: string)
    ensures '\n' !in r
    ensures |r| <= |s|
  {
    if s == [] then []
    else if s[0] == '\n' then StripNewlines(s[1..])
    else [s[0]] + StripNewlines(s[1..])
  }

  lemma {:induction false} StripNewlinesIdentity(s: string)
    requires '\n' !in s
    ensures StripNewlines(s) == s
  {
    if s != [] {
      assert s[0] in s;
      assert forall c :: c in s[1..] ==> c in s;
      StripNewlinesIdentity(s[1..]);
    }
  }

  lemma {:induction false} StripNewlinesAppend(a: string, b: string)
    ensures StripNewlines(a + b) == StripNewlines(a) + StripNewlines(b)
  {
    if a != [] {
      assert (a + b)[1..] == a[1..] + b;
      StripNewlinesAppend(a[1..], b);
    } else {
      assert a + b == b;
    }
  }

  /**
    The text before the first newline and the text after it; the whole text
    and nothing when there is no newline.
   */
  function SplitLine(s: string): (r: (string, string))
    ensures '\n' !in r.0
    ensures |r.0| + |r.1| <= |s|
  {
    if s == [] then ([], [])
    else if s[0] == '\n' then ([], s[1..])
    else
      var (line, rest) := SplitLine(s[1..]);
      ([s[0]] + line, rest)
  }

  lemma {:induction false} SplitLineAt(a: string, b: string)
    requires '\n' !in a
    ensures SplitLine(a + "\n" + b) == (a, b)
  {
    if a == [] {
      assert a + "\n" + b == "\n" + b;
    } else {
      assert a[0] in a;
      assert forall c :: c in a[1..] ==> c in a;
      assert (a + "\n" + b)[1..] == a[1..] + "\n" + b;
      SplitLineAt(a[1..], b);
      assert [a[0]] + a[1..] == a;
    }
  }

  /** bufio.ScanLines drops one carriage return that ends a line. */
  function DropCR(line: string): (r: string)
    ensures r == line || (line != [] && line[|line| - 1] == '\r' && r == line[..|line| - 1])
  {
    if line != [] && line[|line| - 1] == '\r' then line[..|line| - 1] else line
  }

  /**
    One `scanner.Scan(); scanner.Text()` step over the unread text: the next
    line without its terminator, and what remains. Past the end of the text
    the line is empty.
   */
  function NextLine(s: string): (r: (string, string))
    ensures '\n' !in r.0
    ensures |r.1| <= |s|
  {
    var (line, rest) := SplitLine(s);
    (DropCR(line), rest)
  }

  lemma NextLineAt(a: string, b: string)
    requires '\n' !in a
    requires a == [] || a[|a| - 1] != '\r'
    ensures NextLine(a + "\n" + b) == (a, b)
  {
    SplitLineAt(a, b);
  }

  /** The last element of `strings.Split(path, "/")`: what follows the last slash. */
  function LastComponent(path: string): (r: string)
    ensures '/' !in r
    ensures |r| <= |path| && r == path[|path| - |r|..]
    ensures |r| < |path| ==> path[|path| - |r| - 1] == '/'
  {
    if path == [] then []
    else if path[|path| - 1] == '/' then []
    else LastComponent(path[..|path| - 1]) + [path[|path| - 1]]
  }

  lemma {:induction false} LastComponentOfJoin(dir: string, name: string)
    requires '/' !in name
    ensures LastComponent(dir + "/" + name) == name
  {
    var path := dir + "/" + name;
    if name == [] {
      assert path[|path| - 1] == '/';
    } else {
      var init := name[..|name| - 1];
      assert forall c :: c in init ==> c in name;
      assert name[|name| - 1] in name;
      assert path[..|path| - 1] == dir + "/" + init;
      LastComponentOfJoin(dir, init);
      assert init + [name[|name| - 1]] == name;
    }
  }

  /** ASCII upper case letters mapped to lower case; everything else kept. */
  function AsciiLower(s: string): (r: string)
    ensures |r| == |s|
    ensures forall i :: 0 <= i < |s| ==> !('A' <= r[i] <= 'Z')
    ensures forall i :: 0 <= i < |s| && !('A' <= s[i] <= 'Z') ==> r[i] == s[i]
  {
    if s == [] then []
    else
      var c := s[0];
      [if 'A' <= c <= 'Z' then (c as int - 'A' as int + 'a' as int) as char else c] + AsciiLower(s[1..])
  }
}
