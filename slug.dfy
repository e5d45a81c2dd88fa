/**
  The slug a new post's directory is named after: newlines removed, spaces
  turned into underscores, every character outside `[0-9A-Za-z_]` deleted
  (the regular expression `\W`), and every run of two or more underscores
  (`[_]{2,}`) replaced by one underscore, in that order.
 */
module Slug {
  import opened Text

  /** The ASCII word characters, `[0-9A-Za-z_]`. */
  predicate IsWordChar(c: char) {
    'a' <= c <= 'z' || 'A' <= c <= 'Z' || '0' <= c <= '9' || c == '_'
  }

  predicate IsAlnum(c: char) {
    'a' <= c <= 'z' || 'A' <= c <= 'Z' || '0' <= c <= '9'
  }

  predicate AllWordChars(s: string) {
    forall i :: 0 <= i < |s| ==> IsWordChar(s[i])
  }

  predicate NoDoubleUnderscore(s: string) {
    forall i :: 0 <= i < |s| - 1 ==> !(s[i] == '_' && s[i + 1] == '_')
  }

  /** What a sanitised title looks like. */
  predicate IsSlug(s: string) {
    AllWordChars(s) && NoDoubleUnderscore(s)
  }

  /** The letters and digits of `s`, in order. */
  function Alnums(s: string): string {
    if s == [] then [] else (if IsAlnum(s[0]) then [s[0]] else []) + Alnums(s[1..])
  }

  /** `strings.ReplaceAll(title, " ", "_")`. */
  function SpacesToUnderscores(s: string): (r: string)
    ensures |r| == |s|
    ensures ' ' !in r
  {
    if s == [] then [] else [if s[0] == ' ' then '_' else s[0]] + SpacesToUnderscores(s[1..])
  }

  /** Deleting every match of `\W`. */
  function DropNonWord(s: string): (r: string)
    ensures AllWordChars(r)
  {
    if s == [] then []
    else if IsWordChar(s[0]) then [s[0]] + DropNonWord(s[1..])
    else DropNonWord(s[1..])
  }

  /** The text after the underscores that `s` starts with. */
  function SkipUnderscores(s: string): (r: string)
    ensures |r| <= |s|
    ensures AllWordChars(s) ==> AllWordChars(r)
    ensures r == [] || r[0] != '_'
  {
    if s != [] && s[0] == '_' then SkipUnderscores(s[1..]) else s
  }

  /**
    Replacing every match of `[_]{2,}` by `_`: scanning from the left, a run
    of at least two underscores is matched whole and becomes one underscore;
    every other character is copied.
   */
  function CollapseUnderscores(s: string): (r: string)
    ensures NoDoubleUnderscore(r)
    ensures AllWordChars(s) ==> AllWordChars(r)
    ensures s != [] ==> r != [] && r[0] == s[0]
    decreases |s|
  {
    if |s| >= 2 && s[0] == '_' && s[1] == '_' then
      var rest := SkipUnderscores(s);
      "_" + CollapseUnderscores(rest)
    else if s == [] then []
    else
      [s[0]] + CollapseUnderscores(s[1..])
  }

  /** The slug `createPost` derives from a title. */
  function Sanitize(title: string): (slug: string)
    ensures IsSlug(slug)
  {
    CollapseUnderscores(DropNonWord(SpacesToUnderscores(StripNewlines(title))))
  }

  /** `s` holds nothing a slug keeps: no word character and no space. */
  predicate NothingKept(s: string) {
    forall i :: 0 <= i < |s| ==> !IsWordChar(s[i]) && s[i] != ' '
  }

  lemma {:induction false} StripNewlinesKeepsNothing(s: string)
    requires NothingKept(s)
    ensures NothingKept(StripNewlines(s))
  {
    if s != [] {
      assert NothingKept(s[1..]) by {
        forall i | 0 <= i < |s[1..]| ensures !IsWordChar(s[1..][i]) && s[1..][i] != ' ' {
          assert s[1..][i] == s[i + 1];
        }
      }
      StripNewlinesKeepsNothing(s[1..]);
    }
  }

  lemma {:induction false} DropNonWordNothing(s: string)
    requires NothingKept(s)
    ensures DropNonWord(s) == []
  {
    if s != [] {
      assert NothingKept(s[1..]) by {
        forall i | 0 <= i < |s[1..]| ensures !IsWordChar(s[1..][i]) && s[1..][i] != ' ' {
          assert s[1..][i] == s[i + 1];
        }
      }
      DropNonWordNothing(s[1..]);
    }
  }

  /**
    A title with no word character and no space, such as `???` or a title
    written entirely in non-ASCII letters, sanitises to the empty slug.
   */
  lemma SanitizesToNothing(title: string)
    requires NothingKept(title)
    ensures Sanitize(title) == []
  {
    var t := StripNewlines(title);
    StripNewlinesKeepsNothing(title);
    assert ' ' !in t;
    SpacesToUnderscoresIdentity(t);
    DropNonWordNothing(t);
  }

  lemma {:induction false} SpacesToUnderscoresIdentity(s: string)
    requires ' ' !in s
    ensures SpacesToUnderscores(s) == s
  {
    if s != [] {
      assert s[0] in s;
      assert forall c :: c in s[1..] ==> c in s;
      SpacesToUnderscoresIdentity(s[1..]);
    }
  }

  lemma {:induction false} DropNonWordIdentity(s: string)
    requires AllWordChars(s)
    ensures DropNonWord(s) == s
  {
    if s != [] {
      DropNonWordIdentity(s[1..]);
    }
  }

  lemma {:induction false} CollapseIdentity(s: string)
    requires NoDoubleUnderscore(s)
    ensures CollapseUnderscores(s) == s
  {
    if s != [] {
      assert !(|s| >= 2 && s[0] == '_' && s[1] == '_');
      CollapseIdentity(s[1..]);
    }
  }

  /** Sanitising a slug gives it back: each rewrite is a no-op on a slug. */
  lemma SanitizeIdempotent(title: string)
    ensures Sanitize(Sanitize(title)) == Sanitize(title)
  {
    var s := Sanitize(title);
    assert '\n' !in s && ' ' !in s by {
      forall i | 0 <= i < |s| ensures s[i] != '\n' && s[i] != ' ' {
        assert IsWordChar(s[i]);
      }
    }
    StripNewlinesIdentity(s);
    SpacesToUnderscoresIdentity(s);
    DropNonWordIdentity(s);
    CollapseIdentity(s);
  }

  lemma {:induction false} AlnumsAppend(a: string, b: string)
    ensures Alnums(a + b) == Alnums(a) + Alnums(b)
  {
    if a == [] {
      assert a + b == b;
    } else {
      var ab := a + b;
      assert ab[0] == a[0];
      assert ab[1..] == a[1..] + b;
      AlnumsAppend(a[1..], b);
      var kept := if IsAlnum(a[0]) then [a[0]] else [];
      assert Alnums(ab) == kept + Alnums(a[1..] + b);
      assert Alnums(a) == kept + Alnums(a[1..]);
      assert kept + (Alnums(a[1..]) + Alnums(b)) == (kept + Alnums(a[1..])) + Alnums(b);
    }
  }

  lemma {:induction false} StripNewlinesKeepsAlnums(s: string)
    ensures Alnums(StripNewlines(s)) == Alnums(s)
  {
    if s != [] {
      StripNewlinesKeepsAlnums(s[1..]);
      if s[0] != '\n' {
        AlnumsAppend([s[0]], StripNewlines(s[1..]));
      }
    }
  }

  lemma {:induction false} SpacesKeepAlnums(s: string)
    ensures Alnums(SpacesToUnderscores(s)) == Alnums(s)
  {
    if s != [] {
      SpacesKeepAlnums(s[1..]);
      var c := if s[0] == ' ' then '_' else s[0];
      AlnumsAppend([c], SpacesToUnderscores(s[1..]));
    }
  }

  lemma {:induction false} DropNonWordKeepsAlnums(s: string)
    ensures Alnums(DropNonWord(s)) == Alnums(s)
  {
    if s != [] {
      DropNonWordKeepsAlnums(s[1..]);
      if IsWordChar(s[0]) {
        AlnumsAppend([s[0]], DropNonWord(s[1..]));
      }
    }
  }

  lemma {:induction false} SkipUnderscoresKeepsAlnums(s: string)
    ensures Alnums(SkipUnderscores(s)) == Alnums(s)
  {
    if s != [] && s[0] == '_' {
      SkipUnderscoresKeepsAlnums(s[1..]);
    }
  }

  lemma {:induction false} CollapseKeepsAlnums(s: string)
    ensures Alnums(CollapseUnderscores(s)) == Alnums(s)
    decreases |s|
  {
    if |s| >= 2 && s[0] == '_' && s[1] == '_' {
      var rest := SkipUnderscores(s);
      CollapseKeepsAlnums(rest);
      SkipUnderscoresKeepsAlnums(s);
      AlnumsAppend("_", CollapseUnderscores(rest));
    } else if s != [] {
      CollapseKeepsAlnums(s[1..]);
      AlnumsAppend([s[0]], CollapseUnderscores(s[1..]));
    }
  }

  /**
    The slug keeps every ASCII letter and digit of the title, in order; what
    it drops or adds besides them are underscores only.
   */
  lemma SanitizeKeepsAlnums(title: string)
    ensures Alnums(Sanitize(title)) == Alnums(title)
  {
    var s0 := StripNewlines(title);
    var s1 := SpacesToUnderscores(s0);
    var s2 := DropNonWord(s1);
    StripNewlinesKeepsAlnums(title);
    SpacesKeepAlnums(s0);
    DropNonWordKeepsAlnums(s1);
    CollapseKeepsAlnums(s2);
  }

  lemma {:induction false} SpacesToUnderscoresAppend(a: string, b: string)
    ensures SpacesToUnderscores(a + b) == SpacesToUnderscores(a) + SpacesToUnderscores(b)
  {
    if a == [] {
      assert a + b == b;
    } else {
      assert (a + b)[1..] == a[1..] + b;
      SpacesToUnderscoresAppend(a[1..], b);
    }
  }

  lemma {:induction false} DropNonWordAppend(a: string, b: string)
    ensures DropNonWord(a + b) == DropNonWord(a) + DropNonWord(b)
  {
    if a == [] {
      assert a + b == b;
    } else {
      assert (a + b)[1..] == a[1..] + b;
      DropNonWordAppend(a[1..], b);
    }
  }

  lemma CollapseCons(c: char, s: string)
    requires c != '_'
    ensures CollapseUnderscores([c] + s) == [c] + CollapseUnderscores(s)
  {
    assert ([c] + s)[1..] == s;
  }

  lemma CollapseRunOfTwo(s: string)
    requires s != [] && s[0] != '_'
    ensures CollapseUnderscores("__" + s) == "_" + CollapseUnderscores(s)
  {
    var t := "__" + s;
    assert t[1..][1..] == s;
    assert SkipUnderscores(t[1..][1..]) == s;
    assert SkipUnderscores(t) == s;
  }

  lemma ExampleSpaces(title: string, my: string, cool: string, post: string)
    requires my == "My" && cool == "Cool" && post == "Post"
    requires title == my + "  " + cool + " " + post + "!!"
    ensures SpacesToUnderscores(title) == my + "__" + cool + "_" + post + "!!"
  {
    SpacesToUnderscoresAppend(my + "  " + cool + " " + post, "!!");
    SpacesToUnderscoresAppend(my + "  " + cool + " ", post);
    SpacesToUnderscoresAppend(my + "  " + cool, " ");
    SpacesToUnderscoresAppend(my + "  ", cool);
    SpacesToUnderscoresAppend(my, "  ");
    SpacesToUnderscoresIdentity(my);
    SpacesToUnderscoresIdentity(cool);
    SpacesToUnderscoresIdentity(post);
    SpacesToUnderscoresIdentity("!!");
    assert SpacesToUnderscores("  ") == "__";
    assert SpacesToUnderscores(" ") == "_";
  }

  lemma ExampleNonWord(worded: string)
    requires AllWordChars(worded)
    ensures DropNonWord(worded + "!!") == worded
  {
    DropNonWordAppend(worded, "!!");
    DropNonWordIdentity(worded);
    assert DropNonWord("!!") == [];
  }

  /** A double underscore after a word is collapsed, and nothing else changes. */
  lemma {:induction false} CollapseAfterWord(w: string, tail: string)
    requires '_' !in w
    requires NoDoubleUnderscore(tail) && tail != [] && tail[0] != '_'
    ensures CollapseUnderscores(w + "__" + tail) == w + "_" + tail
  {
    if w == [] {
      assert w + "__" + tail == "__" + tail;
      CollapseRunOfTwo(tail);
      CollapseIdentity(tail);
      assert w + "_" + tail == "_" + tail;
    } else {
      CollapseAfterWord(w[1..], tail);
      assert w + "__" + tail == [w[0]] + (w[1..] + "__" + tail);
      CollapseCons(w[0], w[1..] + "__" + tail);
      assert w + "_" + tail == [w[0]] + (w[1..] + "_" + tail);
    }
  }

  /**
    The example title "My  Cool Post!!", given by its pieces so that the
    proof goes rewrite by rewrite instead of unfolding every rewrite on the
    whole literal at once.
   */
  lemma SanitizeExample(my: string, cool: string, post: string)
    requires my == "My" && cool == "Cool" && post == "Post"
    ensures Sanitize(my + "  " + cool + " " + post + "!!") == "My_Cool_Post"
  {
    var title := my + "  " + cool + " " + post + "!!";
    var worded := my + "__" + cool + "_" + post;
    var tail := cool + "_" + post;
    calc {
      Sanitize(title);
      CollapseUnderscores(DropNonWord(SpacesToUnderscores(StripNewlines(title))));
      { StripNewlinesIdentity(title); }
      CollapseUnderscores(DropNonWord(SpacesToUnderscores(title)));
      { ExampleSpaces(title, my, cool, post);
        assert my + "__" + cool + "_" + post + "!!" == worded + "!!"; }
      CollapseUnderscores(DropNonWord(worded + "!!"));
      { ExampleNonWord(worded); }
      CollapseUnderscores(worded);
      { assert worded == my + "__" + tail;
        assert NoDoubleUnderscore(tail);
        CollapseAfterWord(my, tail); }
      my + "_" + tail;
    }
  }
}
