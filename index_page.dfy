/**
  The front page `out/index.html`: the index head template, a fixed
  introduction, one list item per published post in the order given, and
  the index foot template. The file is opened for appending before anything
  is read, and each piece is appended as soon as it is known, so a run that
  aborts leaves the pieces written before the abort.
 */
module IndexPage {
  import opened Wrappers
  import opened Text
  import opened Decimal
  import opened Site
  import opened Header

  const INTRO := "<p>some words on pages about stuff</p>\n"
  const HEADING := "<h2>posts</h2>\n"
  const LIST_OPEN := "<ul id=\"posts\">\n"
  const LIST_CLOSE := "</ul>\n"

  /** The first line of a list item: a link to the post directory, titled. */
  function LinkLine(name: string, title: string): string {
    "<li><a href=\"p/" + name + "\">" + title + "</a>\n"
  }

  /** The second line of a list item: the post's date, lower-cased. */
  function DateItem(date: string): string {
    DATE_OPEN + date + "</span></li>\n"
  }

  /**
    What an index build produced: the chunks appended to the index file, in
    order, and the error that stopped it, if one did.
   */
  datatype Run = Run(written: seq<string>, failure: Option<Error>)

  /**
    The two lines listing one post, from its `in.md`: the title from line 1
    and the date from the timestamp on line 2, formatted by `calendar` and
    lower-cased. Nothing is written for a post that cannot be listed.
   */
  function Entry(name: string, source: Option<string>, calendar: int -> string): (r: Result<seq<string>, Error>)
    ensures r.Success? ==> |r.value| == 2
  {
    match source
    case None => Failure(MissingMarkdown)
    case Some(text) =>
      var (line1, line2) := HeadLines(text);
      match ParseTitle(line1)
      case Failure(e) => Failure(e)
      case Success(title) =>
        match ParseTimestamp(line2)
        case None => Failure(NoTimestamp)
        case Some(ts) => Success([LinkLine(name, title), DateItem(AsciiLower(calendar(ts)))])
  }

  /**
    A post can be listed exactly when it has an `in.md` whose line 1 has at
    least two characters and whose line 2 has a run of ten digits; a
    missing `in.md` is reported first, then a short line 1, then a line 2
    without a timestamp.
   */
  lemma EntryCases(name: string, source: Option<string>, calendar: int -> string)
    ensures var r := Entry(name, source, calendar);
            && (r.Success? <==> source.Some?
                                && |HeadLines(source.value).0| >= 2
                                && ParseTimestamp(HeadLines(source.value).1).Some?)
            && (source.None? ==> r == Failure(MissingMarkdown))
            && (source.Some? && |HeadLines(source.value).0| < 2 ==> r == Failure(TitleLineTooShort))
            && (source.Some? && |HeadLines(source.value).0| >= 2 && ParseTimestamp(HeadLines(source.value).1).None? ==>
                  r == Failure(NoTimestamp))
            && (r.Failure? ==> r.error in {MissingMarkdown, TitleLineTooShort, NoTimestamp})
  {
  }

  /** The `in.md` of a listed post; None when the post or its file is absent. */
  function SourceOf(posts: map<string, Post>, name: string): Option<string> {
    if name in posts then posts[name].source else None
  }

  /** The list item `entry` gives for each of `names`, position by position. */
  function ItemsBy(names: seq<string>, entry: string -> Result<seq<string>, Error>): (r: seq<Result<seq<string>, Error>>)
    ensures |r| == |names|
    ensures forall k :: 0 <= k < |names| ==> r[k] == entry(names[k])
  {
    seq(|names|, k requires 0 <= k < |names| => entry(names[k]))
  }

  /** What listing each post of `names` gives, position by position. */
  function Items(names: seq<string>, posts: map<string, Post>, calendar: int -> string): (r: seq<Result<seq<string>, Error>>)
    ensures |r| == |names|
    ensures forall k :: 0 <= k < |names| ==> r[k] == Entry(names[k], SourceOf(posts, names[k]), calendar)
  {
    seq(|names|, k requires 0 <= k < |names| => Entry(names[k], SourceOf(posts, names[k]), calendar))
  }

  /** Each item gives two lines or an error. */
  predicate Pairs(items: seq<Result<seq<string>, Error>>) {
    forall k :: 0 <= k < |items| && items[k].Success? ==> |items[k].value| == 2
  }

  /** The list items appended in order, up to the first item that is an error. */
  function Collect(items: seq<Result<seq<string>, Error>>): (r: Run)
  {
    if items == [] then Run([], None)
    else
      match items[0]
      case Failure(e) => Run([], Some(e))
      case Success(lines) =>
        var rest := Collect(items[1..]);
        Run(lines + rest.written, rest.failure)
  }

  /**
    The index page around already computed list items. A missing head
    template stops the build before anything is written; a missing foot
    template stops it after the list has been closed.
   */
  function Page(tpl: Templates, items: seq<Result<seq<string>, Error>>): (r: Run)
    ensures tpl.headIndex.None? ==> r == Run([], Some(MissingTemplate))
    ensures tpl.headIndex.Some? ==> |r.written| >= 4 && r.written[..4] == [tpl.headIndex.value, INTRO, HEADING, LIST_OPEN]
  {
    match tpl.headIndex
    case None => Run([], Some(MissingTemplate))
    case Some(head) =>
      var opening := [head, INTRO, HEADING, LIST_OPEN];
      var body := Collect(items);
      if body.failure.Some? then Run(opening + body.written, body.failure)
      else
        match tpl.footIndex
        case None => Run(opening + body.written + [LIST_CLOSE], Some(MissingTemplate))
        case Some(foot) => Run(opening + body.written + [LIST_CLOSE, foot], None)
  }

  /** The page once the opening has been written, by how the list ends. */
  lemma PageAfterOpening(tpl: Templates, items: seq<Result<seq<string>, Error>>)
    requires tpl.headIndex.Some?
    ensures var opening := [tpl.headIndex.value, INTRO, HEADING, LIST_OPEN];
            var body := Collect(items);
            && (body.failure.Some? ==> Page(tpl, items) == Run(opening + body.written, body.failure))
            && (body.failure.None? && tpl.footIndex.None? ==>
                  Page(tpl, items) == Run(opening + body.written + [LIST_CLOSE], Some(MissingTemplate)))
            && (body.failure.None? && tpl.footIndex.Some? ==>
                  Page(tpl, items) == Run(opening + body.written + [LIST_CLOSE] + [tpl.footIndex.value], None))
  {
    var opening := [tpl.headIndex.value, INTRO, HEADING, LIST_OPEN];
    var body := Collect(items);
    assert opening + body.written + [LIST_CLOSE, tpl.footIndex.GetOr([])]
        == opening + body.written + [LIST_CLOSE] + [tpl.footIndex.GetOr([])];
  }

  /** The whole index build for a listing already in its final order. */
  function IndexRun(tpl: Templates, names: seq<string>, posts: map<string, Post>, calendar: int -> string): Run {
    Page(tpl, Items(names, posts, calendar))
  }

  /** Whether every item gives its lines. */
  predicate AllSucceed(items: seq<Result<seq<string>, Error>>) {
    forall k :: 0 <= k < |items| ==> items[k].Success?
  }

  /**
    When every item gives two lines, the list holds exactly those, item `k`
    at positions `2k` and `2k + 1`.
   */
  lemma {:induction false} CollectComplete(items: seq<Result<seq<string>, Error>>)
    requires Pairs(items) && AllSucceed(items)
    ensures Collect(items).failure == None
    ensures |Collect(items).written| == 2 * |items|
    ensures forall k :: 0 <= k < |items| ==> Collect(items).written[2 * k..2 * k + 2] == items[k].value
  {
    if items != [] {
      var tail := items[1..];
      assert forall k :: 0 <= k < |tail| ==> tail[k] == items[k + 1];
      CollectComplete(tail);
      var first := items[0].value;
      var rest := Collect(tail).written;
      assert Collect(items).written == first + rest;
      forall k | 0 <= k < |items|
        ensures (first + rest)[2 * k..2 * k + 2] == items[k].value
      {
        if k > 0 {
          assert (first + rest)[2 * k..2 * k + 2] == rest[2 * (k - 1)..2 * (k - 1) + 2];
        }
      }
    }
  }

  /**
    Collecting stops at the first item that is an error, with that error
    and the lines of the items before it.
   */
  lemma {:induction false} CollectStops(items: seq<Result<seq<string>, Error>>, k: nat)
    requires Pairs(items)
    requires k < |items| && items[k].Failure?
    requires forall j :: 0 <= j < k ==> items[j].Success?
    ensures Collect(items).failure == Some(items[k].error)
    ensures |Collect(items).written| == 2 * k
  {
    if k > 0 {
      var tail := items[1..];
      assert forall j :: 0 <= j < |tail| ==> tail[j] == items[j + 1];
      CollectStops(tail, k - 1);
    }
  }

  /** Collecting succeeds only when every item does. */
  lemma {:induction false} CollectFails(items: seq<Result<seq<string>, Error>>, k: nat)
    requires k < |items| && items[k].Failure?
    ensures Collect(items).failure.Some?
  {
    if k > 0 && items[0].Success? {
      assert items[1..][k - 1] == items[k];
      CollectFails(items[1..], k - 1);
    }
  }

  /**
    Collecting a listing in two parts: when the first `i` items give their
    lines, the rest is collected after them.
   */
  lemma {:induction false} CollectSplit(items: seq<Result<seq<string>, Error>>, i: nat)
    requires i <= |items|
    requires Collect(items[..i]).failure.None?
    ensures Collect(items).written == Collect(items[..i]).written + Collect(items[i..]).written
    ensures Collect(items).failure == Collect(items[i..]).failure
  {
    if i > 0 {
      var rest := items[1..];
      assert items[..i][0] == items[0];
      assert items[..i][1..] == rest[..i - 1];
      assert rest[i - 1..] == items[i..];
      var lines := items[0].value;
      CollectSplit(rest, i - 1);
      var a, b := Collect(rest[..i - 1]).written, Collect(items[i..]).written;
      assert Collect(items[..i]) == Run(lines + a, None);
      assert Collect(items) == Run(lines + Collect(rest).written, Collect(rest).failure);
      assert lines + (a + b) == lines + a + b;
    }
  }

  /** One more item that gives its lines extends the collected lines by them. */
  lemma CollectOneMore(items: seq<Result<seq<string>, Error>>, i: nat)
    requires i < |items| && items[i].Success?
    requires Collect(items[..i]).failure.None?
    ensures Collect(items[..i + 1]) == Run(Collect(items[..i]).written + items[i].value, None)
  {
    var prefix := items[..i + 1];
    assert prefix[..i] == items[..i];
    assert prefix[i..] == [items[i]];
    CollectSplit(prefix, i);
    assert Collect([items[i]]) == Run(items[i].value + [], None);
    assert items[i].value + [] == items[i].value;
  }

  /** An item that is an error ends the collection with the lines before it. */
  lemma CollectEndsAt(items: seq<Result<seq<string>, Error>>, i: nat)
    requires i < |items| && items[i].Failure?
    requires Collect(items[..i]).failure.None?
    ensures Collect(items) == Run(Collect(items[..i]).written, Some(items[i].error))
  {
    CollectSplit(items, i);
    assert items[i..][0] == items[i];
    assert Collect(items[..i]).written + [] == Collect(items[..i]).written;
  }

  /**
    A page build completes exactly when both index templates are present
    and every item gives its lines; the page is then the head, the
    introduction, the items' lines in order, the closing tag and the foot.
   */
  lemma PageComplete(tpl: Templates, items: seq<Result<seq<string>, Error>>)
    requires Pairs(items)
    ensures Page(tpl, items).failure.None? <==> tpl.headIndex.Some? && tpl.footIndex.Some? && AllSucceed(items)
    ensures Page(tpl, items).failure.None? ==>
              var page := Page(tpl, items).written;
              |page| == 6 + 2 * |items|
              && page[..4] == [tpl.headIndex.value, INTRO, HEADING, LIST_OPEN]
              && page[|page| - 2..] == [LIST_CLOSE, tpl.footIndex.value]
              && forall k :: 0 <= k < |items| ==> page[4 + 2 * k..6 + 2 * k] == items[k].value
  {
    if tpl.headIndex.Some? {
      var body := Collect(items);
      if AllSucceed(items) {
        CollectComplete(items);
        if tpl.footIndex.Some? {
          var page := Page(tpl, items).written;
          var opening := [tpl.headIndex.value, INTRO, HEADING, LIST_OPEN];
          assert page == opening + body.written + [LIST_CLOSE, tpl.footIndex.value];
          forall k | 0 <= k < |items|
            ensures page[4 + 2 * k..6 + 2 * k] == items[k].value
          {
            assert page[4 + 2 * k..6 + 2 * k] == body.written[2 * k..2 * k + 2];
          }
        }
      } else {
        var k :| 0 <= k < |items| && items[k].Failure?;
        CollectFails(items, k);
      }
    }
  }

  /**
    An index build completes exactly when both index templates are present
    and every post can be listed; the page then lists post `k` of the
    listing at positions `4 + 2k` and `5 + 2k`, between the introduction
    and the closing tag.
   */
  lemma IndexComplete(tpl: Templates, names: seq<string>, posts: map<string, Post>, calendar: int -> string)
    ensures IndexRun(tpl, names, posts, calendar).failure.None?
        <==> tpl.headIndex.Some? && tpl.footIndex.Some? && AllSucceed(Items(names, posts, calendar))
    ensures IndexRun(tpl, names, posts, calendar).failure.None? ==>
              var page := IndexRun(tpl, names, posts, calendar).written;
              |page| == 6 + 2 * |names|
              && page[..4] == [tpl.headIndex.value, INTRO, HEADING, LIST_OPEN]
              && page[|page| - 2..] == [LIST_CLOSE, tpl.footIndex.value]
              && forall k :: 0 <= k < |names| ==> page[4 + 2 * k..6 + 2 * k] == Items(names, posts, calendar)[k].value
  {
    var items := Items(names, posts, calendar);
    assert Pairs(items);
    PageComplete(tpl, items);
  }

  /**
    A build that stops on a post leaves the page holding the head, the
    introduction and the lines of the posts before the first one that
    cannot be listed; the error is that post's.
   */
  lemma IndexStopsAtPost(tpl: Templates, names: seq<string>, posts: map<string, Post>, calendar: int -> string, k: nat)
    requires tpl.headIndex.Some?
    requires k < |names|
    requires Entry(names[k], SourceOf(posts, names[k]), calendar).Failure?
    requires forall j :: 0 <= j < k ==> Entry(names[j], SourceOf(posts, names[j]), calendar).Success?
    ensures IndexRun(tpl, names, posts, calendar).failure
         == Some(Entry(names[k], SourceOf(posts, names[k]), calendar).error)
    ensures |IndexRun(tpl, names, posts, calendar).written| == 4 + 2 * k
  {
    var items := Items(names, posts, calendar);
    assert Pairs(items);
    CollectStops(items, k);
  }

  /**
    A post whose `in.md` starts with the header the new-post command writes
    is listed under its title, with the date formatted from the time the
    header was written.
   */
  lemma EntryOfCreated(name: string, title: string, now: int, body: string, calendar: int -> string)
    requires '\n' !in title
    requires title == [] || title[|title| - 1] != '\r'
    requires 1_000_000_000 <= now < 10_000_000_000
    ensures Entry(name, Some(HeaderText(title, FormatInt(now)) + body), calendar)
         == Success([LinkLine(name, title), DateItem(AsciiLower(calendar(now)))])
  {
    HeaderRoundTrip(title, now, body);
  }
}
