/**
  The blog tool's commands over its two post directories: `drafts` and the
  published `out/p`, with the front page `out/index.html`. Each command
  either completes or stops at the first error, leaving the directories as
  they were when it stopped.
 */
module Blog {
  import opened Wrappers
  import opened Text
  import opened Decimal
  import opened Site
  import opened Header
  import opened Slug
  import opened Selection
  import opened Listing
  import opened Ordering
  import opened IndexPage
  import opened Publishing

  /** The modification times of the posts, by name. */
  function Mtimes(posts: map<string, Post>): (m: map<string, int>)
    ensures m.Keys == posts.Keys
    ensures forall n :: n in posts ==> m[n] == posts[n].mtime
  {
    map n | n in posts :: posts[n].mtime
  }

  /** Every post with its `index.html` removed. */
  function WithoutPages(posts: map<string, Post>): (r: map<string, Post>)
    ensures r.Keys == posts.Keys
    ensures forall n :: n in posts ==> r[n].source == posts[n].source && r[n].html.None?
  {
    map n | n in posts :: posts[n].(html := None)
  }

  /** The posts whose names are not among `gone`. */
  ghost function Removed(posts: map<string, Post>, gone: seq<string>): map<string, Post> {
    map n | n in posts && n !in gone :: posts[n]
  }

  lemma RemovedOneMore(posts: map<string, Post>, names: seq<string>, i: nat)
    requires i < |names|
    ensures Removed(posts, names[..i + 1]) == Removed(posts, names[..i]) - {names[i]}
  {
    assert names[..i + 1] == names[..i] + [names[i]];
  }

  lemma RemovedAll(posts: map<string, Post>, names: seq<string>)
    requires forall n :: n in posts ==> n in names
    ensures Removed(posts, names[..|names|]) == map[]
  {
    assert names[..|names|] == names;
  }

  /** The posts with the `index.html` of those named in `done` removed. */
  ghost function Stripped(posts: map<string, Post>, done: seq<string>): map<string, Post> {
    map n | n in posts :: if n in done then posts[n].(html := None) else posts[n]
  }

  lemma StrippedOneMore(posts: map<string, Post>, names: seq<string>, j: nat)
    requires j < |names| && names[j] in posts
    ensures names[j] in Stripped(posts, names[..j])
    ensures Stripped(posts, names[..j + 1])
            == Stripped(posts, names[..j])[names[j] := Stripped(posts, names[..j])[names[j]].(html := None)]
  {
    assert names[..j + 1] == names[..j] + [names[j]];
  }

  lemma StrippedAll(posts: map<string, Post>, names: seq<string>)
    requires forall n :: n in posts ==> n in names
    ensures Stripped(posts, names[..|names|]) == WithoutPages(posts)
  {
    assert names[..|names|] == names;
  }

  /** Storing under a proper name keeps every name proper. */
  lemma EntryNamesKept(dir: map<string, Post>, name: string, v: Option<Post>)
    requires EntryNames(dir) && IsEntryName(name)
    ensures EntryNames(Store(dir, name, v))
  {
    if v.Some? {
      EntryNamesStore(dir, name, v.value);
    } else {
      EntryNamesRemove(dir, name);
    }
  }

  /**
    The draft a new post's header is written into: an existing draft gets
    the header appended to its `in.md` (created when missing); a new
    directory gets an `in.md` holding just the header.
   */
  function Drafted(prev: Option<Post>, header: string, now: int): (p: Post)
    ensures p.source.Some?
    ensures prev.None? ==> p == Post(Some(header), None, now)
    ensures prev.Some? ==> p.source.value == prev.value.source.GetOr([]) + header
                           && p.html == prev.value.html && p.mtime == prev.value.mtime
  {
    match prev
    case None => Post(Some(header), None, now)
    case Some(d) => d.(source := Some(d.source.GetOr([]) + header))
  }

  /**
    The path the new-post command writes the header to, as written: the
    slug is used without checking that it is not empty.
   */
  function DraftSourcePath(title: string): string {
    DRAFT_DIR + "/" + Sanitize(title) + "/in.md"
  }

  /**
    For a title with nothing a slug keeps, the path is `drafts//in.md`,
    which is the file `in.md` in the drafts directory itself: no post
    directory is created, and the next publish lists a plain file as if it
    were a draft.
   */
  lemma EmptySlugPath(title: string)
    requires NothingKept(title)
    ensures DraftSourcePath(title) == DRAFT_DIR + "//in.md"
  {
    SanitizesToNothing(title);
  }

  /**
    A draft created at time `now` with a ten-digit time is dated `now` when
    it is published, whatever the editor appended after the header.
   */
  lemma CreatedDraftStamp(title: string, now: int, body: string)
    requires '\n' !in title
    requires title == [] || title[|title| - 1] != '\r'
    requires 1_000_000_000 <= now < 10_000_000_000
    ensures Stamp(HeaderText(title, FormatInt(now)) + body) == now
  {
    HeaderRoundTrip(title, now, body);
  }

  /**
    The published posts as `buildIndex` lists them: read in name order,
    then sorted in place newest first.
   */
  method NewestFirst(posts: map<string, Post>) returns (order: seq<string>)
    ensures |order| == |posts| && forall n :: n in order <==> n in posts
    ensures Descending(order, Mtimes(posts))
  {
    var names := Names(posts.Keys);
    var a := new string[|names|](k requires 0 <= k < |names| => names[k]);
    assert a[..] == names;
    SortNewestFirst(a, Mtimes(posts));
    order := a[..];
    assert forall n :: n in order <==> n in posts by {
      forall n ensures n in order <==> n in posts {
        assert n in order <==> n in multiset(order);
        assert n in names <==> n in multiset(names);
      }
    }
    assert |order| == |posts| by {
      assert |multiset(order)| == |multiset(names)|;
    }
  }

  class Workspace {
    /** The draft directories, by name. */
    var drafts: map<string, Post>
    /** The published post directories, by name. */
    var published: map<string, Post>
    /** `out/index.html` as the chunks written to it; None when there is no such file. */
    var index: Option<seq<string>>
    /** The templates directory. */
    const templates: Templates
    /** The markdown renderer, from an `in.md` to HTML. */
    const render: string -> string
    /** The date a Unix time is shown as on the front page. */
    const calendar: int -> string
    /** The time a published post is dated by, read from its `in.md`. */
    const stamp: string -> int

    /** Directory entry names are never empty and hold no slash. */
    ghost predicate Valid()
      reads this
    {
      EntryNames(drafts) && EntryNames(published)
    }

    constructor(templates: Templates, render: string -> string, calendar: int -> string,
                drafts: map<string, Post>, published: map<string, Post>, index: Option<seq<string>>)
      requires EntryNames(drafts) && EntryNames(published)
      ensures Valid()
      ensures this.templates == templates && this.render == render && this.calendar == calendar
      ensures stamp == Stamp
      ensures this.drafts == drafts && this.published == published && this.index == index
    {
      this.templates := templates;
      this.render := render;
      this.calendar := calendar;
      this.stamp := Stamp;
      this.drafts := drafts;
      this.published := published;
      this.index := index;
    }

    /**
      `buildIndex`: the old front page is removed, the published posts are
      listed and sorted newest first, and the page is appended piece by
      piece. `order` is the order the posts were listed in.
     */
    method BuildIndex() returns (failure: Option<Error>, order: seq<string>)
      modifies this
      ensures drafts == old(drafts) && published == old(published)
      ensures |order| == |published| && forall n :: n in order <==> n in published
      ensures Descending(order, Mtimes(published))
      ensures index == Some(IndexRun(templates, order, published, calendar).written)
      ensures failure == IndexRun(templates, order, published, calendar).failure
    {
      index := None;
      order := NewestFirst(published);
      index := Some([]);
      if templates.headIndex.None? {
        failure := Some(MissingTemplate);
        return;
      }
      index := Some(index.value + [templates.headIndex.value]);
      index := Some(index.value + [INTRO]);
      index := Some(index.value + [HEADING]);
      index := Some(index.value + [LIST_OPEN]);
      assert index.value == [templates.headIndex.value, INTRO, HEADING, LIST_OPEN];
      var posts, dates := published, calendar;
      var entry := name => Entry(name, SourceOf(posts, name), dates);
      failure := ListPosts(order, entry);
      assert ItemsBy(order, entry) == Items(order, published, calendar);
      PageAfterOpening(templates, Items(order, published, calendar));
      if failure.Some? {
        return;
      }
      index := Some(index.value + [LIST_CLOSE]);
      if templates.footIndex.None? {
        failure := Some(MissingTemplate);
        return;
      }
      index := Some(index.value + [templates.footIndex.value]);
    }

    /**
      The loop of `buildIndex`: each post of `names` in turn gives its list
      item, which is appended, until one gives an error.
     */
    method ListPosts(names: seq<string>, entry: string -> Result<seq<string>, Error>) returns (failure: Option<Error>)
      requires index.Some?
      modifies this
      ensures drafts == old(drafts) && published == old(published)
      ensures var run := Collect(ItemsBy(names, entry));
              index == Some(old(index).value + run.written) && failure == run.failure
    {
      ghost var items := ItemsBy(names, entry);
      ghost var start := index.value;
      assert items[..0] == [];
      assert start + Collect(items[..0]).written == start;
      var i := 0;
      while i < |names|
        invariant 0 <= i <= |names|
        invariant drafts == old(drafts) && published == old(published)
        invariant Collect(items[..i]).failure.None?
        invariant index == Some(start + Collect(items[..i]).written)
      {
        var item := entry(names[i]);
        if item.Failure? {
          CollectEndsAt(items, i);
          return Some(item.error);
        }
        CollectOneMore(items, i);
        assert start + Collect(items[..i]).written + item.value == start + (Collect(items[..i]).written + item.value);
        index := Some(index.value + item.value);
        i := i + 1;
      }
      assert items[..|names|] == items;
      failure := None;
    }

    /**
      The appending half of one `assemblePosts` iteration: the draft's
      `index.html` is opened for appending and given the head template, the
      rendered source and the foot template, each as soon as it is read.
     */
    method RenderOne(name: string) returns (failure: Option<Error>)
      requires name in drafts
      modifies this
      ensures published == old(published) && index == old(index)
      ensures var r := RenderDraft(templates, render, old(drafts)[name]);
              drafts == old(drafts)[name := r.post] && failure == r.failure
    {
      var post := drafts[name];
      post := post.(html := Some(post.html.GetOr([])));
      drafts := drafts[name := post];
      if templates.headPost.None? {
        failure := Some(MissingTemplate);
        return;
      }
      post := post.(html := Some(post.html.value + [templates.headPost.value]));
      drafts := drafts[name := post];
      if post.source.None? {
        failure := Some(MissingMarkdown);
        return;
      }
      var source := post.source.value;
      post := post.(html := Some(post.html.value + [render(source)]));
      drafts := drafts[name := post];
      if templates.footPost.None? {
        failure := Some(MissingTemplate);
        return;
      }
      post := post.(html := Some(post.html.value + [templates.footPost.value]));
      drafts := drafts[name := post];
      failure := None;
    }

    /**
      One iteration of `assemblePosts`: the published `index.html` of that
      name is removed, the draft is rendered, the draft directory is renamed
      into the published directory (its error ignored), and the published
      directory is dated from the `in.md` it then holds.
     */
    method PublishOne(name: string) returns (failure: Option<Error>)
      modifies this
      ensures var step := PublishStep(templates, render, stamp, Slots(Lookup(old(drafts), name), Lookup(old(published), name)));
              && drafts == Store(old(drafts), name, step.slots.draft)
              && published == Store(old(published), name, step.slots.published)
              && failure == step.failure
      ensures index == old(index)
    {
      var namesake := Lookup(published, name);
      if namesake.Some? {
        published := published[name := namesake.value.(html := None)];
      }
      if name !in drafts {
        assert drafts == old(drafts) - {name};
        return Some(MissingDirectory);
      }
      failure := RenderOne(name);
      if failure.Some? {
        return;
      }
      failure := RenameOne(name);
    }

    /**
      The end of one `assemblePosts` iteration, once the draft is rendered:
      the draft directory is renamed into the published directory, which is
      refused when a published directory of that name exists, and what is
      then published under the name is dated from its `in.md`.
     */
    method RenameOne(name: string) returns (failure: Option<Error>)
      requires name in drafts && drafts[name].source.Some?
      modifies this
      ensures index == old(index)
      ensures var step := Rename(old(drafts)[name], Lookup(old(published), name), stamp);
              && drafts == Store(old(drafts), name, step.slots.draft)
              && published == Store(old(published), name, step.slots.published)
              && failure == step.failure
    {
      var built := drafts[name];
      if name !in published {
        published := published[name := built.(mtime := stamp(built.source.value))];
        drafts := drafts - {name};
        return None;
      }
      // the rename is refused and its error ignored; the namesake's in.md is opened
      var namesake := published[name];
      assert drafts == drafts[name := built];
      if namesake.source.None? {
        assert published == published[name := namesake];
        return Some(MissingMarkdown);
      }
      published := published[name := namesake.(mtime := stamp(namesake.source.value))];
      failure := None;
    }

    /**
      `assemblePosts`: every draft, in name order, is published as
      `PublishStep` describes, stopping at the first error; when all are
      published the front page is rebuilt.
     */
    method Publish() returns (failure: Option<Error>, order: seq<string>)
      requires Valid()
      modifies this
      ensures Valid()
      ensures var run := PublishAll(Publisher(templates, render, stamp), State(old(drafts), old(published)), Names(old(drafts).Keys));
              drafts == run.state.drafts && published == run.state.published
              && (run.failure.Some? ==> failure == run.failure && index == old(index))
              && (run.failure.None? ==>
                    |order| == |published| && (forall n :: n in order <==> n in published)
                    && Descending(order, Mtimes(published))
                    && index == Some(IndexRun(templates, order, published, calendar).written)
                    && failure == IndexRun(templates, order, published, calendar).failure)
    {
      var names := Names(drafts.Keys);
      ghost var start := State(drafts, published);
      ghost var step := Publisher(templates, render, stamp);
      assert names[..0] == [];
      var i := 0;
      while i < |names|
        invariant 0 <= i <= |names|
        invariant PublishAll(step, start, names[..i]) == Outcome(State(drafts, published), None)
        invariant index == old(index)
        invariant Valid()
      {
        var name := names[i];
        assert IsEntryName(name) by {
          assert name in start.drafts;
        }
        PublishAllNext(step, start, names, i);
        ghost var before := State(drafts, published);
        failure := PublishOne(name);
        EntryNamesKept(before.drafts, name, Lookup(drafts, name));
        EntryNamesKept(before.published, name, Lookup(published, name));
        if failure.Some? {
          PublishAllStops(step, start, names, i + 1);
          return failure, [];
        }
        i := i + 1;
      }
      assert names[..|names|] == names;
      failure, order := BuildIndex();
    }

    /**
      `select_post` followed by taking the last path component, as the edit
      and delete commands do: the published posts are listed in name order
      and the one whose index is read from `input` is named.
     */
    method Chosen(input: string) returns (name: Result<string, Error>)
      requires Valid()
      ensures var names := Names(published.Keys);
              var choice := Choose(|names|, input);
              && (name.Success? <==> choice.Success?)
              && (name.Failure? ==> name.error == choice.error)
              && (name.Success? ==> name.value == names[choice.value] && name.value in published)
    {
      var names := Names(published.Keys);
      var path := SelectPost(names, input);
      if path.Failure? {
        return Failure(path.error);
      }
      forall k | 0 <= k < |names| ensures '/' !in names[k] {
        assert names[k] in names;
      }
      SelectedName(names, input);
      name := Success(LastComponent(path.value));
    }

    /**
      `editPost`: the chosen published post is moved back to the drafts and
      its `index.html` removed. `os.Rename` refuses to replace a draft
      directory of that name, empty or not, and the command then stops.
     */
    method Edit(input: string) returns (failure: Option<Error>)
      requires Valid()
      modifies this
      ensures Valid()
      ensures index == old(index)
      ensures var names := Names(old(published).Keys);
              var choice := Choose(|names|, input);
              if choice.Failure? then
                failure == Some(choice.error) && drafts == old(drafts) && published == old(published)
              else
                var name := names[choice.value];
                if name in old(drafts) then
                  failure == Some(RenameFailed) && drafts == old(drafts) && published == old(published)
                else
                  failure == None
                  && published == old(published) - {name}
                  && drafts == old(drafts)[name := old(published)[name].(html := None)]
    {
      var chosen := Chosen(input);
      if chosen.Failure? {
        failure := Some(chosen.error);
        return;
      }
      var name := chosen.value;
      if name in drafts {
        failure := Some(RenameFailed);
        return;
      }
      MoveBack(name);
      failure := None;
    }

    /**
      The successful half of `editPost`: the published post is renamed into
      the drafts, then its `index.html` is removed.
     */
    method MoveBack(name: string)
      requires Valid() && name in published && name !in drafts
      modifies this
      ensures Valid()
      ensures index == old(index)
      ensures published == old(published) - {name}
      ensures drafts == old(drafts)[name := old(published)[name].(html := None)]
    {
      var post := published[name];
      EntryNamesStore(drafts, name, post.(html := None));
      EntryNamesRemove(published, name);
      drafts := drafts[name := post];
      published := published - {name};
      drafts := drafts[name := drafts[name].(html := None)];
    }

    /** `deletePost`: the chosen published post is removed. */
    method Delete(input: string) returns (failure: Option<Error>)
      requires Valid()
      modifies this
      ensures Valid()
      ensures drafts == old(drafts) && index == old(index)
      ensures var names := Names(old(published).Keys);
              var choice := Choose(|names|, input);
              if choice.Failure? then failure == Some(choice.error) && published == old(published)
              else failure == None && published == old(published) - {names[choice.value]}
    {
      var chosen := Chosen(input);
      if chosen.Failure? {
        failure := Some(chosen.error);
        return;
      }
      EntryNamesRemove(published, chosen.value);
      published := published - {chosen.value};
      failure := None;
    }

    /**
      `createPost`, corrected: the header (the title without newlines and
      the time `now`) is appended to `in.md` in the draft directory named by
      the title's slug, created when missing. A title whose slug is empty is
      refused instead of writing into the drafts directory itself.
     */
    method Create(title: string, now: int) returns (failure: Option<Error>, slug: string)
      requires Valid()
      modifies this
      ensures Valid()
      ensures published == old(published) && index == old(index)
      ensures slug == Sanitize(title)
      ensures slug == [] ==> failure == Some(EmptySlug) && drafts == old(drafts)
      ensures slug != [] ==>
                failure == None && IsEntryName(slug)
                && drafts == old(drafts)[slug := Drafted(Lookup(old(drafts), slug),
                                                         HeaderText(StripNewlines(title), FormatInt(now)), now)]
    {
      var line := StripNewlines(title);
      slug := Sanitize(title);
      if slug == [] {
        failure := Some(EmptySlug);
        return;
      }
      assert '/' !in slug by {
        assert forall k :: 0 <= k < |slug| ==> IsWordChar(slug[k]);
      }
      var header := HeaderText(line, FormatInt(now));
      if slug in drafts {
        var d := drafts[slug];
        drafts := drafts[slug := d.(source := Some(d.source.GetOr([]) + header))];
      } else {
        drafts := drafts[slug := Post(Some(header), None, now)];
      }
      failure := None;
    }

    /**
      The local half of `fetchPosts`: every published post is removed, the
      remote posts are copied into the drafts (`received` is the drafts
      directory as the copy left it, even a copy that stopped part-way, and
      `copied` says whether the copy reported success), the remote
      directory is emptied (`remoteCleared` says whether that worked), and
      every draft loses its `index.html`.
     */
    method Fetch(received: map<string, Post>, copied: bool, remoteCleared: bool) returns (failure: Option<Error>)
      requires Valid()
      requires EntryNames(received)
      modifies this
      ensures Valid()
      ensures published == map[] && index == old(index)
      ensures !copied ==> failure == Some(TransferFailed) && drafts == received
      ensures copied && !remoteCleared ==> failure == Some(RemoteCleanupFailed) && drafts == received
      ensures copied && remoteCleared ==> failure == None && drafts == WithoutPages(received)
    {
      ClearPublished();
      drafts := received;
      if !copied {
        failure := Some(TransferFailed);
        return;
      }
      if !remoteCleared {
        failure := Some(RemoteCleanupFailed);
        return;
      }
      StripPages();
      failure := None;
    }

    /** The first loop of `fetchPosts`: each published post, in name order, is removed. */
    method ClearPublished()
      modifies this
      ensures published == map[]
      ensures drafts == old(drafts) && index == old(index)
    {
      var names := Names(published.Keys);
      var i := 0;
      while i < |names|
        invariant 0 <= i <= |names|
        invariant published == Removed(old(published), names[..i])
        invariant drafts == old(drafts) && index == old(index)
      {
        RemovedOneMore(old(published), names, i);
        published := published - {names[i]};
        i := i + 1;
      }
      RemovedAll(old(published), names);
    }

    /** The last loop of `fetchPosts`: each draft, in name order, loses its `index.html`. */
    method StripPages()
      modifies this
      ensures drafts == WithoutPages(old(drafts))
      ensures published == old(published) && index == old(index)
    {
      var posts := drafts;
      var listed := Names(posts.Keys);
      var pages := posts;
      var j := 0;
      while j < |listed|
        invariant 0 <= j <= |listed|
        invariant pages == Stripped(posts, listed[..j])
        modifies {}
      {
        var n := listed[j];
        assert n in posts by {
          assert n in listed;
        }
        StrippedOneMore(posts, listed, j);
        pages := pages[n := pages[n].(html := None)];
        j := j + 1;
      }
      StrippedAll(posts, listed);
      drafts := pages;
    }
  }
}
