/**
  What publishing does to one draft, and to a whole listing of drafts, as
  values: for each draft the published `index.html` of the same name is
  removed, the draft's `index.html` is appended the post head template, the
  rendered markdown and the post foot template, the draft directory is
  renamed into the published directory, and the published directory's
  modification time is set to the time recorded in its `in.md`.
 */
module Publishing {
  import opened Wrappers
  import opened Site
  import opened Header

  /**
    The time read back from line 2 of a published source. A line without
    a ten-digit run parses to the zero value: the parse error is dropped.
   */
  function Stamp(source: string): (t: int)
    ensures 0 <= t < 10_000_000_000
    ensures t == 0 <== ParseTimestamp(HeadLines(source).1).None?
  {
    ParseTimestamp(HeadLines(source).1).GetOr(0)
  }

  /** What one name holds in the drafts and in the published directory. */
  datatype Slots = Slots(draft: Option<Post>, published: Option<Post>)

  /** The slots after publishing one name, and the error that stopped it, if one did. */
  datatype Step = Step(slots: Slots, failure: Option<Error>)

  /** The `in.md` texts held in a pair of slots, counted once per slot. */
  function Sources(s: Slots): multiset<string> {
    SourceIn(s.draft) + SourceIn(s.published)
  }

  function SourceIn(slot: Option<Post>): multiset<string> {
    if slot.Some? && slot.value.source.Some? then multiset{slot.value.source.value} else multiset{}
  }

  /** A draft after its `index.html` was appended to, and the error that stopped the appending, if one did. */
  datatype Rendered = Rendered(post: Post, failure: Option<Error>)

  /**
    Rendering a draft: its `index.html` is opened for appending (created
    when missing, kept when stale) and given the post head template, the
    rendered `in.md` and the post foot template, stopping at the first
    missing file.
   */
  function RenderDraft(tpl: Templates, render: string -> string, d: Post): (r: Rendered)
    ensures r.failure.None? <==> d.source.Some? && tpl.headPost.Some? && tpl.footPost.Some?
    ensures r.post.source == d.source && r.post.mtime == d.mtime && r.post.html.Some?
    ensures r.failure.None? ==>
              r.post.html.value == d.html.GetOr([]) + [tpl.headPost.value, render(d.source.value), tpl.footPost.value]
  {
    var page := d.html.GetOr([]);
    match tpl.headPost
    case None => Rendered(d.(html := Some(page)), Some(MissingTemplate))
    case Some(head) =>
      match d.source
      case None => Rendered(d.(html := Some(page + [head])), Some(MissingMarkdown))
      case Some(src) =>
        match tpl.footPost
        case None => Rendered(d.(html := Some(page + [head] + [render(src)])), Some(MissingTemplate))
        case Some(foot) => Rendered(d.(html := Some(page + [head] + [render(src)] + [foot])), None)
  }

  /**
    Renaming a rendered draft into the published directory, then dating what
    is published there by `stamp`, the time read from its `in.md` (`Stamp`
    in the tool). `os.Rename` refuses to replace an existing directory,
    empty or not, and that error is ignored: the draft then stays whole, and
    the namesake is dated from its own `in.md`, or the tool stops when the
    namesake has none to open.
   */
  function Rename(built: Post, namesake: Option<Post>, stamp: string -> int): (r: Step)
    requires built.source.Some?
    ensures r.slots.draft.Some? <==> namesake.Some?
    ensures r.slots.draft.Some? ==> r.slots.draft.value == built
    ensures r.failure.None? <==> namesake.None? || namesake.value.source.Some?
    ensures r.failure.Some? ==> r.failure.value == MissingMarkdown && r.slots.published == namesake
    ensures r.failure.None? ==>
              && r.slots.published.Some? && r.slots.published.value.source.Some?
              && r.slots.published.value.mtime == stamp(r.slots.published.value.source.value)
  {
    match namesake
    case None => Step(Slots(None, Some(built.(mtime := stamp(built.source.value)))), None)
    case Some(p) =>
      if p.source.Some? then Step(Slots(Some(built), Some(p.(mtime := stamp(p.source.value)))), None)
      else Step(Slots(Some(built), namesake), Some(MissingMarkdown))
  }

  /**
    Publishing the draft in `s`: the published namesake loses its
    `index.html`, the draft is rendered, and a completely rendered draft is
    renamed. A draft stopped while rendering keeps what was appended; a
    published namesake without `in.md` stops the tool after the rename.
   */
  function PublishStep(tpl: Templates, render: string -> string, stamp: string -> int, s: Slots): (r: Step)
    ensures r.failure.None? <==> s.draft.Some? && s.draft.value.source.Some?
                                 && tpl.headPost.Some? && tpl.footPost.Some?
                                 && (s.published.None? || s.published.value.source.Some?)
    ensures r.failure.Some? ==> r.failure.value in {MissingDirectory, MissingTemplate, MissingMarkdown}
  {
    var namesake := if s.published.Some? then Some(s.published.value.(html := None)) else None;
    match s.draft
    case None => Step(Slots(None, namesake), Some(MissingDirectory))
    case Some(d) =>
      var rendered := RenderDraft(tpl, render, d);
      if rendered.failure.Some? then Step(Slots(Some(rendered.post), namesake), rendered.failure)
      else Rename(rendered.post, namesake, stamp)
  }

  /**
    Publishing one name never loses an `in.md`, whether it completes or not:
    the rename either moves the draft whole or does not happen.
   */
  lemma PublishKeepsSources(tpl: Templates, render: string -> string, stamp: string -> int, s: Slots)
    ensures Sources(PublishStep(tpl, render, stamp, s).slots) == Sources(s)
  {
    var r := PublishStep(tpl, render, stamp, s);
    if s.draft.None? || r.failure.Some? {
      assert SourceIn(r.slots.draft) == SourceIn(s.draft);
      assert SourceIn(r.slots.published) == SourceIn(s.published);
    } else if s.published.Some? {
      assert SourceIn(r.slots.draft) == SourceIn(s.draft);
      assert SourceIn(r.slots.published) == SourceIn(s.published);
    } else {
      assert SourceIn(r.slots.published) == SourceIn(s.draft);
      assert SourceIn(s.published) == multiset{};
    }
  }

  /**
    A draft whose name is not yet published leaves the drafts and is
    published with its own source, the page appended to its `index.html`,
    and the time recorded in that source.
   */
  lemma PublishMoves(tpl: Templates, render: string -> string, stamp: string -> int, d: Post)
    requires d.source.Some? && tpl.headPost.Some? && tpl.footPost.Some?
    ensures PublishStep(tpl, render, stamp, Slots(Some(d), None)).slots
         == Slots(None, Some(Post(d.source,
                                  Some(d.html.GetOr([]) + [tpl.headPost.value, render(d.source.value), tpl.footPost.value]),
                                  stamp(d.source.value))))
  {
  }

  /**
    A draft whose published namesake still holds an `in.md` is rendered but
    stays in the drafts; the published post loses its `index.html` and is
    re-dated from its own source.
   */
  lemma PublishCollides(tpl: Templates, render: string -> string, stamp: string -> int, d: Post, p: Post)
    requires d.source.Some? && tpl.headPost.Some? && tpl.footPost.Some?
    requires p.source.Some?
    ensures PublishStep(tpl, render, stamp, Slots(Some(d), Some(p))).slots
         == Slots(Some(d.(html := Some(d.html.GetOr([]) + [tpl.headPost.value, render(d.source.value), tpl.footPost.value]))),
                  Some(p.(html := None, mtime := stamp(p.source.value))))
  {
  }

  /**
    A draft whose published namesake exists without an `in.md` is rendered
    and stays in the drafts; the namesake loses its `index.html`, and the
    tool stops because there is no `in.md` to read the time from.
   */
  lemma PublishBlocked(tpl: Templates, render: string -> string, stamp: string -> int, d: Post, p: Post)
    requires d.source.Some? && tpl.headPost.Some? && tpl.footPost.Some?
    requires p.source.None?
    ensures PublishStep(tpl, render, stamp, Slots(Some(d), Some(p)))
         == Step(Slots(Some(d.(html := Some(d.html.GetOr([]) + [tpl.headPost.value, render(d.source.value), tpl.footPost.value]))),
                       Some(p.(html := None))),
                 Some(MissingMarkdown))
  {
  }

  /** Both directories, by name. */
  datatype State = State(drafts: map<string, Post>, published: map<string, Post>)

  /** A publishing run: the directories, and the error that stopped it, if one did. */
  datatype Outcome = Outcome(state: State, failure: Option<Error>)

  function Lookup(m: map<string, Post>, name: string): Option<Post> {
    if name in m then Some(m[name]) else None
  }

  /** The map with `name` holding `v`, or without `name` when `v` is None. */
  function Store(m: map<string, Post>, name: string, v: Option<Post>): (r: map<string, Post>)
    ensures Lookup(r, name) == v
    ensures forall n :: n != name ==> Lookup(r, n) == Lookup(m, n)
  {
    if v.Some? then m[name := v.value] else m - {name}
  }

  function At(st: State, name: string): Slots {
    Slots(Lookup(st.drafts, name), Lookup(st.published, name))
  }

  /**
    Publishing one draft with the given templates, markdown renderer and
    way of reading the time from an `in.md` (`Stamp` in the tool).
   */
  function Publisher(tpl: Templates, render: string -> string, stamp: string -> int): (step: Slots -> Step)
    ensures forall s :: step(s) == PublishStep(tpl, render, stamp, s)
  {
    s => PublishStep(tpl, render, stamp, s)
  }

  /** Applying `step` to the slots of `name`; no other name's slots change. */
  function Apply(step: Slots -> Step, st: State, name: string): (r: Outcome)
    ensures At(r.state, name) == step(At(st, name)).slots
    ensures r.failure == step(At(st, name)).failure
    ensures forall n :: n != name ==> At(r.state, n) == At(st, n)
  {
    var after := step(At(st, name));
    Outcome(State(Store(st.drafts, name, after.slots.draft), Store(st.published, name, after.slots.published)), after.failure)
  }

  /** Applying `step` to the names of a listing in order, stopping at the first error. */
  function PublishAll(step: Slots -> Step, st: State, names: seq<string>): (r: Outcome)
  {
    if names == [] then Outcome(st, None)
    else
      var prev := PublishAll(step, st, names[..|names| - 1]);
      if prev.failure.Some? then prev
      else Apply(step, prev.state, names[|names| - 1])
  }

  /** A run that has not stopped before `names[i]` goes on by applying `step` to it. */
  lemma PublishAllNext(step: Slots -> Step, st: State, names: seq<string>, i: nat)
    requires i < |names|
    requires PublishAll(step, st, names[..i]).failure.None?
    ensures PublishAll(step, st, names[..i + 1]) == Apply(step, PublishAll(step, st, names[..i]).state, names[i])
  {
    assert names[..i + 1][..i] == names[..i];
  }

  predicate Distinct(names: seq<string>) {
    forall i, j :: 0 <= i < j < |names| ==> names[i] != names[j]
  }

  lemma DistinctInit(names: seq<string>)
    requires Distinct(names) && names != []
    ensures Distinct(names[..|names| - 1])
    ensures names[|names| - 1] !in names[..|names| - 1]
  {
    var init := names[..|names| - 1];
    forall i, j | 0 <= i < j < |init| ensures init[i] != init[j] {
      assert init[i] == names[i] && init[j] == names[j];
    }
  }

  /** Publishing a listing, completed or not, leaves the names it does not list alone. */
  lemma {:induction false} PublishAllElsewhere(step: Slots -> Step, st: State, names: seq<string>, n: string)
    requires n !in names
    ensures At(PublishAll(step, st, names).state, n) == At(st, n)
  {
    if names != [] {
      var init := names[..|names| - 1];
      assert n !in init;
      PublishAllElsewhere(step, st, init, n);
    }
  }

  /**
    Publishing a listing without repeats completes exactly when every listed
    name can be published.
   */
  lemma {:induction false} PublishAllCompletes(step: Slots -> Step, st: State, names: seq<string>)
    requires Distinct(names)
    ensures PublishAll(step, st, names).failure.None?
        <==> forall k :: 0 <= k < |names| ==> step(At(st, names[k])).failure.None?
  {
    if names != [] {
      var init := names[..|names| - 1];
      var last := names[|names| - 1];
      DistinctInit(names);
      PublishAllCompletes(step, st, init);
      var prev := PublishAll(step, st, init);
      if prev.failure.None? {
        PublishAllElsewhere(step, st, init, last);
      } else {
        var k :| 0 <= k < |init| && step(At(st, init[k])).failure.Some?;
        assert names[k] == init[k];
      }
    }
  }

  /**
    A completed publishing of a listing without repeats leaves each listed
    name as publishing it alone would.
   */
  lemma {:induction false} PublishAllSlots(step: Slots -> Step, st: State, names: seq<string>, k: nat)
    requires Distinct(names) && k < |names|
    requires PublishAll(step, st, names).failure.None?
    ensures At(PublishAll(step, st, names).state, names[k]) == step(At(st, names[k])).slots
  {
    var init := names[..|names| - 1];
    var last := names[|names| - 1];
    var prev := PublishAll(step, st, init);
    assert prev.failure.None?;
    DistinctInit(names);
    if k == |names| - 1 {
      PublishAllElsewhere(step, st, init, last);
    } else {
      assert names[k] == init[k] && names[k] != last;
      PublishAllSlots(step, st, init, k);
    }
  }

  /** A run that stopped on a prefix of the listing is the run of the whole listing. */
  lemma {:induction false} PublishAllStops(step: Slots -> Step, st: State, names: seq<string>, j: nat)
    requires j <= |names|
    requires PublishAll(step, st, names[..j]).failure.Some?
    ensures PublishAll(step, st, names) == PublishAll(step, st, names[..j])
    decreases |names| - j
  {
    if j < |names| {
      var init := names[..|names| - 1];
      assert init[..j] == names[..j];
      PublishAllStops(step, st, init, j);
    } else {
      assert names[..j] == names;
    }
  }

  /**
    Publishing every draft, listed once each, when the post templates are
    present, every draft holds an `in.md` and every published namesake of a
    draft holds one too: nothing fails; afterwards a draft remains exactly
    where a published post of its name existed; every listed name is
    published, dated by the time recorded in the source it then holds;
    posts of other names are untouched.
   */
  lemma PublishEveryDraft(tpl: Templates, render: string -> string, stamp: string -> int, st: State, names: seq<string>)
    requires Distinct(names)
    requires forall n :: n in names <==> n in st.drafts
    requires tpl.headPost.Some? && tpl.footPost.Some?
    requires forall n :: n in st.drafts ==> st.drafts[n].source.Some?
    requires forall n :: n in st.drafts && n in st.published ==> st.published[n].source.Some?
    ensures PublishAll(Publisher(tpl, render, stamp), st, names).failure.None?
    ensures var after := PublishAll(Publisher(tpl, render, stamp), st, names).state;
            (forall n :: n in after.drafts <==> n in st.drafts && n in st.published)
            && (forall n :: n in st.drafts ==>
                  n in after.published
                  && after.published[n].source.Some?
                  && after.published[n].mtime == stamp(after.published[n].source.value))
            && (forall n :: n !in st.drafts ==>
                  Lookup(after.published, n) == Lookup(st.published, n) && n !in after.drafts)
  {
    var step := Publisher(tpl, render, stamp);
    assert forall k :: 0 <= k < |names| ==> step(At(st, names[k])).failure.None? by {
      forall k | 0 <= k < |names| ensures step(At(st, names[k])).failure.None? {
        assert names[k] in st.drafts;
      }
    }
    PublishAllCompletes(step, st, names);
    var after := PublishAll(step, st, names).state;
    forall n | n in st.drafts
      ensures (n in after.drafts <==> n in st.published)
      ensures n in after.published && after.published[n].source.Some?
      ensures after.published[n].mtime == stamp(after.published[n].source.value)
    {
      var k :| 0 <= k < |names| && names[k] == n;
      PublishAllSlots(step, st, names, k);
      StepOnDraft(tpl, render, stamp, st.drafts[n], Lookup(st.published, n));
      assert At(after, n).draft == Lookup(after.drafts, n);
      assert At(after, n).published == Lookup(after.published, n);
    }
    forall n | n !in st.drafts
      ensures Lookup(after.published, n) == Lookup(st.published, n) && n !in after.drafts
    {
      PublishAllElsewhere(step, st, names, n);
      assert Lookup(after.drafts, n) == None;
    }
  }

  /**
    One draft with a source, under present templates and with a namesake
    that is absent or holds an `in.md`, is published or kept as the rename
    allows.
   */
  lemma StepOnDraft(tpl: Templates, render: string -> string, stamp: string -> int, d: Post, pub: Option<Post>)
    requires d.source.Some? && tpl.headPost.Some? && tpl.footPost.Some?
    requires pub.None? || pub.value.source.Some?
    ensures var r := PublishStep(tpl, render, stamp, Slots(Some(d), pub));
            && r.failure.None?
            && (r.slots.draft.Some? <==> pub.Some?)
            && r.slots.published.Some?
            && r.slots.published.value.source.Some?
            && r.slots.published.value.mtime == stamp(r.slots.published.value.source.value)
  {
  }
}
