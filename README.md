# sgb, modelled in Dafny

`sgb` is a small static blog generator. It keeps posts as directories:

- drafts live under `drafts/<slug>/`;
- published posts live under `out/p/<slug>/`;
- each post holds a markdown source `in.md` and, once rendered, an `index.html`.

The front page `out/index.html` lists the published posts, newest first.

This project models the commands of `src/main.go`:

- creating a draft from a title;
- publishing every draft;
- rebuilding the front page;
- moving a published post back to the drafts, or deleting it;
- the local half of fetching posts back from the server.

It also models the pieces those commands are built from:

- the slug rules;
- the two-line header written into `in.md` and read back from it;
- the interactive choice of a post by its number;
- the name order of directory listings;
- the newest-first sort.

How the file system is represented:

- Each directory is a map from entry name to `Post`. A `Post` has an optional `in.md` text, an optional `index.html` (the chunks appended to it, in order) and a modification time.
- The commands are methods of the class `Blog.Workspace`. Its fields are the two directories and the front page.
- Every `check(err)` or `panic` of the source ends the command with an `Error` value, and the directories stay as they were at that point.
- The two `index.html` files the source opens with `O_APPEND` (a draft's page and the front page) are modelled as lists of chunks, each appended as soon as it is known. A command that stops half-way therefore leaves exactly the chunks appended so far.
- `in.md`, which the new-post command also opens with `O_APPEND`, is modelled as one text, and the header is appended to it by concatenation.

The pure parts are functions with lemmas. The parts that change the directories step by step are methods, proved against those functions:

- `Workspace.Publish` against `Publishing.PublishAll`;
- `Workspace.BuildIndex` against `IndexPage.IndexRun`.

A post can sit in both directories at once. On Unix, Go's `os.Rename` refuses to replace an existing directory, empty or not. When publishing renames a draft onto a published directory of the same name (`src/main.go:244`), that error is ignored, and the draft stays beside its published namesake. The tool then opens the namesake's `in.md` (`src/main.go:246-250`):

- when the namesake has one, it is re-dated from it, as `Publishing.PublishCollides` states;
- when it has none, the command stops, as `Publishing.PublishBlocked` states.

Moving a post back to the drafts is refused in the same way when a draft directory of that name exists (`src/main.go:279-283`).

## Model

| member | source | states |
|---|---|---|
| Slug.Sanitize | src/main.go:109-116 | the slug has only `[0-9A-Za-z_]` characters and never two underscores in a row |
| Slug.SanitizeIdempotent | src/main.go:109-116 | sanitising a slug gives the same slug back |
| Slug.SanitizeKeepsAlnums | src/main.go:109-116 | the slug keeps every ASCII letter and digit of the title, in order |
| Slug.SanitizesToNothing | src/main.go:112-116 | a title with no word character and no space, such as `???`, gives the empty slug |
| Slug.SanitizeExample | src/main.go:109-116 | the title `My  Cool Post!!` gives the slug `My_Cool_Post` |
| Slug.CollapseAfterWord | src/main.go:116 | a double underscore after a word becomes one underscore, and nothing else changes |
| Header.ParseTitle | src/main.go:178-180 | line 1 without its first two characters is the title; a shorter line is an error |
| Header.ParseTimestamp | src/main.go:185-193 | a parsed creation time lies in `[0, 10^10)` |
| Header.TimestampFound | src/main.go:185-193 | a time is read exactly when line 2 has a run of ten digits, and it is the value of the leftmost run |
| Header.DateRoundTrip | src/main.go:132 | the date line written for a Unix time reads back as that time exactly when the time has ten digits |
| Header.HeaderRoundTrip | src/main.go:131-133 | after the header, whatever is appended, line 1 reads back as the title and line 2 as the creation time |
| Header.HeaderText | src/main.go:131-133 | the text the new-post command appends to `in.md`: `# ` and the title, the date line, and a blank line; `HeaderRoundTrip` reads it back |
| Header.HeadLines | src/main.go:178-186 | lines 1 and 2 of an `in.md` as two scanner steps read them (the same reads are at `src/main.go:253-257`) |
| Header.MatchTenDigits | src/main.go:187-189 | the leftmost run of ten digits on a line, or the empty text when there is none, as `Find` of `[0-9]{10}` gives it (also `src/main.go:258-262`) |
| Decimal.FormatParseRoundTrip | src/main.go:113 | every int64 written by `strconv.FormatInt` parses back to itself |
| Decimal.FormatInt | src/main.go:113 | the decimal text of an integer: a minus sign for a negative one, then its digits without leading zeros; `FormatParseRoundTrip` reads it back |
| Decimal.ParseInt64 | src/main.go:192 | decimal text with an optional sign parsed within the int64 range, or no value (also `strconv.Atoi` at `src/main.go:102` and the parse at `src/main.go:259`) |
| Decimal.TenDigits | src/main.go:187 | a time is written with exactly ten digits when it lies in `[10^9, 10^10)` |
| Selection.ReadLine | src/main.go:97-100 | the line read runs up to and including the first newline; input without a newline is an error |
| Selection.Choose | src/main.go:97-105 | a choice is a position of the listing; the errors are a missing line, a non-integer and an out-of-range index |
| Selection.SelectPost | src/main.go:89-106 | the path of the chosen post is `out/p/` followed by its listed name |
| Selection.ChooseTyped | src/main.go:102-105 | typing the decimal text of an int64 chooses it exactly when it is in range; otherwise it is out of range |
| Selection.ChooseRejectsNonNumbers | src/main.go:102-103 | a line that is not a decimal integer is refused |
| Selection.SelectedName | src/main.go:275-277 | the last path component of the selected path is the chosen listed name |
| Text.NextLine | src/main.go:179-180 | one scanner step: the next line without its newline or a final carriage return, and the text after it; past the end the line is empty |
| Listing.Names | src/main.go:144 | the listing has each entry name exactly once |
| Listing.NamesAscending | src/main.go:144 | the listing is in byte-wise name order |
| Listing.NamesUnique | src/main.go:144 | any duplicate-free listing of the names in name order is that listing |
| Ordering.SortNewestFirst | src/main.go:147-151 | the array is sorted in place by descending modification time and is a permutation of the input |
| Ordering.NewestFirstExample | src/main.go:147-151 | with times 100, 300 and 200 the only newest-first order is 300, 200, 100 |
| IndexPage.Entry | src/main.go:168-203 | a post that can be listed gives exactly two lines |
| IndexPage.EntryCases | src/main.go:170-193 | a post is listed exactly when it has an `in.md` with a line 1 of at least two characters and a ten-digit run on line 2; the errors come in that order: a missing `in.md`, a short line 1, a line 2 without a timestamp |
| IndexPage.PageComplete | src/main.go:153-210 | a complete page has `6 + 2n` chunks: head, the three fixed lines, item k at positions 4+2k and 5+2k, the list close, foot; it is complete exactly when both templates exist and every item succeeds |
| IndexPage.IndexComplete | src/main.go:140-211 | the same for the posts of a listing, item k being the k-th post's link line and date line |
| IndexPage.IndexStopsAtPost | src/main.go:168-193 | the first post that cannot be listed stops the build with its error, after `4 + 2k` chunks |
| IndexPage.EntryOfCreated | src/main.go:131-132 | a post created with a ten-digit time is listed with its title and that time's date, whatever was appended |
| IndexPage.CollectStops | src/main.go:168-204 | the list stops at the first item that is an error, with that error, after the two lines of each item before it |
| IndexPage.Collect | src/main.go:168-204 | the list items appended in order up to the first post that cannot be listed, and that post's error |
| IndexPage.Page | src/main.go:153-210 | the page around the list: head template, three fixed lines, the list, its close, foot template, stopping at the first missing template or failing item |
| IndexPage.IndexRun | src/main.go:140-211 | the whole front page for the published posts in their final order; `IndexComplete` and `IndexStopsAtPost` state its layout |
| Publishing.Stamp | src/main.go:253-262 | the time a published directory is dated by lies in `[0, 10^10)`, and a missing timestamp gives 0 |
| Publishing.RenderDraft | src/main.go:222-242 | the draft's `index.html` is appended head, rendered source and foot; it is complete exactly when both templates and `in.md` exist; the source and time are kept |
| Publishing.Rename | src/main.go:244-267 | the draft stays whole exactly when a published directory of its name exists; the command stops exactly when that directory has no `in.md`; otherwise what is published there is dated from its own `in.md` |
| Publishing.PublishStep | src/main.go:217-267 | publishing one name succeeds exactly when the draft exists with an `in.md`, both post templates exist, and any published namesake holds an `in.md`; the errors are a missing directory, template or markdown |
| Publishing.PublishKeepsSources | src/main.go:244 | publishing one name never loses or duplicates an `in.md` |
| Publishing.PublishMoves | src/main.go:244-266 | a draft whose name is not yet published leaves the drafts with its page appended, dated by its own source |
| Publishing.PublishCollides | src/main.go:244-266 | a draft whose published namesake holds an `in.md` stays a draft, and the namesake loses its `index.html` and is re-dated |
| Publishing.PublishBlocked | src/main.go:244-250 | a draft whose published namesake has no `in.md` stays a draft, the namesake loses its `index.html`, and the command stops with the markdown missing |
| Publishing.Apply | src/main.go:217-267 | one name's step changes that name's slots only |
| Publishing.PublishAllElsewhere | src/main.go:217-268 | publishing a listing leaves every name it does not list alone |
| Publishing.PublishAllCompletes | src/main.go:217-268 | a duplicate-free listing is published completely exactly when every listed name can be published |
| Publishing.PublishAllSlots | src/main.go:217-268 | after a complete run each listed name holds what publishing it alone gives |
| Publishing.PublishAllStops | src/main.go:217-268 | a run stopped at a name ends there; later names are not touched |
| Publishing.PublishAll | src/main.go:213-268 | the drafts of a listing published one name after another, each by the same step, stopping at the first error |
| Publishing.PublishEveryDraft | src/main.go:213-271 | with both templates, every draft holding an `in.md` and every published namesake of a draft holding one too, nothing fails, a draft stays exactly where its name was already published, every listed name is dated from the source it then holds, and other names are untouched |
| Blog.Drafted | src/main.go:122-133 | a new directory gets an `in.md` holding just the header; an existing draft gets the header appended to its `in.md` |
| Blog.EmptySlugPath | src/main.go:119-120 | as written, a title that sanitises to nothing writes `drafts//in.md`, a file in the drafts directory itself |
| Blog.DraftSourcePath | src/main.go:119-120 | as written, the path of the `in.md` a new post is written to: the drafts directory, the slug, `in.md` |
| Blog.CreatedDraftStamp | src/main.go:131-132 | a draft created at a ten-digit time is dated at that time when published |
| Blog.NewestFirst | src/main.go:144-151 | the front page lists every published post once, newest first |
| Blog.Workspace.BuildIndex | src/main.go:140-211 | the front page is rebuilt from scratch as `IndexRun` describes, over the published posts sorted newest first; nothing else changes |
| Blog.Workspace.ListPosts | src/main.go:168-204 | the list items are appended one post at a time up to the first error |
| Blog.Workspace.RenderOne | src/main.go:222-242 | the draft's `index.html` is appended to as `RenderDraft` describes |
| Blog.Workspace.RenameOne | src/main.go:244-267 | the rename, its refusal onto an existing directory, the dating and the missing-markdown stop are as `Rename` describes |
| Blog.Workspace.PublishOne | src/main.go:220-267 | one iteration of publishing changes the two directories at that name as `PublishStep` describes |
| Blog.Workspace.Publish | src/main.go:213-272 | the drafts are published in name order as `PublishAll` describes; a complete run rebuilds the front page; entry names stay proper |
| Blog.Workspace.Chosen | src/main.go:275-277 | the post named is the one at the chosen position of the name-ordered listing; the errors are those of the choice |
| Blog.Workspace.Edit | src/main.go:274-289 | the chosen post moves back to the drafts without its `index.html`; the move is refused when a draft directory of that name exists; the errors of the choice come first |
| Blog.Workspace.MoveBack | src/main.go:279-286 | the post leaves the published directory and becomes the draft of that name, without its `index.html`; nothing else changes |
| Blog.Workspace.Delete | src/main.go:291-303 | the chosen post is removed; nothing else changes |
| Blog.Workspace.Create | src/main.go:108-138 | corrected: the header is appended to `in.md` in the directory named by the slug; an empty slug is refused |
| Blog.Workspace.Fetch | src/main.go:47-68 | every published post is removed; the drafts become what the copy left, even when it failed part-way; a failed copy or remote cleanup is an error; otherwise every draft loses its `index.html` |
| Blog.Workspace.ClearPublished | src/main.go:48-52 | after removing each listed published post, the published directory is empty and nothing else changed |
| Blog.Workspace.StripPages | src/main.go:64-67 | after the loop every draft has lost its `index.html` and kept its `in.md` and time; nothing else changed |

## Left out

- `syncPosts` and the `rsync` and `ssh` calls of `fetchPosts`: these are external programs and the network. In `Workspace.Fetch`, the copy is two parameters: the drafts directory as the copy left it, and whether the copy reported success. The remote cleanup is a boolean parameter.
- `backup_posts` copies `out/p` into the backup directory `bak/` with the `otiai10/copy` library (`src/main.go:305-308`). The backup directory is not modelled.
- Blog.Workspace.Publish: assumes the backup copy at the end of `assemblePosts` succeeds. When that copy fails, its `check` ends the command after every draft was published, before the front page is rebuilt (`src/main.go:270-271`), and the final `buildIndex` of `main` is skipped too.
- `launchEditor`: it runs an interactive editor. Whatever the editor appends to `in.md` is an arbitrary suffix in the lemmas about headers.
- `markdown.ToHTML` is the `render` parameter, and the calendar formatting `time.Unix(t, 0).Format("Jan 02, 2006")` is the `calendar` parameter. The lower-casing after that format is modelled as ASCII only, which covers the month names it produces.
- `time.Now()`: `Workspace.Create` takes the time as its `now` parameter.
- Dating a published directory goes through the `stamp` field of `Workspace`, which the constructor sets to `Publishing.Stamp`. The publishing functions take it as a parameter.
- `build_atom` is not called by any command.
- The bootstrap in `main` is not modelled. It creates the backup, drafts and posts directories when missing, and moves `res/templates` into the working directory when it has no templates directory (`src/main.go:313-323`). The usage text without a command ends the program with exit status 1 (`src/main.go:325-335`).
- The command dispatch in `main` is not modelled. Its final `buildIndex` after every command is one more call of `Workspace.BuildIndex`.
- Modification times change only through `os.Chtimes`; the kernel's own mtime updates are not modelled.
- Plain files other than `in.md` and `index.html` inside post directories are not modelled.
- Text is modelled as sequences of Unicode characters, not UTF-8 bytes. The title slice `[2:]` counts bytes, which agrees with characters for the `# ` prefix `createPost` writes.
- `bufio.Scanner`'s 64 KiB line limit is not modelled.
- Errors of `os.RemoveAll` are ignored, as the source ignores them everywhere except in `deletePost`. There they can only come from the operating system, such as a permission error, which the model does not have; so `Workspace.Delete` has no error path for it.
- Blog.Workspace.BuildIndex: reads each post's `in.md` through the `entry` function passed to `ListPosts`, not through an open file. The text and the error are the same.
- Blog.Workspace.Create: is the corrected command. As written, the empty slug is shown by `Blog.EmptySlugPath`.

## Findings

| source | as written | input that shows it | evidently intended | confidence | as-written member | corrected member |
|---|---|---|---|---|---|---|
| src/main.go:119-120 | the draft directory is `drafts/` followed by the slug, with no check that the slug is not empty | the title `???` (or any title with no ASCII letter, digit, underscore or space) gives the slug `""`, so the header goes to `drafts//in.md`, a plain file in the drafts root. The next publish lists it as a draft and stops when it opens `drafts/in.md/index.html` (`src/main.go:222-226`) | a title must give a non-empty slug, or be refused | not executed | Blog.EmptySlugPath | Blog.Workspace.Create |
