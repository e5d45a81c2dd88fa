/**
  The on-disk vocabulary of the blog tool: what a post directory holds, the
  templates directory, the fixed paths and the reasons the tool aborts.
 */
module Site {
  import opened Wrappers

  /** The published-posts directory (`out/p`), relative to the working directory. */
  const POST_DIR := "out/p"
  /** The drafts directory. */
  const DRAFT_DIR := "drafts"

  /**
    A post directory: its `in.md` (absent when the directory has none), its
    rendered `index.html` as the chunks written to it in order (absent when
    there is no such file), and the directory's modification time in Unix
    seconds.
   */
  datatype Post = Post(source: Option<string>, html: Option<seq<string>>, mtime: int)

  /** The four fragments of the templates directory; None when a file is missing. */
  datatype Templates = Templates(
    headIndex: Option<string>,
    footIndex: Option<string>,
    headPost: Option<string>,
    footPost: Option<string>)

  /** Every place where the tool panics, as a value. */
  datatype Error =
    | NoInputLine         // standard input ended before a newline
    | NotAnInteger        // the selection is not a decimal int64
    | IndexOutOfRange     // the selection does not index the listing
    | MissingTemplate     // a template file could not be read
    | MissingMarkdown     // a post has no readable in.md
    | TitleLineTooShort   // line 1 of in.md is shorter than two characters
    | NoTimestamp         // line 2 of in.md has no run of ten digits
    | RenameFailed        // moving a published post back to drafts failed
    | TransferFailed      // the remote copy into drafts failed
    | RemoteCleanupFailed // emptying the remote posts directory failed
    | EmptySlug           // the title has no character a slug can keep
    | MissingDirectory    // a listed directory is not there

  /** A directory entry name: never empty and never containing a slash. */
  predicate IsEntryName(name: string) {
    name != "" && '/' !in name
  }

  /** Every entry of a directory has a proper name. */
  predicate EntryNames(dir: map<string, Post>) {
    forall n :: n in dir ==> IsEntryName(n)
  }

  lemma EntryNamesStore(dir: map<string, Post>, name: string, p: Post)
    requires EntryNames(dir) && IsEntryName(name)
    ensures EntryNames(dir[name := p])
  {
  }

  lemma EntryNamesRemove(dir: map<string, Post>, name: string)
    requires EntryNames(dir)
    ensures EntryNames(dir - {name})
  {
  }
}
