/** The trusted repository and what git computes on it. */
module GitModel {
  import opened Prelude

  /** `head` names the commit HEAD points at; `work` is the content of the working tree. */
  datatype Repo = Repo(head: string, work: string)

  /** A generated patch; the two counts are of its changed and of the ignored files. */
  datatype PatchDiff = PatchDiff(text: string, digest: string, baseline: string, fileCount: nat, ignoredCount: nat)

  /** The tree of a commit, and the effect of a patch on a tree (None when it does not apply). */
  datatype Git = Git(treeOf: string -> string, patched: (string, string) -> Option<string>)

  predicate Clean(g: Git, repo: Repo) {
    repo.work == g.treeOf(repo.head)
  }
}
