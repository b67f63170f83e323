/**
 * `Helper\Branch::getDefaultBranchName`: the branch a project builds when none is named,
 * chosen by its repository type.
 */
module Branch {
  /** The project types a project may have. */
  datatype ProjectType =
    | Local | Git | Github | Bitbucket | BitbucketServer | Gitlab | Gogs
    | Hg | BitbucketHg | Svn

  /** Mercurial projects build `default`, Subversion projects `trunk`, every other type `master`. */
  function DefaultBranchName(t: ProjectType): (name: string)
    ensures name in {"default", "trunk", "master"}
    ensures name == "default" <==> t == Hg || t == BitbucketHg
    ensures name == "trunk" <==> t == Svn
    ensures name == "master" <==> !(t in {Hg, BitbucketHg, Svn})
  {
    match t
    case Hg => "default"
    case BitbucketHg => "default"
    case Svn => "trunk"
    case _ => "master"
  }
}
