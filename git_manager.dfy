/** The git repository dnsctl keeps in its state directory (core/git_manager.py), reduced to
    its observable effects: whether it exists, the messages of its commits, oldest first,
    and the state-directory contents of the last commit. Commit ids, authors and dates are
    not modelled; a commit is identified by its position in the log. */
module GitManager {
  import opened Wrappers
  import opened Text
  import opened StateManager

  const InitialCommitMessage := "Initial dnsctl state"

  /** The log after `auto_init`: a new repository gets the initial commit. */
  function InitLog(initialised: bool, commits: seq<string>): (log: seq<string>) {
    if initialised then commits else commits + [InitialCommitMessage]
  }

  /** The log after `commit(message)` with the state directory holding `tree`: nothing is
      committed when `tree` is what the last commit holds. */
  function CommitLog(initialised: bool, commits: seq<string>, head: Option<StoreContents>,
                     message: string, tree: StoreContents): (log: seq<string>)
    ensures |InitLog(initialised, commits)| <= |log| <= |InitLog(initialised, commits)| + 1
    ensures head == Some(tree) <==> log == InitLog(initialised, commits)
    ensures head != Some(tree) ==> log[|log| - 1] == message
  {
    InitLog(initialised, commits) + if head == Some(tree) then [] else [message]
  }

  /** Opening an existing repository again changes nothing. */
  lemma InitLogIdempotent(initialised: bool, commits: seq<string>)
    ensures InitLog(true, InitLog(initialised, commits)) == InitLog(initialised, commits)
  {
  }

  /** Committing the same contents twice in a row commits once. */
  lemma CommitTwiceCommitsOnce(initialised: bool, commits: seq<string>, head: Option<StoreContents>,
                               m1: string, m2: string, tree: StoreContents)
    ensures CommitLog(true, CommitLog(initialised, commits, head, m1, tree), Some(tree), m2, tree)
         == CommitLog(initialised, commits, head, m1, tree)
  {
  }

  /** A repository already present in the state directory: its commit messages, oldest
      first, and the contents its last commit holds (`None` while that is only the initial
      commit's `.gitignore`). */
  datatype RepoOnDisk = RepoOnDisk(log: seq<string>, tree: Option<StoreContents>)

  class GitRepo {
    var initialised: bool
    var commits: seq<string>
    var head: Option<StoreContents>

    /** `GitManager(state_dir)` over a state directory that holds `onDisk`, or no repository
        when it is `None`. Nothing is opened or created yet; that is `AutoInit`'s work. */
    constructor (onDisk: Option<RepoOnDisk>)
      ensures initialised == onDisk.Some?
      ensures onDisk.Some? ==> commits == onDisk.value.log && head == onDisk.value.tree
      ensures onDisk.None? ==> commits == [] && head == None
    {
      match onDisk {
        case Some(repo) =>
          initialised := true;
          commits := repo.log;
          head := repo.tree;
        case None =>
          initialised := false;
          commits := [];
          head := None;
      }
    }

    /** `auto_init`: open the repository, or create it with its initial commit, which holds
        only `.gitignore`. */
    method AutoInit()
      modifies this
      ensures initialised && commits == InitLog(old(initialised), old(commits)) && head == old(head)
    {
      if !initialised {
        initialised := true;
        commits := commits + [InitialCommitMessage];
      }
    }

    /** `commit(message)`: stage everything and commit unless nothing changed; the result is
        the new commit's position in the log, or `None` when there was nothing to commit. */
    method Commit(message: string, tree: StoreContents) returns (sha: Option<nat>)
      modifies this
      ensures initialised && head == Some(tree)
      ensures commits == CommitLog(old(initialised), old(commits), old(head), message, tree)
      ensures sha == if old(head) == Some(tree) then None else Some(|commits| - 1)
    {
      AutoInit();
      if head == Some(tree) {
        return None;
      }
      commits := commits + [message];
      head := Some(tree);
      sha := Some(|commits| - 1);
    }

    /** `log(max_count)`: the messages of the newest `maxCount` commits, newest first, with
        surrounding whitespace stripped; a missing repository is created first. */
    method Log(maxCount: nat) returns (entries: seq<string>)
      modifies this
      ensures initialised && commits == InitLog(old(initialised), old(commits)) && head == old(head)
      ensures |entries| == if maxCount < |commits| then maxCount else |commits|
      ensures forall i :: 0 <= i < |entries| ==> entries[i] == Trim(commits[|commits| - 1 - i])
    {
      AutoInit();
      entries := [];
      var i := 0;
      while i < |commits| && i < maxCount
        invariant 0 <= i <= |commits| && i <= maxCount && |entries| == i
        invariant forall j :: 0 <= j < i ==> entries[j] == Trim(commits[|commits| - 1 - j])
      {
        entries := entries + [Trim(commits[|commits| - 1 - i])];
        i := i + 1;
      }
    }
  }
}
