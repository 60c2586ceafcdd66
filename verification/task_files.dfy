/** Per-user file names: each user's tasks live in `<username>_tasks.json`,
    beside the credential file `users.json`. */
module TaskFiles {
  import opened Wrappers

  const TaskFileSuffix: string := "_tasks.json"
  const UsersFile: string := "users.json"

  /** The file holding a user's tasks: the name followed by the fixed suffix. */
  function TaskFilePath(username: string): (r: string)
    ensures |r| == |username| + |TaskFileSuffix|
    ensures r[..|username|] == username
    ensures r[|username|..] == TaskFileSuffix
  {
    username + TaskFileSuffix
  }

  /** The user a task file belongs to: the name with the suffix stripped, or
      `None` when the name does not end in the suffix. */
  function OwnerOf(path: string): (r: Option<string>)
    ensures r.Some? <==> |path| >= |TaskFileSuffix| && path[|path| - |TaskFileSuffix|..] == TaskFileSuffix
    ensures r.Some? ==> TaskFilePath(r.value) == path
  {
    if |path| >= |TaskFileSuffix| && path[|path| - |TaskFileSuffix|..] == TaskFileSuffix then
      var owner := path[..|path| - |TaskFileSuffix|];
      assert owner + TaskFileSuffix == path;
      Some(owner)
    else
      None
  }

  /** Stripping the suffix recovers the user name. */
  lemma OwnerOfTaskFilePath(username: string)
    ensures OwnerOf(TaskFilePath(username)) == Some(username)
  {
  }

  /** Distinct users never share a task file. */
  lemma TaskFilePathInjective(a: string, b: string)
    requires TaskFilePath(a) == TaskFilePath(b)
    ensures a == b
  {
  }

  /** No user's task file is the credential file. */
  lemma TaskFileIsNotUsersFile(username: string)
    ensures TaskFilePath(username) != UsersFile
  {
  }
}
