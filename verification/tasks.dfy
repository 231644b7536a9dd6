/** Task completion: each task pays its points once per user. */
module Tasks {
  import opened Wrappers
  import opened Accounts
  import opened Store
  import Seqs

  /** A task document, keyed by its id in the task collection. */
  datatype Task = Task(points: int)

  datatype TaskError = MissingFields | UserNotFound | TaskNotFound | AlreadyCompleted

  /** `completeTask`. Guards, in order: both inputs present (a missing task
      id is `None`); the user exists; the task exists; the user has not
      completed it. Then the id is recorded and the points are earned. */
  function CompleteTask(users: seq<Account>, tasks: map<TaskId, Task>, username: string, taskId: Option<TaskId>)
    : (r: Result<seq<Account>, TaskError>)
    ensures |username| == 0 || taskId.None? ==> r == Err(MissingFields)
    ensures |username| > 0 && taskId.Some? && FindByUsername(users, username).None? ==> r == Err(UserNotFound)
    ensures (|username| > 0 && taskId.Some? && FindByUsername(users, username).Some? && taskId.value !in tasks)
              ==> r == Err(TaskNotFound)
    ensures (&& |username| > 0 && taskId.Some? && FindByUsername(users, username).Some? && taskId.value in tasks
             && taskId.value in users[FindByUsername(users, username).value].tasksCompleted)
              ==> r == Err(AlreadyCompleted)
    ensures r.Ok? <==>
              && |username| > 0 && taskId.Some?
              && FindByUsername(users, username).Some?
              && taskId.value in tasks
              && taskId.value !in users[FindByUsername(users, username).value].tasksCompleted
    ensures r.Err? && r.error == AlreadyCompleted ==>
              taskId.Some? && FindByUsername(users, username).Some?
              && taskId.value in users[FindByUsername(users, username).value].tasksCompleted
    ensures r.Ok? ==>
              var i, t := FindByUsername(users, username).value, taskId.value;
              && |r.value| == |users|
              && r.value[i] == AddEarnings(users[i].(tasksCompleted := users[i].tasksCompleted + [t]), tasks[t].points)
              && forall j :: 0 <= j < |users| && j != i ==> r.value[j] == users[j]
  {
    if |username| == 0 || taskId.None? then Err(MissingFields)
    else
      match FindByUsername(users, username)
      case None => Err(UserNotFound)
      case Some(i) =>
        var t := taskId.value;
        if t !in tasks then Err(TaskNotFound)
        else if t in users[i].tasksCompleted then Err(AlreadyCompleted)
        else
          var u := users[i];
          Ok(users[i := AddEarnings(u.(tasksCompleted := u.tasksCompleted + [t]), tasks[t].points)])
  }

  /** Completing the same task twice is refused the second time. */
  lemma CompleteTwiceRejected(users: seq<Account>, tasks: map<TaskId, Task>, username: string, taskId: Option<TaskId>)
    requires CompleteTask(users, tasks, username, taskId).Ok?
    ensures CompleteTask(CompleteTask(users, tasks, username, taskId).value, tasks, username, taskId) == Err(AlreadyCompleted)
  {
    var i := FindByUsername(users, username).value;
    var users' := CompleteTask(users, tasks, username, taskId).value;
    assert forall j :: 0 <= j < i ==> users'[j].username != username;
    assert FindByUsername(users', username) == Some(i);
  }

  /** The completed list never holds a task twice, and the store-wide
      lifetime total rises by exactly the task's points. */
  lemma CompleteKeepsTasksDistinct(users: seq<Account>, tasks: map<TaskId, Task>, username: string, taskId: Option<TaskId>)
    requires CompleteTask(users, tasks, username, taskId).Ok?
    requires forall j :: 0 <= j < |users| ==> Seqs.NoDuplicates(users[j].tasksCompleted)
    ensures var users' := CompleteTask(users, tasks, username, taskId).value;
            forall j :: 0 <= j < |users'| ==> Seqs.NoDuplicates(users'[j].tasksCompleted)
    ensures TotalEarned(CompleteTask(users, tasks, username, taskId).value) == TotalEarned(users) + tasks[taskId.value].points
  {
    var i := FindByUsername(users, username).value;
    var users' := CompleteTask(users, tasks, username, taskId).value;
    Seqs.AppendFreshKeepsNoDuplicates(users[i].tasksCompleted, taskId.value);
    assert users' == users[i := users'[i]];
    TotalEarnedUpdate(users, i, users'[i]);
  }
}
