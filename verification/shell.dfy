/** The two nested menu loops as one state machine. The auth menu offers
    register ('1'), login ('2') and exit ('3'); the task menu offers add ('1'),
    view ('2'), delete ('3'), complete ('4') and logout ('5'). Any other choice
    reprints the menu and changes nothing. Each step consumes one menu choice
    together with the answers to the prompts that choice asks. The files are
    modelled by their contents: the credential mapping and, per user name, the
    task list its task file holds (a missing file is a missing key). */
module Shell {
  import opened Wrappers
  import opened Tasks
  import opened Credentials

  datatype Screen = AuthMenu | TaskMenu(user: string) | Exited

  /** The screen shown, the credential store and every user's saved tasks. */
  datatype Session = Session(screen: Screen, users: Users, stores: map<string, seq<Task>>)

  /** Everything the prompts after a menu choice could read; each action uses
      only the fields it prompts for. `idEntry` is the id line after `int(...)`. */
  datatype Answers = Answers(username: string, password: string, form: TaskForm, idEntry: Option<int>)

  /** The program starts at the auth menu over whatever the files hold. */
  function Start(users: Users, stores: map<string, seq<Task>>): Session {
    Session(AuthMenu, users, stores)
  }

  /** A user's saved tasks; a user with no task file has none. */
  function LoadTasks(stores: map<string, seq<Task>>, user: string): seq<Task> {
    if user in stores then stores[user] else []
  }

  /** The auth-menu login branch. Entry to the task menu also needs the
      returned name to be truthy, so the empty name never gets in. */
  function AfterLogin(s: Session, a: Answers): Session {
    match Login(s.users, a.username, a.password)
    case Some(u) => if u != "" then s.(screen := TaskMenu(u)) else s
    case None => s
  }

  /** Saves a reply's list only when the action reported success; the failure
      paths of delete and complete write nothing. */
  function SaveIfDone(s: Session, user: string, reply: Reply): Session {
    if reply.outcome.Done? then s.(stores := s.stores[user := reply.tasks]) else s
  }

  /** One pass of whichever menu loop is running. */
  function Step(s: Session, choice: string, a: Answers): (r: Session)
    ensures s.screen.Exited? ==> r == s
    ensures !s.screen.TaskMenu? ==> r.stores == s.stores
    ensures s.screen.TaskMenu? ==> r.users == s.users
    ensures s.screen.AuthMenu? && choice == "1" ==>
              r == s.(users := Register(s.users, a.username, a.password).users)
    ensures s.screen.AuthMenu? && choice == "2" ==> r.users == s.users
    ensures s.screen.AuthMenu? && choice == "3" ==> r == s.(screen := Exited)
    ensures s.screen.TaskMenu? && choice == "5" ==> r == s.(screen := AuthMenu)
    ensures r.screen.Exited? ==> s.screen.Exited? || (s.screen.AuthMenu? && choice == "3")
    ensures r.screen.TaskMenu? && !s.screen.TaskMenu? ==>
              s.screen.AuthMenu? && choice == "2" && r.screen.user == a.username &&
              a.username != "" && Login(s.users, a.username, a.password) == Some(a.username)
    ensures s.screen.TaskMenu? ==> r.screen == s.screen || (choice == "5" && r.screen == AuthMenu)
    ensures s.screen.TaskMenu? ==>
              forall v :: v != s.screen.user ==>
                (v in r.stores <==> v in s.stores) && (v in s.stores ==> r.stores[v] == s.stores[v])
  {
    match s.screen
    case Exited => s
    case AuthMenu =>
      if choice == "1" then s.(users := Register(s.users, a.username, a.password).users)
      else if choice == "2" then AfterLogin(s, a)
      else if choice == "3" then s.(screen := Exited)
      else s
    case TaskMenu(u) =>
      var tasks := LoadTasks(s.stores, u);
      if choice == "1" then s.(stores := s.stores[u := Add(tasks, a.form)])
      else if choice == "3" then SaveIfDone(s, u, DeleteTask(tasks, a.idEntry))
      else if choice == "4" then SaveIfDone(s, u, CompleteTask(tasks, a.idEntry))
      else if choice == "5" then s.(screen := AuthMenu)
      else s
  }

  /** A sequence of menu choices with their answers, run in order. */
  function Run(s: Session, inputs: seq<(string, Answers)>): Session
    decreases |inputs|
  {
    if |inputs| == 0 then s else Run(Step(s, inputs[0].0, inputs[0].1), inputs[1..])
  }

  /** Only a registered, non-empty user name is ever in the task menu, and
      only registered users have saved tasks. */
  predicate Consistent(s: Session) {
    && (s.screen.TaskMenu? ==> s.screen.user in s.users && s.screen.user != "")
    && (forall v :: v in s.stores ==> v in s.users)
  }

  /** A step keeps the session consistent. */
  lemma StepKeepsConsistent(s: Session, choice: string, a: Answers)
    requires Consistent(s)
    ensures Consistent(Step(s, choice, a))
  {
  }

  /** Any run from a consistent session stays consistent. */
  lemma {:induction false} RunKeepsConsistent(s: Session, inputs: seq<(string, Answers)>)
    requires Consistent(s)
    ensures Consistent(Run(s, inputs))
    decreases |inputs|
  {
    if |inputs| > 0 {
      StepKeepsConsistent(s, inputs[0].0, inputs[0].1);
      RunKeepsConsistent(Step(s, inputs[0].0, inputs[0].1), inputs[1..]);
    }
  }

  /** Exit is final: once the auth menu has been left with '3', no further
      input changes anything. */
  lemma {:induction false} ExitIsFinal(s: Session, inputs: seq<(string, Answers)>)
    requires s.screen.Exited?
    ensures Run(s, inputs) == s
    decreases |inputs|
  {
    if |inputs| > 0 {
      ExitIsFinal(Step(s, inputs[0].0, inputs[0].1), inputs[1..]);
    }
  }

  /** Choosing login at the auth menu opens the task menu for the typed name
      exactly when the credentials match and the name is not empty. */
  lemma LoginOpensTaskMenu(s: Session, a: Answers)
    requires s.screen.AuthMenu?
    ensures Step(s, "2", a).screen == TaskMenu(a.username) <==>
              a.username != "" && a.username in s.users && s.users[a.username] == a.password
    ensures Step(s, "2", a).screen == TaskMenu(a.username) ==>
              Step(s, "2", a) == s.(screen := TaskMenu(a.username))
    ensures Step(s, "2", a).screen != TaskMenu(a.username) ==> Step(s, "2", a) == s
  {
  }

  /** A choice outside a menu's options leaves the whole session unchanged. */
  lemma InvalidChoiceChangesNothing(s: Session, choice: string, a: Answers)
    requires s.screen.AuthMenu? ==> choice !in {"1", "2", "3"}
    requires s.screen.TaskMenu? ==> choice !in {"1", "3", "4", "5"}
    ensures Step(s, choice, a) == s
  {
  }

  /** Delete and complete only rewrite the user's task file when the id line
      parsed and named a task that exists. */
  lemma FailedLookupWritesNothing(s: Session, choice: string, a: Answers)
    requires s.screen.TaskMenu?
    requires choice == "3" || choice == "4"
    requires a.idEntry.None? || !HasId(LoadTasks(s.stores, s.screen.user), a.idEntry.value)
    ensures Step(s, choice, a) == s
  {
  }

  /** In the task menu, add, delete and complete save exactly the list the
      corresponding list operation returns (delete and complete only when
      they report success), to the logged-in user's store. */
  lemma TaskMenuSavesActionResult(s: Session, a: Answers)
    requires s.screen.TaskMenu?
    ensures var u, tasks := s.screen.user, LoadTasks(s.stores, s.screen.user);
            && LoadTasks(Step(s, "1", a).stores, u) == Add(tasks, a.form)
            && LoadTasks(Step(s, "3", a).stores, u) == DeleteTask(tasks, a.idEntry).tasks
            && LoadTasks(Step(s, "4", a).stores, u) == CompleteTask(tasks, a.idEntry).tasks
            && Step(s, "2", a) == s
  {
  }

  /** Register, log in, add "Buy milk", complete id 1: the user's saved list
      holds one task, id 1, completed. */
  lemma BuyMilkScenario()
    ensures var form := TaskForm("Buy milk", "", "", "");
            var auth := Answers("alice", "pw1", form, None);
            var done := Answers("", "", form, Some(1));
            var s := Run(Start(map[], map[]), [("1", auth), ("2", auth), ("1", auth), ("4", done)]);
            s.screen == TaskMenu("alice") && "alice" in s.stores &&
            s.stores["alice"] == [Task(1, "Buy milk", "", "", "", true)]
  {
    var form := TaskForm("Buy milk", "", "", "");
    var auth := Answers("alice", "pw1", form, None);
    var done := Answers("", "", form, Some(1));
    var s0 := Start(map[], map[]);
    var s1 := Step(s0, "1", auth);
    assert s1.users == map["alice" := "pw1"];
    var s2 := Step(s1, "2", auth);
    assert s2.screen == TaskMenu("alice");
    var s3 := Step(s2, "1", auth);
    assert s3.stores["alice"] == [Task(1, "Buy milk", "", "", "", false)];
    var s4 := Step(s3, "4", done);
    assert FirstIndex(s3.stores["alice"], 1) == Some(0);
    assert s4.stores["alice"] == [Task(1, "Buy milk", "", "", "", true)];
    var inputs := [("1", auth), ("2", auth), ("1", auth), ("4", done)];
    assert Run(s0, inputs) == Run(s1, inputs[1..]);
    assert Run(s1, inputs[1..]) == Run(s2, inputs[2..]);
    assert Run(s2, inputs[2..]) == Run(s3, inputs[3..]);
    assert Run(s3, inputs[3..]) == Run(s4, []);
  }
}
