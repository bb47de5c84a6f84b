/** The legacy JSON API (`app.py`), a separate application with its own
    tables: users with a ban flag, applications that operators approve into
    images, and deployments that are simply switched on and off. Password
    hashing and checking are parameters. */
module Legacy {
  import opened Common

  datatype LegacyUser = LegacyUser(
    id: int, username: string, email: string, passwordHash: string, role: string, isBanned: bool)

  datatype AppStatus = Pending | AppApproved | AppRejected | AppBuilding | AppReady

  datatype Application = Application(
    id: int,
    developerId: int,
    gitRepo: string,
    branch: string,
    baseImage: string,
    imageName: string,
    runCommands: seq<string>,
    entrypoint: string,
    status: AppStatus,
    operatorId: Option<int>)

  datatype ImageStatus = ImageBuilding | ImageReady | ImageFailed

  datatype LegacyImage = LegacyImage(
    id: int, applicationId: int, name: string, tag: string, dockerfile: string, status: ImageStatus)

  datatype LegacyDeploymentStatus = Stopped | Running | Updating | Failed

  datatype LegacyDeployment = LegacyDeployment(
    id: int, imageId: int, requestedBy: int, operatorId: Option<int>, name: string,
    status: LegacyDeploymentStatus, port: Option<int>)

  /** What `create_audit_log` stores in its details column. */
  datatype Details = NoDetails | RepoDetails(gitRepo: string, branch: string) | RoleDetails(role: string)

  datatype LegacyAudit = LegacyAudit(userId: int, action: string, resourceType: string, resourceId: int, details: Details)

  datatype LegacyDb = LegacyDb(
    users: seq<LegacyUser>,
    applications: seq<Application>,
    images: seq<LegacyImage>,
    deployments: seq<LegacyDeployment>,
    audit: seq<LegacyAudit>)

  function LegacyUserKey(u: LegacyUser): int { u.id }
  function ApplicationKey(a: Application): int { a.id }
  function LegacyImageKey(i: LegacyImage): int { i.id }
  function LegacyDeploymentKey(d: LegacyDeployment): int { d.id }

  /** `create_audit_log`: one more audit record, after all earlier ones. */
  function Log(db: LegacyDb, userId: int, action: string, resourceType: string, resourceId: int, details: Details): (r: LegacyDb)
    ensures r == db.(audit := r.audit)
    ensures |r.audit| == |db.audit| + 1 && r.audit[..|db.audit|] == db.audit
    ensures r.audit[|db.audit|] == LegacyAudit(userId, action, resourceType, resourceId, details)
  {
    db.(audit := db.audit + [LegacyAudit(userId, action, resourceType, resourceId, details)])
  }

  // ---------------------------------------------------------------------
  // Dockerfile generation
  // ---------------------------------------------------------------------

  /** The comment line under the FROM line. */
  const CloneComment := "# Клонирование репозитория"

  /** The lines up to and including the blank line after WORKDIR. */
  function HeaderLines(a: Application): seq<string> {
    ["FROM " + a.baseImage, "", CloneComment, "RUN git clone -b " + a.branch + " " + a.gitRepo + " /app", "WORKDIR /app", ""]
  }

  /** The header text: "FROM <base>", a blank line, the comment, the clone
      command, "WORKDIR /app" and a blank line, each ended by a newline. */
  function Header(a: Application): string {
    Unlines(HeaderLines(a))
  }

  /** One `RUN` line per command, in order. */
  function RunLines(cmds: seq<string>): string {
    if |cmds| == 0 then "" else "RUN " + cmds[0] + "\n" + RunLines(cmds[1..])
  }

  /** `generate_dockerfile` */
  function GenerateDockerfile(a: Application): (r: string)
    ensures |Header(a)| <= |r| && r[..|Header(a)|] == Header(a)
    ensures a.entrypoint != "" ==> |r| >= |a.entrypoint| + 13 && r[|r| - |a.entrypoint| - 13..] == "\nENTRYPOINT " + a.entrypoint + "\n"
    ensures a.entrypoint == "" ==> r == Header(a) + RunLines(a.runCommands)
  {
    var text := Header(a) + RunLines(a.runCommands);
    if a.entrypoint != "" then
      var tail := "\nENTRYPOINT " + a.entrypoint + "\n";
      assert (text + tail)[..|Header(a)|] == Header(a);
      assert (text + tail)[|text|..] == tail;
      text + tail
    else text
  }

  /** The lines of a generated Dockerfile, the terminating newline of each
      removed. */
  function DockerfileLines(a: Application): seq<string> {
    HeaderLines(a) + RunCommandLines(a.runCommands) + TailLines(a)
  }

  function TailLines(a: Application): seq<string> {
    if a.entrypoint != "" then ["", "ENTRYPOINT " + a.entrypoint] else []
  }

  function RunCommandLines(cmds: seq<string>): (lines: seq<string>)
    ensures |lines| == |cmds|
    ensures forall i :: 0 <= i < |cmds| ==> lines[i] == "RUN " + cmds[i]
  {
    seq(|cmds|, i requires 0 <= i < |cmds| => "RUN " + cmds[i])
  }

  /** Each line followed by a newline. */
  function Unlines(lines: seq<string>): string {
    if |lines| == 0 then "" else lines[0] + "\n" + Unlines(lines[1..])
  }

  lemma {:induction false} UnlinesAppend(a: seq<string>, b: seq<string>)
    ensures Unlines(a + b) == Unlines(a) + Unlines(b)
    decreases |a|
  {
    if |a| > 0 {
      assert (a + b)[1..] == a[1..] + b;
      UnlinesAppend(a[1..], b);
    } else {
      assert a + b == b;
    }
  }

  /** Splitting text made of newline-terminated lines gives the lines and
      one empty piece after the last newline. */
  lemma {:induction false} SplitUnlines(lines: seq<string>)
    requires NoBreaks(lines)
    ensures Split(Unlines(lines), '\n') == lines + [""]
    decreases |lines|
  {
    JoinUnlines(lines);
    var parts := lines + [""];
    assert forall i :: 0 <= i < |parts| ==> '\n' !in parts[i];
    SplitJoin(parts, '\n');
  }

  lemma {:induction false} JoinUnlines(lines: seq<string>)
    ensures Join(lines + [""], '\n') == Unlines(lines)
    decreases |lines|
  {
    if |lines| > 0 {
      var parts := lines + [""];
      assert parts[1..] == lines[1..] + [""];
      JoinUnlines(lines[1..]);
    }
  }

  lemma {:induction false} RunLinesAreUnlines(cmds: seq<string>)
    ensures RunLines(cmds) == Unlines(RunCommandLines(cmds))
    decreases |cmds|
  {
    if |cmds| > 0 {
      RunLinesAreUnlines(cmds[1..]);
      assert RunCommandLines(cmds)[1..] == RunCommandLines(cmds[1..]);
    }
  }

  lemma TailIsLines(a: Application)
    ensures Unlines(TailLines(a)) == (if a.entrypoint != "" then "\nENTRYPOINT " + a.entrypoint + "\n" else "")
  {
    if a.entrypoint != "" {
      assert Unlines(["ENTRYPOINT " + a.entrypoint]) == "ENTRYPOINT " + a.entrypoint + "\n";
    }
  }

  /** The generated text is exactly its lines, each ended by a newline. */
  lemma DockerfileIsLines(a: Application)
    ensures GenerateDockerfile(a) == Unlines(DockerfileLines(a))
  {
    RunLinesAreUnlines(a.runCommands);
    TailIsLines(a);
    UnlinesAppend(HeaderLines(a), RunCommandLines(a.runCommands));
    UnlinesAppend(HeaderLines(a) + RunCommandLines(a.runCommands), TailLines(a));
  }

  /** No field of the application contains a line break. */
  predicate SingleLineFields(a: Application) {
    && '\n' !in a.baseImage && '\n' !in a.branch && '\n' !in a.gitRepo && '\n' !in a.entrypoint
    && forall i :: 0 <= i < |a.runCommands| ==> '\n' !in a.runCommands[i]
  }

  /** Read back line by line, the Dockerfile of an application without
      line breaks in its fields is: the five header lines and a blank line,
      then `RUN <cmd>` for each command in order, then a blank line and the
      ENTRYPOINT line exactly when the entrypoint is set. */
  lemma DockerfileLineStructure(a: Application)
    requires SingleLineFields(a)
    ensures Split(GenerateDockerfile(a), '\n') == DockerfileLines(a) + [""]
    ensures var lines := Split(GenerateDockerfile(a), '\n');
            && |lines| == 7 + |a.runCommands| + (if a.entrypoint != "" then 2 else 0)
            && lines[0] == "FROM " + a.baseImage
            && lines[3] == "RUN git clone -b " + a.branch + " " + a.gitRepo + " /app"
            && (forall i :: 0 <= i < |a.runCommands| ==> lines[6 + i] == "RUN " + a.runCommands[i])
            && (a.entrypoint != "" ==> lines[|lines| - 2] == "ENTRYPOINT " + a.entrypoint)
  {
    DockerfileIsLines(a);
    LinesHaveNoBreaks(a);
    SplitUnlines(DockerfileLines(a));
  }

  predicate NoBreaks(lines: seq<string>) {
    forall i :: 0 <= i < |lines| ==> '\n' !in lines[i]
  }

  lemma NoBreaksAppend(x: seq<string>, y: seq<string>)
    requires NoBreaks(x) && NoBreaks(y)
    ensures NoBreaks(x + y)
  {
    forall i | 0 <= i < |x + y| ensures '\n' !in (x + y)[i] {
      if i >= |x| { assert (x + y)[i] == y[i - |x|]; }
    }
  }

  lemma LinesHaveNoBreaks(a: Application)
    requires SingleLineFields(a)
    ensures NoBreaks(DockerfileLines(a))
  {
    assert NoBreaks(HeaderLines(a)) by {
      assert '\n' !in CloneComment;
      assert '\n' !in "FROM " + a.baseImage;
      assert '\n' !in "RUN git clone -b " + a.branch + " " + a.gitRepo + " /app";
    }
    assert NoBreaks(RunCommandLines(a.runCommands)) by {
      forall i | 0 <= i < |a.runCommands| ensures '\n' !in "RUN " + a.runCommands[i] {
        assert '\n' !in a.runCommands[i];
      }
    }
    assert NoBreaks(TailLines(a)) by {
      assert '\n' !in "ENTRYPOINT " + a.entrypoint;
    }
    NoBreaksAppend(HeaderLines(a), RunCommandLines(a.runCommands));
    NoBreaksAppend(HeaderLines(a) + RunCommandLines(a.runCommands), TailLines(a));
  }

  // ---------------------------------------------------------------------
  // Users
  // ---------------------------------------------------------------------

  function LegacyUsername(u: LegacyUser): string { u.username }
  function LegacyEmail(u: LegacyUser): string { u.email }

  /** `User.query.filter_by(username=...).first()` */
  function FindByUsername(users: seq<LegacyUser>, name: string): Option<LegacyUser> {
    FindFirst(users, name, LegacyUsername)
  }

  ghost predicate UsernameTaken(users: seq<LegacyUser>, name: string) {
    exists i :: 0 <= i < |users| && users[i].username == name
  }

  ghost predicate EmailTaken(users: seq<LegacyUser>, email: string) {
    exists i :: 0 <= i < |users| && users[i].email == email
  }

  /** `login`: 401 unless the user exists and the password checks; 403 for
      a banned user with valid credentials; otherwise the user, with a
      login audit record. */
  function Login(db: LegacyDb, username: string, password: string, check: (string, string) -> bool): (r: Outcome<(LegacyDb, LegacyUser)>)
    ensures r == Fail(401) <==> FindByUsername(db.users, username).None? || !check(FindByUsername(db.users, username).value.passwordHash, password)
    ensures r == Fail(403) <==> FindByUsername(db.users, username).Some? && check(FindByUsername(db.users, username).value.passwordHash, password)
                                && FindByUsername(db.users, username).value.isBanned
    ensures r.Fail? ==> r.code in {401, 403}
    ensures r.Ok? ==> var (db', u) := r.value;
                      && u == FindByUsername(db.users, username).value && !u.isBanned
                      && db' == db.(audit := db.audit + [LegacyAudit(u.id, "login", "user", u.id, NoDetails)])
  {
    match FindByUsername(db.users, username)
    case None => Fail(401)
    case Some(u) =>
      if !check(u.passwordHash, password) then Fail(401)
      else if u.isBanned then Fail(403)
      else Ok((Log(db, u.id, "login", "user", u.id, NoDetails), u))
  }

  /** The insert shared by `register` and the admin `create_user`: 400 for
      a taken username. The email column is unique too but the routes do
      not look it up: a taken email fails at commit, which the server
      answers with 500 and no row. Otherwise a new unbanned user with a
      fresh id. */
  function AddUser(db: LegacyDb, username: string, email: string, passwordHash: string, role: string): (r: Outcome<(LegacyDb, int)>)
    ensures r == Fail(400) <==> UsernameTaken(db.users, username)
    ensures r == Fail(500) <==> !UsernameTaken(db.users, username) && EmailTaken(db.users, email)
    ensures r.Fail? ==> r.code in {400, 500}
    ensures r.Ok? ==> var (db', id) := r.value;
                      && (forall i :: 0 <= i < |db.users| ==>
                            db.users[i].id != id && db.users[i].username != username && db.users[i].email != email)
                      && db' == db.(users := db.users + [LegacyUser(id, username, email, passwordHash, role, false)])
  {
    if FindByUsername(db.users, username).Some? then Fail(400)
    else if FindFirst(db.users, email, LegacyEmail).Some? then Fail(500)
    else
      var id := NextKey(db.users, LegacyUserKey);
      Ok((db.(users := db.users + [LegacyUser(id, username, email, passwordHash, role, false)]), id))
  }

  ghost predicate DistinctUsernames(users: seq<LegacyUser>) {
    forall i, j :: 0 <= i < j < |users| ==> users[i].username != users[j].username
  }

  /** A name no earlier row carries is found at the appended row. */
  lemma {:induction false} FirstOfAppended(users: seq<LegacyUser>, u: LegacyUser, name: string)
    requires !UsernameTaken(users, name) && u.username == name
    ensures FindByUsername(users + [u], name) == Some(u)
  {
    if |users| > 0 {
      assert (users + [u])[1..] == users[1..] + [u];
      assert !UsernameTaken(users[1..], name) by {
        forall i | 0 <= i < |users[1..]| ensures users[1..][i].username != name {
          assert users[1..][i] == users[i + 1];
        }
      }
      FirstOfAppended(users[1..], u, name);
    }
  }

  /** `register`: always a developer. */
  function Register(db: LegacyDb, username: string, email: string, password: string, hash: string -> string): (r: Outcome<LegacyDb>)
    ensures r == Fail(400) <==> UsernameTaken(db.users, username)
    ensures r == Fail(500) <==> !UsernameTaken(db.users, username) && EmailTaken(db.users, email)
    ensures r.Fail? ==> r.code in {400, 500}
    ensures r.Ok? ==> && |r.value.users| == |db.users| + 1 && r.value.users[..|db.users|] == db.users
                      && var u := r.value.users[|db.users|];
                         && u.username == username && u.email == email && u.role == "developer" && !u.isBanned
                         && u.passwordHash == hash(password)
                         && r.value.audit == db.audit + [LegacyAudit(u.id, "register", "user", u.id, NoDetails)]
  {
    match AddUser(db, username, email, hash(password), "developer")
    case Fail(code) => Fail(code)
    case Ok((db', id)) =>
      assert db'.users[..|db.users|] == db.users;
      Ok(Log(db', id, "register", "user", id, NoDetails))
  }

  /** The admin `create_user`: the role is stored as given, unchecked. */
  function CreateLegacyUser(db: LegacyDb, adminId: int, username: string, email: string, password: string, role: string, hash: string -> string): (r: Outcome<LegacyDb>)
    ensures r == Fail(400) <==> UsernameTaken(db.users, username)
    ensures r == Fail(500) <==> !UsernameTaken(db.users, username) && EmailTaken(db.users, email)
    ensures r.Fail? ==> r.code in {400, 500}
    ensures r.Ok? ==> && |r.value.users| == |db.users| + 1 && r.value.users[..|db.users|] == db.users
                      && var u := r.value.users[|db.users|];
                         && u.username == username && u.email == email && u.role == role && !u.isBanned
                         && u.passwordHash == hash(password)
                         && r.value.audit == db.audit + [LegacyAudit(adminId, "create_user", "user", u.id, RoleDetails(role))]
  {
    match AddUser(db, username, email, hash(password), role)
    case Fail(code) => Fail(code)
    case Ok((db', id)) =>
      assert db'.users[..|db.users|] == db.users;
      Ok(Log(db', adminId, "create_user", "user", id, RoleDetails(role)))
  }

  ghost predicate DistinctEmails(users: seq<LegacyUser>) {
    forall i, j :: 0 <= i < j < |users| ==> users[i].email != users[j].email
  }

  /** Usernames and emails stay distinct however a user is added. */
  lemma NewUsersStayDistinct(db: LegacyDb, adminId: int, username: string, email: string, password: string, role: string, hash: string -> string)
    requires DistinctUsernames(db.users) && DistinctEmails(db.users)
    ensures Register(db, username, email, password, hash).Ok? ==>
              var users := Register(db, username, email, password, hash).value.users;
              DistinctUsernames(users) && DistinctEmails(users)
    ensures CreateLegacyUser(db, adminId, username, email, password, role, hash).Ok? ==>
              var users := CreateLegacyUser(db, adminId, username, email, password, role, hash).value.users;
              DistinctUsernames(users) && DistinctEmails(users)
  {
    var r1 := Register(db, username, email, password, hash);
    if r1.Ok? {
      assert r1.value.users == db.users + [r1.value.users[|db.users|]];
      FreshUserStaysDistinct(db.users, r1.value.users[|db.users|]);
    }
    var r2 := CreateLegacyUser(db, adminId, username, email, password, role, hash);
    if r2.Ok? {
      assert r2.value.users == db.users + [r2.value.users[|db.users|]];
      FreshUserStaysDistinct(db.users, r2.value.users[|db.users|]);
    }
  }

  lemma FreshUserStaysDistinct(users: seq<LegacyUser>, u: LegacyUser)
    requires DistinctUsernames(users) && DistinctEmails(users)
    requires !UsernameTaken(users, u.username) && !EmailTaken(users, u.email)
    ensures DistinctUsernames(users + [u]) && DistinctEmails(users + [u])
  {
  }

  /** A user the admin creates can log in at once with the password given,
      as long as the password checks against its own hash. */
  lemma CreatedUserCanLogIn(db: LegacyDb, adminId: int, username: string, email: string, password: string, role: string,
                            hash: string -> string, check: (string, string) -> bool)
    requires CreateLegacyUser(db, adminId, username, email, password, role, hash).Ok?
    requires check(hash(password), password)
    ensures var db' := CreateLegacyUser(db, adminId, username, email, password, role, hash).value;
            && Login(db', username, password, check).Ok?
            && Login(db', username, password, check).value.1 == db'.users[|db.users|]
  {
    var db' := CreateLegacyUser(db, adminId, username, email, password, role, hash).value;
    assert db'.users == db.users + [db'.users[|db.users|]];
    FirstOfAppended(db.users, db'.users[|db.users|], username);
  }

  /** `ban_user` and `unban_user`: 404 for a missing user; otherwise the
      ban flag of that user is set, by anyone who calls. */
  function SetBanned(db: LegacyDb, userId: int, banned: bool, adminId: int): (r: Outcome<LegacyDb>)
    ensures r.Fail? <==> Find(db.users, userId, LegacyUserKey).None?
    ensures r.Fail? ==> r.code == 404
    ensures r.Ok? ==>
              var k := Find(db.users, userId, LegacyUserKey).value;
              && r.value.applications == db.applications && r.value.images == db.images && r.value.deployments == db.deployments
              && |r.value.users| == |db.users|
              && (forall j :: 0 <= j < |db.users| ==>
                    r.value.users[j] == if j == k then db.users[k].(isBanned := banned) else db.users[j])
              && r.value.audit == db.audit + [LegacyAudit(adminId, if banned then "ban_user" else "unban_user", "user", userId, NoDetails)]
  {
    match Find(db.users, userId, LegacyUserKey)
    case None => Fail(404)
    case Some(k) =>
      Ok(Log(db.(users := db.users[k := db.users[k].(isBanned := banned)]), adminId,
             if banned then "ban_user" else "unban_user", "user", userId, NoDetails))
  }


  /** Once banned, a user cannot log in: whatever the password, login
      answers 401 or 403. */
  lemma BannedUserCannotLogIn(db: LegacyDb, userId: int, adminId: int, password: string, check: (string, string) -> bool)
    requires DistinctUsernames(db.users)
    requires SetBanned(db, userId, true, adminId).Ok?
    ensures var db' := SetBanned(db, userId, true, adminId).value;
            var k := Find(db.users, userId, LegacyUserKey).value;
            Login(db', db.users[k].username, password, check).Fail?
  {
    var db' := SetBanned(db, userId, true, adminId).value;
    var k := Find(db.users, userId, LegacyUserKey).value;
    var name := db.users[k].username;
    assert db'.users[k].username == name;
    var found := FindByUsername(db'.users, name);
    assert found.Some?;
    var j :| 0 <= j < |db'.users| && db'.users[j] == found.value;
    assert j == k;
  }

  // ---------------------------------------------------------------------
  // Applications and images
  // ---------------------------------------------------------------------

  /** The JSON body of `create_application`; the optional keys are `None`
      when absent. */
  datatype ApplicationInput = ApplicationInput(
    developerId: int, gitRepo: string, branch: string, baseImage: string,
    imageName: Option<string>, runCommands: Option<seq<string>>, entrypoint: Option<string>)

  /** `create_application`: missing keys get their defaults and the
      application starts pending, with no operator. */
  function CreateApplication(db: LegacyDb, input: ApplicationInput): (r: (LegacyDb, int))
    ensures var (db', id) := r;
            && (forall i :: 0 <= i < |db.applications| ==> db.applications[i].id != id)
            && |db'.applications| == |db.applications| + 1 && db'.applications[..|db.applications|] == db.applications
            && var a := db'.applications[|db.applications|];
               && a.id == id && a.developerId == input.developerId && a.gitRepo == input.gitRepo
               && a.branch == input.branch && a.baseImage == input.baseImage
               && a.imageName == (if input.imageName.Some? then input.imageName.value else "app-" + IntToString(input.developerId))
               && a.runCommands == (if input.runCommands.Some? then input.runCommands.value else [])
               && a.entrypoint == (if input.entrypoint.Some? then input.entrypoint.value else "")
               && a.status == Pending && a.operatorId.None?
               && db' == db.(applications := db'.applications,
                             audit := db.audit + [LegacyAudit(input.developerId, "create_application", "application", id,
                                                              RepoDetails(input.gitRepo, input.branch))])
  {
    var id := NextKey(db.applications, ApplicationKey);
    var a := Application(id, input.developerId, input.gitRepo, input.branch, input.baseImage,
                         input.imageName.GetOr("app-" + IntToString(input.developerId)),
                         input.runCommands.GetOr([]), input.entrypoint.GetOr(""), Pending, None);
    var apps := db.applications + [a];
    assert apps[..|db.applications|] == db.applications;
    (Log(db.(applications := apps), input.developerId, "create_application", "application", id,
         RepoDetails(input.gitRepo, input.branch)), id)
  }

  /** `approve_application`: 404 for a missing application; otherwise it is
      approved by the operator and exactly one ready image tagged "latest"
      is created with the generated Dockerfile. */
  function Approve(db: LegacyDb, appId: int, operatorId: int): (r: Outcome<(LegacyDb, int)>)
    ensures r.Fail? <==> Find(db.applications, appId, ApplicationKey).None?
    ensures r.Fail? ==> r.code == 404
    ensures r.Ok? ==>
              var (db', imageId) := r.value;
              var k := Find(db.applications, appId, ApplicationKey).value;
              var a := db.applications[k];
              && db'.users == db.users && db'.deployments == db.deployments
              && |db'.applications| == |db.applications|
              && (forall j :: 0 <= j < |db.applications| ==>
                    db'.applications[j] == if j == k then a.(status := AppApproved, operatorId := Some(operatorId))
                                           else db.applications[j])
              && (forall i :: 0 <= i < |db.images| ==> db.images[i].id != imageId)
              && db'.images == db.images + [LegacyImage(imageId, appId, a.imageName, "latest", GenerateDockerfile(a), ImageReady)]
              && db'.audit == db.audit + [LegacyAudit(operatorId, "approve_application", "application", appId, NoDetails)]
  {
    match Find(db.applications, appId, ApplicationKey)
    case None => Fail(404)
    case Some(k) =>
      var a := db.applications[k].(status := AppApproved, operatorId := Some(operatorId));
      var imageId := NextKey(db.images, LegacyImageKey);
      var image := LegacyImage(imageId, a.id, a.imageName, "latest", GenerateDockerfile(a), ImageReady);
      var db' := db.(applications := db.applications[k := a], images := db.images + [image]);
      Ok((Log(db', operatorId, "approve_application", "application", appId, NoDetails), imageId))
  }

  /** `reject_application`: 404 for a missing application; otherwise it is
      rejected by the operator and no image is made. */
  function Reject(db: LegacyDb, appId: int, operatorId: int): (r: Outcome<LegacyDb>)
    ensures r.Fail? <==> Find(db.applications, appId, ApplicationKey).None?
    ensures r.Fail? ==> r.code == 404
    ensures r.Ok? ==>
              var k := Find(db.applications, appId, ApplicationKey).value;
              && r.value.users == db.users && r.value.images == db.images && r.value.deployments == db.deployments
              && |r.value.applications| == |db.applications|
              && (forall j :: 0 <= j < |db.applications| ==>
                    r.value.applications[j] == if j == k then db.applications[k].(status := AppRejected, operatorId := Some(operatorId))
                                               else db.applications[j])
              && r.value.audit == db.audit + [LegacyAudit(operatorId, "reject_application", "application", appId, NoDetails)]
  {
    match Find(db.applications, appId, ApplicationKey)
    case None => Fail(404)
    case Some(k) =>
      var a := db.applications[k].(status := AppRejected, operatorId := Some(operatorId));
      Ok(Log(db.(applications := db.applications[k := a]), operatorId, "reject_application", "application", appId, NoDetails))
  }

  /** `rebuild_image`: 404 for a missing image; 500 when its application
      row is gone (the route dereferences it); otherwise the image gets the
      Dockerfile of the application as it is now and ends up ready. */
  function Rebuild(db: LegacyDb, imageId: int, operatorId: int): (r: Outcome<LegacyDb>)
    ensures r == Fail(404) <==> Find(db.images, imageId, LegacyImageKey).None?
    ensures r == Fail(500) <==> (Find(db.images, imageId, LegacyImageKey).Some? &&
                               Find(db.applications, db.images[Find(db.images, imageId, LegacyImageKey).value].applicationId, ApplicationKey).None?)
    ensures r.Fail? ==> r.code in {404, 500}
    ensures r.Ok? ==>
              var k := Find(db.images, imageId, LegacyImageKey).value;
              var a := db.applications[Find(db.applications, db.images[k].applicationId, ApplicationKey).value];
              && r.value.users == db.users && r.value.applications == db.applications && r.value.deployments == db.deployments
              && |r.value.images| == |db.images|
              && (forall j :: 0 <= j < |db.images| ==>
                    r.value.images[j] == if j == k then db.images[k].(dockerfile := GenerateDockerfile(a), status := ImageReady)
                                         else db.images[j])
              && r.value.audit == db.audit + [LegacyAudit(operatorId, "rebuild_image", "image", imageId, NoDetails)]
  {
    match Find(db.images, imageId, LegacyImageKey)
    case None => Fail(404)
    case Some(k) =>
      var image := db.images[k];
      match Find(db.applications, image.applicationId, ApplicationKey)
      case None => Fail(500)
      case Some(j) =>
        var building := image.(dockerfile := GenerateDockerfile(db.applications[j]), status := ImageBuilding);
        var db' := Log(db.(images := db.images[k := building]), operatorId, "rebuild_image", "image", imageId, NoDetails);
        Ok(db'.(images := db'.images[k := building.(status := ImageReady)]))
  }

  /** Rebuilding twice leaves the images as rebuilding once does. */
  lemma RebuildIsIdempotent(db: LegacyDb, imageId: int, operatorId: int)
    requires Rebuild(db, imageId, operatorId).Ok?
    ensures var db1 := Rebuild(db, imageId, operatorId).value;
            Rebuild(db1, imageId, operatorId).Ok? && Rebuild(db1, imageId, operatorId).value.images == db1.images
  {
    var db1 := Rebuild(db, imageId, operatorId).value;
    FindSameKeys(db.images, db1.images, imageId, LegacyImageKey);
  }

  /** Approving and then rebuilding the new image leaves its Dockerfile
      unchanged: both generate it from the same application. */
  lemma ApproveThenRebuild(db: LegacyDb, appId: int, operatorId: int)
    requires UniqueKeys(db.applications, ApplicationKey)
    requires Approve(db, appId, operatorId).Ok?
    ensures var (db1, imageId) := Approve(db, appId, operatorId).value;
            && Rebuild(db1, imageId, operatorId).Ok?
            && Rebuild(db1, imageId, operatorId).value.images == db1.images
  {
    var (db1, imageId) := Approve(db, appId, operatorId).value;
    var n := |db.images|;
    assert db1.images[n].id == imageId;
    FindFirstKey(db1.images, imageId, LegacyImageKey, n);
    var k := Find(db.applications, appId, ApplicationKey).value;
    FindSameKeys(db.applications, db1.applications, appId, ApplicationKey);
    assert db1.images[n].applicationId == appId;
  }

  /** Rejecting does not close the application: approval does not look at
      the status, so a rejected application can still be approved, which
      makes its image. */
  lemma RejectedCanBeApproved(db: LegacyDb, appId: int, operatorId: int, approverId: int)
    requires Reject(db, appId, operatorId).Ok?
    ensures var k := Find(db.applications, appId, ApplicationKey).value;
            var db1 := Reject(db, appId, operatorId).value;
            && db1.applications[k].status == AppRejected
            && Approve(db1, appId, approverId).Ok?
            && var (db2, imageId) := Approve(db1, appId, approverId).value;
               && db2.applications[k].status == AppApproved && db2.applications[k].operatorId == Some(approverId)
               && db2.images == db.images + [db2.images[|db.images|]]
               && db2.images[|db.images|].id == imageId && db2.images[|db.images|].applicationId == appId
  {
    var db1 := Reject(db, appId, operatorId).value;
    FindSameKeys(db.applications, db1.applications, appId, ApplicationKey);
  }

  /** No field of the submitted application contains a line break. */
  predicate SingleLineInput(input: ApplicationInput) {
    && '\n' !in input.baseImage && '\n' !in input.branch && '\n' !in input.gitRepo
    && '\n' !in input.entrypoint.GetOr("")
    && forall i :: 0 <= i < |input.runCommands.GetOr([])| ==> '\n' !in input.runCommands.GetOr([])[i]
  }

  /** A submitted application can be approved at once, and the image it
      gets is built from what was submitted: read line by line, its
      Dockerfile starts from the base image and runs the submitted commands
      in order. */
  lemma SubmittedApplicationBuildsItsCommands(db: LegacyDb, input: ApplicationInput, operatorId: int)
    requires SingleLineInput(input)
    ensures var (db1, id) := CreateApplication(db, input);
            var cmds := input.runCommands.GetOr([]);
            && Approve(db1, id, operatorId).Ok?
            && var (db2, imageId) := Approve(db1, id, operatorId).value;
               var image := db2.images[|db.images|];
               var lines := Split(image.dockerfile, '\n');
               && image.id == imageId && image.applicationId == id
               && |lines| == 7 + |cmds| + (if input.entrypoint.GetOr("") != "" then 2 else 0)
               && lines[0] == "FROM " + input.baseImage
               && lines[3] == "RUN git clone -b " + input.branch + " " + input.gitRepo + " /app"
               && (forall i :: 0 <= i < |cmds| ==> lines[6 + i] == "RUN " + cmds[i])
  {
    var (db1, id) := CreateApplication(db, input);
    var n := |db.applications|;
    FindFirstKey(db1.applications, id, ApplicationKey, n);
    var a := db1.applications[n].(status := AppApproved, operatorId := Some(operatorId));
    assert SingleLineFields(a);
    DockerfileLineStructure(a);
  }

  // ---------------------------------------------------------------------
  // Deployments
  // ---------------------------------------------------------------------

  /** Start, stop and restart: 404 for a missing deployment; otherwise the
      status is set, whoever calls, and the audit record is attributed to
      the deployment's requester. */
  function SetDeploymentStatus(db: LegacyDb, id: int, status: LegacyDeploymentStatus, action: string): (r: Outcome<LegacyDb>)
    ensures r.Fail? <==> Find(db.deployments, id, LegacyDeploymentKey).None?
    ensures r.Fail? ==> r.code == 404
    ensures r.Ok? ==>
              var k := Find(db.deployments, id, LegacyDeploymentKey).value;
              && r.value.users == db.users && r.value.applications == db.applications && r.value.images == db.images
              && |r.value.deployments| == |db.deployments|
              && (forall j :: 0 <= j < |db.deployments| ==>
                    r.value.deployments[j] == if j == k then db.deployments[k].(status := status) else db.deployments[j])
              && r.value.audit == db.audit + [LegacyAudit(db.deployments[k].requestedBy, action, "deployment", id, NoDetails)]
  {
    match Find(db.deployments, id, LegacyDeploymentKey)
    case None => Fail(404)
    case Some(k) =>
      var d := db.deployments[k];
      Ok(Log(db.(deployments := db.deployments[k := d.(status := status)]), d.requestedBy, action, "deployment", id, NoDetails))
  }

  function StartDeployment(db: LegacyDb, id: int): (r: Outcome<LegacyDb>)
    ensures r.Fail? <==> Find(db.deployments, id, LegacyDeploymentKey).None?
    ensures r.Ok? ==> var k := Find(db.deployments, id, LegacyDeploymentKey).value;
                      |r.value.deployments| == |db.deployments| && r.value.deployments[k].status == Running
  {
    SetDeploymentStatus(db, id, Running, "start_deployment")
  }

  function StopDeployment(db: LegacyDb, id: int): (r: Outcome<LegacyDb>)
    ensures r.Fail? <==> Find(db.deployments, id, LegacyDeploymentKey).None?
    ensures r.Ok? ==> var k := Find(db.deployments, id, LegacyDeploymentKey).value;
                      |r.value.deployments| == |db.deployments| && r.value.deployments[k].status == Stopped
  {
    SetDeploymentStatus(db, id, Stopped, "stop_deployment")
  }

  /** `restart_deployment` does what start does; only its audit action
      differs. */
  function RestartDeployment(db: LegacyDb, id: int): (r: Outcome<LegacyDb>)
    ensures r.Fail? <==> Find(db.deployments, id, LegacyDeploymentKey).None?
    ensures r.Ok? ==> var k := Find(db.deployments, id, LegacyDeploymentKey).value;
                      |r.value.deployments| == |db.deployments| && r.value.deployments[k].status == Running
    ensures r.Fail? <==> StartDeployment(db, id).Fail?
    ensures r.Ok? ==> var s := StartDeployment(db, id).value;
                      && r.value == s.(audit := r.value.audit)
                      && |r.value.audit| == |s.audit| == |db.audit| + 1
                      && r.value.audit[..|db.audit|] == s.audit[..|db.audit|]
                      && r.value.audit[|db.audit|] == s.audit[|db.audit|].(action := "restart_deployment")
  {
    SetDeploymentStatus(db, id, Running, "restart_deployment")
  }

  /** Stopping after starting gives the deployments table stopping alone
      gives: each call only writes the status. */
  lemma StopAfterStart(db: LegacyDb, id: int)
    requires StartDeployment(db, id).Ok?
    ensures StopDeployment(StartDeployment(db, id).value, id).Ok?
    ensures StopDeployment(StartDeployment(db, id).value, id).value.deployments == StopDeployment(db, id).value.deployments
  {
    var db1 := StartDeployment(db, id).value;
    FindSameKeys(db.deployments, db1.deployments, id, LegacyDeploymentKey);
  }
}
