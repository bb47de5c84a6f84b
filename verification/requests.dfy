/** The image-request workflow (`samosval/routes/request_routes.py`): form
    normalisation and validation, creation as a draft, the detail and edit
    pages, draft -> submitted, the staff status override and build
    enqueueing. A request that does not exist is answered like one the user
    may not see: 403. */
module RequestRoutes {
  import opened Common
  import opened Records
  import opened Access

  // ---------------------------------------------------------------------
  // Form normalisation
  // ---------------------------------------------------------------------

  /** The submitted form, field by field; `None` when the field is absent.
      The two numeric fields arrive converted, `None` standing for an absent
      or empty field. */
  datatype RequestForm = RequestForm(
    imageName: Option<string>,
    repoUrl: Option<string>,
    repoBranch: Option<string>,
    updateMode: Option<string>,
    targetCommit: Option<string>,
    baseImage: Option<string>,
    runCommands: Option<string>,
    entrypoint: Option<string>,
    ramMb: Option<int>,
    vcpu: Option<real>,
    versionTag: Option<string>,
    collaborators: Option<string>,
    ownerLogin: Option<string>)

  /** The normalised form `_parse_request_form` returns. */
  datatype RequestData = RequestData(
    imageName: string,
    repoUrl: string,
    repoBranch: string,
    updateMode: string,
    targetCommit: Option<string>,
    baseImage: string,
    runCommands: Option<string>,
    entrypoint: Option<string>,
    ramMb: int,
    vcpu: real,
    versionTag: string,
    collaborators: Option<string>,
    ownerLogin: string)

  /** `form.get(name, "").strip()` */
  function Text(field: Option<string>): (t: string)
    ensures Trimmed(t)
  {
    Strip(field.GetOr(""))
  }

  /** `form.get(name, "").strip() or None` */
  function TextOrNone(field: Option<string>): (o: Option<string>)
    ensures CleanOptional(o)
  {
    if Text(field) == "" then None else Some(Text(field))
  }

  /** `form.get("repo_branch", "main").strip() or "main"` */
  function Branch(field: Option<string>): (b: string)
    ensures Trimmed(b) && b != ""
    ensures Text(field) == "" ==> b == "main"
  {
    var b := Strip(field.GetOr("main"));
    assert Strip("main") == "main" by {
      assert Trimmed("main") && AllSpace("");
      StripPadding("", "main", "");
      assert "" + "main" + "" == "main";
    }
    if b == "" then "main" else b
  }

  /** An optional text field is absent or non-blank and stripped. */
  predicate CleanOptional(o: Option<string>) {
    o.Some? ==> o.value != "" && Trimmed(o.value)
  }

  /** An optional field read back: `None` when the stripped text is blank,
      else the stripped text. */
  predicate StrippedOrNone(o: Option<string>, field: Option<string>) {
    && (o.None? <==> Text(field) == "")
    && (o.Some? ==> o.value == Text(field))
  }

  /** The shape every parsed form has. */
  predicate Normalised(d: RequestData) {
    && Trimmed(d.imageName) && Trimmed(d.repoUrl) && Trimmed(d.baseImage)
    && Trimmed(d.versionTag) && Trimmed(d.ownerLogin)
    && Trimmed(d.repoBranch) && d.repoBranch != ""
    && CleanOptional(d.targetCommit) && CleanOptional(d.runCommands)
    && CleanOptional(d.entrypoint) && CleanOptional(d.collaborators)
  }

  /** `_parse_request_form`: text stripped, blank branch -> "main", mode
      taken as sent (default "static"), blank optional fields -> None,
      missing numbers -> 0. */
  function ParseRequestForm(f: RequestForm): (d: RequestData)
    ensures Normalised(d)
    ensures d.imageName == Text(f.imageName) && d.repoUrl == Text(f.repoUrl) && d.baseImage == Text(f.baseImage)
    ensures d.versionTag == Text(f.versionTag) && d.ownerLogin == Text(f.ownerLogin)
    ensures Text(f.repoBranch) == "" ==> d.repoBranch == "main"
    ensures Text(f.repoBranch) != "" ==> d.repoBranch == Text(f.repoBranch)
    ensures f.updateMode.None? ==> d.updateMode == "static"
    ensures f.updateMode.Some? ==> d.updateMode == f.updateMode.value
    ensures StrippedOrNone(d.targetCommit, f.targetCommit) && StrippedOrNone(d.runCommands, f.runCommands)
    ensures StrippedOrNone(d.entrypoint, f.entrypoint) && StrippedOrNone(d.collaborators, f.collaborators)
    ensures f.ramMb.None? ==> d.ramMb == 0
    ensures f.ramMb.Some? ==> d.ramMb == f.ramMb.value
    ensures f.vcpu.None? ==> d.vcpu == 0.0
    ensures f.vcpu.Some? ==> d.vcpu == f.vcpu.value
  {
    RequestData(
      Text(f.imageName),
      Text(f.repoUrl),
      Branch(f.repoBranch),
      f.updateMode.GetOr("static"),
      TextOrNone(f.targetCommit),
      Text(f.baseImage),
      TextOrNone(f.runCommands),
      TextOrNone(f.entrypoint),
      f.ramMb.GetOr(0),
      f.vcpu.GetOr(0.0),
      Text(f.versionTag),
      TextOrNone(f.collaborators),
      Text(f.ownerLogin))
  }

  /** A form carrying `d` back, every text field wrapped in the whitespace
      `w1` before and `w2` after; an absent optional field is sent as the
      padding alone. The update mode is sent as is. */
  function RenderForm(d: RequestData, w1: string, w2: string): RequestForm {
    RequestForm(
      Some(w1 + d.imageName + w2),
      Some(w1 + d.repoUrl + w2),
      Some(w1 + d.repoBranch + w2),
      Some(d.updateMode),
      Some(w1 + d.targetCommit.GetOr("") + w2),
      Some(w1 + d.baseImage + w2),
      Some(w1 + d.runCommands.GetOr("") + w2),
      Some(w1 + d.entrypoint.GetOr("") + w2),
      Some(d.ramMb),
      Some(d.vcpu),
      Some(w1 + d.versionTag + w2),
      Some(w1 + d.collaborators.GetOr("") + w2),
      Some(w1 + d.ownerLogin + w2))
  }

  lemma TextOfPadded(w1: string, t: string, w2: string)
    requires AllSpace(w1) && AllSpace(w2) && Trimmed(t)
    ensures Text(Some(w1 + t + w2)) == t
  {
    StripPadding(w1, t, w2);
  }

  lemma OptionalOfPadded(w1: string, o: Option<string>, w2: string)
    requires AllSpace(w1) && AllSpace(w2) && CleanOptional(o)
    ensures TextOrNone(Some(w1 + o.GetOr("") + w2)) == o
  {
    if o.Some? {
      StripPadding(w1, o.value, w2);
    } else {
      assert Trimmed("");
      StripPadding(w1, "", w2);
    }
  }

  /** Parsing ignores whitespace around every text field, and a normalised
      form sent back unchanged parses to itself. */
  lemma ParseRenderedForm(d: RequestData, w1: string, w2: string)
    requires Normalised(d) && AllSpace(w1) && AllSpace(w2)
    ensures ParseRequestForm(RenderForm(d, w1, w2)) == d
  {
    var f := RenderForm(d, w1, w2);
    TextOfPadded(w1, d.imageName, w2);
    TextOfPadded(w1, d.repoUrl, w2);
    TextOfPadded(w1, d.repoBranch, w2);
    TextOfPadded(w1, d.baseImage, w2);
    TextOfPadded(w1, d.versionTag, w2);
    TextOfPadded(w1, d.ownerLogin, w2);
    OptionalOfPadded(w1, d.targetCommit, w2);
    OptionalOfPadded(w1, d.runCommands, w2);
    OptionalOfPadded(w1, d.entrypoint, w2);
    OptionalOfPadded(w1, d.collaborators, w2);
    assert Branch(f.repoBranch) == d.repoBranch;
  }

  /** Normalisation is idempotent. */
  lemma ParseIsIdempotent(f: RequestForm)
    ensures ParseRequestForm(RenderForm(ParseRequestForm(f), "", "")) == ParseRequestForm(f)
  {
    ParseRenderedForm(ParseRequestForm(f), "", "");
  }

  // ---------------------------------------------------------------------
  // Validation
  // ---------------------------------------------------------------------

  /** The messages `_validate_request_form` and the owner lookup produce. */
  datatype FormError =
    | MissingImageName
    | MissingRepoUrl
    | MissingBaseImage
    | MissingVersionTag
    | NonPositiveResources
    | StaticWithoutCommit
    | MissingOwner
    | OwnerNotDeveloper

  /** The position of each check in the order the route runs them. */
  function Rank(e: FormError): nat {
    match e
    case MissingImageName => 0
    case MissingRepoUrl => 1
    case MissingBaseImage => 2
    case MissingVersionTag => 3
    case NonPositiveResources => 4
    case StaticWithoutCommit => 5
    case MissingOwner => 6
    case OwnerNotDeveloper => 7
  }

  /** Whether the form check reporting `e` fails; the owner check is not a
      form check. */
  predicate FieldCheckFails(d: RequestData, e: FormError) {
    match e
    case MissingImageName => d.imageName == ""
    case MissingRepoUrl => d.repoUrl == ""
    case MissingBaseImage => d.baseImage == ""
    case MissingVersionTag => d.versionTag == ""
    case NonPositiveResources => d.ramMb <= 0 || d.vcpu <= 0.0
    case StaticWithoutCommit => d.updateMode == "static" && (d.targetCommit.None? || d.targetCommit.value == "")
    case MissingOwner => d.ownerLogin == ""
    case OwnerNotDeveloper => false
  }

  /** The owner named on the form is an existing developer (first user
      with that username). */
  predicate OwnerIsDeveloper(users: seq<User>, login: string) {
    match FindUserByName(users, login)
    case Some(u) => u.role == Developer
    case None => false
  }

  /** Whether the check reporting `e` fails, the owner lookup included. */
  predicate CheckFails(users: seq<User>, d: RequestData, e: FormError) {
    if e == OwnerNotDeveloper then d.ownerLogin != "" && !OwnerIsDeveloper(users, d.ownerLogin)
    else FieldCheckFails(d, e)
  }

  /** Each error at most once, in the order the checks run. */
  predicate InCheckOrder(errs: seq<FormError>) {
    forall i, j :: 0 <= i < j < |errs| ==> Rank(errs[i]) < Rank(errs[j])
  }

  /** The form checks in the order `_validate_request_form` runs them. */
  const FormChecks: seq<FormError> := [
    MissingImageName, MissingRepoUrl, MissingBaseImage, MissingVersionTag,
    NonPositiveResources, StaticWithoutCommit, MissingOwner]

  /** The failing form checks, as a filter predicate. */
  function Failing(d: RequestData): FormError -> bool {
    (e: FormError) => FieldCheckFails(d, e)
  }

  /** `_validate_request_form`: one error per failed check, in check order. */
  function ValidateRequestForm(d: RequestData): (errs: seq<FormError>)
    ensures forall e :: e in errs <==> FieldCheckFails(d, e)
    ensures InCheckOrder(errs)
    ensures errs == [] <==>
              && d.imageName != "" && d.repoUrl != "" && d.baseImage != "" && d.versionTag != ""
              && d.ramMb > 0 && d.vcpu > 0.0
              && (d.updateMode == "static" ==> d.targetCommit.Some? && d.targetCommit.value != "")
              && d.ownerLogin != ""
  {
    var errs := Filter(FormChecks, Failing(d));
    FormErrorsMembers(d);
    FormErrorsOrdered(d);
    EmptyIffNoMembers(errs);
    NoFieldErrorIff(d);
    errs
  }

  /** Every form check is on the list. */
  lemma FormCheckListed(e: FormError)
    ensures e != OwnerNotDeveloper ==> e in FormChecks
  {
    var c := FormChecks;
    match e
    case MissingImageName => assert c[0] == e;
    case MissingRepoUrl => assert c[1] == e;
    case MissingBaseImage => assert c[2] == e;
    case MissingVersionTag => assert c[3] == e;
    case NonPositiveResources => assert c[4] == e;
    case StaticWithoutCommit => assert c[5] == e;
    case MissingOwner => assert c[6] == e;
    case OwnerNotDeveloper =>
  }

  lemma FormErrorsMembers(d: RequestData)
    ensures forall e :: e in Filter(FormChecks, Failing(d)) <==> FieldCheckFails(d, e)
  {
    forall e ensures e in Filter(FormChecks, Failing(d)) <==> FieldCheckFails(d, e) {
      FilterMember(FormChecks, Failing(d), e);
      FormCheckListed(e);
    }
  }

  lemma FormErrorsOrdered(d: RequestData)
    ensures InCheckOrder(Filter(FormChecks, Failing(d)))
  {
    FilterSpec(FormChecks, Failing(d));
    FormChecksInOrder();
    OrderedSubsequence(Filter(FormChecks, Failing(d)), FormChecks);
  }

  /** No form check fails iff every field condition holds. */
  lemma NoFieldErrorIff(d: RequestData)
    ensures (forall e :: !FieldCheckFails(d, e)) <==>
              && d.imageName != "" && d.repoUrl != "" && d.baseImage != "" && d.versionTag != ""
              && d.ramMb > 0 && d.vcpu > 0.0
              && (d.updateMode == "static" ==> d.targetCommit.Some? && d.targetCommit.value != "")
              && d.ownerLogin != ""
  {
    if forall e :: !FieldCheckFails(d, e) {
      assert !FieldCheckFails(d, MissingImageName) && !FieldCheckFails(d, MissingRepoUrl);
      assert !FieldCheckFails(d, MissingBaseImage) && !FieldCheckFails(d, MissingVersionTag);
      assert !FieldCheckFails(d, NonPositiveResources) && !FieldCheckFails(d, StaticWithoutCommit);
      assert !FieldCheckFails(d, MissingOwner);
    }
  }

  /** The errors `create_request` and `edit_request` report: the form
      errors, then the owner error when a named owner is not a developer. */
  function CheckRequestForm(users: seq<User>, d: RequestData): (errs: seq<FormError>)
    ensures forall e :: e in errs <==> CheckFails(users, d, e)
    ensures InCheckOrder(errs)
    ensures errs == [] <==> ValidateRequestForm(d) == [] && OwnerIsDeveloper(users, d.ownerLogin)
  {
    var form := ValidateRequestForm(d);
    if d.ownerLogin != "" && !OwnerIsDeveloper(users, d.ownerLogin) then
      OwnerErrorComesLast(form);
      form + [OwnerNotDeveloper]
    else form
  }

  /** The owner error ranks after every form error. */
  lemma OwnerErrorComesLast(form: seq<FormError>)
    requires InCheckOrder(form) && OwnerNotDeveloper !in form
    ensures InCheckOrder(form + [OwnerNotDeveloper])
  {
    forall i | 0 <= i < |form| ensures Rank(form[i]) < Rank(OwnerNotDeveloper) {
      assert form[i] in form;
    }
    AppendLastRank(form, OwnerNotDeveloper);
  }

  lemma AppendLastRank(s: seq<FormError>, x: FormError)
    requires InCheckOrder(s)
    requires forall i :: 0 <= i < |s| ==> Rank(s[i]) < Rank(x)
    ensures InCheckOrder(s + [x])
  {
    var t := s + [x];
    forall i, j | 0 <= i < j < |t| ensures Rank(t[i]) < Rank(t[j]) {
      assert t[i] == s[i];
    }
  }

  /** The check list is in rank order: position i holds the check of rank i. */
  lemma FormChecksInOrder()
    ensures InCheckOrder(FormChecks)
  {
    var c := FormChecks;
    assert Rank(c[0]) == 0 && Rank(c[1]) == 1 && Rank(c[2]) == 2 && Rank(c[3]) == 3;
    assert Rank(c[4]) == 4 && Rank(c[5]) == 5 && Rank(c[6]) == 6;
    assert forall i :: 0 <= i < |c| ==> Rank(c[i]) == i;
  }

  /** Deleting entries from an ordered list leaves it ordered. */
  lemma {:induction false} OrderedSubsequence(a: seq<FormError>, b: seq<FormError>)
    requires IsSubsequence(a, b) && InCheckOrder(b)
    ensures InCheckOrder(a)
    decreases |b|
  {
    if |a| > 0 && |b| > 0 {
      assert InCheckOrder(b[1..]) by {
        forall i, j | 0 <= i < j < |b[1..]| ensures Rank(b[1..][i]) < Rank(b[1..][j]) {
          assert b[1..][i] == b[i + 1] && b[1..][j] == b[j + 1];
        }
      }
      if a[0] == b[0] && IsSubsequence(a[1..], b[1..]) {
        OrderedSubsequence(a[1..], b[1..]);
        forall j | 1 <= j < |a| ensures Rank(a[0]) < Rank(a[j]) {
          SubsequenceMember(a[1..], b[1..], j - 1);
          var k :| 0 <= k < |b[1..]| && b[1..][k] == a[1..][j - 1];
          assert b[k + 1] == a[j];
        }
        forall i, j | 0 <= i < j < |a| ensures Rank(a[i]) < Rank(a[j]) {
          if i > 0 {
            assert a[i] == a[1..][i - 1] && a[j] == a[1..][j - 1];
          }
        }
      } else {
        OrderedSubsequence(a, b[1..]);
      }
    }
  }

  /** Every entry of a subsequence is an entry of the longer list. */
  lemma {:induction false} SubsequenceMember(a: seq<FormError>, b: seq<FormError>, i: nat)
    requires IsSubsequence(a, b) && i < |a|
    ensures a[i] in b
    decreases |b|
  {
    if |b| > 0 {
      if a[0] == b[0] && IsSubsequence(a[1..], b[1..]) {
        if i > 0 {
          SubsequenceMember(a[1..], b[1..], i - 1);
        }
      } else {
        SubsequenceMember(a, b[1..], i);
      }
    }
  }

  /** Two error lists in check order with the same members are equal: the
      report is determined by which checks fail. */
  lemma {:induction false} CheckOrderDetermines(a: seq<FormError>, b: seq<FormError>)
    requires InCheckOrder(a) && InCheckOrder(b)
    requires forall e :: e in a <==> e in b
    ensures a == b
    decreases |a|
  {
    if |a| == 0 || |b| == 0 {
      EmptyIffNoMembers(a);
      EmptyIffNoMembers(b);
    } else {
      HeadIsLeast(b, a[0]);
      HeadIsLeast(a, b[0]);
      RankInjective(a[0], b[0]);
      forall e ensures e in a[1..] <==> e in b[1..] {
        NotHeadOfOrdered(a, e);
        NotHeadOfOrdered(b, e);
      }
      CheckOrderDetermines(a[1..], b[1..]);
      assert a == [a[0]] + a[1..] && b == [b[0]] + b[1..];
    }
  }

  lemma EmptyIffNoMembers(s: seq<FormError>)
    ensures s == [] <==> forall e :: e !in s
  {
    if s != [] {
      assert s[0] in s;
    }
  }

  /** The head of an ordered list has the smallest rank in it. */
  lemma HeadIsLeast(s: seq<FormError>, x: FormError)
    requires InCheckOrder(s) && x in s
    ensures |s| > 0 && Rank(s[0]) <= Rank(x)
  {
    var k :| 0 <= k < |s| && s[k] == x;
    if k > 0 {
      assert Rank(s[0]) < Rank(s[k]);
    }
  }

  lemma RankInjective(x: FormError, y: FormError)
    requires Rank(x) == Rank(y)
    ensures x == y
  {
  }

  /** In an ordered list, an element is in the tail iff it is in the list
      and is not the head. */
  lemma NotHeadOfOrdered(a: seq<FormError>, e: FormError)
    requires InCheckOrder(a) && |a| > 0
    ensures e in a[1..] <==> e in a && e != a[0]
  {
    if e in a[1..] {
      var k :| 0 <= k < |a[1..]| && a[1..][k] == e;
      assert a[k + 1] == e && Rank(a[0]) < Rank(a[k + 1]);
    }
    if e in a && e != a[0] {
      var k :| 0 <= k < |a| && a[k] == e;
      assert a[1..][k - 1] == e;
    }
  }

  /** A form that passes every check names an existing developer as owner. */
  lemma AcceptedFormHasOwner(users: seq<User>, d: RequestData)
    requires CheckRequestForm(users, d) == []
    ensures d.ownerLogin != ""
    ensures FindUserByName(users, d.ownerLogin).Some? && FindUserByName(users, d.ownerLogin).value.role == Developer
  {
  }

  // ---------------------------------------------------------------------
  // Creating and editing
  // ---------------------------------------------------------------------

  /** What a form submission leads to: the error list shown back, or the
      saved database and the id of the request written. */
  datatype FormReply = Invalid(errors: seq<FormError>) | Saved(db: Db, id: int)

  /** The columns a form writes hold the parsed values. */
  predicate Carries(r: ImageRequest, d: RequestData) {
    && r.imageName == d.imageName && r.repoUrl == d.repoUrl && r.repoBranch == d.repoBranch
    && r.updateMode == d.updateMode && r.targetCommit == d.targetCommit && r.baseImage == d.baseImage
    && r.runCommands == d.runCommands && r.entrypoint == d.entrypoint && r.ramMb == d.ramMb
    && r.vcpu == d.vcpu && r.versionTag == d.versionTag && r.collaborators == d.collaborators
  }

  /** The row `create_request` inserts. */
  function NewRequest(id: int, d: RequestData, ownerId: int, createdBy: int, now: string): ImageRequest {
    ImageRequest(id, d.imageName, d.repoUrl, d.repoBranch, d.updateMode, d.targetCommit, d.baseImage,
                 d.runCommands, d.entrypoint, d.ramMb, d.vcpu, d.versionTag, ownerId, createdBy,
                 d.collaborators, Draft, now, now)
  }

  /** `create_request`: developers only; a form with errors writes nothing;
      otherwise one draft row owned by the named developer and created by
      the current user. */
  function CreateRequest(db: Db, user: User, f: RequestForm, now: string): (r: Outcome<FormReply>)
    ensures r.Fail? <==> user.role != Developer
    ensures r.Fail? ==> r.code == 403
    ensures r.Ok? ==> (r.value.Invalid? <==> CheckRequestForm(db.users, ParseRequestForm(f)) != [])
    ensures r.Ok? && r.value.Invalid? ==> r.value.errors == CheckRequestForm(db.users, ParseRequestForm(f))
    ensures r.Ok? && r.value.Saved? ==>
              var db' := r.value.db;
              var n := |db.requests|;
              && db' == db.(requests := db'.requests)
              && |db'.requests| == n + 1 && db'.requests[..n] == db.requests
              && db'.requests[n].id == r.value.id
              && (forall i :: 0 <= i < n ==> db.requests[i].id != r.value.id)
              && Carries(db'.requests[n], ParseRequestForm(f))
              && db'.requests[n].status == Draft
              && db'.requests[n].createdBy == user.id
              && db'.requests[n].createdAt == now && db'.requests[n].updatedAt == now
              && (exists u :: u in db.users && u.id == db'.requests[n].ownerId &&
                              u.username == ParseRequestForm(f).ownerLogin && u.role == Developer)
  {
    if RoleRequired(user, {Developer}) == Forbidden then Fail(403)
    else
      var d := ParseRequestForm(f);
      var errs := CheckRequestForm(db.users, d);
      if errs != [] then Ok(Invalid(errs))
      else
        AcceptedFormHasOwner(db.users, d);
        var owner := FindUserByName(db.users, d.ownerLogin).value;
        var id := NextKey(db.requests, RequestKey);
        var row := NewRequest(id, d, owner.id, user.id, now);
        assert Carries(row, d);
        Ok(Saved(AppendRequest(db, row), id))
  }

  /** The database with one more request row at the end. */
  function AppendRequest(db: Db, row: ImageRequest): (db': Db)
    ensures db' == db.(requests := db'.requests)
    ensures |db'.requests| == |db.requests| + 1 && db'.requests[..|db.requests|] == db.requests
    ensures db'.requests[|db.requests|] == row
  {
    var requests := db.requests + [row];
    assert requests[..|db.requests|] == db.requests;
    db.(requests := requests)
  }

  /** Creation keeps request ids distinct, and the creator can view and
      edit what they created. */
  lemma CreatedRequestBelongsToCreator(db: Db, user: User, f: RequestForm, now: string)
    requires UniqueKeys(db.requests, RequestKey)
    requires CreateRequest(db, user, f, now).Ok? && CreateRequest(db, user, f, now).value.Saved?
    ensures var db' := CreateRequest(db, user, f, now).value.db;
            && UniqueKeys(db'.requests, RequestKey)
            && CanEditRequest(user, OwnershipOf(db'.requests[|db.requests|]))
            && CanViewRequest(user, OwnershipOf(db'.requests[|db.requests|]))
  {
    var db' := CreateRequest(db, user, f, now).value.db;
    assert db'.requests == db.requests + [db'.requests[|db.requests|]];
    InsertKeepsUnique(db.requests, db'.requests[|db.requests|], RequestKey);
  }

  /** The columns `edit_request` rewrites; status, creator and creation
      time stay. */
  function Edited(x: ImageRequest, d: RequestData, ownerId: int, now: string): ImageRequest {
    x.(imageName := d.imageName, repoUrl := d.repoUrl, repoBranch := d.repoBranch,
       updateMode := d.updateMode, targetCommit := d.targetCommit, baseImage := d.baseImage,
       runCommands := d.runCommands, entrypoint := d.entrypoint, ramMb := d.ramMb, vcpu := d.vcpu,
       versionTag := d.versionTag, ownerId := ownerId, collaborators := d.collaborators,
       updatedAt := now)
  }

  /** A row after an edit: the form's columns and the edit time are new;
      id, status, creator and creation time are the old row's. */
  predicate RewrittenBy(old_: ImageRequest, new_: ImageRequest, d: RequestData, now: string) {
    && Carries(new_, d) && new_.updatedAt == now
    && new_.id == old_.id && new_.status == old_.status
    && new_.createdBy == old_.createdBy && new_.createdAt == old_.createdAt
  }

  /** The `UPDATE image_requests ... WHERE id = ?` of `edit_request`. */
  function SaveEdit(db: Db, id: int, d: RequestData, ownerId: int, now: string): (r: Db)
    ensures r == db.(requests := r.requests)
    ensures |r.requests| == |db.requests|
    ensures forall j :: 0 <= j < |db.requests| ==>
              if db.requests[j].id != id then r.requests[j] == db.requests[j]
              else RewrittenBy(db.requests[j], r.requests[j], d, now) && r.requests[j].ownerId == ownerId
  {
    db.(requests := UpdateWhere(db.requests, id, RequestKey, x => Edited(x, d, ownerId, now)))
  }

  /** `uid` is the id of an existing developer whose username is `login`. */
  ghost predicate NamedDeveloper(users: seq<User>, uid: int, login: string) {
    exists u :: u in users && u.id == uid && u.username == login && u.role == Developer
  }

  /** `edit_request`: 403 for a missing request or a user who may not edit
      it; a form with errors writes nothing; otherwise the row is rewritten.
      The route falls back to the old owner when the lookup finds nobody,
      but a form without errors always names an existing developer, so the
      fallback is never taken. */
  function EditRequest(db: Db, user: User, id: int, f: RequestForm, now: string): (r: Outcome<FormReply>)
    ensures r.Fail? <==> FindRequest(db.requests, id).None? || !CanEditRequest(user, OwnershipOf(FindRequest(db.requests, id).value))
    ensures r.Fail? ==> r.code == 403
    ensures r.Ok? ==> (r.value.Invalid? <==> CheckRequestForm(db.users, ParseRequestForm(f)) != [])
    ensures r.Ok? && r.value.Invalid? ==> r.value.errors == CheckRequestForm(db.users, ParseRequestForm(f))
    ensures r.Ok? && r.value.Saved? ==>
              var d := ParseRequestForm(f);
              var db' := r.value.db;
              && r.value.id == id
              && db' == db.(requests := db'.requests)
              && |db'.requests| == |db.requests|
              && (forall j :: 0 <= j < |db.requests| ==>
                    if db.requests[j].id != id then db'.requests[j] == db.requests[j]
                    else RewrittenBy(db.requests[j], db'.requests[j], d, now))
              && (forall j :: 0 <= j < |db.requests| && db.requests[j].id == id ==>
                    NamedDeveloper(db.users, db'.requests[j].ownerId, d.ownerLogin))
  {
    match FindRequest(db.requests, id)
    case None => Fail(403)
    case Some(req) =>
      if !CanEditRequest(user, OwnershipOf(req)) then Fail(403)
      else
        var d := ParseRequestForm(f);
        var errs := CheckRequestForm(db.users, d);
        if errs != [] then Ok(Invalid(errs))
        else
          var ownerId := match FindUserByName(db.users, d.ownerLogin)
                         case Some(u) => u.id
                         case None => req.ownerId;
          AcceptedFormHasOwner(db.users, d);
          assert NamedDeveloper(db.users, ownerId, d.ownerLogin) by {
            var u := FindUserByName(db.users, d.ownerLogin).value;
            assert u in db.users && u.id == ownerId;
          }
          Ok(Saved(SaveEdit(db, id, d, ownerId, now), id))
  }

  /** After a saved edit, the request reads back as the form rewrote it,
      owned by the developer the form names. */
  lemma EditRequestReadsBack(db: Db, user: User, id: int, f: RequestForm, now: string)
    requires EditRequest(db, user, id, f, now).Ok? && EditRequest(db, user, id, f, now).value.Saved?
    ensures var db' := EditRequest(db, user, id, f, now).value.db;
            var d := ParseRequestForm(f);
            && FindRequest(db'.requests, id).Some?
            && RewrittenBy(FindRequest(db.requests, id).value, FindRequest(db'.requests, id).value, d, now)
            && NamedDeveloper(db.users, FindRequest(db'.requests, id).value.ownerId, d.ownerLogin)
  {
    var db' := EditRequest(db, user, id, f, now).value.db;
    var k := RewrittenRowFound(db.requests, db'.requests, id, ParseRequestForm(f), now);
    assert db.requests[k].id == id;
  }

  /** The row an edit rewrote is the one lookup finds afterwards. */
  lemma RewrittenRowFound(rows: seq<ImageRequest>, rows': seq<ImageRequest>, id: int, d: RequestData, now: string)
    returns (k: nat)
    requires |rows'| == |rows| && FindRequest(rows, id).Some?
    requires forall j :: 0 <= j < |rows| ==>
               if rows[j].id != id then rows'[j] == rows[j] else RewrittenBy(rows[j], rows'[j], d, now)
    ensures k < |rows| && rows[k].id == id
    ensures FindRequest(rows, id) == Some(rows[k]) && FindRequest(rows', id) == Some(rows'[k])
  {
    k := Find(rows, id, RequestKey).value;
    assert forall j :: 0 <= j < |rows| ==> RequestKey(rows'[j]) == RequestKey(rows[j]);
    FindSameKeys(rows, rows', id, RequestKey);
  }

  // ---------------------------------------------------------------------
  // Pages
  // ---------------------------------------------------------------------

  /** The request joined to its owner's and creator's user rows, as the
      detail page selects it. */
  datatype RequestRow = RequestRow(req: ImageRequest, owner: User, creator: User)

  function JoinRequest(db: Db, id: int): (r: Option<RequestRow>)
    ensures r.None? <==> FindRequest(db.requests, id).None?
                         || FindUser(db, FindRequest(db.requests, id).value.ownerId).None?
                         || FindUser(db, FindRequest(db.requests, id).value.createdBy).None?
    ensures r.Some? ==> r.value.req == FindRequest(db.requests, id).value
                        && r.value.owner in db.users && r.value.owner.id == r.value.req.ownerId
                        && r.value.creator in db.users && r.value.creator.id == r.value.req.createdBy
  {
    match FindRequest(db.requests, id)
    case None => None
    case Some(req) =>
      match FindUserRow(db.users, req.ownerId)
      case None => None
      case Some(owner) =>
        match FindUserRow(db.users, req.createdBy)
        case None => None
        case Some(creator) => Some(RequestRow(req, owner, creator))
  }

  /** `FindUser` with the found row's membership spelled out. */
  function FindUserRow(users: seq<User>, id: int): (r: Option<User>)
    ensures r == FindUser(Db(users, [], [], [], [], [], []), id)
    ensures r.Some? ==> r.value in users && r.value.id == id
  {
    match Find(users, id, UserKey)
    case Some(i) => Some(users[i])
    case None => None
  }

  datatype RequestPage = RequestPage(row: RequestRow, builds: seq<Build>, images: seq<Image>)

  /** `view_request`: 403 when the join finds nothing or the user may not
      view the request; otherwise the request with all its builds and all
      its images. */
  function ViewRequest(db: Db, user: User, id: int): (r: Outcome<RequestPage>)
    ensures r.Fail? <==> JoinRequest(db, id).None? || !CanViewRequest(user, OwnershipOf(JoinRequest(db, id).value.req))
    ensures r.Fail? ==> r.code == 403
    ensures r.Ok? ==>
              && r.value.row == JoinRequest(db, id).value
              && (forall b :: multiset(r.value.builds)[b] == if b.requestId == id then multiset(db.builds)[b] else 0)
              && (forall i :: multiset(r.value.images)[i] == if i.requestId == id then multiset(db.images)[i] else 0)
  {
    match JoinRequest(db, id)
    case None => Fail(403)
    case Some(row) =>
      if !CanViewRequest(user, OwnershipOf(row.req)) then Fail(403)
      else
        var ofBuild := (b: Build) => b.requestId == id;
        var ofImage := (i: Image) => i.requestId == id;
        FilterSpec(db.builds, ofBuild);
        FilterSpec(db.images, ofImage);
        Ok(RequestPage(row, Filter(db.builds, ofBuild), Filter(db.images, ofImage)))
  }

  /** `edit_request_get`: 403 when the request or its owner row is missing
      or the user may not edit; otherwise the request and the owner's login
      to prefill. */
  function EditRequestPage(db: Db, user: User, id: int): (r: Outcome<(ImageRequest, string)>)
    ensures r.Fail? <==> FindRequest(db.requests, id).None?
                         || FindUser(db, FindRequest(db.requests, id).value.ownerId).None?
                         || !CanEditRequest(user, OwnershipOf(FindRequest(db.requests, id).value))
    ensures r.Fail? ==> r.code == 403
    ensures r.Ok? ==> r.value.0 == FindRequest(db.requests, id).value &&
                      exists u :: u in db.users && u.id == r.value.0.ownerId && u.username == r.value.1
  {
    match FindRequest(db.requests, id)
    case None => Fail(403)
    case Some(req) =>
      match FindUserRow(db.users, req.ownerId)
      case None => Fail(403)
      case Some(owner) =>
        if !CanEditRequest(user, OwnershipOf(req)) then Fail(403) else Ok((req, owner.username))
  }

  /** The edit page and the edit itself admit the same users: whoever sees
      the page can submit it, and whoever the edit refuses is refused the
      page too. */
  lemma EditPageAgreesWithEdit(db: Db, user: User, id: int, f: RequestForm, now: string)
    ensures EditRequestPage(db, user, id).Ok? ==> EditRequest(db, user, id, f, now).Ok?
    ensures EditRequest(db, user, id, f, now).Fail? ==> EditRequestPage(db, user, id) == Fail(403)
  {
  }

  // ---------------------------------------------------------------------
  // Status changes and build enqueueing
  // ---------------------------------------------------------------------

  /** `submit_request`: developers only; 403 for a missing request or one
      the user may not view; a request not in draft is left alone; a draft
      becomes submitted. */
  function SubmitRequest(db: Db, user: User, id: int, now: string): (r: Outcome<Db>)
    ensures r.Fail? <==> user.role != Developer || FindRequest(db.requests, id).None?
                         || !CanViewRequest(user, OwnershipOf(FindRequest(db.requests, id).value))
    ensures r.Fail? ==> r.code == 403
    ensures r.Ok? && FindRequest(db.requests, id).value.status != Draft ==> r.value == db
    ensures r.Ok? && FindRequest(db.requests, id).value.status == Draft ==>
              && r.value == db.(requests := r.value.requests)
              && |r.value.requests| == |db.requests|
              && forall j :: 0 <= j < |db.requests| ==>
                   r.value.requests[j] ==
                     if db.requests[j].id == id then db.requests[j].(status := Submitted, updatedAt := now)
                     else db.requests[j]
  {
    if RoleRequired(user, {Developer}) == Forbidden then Fail(403)
    else
      match FindRequest(db.requests, id)
      case None => Fail(403)
      case Some(req) =>
        if !CanViewRequest(user, OwnershipOf(req)) then Fail(403)
        else if req.status != Draft then Ok(db)
        else Ok(db.(requests := UpdateWhere(db.requests, id, RequestKey, (x: ImageRequest) => x.(status := Submitted, updatedAt := now))))
  }

  /** Submitting only moves draft forward: a second submit changes nothing. */
  lemma SubmitTwiceIsSubmitOnce(db: Db, user: User, id: int, now: string, later: string)
    requires SubmitRequest(db, user, id, now).Ok?
    ensures var db1 := SubmitRequest(db, user, id, now).value;
            SubmitRequest(db1, user, id, later) == Ok(db1)
  {
    var db1 := SubmitRequest(db, user, id, now).value;
    if FindRequest(db.requests, id).value.status == Draft {
      FindSameKeys(db.requests, db1.requests, id, RequestKey);
      var k := Find(db.requests, id, RequestKey).value;
      assert FindRequest(db1.requests, id).value == db.requests[k].(status := Submitted, updatedAt := now);
    }
  }

  /** `change_status`: staff only; an unknown status text changes nothing;
      otherwise every row with that id gets the new status, whatever its
      current status. A missing id is not an error. */
  function ChangeStatus(db: Db, user: User, id: int, status: Option<string>, now: string): (r: Outcome<Db>)
    ensures r.Fail? <==> !IsStaff(user.role)
    ensures r.Fail? ==> r.code == 403
    ensures r.Ok? && (status.None? || ParseRequestStatus(status.value).None?) ==> r.value == db
    ensures r.Ok? && status.Some? && ParseRequestStatus(status.value).Some? ==>
              && r.value == db.(requests := r.value.requests)
              && |r.value.requests| == |db.requests|
              && forall j :: 0 <= j < |db.requests| ==>
                   r.value.requests[j] ==
                     if db.requests[j].id == id
                     then db.requests[j].(status := ParseRequestStatus(status.value).value, updatedAt := now)
                     else db.requests[j]
  {
    if RoleRequired(user, {Operator, Admin}) == Forbidden then Fail(403)
    else
      match status
      case None => Ok(db)
      case Some(text) =>
        match ParseRequestStatus(text)
        case None => Ok(db)
        case Some(s) =>
          Ok(db.(requests := UpdateWhere(db.requests, id, RequestKey, (x: ImageRequest) => x.(status := s, updatedAt := now))))
  }

  /** After a status override the request reads back with the new status. */
  lemma ChangeStatusReadsBack(db: Db, user: User, id: int, s: RequestStatus, now: string)
    requires IsStaff(user.role)
    ensures var r := ChangeStatus(db, user, id, Some(StatusName(s)), now);
            && r.Ok?
            && (FindRequest(r.value.requests, id).Some? <==> FindRequest(db.requests, id).Some?)
            && (FindRequest(r.value.requests, id).Some? ==> FindRequest(r.value.requests, id).value.status == s)
  {
    StatusNameParse(s);
    var r := ChangeStatus(db, user, id, Some(StatusName(s)), now).value;
    if FindRequest(db.requests, id).Some? {
      var k := Find(db.requests, id, RequestKey).value;
      assert r.requests[k].id == id;
      var k1 := Find(r.requests, id, RequestKey).value;
      assert r.requests[k1].status == s;
    }
  }

  /** The log a build enqueued from the UI starts with. */
  const UiBuildLog := "[ui] Build requested by operator\n"

  /** `trigger_build`: staff only; 404 for a missing request; otherwise a
      queued build with no image, recording who asked. */
  function TriggerBuild(db: Db, user: User, id: int, now: string): (r: Outcome<(Db, int)>)
    ensures r == Fail(403) <==> !IsStaff(user.role)
    ensures r == Fail(404) <==> IsStaff(user.role) && FindRequest(db.requests, id).None?
    ensures r.Fail? ==> r.code in {403, 404}
    ensures r.Ok? ==>
              var (db', buildId) := r.value;
              var n := |db.builds|;
              && db' == db.(builds := db'.builds)
              && |db'.builds| == n + 1 && db'.builds[..n] == db.builds
              && (forall i :: 0 <= i < n ==> db.builds[i].id != buildId)
              && db'.builds[n] == Build(buildId, id, None, Queued, UiBuildLog, None, user.id, now)
  {
    if RoleRequired(user, {Operator, Admin}) == Forbidden then Fail(403)
    else if FindRequest(db.requests, id).None? then Fail(404)
    else
      var buildId := NextKey(db.builds, BuildKey);
      var builds := db.builds + [Build(buildId, id, None, Queued, UiBuildLog, None, user.id, now)];
      assert builds[..|db.builds|] == db.builds;
      Ok((db.(builds := builds), buildId))
  }
}
