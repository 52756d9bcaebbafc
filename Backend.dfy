/** The two tables behind the relay, the submission endpoint that writes them
    and the listing endpoint that reads them. PostgreSQL is replaced by an
    in-memory store with the same row shapes, column widths and SERIAL keys. */
module Backend {
  import opened Wrappers
  import opened Text
  import opened Pipeline

  // ---------------------------------------------------------------------------
  // Rows and columns
  // ---------------------------------------------------------------------------

  /** A row of `users`. */
  datatype User = User(id: nat, name: string, email: string, phone: string, createdAt: int)

  /** A row of `form_submissions`; message None is SQL NULL. */
  datatype FormSubmission = FormSubmission(
    id: nat, userId: nat, formType: string, message: Option<string>, createdAt: int)

  const NameWidth: nat := 255
  const EmailWidth: nat := 255
  const PhoneWidth: nat := 50
  const FormTypeWidth: nat := 50

  predicate AllBlank(s: string) {
    forall i :: 0 <= i < |s| ==> s[i] == ' '
  }

  /** Assigning s to a VARCHAR(n) column: kept when it fits, cut to n characters
      when only spaces are cut off, refused otherwise. */
  function Varchar(s: string, n: nat): (r: Option<string>)
    ensures r.Some? ==> |r.value| == (if |s| <= n then |s| else n)
    ensures r.Some? ==> r.value == s[..|r.value|] && AllBlank(s[|r.value|..])
    ensures r.None? ==> |s| > n && !AllBlank(s[n..])
  {
    if |s| <= n then Some(s)
    else if AllBlank(s[n..]) then Some(s[..n])
    else None
  }

  /** A stripped value is never cut: it is stored whole or refused. */
  lemma StrippedNeverTruncated(raw: string, n: nat)
    ensures Varchar(Strip(raw), n) == (if |Strip(raw)| <= n then Some(Strip(raw)) else None)
  {
    var s := Strip(raw);
    if |s| > n {
      assert s[n..][|s| - 1 - n] == s[|s| - 1];
    }
  }

  /** psycopg2 refuses to send a string parameter holding a NUL character. */
  predicate Sendable(s: string) {
    '\0' !in s
  }

  predicate SendableOrNull(m: Option<string>) {
    m.None? || Sendable(m.value)
  }

  /** INSERT INTO users (name, email, phone): the values stored, or None when the
      statement raises (before the id sequence is touched). */
  function UserColumns(sub: Submission): (r: Option<(string, string, string)>)
    ensures r.Some? <==>
      && Sendable(sub.name) && Sendable(sub.email) && Sendable(sub.phone)
      && Varchar(sub.name, NameWidth).Some? && Varchar(sub.email, EmailWidth).Some?
      && Varchar(sub.phone, PhoneWidth).Some?
    ensures r.Some? ==>
      && Varchar(sub.name, NameWidth) == Some(r.value.0)
      && Varchar(sub.email, EmailWidth) == Some(r.value.1)
      && Varchar(sub.phone, PhoneWidth) == Some(r.value.2)
  {
    if !(Sendable(sub.name) && Sendable(sub.email) && Sendable(sub.phone)) then None
    else
      var name := Varchar(sub.name, NameWidth);
      var email := Varchar(sub.email, EmailWidth);
      var phone := Varchar(sub.phone, PhoneWidth);
      if name.Some? && email.Some? && phone.Some? then Some((name.value, email.value, phone.value))
      else None
  }

  /** What INSERT INTO form_submissions does with the values of a submission. */
  datatype SubmissionInsert =
    | Stored(formType: string)
    | FailsBeforeSerial   // refused by psycopg2 or while planning: no id drawn
    | FailsAfterSerial    // NOT NULL on form_type, checked on the formed row: an id is drawn

  /** The text PostgreSQL is given for form_type, when it is given any. */
  function FormTypeText(t: FormType): Option<string> {
    match t
    case TextType(s) => Some(s)
    case CastType(c) => Some(c)
    case NullType => None
    case ObjectType => None
  }

  function SubmissionColumns(sub: Submission): (r: SubmissionInsert)
    ensures r.Stored? <==>
      && (sub.formType.TextType? || sub.formType.CastType?)
      && Sendable(FormTypeText(sub.formType).value) && SendableOrNull(sub.message)
      && Varchar(FormTypeText(sub.formType).value, FormTypeWidth).Some?
    ensures r.Stored? ==> Varchar(FormTypeText(sub.formType).value, FormTypeWidth) == Some(r.formType)
    ensures r.FailsAfterSerial? <==> sub.formType.NullType? && SendableOrNull(sub.message)
  {
    if sub.formType.ObjectType? then FailsBeforeSerial  // psycopg2 cannot adapt a dict
    else if !(SendableOrNull(FormTypeText(sub.formType)) && SendableOrNull(sub.message)) then FailsBeforeSerial
    else if sub.formType.NullType? then FailsAfterSerial
    else
      match Varchar(FormTypeText(sub.formType).value, FormTypeWidth)
      case None => FailsBeforeSerial
      case Some(t) => Stored(t)
  }

  /** Both INSERTs of a submission go through. */
  predicate Writable(sub: Submission) {
    UserColumns(sub).Some? && SubmissionColumns(sub).Stored?
  }

  /** A statement or the commit raising for a reason of the database's own,
      whatever the values: a table missing because init_database failed, the
      connection lost half-way. */
  datatype Fault = NoFault | UserInsertFails | SubmissionInsertFails | CommitFails

  /** conn.commit() succeeds: both rows are stored. */
  predicate Commits(req: Request, connected: bool, fault: Fault) {
    Parse(req).Ok? && connected && fault == NoFault && Writable(Parse(req).value)
  }

  /** form_type.title() raises after the commit when form_type is not a string. */
  predicate TitleRaises(req: Request) {
    Parse(req).Ok? && !Parse(req).value.formType.TextType?
  }

  /** The status and body submit_form answers with: 400 for a missing field,
      500 for no connection or any exception, 200 exactly when the rows are
      committed and the notification text can be built, whatever happens to
      the notification afterwards. A form_type that is not a string is stored
      and then answered with 500. */
  function Respond(req: Request, connected: bool, fault: Fault): (resp: Response)
    ensures resp.status == 200 <==> Commits(req, connected, fault) && !TitleRaises(req)
    ensures resp.status == 400 <==> Parse(req) == Err(MissingFields)
    ensures resp == SubmittedResponse <==> Commits(req, connected, fault) && !TitleRaises(req)
    ensures resp == MissingFieldsResponse <==> Parse(req) == Err(MissingFields)
    ensures resp == ConnectionFailedResponse <==> Parse(req).Ok? && !connected
    ensures resp.status == 200 || resp.status == 400 || resp.status == 500
    ensures resp.body.Success? <==> resp.status == 200
    ensures resp.status == 500 && resp != ConnectionFailedResponse ==> resp == InternalErrorResponse
    ensures Commits(req, connected, fault) && TitleRaises(req) ==> resp == InternalErrorResponse
  {
    match Parse(req)
    case Err(MissingFields) => MissingFieldsResponse
    case Err(InternalError) => InternalErrorResponse
    case Ok(sub) =>
      if !connected then ConnectionFailedResponse
      else if fault != NoFault || !Writable(sub) then InternalErrorResponse
      else if sub.formType.TextType? then SubmittedResponse
      else InternalErrorResponse
  }

  // ---------------------------------------------------------------------------
  // Keys
  // ---------------------------------------------------------------------------

  /** SERIAL keys: positive, at most the sequence's last value, increasing in
      insertion order. */
  predicate UsersKeyed(us: seq<User>, last: nat) {
    && (forall i :: 0 <= i < |us| ==> 0 < us[i].id <= last)
    && IdsIncreasing(us)
  }

  /** User ids increase in table order. */
  predicate IdsIncreasing(us: seq<User>) {
    forall i, j :: 0 <= i < j < |us| ==> us[i].id < us[j].id
  }

  predicate SubmissionsKeyed(subs: seq<FormSubmission>, last: nat) {
    && (forall i :: 0 <= i < |subs| ==> 0 < subs[i].id <= last)
    && (forall i, j :: 0 <= i < j < |subs| ==> subs[i].id < subs[j].id)
  }

  function UserIds(us: seq<User>): set<nat> {
    set u | u in us :: u.id
  }

  /** user_id INTEGER REFERENCES users(id). */
  predicate ForeignKeysHold(us: seq<User>, subs: seq<FormSubmission>) {
    forall i :: 0 <= i < |subs| ==> subs[i].userId in UserIds(us)
  }

  // ---------------------------------------------------------------------------
  // The listing query
  // ---------------------------------------------------------------------------

  /** A row of SELECT u.*, fs.form_type, fs.message, fs.created_at AS submission_time. */
  datatype ListingRow = ListingRow(
    id: nat, name: string, email: string, phone: string, createdAt: int,
    formType: Option<string>, message: Option<string>, submissionTime: Option<int>)

  function UnmatchedRow(u: User): ListingRow {
    ListingRow(u.id, u.name, u.email, u.phone, u.createdAt, None, None, None)
  }

  function MatchedRow(u: User, s: FormSubmission): ListingRow {
    ListingRow(u.id, u.name, u.email, u.phone, u.createdAt, Some(s.formType), s.message, Some(s.createdAt))
  }

  /** The submissions whose user_id is id, in table order. */
  function SubmissionsOf(id: nat, subs: seq<FormSubmission>): seq<FormSubmission> {
    if subs == [] then []
    else
      var last := subs[|subs| - 1];
      SubmissionsOf(id, subs[..|subs| - 1]) + (if last.userId == id then [last] else [])
  }

  /** LEFT JOIN for one user: a row per matching submission, or one row with
      NULL submission columns when there is none. */
  function RowsFor(u: User, subs: seq<FormSubmission>): (rows: seq<ListingRow>)
    ensures |rows| == (if SubmissionsOf(u.id, subs) == [] then 1 else |SubmissionsOf(u.id, subs)|)
    ensures forall k :: 0 <= k < |rows| ==>
      (rows[k].id == u.id && rows[k].name == u.name && rows[k].email == u.email
       && rows[k].phone == u.phone && rows[k].createdAt == u.createdAt)
    ensures SubmissionsOf(u.id, subs) == [] ==> rows == [UnmatchedRow(u)]
    ensures var mine := SubmissionsOf(u.id, subs);
      mine != [] ==> forall k :: 0 <= k < |rows| ==>
        && rows[k].formType == Some(mine[k].formType) && rows[k].message == mine[k].message
        && rows[k].submissionTime == Some(mine[k].createdAt)
  {
    var mine := SubmissionsOf(u.id, subs);
    if mine == [] then [UnmatchedRow(u)]
    else seq(|mine|, k requires 0 <= k < |mine| => MatchedRow(u, mine[k]))
  }

  /** FROM users u LEFT JOIN form_submissions fs ON u.id = fs.user_id, before ordering. */
  function LeftJoin(us: seq<User>, subs: seq<FormSubmission>): (rows: seq<ListingRow>)
    ensures |rows| >= |us|
  {
    if us == [] then []
    else LeftJoin(us[..|us| - 1], subs) + RowsFor(us[|us| - 1], subs)
  }

  /** Every user appears in the join, with or without a submission. */
  lemma {:induction false} LeftJoinListsEveryUser(us: seq<User>, subs: seq<FormSubmission>, i: nat)
    requires i < |us|
    ensures exists k :: 0 <= k < |LeftJoin(us, subs)| && LeftJoin(us, subs)[k].id == us[i].id
  {
    var init := us[..|us| - 1];
    var pre := LeftJoin(init, subs);
    var rows := LeftJoin(us, subs);
    assert rows == pre + RowsFor(us[|us| - 1], subs);
    if i < |us| - 1 {
      LeftJoinListsEveryUser(init, subs, i);
      var k :| 0 <= k < |pre| && pre[k].id == init[i].id;
      assert rows[k] == pre[k];
    } else {
      assert rows[|pre|] == RowsFor(us[|us| - 1], subs)[0];
    }
  }

  predicate NewestFirst(rows: seq<ListingRow>) {
    forall i, j :: 0 <= i < j < |rows| ==> rows[i].createdAt >= rows[j].createdAt
  }

  function InsertNewestFirst(r: ListingRow, rows: seq<ListingRow>): (out: seq<ListingRow>)
    requires NewestFirst(rows)
    ensures NewestFirst(out)
    ensures multiset(out) == multiset(rows) + multiset{r}
    ensures out[0] == r || (rows != [] && out[0] == rows[0])
  {
    if rows == [] || r.createdAt >= rows[0].createdAt then
      ConsNewestFirst(r, rows);
      [r] + rows
    else
      var rest := InsertNewestFirst(r, rows[1..]);
      assert rows == [rows[0]] + rows[1..];
      ConsNewestFirst(rows[0], rest);
      [rows[0]] + rest
  }

  /** A row no older than the head of a newest-first listing can go in front of it. */
  lemma ConsNewestFirst(x: ListingRow, rows: seq<ListingRow>)
    requires NewestFirst(rows)
    requires rows != [] ==> x.createdAt >= rows[0].createdAt
    ensures NewestFirst([x] + rows)
  {
    var out := [x] + rows;
    forall i, j | 0 <= i < j < |out| ensures out[i].createdAt >= out[j].createdAt {
      assert out[j] == rows[j - 1];
      if i > 0 { assert out[i] == rows[i - 1]; }
    }
  }

  /** ORDER BY u.created_at DESC; rows with equal timestamps keep their join order. */
  function SortNewestFirst(rows: seq<ListingRow>): (out: seq<ListingRow>)
    ensures NewestFirst(out)
    ensures multiset(out) == multiset(rows)
  {
    if rows == [] then []
    else
      assert rows == [rows[0]] + rows[1..];
      InsertNewestFirst(rows[0], SortNewestFirst(rows[1..]))
  }

  // ---------------------------------------------------------------------------
  // Lemmas about the join
  // ---------------------------------------------------------------------------

  /** Rows whose submission columns are not NULL. */
  function CountMatched(rows: seq<ListingRow>): nat {
    if rows == [] then 0
    else CountMatched(rows[..|rows| - 1]) + (if rows[|rows| - 1].formType.Some? then 1 else 0)
  }

  lemma {:induction false} CountMatchedAppend(a: seq<ListingRow>, b: seq<ListingRow>)
    ensures CountMatched(a + b) == CountMatched(a) + CountMatched(b)
  {
    if b != [] {
      assert (a + b)[..|a + b| - 1] == a + b[..|b| - 1];
      CountMatchedAppend(a, b[..|b| - 1]);
    } else {
      assert a + b == a;
    }
  }

  /** Reordering rows does not change how many have a submission. */
  lemma {:induction false} CountMatchedPermutation(a: seq<ListingRow>, b: seq<ListingRow>)
    requires multiset(a) == multiset(b)
    ensures CountMatched(a) == CountMatched(b)
  {
    if a != [] {
      var x := a[|a| - 1];
      var a' := a[..|a| - 1];
      assert a == a' + [x];
      assert x in multiset(b);
      var j :| 0 <= j < |b| && b[j] == x;
      var b' := b[..j] + b[j + 1..];
      assert b == b[..j] + [x] + b[j + 1..];
      assert multiset(b') == multiset(b) - multiset{x};
      CountMatchedPermutation(a', b');
      CountMatchedAppend(b[..j] + [x], b[j + 1..]);
      CountMatchedAppend(b[..j], [x]);
      CountMatchedAppend(b[..j], b[j + 1..]);
    } else {
      assert b == [];
    }
  }

  /** How many submissions the given users own between them. */
  function Owned(us: seq<User>, subs: seq<FormSubmission>): nat {
    if us == [] then 0 else Owned(us[..|us| - 1], subs) + |SubmissionsOf(us[|us| - 1].id, subs)|
  }

  lemma {:induction false} CountMatchedRowsFor(u: User, subs: seq<FormSubmission>)
    ensures CountMatched(RowsFor(u, subs)) == |SubmissionsOf(u.id, subs)|
  {
    var rows := RowsFor(u, subs);
    if SubmissionsOf(u.id, subs) != [] {
      AllMatchedCount(rows);
    }
  }

  lemma {:induction false} AllMatchedCount(rows: seq<ListingRow>)
    requires forall k :: 0 <= k < |rows| ==> rows[k].formType.Some?
    ensures CountMatched(rows) == |rows|
  {
    if rows != [] {
      AllMatchedCount(rows[..|rows| - 1]);
    }
  }

  lemma {:induction false} CountMatchedLeftJoin(us: seq<User>, subs: seq<FormSubmission>)
    ensures CountMatched(LeftJoin(us, subs)) == Owned(us, subs)
  {
    if us != [] {
      CountMatchedLeftJoin(us[..|us| - 1], subs);
      CountMatchedAppend(LeftJoin(us[..|us| - 1], subs), RowsFor(us[|us| - 1], subs));
      CountMatchedRowsFor(us[|us| - 1], subs);
    }
  }

  lemma UserIdsAppend(us: seq<User>, v: User)
    ensures UserIds(us + [v]) == UserIds(us) + {v.id}
  {
    assert forall u :: u in us + [v] <==> u in us || u == v;
  }

  /** One more submission adds one to what the users own when its user_id is
      one of theirs, and nothing otherwise. */
  lemma {:induction false} OwnedStep(us: seq<User>, subs: seq<FormSubmission>, s: FormSubmission)
    requires IdsIncreasing(us)
    ensures Owned(us, subs + [s]) == Owned(us, subs) + (if s.userId in UserIds(us) then 1 else 0)
  {
    if us != [] {
      var us', v := us[..|us| - 1], us[|us| - 1];
      LastIdFresh(us);
      assert (subs + [s])[..|subs + [s]| - 1] == subs;
      OwnedStep(us', subs, s);
      UserIdsAppend(us', v);
      assert us == us' + [v];
    }
  }

  /** With increasing ids, the last user's id is not among the earlier ones,
      and the earlier users still have increasing ids. */
  lemma LastIdFresh(us: seq<User>)
    requires us != []
    requires IdsIncreasing(us)
    ensures us[|us| - 1].id !in UserIds(us[..|us| - 1])
    ensures IdsIncreasing(us[..|us| - 1])
  {
    var us' := us[..|us| - 1];
    forall u | u in us' ensures u.id != us[|us| - 1].id {
      var i :| 0 <= i < |us'| && us'[i] == u;
      assert us[i] == u;
    }
  }

  /** With every submission referring to an existing user, the users own all of them. */
  lemma {:induction false} OwnedAll(us: seq<User>, subs: seq<FormSubmission>)
    requires IdsIncreasing(us)
    requires ForeignKeysHold(us, subs)
    ensures Owned(us, subs) == |subs|
  {
    if subs == [] {
      OwnedNone(us);
    } else {
      var subs', s := subs[..|subs| - 1], subs[|subs| - 1];
      assert subs == subs' + [s];
      assert ForeignKeysHold(us, subs') by {
        forall i | 0 <= i < |subs'| ensures subs'[i].userId in UserIds(us) { assert subs'[i] == subs[i]; }
      }
      OwnedAll(us, subs');
      OwnedStep(us, subs', s);
    }
  }

  lemma {:induction false} OwnedNone(us: seq<User>)
    ensures Owned(us, []) == 0
  {
    if us != [] { OwnedNone(us[..|us| - 1]); }
  }

  /** The listing has exactly one row with submission columns per stored submission. */
  lemma MatchedRowsAreSubmissions(us: seq<User>, subs: seq<FormSubmission>)
    requires IdsIncreasing(us)
    requires ForeignKeysHold(us, subs)
    ensures CountMatched(LeftJoin(us, subs)) == |subs|
  {
    CountMatchedLeftJoin(us, subs);
    OwnedAll(us, subs);
  }

  lemma {:induction false} SubmissionsOfNone(id: nat, subs: seq<FormSubmission>)
    requires forall i :: 0 <= i < |subs| ==> subs[i].userId != id
    ensures SubmissionsOf(id, subs) == []
  {
    if subs != [] { SubmissionsOfNone(id, subs[..|subs| - 1]); }
  }

  /** A submission for a user outside us leaves their part of the join alone. */
  lemma {:induction false} LeftJoinIgnores(us: seq<User>, subs: seq<FormSubmission>, s: FormSubmission)
    requires s.userId !in UserIds(us)
    ensures LeftJoin(us, subs + [s]) == LeftJoin(us, subs)
  {
    if us != [] {
      var us', v := us[..|us| - 1], us[|us| - 1];
      assert us == us' + [v];
      UserIdsAppend(us', v);
      LeftJoinIgnores(us', subs, s);
      assert (subs + [s])[..|subs + [s]| - 1] == subs;
      assert SubmissionsOf(v.id, subs + [s]) == SubmissionsOf(v.id, subs);
    }
  }

  /** A fresh user with one submission adds exactly one joined row, the matched
      pair, and leaves every earlier row as it was. */
  lemma LeftJoinAfterSubmit(us: seq<User>, subs: seq<FormSubmission>, u: User, s: FormSubmission)
    requires ForeignKeysHold(us, subs)
    requires u.id !in UserIds(us) && s.userId == u.id
    ensures LeftJoin(us + [u], subs + [s]) == LeftJoin(us, subs) + [MatchedRow(u, s)]
  {
    assert (us + [u])[..|us + [u]| - 1] == us;
    LeftJoinIgnores(us, subs, s);
    SubmissionsOfNone(u.id, subs);
    assert (subs + [s])[..|subs + [s]| - 1] == subs;
    assert SubmissionsOf(u.id, subs + [s]) == [s];
  }

  // ---------------------------------------------------------------------------
  // The store
  // ---------------------------------------------------------------------------

  /** The two tables and their id sequences. */
  class Store {
    var users: seq<User>
    var submissions: seq<FormSubmission>
    var lastUserId: nat        // last value handed out by users_id_seq
    var lastSubmissionId: nat  // last value handed out by form_submissions_id_seq

    ghost predicate Valid()
      reads this
    {
      && UsersKeyed(users, lastUserId)
      && SubmissionsKeyed(submissions, lastSubmissionId)
      && ForeignKeysHold(users, submissions)
    }

    constructor ()
      ensures Valid()
      ensures users == [] && submissions == [] && lastUserId == 0 && lastSubmissionId == 0
    {
      users, submissions := [], [];
      lastUserId, lastSubmissionId := 0, 0;
    }

    /** GET /api/users once connected: every joined row, newest user first. */
    function Listing(): (rows: seq<ListingRow>)
      reads this
      ensures NewestFirst(rows)
      ensures multiset(rows) == multiset(LeftJoin(users, submissions))
    {
      SortNewestFirst(LeftJoin(users, submissions))
    }

    /** get_users: the rows, or 500 when no connection can be had or the SELECT
        raises (`selectRaises`: a table missing, the connection lost). */
    function GetUsers(connected: bool, selectRaises: bool): (r: Result<seq<ListingRow>, Response>)
      reads this
      ensures r.Ok? <==> connected && !selectRaises
      ensures r.Ok? ==> NewestFirst(r.value) && multiset(r.value) == multiset(LeftJoin(users, submissions))
      ensures r.Err? ==> r.error.status == 500
      ensures r.Err? ==> (r.error == ConnectionFailedResponse <==> !connected)
      ensures r.Err? && connected ==> r.error == InternalErrorResponse
    {
      if !connected then Err(ConnectionFailedResponse)
      else if selectRaises then Err(InternalErrorResponse)
      else Ok(Listing())
    }

    /** The listing holds one row with submission columns per stored submission. */
    lemma ListedSubmissions()
      requires Valid()
      ensures CountMatched(Listing()) == |submissions|
    {
      CountMatchedPermutation(Listing(), LeftJoin(users, submissions));
      MatchedRowsAreSubmissions(users, submissions);
    }

    /** INSERT INTO users ... RETURNING id. The row only becomes part of the
        table at commit; the id drawn from the sequence stays drawn either way. */
    method InsertUser(sub: Submission, now: int, raises: bool) returns (row: Option<User>)
      requires Valid()
      modifies this`lastUserId
      ensures Valid()
      ensures row.Some? <==> !raises && UserColumns(sub).Some?
      ensures row.Some? ==> lastUserId == old(lastUserId) + 1
      ensures row.Some? ==> var (name, email, phone) := UserColumns(sub).value;
        row.value == User(lastUserId, name, email, phone, now)
      ensures row.None? ==> lastUserId == old(lastUserId)
    {
      var columns := UserColumns(sub);
      if raises || columns.None? {
        return None;
      }
      lastUserId := lastUserId + 1;
      row := Some(User(lastUserId, columns.value.0, columns.value.1, columns.value.2, now));
    }

    /** INSERT INTO form_submissions (user_id, form_type, message). */
    method InsertSubmission(userId: nat, sub: Submission, now: int, raises: bool) returns (row: Option<FormSubmission>)
      requires Valid()
      modifies this`lastSubmissionId
      ensures Valid()
      ensures row.Some? <==> !raises && SubmissionColumns(sub).Stored?
      ensures row.Some? ==> lastSubmissionId == old(lastSubmissionId) + 1
      ensures row.Some? ==>
        (row.value == FormSubmission(lastSubmissionId, userId, SubmissionColumns(sub).formType, sub.message, now))
      ensures row.None? ==>
        lastSubmissionId == old(lastSubmissionId) + (if !raises && SubmissionColumns(sub).FailsAfterSerial? then 1 else 0)
    {
      if raises {
        return None;
      }
      match SubmissionColumns(sub)
      case FailsBeforeSerial =>
        row := None;
      case FailsAfterSerial =>
        lastSubmissionId := lastSubmissionId + 1;
        row := None;
      case Stored(formType) =>
        lastSubmissionId := lastSubmissionId + 1;
        row := Some(FormSubmission(lastSubmissionId, userId, formType, sub.message, now));
    }

    /** conn.commit(): both rows become visible together. */
    method Commit(u: User, s: FormSubmission)
      requires Valid()
      requires 0 < u.id == lastUserId && 0 < s.id == lastSubmissionId && s.userId == u.id
      requires forall i :: 0 <= i < |users| ==> users[i].id < u.id
      requires forall i :: 0 <= i < |submissions| ==> submissions[i].id < s.id
      modifies this`users, this`submissions
      ensures Valid()
      ensures users == old(users) + [u] && submissions == old(submissions) + [s]
    {
      UserIdsAppend(users, u);
      users := users + [u];
      submissions := submissions + [s];
    }

    /** The write of submit_form: the user INSERT, the submission INSERT with
        the id it returned, and one commit. When a statement raises nothing is
        committed, though ids already drawn stay drawn. `fault` is the step, if
        any, at which the database raises for a reason of its own. */
    method Persist(sub: Submission, now: int, fault: Fault) returns (ok: bool)
      requires Valid()
      modifies this
      ensures Valid()
      ensures ok == (fault == NoFault && Writable(sub))
      ensures !ok ==>
        && users == old(users) && submissions == old(submissions)
        && old(lastUserId) <= lastUserId <= old(lastUserId) + 1
        && old(lastSubmissionId) <= lastSubmissionId <= old(lastSubmissionId) + 1
      ensures ok ==>
        var (name, email, phone) := UserColumns(sub).value;
        var u := User(lastUserId, name, email, phone, now);
        var s := FormSubmission(lastSubmissionId, lastUserId, SubmissionColumns(sub).formType, sub.message, now);
        && lastUserId == old(lastUserId) + 1 && lastSubmissionId == old(lastSubmissionId) + 1
        && users == old(users) + [u]
        && submissions == old(submissions) + [s]
        && multiset(Listing()) == multiset(old(Listing())) + multiset{MatchedRow(u, s)}
    {
      var userRow := InsertUser(sub, now, fault == UserInsertFails);
      if userRow.None? {
        return false;
      }
      var userId := userRow.value.id;
      var submissionRow := InsertSubmission(userId, sub, now, fault == SubmissionInsertFails);
      if submissionRow.None? {
        return false;
      }
      if fault == CommitFails {
        return false;  // conn.commit() raises: neither row becomes visible
      }
      ListingAfterSubmit(users, submissions, userRow.value, submissionRow.value);
      Commit(userRow.value, submissionRow.value);
      ok := true;
    }

    /** POST /api/submit-form. `connected` is whether get_db_connection()
        returned a connection, `now` the transaction's CURRENT_TIMESTAMP, `time`
        datetime.now() as formatted for the message, `fault` a failure of the
        database's own, and `acknowledged` the Telegram provider's answer.
        Returns the response and the POST made to Telegram, if any. */
    method SubmitForm(req: Request, connected: bool, fault: Fault, now: int, time: string,
                      telegram: TelegramConfig, acknowledged: bool)
      returns (resp: Response, post: Option<TelegramPost>)
      requires Valid()
      modifies this
      ensures Valid()
      ensures resp == Respond(req, connected, fault)
      ensures Parse(req).Err? || !connected ==> unchanged(this) && post.None?
      ensures !Commits(req, connected, fault) ==>
        && users == old(users) && submissions == old(submissions) && post.None?
        && old(lastUserId) <= lastUserId <= old(lastUserId) + 1
        && old(lastSubmissionId) <= lastSubmissionId <= old(lastSubmissionId) + 1
      ensures Commits(req, connected, fault) ==>
        var sub := Parse(req).value;
        var u := User(lastUserId, sub.name, sub.email, sub.phone, now);
        var s := FormSubmission(lastSubmissionId, lastUserId, SubmissionColumns(sub).formType, sub.message, now);
        && lastUserId == old(lastUserId) + 1 && lastSubmissionId == old(lastSubmissionId) + 1
        && users == old(users) + [u]
        && submissions == old(submissions) + [s]
        && multiset(Listing()) == multiset(old(Listing())) + multiset{MatchedRow(u, s)}
        && post == (if sub.formType.TextType?
                    then TelegramRequest(telegram, BuildNotification(sub, sub.formType.s, time))
                    else None)
    {
      post := None;
      var parsed := Parse(req);
      if parsed.Err? {
        resp := if parsed.error == MissingFields then MissingFieldsResponse else InternalErrorResponse;
        return;
      }
      var sub := parsed.value;
      if !connected {
        resp := ConnectionFailedResponse;
        return;
      }
      var ok := Persist(sub, now, fault);
      if !ok {
        resp := InternalErrorResponse;
        return;
      }
      ParsedUserColumnsWhole(req);
      if !sub.formType.TextType? {
        resp := InternalErrorResponse;  // form_type.title() raises after the commit
        return;
      }
      var notification := BuildNotification(sub, sub.formType.s, time);
      var delivered := SendTelegramMessage(telegram, notification, acknowledged);  // result discarded
      post := TelegramRequest(telegram, notification);
      resp := SubmittedResponse;
    }
  }

  /** Committing a fresh user with one submission adds exactly their matched
      row to the listing. */
  lemma ListingAfterSubmit(us: seq<User>, subs: seq<FormSubmission>, u: User, s: FormSubmission)
    requires ForeignKeysHold(us, subs)
    requires forall i :: 0 <= i < |us| ==> us[i].id < u.id
    requires s.userId == u.id
    ensures multiset(SortNewestFirst(LeftJoin(us + [u], subs + [s])))
         == multiset(SortNewestFirst(LeftJoin(us, subs))) + multiset{MatchedRow(u, s)}
  {
    assert u.id !in UserIds(us) by {
      forall v | v in us ensures v.id != u.id {
        var i :| 0 <= i < |us| && us[i] == v;
      }
    }
    LeftJoinAfterSubmit(us, subs, u, s);
  }

  /** The user columns of a parsed request are stored exactly as stripped. */
  lemma ParsedUserColumnsWhole(req: Request)
    ensures Parse(req).Ok? && UserColumns(Parse(req).value).Some? ==>
      var sub := Parse(req).value; UserColumns(sub).value == (sub.name, sub.email, sub.phone)
  {
    if req.Form? && req.name.Str? && req.email.Str? && req.phone.Str? {
      StrippedNeverTruncated(req.name.s, NameWidth);
      StrippedNeverTruncated(req.email.s, EmailWidth);
      StrippedNeverTruncated(req.phone.s, PhoneWidth);
    }
  }

  // ---------------------------------------------------------------------------
  // Submit, then list
  // ---------------------------------------------------------------------------

  /** A required value that strip() leaves alone and its column stores whole. */
  predicate StoredAsIs(s: string, width: nat) {
    s != [] && !IsPySpace(s[0]) && !IsPySpace(s[|s| - 1]) && Sendable(s) && |s| <= width
  }

  /** A body with the given values and a form_type that PostgreSQL stores as text. */
  function WellFormedRequest(name: string, email: string, phone: string,
                             formType: FormType, message: string): Request {
    Form(Str(name), Str(email), Str(phone), Some(formType), Given(message))
  }

  /** A form_type that is stored whole: a string or a number, boolean or list
      whose text fits the column. */
  predicate StoredFormType(t: FormType) {
    (t.TextType? || t.CastType?) && Sendable(FormTypeText(t).value) && |FormTypeText(t).value| <= FormTypeWidth
  }

  /** Such a body is taken as sent and both INSERTs store it whole. */
  lemma WellFormedCommits(name: string, email: string, phone: string, formType: FormType, message: string)
    requires StoredAsIs(name, NameWidth) && StoredAsIs(email, EmailWidth) && StoredAsIs(phone, PhoneWidth)
    requires StoredFormType(formType) && Sendable(message)
    ensures var req := WellFormedRequest(name, email, phone, formType, message);
      && Parse(req) == Ok(Submission(name, email, phone, formType, Some(message)))
      && Writable(Parse(req).value)
      && SubmissionColumns(Parse(req).value) == Stored(FormTypeText(formType).value)
  {
    StripKeeps(name);
    StripKeeps(email);
    StripKeeps(phone);
  }

  /** On an empty database a body is answered as Respond says, and the listing
      then holds its one joined row, under the first id of each sequence, when
      it was committed, and nothing otherwise; the notification goes out only
      for a committed body with a string form_type. */
  method SubmitToEmpty(req: Request, fault: Fault, now: int, time: string,
                       telegram: TelegramConfig, acknowledged: bool)
    returns (resp: Response, post: Option<TelegramPost>, rows: seq<ListingRow>)
    ensures resp == Respond(req, true, fault)
    ensures !Commits(req, true, fault) ==> rows == [] && post.None?
    ensures Commits(req, true, fault) ==> var sub := Parse(req).value;
      && rows == [ListingRow(1, sub.name, sub.email, sub.phone, now,
                             Some(SubmissionColumns(sub).formType), sub.message, Some(now))]
      && (post.Some? <==> sub.formType.TextType? && TelegramRequest(telegram, BuildNotification(sub, sub.formType.s, time)).Some?)
  {
    var store := new Store();
    resp, post := store.SubmitForm(req, true, fault, now, time, telegram, acknowledged);
    var users, submissions := store.users, store.submissions;
    if |users| == 1 {
      ListingOfOne(users, submissions);
    }
    rows := SortNewestFirst(LeftJoin(users, submissions));
  }

  /** One user with one submission of theirs lists as their single matched row. */
  lemma ListingOfOne(us: seq<User>, subs: seq<FormSubmission>)
    requires |us| == 1 && |subs| == 1 && subs[0].userId == us[0].id
    ensures SortNewestFirst(LeftJoin(us, subs)) == [MatchedRow(us[0], subs[0])]
  {
    assert us[..0] == [] && subs[..0] == [];
    assert SubmissionsOf(us[0].id, subs) == subs;
  }

  /** A well-formed submission (such as the sample one of the API script) comes
      back from the listing exactly as it was sent. */
  method SubmitThenList(name: string, email: string, phone: string, formType: string, message: string,
                        now: int, time: string, telegram: TelegramConfig, acknowledged: bool)
    returns (resp: Response, rows: seq<ListingRow>)
    requires StoredAsIs(name, NameWidth) && StoredAsIs(email, EmailWidth) && StoredAsIs(phone, PhoneWidth)
    requires Sendable(formType) && |formType| <= FormTypeWidth && Sendable(message)
    ensures resp == SubmittedResponse
    ensures rows == [ListingRow(1, name, email, phone, now, Some(formType), Some(message), Some(now))]
  {
    var req := WellFormedRequest(name, email, phone, TextType(formType), message);
    WellFormedCommits(name, email, phone, TextType(formType), message);
    var post;
    resp, post, rows := SubmitToEmpty(req, NoFault, now, time, telegram, acknowledged);
  }

  /** A body whose form_type is a JSON number, boolean or list is stored, yet
      answered with 500 and announced to nobody: form_type.title() raises
      after the commit. */
  method SubmitNonStringFormType(name: string, email: string, phone: string, cast: string, message: string,
                                 now: int, time: string, telegram: TelegramConfig, acknowledged: bool)
    returns (resp: Response, post: Option<TelegramPost>, rows: seq<ListingRow>)
    requires StoredAsIs(name, NameWidth) && StoredAsIs(email, EmailWidth) && StoredAsIs(phone, PhoneWidth)
    requires Sendable(cast) && |cast| <= FormTypeWidth && Sendable(message)
    ensures resp == InternalErrorResponse && post.None?
    ensures rows == [ListingRow(1, name, email, phone, now, Some(cast), Some(message), Some(now))]
  {
    var req := WellFormedRequest(name, email, phone, CastType(cast), message);
    WellFormedCommits(name, email, phone, CastType(cast), message);
    resp, post, rows := SubmitToEmpty(req, NoFault, now, time, telegram, acknowledged);
  }

  /** The same body without a name is refused with 400 and writes nothing. */
  method SubmitWithoutName(email: string, phone: string, formType: string, message: string,
                           now: int, time: string, telegram: TelegramConfig, acknowledged: bool)
    returns (resp: Response, rows: seq<ListingRow>, post: Option<TelegramPost>)
    ensures resp == MissingFieldsResponse && post.None? && rows == []
  {
    var store := new Store();
    var req := Form(Absent, Str(email), Str(phone), Some(TextType(formType)), Given(message));
    resp, post := store.SubmitForm(req, true, NoFault, now, time, telegram, acknowledged);
    var listing := store.GetUsers(true, false);
    rows := listing.value;
  }
}
