/** The admin user list: pages of a newest-first directory, each row joined with a role
    looked up in one batch. */
module UserListing {

  import opened Prelude

  type UserId = nat

  const I64_LIMIT: nat := 0x8000_0000_0000_0000

  datatype Profile = Profile(email: string, createdAt: int)
  datatype Summary = Summary(id: UserId, profile: Profile)
  type Directory = map<UserId, Profile>

  datatype Role = User | Admin
  datatype AdminUser = AdminUser(summary: Summary, role: Role)
  type ListResult<+T> = Result<T, string>

  // ---------------------------------------------------------- ordered query

  /** `ORDER BY created_at DESC, id DESC`. */
  predicate Before(a: Summary, b: Summary) {
    a.profile.createdAt > b.profile.createdAt || (a.profile.createdAt == b.profile.createdAt && a.id > b.id)
  }

  predicate Newer(list: seq<Summary>, i: nat, j: nat)
    requires i < |list| && j < |list|
  {
    Before(list[i], list[j])
  }

  predicate Descending(list: seq<Summary>) {
    forall i, j :: 0 <= i < j < |list| ==> Newer(list, i, j)
  }

  predicate Row(directory: Directory, s: Summary) {
    s.id in directory && directory[s.id] == s.profile
  }

  /** What the database may return for the ordered query without limit and offset. */
  ghost predicate Listing(directory: Directory, list: seq<Summary>) {
    && Descending(list)
    && (forall s :: s in list <==> Row(directory, s))
  }

  /** The order is total on the directory, so the listing is determined by it. */
  lemma {:induction false} ListingIsUnique(directory: Directory, a: seq<Summary>, b: seq<Summary>)
    requires Listing(directory, a) && Listing(directory, b)
    ensures a == b
    decreases |a|
  {
    if a != [] || b != [] {
      HeadsAgree(directory, a, b);
      TailListing(directory, a);
      TailListing(directory, b);
      ListingIsUnique(directory - {a[0].id}, a[1..], b[1..]);
      assert a == [a[0]] + a[1..] && b == [b[0]] + b[1..];
    }
  }

  lemma HeadsAgree(directory: Directory, a: seq<Summary>, b: seq<Summary>)
    requires Listing(directory, a) && Listing(directory, b) && (a != [] || b != [])
    ensures a != [] && b != [] && a[0] == b[0]
  {
    if a != [] { assert a[0] in b; }
    if b != [] { assert b[0] in a; }
    var i :| 0 <= i < |b| && b[i] == a[0];
    var j :| 0 <= j < |a| && a[j] == b[0];
    assert i > 0 ==> Newer(b, 0, i);
    assert j > 0 ==> Newer(a, 0, j);
  }

  lemma TailListing(directory: Directory, list: seq<Summary>)
    requires Listing(directory, list) && list != []
    ensures Listing(directory - {list[0].id}, list[1..])
  {
    var rest := directory - {list[0].id};
    var tail := list[1..];
    forall i, j | 0 <= i < j < |tail| ensures Newer(tail, i, j) {
      assert Newer(list, i + 1, j + 1);
    }
    forall s ensures s in tail <==> Row(rest, s) {
      assert s in list <==> Row(directory, s);
      if s in tail {
        var i :| 0 <= i < |tail| && tail[i] == s;
        assert Newer(list, 0, i + 1);
        assert Row(directory, list[0]);
      }
      if Row(rest, s) {
        assert s in list;
        assert list == [list[0]] + tail;
      }
    }
  }

  /** A listing holds every user once. */
  lemma {:induction false} ListingCounts(directory: Directory, list: seq<Summary>)
    requires Listing(directory, list)
    ensures |list| == |directory|
    decreases |list|
  {
    if list == [] {
      if directory != map[] {
        var id :| id in directory;
        assert Row(directory, Summary(id, directory[id]));
      }
    } else {
      TailListing(directory, list);
      var rest := directory - {list[0].id};
      ListingCounts(rest, list[1..]);
      assert Row(directory, list[0]);
      assert rest.Keys == directory.Keys - {list[0].id};
    }
  }

  /** Every directory has a listing. */
  lemma {:induction false} ListingExists(directory: Directory) returns (list: seq<Summary>)
    ensures Listing(directory, list)
    decreases |directory|
  {
    if directory == map[] {
      list := [];
    } else {
      var id :| id in directory;
      var rest := directory - {id};
      assert rest.Keys == directory.Keys - {id};
      var others := ListingExists(rest);
      list := Inserted(others, Summary(id, directory[id]));
      InsertedDescends(others, Summary(id, directory[id]));
      forall s ensures s in list <==> Row(directory, s) {
        assert s in others <==> Row(rest, s);
      }
    }
  }

  function Inserted(list: seq<Summary>, s: Summary): (r: seq<Summary>)
    ensures forall x :: x in r <==> x in list || x == s
  {
    if list == [] || Before(s, list[0]) then [s] + list else [list[0]] + Inserted(list[1..], s)
  }

  lemma {:induction false} InsertedDescends(list: seq<Summary>, s: Summary)
    requires Descending(list) && (forall x :: x in list ==> x.id != s.id)
    ensures Descending(Inserted(list, s))
  {
    var r := Inserted(list, s);
    if list == [] {
    } else if Before(s, list[0]) {
      forall i, j | 0 <= i < j < |r| ensures Newer(r, i, j) {
        if i > 0 {
          assert Newer(list, i - 1, j - 1);
        } else if j > 1 {
          assert Newer(list, 0, j - 1);
        }
      }
    } else {
      var tail := list[1..];
      forall i, j | 0 <= i < j < |tail| ensures Newer(tail, i, j) { assert Newer(list, i + 1, j + 1); }
      InsertedDescends(tail, s);
      forall i, j | 0 <= i < j < |r| ensures Newer(r, i, j) {
        if i > 0 {
          assert Newer(Inserted(tail, s), i - 1, j - 1);
        } else {
          AllAfterHead(list, s, r[j]);
        }
      }
    }
  }

  lemma AllAfterHead(list: seq<Summary>, s: Summary, x: Summary)
    requires Descending(list) && list != [] && !Before(s, list[0]) && s.id != list[0].id
    requires x in list[1..] || x == s
    ensures Before(list[0], x)
  {
    if x in list[1..] {
      var i :| 0 <= i < |list[1..]| && list[1..][i] == x;
      assert Newer(list, 0, i + 1);
    }
  }

  // ------------------------------------------------------------------ paging

  function Min(a: nat, b: nat): nat { if a < b then a else b }

  /** `LIMIT limit OFFSET offset`, which PostgreSQL takes as 64-bit signed numbers. */
  function ListUserSummaries(list: seq<Summary>, limit: nat, offset: nat): ListResult<seq<Summary>> {
    if offset >= I64_LIMIT then Err("pagination offset exceeds PostgreSQL range")
    else Ok(list[Min(offset, |list|)..Min(offset + limit, |list|)])
  }

  function Offset(page: nat, perPage: nat): nat {
    (if page == 0 then 0 else page - 1) * perPage
  }

  /** No page number a client can send is out of PostgreSQL's range. */
  lemma OffsetFits(page: nat, perPage: nat)
    requires page < U32_LIMIT && perPage <= 500
    ensures Offset(page, perPage) < I64_LIMIT
  {
    var skipped := if page == 0 then 0 else page - 1;
    assert skipped * perPage <= skipped * 500;
  }

  // ------------------------------------------------------------------- roles

  /** The `user_roles` table, keyed by user. */
  type RoleTable = map<UserId, string>

  function ParseRole(text: string): ListResult<Role> {
    if text == "user" then Ok(User) else if text == "admin" then Ok(Admin) else Err("Invalid role: " + text)
  }

  function RoleFor(roles: RoleTable, id: UserId): ListResult<Role> {
    if id in roles then ParseRole(roles[id]) else Ok(User)
  }

  /** The rows the batched query may return, in any order. */
  ghost predicate Fetched(roles: RoleTable, ids: seq<UserId>, rows: seq<(UserId, string)>) {
    forall row :: row in rows <==> row.0 in ids && row.0 in roles && roles[row.0] == row.1
  }

  /** Collecting results into a map stops at the first that is an error. */
  function Collect(rows: seq<(UserId, string)>): ListResult<map<UserId, Role>> {
    if rows == [] then Ok(map[])
    else
      var last := rows[|rows| - 1];
      var front := Collect(rows[..|rows| - 1]);
      if front.Err? then front
      else
        var role := ParseRole(last.1);
        if role.Err? then Err(role.error) else Ok(front.value[last.0 := role.value])
  }

  function AssignedRolesFor(ids: seq<UserId>, rows: seq<(UserId, string)>): ListResult<map<UserId, Role>> {
    if ids == [] then Ok(map[]) else Collect(rows)
  }

  predicate Parses(row: (UserId, string)) {
    ParseRole(row.1).Ok?
  }

  lemma {:induction false} Collected(roles: RoleTable, rows: seq<(UserId, string)>)
    requires forall row :: row in rows ==> row.0 in roles && roles[row.0] == row.1
    ensures Collect(rows).Ok? <==> forall row :: row in rows ==> Parses(row)
    ensures Collect(rows).Ok? ==> forall id :: id in Collect(rows).value <==> id in roles && (id, roles[id]) in rows
    ensures Collect(rows).Ok? ==> forall id :: id in Collect(rows).value ==>
            RoleFor(roles, id) == Ok(Collect(rows).value[id])
  {
    if rows != [] {
      var last := rows[|rows| - 1];
      var front := rows[..|rows| - 1];
      assert rows == front + [last];
      Collected(roles, front);
      assert last in rows;
      assert forall row :: row in front ==> row in rows;
      if Collect(front).Err? {
        var row :| row in front && !Parses(row);
        assert row in rows;
      } else if !Parses(last) {
        assert Collect(rows).Err?;
      } else {
        assert Collect(rows).value == Collect(front).value[last.0 := ParseRole(last.1).value];
      }
    }
  }

  function RoleIn(explicit: map<UserId, Role>, id: UserId): Role {
    if id in explicit then explicit[id] else User
  }

  /** The batch fails if and only if looking up some user of the page on its own fails, and
      otherwise gives every one of them the role that lookup gives. */
  lemma BatchedRolesAreSingleLookups(roles: RoleTable, ids: seq<UserId>, rows: seq<(UserId, string)>)
    requires Fetched(roles, ids, rows)
    ensures AssignedRolesFor(ids, rows).Ok? <==> forall id :: id in ids ==> RoleFor(roles, id).Ok?
    ensures AssignedRolesFor(ids, rows).Ok? ==>
              forall id :: id in ids ==> RoleFor(roles, id) == Ok(RoleIn(AssignedRolesFor(ids, rows).value, id))
    ensures AssignedRolesFor(ids, rows).Err? <==>
            exists id :: id in ids && id in roles && roles[id] != "user" && roles[id] != "admin"
  {
    Collected(roles, rows);
    if ids != [] {
      if Collect(rows).Ok? {
        forall id | id in ids ensures RoleFor(roles, id) == Ok(RoleIn(Collect(rows).value, id)) {
          if id in roles {
            assert (id, roles[id]) in rows;
          }
        }
      } else {
        var row :| row in rows && !Parses(row);
        assert RoleFor(roles, row.0).Err? && row.0 in ids;
      }
    }
  }

  // --------------------------------------------------------------- list_users

  function Ids(list: seq<Summary>): (ids: seq<UserId>)
    ensures |ids| == |list| && forall i :: 0 <= i < |list| ==> ids[i] == list[i].id
  {
    seq(|list|, i requires 0 <= i < |list| => list[i].id)
  }

  function Joined(list: seq<Summary>, explicit: map<UserId, Role>): (users: seq<AdminUser>)
    ensures |users| == |list|
    ensures forall i :: 0 <= i < |list| ==> users[i] == AdminUser(list[i], RoleIn(explicit, list[i].id))
  {
    seq(|list|, i requires 0 <= i < |list| => AdminUser(list[i], RoleIn(explicit, list[i].id)))
  }

  /** `list` and `rows` are what the database returns for the two queries. */
  function ListUsers(list: seq<Summary>, rows: seq<(UserId, string)>, page: nat, perPage: nat)
    : ListResult<seq<AdminUser>>
  {
    var summaries := ListUserSummaries(list, perPage, Offset(page, perPage));
    if summaries.Err? then Err(summaries.error)
    else
      var explicit := AssignedRolesFor(Ids(summaries.value), rows);
      if explicit.Err? then Err(explicit.error) else Ok(Joined(summaries.value, explicit.value))
  }

  /** The users on a page. */
  function OnPage(list: seq<Summary>, page: nat, perPage: nat): seq<Summary> {
    list[Min(Offset(page, perPage), |list|)..Min(Offset(page, perPage) + perPage, |list|)]
  }

  /** The role is the one the table spells out; without a row it is User. */
  predicate HasRole(roles: RoleTable, user: AdminUser) {
    var id := user.summary.id;
    && (user.role == Admin <==> id in roles && roles[id] == "admin")
    && (user.role == User <==> id !in roles || roles[id] == "user")
  }

  /** The user has a row that spells neither role. */
  predicate Misspelt(roles: RoleTable, id: UserId) {
    id in roles && roles[id] != "user" && roles[id] != "admin"
  }

  function Summaries(users: seq<AdminUser>): (list: seq<Summary>)
    ensures |list| == |users| && forall i :: 0 <= i < |users| ==> list[i] == users[i].summary
  {
    seq(|users|, i requires 0 <= i < |users| => users[i].summary)
  }

  /** One answer: the page's users in order, each with its own role, or an error exactly when
      one of them has no valid role. */
  lemma PageAnswer(
    directory: Directory, roles: RoleTable, list: seq<Summary>, rows: seq<(UserId, string)>, page: nat, perPage: nat)
    requires Listing(directory, list) && page < U32_LIMIT && 1 <= perPage <= 500
    requires Fetched(roles, Ids(OnPage(list, page, perPage)), rows)
    ensures var answer := ListUsers(list, rows, page, perPage);
            && (answer.Err? <==> exists s :: s in OnPage(list, page, perPage) && Misspelt(roles, s.id))
            && (answer.Ok? ==> Summaries(answer.value) == OnPage(list, page, perPage))
            && (answer.Ok? ==> forall u :: u in answer.value ==> HasRole(roles, u))
  {
    OffsetFits(page, perPage);
    var shown := OnPage(list, page, perPage);
    BatchedRolesAreSingleLookups(roles, Ids(shown), rows);
    forall s | s in shown ensures s.id in Ids(shown) {
      var i :| 0 <= i < |shown| && shown[i] == s;
      assert Ids(shown)[i] == s.id;
    }
    forall id | id in Ids(shown) ensures exists s :: s in shown && s.id == id {
      var i :| 0 <= i < |shown| && Ids(shown)[i] == id;
      assert shown[i] in shown;
    }
  }

  /** `answer` is a successful answer to a request for `page`, over this directory and these roles. */
  ghost predicate Answers(directory: Directory, roles: RoleTable, page: nat, perPage: nat, answer: seq<AdminUser>) {
    exists list, rows ::
      && Listing(directory, list)
      && Fetched(roles, Ids(OnPage(list, page, perPage)), rows)
      && ListUsers(list, rows, page, perPage) == Ok(answer)
  }

  function Concat(answers: seq<seq<AdminUser>>): seq<AdminUser> {
    if answers == [] then [] else Concat(answers[..|answers| - 1]) + answers[|answers| - 1]
  }

  ghost predicate AnswersInOrder(directory: Directory, roles: RoleTable, perPage: nat, answers: seq<seq<AdminUser>>) {
    forall k :: 0 <= k < |answers| ==> Answers(directory, roles, k + 1, perPage, answers[k])
  }

  /** Requesting the pages one by one over an unchanged directory shows the directory's
      listing from its start, with nobody left out, shown twice or out of order, and
      everybody with the role a lookup of their own gives. */
  lemma {:induction false} PagesConcatenate(
    directory: Directory, roles: RoleTable, list: seq<Summary>, perPage: nat, answers: seq<seq<AdminUser>>)
    requires Listing(directory, list) && 1 <= perPage <= 500 && |answers| < U32_LIMIT
    requires AnswersInOrder(directory, roles, perPage, answers)
    ensures Summaries(Concat(answers)) ==
            list[..if |answers| * perPage < |list| then |answers| * perPage else |list|]
    ensures forall u :: u in Concat(answers) ==> HasRole(roles, u)
  {
    if answers == [] {
      assert list[..0] == [];
    } else {
      var m := |answers| - 1;
      var front := answers[..m];
      FirstAnswers(directory, roles, perPage, answers);
      PagesConcatenate(directory, roles, list, perPage, front);
      PageShown(directory, roles, list, perPage, m + 1, answers[m]);
      NextPage(list, m, perPage);
      SummariesAppend(Concat(front), answers[m]);
    }
  }

  lemma FirstAnswers(directory: Directory, roles: RoleTable, perPage: nat, answers: seq<seq<AdminUser>>)
    requires answers != [] && AnswersInOrder(directory, roles, perPage, answers)
    ensures AnswersInOrder(directory, roles, perPage, answers[..|answers| - 1])
    ensures Answers(directory, roles, |answers|, perPage, answers[|answers| - 1])
  {
    var m := |answers| - 1;
    assert Answers(directory, roles, m + 1, perPage, answers[m]);
    forall k | 0 <= k < m ensures Answers(directory, roles, k + 1, perPage, answers[..m][k]) {
      assert answers[..m][k] == answers[k];
    }
  }

  lemma NextPage(list: seq<Summary>, m: nat, perPage: nat)
    ensures list[..Min((m + 1) * perPage, |list|)] == list[..Min(m * perPage, |list|)] + OnPage(list, m + 1, perPage)
  {
    var start := m * perPage;
    assert (m + 1) * perPage == start + perPage && Offset(m + 1, perPage) == start;
    var from, upto := Min(start, |list|), Min(start + perPage, |list|);
    assert list[..upto] == list[..from] + list[from..upto];
  }

  lemma SummariesAppend(a: seq<AdminUser>, b: seq<AdminUser>)
    ensures Summaries(a + b) == Summaries(a) + Summaries(b)
  {
  }

  lemma PageShown(
    directory: Directory, roles: RoleTable, list: seq<Summary>, perPage: nat, page: nat, answer: seq<AdminUser>)
    requires Listing(directory, list) && page < U32_LIMIT && 1 <= perPage <= 500
    requires Answers(directory, roles, page, perPage, answer)
    ensures Summaries(answer) == OnPage(list, page, perPage)
    ensures forall u :: u in answer ==> HasRole(roles, u)
  {
    var listed, rows :| Listing(directory, listed) && Fetched(roles, Ids(OnPage(listed, page, perPage)), rows)
                        && ListUsers(listed, rows, page, perPage) == Ok(answer);
    ListingIsUnique(directory, list, listed);
    PageAnswer(directory, roles, listed, rows, page, perPage);
  }

  /** Enough pages show the whole directory. */
  lemma PagesCoverDirectory(
    directory: Directory, roles: RoleTable, list: seq<Summary>, perPage: nat, answers: seq<seq<AdminUser>>)
    requires Listing(directory, list) && 1 <= perPage <= 500 && |answers| < U32_LIMIT
    requires AnswersInOrder(directory, roles, perPage, answers) && |answers| * perPage >= |directory|
    ensures Summaries(Concat(answers)) == list && |Concat(answers)| == |directory|
  {
    PagesConcatenate(directory, roles, list, perPage, answers);
    ListingCounts(directory, list);
    assert list[..|list|] == list;
  }

  /** Across all pages the users come newest first, and those of one instant by descending id. */
  lemma PagesShowNewestFirst(
    directory: Directory, roles: RoleTable, list: seq<Summary>, perPage: nat, answers: seq<seq<AdminUser>>,
    i: nat, j: nat)
    requires Listing(directory, list) && 1 <= perPage <= 500 && |answers| < U32_LIMIT
    requires AnswersInOrder(directory, roles, perPage, answers)
    ensures i < j < |Concat(answers)| ==>
              var a, b := Concat(answers)[i].summary, Concat(answers)[j].summary;
              a.profile.createdAt > b.profile.createdAt || (a.profile.createdAt == b.profile.createdAt && a.id > b.id)
  {
    if i < j < |Concat(answers)| {
      ShownAt(directory, roles, list, perPage, answers, i);
      ShownAt(directory, roles, list, perPage, answers, j);
      OrderOfListing(list, i, j);
    }
  }

  lemma ShownAt(
    directory: Directory, roles: RoleTable, list: seq<Summary>, perPage: nat, answers: seq<seq<AdminUser>>, i: nat)
    requires Listing(directory, list) && 1 <= perPage <= 500 && |answers| < U32_LIMIT
    requires AnswersInOrder(directory, roles, perPage, answers)
    ensures i < |Concat(answers)| ==> i < |list| && Concat(answers)[i].summary == list[i]
  {
    var shown := ShownPrefix(directory, roles, list, perPage, answers);
    if i < |Concat(answers)| {
      assert Summaries(Concat(answers))[i] == list[..shown][i];
    }
  }

  lemma ShownPrefix(
    directory: Directory, roles: RoleTable, list: seq<Summary>, perPage: nat, answers: seq<seq<AdminUser>>)
    returns (shown: nat)
    requires Listing(directory, list) && 1 <= perPage <= 500 && |answers| < U32_LIMIT
    requires AnswersInOrder(directory, roles, perPage, answers)
    ensures shown <= |list| && Summaries(Concat(answers)) == list[..shown]
  {
    PagesConcatenate(directory, roles, list, perPage, answers);
    shown := if |answers| * perPage < |list| then |answers| * perPage else |list|;
  }

  lemma OrderOfListing(list: seq<Summary>, i: nat, j: nat)
    requires Descending(list) && i < j < |list|
    ensures var a, b := list[i], list[j];
            a.profile.createdAt > b.profile.createdAt || (a.profile.createdAt == b.profile.createdAt && a.id > b.id)
  {
    assert Newer(list, i, j);
  }
}
