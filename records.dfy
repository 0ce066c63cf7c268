/**
 * Rows of the review database (users, banks, reports, error comments), the in-memory session
 * record, and the pure pieces of the review service: the status filter over reports, the
 * report listing joined with banks and ordered by submission date, and the row-level effect
 * of each UPDATE / DELETE statement.
 */
module Records {
  import opened Wrappers
  import opened Text

  datatype User = User(id: int, username: string, password: string, role: string)

  datatype Bank = Bank(id: int, abaCode: string, name: string)

  /** `isAccepted` is the nullable BOOLEAN column: `None` is SQL NULL, "no decision yet". */
  datatype Report = Report(id: int, bankId: int, reportCode: string, submissionDate: string,
                           hasErrors: bool, isAccepted: Option<bool>)

  /** One row of a report listing: the report joined with its bank's ABA code and name. */
  datatype ReportView = ReportView(id: int, reportCode: string, submissionDate: string,
                                   hasErrors: bool, isAccepted: Option<bool>,
                                   abaCode: string, bankName: string)

  datatype ErrorComment = ErrorComment(id: int, errorId: int, userId: int, comment: string)

  /** The value of `user_sessions[token]`; `websockets` lists the live connections. */
  datatype SessionInfo = SessionInfo(userId: int, username: string, role: string, websockets: seq<nat>)

  /** What a request ends with when it does not succeed. */
  datatype Failure =
    | Http(status: nat, detail: string)   // an HTTPException
    | Integrity(detail: string)           // sqlite3.IntegrityError from a UNIQUE constraint
    | MissingKey(key: string)             // KeyError on a request body field

  const NotAuthenticated := Http(401, "Not authenticated")
  const InvalidCredentials := Http(401, "Invalid credentials")
  const InvalidSession := Http(401, "Invalid session")
  const InvalidStatus := Http(400, "Invalid status. Use: accepted, rejected, or pending")
  const AbaCodeTaken := Integrity("UNIQUE constraint failed: banks.aba_code")

  // ---------------------------------------------------------------- status filter

  datatype Status = Accepted | Rejected | Pending

  function StatusName(st: Status): string {
    match st
    case Accepted => "accepted"
    case Rejected => "rejected"
    case Pending => "pending"
  }

  /** The `{status}` path segment of the listing endpoint; anything else is a 400. */
  function ParseStatus(s: string): (r: Result<Status, Failure>)
    ensures r.Success? <==> s == "accepted" || s == "rejected" || s == "pending"
    ensures r.Success? ==> StatusName(r.value) == s
    ensures r.Failure? ==> r.error == InvalidStatus
  {
    if s == "accepted" then Success(Accepted)
    else if s == "rejected" then Success(Rejected)
    else if s == "pending" then Success(Pending)
    else Failure(InvalidStatus)
  }

  lemma ParseStatusName(st: Status)
    ensures ParseStatus(StatusName(st)) == Success(st)
  {
  }

  /**
   * The WHERE clause chosen for each status. Only the pending filter takes undecided
   * reports, and a report decided "not accepted" without errors matches no filter.
   */
  predicate Matches(st: Status, isAccepted: Option<bool>, hasErrors: bool)
    ensures Matches(st, isAccepted, hasErrors) ==> (isAccepted.None? <==> st == Pending)
    ensures isAccepted == Some(false) && !hasErrors ==> !Matches(st, isAccepted, hasErrors)
    ensures isAccepted == Some(true) ==> (Matches(st, isAccepted, hasErrors) <==> st == Accepted)
  {
    match st
    case Accepted => isAccepted == Some(true)
    case Rejected => isAccepted == Some(false) && hasErrors
    case Pending => isAccepted == None
  }

  /**
   * The status a report is shown under, as an explicit tagged value: a report decided
   * "not accepted" but without errors has none.
   */
  function DerivedStatus(isAccepted: Option<bool>, hasErrors: bool): Option<Status> {
    match isAccepted
    case None => Some(Pending)
    case Some(true) => Some(Accepted)
    case Some(false) => if hasErrors then Some(Rejected) else None
  }

  /** Each report matches at most one filter, the one of its derived status. */
  lemma MatchesExactlyDerived(st: Status, isAccepted: Option<bool>, hasErrors: bool)
    ensures Matches(st, isAccepted, hasErrors) <==> DerivedStatus(isAccepted, hasErrors) == Some(st)
  {
  }

  // ---------------------------------------------------------------- report listings

  /** The bank row with id `id` (the JOIN partner), if any. */
  function FindBank(banks: seq<Bank>, id: int): (r: Option<Bank>)
    ensures r.Some? ==> r.value in banks && r.value.id == id
    ensures r.None? ==> forall b :: b in banks ==> b.id != id
    decreases |banks|
  {
    if banks == [] then None
    else if banks[0].id == id then Some(banks[0])
    else FindBank(banks[1..], id)
  }

  function View(r: Report, b: Bank): ReportView {
    ReportView(r.id, r.reportCode, r.submissionDate, r.hasErrors, r.isAccepted, b.abaCode, b.name)
  }

  /**
   * The rows of `reports r JOIN banks b ON r.bank_id = b.id WHERE <filter of st>`, in table
   * order. A report whose bank row is missing is dropped by the inner join.
   */
  function Selected(reports: seq<Report>, banks: seq<Bank>, st: Status): (vs: seq<ReportView>)
    ensures forall v :: v in vs ==> Matches(st, v.isAccepted, v.hasErrors)
    ensures forall v :: v in vs ==>
      exists r :: r in reports && FindBank(banks, r.bankId).Some? && v == View(r, FindBank(banks, r.bankId).value)
    ensures forall r :: r in reports && Matches(st, r.isAccepted, r.hasErrors) && FindBank(banks, r.bankId).Some? ==>
      View(r, FindBank(banks, r.bankId).value) in vs
    decreases |reports|
  {
    if reports == [] then []
    else
      var rest := Selected(reports[1..], banks, st);
      var r := reports[0];
      match FindBank(banks, r.bankId)
      case Some(b) => if Matches(st, r.isAccepted, r.hasErrors) then [View(r, b)] + rest else rest
      case None => rest
  }

  /** `ORDER BY submission_date DESC`: later dates first (ties in any order). */
  ghost predicate NewestFirst(vs: seq<ReportView>) {
    forall i, j :: 0 <= i < j < |vs| ==> LexLe(vs[j].submissionDate, vs[i].submissionDate)
  }

  /** Inserts `v` into a newest-first list, before the first row that is not later than it. */
  function InsertByDate(v: ReportView, vs: seq<ReportView>): (r: seq<ReportView>)
    requires NewestFirst(vs)
    ensures NewestFirst(r)
    ensures multiset(r) == multiset(vs) + multiset{v}
    decreases |vs|
  {
    if vs == [] then [v]
    else if LexLe(vs[0].submissionDate, v.submissionDate) then
      var r := [v] + vs;
      assert NewestFirst(r) by {
        forall j | 1 <= j < |r|
          ensures LexLe(r[j].submissionDate, v.submissionDate)
        {
          if j > 1 {
            LexLeTransitive(r[j].submissionDate, vs[0].submissionDate, v.submissionDate);
          }
        }
      }
      r
    else
      var tail := InsertByDate(v, vs[1..]);
      var r := [vs[0]] + tail;
      assert vs == [vs[0]] + vs[1..];
      assert NewestFirst(r) by {
        LexLeTotal(vs[0].submissionDate, v.submissionDate);
        forall j | 1 <= j < |r|
          ensures LexLe(r[j].submissionDate, vs[0].submissionDate)
        {
          assert r[j] in multiset(tail);
          assert r[j] == v || r[j] in vs[1..];
        }
      }
      r
  }

  /** The listing order: a newest-first permutation of its input. */
  function SortNewestFirst(vs: seq<ReportView>): (r: seq<ReportView>)
    ensures NewestFirst(r)
    ensures multiset(r) == multiset(vs)
    decreases |vs|
  {
    if vs == [] then []
    else
      assert vs == [vs[0]] + vs[1..];
      InsertByDate(vs[0], SortNewestFirst(vs[1..]))
  }

  // ---------------------------------------------------------------- row-level updates

  /** `UPDATE reports SET is_accepted = ? WHERE id = ?`. */
  function SetDecision(reports: seq<Report>, id: int, accepted: bool): (r: seq<Report>)
    ensures |r| == |reports|
    ensures forall k :: 0 <= k < |r| && reports[k].id == id ==> r[k].isAccepted == Some(accepted)
    ensures forall k :: 0 <= k < |r| && reports[k].id != id ==> r[k] == reports[k]
    ensures forall k :: 0 <= k < |r| ==> r[k].(isAccepted := reports[k].isAccepted) == reports[k]
  {
    seq(|reports|, i requires 0 <= i < |reports| =>
      if reports[i].id == id then reports[i].(isAccepted := Some(accepted)) else reports[i])
  }

  /**
   * After a decision on report `id`, that report is listed as accepted (decision true) or
   * as rejected when it has errors (decision false), and never again as pending; every
   * other report keeps its filter membership.
   */
  lemma DecisionMovesOnlyTarget(reports: seq<Report>, id: int, accepted: bool, i: nat, st: Status)
    requires i < |reports|
    ensures var after := SetDecision(reports, id, accepted)[i];
      && after.id == reports[i].id && after.bankId == reports[i].bankId
      && after.reportCode == reports[i].reportCode
      && after.submissionDate == reports[i].submissionDate && after.hasErrors == reports[i].hasErrors
      && after.isAccepted == (if reports[i].id == id then Some(accepted) else reports[i].isAccepted)
      && (reports[i].id == id ==>
            (Matches(st, after.isAccepted, after.hasErrors) <==>
              (if accepted then st == Accepted else st == Rejected && after.hasErrors)))
      && (reports[i].id != id ==>
            (Matches(st, after.isAccepted, after.hasErrors) <==>
              Matches(st, reports[i].isAccepted, reports[i].hasErrors)))
  {
  }

  /** `SELECT COUNT(*) FROM reports WHERE bank_id = ?`. */
  function CountForBank(reports: seq<Report>, bankId: int): (n: nat)
    ensures n == 0 <==> forall r :: r in reports ==> r.bankId != bankId
    ensures n <= |reports|
    decreases |reports|
  {
    if reports == [] then 0
    else (if reports[0].bankId == bankId then 1 else 0) + CountForBank(reports[1..], bankId)
  }

  /** `DELETE FROM banks WHERE id = ?`: every row with that id goes, every other row stays, in order. */
  function WithoutBank(banks: seq<Bank>, id: int): (r: seq<Bank>)
    ensures forall b :: b in r <==> b in banks && b.id != id
    ensures |r| <= |banks|
    decreases |banks|
  {
    if banks == [] then []
    else if banks[0].id == id then WithoutBank(banks[1..], id)
    else [banks[0]] + WithoutBank(banks[1..], id)
  }

  /** `UPDATE banks SET aba_code = ?, name = ? WHERE id = ?` (when no constraint is violated). */
  function RewriteBank(banks: seq<Bank>, id: int, abaCode: string, name: string): (r: seq<Bank>)
    ensures |r| == |banks|
    ensures forall k :: 0 <= k < |r| ==> r[k].id == banks[k].id
  {
    seq(|banks|, k requires 0 <= k < |banks| =>
      if banks[k].id == id then Bank(id, abaCode, name) else banks[k])
  }

  /**
   * Looked up by id after an update of bank `id`: that bank has the new code and name (when
   * it existed), and every other id finds what it found before.
   */
  lemma {:induction false} RewriteBankLookup(banks: seq<Bank>, id: int, abaCode: string, name: string, other: int)
    ensures FindBank(RewriteBank(banks, id, abaCode, name), id)
         == (if FindBank(banks, id).Some? then Some(Bank(id, abaCode, name)) else None)
    ensures other != id ==> FindBank(RewriteBank(banks, id, abaCode, name), other) == FindBank(banks, other)
    decreases |banks|
  {
    if banks != [] {
      assert RewriteBank(banks, id, abaCode, name)[1..] == RewriteBank(banks[1..], id, abaCode, name);
      RewriteBankLookup(banks[1..], id, abaCode, name, other);
    }
  }

  /** Looked up by id after deleting bank `id`: that id finds nothing, every other id what it found before. */
  lemma {:induction false} WithoutBankLookup(banks: seq<Bank>, id: int, other: int)
    ensures FindBank(WithoutBank(banks, id), id).None?
    ensures other != id ==> FindBank(WithoutBank(banks, id), other) == FindBank(banks, other)
    decreases |banks|
  {
    if banks != [] {
      WithoutBankLookup(banks[1..], id, other);
    }
  }

  /** The first user row with that username (`fetchone()`); `None` matches no row. */
  function FindUser(users: seq<User>, username: Option<string>): (r: Option<User>)
    ensures r.Some? <==> username.Some? && exists u :: u in users && u.username == username.value
    ensures r.Some? ==> r.value in users && r.value.username == username.value
    decreases |users|
  {
    if users == [] || username.None? then None
    else if users[0].username == username.value then Some(users[0])
    else FindUser(users[1..], username)
  }

  // ---------------------------------------------------------------- comment threads

  /**
   * The comment thread of one validation error: the GROUP_CONCAT of its comments (NULL when
   * there are none) split on newlines; NULL and the empty string give no comments.
   */
  function CommentThread(concat: Option<string>): (comments: seq<string>)
    ensures concat.None? || concat.value == "" <==> comments == []
    ensures forall k :: 0 <= k < |comments| ==> '\n' !in comments[k]
    ensures comments != [] ==> Join("\n", comments) == concat.value
  {
    if concat.None? || concat.value == "" then []
    else
      JoinSplit(concat.value, '\n');
      Split(concat.value, '\n')
  }

  /** Comments without newlines survive the concatenation and the split unchanged. */
  lemma CommentThreadRoundTrip(comments: seq<string>)
    requires comments != [] && (|comments| > 1 || comments[0] != "")
    requires forall k :: 0 <= k < |comments| ==> '\n' !in comments[k]
    ensures CommentThread(Some(Join("\n", comments))) == comments
  {
    SplitJoin(comments, '\n');
    if |comments| > 1 {
      assert Join("\n", comments)[|comments[0]|] == '\n';
    }
  }
}
