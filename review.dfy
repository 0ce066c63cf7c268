/**
 * The review service of main.py: the process-wide session state (`active_sessions`,
 * `user_sessions`, and the `sessions` table that mirrors the first), the tables it reads
 * and writes, and its request handlers. Every authenticated handler runs `CheckAuth` first,
 * as the framework does for a `Depends(check_auth)` parameter.
 */
module Review {
  import opened Wrappers
  import opened Text
  import opened Records

  const MinToken := 100000000
  const MaxToken := 999999999
  const BearerPrefix := "Bearer "

  /**
   * The `token` that `check_auth` and `logout` derive from the Authorization header: no token
   * for a missing or empty header, otherwise the header with every "Bearer " removed.
   */
  function HeaderToken(authorization: Option<string>): (token: Option<string>)
    ensures token.None? <==> authorization.None? || authorization.value == ""
    ensures token.Some? ==> |token.value| <= |authorization.value|
    ensures token.Some? && !Contains(authorization.value, BearerPrefix) ==> token.value == authorization.value
  {
    if authorization.None? || authorization.value == "" then None
    else
      ReplaceAllAbsent(authorization.value, BearerPrefix, "");
      Some(ReplaceAll(authorization.value, BearerPrefix, ""))
  }

  /** A header "Bearer <t>" yields `t` whenever `t` itself holds no "Bearer ". */
  lemma {:induction false} BearerHeaderToken(t: string)
    requires !Contains(t, BearerPrefix)
    ensures HeaderToken(Some(BearerPrefix + t)) == Some(t)
  {
    var h := BearerPrefix + t;
    assert h[..|BearerPrefix|] == BearerPrefix && h[|BearerPrefix|..] == t;
    assert |h| >= |BearerPrefix| && h != "";
    assert ReplaceAll(h, BearerPrefix, "") == "" + ReplaceAll(t, BearerPrefix, "");
    ReplaceAllAbsent(t, BearerPrefix, "");
    assert "" + t == t;
  }

  /** A header of digits alone is taken verbatim as the token. */
  lemma {:induction false} BareHeaderToken(t: string)
    requires t != [] && IsDigits(t)
    ensures HeaderToken(Some(t)) == Some(t)
  {
    DigitsAvoid(t, BearerPrefix, 0);
    ReplaceAllAbsent(t, BearerPrefix, "");
  }

  /**
   * The set a logout with this header removes from each session store: the derived token, when
   * it is not empty. Removing a token that is not active changes nothing.
   */
  function EndedTokens(authorization: Option<string>): (ended: set<string>)
    ensures forall t :: t in ended <==> HeaderToken(authorization) == Some(t) && t != ""
  {
    match HeaderToken(authorization)
    case Some(t) => if t != "" then {t} else {}
    case None => {}
  }

  /** A login token: the decimal string of a number in [MinToken, MaxToken]. */
  ghost predicate IsLoginToken(t: string) {
    exists n :: MinToken <= n <= MaxToken && t == DecimalString(n)
  }

  /** What a successful login returns besides `"success": True`. */
  datatype LoginResponse = LoginResponse(token: string, username: string, role: string)

  predicate UniqueUsers(users: seq<User>) {
    forall i, j :: 0 <= i < j < |users| ==> users[i].id != users[j].id && users[i].username != users[j].username
  }

  predicate UniqueReportIds(reports: seq<Report>) {
    forall i, j :: 0 <= i < j < |reports| ==> reports[i].id != reports[j].id
  }

  predicate UniqueCommentIds(comments: seq<ErrorComment>) {
    forall i, j :: 0 <= i < j < |comments| ==> comments[i].id != comments[j].id
  }

  predicate UniqueBankKeys(banks: seq<Bank>) {
    forall i, j :: 0 <= i < j < |banks| ==> banks[i].id != banks[j].id && banks[i].abaCode != banks[j].abaCode
  }

  /**
   * The table constraints of the schema: the PRIMARY KEY of every table, UNIQUE usernames and
   * UNIQUE ABA codes, and AUTOINCREMENT counters at or above every id handed out.
   */
  predicate TablesValid(users: seq<User>, banks: seq<Bank>, bankSeq: int, reports: seq<Report>,
                        comments: seq<ErrorComment>, commentSeq: int) {
    && UniqueUsers(users)
    && UniqueBankKeys(banks)
    && UniqueReportIds(reports)
    && UniqueCommentIds(comments)
    && (forall b :: b in banks ==> b.id <= bankSeq)
    && (forall c :: c in comments ==> c.id <= commentSeq)
  }

  class App {
    var active: set<string>                         // active_sessions
    var userSessions: map<string, SessionInfo>      // user_sessions
    var persisted: set<string>                      // the sessions table (token is its PRIMARY KEY)
    var users: seq<User>
    var banks: seq<Bank>
    var reports: seq<Report>
    var comments: seq<ErrorComment>
    var bankSeq: int                                // AUTOINCREMENT counter of banks
    var commentSeq: int                             // AUTOINCREMENT counter of error_comments

    ghost predicate Valid()
      reads this
    {
      && userSessions.Keys <= active
      && persisted == active
      && TablesValid(users, banks, bankSeq, reports, comments, commentSeq)
    }

    /**
     * Process start: `active_sessions` is reloaded from the sessions table, `user_sessions`
     * starts empty.
     */
    constructor Startup(sessionRows: set<string>, users: seq<User>, banks: seq<Bank>, reports: seq<Report>,
                        comments: seq<ErrorComment>, bankSeq: int, commentSeq: int)
      requires TablesValid(users, banks, bankSeq, reports, comments, commentSeq)
      ensures Valid()
      ensures active == sessionRows && persisted == sessionRows && userSessions == map[]
      ensures this.users == users && this.banks == banks && this.reports == reports
      ensures this.comments == comments && this.bankSeq == bankSeq && this.commentSeq == commentSeq
    {
      this.active := sessionRows;
      this.persisted := sessionRows;
      this.userSessions := map[];
      this.users := users;
      this.banks := banks;
      this.reports := reports;
      this.comments := comments;
      this.bankSeq := bankSeq;
      this.commentSeq := commentSeq;
    }

    /** `check_auth`: the token, when it is non-empty and active; otherwise a 401. */
    function CheckAuth(authorization: Option<string>): (r: Result<string, Failure>)
      reads this
      ensures r.Success? <==> exists t :: HeaderToken(authorization) == Some(t) && t != "" && t in active
      ensures r.Success? ==> HeaderToken(authorization) == Some(r.value) && r.value in active
      ensures r.Failure? ==> r.error == NotAuthenticated
    {
      match HeaderToken(authorization)
      case Some(t) => if t != "" && t in active then Success(t) else Failure(NotAuthenticated)
      case None => Failure(NotAuthenticated)
    }

    /**
     * `login`: on a user row whose password equals the one supplied, issues a random
     * nine-digit token and records it in all three session stores (overwriting an entry
     * with the same token); otherwise a 401 and nothing changes.
     */
    method Login(username: Option<string>, password: Option<string>) returns (r: Result<LoginResponse, Failure>)
      requires Valid()
      modifies this`active, this`userSessions, this`persisted
      ensures Valid()
      ensures r.Success? <==> FindUser(users, username).Some? && password == Some(FindUser(users, username).value.password)
      ensures r.Success? ==>
        var u := FindUser(users, username).value;
        var t := r.value.token;
        && IsLoginToken(t) && |t| == 9
        && r.value.username == u.username && r.value.role == u.role
        && active == old(active) + {t} && persisted == old(persisted) + {t}
        && userSessions == old(userSessions)[t := SessionInfo(u.id, u.username, u.role, [])]
        && CheckAuth(Some(BearerPrefix + t)) == Success(t)
      ensures r.Failure? ==>
        && r.error == InvalidCredentials
        && active == old(active) && persisted == old(persisted) && userSessions == old(userSessions)
    {
      var user := FindUser(users, username);
      if user.Some? && password == Some(user.value.password) {
        var u := user.value;
        var n :| MinToken <= n <= MaxToken;
        var t := DecimalString(n);
        assert Pow10(8) == MinToken && Pow10(9) == MaxToken + 1 by {
          assert Pow10(2) == 100;
          assert Pow10(4) == 10000;
          assert Pow10(6) == 1000000;
        }
        DecimalLength(n, 9);
        active := active + {t};
        userSessions := userSessions[t := SessionInfo(u.id, u.username, u.role, [])];
        persisted := persisted + {t};
        DigitsAvoid(t, BearerPrefix, 0);
        BearerHeaderToken(t);
        r := Success(LoginResponse(t, u.username, u.role));
      } else {
        r := Failure(InvalidCredentials);
      }
    }

    /**
     * `logout`: an active token is removed from all three session stores; any other header
     * changes nothing. It always succeeds, and afterwards the same header no longer
     * authenticates.
     */
    method Logout(authorization: Option<string>)
      requires Valid()
      modifies this`active, this`userSessions, this`persisted
      ensures Valid()
      ensures active == old(active) - EndedTokens(authorization)
      ensures userSessions == old(userSessions) - EndedTokens(authorization)
      ensures persisted == old(persisted) - EndedTokens(authorization)
      ensures CheckAuth(authorization).Failure?
    {
      var token := HeaderToken(authorization);
      if token.Some? && token.value != "" && token.value in active {
        var t := token.value;
        active := active - {t};
        if t in userSessions {
          userSessions := userSessions - {t};
        }
        persisted := persisted - {t};
      }
    }

    /** `add_error_comment`: needs a token that is active AND has a `user_sessions` entry. */
    method AddErrorComment(errorId: int, comment: string, authorization: Option<string>)
      returns (r: Result<(), Failure>)
      requires Valid()
      modifies this`comments, this`commentSeq
      ensures Valid()
      ensures CheckAuth(authorization).Failure? ==>
        r == Failure(NotAuthenticated) && comments == old(comments) && commentSeq == old(commentSeq)
      ensures CheckAuth(authorization).Success? && CheckAuth(authorization).value !in userSessions ==>
        r == Failure(InvalidSession) && comments == old(comments) && commentSeq == old(commentSeq)
      ensures CheckAuth(authorization).Success? && CheckAuth(authorization).value in userSessions ==>
        && r == Success(())
        && commentSeq == old(commentSeq) + 1
        && comments == old(comments) + [ErrorComment(commentSeq, errorId,
                                                      userSessions[CheckAuth(authorization).value].userId, comment)]
    {
      var auth := CheckAuth(authorization);
      if auth.Failure? {
        return Failure(auth.error);
      }
      var t := auth.value;
      if t !in userSessions {
        return Failure(InvalidSession);
      }
      var userId := userSessions[t].userId;
      commentSeq := commentSeq + 1;
      comments := comments + [ErrorComment(commentSeq, errorId, userId, comment)];
      r := Success(());
    }

    /**
     * `get_reports_by_status`: 401 before anything else, 400 for an unknown status, and
     * otherwise exactly the joined reports of that status, newest first.
     */
    method GetReportsByStatus(status: string, authorization: Option<string>)
      returns (r: Result<seq<ReportView>, Failure>)
      ensures CheckAuth(authorization).Failure? ==> r == Failure(NotAuthenticated)
      ensures CheckAuth(authorization).Success? && ParseStatus(status).Failure? ==> r == Failure(InvalidStatus)
      ensures CheckAuth(authorization).Success? && ParseStatus(status).Success? ==>
        && r.Success?
        && NewestFirst(r.value)
        && multiset(r.value) == multiset(Selected(reports, banks, ParseStatus(status).value))
    {
      var auth := CheckAuth(authorization);
      if auth.Failure? {
        return Failure(auth.error);
      }
      var st := ParseStatus(status);
      if st.Failure? {
        return Failure(st.error);
      }
      r := Success(SortNewestFirst(Selected(reports, banks, st.value)));
    }

    /** `update_report_status`: sets the decision of the rows with that id; no row is no error. */
    method UpdateReportStatus(reportId: int, accepted: bool, authorization: Option<string>)
      returns (r: Result<(), Failure>)
      requires Valid()
      modifies this`reports
      ensures Valid()
      ensures CheckAuth(authorization).Failure? ==> r == Failure(NotAuthenticated) && reports == old(reports)
      ensures CheckAuth(authorization).Success? ==>
        r == Success(()) && reports == SetDecision(old(reports), reportId, accepted)
    {
      var auth := CheckAuth(authorization);
      if auth.Failure? {
        return Failure(auth.error);
      }
      reports := SetDecision(reports, reportId, accepted);
      r := Success(());
    }

    /**
     * `create_bank`: reads `aba_code` then `name` from the body (KeyError when absent);
     * inserting an ABA code already present violates the UNIQUE constraint.
     */
    method CreateBank(bankData: map<string, string>, authorization: Option<string>)
      returns (r: Result<(), Failure>)
      requires Valid()
      modifies this`banks, this`bankSeq
      ensures Valid()
      ensures r.Failure? ==> banks == old(banks) && bankSeq == old(bankSeq)
      ensures CheckAuth(authorization).Failure? ==> r == Failure(NotAuthenticated)
      ensures CheckAuth(authorization).Success? && "aba_code" !in bankData ==> r == Failure(MissingKey("aba_code"))
      ensures CheckAuth(authorization).Success? && "aba_code" in bankData && "name" !in bankData ==>
        r == Failure(MissingKey("name"))
      ensures CheckAuth(authorization).Success? && "aba_code" in bankData && "name" in bankData ==>
        if exists b :: b in old(banks) && b.abaCode == bankData["aba_code"] then
          r == Failure(AbaCodeTaken)
        else
          && r == Success(())
          && bankSeq == old(bankSeq) + 1
          && banks == old(banks) + [Bank(bankSeq, bankData["aba_code"], bankData["name"])]
    {
      var auth := CheckAuth(authorization);
      if auth.Failure? {
        return Failure(auth.error);
      }
      if "aba_code" !in bankData {
        return Failure(MissingKey("aba_code"));
      }
      if "name" !in bankData {
        return Failure(MissingKey("name"));
      }
      var aba, name := bankData["aba_code"], bankData["name"];
      if exists b :: b in banks && b.abaCode == aba {
        return Failure(AbaCodeTaken);
      }
      bankSeq := bankSeq + 1;
      banks := banks + [Bank(bankSeq, aba, name)];
      r := Success(());
    }

    /**
     * `update_bank`: rewrites the code and name of the row with that id. A missing row is
     * no error and changes nothing; taking another bank's ABA code violates UNIQUE.
     */
    method UpdateBank(bankId: int, bankData: map<string, string>, authorization: Option<string>)
      returns (r: Result<(), Failure>)
      requires Valid()
      modifies this`banks
      ensures Valid()
      ensures r.Failure? ==> banks == old(banks)
      ensures CheckAuth(authorization).Failure? ==> r == Failure(NotAuthenticated)
      ensures CheckAuth(authorization).Success? && "aba_code" !in bankData ==> r == Failure(MissingKey("aba_code"))
      ensures CheckAuth(authorization).Success? && "aba_code" in bankData && "name" !in bankData ==>
        r == Failure(MissingKey("name"))
      ensures CheckAuth(authorization).Success? && "aba_code" in bankData && "name" in bankData ==>
        if FindBank(old(banks), bankId).Some? &&
           exists b :: b in old(banks) && b.id != bankId && b.abaCode == bankData["aba_code"] then
          r == Failure(AbaCodeTaken)
        else
          r == Success(()) && banks == RewriteBank(old(banks), bankId, bankData["aba_code"], bankData["name"])
      ensures FindBank(old(banks), bankId).None? ==> banks == old(banks)
    {
      var auth := CheckAuth(authorization);
      if auth.Failure? {
        return Failure(auth.error);
      }
      if "aba_code" !in bankData {
        return Failure(MissingKey("aba_code"));
      }
      if "name" !in bankData {
        return Failure(MissingKey("name"));
      }
      var aba, name := bankData["aba_code"], bankData["name"];
      if FindBank(banks, bankId).Some? && exists b :: b in banks && b.id != bankId && b.abaCode == aba {
        return Failure(AbaCodeTaken);
      }
      RewriteKeepsKeys(banks, bankId, aba, name);
      banks := RewriteBank(banks, bankId, aba, name);
      r := Success(());
    }

    /**
     * `delete_bank`: while N > 0 reports name the bank, a 400 whose detail gives N and no
     * change; otherwise the bank's row, and only it, is gone.
     */
    method DeleteBank(bankId: int, authorization: Option<string>) returns (r: Result<(), Failure>)
      requires Valid()
      modifies this`banks
      ensures Valid()
      ensures CheckAuth(authorization).Failure? ==> r == Failure(NotAuthenticated) && banks == old(banks)
      ensures CheckAuth(authorization).Success? && CountForBank(reports, bankId) > 0 ==>
        && r == Failure(Http(400, "Cannot delete bank. It has " + DecimalString(CountForBank(reports, bankId))
                                  + " associated report(s)."))
        && banks == old(banks)
      ensures CheckAuth(authorization).Success? && CountForBank(reports, bankId) == 0 ==>
        r == Success(()) && banks == WithoutBank(old(banks), bankId)
    {
      var auth := CheckAuth(authorization);
      if auth.Failure? {
        return Failure(auth.error);
      }
      var n := CountForBank(reports, bankId);
      if n > 0 {
        return Failure(Http(400, "Cannot delete bank. It has " + DecimalString(n) + " associated report(s)."));
      }
      WithoutBankKeepsKeys(banks, bankId);
      banks := WithoutBank(banks, bankId);
      r := Success(());
    }
  }

  /** Rewriting a row keeps ids and ABA codes unique when the new code is nobody else's. */
  lemma RewriteKeepsKeys(banks: seq<Bank>, id: int, abaCode: string, name: string)
    requires UniqueBankKeys(banks)
    requires FindBank(banks, id).Some? ==> forall b :: b in banks && b.id != id ==> b.abaCode != abaCode
    ensures UniqueBankKeys(RewriteBank(banks, id, abaCode, name))
    ensures forall b :: b in RewriteBank(banks, id, abaCode, name) ==> exists c :: c in banks && c.id == b.id
  {
  }

  /** Deleting rows keeps the remaining ids and ABA codes unique. */
  lemma {:induction false} WithoutBankKeepsKeys(banks: seq<Bank>, id: int)
    requires UniqueBankKeys(banks)
    ensures UniqueBankKeys(WithoutBank(banks, id))
    decreases |banks|
  {
    if banks != [] {
      WithoutBankKeepsKeys(banks[1..], id);
      var rest := WithoutBank(banks[1..], id);
      if banks[0].id != id {
        var r := [banks[0]] + rest;
        forall j | 0 < j < |r|
          ensures r[0].id != r[j].id && r[0].abaCode != r[j].abaCode
        {
          assert r[j] in rest;
          var k :| 0 <= k < |banks[1..]| && banks[1..][k] == r[j];
          assert banks[k + 1] == r[j];
        }
      }
    }
  }

  /** Two logouts with the same header leave the session stores as one does. */
  method LogoutTwice(app: App, authorization: Option<string>)
    requires app.Valid()
    modifies app`active, app`userSessions, app`persisted
    ensures app.Valid()
    ensures app.active == old(app.active) - EndedTokens(authorization)
    ensures app.userSessions == old(app.userSessions) - EndedTokens(authorization)
    ensures app.persisted == old(app.persisted) - EndedTokens(authorization)
  {
    app.Logout(authorization);
    app.Logout(authorization);
  }

  /**
   * After a restart the sessions table still holds a token, so it authenticates, but
   * `user_sessions` is empty, so commenting with it is refused as an invalid session.
   */
  method CommentAfterRestart(token: string, errorId: int, comment: string)
    returns (authenticated: bool, r: Result<(), Failure>)
    requires token != [] && IsDigits(token)
    ensures authenticated && r == Failure(InvalidSession)
  {
    var app := new App.Startup({token}, [], [], [], [], 0, 0);
    var header := Some(BearerPrefix + token);
    DigitsAvoid(token, BearerPrefix, 0);
    BearerHeaderToken(token);
    authenticated := app.CheckAuth(header).Success?;
    r := app.AddErrorComment(errorId, comment, header);
  }

  /**
   * A bank created and then deleted by an authenticated caller, when no report names it,
   * is no longer among the banks.
   */
  method CreateThenDelete(app: App, token: string, abaCode: string, name: string)
    returns (created: Result<(), Failure>, deleted: Result<(), Failure>)
    requires app.Valid() && token in app.active && IsDigits(token) && token != []
    requires forall b :: b in app.banks ==> b.abaCode != abaCode
    requires forall rep :: rep in app.reports ==> rep.bankId != app.bankSeq + 1
    modifies app`banks, app`bankSeq
    ensures created == Success(()) && deleted == Success(())
    ensures forall b :: b in app.banks ==> b.abaCode != abaCode
    ensures app.banks == old(app.banks)
  {
    var header := Some(BearerPrefix + token);
    DigitsAvoid(token, BearerPrefix, 0);
    BearerHeaderToken(token);
    var data := map["aba_code" := abaCode, "name" := name];
    created := app.CreateBank(data, header);
    var id := app.bankSeq;
    deleted := app.DeleteBank(id, header);
    WithoutBankAppended(old(app.banks), Bank(id, abaCode, name));
  }

  /** Deleting a just-appended row whose id no earlier row has gives the earlier table back. */
  lemma {:induction false} WithoutBankAppended(banks: seq<Bank>, b: Bank)
    requires forall c :: c in banks ==> c.id != b.id
    ensures WithoutBank(banks + [b], b.id) == banks
    decreases |banks|
  {
    if banks == [] {
      assert [b][1..] == [];
    } else {
      assert (banks + [b])[1..] == banks[1..] + [b];
      WithoutBankAppended(banks[1..], b);
      assert [banks[0]] + banks[1..] == banks;
    }
  }
}
