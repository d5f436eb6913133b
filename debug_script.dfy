/**
 * `debug_user_lists`: who would be notified about a complaint.
 *
 * The database queries are inputs, gathered in `Queries`: each gives its
 * rows, None, or an exception.  With `verbose` the function also prints
 * the keys of every access payload, which raises for a payload that is not
 * a JSON object; that is the one place where the flag changes the result.
 */
module DebugScript {
  import opened Optional
  import opened Text
  import opened Dates
  import opened Values
  import opened Records

  // ---------------------------------------------------------------------
  // The complaint date

  /** The complaint date derived from `created_at`; None disables the access rule. */
  function ComplaintDate(createdAt: Value): Option<Date> {
    match createdAt
    case DateTimeValue(d, _, _, _) => Some(d)
    case Str(t) => if |t| >= 10 then ParseYmd(t) else None
    case _ => None  // includes a plain `date`, which is not a `datetime`
  }

  lemma {:induction false} ComplaintDateCases(d: Date, h: nat, m: nat, s: nat, t: string)
    requires ValidDate(d)
    ensures ComplaintDate(DateTimeValue(d, h, m, s)) == Some(d)
    ensures ComplaintDate(Str(FormatYmd(d))) == Some(d)
    ensures ComplaintDate(DateValue(d)) == None
    ensures |t| == 10 ==> ComplaintDate(Str(t)) == ParseYmd(t)
    ensures |t| != 10 ==> ComplaintDate(Str(t)) == None
    ensures ComplaintDate(Str(t)).Some? ==> |t| == 10
  {
    ParseFormat(d);
    FourDigitsValue(d.year);
    assert |FormatYmd(d)| == 10;
  }

  /** `strptime` accepts a space-padded day in a ten-character string, while
      a short date that `ParseYmd` accepts is refused by the length test. */
  lemma ComplaintDateExamples()
    ensures ComplaintDate(Str("2025-10- 9")) == Some(Date(2025, 10, 9))
    ensures ParseYmd("2025-1-1") == Some(Date(2025, 1, 1))
    ensures ComplaintDate(Str("2025-1-1")) == None
  {
  }

  // ---------------------------------------------------------------------
  // The train-access rule

  /** `strptime(access.get('origin_date', ''), "%Y-%m-%d").date()`; None when it raises. */
  function Origin(w: AccessEntry): Option<Date>
    requires w.Window?
  {
    match w.origin
    case None => ParseYmd("")
    case Some(Str(t)) => ParseYmd(t)
    case Some(_) => None  // TypeError: not a string
  }

  /** How the scan of one user ends: a match, no match, or an exception
      that neither handler catches (a window entry that is not an object). */
  datatype Scan = Matched | NoMatch | Crashed

  /** Scans windows in order and stops at the first whose origin date is the complaint date. */
  function ScanWindows(ws: seq<AccessEntry>, date: Date): Scan {
    if ws == [] then NoMatch
    else if ws[0].NonObject? then Crashed
    else if Origin(ws[0]) == Some(date) then Matched
    else ScanWindows(ws[1..], date)
  }

  /** `user.get('train_details', '{}')`, decoded. */
  function Details(u: UserRow): Payload {
    u.trainDetails.GetOr(Decoded(map[]))
  }

  /**
   * Iterating `train_details[train_no]` (line 185): an array yields its
   * windows; an object or a string yields strings, whose `.get` raises
   * AttributeError; a number, a boolean or null is not iterable, a
   * TypeError that line 213 catches.
   */
  function TrainScan(v: TrainAccess, date: Date): Scan {
    match v
    case Windows(ws) => ScanWindows(ws, date)
    case Strings(n) => if n == 0 then NoMatch else Crashed
    case NotIterable => NoMatch
  }

  /**
   * Lines 167-216 for one user.  A payload that is not an object has no
   * `.keys()`, so the verbose print of line 178 raises AttributeError;
   * quietly, the `in` test or the indexing that follows raises TypeError,
   * which line 213 catches.
   */
  function UserScan(u: UserRow, trainNo: string, date: Date, verbose: bool): Scan {
    match Details(u)
    case Undecodable => NoMatch
    case OtherJson => if verbose then Crashed else NoMatch
    case Decoded(trains) => if trainNo in trains then TrainScan(trains[trainNo], date) else NoMatch
  }

  /** The users the access loop collects, in row order; None when a scan crashes. */
  function AccessList(rows: seq<UserRow>, trainNo: string, date: Date, verbose: bool): Option<seq<UserRow>>
    decreases |rows|
  {
    if rows == [] then Some([])
    else
      match AccessList(rows[..|rows| - 1], trainNo, date, verbose)
      case None => None
      case Some(acc) =>
        match UserScan(rows[|rows| - 1], trainNo, date, verbose)
        case Crashed => None
        case Matched => Some(acc + [rows[|rows| - 1]])
        case NoMatch => Some(acc)
  }

  lemma {:induction false} CrashSticks(rows: seq<UserRow>, k: nat, trainNo: string, date: Date, verbose: bool)
    requires k <= |rows| && AccessList(rows[..k], trainNo, date, verbose) == None
    ensures AccessList(rows, trainNo, date, verbose) == None
    decreases |rows| - k
  {
    if k < |rows| {
      assert rows[..k + 1][..k] == rows[..k];
      CrashSticks(rows, k + 1, trainNo, date, verbose);
    } else {
      assert rows[..k] == rows;
    }
  }

  /** The loop of lines 162-216: nested loops over users and their windows. */
  method CollectTrainAccess(rows: seq<UserRow>, trainNo: string, date: Date, verbose: bool)
    returns (r: Option<seq<UserRow>>)
    ensures r == AccessList(rows, trainNo, date, verbose)
  {
    var granted: seq<UserRow> := [];
    var i := 0;
    while i < |rows|
      invariant 0 <= i <= |rows|
      invariant AccessList(rows[..i], trainNo, date, verbose) == Some(granted)
    {
      var user := rows[i];
      assert rows[..i + 1][..i] == rows[..i];
      var details := Details(user);
      if verbose && details.OtherJson? {
        CrashSticks(rows, i + 1, trainNo, date, verbose);
        return None;
      }
      if details.Decoded? && trainNo in details.trains {
        var access := details.trains[trainNo];
        if access.Strings? && access.count > 0 {
          CrashSticks(rows, i + 1, trainNo, date, verbose);
          return None;
        }
        if access.Windows? {
          var windows := access.entries;
          var j := 0;
          while j < |windows|
            invariant 0 <= j <= |windows|
            invariant ScanWindows(windows[j..], date) == ScanWindows(windows, date)
            invariant AccessList(rows[..i], trainNo, date, verbose) == Some(granted)
          {
            if windows[j].NonObject? {
              CrashSticks(rows, i + 1, trainNo, date, verbose);
              return None;
            }
            if Origin(windows[j]) == Some(date) {
              granted := granted + [user];
              break;
            }
            assert windows[j..][1..] == windows[j + 1..];
            j := j + 1;
          }
        }
      }
      i := i + 1;
    }
    assert rows[..i] == rows;
    r := Some(granted);
  }

  /** Exact date equality is the whole rule: among well-formed windows, a
      match exists iff some window's origin date is the complaint date. */
  lemma {:induction false} ScanFindsOrigin(ws: seq<AccessEntry>, date: Date)
    requires forall k :: 0 <= k < |ws| ==> ws[k].Window?
    ensures ScanWindows(ws, date) != Crashed
    ensures ScanWindows(ws, date) == Matched <==> exists k :: 0 <= k < |ws| && Origin(ws[k]) == Some(date)
  {
    if ws != [] {
      ScanFindsOrigin(ws[1..], date);
      if Origin(ws[0]) != Some(date) {
        assert forall k :: 1 <= k < |ws| ==> ws[k] == ws[1..][k - 1];
      }
    }
  }

  /** Two window lists that agree on every origin date (and on which
      entries are objects) scan alike: `end_date` plays no part. */
  predicate SameOrigins(ws: seq<AccessEntry>, vs: seq<AccessEntry>) {
    |ws| == |vs| && forall k :: 0 <= k < |ws| ==>
      ws[k].Window? == vs[k].Window? && (ws[k].Window? ==> ws[k].origin == vs[k].origin)
  }

  lemma {:induction false} EndDateIgnored(ws: seq<AccessEntry>, vs: seq<AccessEntry>, date: Date)
    requires SameOrigins(ws, vs)
    ensures ScanWindows(ws, date) == ScanWindows(vs, date)
  {
    if ws != [] {
      assert SameOrigins(ws[1..], vs[1..]) by {
        forall k | 0 <= k < |ws| - 1 ensures ws[1..][k] == ws[k + 1] && vs[1..][k] == vs[k + 1] { }
      }
      EndDateIgnored(ws[1..], vs[1..], date);
    }
  }

  /** A window whose origin date does not parse is skipped; the windows around it still count. */
  lemma {:induction false} BadWindowSkipped(a: seq<AccessEntry>, w: AccessEntry, b: seq<AccessEntry>, date: Date)
    requires w.Window? && Origin(w) == None
    ensures ScanWindows(a + [w] + b, date) == ScanWindows(a + b, date)
  {
    if a == [] {
      assert a + [w] + b == [w] + b && ([w] + b)[1..] == b && a + b == b;
    } else {
      assert (a + [w] + b)[1..] == a[1..] + [w] + b;
      assert (a + b)[1..] == a[1..] + b;
      BadWindowSkipped(a[1..], w, b, date);
    }
  }

  /** A user who yields no match, for instance one whose payload does not
      decode, is skipped; every other user is processed as before. */
  lemma {:induction false} NoMatchUserSkipped(a: seq<UserRow>, u: UserRow, b: seq<UserRow>, trainNo: string,
                                              date: Date, verbose: bool)
    requires UserScan(u, trainNo, date, verbose) == NoMatch
    ensures AccessList(a + [u] + b, trainNo, date, verbose) == AccessList(a + b, trainNo, date, verbose)
    decreases |b|
  {
    if b == [] {
      assert (a + [u] + b)[..|a + [u] + b| - 1] == a;
      assert a + b == a;
    } else {
      var c := a + [u] + b;
      assert c[..|c| - 1] == a + [u] + b[..|b| - 1];
      assert (a + b)[..|a + b| - 1] == a + b[..|b| - 1];
      NoMatchUserSkipped(a, u, b[..|b| - 1], trainNo, date, verbose);
    }
  }

  lemma UndecodableNoMatch(u: UserRow, trainNo: string, date: Date, verbose: bool)
    requires u.trainDetails == Some(Undecodable)
    ensures UserScan(u, trainNo, date, verbose) == NoMatch
  {
  }

  /**
   * A payload that is not a JSON object (an array, say, which the query's
   * `'{}'` and `'null'` exclusions let through) aborts the whole call when
   * `verbose` is set, and otherwise drops just that user.
   */
  lemma NonObjectPayload(a: seq<UserRow>, u: UserRow, b: seq<UserRow>, trainNo: string, date: Date)
    requires Details(u) == OtherJson
    ensures AccessList(a + [u] + b, trainNo, date, true) == None
    ensures AccessList(a + [u] + b, trainNo, date, false) == AccessList(a + b, trainNo, date, false)
  {
    var c := a + [u] + b;
    assert c[..|a| + 1][..|a|] == a && c[..|a| + 1][|a|] == u;
    CrashSticks(c, |a| + 1, trainNo, date, true);
    NoMatchUserSkipped(a, u, b, trainNo, date, false);
  }

  /**
   * What the value stored for the train does: a non-empty object or string
   * aborts the call whatever `verbose` says; a number, a boolean or null
   * drops the user; an array is scanned window by window.
   */
  lemma TrainValueKinds(u: UserRow, trainNo: string, date: Date, verbose: bool)
    requires Details(u).Decoded? && trainNo in Details(u).trains
    ensures var v := Details(u).trains[trainNo];
      (v.Strings? && v.count > 0 ==> UserScan(u, trainNo, date, verbose) == Crashed) &&
      (v.NotIterable? || v == Strings(0) ==> UserScan(u, trainNo, date, verbose) == NoMatch) &&
      (v.Windows? ==> UserScan(u, trainNo, date, verbose) == ScanWindows(v.entries, date))
  {
  }

  /** Apart from payloads that are not objects, printing changes nothing. */
  lemma {:induction false} VerboseOnlyForOtherJson(rows: seq<UserRow>, trainNo: string, date: Date)
    requires forall k :: 0 <= k < |rows| ==> Details(rows[k]) != OtherJson
    ensures AccessList(rows, trainNo, date, true) == AccessList(rows, trainNo, date, false)
    decreases |rows|
  {
    if rows != [] {
      VerboseOnlyForOtherJson(rows[..|rows| - 1], trainNo, date);
    }
  }

  /** The collected users are exactly the matching rows, each at most as
      often as it occurs among the rows (the loop breaks after one match). */
  lemma {:induction false} AccessListMembers(rows: seq<UserRow>, trainNo: string, date: Date, verbose: bool,
                                             acc: seq<UserRow>)
    requires AccessList(rows, trainNo, date, verbose) == Some(acc)
    ensures forall u :: u in acc <==> u in rows && UserScan(u, trainNo, date, verbose) == Matched
    ensures multiset(acc) <= multiset(rows)
    decreases |rows|
  {
    if rows != [] {
      var init, last := rows[..|rows| - 1], rows[|rows| - 1];
      assert rows == init + [last];
      var acc' := AccessList(init, trainNo, date, verbose).value;
      AccessListMembers(init, trainNo, date, verbose, acc');
    }
  }

  // ---------------------------------------------------------------------
  // Aggregation

  /** The emails the loop of lines 233-236 appends, in order. */
  function ValidEmails(users: seq<UserRow>): seq<string>
    decreases |users|
  {
    if users == [] then []
    else
      var last := users[|users| - 1];
      ValidEmails(users[..|users| - 1]) + (if ValidAddress(last.email) then [last.email.value] else [])
  }

  method CollectEmails(users: seq<UserRow>) returns (all: seq<string>)
    ensures all == ValidEmails(users)
  {
    all := [];
    var i := 0;
    while i < |users|
      invariant 0 <= i <= |users|
      invariant all == ValidEmails(users[..i])
    {
      assert users[..i + 1][..i] == users[..i];
      var email := users[i].email;
      if email.Some? && email.value != "" && !StartsWith(email.value, "noemail") && '@' in email.value {
        all := all + [email.value];
      }
      i := i + 1;
    }
    assert users[..i] == users;
  }

  lemma {:induction false} ValidEmailsAppend(a: seq<UserRow>, b: seq<UserRow>)
    ensures ValidEmails(a + b) == ValidEmails(a) + ValidEmails(b)
    decreases |b|
  {
    if b == [] {
      assert a + b == a;
    } else {
      assert (a + b)[..|a + b| - 1] == a + b[..|b| - 1];
      ValidEmailsAppend(a, b[..|b| - 1]);
    }
  }

  /** An address is appended iff some user carries it and it passes the test. */
  lemma {:induction false} ValidEmailsMembers(users: seq<UserRow>, e: string)
    ensures e in ValidEmails(users) <==> ValidAddress(Some(e)) && exists u :: u in users && u.email == Some(e)
    decreases |users|
  {
    if users != [] {
      var init, last := users[..|users| - 1], users[|users| - 1];
      assert users == init + [last];
      ValidEmailsMembers(init, e);
      if e in ValidEmails(init) {
        var u :| u in init && u.email == Some(e);
        assert u in users;
      }
    }
  }

  predicate Distinct(s: seq<string>) {
    forall i, j :: 0 <= i < j < |s| ==> s[i] != s[j]
  }

  /** `list(dict.fromkeys(s))`: first occurrences, in order. */
  function Dedup(s: seq<string>): seq<string>
    decreases |s|
  {
    if s == [] then []
    else
      var r := Dedup(s[..|s| - 1]);
      if s[|s| - 1] in r then r else r + [s[|s| - 1]]
  }

  method UniqueEmails(all: seq<string>) returns (u: seq<string>)
    ensures u == Dedup(all)
  {
    u := [];
    var seen: set<string> := {};
    var i := 0;
    while i < |all|
      invariant 0 <= i <= |all|
      invariant u == Dedup(all[..i])
      invariant forall x :: x in seen <==> x in u
    {
      assert all[..i + 1][..i] == all[..i];
      if all[i] !in seen {
        seen := seen + {all[i]};
        u := u + [all[i]];
      }
      i := i + 1;
    }
    assert all[..i] == all;
  }

  lemma {:induction false} DedupElements(s: seq<string>)
    ensures forall x :: x in Dedup(s) <==> x in s
    ensures Distinct(Dedup(s))
    decreases |s|
  {
    if s != [] {
      DedupElements(s[..|s| - 1]);
      assert s == s[..|s| - 1] + [s[|s| - 1]];
    }
  }

  /** Index of the first occurrence of `x` in `s`. */
  function FirstIndex(s: seq<string>, x: string): (k: nat)
    requires x in s
    ensures k < |s| && s[k] == x && x !in s[..k]
  {
    if s[0] == x then 0
    else
      var k := FirstIndex(s[1..], x);
      assert s[..k + 1] == [s[0]] + s[1..][..k];
      k + 1
  }

  lemma FirstIndexUnique(s: seq<string>, x: string, k: nat)
    requires k < |s| && s[k] == x && x !in s[..k]
    ensures FirstIndex(s, x) == k
  {
    var f := FirstIndex(s, x);
  }

  /** The deduplicated list keeps first-seen order. */
  lemma {:induction false} DedupFirstSeen(s: seq<string>)
    ensures forall x :: x in Dedup(s) ==> x in s
    ensures forall i, j :: 0 <= i < j < |Dedup(s)| ==> FirstIndex(s, Dedup(s)[i]) < FirstIndex(s, Dedup(s)[j])
    decreases |s|
  {
    DedupElements(s);
    if s != [] {
      var init, last := s[..|s| - 1], s[|s| - 1];
      DedupFirstSeen(init);
      DedupElements(init);
      var r := Dedup(init);
      forall x | x in init ensures FirstIndex(s, x) == FirstIndex(init, x) {
        var k := FirstIndex(init, x);
        assert s[..k] == init[..k];
        FirstIndexUnique(s, x, k);
      }
      if last !in r {
        assert s[..|s| - 1] == init;
        FirstIndexUnique(s, last, |s| - 1);
        forall i | 0 <= i < |r| ensures FirstIndex(s, r[i]) < |s| - 1 {
          assert r[i] in init;
        }
      }
    }
  }

  lemma {:induction false} DedupHead(s: seq<string>)
    requires s != []
    ensures Dedup(s) != [] && Dedup(s)[0] == s[0]
    decreases |s|
  {
    if |s| > 1 {
      DedupHead(s[..|s| - 1]);
    }
  }

  /** The TO/CC split printed at lines 243-247. */
  datatype Recipients = Recipients(to: Option<string>, cc: seq<string>)

  function Address(unique: seq<string>): (r: Recipients)
    ensures r.to.None? <==> unique == []
    ensures (if r.to.Some? then [r.to.value] else []) + r.cc == unique
  {
    if unique == [] then Recipients(None, []) else Recipients(Some(unique[0]), unique[1..])
  }

  // ---------------------------------------------------------------------
  // The whole function

  /** The dictionary returned at lines 249-256. */
  datatype DebugResult = DebugResult(
    warRoomUsers: seq<UserRow>,
    s2AdminUsers: seq<UserRow>,
    railwayAdminUsers: seq<UserRow>,
    trainAccessUsers: seq<UserRow>,
    uniqueEmails: seq<string>,
    totalRecipients: nat)

  /**
   * The five queries, in the order the function issues them.  The first
   * two depend on the text put into their SQL: the train number, and the
   * depot name found for it (each registry row is its `Depot` value).
   */
  datatype Queries = Queries(
    depotOf: string -> Query<Value>,
    warRoomOf: string -> Query<UserRow>,
    s2Admins: Query<UserRow>,
    railwayAdmins: Query<UserRow>,
    trainAccess: Query<UserRow>)

  /** `str(complain_details.get(key, '')).strip()` */
  function TrainKey(details: map<string, Value>, key: string): string {
    Strip(StrOf(Get(details, key, Str(""))))
  }

  /** `depot_result[0]['Depot'] if depot_result else ''` */
  function DepotName(depotRows: Query<Value>): Value {
    if depotRows.Rows? && depotRows.rows != [] then depotRows.rows[0] else Str("")
  }

  /** `rows or []` */
  function OrEmpty(rows: Query<UserRow>): seq<UserRow> {
    if rows.Rows? then rows.rows else []
  }

  /** The depot query's result for this complaint. */
  function DepotRows(details: map<string, Value>, db: Queries): Query<Value> {
    db.depotOf(TrainKey(details, "train_no"))
  }

  /** The war-room query's result, for the depot name the first query found. */
  function WarRoomRows(details: map<string, Value>, db: Queries): Query<UserRow> {
    db.warRoomOf(StrOf(DepotName(DepotRows(details, db))))
  }

  /**
   * An exception raised by the queries themselves: one of them raises, or
   * the war-room query returns None and `len` of it raises at line 66.
   */
  predicate QueryFailed(details: map<string, Value>, db: Queries) {
    DepotRows(details, db).QueryRaised? || !WarRoomRows(details, db).Rows? ||
    db.s2Admins.QueryRaised? || db.railwayAdmins.QueryRaised? || db.trainAccess.QueryRaised?
  }

  /** The train-access list; the rule runs only with a date, a `train_number` and some rows. */
  function AccessStage(details: map<string, Value>, verbose: bool, accessRows: Query<UserRow>): Option<seq<UserRow>> {
    var trainNo := TrainKey(details, "train_number");
    var date := ComplaintDate(Get(details, "created_at", Str("")));
    if date.Some? && trainNo != "" && accessRows.Rows? && accessRows.rows != [] then
      AccessList(accessRows.rows, trainNo, date.value, verbose)
    else Some([])
  }

  function AllUsers(res: DebugResult): seq<UserRow> {
    res.warRoomUsers + res.s2AdminUsers + res.railwayAdminUsers + res.trainAccessUsers
  }

  /**
   * What `debug_user_lists` returns: None exactly when an exception reaches
   * the handler of line 258, from a query or from the access loop.
   */
  function Resolve(details: map<string, Value>, verbose: bool, db: Queries): (r: Option<DebugResult>)
    ensures QueryFailed(details, db) ==> r == None
    ensures r.Some? ==> r.value.totalRecipients == |r.value.uniqueEmails|
  {
    if QueryFailed(details, db) then None
    else
      match AccessStage(details, verbose, db.trainAccess)
      case None => None
      case Some(access) =>
        var warRoom := WarRoomRows(details, db).rows;
        var unique := Dedup(ValidEmails(warRoom + OrEmpty(db.s2Admins) + OrEmpty(db.railwayAdmins) + access));
        Some(DebugResult(warRoom, OrEmpty(db.s2Admins), OrEmpty(db.railwayAdmins), access, unique, |unique|))
  }

  /** Lines 11-261, one query after the other; any exception ends the call with None. */
  method DebugUserLists(details: map<string, Value>, verbose: bool, db: Queries) returns (r: Option<DebugResult>)
    ensures r == Resolve(details, verbose, db)
  {
    var trainNo := TrainKey(details, "train_no");
    var depotRows := db.depotOf(trainNo);
    assert depotRows == DepotRows(details, db);
    if depotRows.QueryRaised? {
      return None;
    }
    var depotName := DepotName(depotRows);
    var warRoomRows := db.warRoomOf(StrOf(depotName));
    assert warRoomRows == WarRoomRows(details, db);
    if !warRoomRows.Rows? {
      return None;
    }
    var warRoom := warRoomRows.rows;
    if db.s2Admins.QueryRaised? {
      return None;
    }
    var s2 := OrEmpty(db.s2Admins);
    if db.railwayAdmins.QueryRaised? {
      return None;
    }
    var railway := OrEmpty(db.railwayAdmins);
    if db.trainAccess.QueryRaised? {
      return None;
    }
    assert !QueryFailed(details, db);

    var accessTrainNo := TrainKey(details, "train_number");
    var date := ComplaintDate(Get(details, "created_at", Str("")));
    var granted: seq<UserRow> := [];
    if date.Some? && accessTrainNo != "" && db.trainAccess.Rows? && db.trainAccess.rows != [] {
      var collected := CollectTrainAccess(db.trainAccess.rows, accessTrainNo, date.value, verbose);
      if collected.None? {
        return None;
      }
      granted := collected.value;
    }
    assert AccessStage(details, verbose, db.trainAccess) == Some(granted);

    var allEmails := CollectEmails(warRoom + s2 + railway + granted);
    var unique := UniqueEmails(allEmails);
    r := Some(DebugResult(warRoom, s2, railway, granted, unique, |unique|));
  }

  /** The shape of a result: the emails are the deduplicated valid
      emails of the four lists concatenated in order. */
  lemma ResolveShape(details: map<string, Value>, verbose: bool, db: Queries, res: DebugResult)
    requires Resolve(details, verbose, db) == Some(res)
    ensures res.s2AdminUsers == OrEmpty(db.s2Admins) && res.railwayAdminUsers == OrEmpty(db.railwayAdmins)
    ensures AccessStage(details, verbose, db.trainAccess) == Some(res.trainAccessUsers)
    ensures res.uniqueEmails == Dedup(ValidEmails(AllUsers(res)))
    ensures res.totalRecipients == |res.uniqueEmails|
  {
  }

  /** The deduplicated emails of a user list are distinct, are exactly the
      addresses that pass the test, and keep first-seen order. */
  lemma UniqueValidEmails(users: seq<UserRow>)
    ensures Distinct(Dedup(ValidEmails(users)))
    ensures forall e :: e in Dedup(ValidEmails(users)) ==> e in ValidEmails(users)
    ensures forall e :: e in Dedup(ValidEmails(users)) <==>
      ValidAddress(Some(e)) && exists u :: u in users && u.email == Some(e)
    ensures forall i, j :: 0 <= i < j < |Dedup(ValidEmails(users))| ==>
      FirstIndex(ValidEmails(users), Dedup(ValidEmails(users))[i]) < FirstIndex(ValidEmails(users), Dedup(ValidEmails(users))[j])
  {
    var all := ValidEmails(users);
    DedupElements(all);
    DedupFirstSeen(all);
    forall e ensures e in Dedup(all) <==> ValidAddress(Some(e)) && exists u :: u in users && u.email == Some(e) {
      ValidEmailsMembers(users, e);
    }
  }

  /** Over the whole pipeline: total_recipients counts distinct emails,
      which are exactly the valid addresses of the four lists. */
  lemma RecipientsCharacterised(details: map<string, Value>, verbose: bool, db: Queries, res: DebugResult)
    requires Resolve(details, verbose, db) == Some(res)
    ensures Distinct(res.uniqueEmails) && res.totalRecipients == |res.uniqueEmails|
    ensures forall e :: e in res.uniqueEmails <==>
      ValidAddress(Some(e)) && exists u :: u in AllUsers(res) && u.email == Some(e)
  {
    ResolveShape(details, verbose, db, res);
    UniqueValidEmails(AllUsers(res));
  }

  /** Among unique emails, the first valid war-room email comes first: it is the TO address. */
  lemma {:induction false} WarRoomFirst(warRoom: seq<UserRow>, s2: seq<UserRow>, railway: seq<UserRow>, access: seq<UserRow>)
    requires ValidEmails(warRoom) != []
    ensures Address(Dedup(ValidEmails(warRoom + s2 + railway + access))).to == Some(ValidEmails(warRoom)[0])
  {
    ValidEmailsAppend(warRoom, s2);
    ValidEmailsAppend(warRoom + s2, railway);
    ValidEmailsAppend(warRoom + s2 + railway, access);
    DedupHead(ValidEmails(warRoom + s2 + railway + access));
  }

  lemma PrimaryIsWarRoom(details: map<string, Value>, verbose: bool, db: Queries, res: DebugResult)
    requires Resolve(details, verbose, db) == Some(res)
    requires ValidEmails(res.warRoomUsers) != []
    ensures Address(res.uniqueEmails).to == Some(ValidEmails(res.warRoomUsers)[0])
  {
    ResolveShape(details, verbose, db, res);
    WarRoomFirst(res.warRoomUsers, res.s2AdminUsers, res.railwayAdminUsers, res.trainAccessUsers);
  }

  /** Without a complaint date, a `train_number` or any access rows the access rule is skipped. */
  lemma AccessRuleDisabled(details: map<string, Value>, verbose: bool, accessRows: Query<UserRow>)
    requires ComplaintDate(Get(details, "created_at", Str(""))).None?
          || TrainKey(details, "train_number") == ""
          || accessRows == NullResult || accessRows == Rows([])
    ensures AccessStage(details, verbose, accessRows) == Some([])
  {
  }

  /** With the access rule skipped the function returns a result, with no
      train-access users, exactly when no query failed. */
  lemma EmptyAccessResolves(details: map<string, Value>, verbose: bool, db: Queries)
    requires AccessStage(details, verbose, db.trainAccess) == Some([])
    ensures var r := Resolve(details, verbose, db);
      (r.Some? <==> !QueryFailed(details, db)) && (r.Some? ==> r.value.trainAccessUsers == [])
  {
  }

  /** The list queried for war-room users is the one for the first registry row's depot, or '' without one. */
  lemma WarRoomDepot(details: map<string, Value>, verbose: bool, db: Queries, res: DebugResult)
    requires Resolve(details, verbose, db) == Some(res)
    ensures !DepotRows(details, db).QueryRaised? && res.warRoomUsers == WarRoomRows(details, db).rows
  {
  }

  /** Without a registry row (no rows, or None) the war-room query is made for ''. */
  lemma NoDepotRow(details: map<string, Value>, db: Queries)
    requires DepotRows(details, db) == NullResult || DepotRows(details, db) == Rows([])
    ensures WarRoomRows(details, db) == db.warRoomOf("")
  {
    assert DepotName(DepotRows(details, db)) == Str("");
  }

  /** Otherwise it is made for the first row's depot, as `str` shows it. */
  lemma FirstDepotRow(details: map<string, Value>, db: Queries, first: Value, more: seq<Value>)
    requires DepotRows(details, db) == Rows([first] + more)
    ensures WarRoomRows(details, db) == db.warRoomOf(StrOf(first))
  {
    assert DepotName(DepotRows(details, db)) == first;
  }

  /** The call returns None exactly when a query fails or the access loop crashes. */
  lemma ResolveNone(details: map<string, Value>, verbose: bool, db: Queries)
    ensures Resolve(details, verbose, db).None? <==>
      QueryFailed(details, db) || AccessStage(details, verbose, db.trainAccess).None?
  {
  }

  /** Every failing query makes the call return None, whatever the other queries give. */
  lemma FailedQueryGivesNone(details: map<string, Value>, verbose: bool, db: Queries)
    ensures db.s2Admins.QueryRaised? || db.railwayAdmins.QueryRaised? || db.trainAccess.QueryRaised? ==>
      Resolve(details, verbose, db) == None
    ensures DepotRows(details, db).QueryRaised? ==> Resolve(details, verbose, db) == None
    ensures WarRoomRows(details, db) == NullResult ==> Resolve(details, verbose, db) == None
  {
  }
}
