/**
 * utils/email_utils.py: the notification helpers of the standalone
 * service.  Mail transport and template rendering are outside the model:
 * whether the transport accepts a message is a flag supplied by the caller,
 * and the rendered template is represented by the context it is given.
 */
module EmailUtils {
  import opened Optional
  import opened Text
  import opened Values
  import opened Records

  // ---------------------------------------------------------------------
  // send_plain_mail

  /** The comprehension test of line 16: truthy and not a "noemail" placeholder. */
  predicate Deliverable(e: Option<string>) {
    e.Some? && e.value != "" && !StartsWith(e.value, "noemail")
  }

  /** `valid_emails`: the deliverable entries of `to`, in order. */
  function ValidRecipients(to: seq<Option<string>>): (r: seq<string>)
    ensures |r| <= |to|
  {
    if to == [] then []
    else (if Deliverable(to[0]) then [to[0].value] else []) + ValidRecipients(to[1..])
  }

  /** The filter distributes over concatenation, so it keeps the original order. */
  lemma {:induction false} ValidRecipientsAppend(a: seq<Option<string>>, b: seq<Option<string>>)
    ensures ValidRecipients(a + b) == ValidRecipients(a) + ValidRecipients(b)
  {
    if a == [] {
      assert a + b == b;
    } else {
      assert (a + b)[0] == a[0] && (a + b)[1..] == a[1..] + b;
      ValidRecipientsAppend(a[1..], b);
    }
  }

  /** Exactly the deliverable entries survive. */
  lemma {:induction false} ValidRecipientsMembers(to: seq<Option<string>>)
    ensures forall e :: e in ValidRecipients(to) <==> Some(e) in to && Deliverable(Some(e))
  {
    if to != [] {
      assert to == [to[0]] + to[1..];
      ValidRecipientsMembers(to[1..]);
    }
  }

  /**
   * The observable effect of one call: the value returned and, when a
   * message was built, the recipient list it was built for.
   */
  datatype MailResult = MailResult(returned: bool, recipients: Option<seq<string>>)

  /**
   * `MessageSchema` (lines 23-28) validates every recipient as an e-mail
   * address and raises otherwise.  The part of that check kept here is the
   * one it cannot do without: each recipient contains '@'.  The rest of
   * the validation is folded into the transport flag.
   */
  predicate SchemaAccepts(valid: seq<string>) {
    forall i :: 0 <= i < |valid| ==> '@' in valid[i]
  }

  /**
   * Lines 12-44: nothing deliverable means True without sending; otherwise
   * one message to all valid recipients, and the result is whether
   * `MessageSchema` accepted them and the transport completed (any
   * exception is caught and gives False).
   */
  function SendPlainMail(to: seq<Option<string>>, transportOk: bool): (r: MailResult)
    ensures r.recipients.None? <==> ValidRecipients(to) == []
    ensures r.recipients.Some? ==> r.recipients.value == ValidRecipients(to)
    ensures r.returned <==> ValidRecipients(to) == [] || (SchemaAccepts(ValidRecipients(to)) && transportOk)
  {
    var valid := ValidRecipients(to);
    if valid == [] then MailResult(true, None) else MailResult(SchemaAccepts(valid) && transportOk, Some(valid))
  }

  /** A list of placeholders, blanks and nulls is reported as a success even when the transport is down. */
  lemma {:induction false} NothingDeliverableSucceeds(to: seq<Option<string>>)
    requires forall e :: e in to ==> !Deliverable(e)
    ensures SendPlainMail(to, false) == MailResult(true, None)
  {
    if to != [] {
      assert to[0] in to;
      NothingDeliverableSucceeds(to[1..]);
    }
  }

  /** `for email in to` over a bare string yields its one-character strings. */
  function Iterated(a: string): (to: seq<Option<string>>)
    ensures |to| == |a|
    ensures forall i :: 0 <= i < |a| ==> to[i] == Some([a[i]])
  {
    seq(|a|, i requires 0 <= i < |a| => Some([a[i]]))
  }

  function CharStrings(a: string): (r: seq<string>)
    ensures |r| == |a|
    ensures forall i :: 0 <= i < |a| ==> r[i] == [a[i]]
  {
    seq(|a|, i requires 0 <= i < |a| => [a[i]])
  }

  /** Every one-character string is deliverable, so each character becomes a recipient. */
  lemma {:induction false} IteratedRecipients(a: string)
    ensures ValidRecipients(Iterated(a)) == CharStrings(a)
    decreases |a|
  {
    if a != [] {
      assert Iterated(a)[1..] == Iterated(a[1..]);
      IteratedRecipients(a[1..]);
      assert !StartsWith([a[0]], "noemail");
      assert CharStrings(a) == [[a[0]]] + CharStrings(a[1..]);
    }
  }

  // ---------------------------------------------------------------------
  // send_passenger_complain_email: depot filter (lines 49-75)

  /** Line 69 for one war-room user.  A truthy train depot that is not a
      string makes `in` raise TypeError, which ends the loop. */
  function DepotTest(trainDepo: Value, u: UserRow): Step {
    if !(u.depo.Some? && u.depo.value != "") || !Truthy(trainDepo) then Skip
    else if trainDepo.Str? then (if Contains(u.depo.value, trainDepo.text) then Keep else Skip)
    else Fail
  }

  function DepotStep(trainDepo: Value): UserRow -> Step {
    u => DepotTest(trainDepo, u)
  }

  /** The train depot is read under the key `train_depot`, defaulting to ''. */
  function TrainDepot(details: map<string, Value>): Value {
    Get(details, "train_depot", Str(""))
  }

  /**
   * The loop of lines 65-70 over the war-room rows.  A query that raises
   * behaves like one returning no rows (the handler at line 74 swallows it).
   */
  method WarRoomInDepot(warRoomUsers: seq<UserRow>, trainDepo: Value) returns (inDepot: seq<UserRow>)
    ensures inDepot == Collect(warRoomUsers, DepotStep(trainDepo))
  {
    inDepot := [];
    var i := 0;
    while i < |warRoomUsers|
      invariant 0 <= i <= |warRoomUsers|
      invariant Collect(warRoomUsers, DepotStep(trainDepo)) == inDepot + Collect(warRoomUsers[i..], DepotStep(trainDepo))
    {
      var user := warRoomUsers[i];
      assert warRoomUsers[i..][0] == user && warRoomUsers[i..][1..] == warRoomUsers[i + 1..];
      var userDepo := user.depo;
      if userDepo.Some? && userDepo.value != "" && Truthy(trainDepo) {
        if !trainDepo.Str? {
          assert inDepot + [] == inDepot;
          return;
        }
        if Contains(userDepo.value, trainDepo.text) {
          inDepot := inDepot + [user];
        }
      }
      i := i + 1;
    }
    assert warRoomUsers[i..] == [];
  }

  /** With a string train depot, a user is kept iff the user's depo is
      non-empty, the train depot is non-empty and occurs inside it. */
  lemma DepotFilterKeeps(users: seq<UserRow>, t: string)
    ensures forall u :: u in Collect(users, DepotStep(Str(t))) <==>
      u in users && u.depo.Some? && u.depo.value != "" && t != "" && Contains(u.depo.value, t)
  {
    CollectMembers(users, DepotStep(Str(t)));
  }

  /** An empty train depot, the default when the key is absent, keeps nobody. */
  lemma {:induction false} EmptyDepotKeepsNobody(users: seq<UserRow>)
    ensures Collect(users, DepotStep(Str(""))) == []
  {
    if users != [] {
      EmptyDepotKeepsNobody(users[1..]);
    }
  }

  /** A train depot of another type (a number, a date) keeps nobody either. */
  lemma {:induction false} NonStringDepotKeepsNobody(users: seq<UserRow>, trainDepo: Value)
    requires !trainDepo.Str?
    ensures Collect(users, DepotStep(trainDepo)) == []
  {
    if users != [] {
      NonStringDepotKeepsNobody(users[1..], trainDepo);
    }
  }

  // ---------------------------------------------------------------------
  // Template context (lines 80-95)

  const PnrDefault := "PNR not provided by passenger"

  /** The context fields copied from the complaint with '' as the default. */
  const BlankDefaultKeys: seq<string> :=
    ["user_phone_number", "passenger_name", "train_no", "train_name", "berth",
     "coach", "complain_id", "created_at", "description", "train_depo"]

  function TemplateContext(details: map<string, Value>): (ctx: map<string, Value>)
    ensures forall k :: k in ctx <==> k in BlankDefaultKeys || k == "pnr" || k == "site_name"
    ensures forall k :: k in BlankDefaultKeys ==> ctx[k] == Get(details, k, Str(""))
    ensures ctx["pnr"] == if "pnr" in details then details["pnr"] else Str(PnrDefault)
    ensures ctx["site_name"] == Str("RailSathi")
  {
    (map k | k in BlankDefaultKeys :: Get(details, k, Str("")))
      ["pnr" := Get(details, "pnr", Str(PnrDefault))]
      ["site_name" := Str("RailSathi")]
  }

  /** A PNR key that is present but null or blank is passed on as it is, not replaced. */
  lemma PresentPnrKept(details: map<string, Value>)
    requires "pnr" in details && !Truthy(details["pnr"])
    ensures TemplateContext(details)["pnr"] != Str(PnrDefault)
  {
  }

  // ---------------------------------------------------------------------
  // Sending and the status result (lines 143-170)

  datatype Status = Status(status: string, message: string)

  const NoUsersMessage := "No war room users found for this depot"

  /**
   * Lines 143-157: one send to the configured address when it passes the
   * address test, counted when `send_plain_mail` returns True.
   */
  function EmailsSent(address: Option<string>, transportOk: bool): (n: nat)
    ensures n <= 1
    ensures n == 1 <==> ValidAddress(address) && transportOk
  {
    if ValidAddress(address) && SendPlainMail([address], transportOk).returned then 1 else 0
  }

  /**
   * The dictionary returned.  Of the reads in the send block only the
   * subject's `['train_no']` can raise (the one inside the inner handler is
   * caught there); its KeyError gives status "error" with the key's repr.
   */
  function NotifyResult(details: map<string, Value>, address: Option<string>, transportOk: bool): (r: Status)
    ensures r.status == "error" <==> "train_no" !in details
    ensures r.status == "error" ==> r.message == "'train_no'"
    ensures r.status == "success" ==> (r.message == NoUsersMessage <==> EmailsSent(address, transportOk) == 0)
    ensures r.status == "success" && EmailsSent(address, transportOk) == 1 ==>
      r.message == "Emails sent to 1 war room users"
  {
    if "train_no" !in details then Status("error", "'train_no'")
    else
      var n := EmailsSent(address, transportOk);
      if n == 0 then Status("success", NoUsersMessage)
      else Status("success", "Emails sent to " + Decimal(n) + " war room users")
  }

  /** A valid configured address and a working transport report one email, whatever the depot filter found. */
  lemma OneEmailReported(details: map<string, Value>, address: Option<string>, transportOk: bool)
    requires "train_no" in details && ValidAddress(address) && transportOk
    ensures NotifyResult(details, address, transportOk) == Status("success", "Emails sent to 1 war room users")
  {
  }

  // ---------------------------------------------------------------------
  // execute_sql_query (lines 173-176)

  /**
   * Whether the query reaches the database; otherwise ValueError.  Only
   * leading white space matters: after it the first six characters must
   * spell "select" in any case, and trailing white space is irrelevant.
   */
  function QueryAllowed(q: string): (r: bool)
    ensures var t := StripLeft(q);
      r <==> |t| >= 6 && forall i :: 0 <= i < 6 ==> LowerChar(t[i]) == "select"[i]
  {
    SelectSurvivesStripRight(StripLeft(q));
    StartsWith(Lower(Strip(q)), "select")
  }

  /** A "select" prefix ends in a letter, so `StripRight` leaves it in place. */
  lemma SelectSurvivesStripRight(t: string)
    ensures StartsWith(Lower(StripRight(t)), "select") <==>
      |t| >= 6 && forall i :: 0 <= i < 6 ==> LowerChar(t[i]) == "select"[i]
  {
    var r := StripRight(t);
    if |t| >= 6 && forall i :: 0 <= i < 6 ==> LowerChar(t[i]) == "select"[i] {
      assert LowerChar(t[5]) == 't';
      assert !IsSpace(t[5]);
      assert |r| >= 6;
      forall i | 0 <= i < 6 ensures Lower(r)[i] == "select"[i] {
        assert r[i] == t[i];
      }
      assert Lower(r)[..6] == "select";
    }
    if StartsWith(Lower(r), "select") {
      forall i | 0 <= i < 6 ensures LowerChar(t[i]) == "select"[i] {
        assert r[i] == t[i];
        assert Lower(r)[..6][i] == Lower(r)[i];
      }
    }
  }
}
