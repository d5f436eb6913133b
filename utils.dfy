/**
 * utils.py: the helpers of the Django application.  Several of them are an
 * older copy of the ones in utils/email_utils.py and differ from them; the
 * lemmas at the end of each section say where.
 */
module Utils {
  import opened Optional
  import opened Text
  import opened Values
  import opened Records
  import EmailUtils

  // ---------------------------------------------------------------------
  // check_permission (lines 24-29)

  /**
   * The requesting staff user: whether an `Assign_Permission` row exists
   * for them, and the name of their role (None when `user_type` is null).
   */
  datatype StaffUser = StaffUser(hasAssignment: bool, role: Option<string>)

  /** `RoleMissing`: reading `user.user_type.name` raises AttributeError. */
  datatype Permission = Granted | Denied | RoleMissing

  function CheckPermission(u: StaffUser): (p: Permission)
    ensures p == Granted <==> u.hasAssignment || u.role == Some("railway admin") || u.role == Some("s2 admin")
    ensures p == RoleMissing <==> !u.hasAssignment && u.role.None?
  {
    if u.hasAssignment then Granted
    else if u.role.None? then RoleMissing
    else if u.role.value == "railway admin" || u.role.value == "s2 admin" then Granted
    else Denied
  }

  // ---------------------------------------------------------------------
  // upload_file_thread: media type and extension (lines 112-122)

  /** Python's `s.rfind(c)`: the last index holding `c`, or -1. */
  function RFind(s: string, c: char): (i: int)
    ensures -1 <= i < |s|
    ensures i >= 0 ==> s[i] == c
    ensures forall j :: i < j < |s| ==> s[j] != c
  {
    if s == [] then -1
    else if s[|s| - 1] == c then |s| - 1
    else RFind(s[..|s| - 1], c)
  }

  /**
   * The second half of POSIX `os.path.splitext`: from the last '.' of the
   * last path component, unless every character of the component before it
   * is a '.' (so ".bashrc" has no extension).
   */
  function SplitExt(p: string): string {
    var sep := RFind(p, '/');
    var dot := RFind(p, '.');
    if dot > sep && exists k :: sep < k < dot && p[k] != '.' then p[dot..] else ""
  }

  /** `s.lstrip('.')`. */
  function LStripDots(s: string): (r: string)
    ensures |r| <= |s| && r == s[|s| - |r|..]
    decreases |s|
  {
    if s != [] && s[0] == '.' then LStripDots(s[1..]) else s
  }

  /** Line 113: the extension without its dot, lower-cased. */
  function Extension(filename: string): string {
    Lower(LStripDots(SplitExt(filename)))
  }

  lemma LStripOneDot(s: string)
    requires s != [] && s[0] == '.' && '.' !in s[1..]
    ensures LStripDots(s) == s[1..]
  {
    if s[1..] != [] {
      assert s[1..][0] == s[1];
    }
  }

  /** Where the extension starts: just after a '.' that no later '.' or '/' follows. */
  lemma SplitExtAt(p: string) returns (dot: int)
    ensures SplitExt(p) != "" ==>
      0 <= dot < |p| && p[dot] == '.' && SplitExt(p) == p[dot..] &&
      forall j :: dot < j < |p| ==> p[j] != '.' && p[j] != '/'
  {
    dot := RFind(p, '.');
  }

  lemma LowerKeepsShape(s: string)
    requires '.' !in s && '/' !in s
    ensures '.' !in Lower(s) && '/' !in Lower(s)
    ensures forall i :: 0 <= i < |Lower(s)| ==> !('A' <= Lower(s)[i] <= 'Z')
  {
    forall i | 0 <= i < |s| ensures Lower(s)[i] != '.' && Lower(s)[i] != '/' && !('A' <= Lower(s)[i] <= 'Z') {
      assert Lower(s)[i] == LowerChar(s[i]);
      assert s[i] in s;
    }
  }

  /**
   * `p[k]` is the dot `splitext` splits at: no '.' or '/' follows it, and
   * the last path component holds a character other than '.' before it.
   */
  predicate ExtDot(p: string, k: int) {
    0 <= k < |p| && p[k] == '.' &&
    (forall j :: k < j < |p| ==> p[j] != '.' && p[j] != '/') &&
    exists j :: 0 <= j < k && p[j] != '.' && forall i :: j <= i < k ==> p[i] != '/'
  }

  /** `SplitExt` splits exactly at such a dot, or gives "" when there is none. */
  lemma SplitExtDot(p: string)
    ensures forall k :: ExtDot(p, k) ==> SplitExt(p) == p[k..]
    ensures SplitExt(p) != "" ==> ExtDot(p, RFind(p, '.'))
  {
    var sep, dot := RFind(p, '/'), RFind(p, '.');
    forall k | ExtDot(p, k) ensures SplitExt(p) == p[k..] {
      assert dot == k;
      var j :| 0 <= j < k && p[j] != '.' && forall i :: j <= i < k ==> p[i] != '/';
      assert sep < j;
    }
    if SplitExt(p) != "" {
      var k :| sep < k < dot && p[k] != '.';
      assert forall i :: k <= i < dot ==> p[i] != '/';
    }
  }

  /** After the dot `splitext` splits at, the extension is the lower-cased rest of the name. */
  lemma ExtensionAfterDot(p: string, k: int)
    requires ExtDot(p, k)
    ensures Extension(p) == Lower(p[k + 1..])
  {
    SplitExtDot(p);
    var tail, rest := p[k..], p[k + 1..];
    assert tail[1..] == rest;
    assert '.' !in rest by {
      forall j | 0 <= j < |rest| ensures rest[j] != '.' {
        assert rest[j] == p[k + 1 + j];
      }
    }
    LStripOneDot(tail);
  }

  /** Without such a dot there is no extension. */
  lemma NoExtDotNoExtension(p: string)
    requires forall k :: !ExtDot(p, k)
    ensures Extension(p) == ""
  {
    SplitExtDot(p);
  }

  /**
   * The extension holds no '.', no '/' and no upper-case letter.  It is the
   * lower-cased text after the dot `splitext` splits at, and "" when the
   * name has no such dot (".bashrc", "notes", "a.d/readme").
   */
  lemma ExtensionShape(filename: string)
    ensures '.' !in Extension(filename) && '/' !in Extension(filename)
    ensures forall i :: 0 <= i < |Extension(filename)| ==> !('A' <= Extension(filename)[i] <= 'Z')
    ensures forall k :: ExtDot(filename, k) ==> Extension(filename) == Lower(filename[k + 1..])
    ensures (forall k :: !ExtDot(filename, k)) ==> Extension(filename) == ""
  {
    forall k | ExtDot(filename, k) ensures Extension(filename) == Lower(filename[k + 1..]) {
      ExtensionAfterDot(filename, k);
    }
    if forall k :: !ExtDot(filename, k) {
      NoExtDotNoExtension(filename);
    } else {
      var k :| ExtDot(filename, k);
      ExtensionAfterDot(filename, k);
      var rest := filename[k + 1..];
      assert forall j :: 0 <= j < |rest| ==> rest[j] != '.' && rest[j] != '/' by {
        forall j | 0 <= j < |rest| ensures rest[j] != '.' && rest[j] != '/' {
          assert rest[j] == filename[k + 1 + j];
        }
      }
      LowerKeepsShape(rest);
    }
  }

  /** A hidden file has no extension: ".bashrc" gives "". */
  lemma HiddenFileExtension(name: string)
    requires '.' !in name
    ensures Extension("." + name) == ""
  {
    NoExtDotNoExtension("." + name);
  }

  /** A base name with some character other than '.', then a dot, gives the
      lower-cased text after that last dot ("clip.tar.MP4" gives "mp4"). */
  lemma NamedExtension(base: string, ext: string, c: int)
    requires 0 <= c < |base| && base[c] != '.' && '/' !in base
    requires '.' !in ext && '/' !in ext
    ensures Extension(base + "." + ext) == Lower(ext)
  {
    var p := base + "." + ext;
    var k := |base|;
    forall j | k < j < |p| ensures p[j] != '.' && p[j] != '/' {
      assert p[j] == ext[j - k - 1];
    }
    forall i | c <= i < k ensures p[i] != '/' {
      assert p[i] == base[i];
    }
    assert p[c] == base[c];
    assert ExtDot(p, k);
    ExtensionAfterDot(p, k);
    assert p[k + 1..] == ext;
  }

  datatype MediaKind = Image | Video

  /** `Unsupported`: the thread logs and returns without any media record. */
  datatype UploadPlan = Unsupported | Upload(kind: MediaKind, ext: string)

  function ClassifyUpload(filename: string, contentType: string): (r: UploadPlan)
    ensures r.Unsupported? <==> !StartsWith(contentType, "image") && !StartsWith(contentType, "video")
    ensures r.Upload? ==> r.ext == Extension(filename)
    ensures r.Upload? ==> (r.kind == Image <==> StartsWith(contentType, "image"))
  {
    var ext := Extension(filename);
    if StartsWith(contentType, "image") then Upload(Image, ext)
    else if StartsWith(contentType, "video") then Upload(Video, ext)
    else Unsupported
  }

  // ---------------------------------------------------------------------
  // send_plain_mail (lines 205-233)

  /** The `to` argument: a string, a list of nullable strings, or anything else. */
  datatype MailTo = ToText(address: string) | ToList(items: seq<Option<string>>) | ToOther

  /**
   * The list the loop of lines 214-218 builds; None when an element is
   * null, since `startswith` on it raises AttributeError.
   */
  function Kept(items: seq<Option<string>>): Option<seq<string>>
    decreases |items|
  {
    if items == [] then Some([])
    else
      match Kept(items[..|items| - 1])
      case None => None
      case Some(k) =>
        var last := items[|items| - 1];
        if last.None? then None
        else if StartsWith(last.value, "noemail") then Some(k)
        else Some(k + [last.value])
  }

  /** Every recipient is the empty string: Django's `EmailMessage.recipients()`
      drops falsy addresses, so `send()` returns without opening a connection. */
  predicate AllBlank(valid: seq<string>) {
    forall i :: 0 <= i < |valid| ==> valid[i] == ""
  }

  /**
   * The outcome of one call, with the result type of the other copy; here
   * `recipients` is the list given to `EmailMessage`, which contacts the
   * transport only when one of them is non-empty.
   */
  function PlainMailOutcome(to: MailTo, transportOk: bool): EmailUtils.MailResult {
    var items := match to
      case ToText(a) => Some([Some(a)])
      case ToList(xs) => Some(xs)
      case ToOther => None;
    if items.None? then EmailUtils.MailResult(false, None)
    else
      match Kept(items.value)
      case None => EmailUtils.MailResult(false, None)
      case Some(valid) =>
        if valid == [] then EmailUtils.MailResult(true, None)
        else EmailUtils.MailResult(transportOk || AllBlank(valid), Some(valid))
  }

  method SendPlainMail(to: MailTo, transportOk: bool) returns (r: EmailUtils.MailResult)
    ensures r == PlainMailOutcome(to, transportOk)
  {
    var items: seq<Option<string>>;
    match to {
      case ToText(a) => items := [Some(a)];
      case ToList(xs) => items := xs;
      case ToOther =>
        // ValueError, caught by the handler of line 231
        return EmailUtils.MailResult(false, None);
    }
    var valid: seq<string> := [];
    var i := 0;
    while i < |items|
      invariant 0 <= i <= |items|
      invariant Kept(items[..i]) == Some(valid)
    {
      assert items[..i + 1][..i] == items[..i];
      var email := items[i];
      if email.None? {
        assert Kept(items[..i + 1]) == None;
        KeptNoneSticks(items, i + 1);
        return EmailUtils.MailResult(false, None);
      }
      if !StartsWith(email.value, "noemail") {
        valid := valid + [email.value];
      }
      i := i + 1;
    }
    assert items[..i] == items;
    if valid == [] {
      return EmailUtils.MailResult(true, None);
    }
    r := EmailUtils.MailResult(transportOk || AllBlank(valid), Some(valid));
  }

  /** Once an element is null, the whole list fails. */
  lemma {:induction false} KeptNoneSticks(items: seq<Option<string>>, n: nat)
    requires n <= |items| && Kept(items[..n]) == None
    ensures Kept(items) == None
    decreases |items| - n
  {
    if n < |items| {
      assert items[..n + 1][..n] == items[..n];
      KeptNoneSticks(items, n + 1);
    } else {
      assert items[..n] == items;
    }
  }

  /**
   * The list fails iff it holds a null; otherwise it keeps exactly the
   * elements not starting with "noemail" (empty strings and addresses
   * without '@' included).
   */
  lemma {:induction false} KeptMembers(items: seq<Option<string>>)
    ensures Kept(items).None? <==> None in items
    ensures Kept(items).Some? ==> forall e :: e in Kept(items).value <==> Some(e) in items && !StartsWith(e, "noemail")
    decreases |items|
  {
    if items != [] {
      var init := items[..|items| - 1];
      assert items == init + [items[|items| - 1]];
      KeptMembers(init);
    }
  }

  /** A bare string is sent as the one-element list holding it. */
  lemma StringWrapped(a: string, transportOk: bool)
    ensures PlainMailOutcome(ToText(a), transportOk) == PlainMailOutcome(ToList([Some(a)]), transportOk)
  {
  }

  /**
   * With no nulls and no empty strings, the two copies build their message
   * for the same list, and they return alike except that the other copy
   * also fails when `MessageSchema` rejects a recipient without '@'.
   */
  lemma {:induction false} PlainMailCopiesAgree(items: seq<Option<string>>, transportOk: bool)
    requires None !in items && Some("") !in items
    ensures Kept(items) == Some(EmailUtils.ValidRecipients(items))
    ensures PlainMailOutcome(ToList(items), transportOk).recipients == EmailUtils.SendPlainMail(items, transportOk).recipients
    ensures EmailUtils.SendPlainMail(items, transportOk).returned <==>
      PlainMailOutcome(ToList(items), transportOk).returned &&
      (EmailUtils.ValidRecipients(items) == [] || EmailUtils.SchemaAccepts(EmailUtils.ValidRecipients(items)))
    ensures EmailUtils.SchemaAccepts(EmailUtils.ValidRecipients(items)) ==>
      PlainMailOutcome(ToList(items), transportOk) == EmailUtils.SendPlainMail(items, transportOk)
    decreases |items|
  {
    if items != [] {
      var init, last := items[..|items| - 1], items[|items| - 1];
      assert items == init + [last];
      assert forall e :: e in init ==> e in items;
      PlainMailCopiesAgree(init, transportOk);
      EmailUtils.ValidRecipientsAppend(init, [last]);
      assert EmailUtils.ValidRecipients([last]) == (if EmailUtils.Deliverable(last) then [last.value] else []) by {
        assert [last][1..] == [];
      }
      assert last in items;
      assert last.Some? && last.value != "";
      assert EmailUtils.ValidRecipients(init) + [] == EmailUtils.ValidRecipients(init);
    }
    DeliverableNotBlank(items);
  }

  /** A deliverable address is non-empty, so a non-empty list of them is not all blank. */
  lemma DeliverableNotBlank(items: seq<Option<string>>)
    ensures EmailUtils.ValidRecipients(items) != [] ==> !AllBlank(EmailUtils.ValidRecipients(items))
  {
    var valid := EmailUtils.ValidRecipients(items);
    if valid != [] {
      EmailUtils.ValidRecipientsMembers(items);
      assert valid[0] in valid;
    }
  }

  /**
   * Where the copies differ.  An empty string reaches `EmailMessage` here and
   * is dropped there, though both report success without using the
   * transport; a null makes this copy fail and is skipped by the other.
   */
  lemma PlainMailCopiesDiffer()
    ensures PlainMailOutcome(ToList([Some("")]), false) == EmailUtils.MailResult(true, Some([""]))
    ensures EmailUtils.SendPlainMail([Some("")], false) == EmailUtils.MailResult(true, None)
    ensures PlainMailOutcome(ToList([None]), true) == EmailUtils.MailResult(false, None)
    ensures EmailUtils.SendPlainMail([None], true) == EmailUtils.MailResult(true, None)
  {
    assert !StartsWith("", "noemail");
    var blanks := [Some("")];
    assert blanks[..0] == [];
    var none: seq<string> := [];
    assert none + [""] == [""];
    var nulls: seq<Option<string>> := [None];
    assert nulls[..0] == [];
  }

  /**
   * A blank address next to a real one is handed on here, so the transport
   * decides the result; the other copy drops the blank, and its result
   * also needs `a` to pass `MessageSchema`.
   */
  lemma BlankBesideRealAddress(a: string, transportOk: bool)
    requires a != "" && !StartsWith(a, "noemail")
    ensures PlainMailOutcome(ToList([Some(""), Some(a)]), transportOk) == EmailUtils.MailResult(transportOk, Some(["", a]))
    ensures EmailUtils.SendPlainMail([Some(""), Some(a)], transportOk) ==
      EmailUtils.MailResult(transportOk && '@' in a, Some([a]))
  {
    var items := [Some(""), Some(a)];
    assert items[..1] == [Some("")] && items[..1][..0] == [];
    assert !StartsWith("", "noemail");
    var none: seq<string> := [];
    assert none + [""] == [""];
    assert Kept(items[..1]) == Some([""]);
    assert [""] + [a] == ["", a];
    assert Kept(items) == Some(["", a]);
    assert !AllBlank(["", a]) by {
      assert ["", a][1] == a;
    }
    assert items[1..] == [Some(a)] && items[1..][1..] == [];
    assert EmailUtils.ValidRecipients(items[1..]) == [a];
    assert EmailUtils.ValidRecipients(items) == [] + [a] == [a];
  }

  /**
   * A bare string `to`: this copy wraps it in a list, while the other copy,
   * which expects a list, iterates over its characters and hands each
   * one-character string to `MessageSchema` as a recipient.  A character
   * other than '@' is not an address, so the schema raises and that copy
   * returns False without mailing anything.
   */
  lemma StringToCompared(a: string, transportOk: bool)
    requires a != "" && !StartsWith(a, "noemail")
    ensures PlainMailOutcome(ToText(a), transportOk) == EmailUtils.MailResult(transportOk, Some([a]))
    ensures EmailUtils.SendPlainMail(EmailUtils.Iterated(a), transportOk) ==
      EmailUtils.MailResult(transportOk && forall i :: 0 <= i < |a| ==> a[i] == '@', Some(EmailUtils.CharStrings(a)))
    ensures a[0] != '@' ==>
      EmailUtils.SendPlainMail(EmailUtils.Iterated(a), transportOk) == EmailUtils.MailResult(false, Some(EmailUtils.CharStrings(a)))
  {
    var items := [Some(a)];
    assert items[..0] == [];
    var none: seq<string> := [];
    assert none + [a] == [a];
    assert Kept(items) == Some([a]);
    assert !AllBlank([a]) by {
      assert [a][0] == a;
    }
    EmailUtils.IteratedRecipients(a);
    var chars := EmailUtils.CharStrings(a);
    assert forall i :: 0 <= i < |a| ==> ('@' in chars[i] <==> a[i] == '@') by {
      forall i | 0 <= i < |a| ensures '@' in chars[i] <==> a[i] == '@' {
        assert chars[i] == [a[i]];
      }
    }
  }

  // ---------------------------------------------------------------------
  // send_passenger_complain_email (lines 142-202)

  /** Lines 151-153: a user with a truthy depo is kept when the train depot
      occurs in it; a train depot that is not a string makes `in` raise. */
  function DepotTest(trainDepo: Value, u: UserRow): Step {
    if !(u.depo.Some? && u.depo.value != "") then Skip
    else if trainDepo.Str? then (if Contains(u.depo.value, trainDepo.text) then Keep else Skip)
    else Fail
  }

  function DepotStep(trainDepo: Value): UserRow -> Step {
    u => DepotTest(trainDepo, u)
  }

  /**
   * The loop of lines 149-153 over the rows of the query of line 146,
   * which selects every user whose role is not OBHS, EHK or CA (not only
   * the 'war room user' role the other copy selects); a raising query
   * behaves like one returning no rows.
   */
  method WarRoomInDepot(warRoomUsers: seq<UserRow>, trainDepo: Value) returns (inDepot: seq<UserRow>)
    ensures inDepot == Collect(warRoomUsers, DepotStep(trainDepo))
  {
    inDepot := [];
    var i := 0;
    while i < |warRoomUsers|
      invariant 0 <= i <= |warRoomUsers|
      invariant Collect(warRoomUsers, DepotStep(trainDepo)) == inDepot + Collect(warRoomUsers[i..], DepotStep(trainDepo))
    {
      var user := warRoomUsers[i];
      assert warRoomUsers[i..][0] == user && warRoomUsers[i..][1..] == warRoomUsers[i + 1..];
      if user.depo.Some? && user.depo.value != "" {
        if !trainDepo.Str? {
          assert inDepot + [] == inDepot;
          return;
        }
        if Contains(user.depo.value, trainDepo.text) {
          inDepot := inDepot + [user];
        }
      }
      i := i + 1;
    }
    assert warRoomUsers[i..] == [];
  }

  /** With a string train depot, a user is kept iff the user's depo is non-empty and contains it. */
  lemma DepotFilterKeeps(users: seq<UserRow>, t: string)
    ensures forall u :: u in Collect(users, DepotStep(Str(t))) <==>
      u in users && u.depo.Some? && u.depo.value != "" && Contains(u.depo.value, t)
  {
    CollectMembers(users, DepotStep(Str(t)));
  }

  /** Where the copies differ: an empty train depot keeps every user with a
      depo here, and nobody in the other copy. */
  lemma EmptyDepotKeepsAll(users: seq<UserRow>)
    ensures forall u :: u in Collect(users, DepotStep(Str(""))) <==> u in users && u.depo.Some? && u.depo.value != ""
    ensures Collect(users, EmailUtils.DepotStep(Str(""))) == []
  {
    DepotFilterKeeps(users, "");
    forall u: UserRow | u.depo.Some? ensures Contains(u.depo.value, "") {
      EmptyContained(u.depo.value);
    }
    EmailUtils.EmptyDepotKeepsNobody(users);
  }

  /** A null train depot stops this copy at the first user with a depo. */
  lemma NullDepotStops(a: UserRow, rest: seq<UserRow>)
    requires a.depo.Some? && a.depo.value != ""
    ensures Collect([a] + rest, DepotStep(NoneValue)) == []
  {
  }

  const PnrPlaceholder := "pnr is not filled by passenger"

  /** Lines 163-167: a falsy or missing PNR is replaced by the placeholder. */
  function PnrDisplay(details: map<string, Value>): (v: Value)
    ensures Truthy(v)
    ensures Truthy(Get(details, "pnr", NoneValue)) ==> v == details["pnr"]
    ensures !Truthy(Get(details, "pnr", NoneValue)) ==> v == Str(PnrPlaceholder)
  {
    var pnr := Get(details, "pnr", NoneValue);
    if !Truthy(pnr) then Str(PnrPlaceholder) else pnr
  }

  /** Where the copies differ: a present but null PNR shows the placeholder
      here and is passed on unchanged by the other copy. */
  lemma NullPnrCompared()
    ensures PnrDisplay(map["pnr" := NoneValue]) == Str(PnrPlaceholder)
    ensures EmailUtils.TemplateContext(map["pnr" := NoneValue])["pnr"] == NoneValue
  {
  }

  /** The keys the send block reads with `[]`, first the subject's. */
  const RequiredKeys: seq<string> :=
    ["train_no", "user_phone_number", "passenger_name", "train_name", "berth",
     "coach", "complain_id", "created_at", "description"]

  /** The addresses the loop of lines 186-193 sends to, in order: exactly
      the truthy e-mail addresses that do not start with "noemail". */
  function MailTargets(users: seq<UserRow>): (targets: seq<string>)
    ensures forall e :: e in targets ==>
      e != "" && !StartsWith(e, "noemail") && exists u :: u in users && u.email == Some(e)
    ensures forall u :: u in users && u.email.Some? && u.email.value != "" && !StartsWith(u.email.value, "noemail") ==>
      u.email.value in targets
  {
    if users == [] then []
    else
      var email := users[0].email;
      (if email.Some? && email.value != "" && !StartsWith(email.value, "noemail") then [email.value] else [])
      + MailTargets(users[1..])
  }

  /** One message per user, in the order of the users. */
  lemma {:induction false} MailTargetsAppend(a: seq<UserRow>, b: seq<UserRow>)
    ensures MailTargets(a + b) == MailTargets(a) + MailTargets(b)
  {
    if a == [] {
      assert a + b == b;
    } else {
      assert (a + b)[0] == a[0] && (a + b)[1..] == a[1..] + b;
      MailTargetsAppend(a[1..], b);
    }
  }

  /**
   * What one call does.  `Raised`: the KeyError of line 144 escapes.
   * Otherwise the addresses mailed and the response returned (None stands
   * for Python's None, also returned when a key read at lines 162-178 raises
   * and the handler of line 201 swallows it).
   */
  datatype ComplainEmailOutcome =
    | Raised
    | Finished(sends: seq<string>, response: Option<EmailUtils.Status>)

  const NoUsersResponse := EmailUtils.Status("success", "No war room users found")

  /** Every key the send block reads is present. */
  predicate HasRequiredKeys(details: map<string, Value>) {
    forall k :: k in RequiredKeys ==> k in details
  }

  function ComplainEmail(details: map<string, Value>, warRoomUsers: seq<UserRow>): (r: ComplainEmailOutcome)
    ensures r.Raised? <==> "train_depo" !in details
    ensures r.Finished? && !HasRequiredKeys(details) ==> r == Finished([], None)
    ensures r.Finished? ==> r.response.Some? ==> r.response.value == NoUsersResponse
  {
    if "train_depo" !in details then Raised
    else
      var inDepot := Collect(warRoomUsers, DepotStep(details["train_depo"]));
      if exists k :: k in RequiredKeys && k !in details then Finished([], None)
      else Finished(MailTargets(inDepot), if inDepot == [] then Some(NoUsersResponse) else None)
  }

  /**
   * Only a missing `train_depo` escapes; with every required key present,
   * mail goes, in order, to the addresses of the war-room users the depot
   * filter kept, and the "no users" response is given exactly when that
   * filter kept nobody; with a key missing nothing is sent.
   */
  lemma ComplainEmailOutcomes(details: map<string, Value>, warRoomUsers: seq<UserRow>)
    ensures ComplainEmail(details, warRoomUsers).Raised? <==> "train_depo" !in details
    ensures ComplainEmail(details, warRoomUsers).Finished? ==>
      var r := ComplainEmail(details, warRoomUsers);
      var inDepot := Collect(warRoomUsers, DepotStep(details["train_depo"]));
      (HasRequiredKeys(details) ==> r.sends == MailTargets(inDepot)) &&
      (r.sends != [] ==> HasRequiredKeys(details)) &&
      (forall e :: e in r.sends ==>
        !StartsWith(e, "noemail") &&
        exists u :: u in warRoomUsers && u.email == Some(e) && DepotTest(details["train_depo"], u) == Keep) &&
      (r.response.Some? <==> HasRequiredKeys(details) && inDepot == [])
  {
    if "train_depo" in details {
      CollectKeepsOnlyKept(warRoomUsers, DepotStep(details["train_depo"]));
    }
  }

  /**
   * With a string train depot and every key present, an address is mailed
   * iff some war-room user has it, it is truthy and not a placeholder, and
   * the user's depo is non-empty and contains the train depot.
   */
  lemma ComplainEmailRecipients(details: map<string, Value>, warRoomUsers: seq<UserRow>, t: string)
    requires "train_depo" in details && details["train_depo"] == Str(t) && HasRequiredKeys(details)
    ensures forall e :: e in ComplainEmail(details, warRoomUsers).sends <==>
      e != "" && !StartsWith(e, "noemail") &&
      exists u :: u in warRoomUsers && u.email == Some(e) && u.depo.Some? && u.depo.value != "" && Contains(u.depo.value, t)
  {
    var inDepot := Collect(warRoomUsers, DepotStep(Str(t)));
    DepotFilterKeeps(warRoomUsers, t);
    assert ComplainEmail(details, warRoomUsers).sends == MailTargets(inDepot);
  }

  // ---------------------------------------------------------------------
  // execute_sql_query (lines 236-238)

  /** Whether the query reaches the database: no stripping before the test,
      so the first six characters must spell "select" in any case. */
  function QueryAllowed(q: string): (r: bool)
    ensures r <==> |q| >= 6 && forall i :: 0 <= i < 6 ==> LowerChar(q[i]) == "select"[i]
    ensures r ==> !IsSpace(q[0])
  {
    StartsWith(Lower(q), "select")
  }

  /** Every query this copy accepts, the other accepts too ... */
  lemma QueryGuardsCompared(q: string)
    requires QueryAllowed(q)
    ensures EmailUtils.QueryAllowed(q)
  {
    assert Lower(q)[0] == 's' && Lower(q)[5] == 't';
    assert !IsSpace(q[0]) && !IsSpace(q[5]);
    assert StripLeft(q) == q;
    var r := StripRight(q);
    assert |r| > 5;
    assert r[..6] == q[..6];
    assert Lower(r)[..6] == Lower(q)[..6];
  }

  /** ... but not conversely: leading white space is rejected here only. */
  lemma LeadingSpaceQuery()
    ensures !QueryAllowed(" select") && EmailUtils.QueryAllowed(" select")
  {
    var q := " select";
    assert Lower(q)[0] == ' ';
    assert IsSpace(q[0]) && !IsSpace(q[1]);
    assert StripLeft(q[1..]) == q[1..];
    assert q[1..] == "select";
    assert !IsSpace("select"[5]);
    assert StripRight("select") == "select";
    assert Lower("select") == "select" by {
      assert forall i :: 0 <= i < 6 ==> Lower("select")[i] == LowerChar("select"[i]);
    }
  }

}
