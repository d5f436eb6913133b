/**
 * views.py: the decisions of the Django complaint API for staff users
 * (`RailSathiAPI`) and for passengers (`RoRailSathiAPI`).  Database reads
 * arrive as parameters: whether the complaint exists and its fields, the
 * serializer's verdict, and the outcome of saving.
 */
module Views {
  import opened Optional
  import opened Text
  import opened Dates
  import opened Values
  import opened Records
  import opened Http
  import Utils
  import Serializers

  const Ok := Response(200, "")
  const Created := Response(201, "")
  const Deleted := Response(204, "Complaint deleted successfully")
  /** An exception Django turns into its standard server error. */
  const ServerError := Response(500, "")
  const PermissionDenied := Response(403, "Permission Denied")
  const CompletedRefusal := Response(403, "Completed complaint cannot be updated by non-railway admin users.")
  const BadDate := Response(400, "Invalid date format. Use YYYY-MM-DD.")
  const BadGet := Response(400, "Invalid GET endpoint.")
  const BadDelete := Response(400, "Invalid DELETE endpoint.")

  function Status(fields: map<string, Value>): Value {
    Get(fields, "complain_status", NoneValue)
  }

  // ---------------------------------------------------------------------
  // Shared by both APIs

  /**
   * Both GET handlers (lines 22-48, 211-238): by id, 404 unless the
   * complaint exists; by date, 400 unless the date parses as "%Y-%m-%d";
   * any other route, 400.
   */
  function GetResponse(byIdRoute: string, byDateRoute: string, urlName: string, found: bool, dateText: string): (r: Response)
    requires byIdRoute != byDateRoute
    ensures urlName == byIdRoute ==> r.code == (if found then 200 else 404)
    ensures urlName == byDateRoute ==> (r == BadDate <==> ParseYmd(dateText).None?) && (r.code == 200 || r == BadDate)
    ensures urlName != byIdRoute && urlName != byDateRoute ==> r == BadGet
  {
    if urlName == byIdRoute then (if found then Ok else Response(404, "Not found."))
    else if urlName == byDateRoute then (if ParseYmd(dateText).None? then BadDate else Ok)
    else BadGet
  }

  /** The serializer's verdict and the save, once the checks before them have passed. */
  function SaveResponse(validation: Serializers.Validation, saved: Serializers.SaveOutcome, success: Response): Response {
    match validation
    case Rejected(message) => Response(400, message)
    case LookupRaised => ServerError
    case Validated(_) =>
      if saved == Serializers.TooManyImages then Response(400, Serializers.ImageCapMessage) else success
  }

  // ---------------------------------------------------------------------
  // RailSathiAPI

  function StaffGet(urlName: string, found: bool, dateText: string): Response {
    GetResponse("get-rail-sathi-complain-by-id", "get-rail-sathi-complain-by-date", urlName, found, dateText)
  }

  /** `check_permission` as a gate: None lets the request on. */
  function PermissionGate(user: Utils.StaffUser): (r: Option<Response>)
    ensures r.None? <==> Utils.CheckPermission(user) == Utils.Granted
    ensures Utils.CheckPermission(user) == Utils.Denied ==> r == Some(PermissionDenied)
  {
    match Utils.CheckPermission(user)
    case Granted => None
    case Denied => Some(PermissionDenied)
    case RoleMissing => Some(ServerError)
  }

  /**
   * Lines 90-91 (and 129-130, 170-171, 185-186): a completed complaint is
   * closed to a user whose role name, lower-cased, is not "railway admin";
   * a user without a role is let through.
   */
  function CompletedBlocked(status: Value, user: Utils.StaffUser): (r: bool)
    ensures r ==> status == Str("completed")
    ensures user.role.None? ==> !r
    ensures user.role.Some? && Lower(user.role.value) == "railway admin" ==> !r
    ensures status == Str("completed") && user.role.Some? && "railway admin" != Lower(user.role.value) ==> r
    ensures status == Str("completed") && user.role == Some("s2 admin") ==> r
  {
    if status == Str("completed") && user.role.Some? then
      LowerRoleNames();
      Lower(user.role.value) != "railway admin"
    else false
  }

  /** The two role names `check_permission` knows are already lower-case. */
  lemma LowerRoleNames()
    ensures Lower("railway admin") == "railway admin"
    ensures Lower("s2 admin") == "s2 admin"
  {
    assert forall i :: 0 <= i < |"railway admin"| ==> Lower("railway admin")[i] == LowerChar("railway admin"[i]);
    assert forall i :: 0 <= i < |"s2 admin"| ==> Lower("s2 admin")[i] == LowerChar("s2 admin"[i]);
  }

  /**
   * POST (lines 50-78); `created` is what `serializer.save` does with the
   * validated data: `Serializers.Create`, or `Serializers.CreateAsWritten`
   * for the code as written.
   */
  function StaffPost(user: Utils.StaffUser, validation: Serializers.Validation, created: Serializers.CreateOutcome): (r: Response)
    ensures Utils.CheckPermission(user) == Utils.Denied ==> r == PermissionDenied
    ensures r == Created <==> Utils.CheckPermission(user) == Utils.Granted && validation.Validated? && created.Inserted?
    ensures Utils.CheckPermission(user) == Utils.Granted && validation.Validated? && created.CreateRaised? ==> r == ServerError
  {
    var gate := PermissionGate(user);
    if gate.Some? then gate.value
    else
      match validation
      case Rejected(message) => Response(400, message)
      case LookupRaised => ServerError
      case Validated(_) => if created.Inserted? then Created else ServerError
  }

  /**
   * A permitted POST whose body carries `deleted_media_ids`: the insert as
   * written raises TypeError and the client gets a server error, where the
   * intended `create` stores the complaint.
   */
  lemma StaffPostWithDeletedIds(user: Utils.StaffUser, data: Serializers.ComplaintData)
    requires Utils.CheckPermission(user) == Utils.Granted
    requires Serializers.DeletedIdsKey in data.fields && data.fields.Keys <= Serializers.WritableFields
    ensures StaffPost(user, Serializers.Validated(data), Serializers.CreateAsWritten(data)) == ServerError
    ensures StaffPost(user, Serializers.Validated(data), Serializers.Create(data)) == Created
  {
    Serializers.DeletedIdsBreakCreate(data);
  }

  /** PATCH and PUT (lines 80-117, 119-156); `complaint` is None when the id is unknown. */
  function StaffUpdate(user: Utils.StaffUser, complaint: Option<map<string, Value>>,
                       validation: Serializers.Validation, saved: Serializers.SaveOutcome): (r: Response)
    ensures Utils.CheckPermission(user) == Utils.Denied ==> r == PermissionDenied
    ensures r == Ok <==>
      Utils.CheckPermission(user) == Utils.Granted && complaint.Some? &&
      !CompletedBlocked(Status(complaint.value), user) && validation.Validated? && saved == Serializers.Saved
    ensures Utils.CheckPermission(user) == Utils.Granted && complaint.None? ==> r == Response(404, "Not found.")
    ensures Utils.CheckPermission(user) == Utils.Granted && complaint.Some? ==>
      (r == CompletedRefusal <==> CompletedBlocked(Status(complaint.value), user))
  {
    var gate := PermissionGate(user);
    if gate.Some? then gate.value
    else if complaint.None? then Response(404, "Not found.")
    else if CompletedBlocked(Status(complaint.value), user) then CompletedRefusal
    else SaveResponse(validation, saved, Ok)
  }

  const DeleteRoute := "delete-rail-sathi-complain"
  const DeleteMediaRoute := "delete-image-rail-sathi-complain"

  /**
   * DELETE (lines 158-205): the permission check comes before the route is
   * looked at; `deletedCount` is what the media delete removed.
   */
  function StaffDeleteResponse(urlName: string, user: Utils.StaffUser, complaint: Option<map<string, Value>>,
                               idsGiven: bool, deletedCount: nat): (r: Response)
    ensures Utils.CheckPermission(user) == Utils.Denied ==> r == PermissionDenied
    ensures Utils.CheckPermission(user) == Utils.RoleMissing ==> r == ServerError
    ensures Utils.CheckPermission(user) == Utils.Granted && urlName != DeleteRoute && urlName != DeleteMediaRoute ==>
      r == BadDelete
    ensures Utils.CheckPermission(user) == Utils.Granted && (urlName == DeleteRoute || urlName == DeleteMediaRoute) ==>
      (r == Response(404, "Not found.") <==> complaint.None?) &&
      (complaint.Some? ==> (r == CompletedRefusal <==> CompletedBlocked(Status(complaint.value), user)))
    ensures urlName == DeleteRoute ==>
      (r == Deleted <==> Utils.CheckPermission(user) == Utils.Granted && complaint.Some? &&
                         !CompletedBlocked(Status(complaint.value), user))
    ensures urlName == DeleteMediaRoute && Utils.CheckPermission(user) == Utils.Granted && complaint.Some? ==>
      !CompletedBlocked(Status(complaint.value), user) ==> r == MediaDeleteResponse(idsGiven, deletedCount)
  {
    var gate := PermissionGate(user);
    if gate.Some? then gate.value
    else if urlName != DeleteRoute && urlName != DeleteMediaRoute then BadDelete
    else if complaint.None? then Response(404, "Not found.")
    else if CompletedBlocked(Status(complaint.value), user) then CompletedRefusal
    else if urlName == DeleteRoute then Deleted
    else MediaDeleteResponse(idsGiven, deletedCount)
  }

  /**
   * The media-delete route acting on the stored complaint: media change
   * only when every check passed and ids were given.
   */
  method StaffDeleteMedia(user: Utils.StaffUser, c: Serializers.Complaint?, ids: seq<int>) returns (r: Response)
    requires c != null ==> c.Valid()
    modifies c
    ensures c != null ==> c.Valid() && c.fields == old(c.fields) && |c.media| <= |old(c.media)|
    ensures c == null ==> r == StaffDeleteResponse(DeleteMediaRoute, user, None, ids != [], 0)
    ensures c != null ==>
      r == StaffDeleteResponse(DeleteMediaRoute, user, Some(old(c.fields)), ids != [], |old(c.media)| - |c.media|)
    ensures c != null && !(PermissionGate(user).None? && !CompletedBlocked(Status(old(c.fields)), user) && ids != []) ==>
      c.media == old(c.media)
    ensures c != null && PermissionGate(user).None? && !CompletedBlocked(Status(old(c.fields)), user) && ids != [] ==>
      c.media == Serializers.Without(old(c.media), ids)
  {
    var gate := PermissionGate(user);
    if gate.Some? {
      return gate.value;
    }
    if c == null {
      return Response(404, "Not found.");
    }
    if CompletedBlocked(Status(c.fields), user) {
      return CompletedRefusal;
    }
    if ids == [] {
      return MediaDeleteResponse(false, 0);
    }
    var count := c.DeleteMedia(ids);
    r := MediaDeleteResponse(true, count);
  }

  /** Every mutating handler refuses a user `check_permission` denies, whatever the request. */
  lemma DeniedEverywhere(user: Utils.StaffUser, complaint: Option<map<string, Value>>, v: Serializers.Validation,
                         created: Serializers.CreateOutcome, saved: Serializers.SaveOutcome, urlName: string,
                         idsGiven: bool, n: nat)
    requires !user.hasAssignment && user.role.Some? && user.role.value != "railway admin" && user.role.value != "s2 admin"
    ensures StaffPost(user, v, created) == PermissionDenied
    ensures StaffUpdate(user, complaint, v, saved) == PermissionDenied
    ensures StaffDeleteResponse(urlName, user, complaint, idsGiven, n) == PermissionDenied
  {
  }

  /** The completed-complaint guard lower-cases the role but `check_permission`
      does not: "Railway Admin" passes the guard yet is denied without an assignment. */
  lemma RoleCaseMatters(status: Value)
    ensures !CompletedBlocked(status, Utils.StaffUser(false, Some("Railway Admin")))
    ensures Utils.CheckPermission(Utils.StaffUser(false, Some("Railway Admin"))) == Utils.Denied
  {
    assert Lower("Railway Admin") == "railway admin";
  }

  // ---------------------------------------------------------------------
  // RoRailSathiAPI

  function RoGet(urlName: string, found: bool, dateText: string): Response {
    GetResponse("ro-get-rail-sathi-complain-by-id", "ro-get-rail-sathi-complain-by-date", urlName, found, dateText)
  }

  /**
   * POST (lines 240-319): saving reads `data['name']`, a KeyError when
   * absent, before `created`, what the insert does, is reached.
   */
  function RoPost(request: map<string, Value>, validation: Serializers.Validation, created: Serializers.CreateOutcome): (r: Response)
    ensures r == Created <==> validation.Validated? && "name" in request && created.Inserted?
    ensures validation.Validated? && created.CreateRaised? ==> r == ServerError
  {
    match validation
    case Rejected(message) => Response(400, message)
    case LookupRaised => ServerError
    case Validated(_) => if "name" in request && created.Inserted? then Created else ServerError
  }

  /** The passenger POST fails the same way when its body carries `deleted_media_ids`. */
  lemma RoPostWithDeletedIds(request: map<string, Value>, data: Serializers.ComplaintData)
    requires "name" in request
    requires Serializers.DeletedIdsKey in data.fields && data.fields.Keys <= Serializers.WritableFields
    ensures RoPost(request, Serializers.Validated(data), Serializers.CreateAsWritten(data)) == ServerError
    ensures RoPost(request, Serializers.Validated(data), Serializers.Create(data)) == Created
  {
    Serializers.DeletedIdsBreakCreate(data);
  }

  datatype GuardOutcome = Blocked | Passed | GuardRaised

  /**
   * Lines 326, 359, 395, 409 as written: the request is refused when it
   * comes from the complaint's creator, with the complaint still open and
   * the same mobile number.  `and` stops at the first false operand, so a
   * missing `mobile_number` raises only when the first two hold.
   */
  function RoGuard(fields: map<string, Value>, request: map<string, Value>): (g: GuardOutcome)
    ensures g == Blocked <==>
      "name" in request && "mobile_number" in request &&
      Get(fields, "created_by", NoneValue) == request["name"] && Status(fields) != Str("completed") &&
      Get(fields, "mobile_number", NoneValue) == request["mobile_number"]
    ensures g == GuardRaised <==>
      "name" !in request ||
      (Get(fields, "created_by", NoneValue) == request["name"] && Status(fields) != Str("completed") &&
       "mobile_number" !in request)
  {
    if "name" !in request then GuardRaised
    else if Get(fields, "created_by", NoneValue) != request["name"] then Passed
    else if Status(fields) == Str("completed") then Passed
    else if "mobile_number" !in request then GuardRaised
    else if Get(fields, "mobile_number", NoneValue) == request["mobile_number"] then Blocked
    else Passed
  }

  const CreatorRefusal := Response(403, "Only user who created the complaint can update it.")

  function GuardResponse(g: GuardOutcome): Option<Response> {
    match g
    case Blocked => Some(CreatorRefusal)
    case GuardRaised => Some(ServerError)
    case Passed => None
  }

  /** PATCH and PUT (lines 321-385). */
  function RoUpdate(complaint: Option<map<string, Value>>, request: map<string, Value>,
                    validation: Serializers.Validation, saved: Serializers.SaveOutcome): (r: Response)
    ensures r == Ok <==>
      complaint.Some? && RoGuard(complaint.value, request) == Passed && validation.Validated? && saved == Serializers.Saved
    ensures complaint.None? ==> r == Response(404, "Not found.")
    ensures complaint.Some? ==> (r == CreatorRefusal <==> RoGuard(complaint.value, request) == Blocked)
    ensures complaint.Some? && RoGuard(complaint.value, request) == GuardRaised ==> r == ServerError
  {
    if complaint.None? then Response(404, "Not found.")
    else
      var refused := GuardResponse(RoGuard(complaint.value, request));
      if refused.Some? then refused.value else SaveResponse(validation, saved, Ok)
  }

  const RoDeleteRoute := "ro-delete-rail-sathi-complain"
  const RoDeleteMediaRoute := "ro-delete-image-rail-sathi-complain"

  /** DELETE (lines 387-428). */
  function RoDelete(urlName: string, complaint: Option<map<string, Value>>, request: map<string, Value>,
                    idsGiven: bool, deletedCount: nat): (r: Response)
    ensures urlName != RoDeleteRoute && urlName != RoDeleteMediaRoute ==> r == BadDelete
    ensures urlName == RoDeleteRoute ==>
      (r == Deleted <==> complaint.Some? && RoGuard(complaint.value, request) == Passed)
    ensures urlName == RoDeleteMediaRoute && complaint.Some? && RoGuard(complaint.value, request) == Passed ==>
      r == MediaDeleteResponse(idsGiven, deletedCount)
    ensures (urlName == RoDeleteRoute || urlName == RoDeleteMediaRoute) && complaint.None? ==>
      r == Response(404, "Not found.")
    ensures (urlName == RoDeleteRoute || urlName == RoDeleteMediaRoute) && complaint.Some? ==>
      (r == CreatorRefusal <==> RoGuard(complaint.value, request) == Blocked)
    ensures (urlName == RoDeleteRoute || urlName == RoDeleteMediaRoute) && complaint.Some? ==>
      RoGuard(complaint.value, request) == GuardRaised ==> r == ServerError
  {
    if urlName != RoDeleteRoute && urlName != RoDeleteMediaRoute then BadDelete
    else if complaint.None? then Response(404, "Not found.")
    else
      var refused := GuardResponse(RoGuard(complaint.value, request));
      if refused.Some? then refused.value
      else if urlName == RoDeleteRoute then Deleted
      else MediaDeleteResponse(idsGiven, deletedCount)
  }

  /** As written, the guard refuses the creator of an open complaint and lets anyone else through. */
  lemma RoGuardRefusesCreator(fields: map<string, Value>, name: string, mobile: string, other: string)
    requires Get(fields, "created_by", NoneValue) == Str(name) && Status(fields) == Str("pending")
    requires Get(fields, "mobile_number", NoneValue) == Str(mobile) && other != name
    ensures RoGuard(fields, map["name" := Str(name), "mobile_number" := Str(mobile)]) == Blocked
    ensures RoGuard(fields, map["name" := Str(other), "mobile_number" := Str(mobile)]) == Passed
  {
  }

  // ---------------------------------------------------------------------
  // The e-mail details of the RO POST (lines 269-293)

  /**
   * The dictionary handed to `send_passenger_complain_email`.  The train
   * fields come from the linked train when there is one; otherwise from the
   * complaint, with the depot of the first registry row for that number.
   * None: that row does not exist, so reading its `Depot` raises and the
   * thread's handler ends it without mail.  `registryFirst` is that row.
   */
  function RoEmailDetails(fields: map<string, Value>, complaintId: Value, linked: Option<TrainRecord>,
                          registryFirst: Option<TrainRecord>): (r: Option<map<string, Value>>)
    ensures r.None? <==>
      linked.None? && Truthy(Get(fields, "train_number", NoneValue)) && registryFirst.None?
    ensures r.Some? ==> (forall k :: k in Utils.RequiredKeys ==> k in r.value) && "train_depo" in r.value
    ensures r.Some? && linked.Some? ==>
      r.value["train_no"] == linked.value.trainNo && r.value["train_name"] == linked.value.trainName &&
      r.value["train_depo"] == linked.value.depot
    ensures r.Some? && linked.None? ==>
      r.value["train_no"] == Get(fields, "train_number", NoneValue) &&
      r.value["train_name"] == Get(fields, "train_name", NoneValue) &&
      r.value["train_depo"] ==
        (if Truthy(Get(fields, "train_number", NoneValue)) then registryFirst.value.depot else Str(""))
    ensures r.Some? ==> "complain_id" in r.value && r.value["complain_id"] == complaintId
    ensures r.Some? ==> "pnr" in r.value && r.value["pnr"] == Get(fields, "pnr_number", NoneValue)
  {
    var number := if linked.Some? then linked.value.trainNo else Get(fields, "train_number", NoneValue);
    var name := if linked.Some? then linked.value.trainName else Get(fields, "train_name", NoneValue);
    if linked.None? && Truthy(number) && registryFirst.None? then None
    else
      var depo :=
        if linked.Some? then linked.value.depot
        else if Truthy(number) then registryFirst.value.depot
        else Str("");
      Some(map[
        "train_no" := number,
        "train_name" := name,
        "user_phone_number" := Get(fields, "mobile_number", NoneValue),
        "passenger_name" := Get(fields, "name", NoneValue),
        "pnr" := Get(fields, "pnr_number", NoneValue),
        "berth" := Get(fields, "berth_no", NoneValue),
        "coach" := Get(fields, "coach", NoneValue),
        "complain_id" := complaintId,
        "created_at" := Get(fields, "created_at", NoneValue),
        "description" := Get(fields, "complain_description", NoneValue),
        "train_depo" := depo
      ])
  }

  /**
   * Details built here never make `send_passenger_complain_email` raise or
   * skip its sends for a missing key: it mails the depot's war-room users.
   */
  lemma RoDetailsReachSend(fields: map<string, Value>, complaintId: Value, linked: Option<TrainRecord>,
                           registryFirst: Option<TrainRecord>, warRoomUsers: seq<UserRow>)
    requires RoEmailDetails(fields, complaintId, linked, registryFirst).Some?
    ensures var d := RoEmailDetails(fields, complaintId, linked, registryFirst).value;
      var inDepot := Collect(warRoomUsers, Utils.DepotStep(d["train_depo"]));
      Utils.ComplainEmail(d, warRoomUsers) ==
        Utils.Finished(Utils.MailTargets(inDepot), if inDepot == [] then Some(Utils.NoUsersResponse) else None)
  {
    var d := RoEmailDetails(fields, complaintId, linked, registryFirst).value;
    assert !exists k :: k in Utils.RequiredKeys && k !in d;
  }
}
