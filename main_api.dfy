/**
 * main.py: the decisions of the FastAPI complaint endpoints.  The service
 * layer (`get_complaint_by_id`, `update_complaint`, ...) is represented by
 * what it returned, or by whether it raised.
 */
module MainApi {
  import opened Optional
  import opened Dates
  import opened Values
  import opened Http
  import Views

  /** How an endpoint body ends, before its exception handlers. */
  datatype Outcome = Returned(response: Response) | HttpRaised(code: int, detail: string) | OtherRaised

  const ServerError := Response(500, "Internal server error")

  /** `except HTTPException: raise` followed by `except Exception` (lines 128-132 and the later endpoints). */
  function ReRaise(o: Outcome): Response {
    match o
    case Returned(r) => r
    case HttpRaised(code, detail) => Response(code, detail)
    case OtherRaised => ServerError
  }

  /** `except Exception` alone (lines 99-101, 194-196): an HTTPException is an Exception too. */
  function CatchAll(o: Outcome): Response {
    if o.Returned? then o.response else ServerError
  }

  /** The two handler shapes differ exactly on an HTTPException other than the generic 500. */
  lemma HandlersCompared(o: Outcome)
    ensures o.HttpRaised? ==> ReRaise(o) == Response(o.code, o.detail) && CatchAll(o) == ServerError
    ensures ReRaise(o) != CatchAll(o) <==> o.HttpRaised? && Response(o.code, o.detail) != ServerError
  {
  }

  /** A `get_complaint_by_id` call: a row (a dict, perhaps empty), None, or an exception. */
  datatype Fetch = Row(fields: map<string, Value>) | NoRow | FetchRaised

  /** `if not existing_complaint` fails: None and the empty dict are falsy. */
  predicate Present(f: Fetch) {
    f.Row? && f.fields != map[]
  }

  const NotFound := HttpRaised(404, "Complaint not found")

  // ---------------------------------------------------------------------
  // GET /complaint/get/{complain_id} (lines 86-101)

  function GetComplaintBody(f: Fetch): Outcome {
    if f.FetchRaised? then OtherRaised
    else if !Present(f) then NotFound
    else Returned(Response(200, "Complaint retrieved successfully"))
  }

  /** As written: the 404 raised inside the `try` is caught by `except Exception`,
      so every request that does not find a complaint ends in the generic 500. */
  function GetComplaintAsWritten(f: Fetch): (r: Response)
    ensures r.code == 200 <==> Present(f)
    ensures !Present(f) ==> r == ServerError
  {
    CatchAll(GetComplaintBody(f))
  }

  /** With `except HTTPException: raise` in front, as every other endpoint has. */
  function GetComplaint(f: Fetch): (r: Response)
    ensures r.code == 404 <==> !f.FetchRaised? && !Present(f)
    ensures r.code == 200 <==> Present(f)
    ensures f.FetchRaised? ==> r == ServerError
  {
    ReRaise(GetComplaintBody(f))
  }

  /** An unknown id is reported as a server error by the code as written. */
  lemma MissingComplaintAsWritten()
    ensures GetComplaintAsWritten(NoRow) == ServerError
    ensures GetComplaintAsWritten(Row(map[])) == ServerError
    ensures GetComplaint(NoRow) == Response(404, "Complaint not found")
  {
  }

  /** The correction changes the outcome for a missing complaint and nothing else. */
  lemma GetComplaintFixScope(f: Fetch)
    ensures GetComplaint(f) != GetComplaintAsWritten(f) <==> !f.FetchRaised? && !Present(f)
  {
  }

  // ---------------------------------------------------------------------
  // GET /complaint/get/date/{date_str} (lines 103-132)

  /** `serviceOk`: the lookup and the wrapping of each row raised nothing. */
  function GetByDate(dateText: string, mobile: Value, serviceOk: bool): (r: Response)
    ensures r.code == 400 <==> ParseYmd(dateText).None? || !Truthy(mobile)
    ensures ParseYmd(dateText).None? ==> r == Response(400, "Invalid date format. Use YYYY-MM-DD.")
    ensures ParseYmd(dateText).Some? && !Truthy(mobile) ==> r == Response(400, "mobile_number parameter is required")
    ensures r.code == 200 <==> ParseYmd(dateText).Some? && Truthy(mobile) && serviceOk
  {
    var body :=
      if ParseYmd(dateText).None? then HttpRaised(400, "Invalid date format. Use YYYY-MM-DD.")
      else if !Truthy(mobile) then HttpRaised(400, "mobile_number parameter is required")
      else if !serviceOk then OtherRaised
      else Returned(Response(200, "Complaint retrieved successfully"));
    ReRaise(body)
  }

  // ---------------------------------------------------------------------
  // Form data

  /** The thirteen complaint fields every create and update form declares. */
  const FormKeys: seq<string> :=
    ["pnr_number", "is_pnr_validated", "name", "mobile_number", "complain_type", "complain_description",
     "complain_date", "complain_status", "train_id", "train_number", "train_name", "coach", "berth_no"]

  /** The non-None defaults of the create and replace forms; the update form has none. */
  const FullDefaults: map<string, Value> :=
    map["is_pnr_validated" := Str("not-attempted"), "complain_status" := Str("pending")]

  /**
   * A form parameter as bound: the value sent, else the declared default,
   * else None.  FastAPI treats an empty string sent for an optional form
   * field as absent, so it too gives the default.
   */
  function Bound(form: map<string, Value>, k: string, defaults: map<string, Value>): Value {
    if Sent(form, k) then form[k] else Get(defaults, k, NoneValue)
  }

  /** The field arrived with a non-empty value. */
  predicate Sent(form: map<string, Value>, k: string) {
    k in form && form[k] != Str("")
  }

  /** All thirteen fields, None included, plus `user` set to the name (lines 154-169, 301-316). */
  function FullData(form: map<string, Value>, user: string): (d: map<string, Value>)
    requires user !in FormKeys
    ensures forall k :: k in d <==> k in FormKeys || k == user
    ensures forall k :: k in FormKeys ==> d[k] == Bound(form, k, FullDefaults)
    ensures d[user] == d["name"]
  {
    (map k | k in FormKeys :: Bound(form, k, FullDefaults))[user := Bound(form, "name", FullDefaults)]
  }

  function CreateData(form: map<string, Value>): map<string, Value> {
    FullData(form, "created_by")
  }

  function PutData(form: map<string, Value>): map<string, Value> {
    FullData(form, "updated_by")
  }

  /** The fields among `keys` that arrived with a value other than None. */
  function SentFields(form: map<string, Value>, keys: seq<string>): map<string, Value> {
    map k | k in keys && Bound(form, k, map[]) != NoneValue :: Bound(form, k, map[])
  }

  /** Lines 230-244: the non-None fields, and `updated_by` always. */
  function PatchData(form: map<string, Value>): map<string, Value> {
    SentFields(form, FormKeys)["updated_by" := Bound(form, "name", map[])]
  }

  /** The conditional assignments of lines 230-244, one field at a time. */
  method BuildPatchData(form: map<string, Value>) returns (updateData: map<string, Value>)
    ensures updateData == PatchData(form)
  {
    updateData := map[];
    var i := 0;
    while i < |FormKeys|
      invariant 0 <= i <= |FormKeys|
      invariant updateData == SentFields(form, FormKeys[..i])
    {
      var k := FormKeys[i];
      var v := Bound(form, k, map[]);
      assert forall j :: j in FormKeys[..i + 1] <==> j in FormKeys[..i] || j == k by {
        assert FormKeys[..i + 1] == FormKeys[..i] + [k];
      }
      if v != NoneValue {
        updateData := updateData[k := v];
      }
      i := i + 1;
    }
    assert FormKeys[..i] == FormKeys;
    updateData := updateData["updated_by" := Bound(form, "name", map[])];
  }

  /** What PATCH stores: exactly the fields sent with a value, and who updated. */
  lemma PatchDataShape(form: map<string, Value>)
    ensures forall k :: k in PatchData(form) <==> k == "updated_by" || (k in FormKeys && Sent(form, k) && form[k] != NoneValue)
    ensures forall k :: k in FormKeys && Sent(form, k) && form[k] != NoneValue ==> PatchData(form)[k] == form[k]
    ensures PatchData(form)["updated_by"] == Bound(form, "name", map[])
  {
  }

  /** Every entry PATCH would store, PUT with the same form stores with the same value. */
  lemma PatchWithinPut(form: map<string, Value>)
    ensures forall k :: k in PatchData(form) ==> k in PutData(form) && PutData(form)[k] == PatchData(form)[k]
  {
    var patch := PatchData(form);
    var put := PutData(form);
    forall k | k in patch
      ensures k in put && put[k] == patch[k]
    {
      if k != "updated_by" {
        assert k in FormKeys && Sent(form, k);
      }
    }
  }

  /** Without the two defaults, PUT turns them on: an empty form still stores status "pending". */
  lemma EmptyFormsCompared()
    ensures PatchData(map[]) == map["updated_by" := NoneValue]
    ensures PutData(map[])["complain_status"] == Str("pending")
    ensures PutData(map[])["is_pnr_validated"] == Str("not-attempted")
  {
    var patch := PatchData(map[]);
    assert forall k :: k in patch ==> k == "updated_by";
  }

  /** An empty string counts as not sent: PUT stores the field's default
      ("pending" for the status) and PATCH leaves the field alone. */
  lemma BlankFieldsCompared(form: map<string, Value>, k: string)
    requires k in FormKeys && k in form && form[k] == Str("")
    ensures PutData(form)[k] == Get(FullDefaults, k, NoneValue)
    ensures k == "complain_status" ==> PutData(form)[k] == Str("pending")
    ensures k !in PatchData(form)
  {
    PatchDataShape(form);
  }

  // ---------------------------------------------------------------------
  // POST /complaint/add (lines 134-196)

  /** An endpoint's response and the record it handed to the service, if any. */
  datatype Handled = Handled(response: Response, sent: Option<map<string, Value>>)

  /**
   * The record built from the form always reaches `create_complaint`;
   * success or failure of the service and of the reads after it decide
   * between the wrapped response and the generic 500.
   */
  function Create(form: map<string, Value>, serviceOk: bool): (h: Handled)
    ensures h.sent == Some(CreateData(form))
    ensures h.response.code == 200 <==> serviceOk
    ensures !serviceOk ==> h.response == ServerError
  {
    Handled(CatchAll(if serviceOk then Returned(Response(200, "Complaint created successfully")) else OtherRaised),
            Some(CreateData(form)))
  }

  /** The stored record names its creator and starts pending unless told otherwise. */
  lemma CreateDataDefaults(form: map<string, Value>)
    ensures CreateData(form)["created_by"] == Bound(form, "name", map[])
    ensures !Sent(form, "complain_status") ==> CreateData(form)["complain_status"] == Str("pending")
    ensures !Sent(form, "is_pnr_validated") ==> CreateData(form)["is_pnr_validated"] == Str("not-attempted")
    ensures forall k :: k in FormKeys && Sent(form, k) ==> CreateData(form)[k] == form[k]
  {
  }

  // ---------------------------------------------------------------------
  // The owner check of the four modifying endpoints

  datatype Check = Pass | Refuse | CheckRaised

  /**
   * Lines 224-226 (and 295-297, 355-357, 384-386): refused unless the
   * caller's name is the creator, the complaint is not completed and the
   * mobile number matches.  `or` stops at the first true operand, so a
   * missing key raises only when the reads before it passed.
   */
  function OwnerCheck(existing: map<string, Value>, name: Value, mobile: Value): (c: Check)
    ensures c == Pass <==>
      "created_by" in existing && "complain_status" in existing && "mobile_number" in existing &&
      existing["created_by"] == name && existing["complain_status"] != Str("completed") &&
      existing["mobile_number"] == mobile
    ensures c == CheckRaised <==>
      "created_by" !in existing ||
      (existing["created_by"] == name &&
       ("complain_status" !in existing ||
        (existing["complain_status"] != Str("completed") && "mobile_number" !in existing)))
  {
    if "created_by" !in existing then CheckRaised
    else if existing["created_by"] != name then Refuse
    else if "complain_status" !in existing then CheckRaised
    else if existing["complain_status"] == Str("completed") then Refuse
    else if "mobile_number" !in existing then CheckRaised
    else if existing["mobile_number"] != mobile then Refuse
    else Pass
  }

  const UpdateRefusal := "Only user who created the complaint can update it."
  const DeleteRefusal := "Only user who created the complaint can delete it."

  /** Lookup and owner check; None lets the endpoint go on. */
  function Admit(f: Fetch, name: Value, mobile: Value, refusal: string): Option<Outcome> {
    if f.FetchRaised? then Some(OtherRaised)
    else if !Present(f) then Some(NotFound)
    else
      match OwnerCheck(f.fields, name, mobile)
      case CheckRaised => Some(OtherRaised)
      case Refuse => Some(HttpRaised(403, refusal))
      case Pass => None
  }

  /**
   * FastAPI's check of the value an endpoint returns against its declared
   * `RailSathiComplainResponse` (lines 59-61), which needs `message` and
   * `data`: a bare complaint fails it, and the client gets a plain 500
   * that the endpoint's own handlers never see.
   */
  const ResponseInvalid := Response(500, "Internal Server Error")

  /**
   * The two update endpoints once admitted: the update is handed to the
   * service, and on success the endpoint returns the wrapped response
   * (`wrapped`) or, as written, the bare complaint.
   */
  function Modify(f: Fetch, form: map<string, Value>, data: map<string, Value>, serviceOk: bool, wrapped: bool): Handled {
    var admitted := Admit(f, Bound(form, "name", map[]), Bound(form, "mobile_number", map[]), UpdateRefusal);
    if admitted.Some? then Handled(ReRaise(admitted.value), None)
    else if !serviceOk then Handled(ServerError, Some(data))
    else Handled(if wrapped then Response(200, "") else ResponseInvalid, Some(data))
  }

  /**
   * PATCH /complaint/update/{id} (lines 198-267), with the success value
   * wrapped as the declared response model requires.
   */
  function Patch(f: Fetch, form: map<string, Value>, serviceOk: bool): (h: Handled)
    ensures h.sent.Some? <==> Present(f) && OwnerCheck(f.fields, Bound(form, "name", map[]), Bound(form, "mobile_number", map[])) == Pass
    ensures h.sent.Some? ==> h.sent.value == PatchData(form)
    ensures h.response.code == 200 <==> h.sent.Some? && serviceOk
  {
    Modify(f, form, PatchData(form), serviceOk, true)
  }

  /** PUT /complaint/update/{id} (lines 269-339), wrapped likewise. */
  function Put(f: Fetch, form: map<string, Value>, serviceOk: bool): (h: Handled)
    ensures h.sent.Some? <==> Present(f) && OwnerCheck(f.fields, Bound(form, "name", map[]), Bound(form, "mobile_number", map[])) == Pass
    ensures h.sent.Some? ==> h.sent.value == PutData(form)
    ensures h.response.code == 200 <==> h.sent.Some? && serviceOk
  {
    Modify(f, form, PutData(form), serviceOk, true)
  }

  /**
   * PATCH as written: line 262 returns the bare complaint, so the update
   * is stored as before but every success reaches the client as the
   * response-model 500; every other response is unchanged.
   */
  function PatchAsWritten(f: Fetch, form: map<string, Value>, serviceOk: bool): (h: Handled)
    ensures h.sent == Patch(f, form, serviceOk).sent
    ensures h.response == (if Patch(f, form, serviceOk).response.code == 200 then ResponseInvalid else Patch(f, form, serviceOk).response)
    ensures h.response.code != 200
  {
    Modify(f, form, PatchData(form), serviceOk, false)
  }

  /** PUT as written: line 334 returns the bare complaint in the same way. */
  function PutAsWritten(f: Fetch, form: map<string, Value>, serviceOk: bool): (h: Handled)
    ensures h.sent == Put(f, form, serviceOk).sent
    ensures h.response == (if Put(f, form, serviceOk).response.code == 200 then ResponseInvalid else Put(f, form, serviceOk).response)
    ensures h.response.code != 200
  {
    Modify(f, form, PutData(form), serviceOk, false)
  }

  /** DELETE /complaint/delete/{id} (lines 341-367). */
  function Delete(f: Fetch, name: string, mobile: string, serviceOk: bool): (r: Response)
    ensures r.code == 200 <==> Present(f) && OwnerCheck(f.fields, Str(name), Str(mobile)) == Pass && serviceOk
  {
    var admitted := Admit(f, Str(name), Str(mobile), DeleteRefusal);
    if admitted.Some? then ReRaise(admitted.value)
    else ReRaise(if serviceOk then Returned(Response(200, "Complaint deleted successfully")) else OtherRaised)
  }

  /**
   * DELETE /media/delete/{id} (lines 369-403); `deleted` is what
   * `delete_complaint_media` returned, None when it raised.
   */
  function DeleteMedia(f: Fetch, name: string, mobile: string, ids: seq<int>, deleted: Option<nat>): (r: Response)
    ensures Present(f) && OwnerCheck(f.fields, Str(name), Str(mobile)) == Pass && (ids == [] || deleted.Some?) ==>
      r == MediaDeleteResponse(ids != [], deleted.GetOr(0))
    ensures r.code == 200 ==> Present(f) && OwnerCheck(f.fields, Str(name), Str(mobile)) == Pass
  {
    var admitted := Admit(f, Str(name), Str(mobile), UpdateRefusal);
    if admitted.Some? then ReRaise(admitted.value)
    else if ids == [] then ReRaise(HttpRaised(400, NoIdsText))
    else if deleted.None? then ServerError
    else
      var resp := MediaDeleteResponse(true, deleted.value);
      ReRaise(if resp.code == 200 then Returned(resp) else HttpRaised(resp.code, resp.text))
  }

  /** All four modifying endpoints give 404 for a missing complaint and 403 when the owner check refuses. */
  lemma ModifyingRefusals(f: Fetch, form: map<string, Value>, name: string, mobile: string, ids: seq<int>,
                          deleted: Option<nat>, serviceOk: bool)
    ensures !f.FetchRaised? && !Present(f) ==>
      Patch(f, form, serviceOk).response.code == 404 && Put(f, form, serviceOk).response.code == 404 &&
      Delete(f, name, mobile, serviceOk).code == 404 && DeleteMedia(f, name, mobile, ids, deleted).code == 404
    ensures Present(f) && OwnerCheck(f.fields, Str(name), Str(mobile)) == Refuse ==>
      Delete(f, name, mobile, serviceOk) == Response(403, DeleteRefusal) &&
      DeleteMedia(f, name, mobile, ids, deleted) == Response(403, UpdateRefusal)
    ensures Present(f) && OwnerCheck(f.fields, Bound(form, "name", map[]), Bound(form, "mobile_number", map[])) == Refuse ==>
      Patch(f, form, serviceOk).response == Response(403, UpdateRefusal) &&
      Put(f, form, serviceOk).response == Response(403, UpdateRefusal)
  {
  }

  /**
   * On an open complaint, the Django passenger guard refuses exactly the
   * requests this owner check lets through.
   */
  lemma RoGuardOpposesOwnerCheck(existing: map<string, Value>, request: map<string, Value>)
    requires "created_by" in existing && "complain_status" in existing && "mobile_number" in existing
    requires existing["complain_status"] != Str("completed")
    requires "name" in request && "mobile_number" in request
    ensures Views.RoGuard(existing, request) == Views.Blocked <==>
      OwnerCheck(existing, request["name"], request["mobile_number"]) == Pass
  {
  }
}
