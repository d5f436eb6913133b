# RailSathi complaint back end: recipient resolution and request rules

RailSathi takes passenger complaints about trains. It exposes them through a
Django REST API (views.py, serializers.py, utils.py) and a standalone FastAPI
service (main.py, utils/email_utils.py). When a complaint arrives, war-room
staff in the train's depot are told by e-mail. A diagnostic function
(debug_script.py) lists everyone who would be notified:

- war-room users of the depot, those with the role 'war room user';
- the S2 admins;
- the railway admins;
- users whose train access covers the complaint's date.

This Dafny project models the code that decides who gets e-mailed and the
rules that decide what each endpoint answers. The rows a database query
would return are inputs. So are the mail transport's success and the
serializer's verdict.

Modules, one per source file, plus shared definitions:

| module | models |
|---|---|
| `Optional`, `Text`, `Values`, `Dates`, `Records` | Python's `Optional[...]`; `str` operations (`startswith`, `in`, `lower`, `strip`, `str(int)`); Python values with truthiness and `dict.get`; `datetime.strptime(s, "%Y-%m-%d")` as CPython's `_strptime` matches it, and `strftime`; the database rows; the generic "test each user, append, stop on an exception" loop |
| `DebugScript` | `debug_user_lists`: complaint-date parsing, the train-access loop, aggregation, e-mail filter, `dict.fromkeys` de-duplication, TO/CC split |
| `EmailUtils` | utils/email_utils.py: `send_plain_mail`, the depot filter, the template context, the status result, the `execute_sql_query` guard |
| `Utils` | utils.py: `check_permission`, upload classification, its own `send_plain_mail`, depot filter, PNR display and guard |
| `Http` | the response type and the media-delete outcome that both APIs share |
| `Serializers` | `CustomDateField.to_representation`, `validate`, and the media merge of `update` (a `Complaint` class with in-place `Update` and `DeleteMedia`) |
| `Views` | the decisions of `RailSathiAPI` and `RoRailSathiAPI`, and the e-mail details the passenger POST builds |
| `MainApi` | the FastAPI endpoints: exception handling, date and mobile checks, the owner check, and the PATCH and PUT update dictionaries |

Imperative loops are Dafny methods proved equal to a specification function
over the inputs. These include the access loop, the e-mail collection, the
de-duplication, both depot filters, both `send_plain_mail` filters, the
PATCH dictionary and the media merge. The lemmas state what the source
promises about those functions.

Both copies of the notification helpers are modelled, each as written. The
model proves where they differ:

- an empty train depot;
- a `None` address, and a blank one, which reaches Django's `EmailMessage` in one copy and is dropped before FastMail in the other;
- a string `to`, wrapped as one address in one copy and iterated character by character in the other, where `MessageSchema` rejects every one-character recipient, so that copy returns False and mails nothing (the model keeps only the '@' part of that check);
- the query guard, which strips whitespace in one copy and not the other.

In both copies the users given to the depot filter are a parameter, but they come from different queries. utils.py's query (line 146) selects every user whose role is not OBHS, EHK or CA. utils/email_utils.py's selects the users with the role 'war room user'.

The passenger-side guard in views.py is also modelled as written. It refuses
the complaint's creator, which is the reverse of the FastAPI owner check
(`MainApi.RoGuardOpposesOwnerCheck`).

## Model

| member | source | states |
|---|---|---|
| Text.ContainsAt | utils/email_utils.py:69 | a window of `s` equal to `p` at any position makes `p in s` true |
| Text.ContainsIff | utils/email_utils.py:69 | `p in s` holds iff some window of `s` equals `p` |
| Text.StripLeft | utils/email_utils.py:175 | the result is a suffix; every removed character is whitespace in Python's sense; the result does not start with whitespace |
| Text.StripRight | debug_script.py:139 | the result is a prefix; every removed character is whitespace; the result does not end with whitespace |
| Dates.ParseYmd | debug_script.py:148 | a parsed date is a valid calendar date and came from 8 to 10 characters |
| Dates.ParseFormat | serializers.py:26-28 | formatting a valid date as `%Y-%m-%d` and parsing it back gives the same date |
| Dates.ParsedLength | debug_script.py:147-148 | a string longer than ten characters, such as a full timestamp, never parses |
| Records.CollectMembers | utils/email_utils.py:65-70 | when no user's test raises, the loop keeps exactly the users the test accepts, each at most as often as in the input |
| Records.CollectKeepsOnlyKept | utils.py:149-153 | even when a test raises part-way, every user kept is an input user the test accepted |
| DebugScript.ComplaintDateCases | debug_script.py:142-154 | a datetime gives its date; a formatted date string gives that date; a plain date gives none; a string of exactly ten characters gives what `strptime` parses from it, and any other string gives none |
| DebugScript.ComplaintDateExamples | debug_script.py:146-150 | "2025-10- 9" gives 9 October 2025 (a space-padded day); "2025-1-1" parses but is refused by the length test |
| DebugScript.CrashSticks | debug_script.py:185-187 | once a window that is not an object makes `access.get` raise, the whole call fails, whatever rows follow |
| DebugScript.CollectTrainAccess | debug_script.py:159-216 | the nested user and window loops with `break` and `continue` compute the access list |
| DebugScript.ScanFindsOrigin | debug_script.py:185-203 | over well-formed windows, a user matches iff some window's origin date equals the complaint date |
| DebugScript.EndDateIgnored | debug_script.py:187-194 | windows that differ only in `end_date` give the same verdict |
| DebugScript.BadWindowSkipped | debug_script.py:205-208 | a window whose origin date does not parse is skipped and the windows around it still count |
| DebugScript.NoMatchUserSkipped | debug_script.py:209-216 | a user without the train key, or with undecodable details, drops out and the other users are unaffected |
| DebugScript.UndecodableNoMatch | debug_script.py:213-216 | undecodable train details never match |
| DebugScript.NonObjectPayload | debug_script.py:176-182 | train details that decode to something other than an object make the whole call fail when `verbose` is set, and only drop that user otherwise |
| DebugScript.TrainValueKinds | debug_script.py:185-187 | a non-empty object or string stored for the train makes the call fail; a number, boolean or null drops the user; an array is scanned window by window |
| DebugScript.VerboseOnlyForOtherJson | debug_script.py:176-216 | when every payload is an object or undecodable, the `verbose` flag does not change the access list |
| DebugScript.AccessListMembers | debug_script.py:181-203 | the access list holds exactly the matching users, each at most as often as in the rows |
| DebugScript.CollectEmails | debug_script.py:232-236 | the loop appends the valid addresses of all users, in order |
| DebugScript.ValidEmailsAppend | debug_script.py:230-236 | the filter distributes over the concatenated lists, so their order is kept |
| DebugScript.ValidEmailsMembers | debug_script.py:233-236 | an address is collected iff some user carries it, it is non-empty, it does not start with "noemail" and it contains '@' |
| DebugScript.UniqueEmails | debug_script.py:238 | the loop computes `list(dict.fromkeys(...))` |
| DebugScript.DedupElements | debug_script.py:238 | de-duplication keeps exactly the same elements and leaves no duplicates |
| DebugScript.DedupFirstSeen | debug_script.py:238 | de-duplicated elements appear in the order of their first occurrence |
| DebugScript.DedupHead | debug_script.py:238 | the first element survives de-duplication in first place |
| DebugScript.Address | debug_script.py:243-247 | the first unique address is TO, all later ones are CC, and together they are the unique list |
| DebugScript.Resolve | debug_script.py:11-261 | any failing query gives None; a result's `total_recipients` is the number of its unique e-mails |
| DebugScript.DebugUserLists | debug_script.py:11-261 | the queries run one after the other and the method computes `Resolve`, returning None as soon as an exception would reach the handler of lines 258-261 |
| DebugScript.ResolveNone | debug_script.py:43-261 | None iff a query raises, the war-room query returns None, or the access loop raises |
| DebugScript.FailedQueryGivesNone | debug_script.py:48-66 | a raising depot, S2, railway-admin or access query, or a war-room query returning None (`len(None)` at line 66), gives None whatever the other queries give |
| DebugScript.ResolveShape | debug_script.py:249-256 | absent S2 and railway lists become empty; the e-mails are the de-duplicated valid addresses of the four lists in order; `total_recipients` is their count |
| DebugScript.UniqueValidEmails | debug_script.py:232-238 | the unique e-mails are distinct, are exactly the valid addresses of the users, and keep first-seen order |
| DebugScript.RecipientsCharacterised | debug_script.py:230-256 | across the pipeline, `total_recipients` counts distinct addresses, namely exactly the valid addresses of all four lists |
| DebugScript.WarRoomFirst | debug_script.py:230-247 | with a valid war-room address, the first one is the TO address |
| DebugScript.PrimaryIsWarRoom | debug_script.py:230-247 | in every result, the first valid war-room address is the TO address when there is one |
| DebugScript.AccessRuleDisabled | debug_script.py:139-159 | without a complaint date, a `train_number` or access rows, the access list is empty |
| DebugScript.EmptyAccessResolves | debug_script.py:159-256 | with the access rule skipped, the call returns a result iff no query failed, and that result has no train-access users |
| DebugScript.WarRoomDepot | debug_script.py:43-66 | a result means the depot query did not raise, and its war-room users are the rows of the war-room query |
| DebugScript.NoDepotRow | debug_script.py:52-63 | when the depot query gives no rows or None, the war-room query is made for '' |
| DebugScript.FirstDepotRow | debug_script.py:52-63 | otherwise it is made for the first registry row's depot |
| EmailUtils.ValidRecipientsAppend | utils/email_utils.py:16 | the recipient filter distributes over concatenation, so it keeps the original order |
| EmailUtils.ValidRecipientsMembers | utils/email_utils.py:16 | an address survives iff it is truthy and does not start with "noemail" |
| EmailUtils.SendPlainMail | utils/email_utils.py:12-44 | no valid recipient means True with nothing sent; otherwise one message for exactly the valid recipients, returning True iff `MessageSchema` accepts them (each contains '@') and the transport succeeds |
| EmailUtils.NothingDeliverableSucceeds | utils/email_utils.py:18-20 | a list of placeholders, blanks and nulls reports success even when the transport is down |
| EmailUtils.IteratedRecipients | utils/email_utils.py:16 | a bare string passed as `to` is iterated, and each of its characters becomes a recipient of its own |
| EmailUtils.WarRoomInDepot | utils/email_utils.py:52-75 | the append loop, which ends early when `in` raises, computes the depot filter |
| EmailUtils.DepotFilterKeeps | utils/email_utils.py:65-70 | with a string depot, a user is kept iff the user's depo is non-empty, the train depot is non-empty, and the depot occurs in the depo |
| EmailUtils.EmptyDepotKeepsNobody | utils/email_utils.py:50-69 | with the default empty `train_depot`, nobody is kept |
| EmailUtils.NonStringDepotKeepsNobody | utils/email_utils.py:69-75 | a depot that is not a string keeps nobody, because `in` raises and the handler ends the loop |
| EmailUtils.TemplateContext | utils/email_utils.py:80-95 | the context has exactly the twelve keys; copied fields default to ''; the PNR default applies only when the key is absent; `site_name` is "RailSathi" |
| EmailUtils.PresentPnrKept | utils/email_utils.py:80 | a PNR key that is present but null or blank is not replaced by the default |
| EmailUtils.EmailsSent | utils/email_utils.py:143-157 | at most one e-mail is counted, exactly when the address passes the test and the transport succeeds |
| EmailUtils.NotifyResult | utils/email_utils.py:159-170 | "error" with message `'train_no'` iff the subject's key is missing; otherwise success, with "No war room users found for this depot" iff nothing was sent and the count otherwise |
| EmailUtils.OneEmailReported | utils/email_utils.py:143-166 | a valid address and a working transport report one e-mail, whatever the depot filter found |
| EmailUtils.QueryAllowed | utils/email_utils.py:173-176 | a query runs iff, after leading whitespace, its first six characters spell "select" in any case; trailing whitespace is irrelevant |
| Utils.CheckPermission | utils.py:24-29 | granted iff an assignment exists or the role is "railway admin" or "s2 admin"; a user with no role and no assignment raises |
| Utils.SplitExtDot | utils.py:112 | `splitext` splits exactly at a dot with no later '.' or '/' and a non-dot character before it in the last path component, and gives "" when there is none |
| Utils.ExtensionShape | utils.py:112-113 | the extension has no '.', no '/' and no upper-case letter; it is the lower-cased text after the dot `splitext` splits at, and "" when there is no such dot |
| Utils.HiddenFileExtension | utils.py:112-113 | a dot followed by a dot-free name, such as ".bashrc", has no extension |
| Utils.NamedExtension | utils.py:112-113 | a name, a dot and a dot-free tail give the lower-cased tail, so "clip.tar.MP4" gives "mp4" |
| Utils.ClassifyUpload | utils.py:112-122 | "image…" gives an image and "video…" gives a video, both with the extension; any other content type gives no upload |
| Utils.SendPlainMail | utils.py:205-233 | the normalise-and-filter loop gives the specified outcome |
| Utils.KeptNoneSticks | utils.py:214-233 | once a null element raises in the loop, the call returns False whatever follows |
| Utils.KeptMembers | utils.py:213-218 | the loop fails iff some element is null; otherwise it keeps exactly the elements not starting with "noemail" |
| Utils.StringWrapped | utils.py:207-208 | a string `to` behaves as the one-element list |
| Utils.PlainMailCopiesAgree | utils.py:213-222 | without nulls or blank strings, both copies of `send_plain_mail` build their message for the same list; they return alike except that the FastAPI copy also fails when a recipient lacks '@', and fully agree when every recipient has one |
| Utils.PlainMailCopiesDiffer | utils.py:213-229 | `[""]` reaches `EmailMessage` here, which sends nothing and returns True, while the other copy drops it; `[None]` gives False here and True there |
| Utils.BlankBesideRealAddress | utils.py:213-229 | a blank address beside a real one is handed on here and dropped there; here the transport decides the result, there it also takes an '@' in the real address |
| Utils.StringToCompared | utils.py:207-208 | a string `to` is mailed here as one address, while the other copy hands each of its characters to `MessageSchema`, which rejects them unless all are '@', so that copy returns False; with a first character other than '@' it returns False whatever the transport |
| Utils.WarRoomInDepot | utils.py:149-153 | the append loop computes this copy's depot filter |
| Utils.DepotFilterKeeps | utils.py:149-153 | a user is kept iff the user's depo is truthy and the train depot occurs in it |
| Utils.EmptyDepotKeepsAll | utils.py:151-152 | an empty train depot keeps every user with a depo, where the other copy keeps nobody |
| Utils.NullDepotStops | utils.py:152-159 | a null train depot reaching a user with a depo raises and keeps nobody |
| Utils.PnrDisplay | utils.py:163-167 | a falsy PNR is shown as the placeholder and any other PNR unchanged |
| Utils.NullPnrCompared | utils.py:163-167 | a null PNR is replaced here but passed through by the other copy |
| Utils.MailTargets | utils.py:186-193 | an address is mailed iff some given user has it, it is non-empty and it does not start with "noemail" |
| Utils.MailTargetsAppend | utils.py:186-193 | the users are mailed one after another, in order |
| Utils.ComplainEmail | utils.py:142-202 | KeyError escapes iff `train_depo` is missing; a missing key read by the send block means nothing is sent and None is returned; the only response is "No war room users found" |
| Utils.ComplainEmailOutcomes | utils.py:142-202 | with every read key present, the mails go, in order, to the addresses of the users the depot filter kept; with one missing, nothing is sent; "No war room users found" is given iff the keys are present and the filter kept nobody |
| Utils.ComplainEmailRecipients | utils.py:144-193 | with a string depot, an address is mailed iff a war-room user has it, it is truthy and not a placeholder, and that user's depo is non-empty and contains the depot |
| Utils.QueryAllowed | utils.py:236-238 | a query runs iff its first six characters spell "select" in any case, so it never starts with whitespace |
| Utils.QueryGuardsCompared | utils.py:237-238 | a query this guard accepts is accepted by the stripping guard too |
| Utils.LeadingSpaceQuery | utils.py:237-238 | " select" is refused here and accepted by the other copy |
| Http.MediaDeleteResponse | views.py:191-202 | an empty id list gives 400, a delete that matched nothing gives 400, and otherwise 200 reporting the count |
| Serializers.DateRepresentation | serializers.py:9-13 | a falsy value gives null; a date or datetime gives its `%Y-%m-%d` text; a string passes through; a number fails |
| Serializers.DateRepresentationParses | serializers.py:9-13 | the text produced for a date parses back to that date |
| Serializers.Validate | serializers.py:42-75 | a given train overwrites number and name; without one, both are required and a failed lookup does not reject; more than ten images are refused only on create; the media list is kept |
| Serializers.RevalidateTrainGiven | serializers.py:47-53 | validating already-validated data with a train changes nothing |
| Serializers.CreateAsWritten | serializers.py:77-79 | as written: the row is inserted with exactly the validated fields iff every one names a column of the model; otherwise TypeError |
| Serializers.Create | serializers.py:77-79 | corrected: `deleted_media_ids` never reaches the insert, and data holding only columns and that list is always inserted, without the list |
| Serializers.CreateAgreesWithoutDeletedIds | serializers.py:77-79 | without `deleted_media_ids` the corrected and the as-written `create` agree |
| Serializers.DeletedIdsBreakCreate | serializers.py:31-33 | with `deleted_media_ids`, a declared write-only field, the as-written `create` raises where the corrected one inserts |
| Serializers.Without | serializers.py:96-99 | the media left are exactly those whose id is not listed; the length is kept iff none matched |
| Serializers.WithoutValid | serializers.py:96-99 | deletion keeps ids distinct and in range |
| Serializers.MergeItemValid | serializers.py:101-116 | merging one item keeps ids distinct and never moves the id sequence back |
| Serializers.MergeAllValid | serializers.py:101-116 | so does merging a list of items |
| Serializers.MergeAllFrame | serializers.py:101-116 | media that no item names are left unchanged |
| Serializers.MatchedItemOverwrites | serializers.py:103-110 | an item naming existing media overwrites just that record's fields with its own |
| Serializers.UnmatchedItemCreates | serializers.py:111-116 | an item without an id, or with an unknown id, appends one new record with a fresh id and the item's fields |
| Serializers.DeletedThenNamed | serializers.py:96-116 | deletion comes first: an item naming a deleted id recreates it with only the item's fields |
| Serializers.Complaint.Update | serializers.py:85-124 | fields are saved first; the media become the staged result if it has at most ten images and are rolled back otherwise |
| Serializers.Complaint.DeleteMedia | views.py:196-197 | removes the listed media and returns how many went; zero iff none matched |
| Views.GetResponse | views.py:22-48 | by id: 200 or 404; by date: 400 exactly when the date does not parse; any other route: 400 |
| Views.PermissionGate | views.py:51-55 | the request goes on iff permission is granted; denied gives 403 "Permission Denied" |
| Views.StaffPost | views.py:50-78 | 201 iff permitted, valid and the insert succeeds; 403 when denied; 500 when a valid insert raises |
| Views.StaffPostWithDeletedIds | views.py:60-61 | a permitted POST carrying `deleted_media_ids` gets 500 as written and 201 with the corrected `create` |
| Views.StaffUpdate | views.py:80-156 | 200 iff permitted, found, not blocked by the completed-complaint guard, valid and saved; once permitted, 404 for a missing complaint and the 403 completed-complaint refusal exactly when the guard blocks |
| Views.CompletedBlocked | views.py:90-91 | only a completed complaint is closed; a user without a role, or with the role "railway admin" in any case, is never blocked; an "s2 admin" is |
| Views.StaffDeleteResponse | views.py:158-205 | permission is checked before the route (403 when denied, 500 without a role); an unknown route gives 400; on a known route 404 iff the complaint is missing, the completed refusal iff the guard blocks; complaint delete gives 204 iff permitted, found and not blocked; media delete gives the shared outcome |
| Views.StaffDeleteMedia | views.py:180-202 | media change only when every check passed and ids were given, and then exactly the listed media go |
| Views.DeniedEverywhere | views.py:51-164 | every mutating staff handler answers 403 to a denied user, whatever the request |
| Views.RoleCaseMatters | views.py:90-91 | the completed guard lower-cases the role, so "Railway Admin" passes it, yet `check_permission` denies that role |
| Views.RoPost | views.py:240-245 | 201 iff valid, the request carries `name` and the insert succeeds; 500 when a valid insert raises |
| Views.RoPostWithDeletedIds | views.py:244-245 | the passenger POST carrying `name` and `deleted_media_ids` gets 500 as written and 201 with the corrected `create` |
| Views.RoGuard | views.py:326 | blocked iff the caller's name is the creator, the complaint is open and the mobile matches; raises exactly on the keys read but missing |
| Views.RoUpdate | views.py:321-385 | 200 iff found, passed by the guard, valid and saved; 404 for a missing complaint; the 403 creator refusal exactly when the guard blocks; 500 when the guard raises |
| Views.RoDelete | views.py:387-428 | an unknown route gives 400; on both delete routes 404 for a missing complaint, the 403 creator refusal exactly when the guard blocks and 500 when it raises; complaint delete gives 204 iff found and passed; media delete follows the shared outcome |
| Views.RoGuardRefusesCreator | views.py:326-330 | the creator of an open complaint is refused, and anyone else is let through |
| Views.RoEmailDetails | views.py:269-293 | train fields come from the linked train, else from the complaint plus the registry depot; fails iff that registry row is needed and missing; all keys the mailer reads are present |
| Views.RoDetailsReachSend | views.py:281-296 | details built this way make the mailer notify the depot's war-room users without raising |
| MainApi.HandlersCompared | main.py:128-132 | re-raising and catch-all handling differ exactly on an HTTPException other than the generic 500 |
| MainApi.GetComplaintAsWritten | main.py:86-101 | as written: 200 iff the complaint is found, and the generic 500 for every other request |
| MainApi.GetComplaint | main.py:86-101 | corrected: 404 iff the service found nothing, 200 iff it found the complaint, 500 when it raised |
| MainApi.MissingComplaintAsWritten | main.py:89-101 | as written, an unknown id gives 500, where the corrected handler gives 404 |
| MainApi.GetComplaintFixScope | main.py:89-101 | the correction changes only the answer for a missing complaint |
| MainApi.GetByDate | main.py:103-132 | 400 iff the date does not parse or the mobile number is falsy, the date being checked first; 200 iff both pass and the service succeeds |
| MainApi.FullData | main.py:154-169 | all thirteen fields, None included, with declared defaults, plus the user key set to the name |
| MainApi.BuildPatchData | main.py:230-244 | the conditional assignments build the specified PATCH dictionary |
| MainApi.PatchDataShape | main.py:230-244 | PATCH stores exactly the fields sent with a non-empty, non-None value, plus `updated_by` always |
| MainApi.BlankFieldsCompared | main.py:201-244 | a field sent as an empty string counts as not sent: PUT stores its declared default ("pending" for the status) and PATCH leaves it out |
| MainApi.PatchWithinPut | main.py:301-316 | every entry PATCH stores, PUT stores with the same value for the same form |
| MainApi.EmptyFormsCompared | main.py:273-279 | on an empty form PATCH stores only `updated_by`, while PUT stores "pending" and "not-attempted" |
| MainApi.Create | main.py:152-196 | the record built from the form is always handed to `create_complaint`; 200 iff creation succeeded, and the generic 500 otherwise |
| MainApi.CreateDataDefaults | main.py:137-169 | the creator is the name; status and PNR validation take their defaults when absent or empty; every field sent with a value is stored as sent |
| MainApi.OwnerCheck | main.py:224-227 | passes iff name, status and mobile keys exist, the name is the creator, the status is not completed and the mobile matches; raises exactly on keys read but missing |
| MainApi.Patch | main.py:198-267 | with the success value wrapped as the declared response model requires: the PATCH dictionary is sent iff found and passed; 200 iff sent and the service succeeded |
| MainApi.Put | main.py:269-339 | wrapped likewise: the PUT dictionary is sent iff found and passed; 200 iff sent and the service succeeded |
| MainApi.PatchAsWritten | main.py:261-262 | as written: the same dictionary is stored, but every response the wrapped version answers with 200 becomes the response-model 500, so PATCH never answers 200 |
| MainApi.PutAsWritten | main.py:333-334 | as written: likewise for PUT, which never answers 200 |
| MainApi.Delete | main.py:341-367 | 200 iff found, passed and deleted |
| MainApi.DeleteMedia | main.py:369-403 | after the check, it gives the shared media-delete outcome; 200 only when found and passed |
| MainApi.ModifyingRefusals | main.py:219-227 | all four modifying endpoints give 404 for a missing complaint and 403 with their own message when the check refuses |
| MainApi.RoGuardOpposesOwnerCheck | main.py:224-227 | on an open complaint, the views.py guard blocks exactly the requests this check passes |

## Left out

- Database access: SQL text, connections and ORM calls are not modelled. Query results, lookups and "did the save succeed" are parameters. In the two `send_passenger_complain_email` copies a war-room query that raises is treated like one returning no rows, as their handlers make it. In `debug_user_lists` each query result may also be None or an exception (`DebugScript.Queries`), and an exception ends the call with None.
- Mail transport (FastMail, `EmailMessage`, the asyncio loop): it is taken as a success flag. Two pieces of the libraries are kept. Django's `EmailMessage.send()` drops blank recipients and returns without connecting when none is left (`Utils.AllBlank`). fastapi_mail's `MessageSchema` validates each recipient as an e-mail address and raises otherwise; the model keeps the '@' that check needs (`EmailUtils.SchemaAccepts`), and the rest of its validation is part of the success flag.
- Utils.PlainMailCopiesAgree: the two copies share one success flag, but only the FastAPI copy makes the `MessageSchema` check. So the copies are proved to agree on the outcome only when every recipient contains '@'; otherwise the FastAPI copy returns False where the Django copy follows the flag.
- Template rendering (Jinja2, `render_to_string`): the model stops at the context dictionary.
- EmailUtils.EmailsSent: the recipient at utils/email_utils.py:147 is a hard-coded debug address. It is a parameter here, so the result does not depend on the depot filter's output.
- The upload pipeline (`process_media_file_upload`, `sanitize_timestamp`, GCS, PIL, moviepy) and the media record `upload_file_thread` creates: these are foreign libraries and I/O. Only the type and extension decision is modelled.
- Threads in views.py and main.py (upload join barrier, daemon e-mail thread): this is concurrency. The e-mail thread's work is modelled as the functions it calls.
- Logging and prints; logger_config.py, test_db_connection.py, urls.py, admin.py and the schema in models.py. The `verbose` flag is modelled only where it changes the result: its `.keys()` print raises on train details that are not an object.
- JSON decoding of `train_details`: a payload is given decoded (an object, or some other JSON value) or as undecodable. Of the value stored for the train, the model keeps whether it is an array of windows, an object or string (by its length), or not iterable.
- FastAPI form binding: an empty string sent for an optional form field binds the declared default (`MainApi.Bound`). An empty or missing required field of the two delete endpoints gets FastAPI's 422 before the endpoint runs, which is not modelled: the delete functions take those fields as given.
- Framework behaviour is not modelled:
  - authentication and rate limits;
  - FastAPI's 422 answer for a missing required form field;
  - pydantic response-model checks, except that a bare complaint returned by PATCH and PUT fails them (`MainApi.ResponseInvalid`); whether `data` of a wrapped response matches `RailSathiComplainData` is not checked;
  - DRF field-level validation;
  - response bodies other than their message text.
- Dates.ParseYmd: digits are ASCII only. CPython's `\d` would also accept other Unicode decimal digits.
- Dates.FormatYmd: years below 1000 are padded to four digits, which glibc's `strftime` does not do.
- Text.Lower: only ASCII letters are lower-cased.
- Serializers.Complaint.Update:
  - a media item id of 0 is treated like a missing id (falsy) and gets a fresh id;
  - negative ids are not representable;
  - an unknown explicit id moves the id sequence past it, which a database sequence does not do;
  - id clashes with media of other complaints are not modelled.
- Serializers.Validate: under DRF defaults the nested media serializer's `id` is read-only, so validated items would carry no id at all. The model keeps `update`'s id handling as written.
- Serializers.Complaint.Update: field changes are saved before the atomic block, so they persist when the image cap answers 400. The model keeps them, as the source does.
- `RailSathiComplainSerializer.create` (serializers.py:77-83): inserting the rows is database work. The model keeps which keyword arguments reach `objects.create` and the TypeError an unknown one raises (`Serializers.CreateAsWritten`); the media rows created after it are not modelled.
- MainApi.Patch / MainApi.Put: these are the corrected endpoints, which answer 200 after a successful update. The code as written answers the response-model 500 instead (`MainApi.PatchAsWritten`, `MainApi.PutAsWritten`, and Findings below).

## Findings

| source | as written | input that shows it | evidently intended | confidence | as-written member | corrected member |
|---|---|---|---|---|---|---|
| main.py:261-262 | PATCH returns the bare `final_complaint`, but the route declares `response_model=RailSathiComplainResponse` (line 198), which needs `message` and `data`; FastAPI's response validation fails after the update is stored | a PATCH from the complaint's creator on an open complaint whose update succeeds | 200 with `{"message", "data"}`, as the create endpoint returns | not executed | MainApi.PatchAsWritten | MainApi.Patch |
| main.py:333-334 | PUT returns the bare `final_complaint` under the same response model (line 269) | a PUT from the complaint's creator on an open complaint whose update succeeds | 200 with `{"message", "data"}` | not executed | MainApi.PutAsWritten | MainApi.Put |
| serializers.py:77-79 | `create` pops only the media list, so `deleted_media_ids`, declared writable at lines 31-33 but not a model column, reaches `RailSathiComplain.objects.create`, which raises TypeError; the POST answers 500 | a permitted POST whose body carries `deleted_media_ids` with valid train data | pop `deleted_media_ids` as `update` does at line 88 and store the complaint | not executed | Serializers.DeletedIdsBreakCreate | Serializers.Create |
| main.py:89-101 | the 404 `HTTPException` raised at line 92 is inside the `try` and is caught by `except Exception`, which answers 500 | an id for which `get_complaint_by_id` returns None | 404 "Complaint not found", as every other endpoint gets by re-raising `HTTPException` first | not executed | MainApi.MissingComplaintAsWritten | MainApi.GetComplaint |
