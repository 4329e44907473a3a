# ATS-Procorp workflow core in Dafny

This project models the workflow rules of the ATS-Procorp applicant-tracking
backend, with proofs. In that backend:

- sales staff submit **requirements** (job openings);
- leads assign **recruiters** to them;
- recruiters submit **candidates** against them, with or without résumé files in Google Drive;
- leads forward candidates to sales;
- a sales dashboard counts both collections.

The model covers:

- the identifiers the handlers derive: requirement ids, the two candidate-id schemes, initials-based ids and Drive folder names;
- the schema rules of the two collections: required paths, enums, defaults and the e-mail setters;
- the role gate;
- every handler of the two controllers, as a method over a `Store.Db` object that holds both collections;
- the read-side filters, the requirement-title join, and the dashboard counts.

Design choices:

- **Collections.** They are `seq` fields that the handlers' methods update. Every record carries both its database key (`oid`, the `_id`) and its business id. `findByIdAndUpdate` and `updateMany` go by the key.
- **Clock.** The handlers' clock is an `Instant` parameter. It holds the epoch milliseconds and the local time of day.
- **Mail.** A send is a `Notice`, and a parameter `delivers` decides whether it succeeds.
- **Drive.** Folder creation and file upload are function parameters. Their failures are modelled as results.
- **JSON parsing.** The `JSON.parse` call in the forward handler is the parameter `parse`.
- **Request fields.** A field whose JavaScript type a handler tests is a `Request.Value`.

Modules, one per source file, plus helpers:

| module | models |
|---|---|
| `AuthorizeRole` | middleware/authorizeRole.js |
| `IdGenerator` | utils/idGenerator.js |
| `RequirementSchema`, `CandidateSchema` | model/Requirement.js, model/Candidate.js |
| `RequirementController`, `CandidateController` | the two controllers |
| `SalesDashboard` | routes/stats.routes.js |
| `Store` | the document store's create/save/find/update as the handlers use them |
| `Notify` | the two ways the handlers send mail |
| `Seqs` | query filter and newest-first sort |
| `Text`, `Clock`, `Request`, `Wrappers` | JavaScript string and date built-ins, request values, `Option`/`Result` |

Behaviour of the code worth knowing, which the model keeps:

- **Bulk assignment.** A failed notification ends the request with 500 after the update is written.
- **Forwarding an unknown `_id`.** For a well-formed `_id` that no candidate has, it answers 200 with a null candidate.
- **Raw e-mail in `forwardedBy`.** A raw e-mail string is not JSON. `JSON.parse` throws, so forwarding fails with 500.
- **Upload folder.** The Drive folder is named after the sanitised e-mail.
- **`lead_update`.** Its enum lacks "submitted", which `candidate_update` has, so the two fields do not share a value set.

## Model

| member | source | states |
|---|---|---|
| AuthorizeRole.NormalizedRoles | middleware/authorizeRole.js:9-13 | a scalar role becomes a one-element list; every allowed role is lower-cased, in order |
| AuthorizeRole.Authorize | middleware/authorizeRole.js:3-21 | 401 exactly when the role is missing or empty; the request passes exactly when the lower-cased role equals some lower-cased allowed role; 403 otherwise |
| AuthorizeRole.MissingRoleBeforeAllowList | middleware/authorizeRole.js:5-7 | a request without a role gets 401 whatever the allow-list, even an empty one |
| AuthorizeRole.CaseInsensitive | middleware/authorizeRole.js:3-17 | lower-casing the user's role or every allowed role changes no decision |
| AuthorizeRole.SingleRoleIsSingletonList | middleware/authorizeRole.js:9-11 | a non-list required role decides like the one-element list |
| AuthorizeRole.OnlyMembershipMatters | middleware/authorizeRole.js:13-17 | two allow-lists with the same lower-cased members, in any order and with any repetition, decide every request alike |
| IdGenerator.SplitOnSpace | utils/idGenerator.js:5 | at least one piece, and no piece contains a space |
| IdGenerator.JoinSplitOnSpace | utils/idGenerator.js:5 | joining the pieces with spaces gives the name back, so the split loses nothing |
| IdGenerator.WordStarts | utils/idGenerator.js:4-9 | the reference definition of initials: at most as long as the name, made of its non-space characters |
| IdGenerator.FirstCharsOfPieces | utils/idGenerator.js:5-7 | the first characters of the single-space pieces, with empty pieces giving nothing, are exactly the word starts in order |
| IdGenerator.Initials | utils/idGenerator.js:4-9 | at most three characters, none a lower-case letter |
| IdGenerator.InitialsAreWordStarts | utils/idGenerator.js:4-9 | the initials are the first three word starts of the name, upper-cased |
| IdGenerator.GenerateCandidateId | utils/idGenerator.js:2-11 | one to nine characters, one of them "_", none a lower-case letter |
| IdGenerator.GeneratedIdParts | utils/idGenerator.js:3-11 | the id is the initials, "_", and the last (at most five) decimal digits of the millisecond clock |
| IdGenerator.EmptyNameIdIsUnderscoreAndFiveDigits | utils/idGenerator.js:2-11 | a missing or empty name gives "_" followed by exactly five digits, once the clock is past 10^4 ms |
| Clock.CompactTime | controller/candidateController.js:15 | `HHMMSS`: six digits |
| Clock.CompactTimeInjective | controller/requirementController.js:30 | equal compact times mean the same hour, minute and second |
| Clock.StampedIdInjective | controller/requirementController.js:32 | `prefix_HHMMSS` ids are equal exactly when the prefixes and the time of day (to the second) are |
| Clock.UnpaddedTime | controller/candidateController.js:103 | between four and eight digits |
| Clock.UnpaddedTimeCollides | controller/candidateController.js:103 | two different hours can give the same unpadded time (1:23:04 and 12:03:04) |
| RequirementSchema.NormaliseEmails | model/Requirement.js:28-49 | the e-mail-list setter keeps length and order and lower-cases and trims each element |
| RequirementSchema.NormaliseEmailsIdempotent | model/Requirement.js:32-48 | the setter's output is normalised, and applying it twice equals applying it once |
| RequirementSchema.ValidRequirement | model/Requirement.js:4-107 | the schema's validation: title, description, creator, id and duration present, every enum path within its values |
| RequirementSchema.WithDefaults | model/Requirement.js:22-87 | status "new", requirement status "open", no assignees, creator lower-cased and trimmed; the document is valid exactly when title, description, creator, id and duration are acceptable |
| CandidateSchema.IdsOf | controller/candidateController.js:208 | a scalar id is a one-element list; a list stays as it is |
| CandidateSchema.ValidCandidate | model/Candidate.js:9-98 | the schema's validation: name, e-mail, phone, role and source role present, every requirement id non-empty, status, relocation and both update fields within their enums |
| CandidateSchema.NewDocument | model/Candidate.js:9-104 | defaults (status "submitted", `isActive` and `isDeleted` false, `lead_update` "", no `candidate_update`), the name trimmed, the e-mail lower-cased and trimmed; valid exactly when the required paths are non-empty |
| CandidateSchema.NewIsNotACandidateStatus | model/Candidate.js:68-72 | no valid candidate has status "new", the value the lead queue also asks for |
| Store.ById | controller/requirementController.js:243 | `findById` in either collection: the found document is stored and has the key; none exactly when no document has it |
| Store.UpdateRequirementsIn | controller/requirementController.js:139-150 | every document whose key is listed is updated, every other kept, positions unchanged |
| Store.UpdateCandidateWith | controller/candidateController.js:395-399 | the document with the key is updated, every other kept, positions unchanged |
| Store.UpdateCandidateIdempotent | controller/candidateController.js:395-399 | an idempotent, key-preserving update applied twice by key equals applying it once |
| Store.Db.NewOid | controller/candidateController.js:129 | the new key is used by no stored document |
| Store.Db.CreateRequirement | controller/requirementController.js:35-56 | the document is inserted exactly when it validates and its `requirementId` is not taken; otherwise nothing changes |
| Store.Db.SaveCandidate | controller/candidateController.js:159 | the document is appended exactly when it validates and its `candidateId` is not taken; otherwise nothing changes |
| Store.Db.UpdateRequirements | controller/requirementController.js:139-150 | `updateMany` by key, with keys and ids kept unique |
| Store.Db.FindRequirementAndUpdate | controller/requirementController.js:328-332 | updates by key and returns the updated document, or none for an unknown key |
| Store.Db.FindCandidateAndUpdate | controller/candidateController.js:395-399 | updates by key and returns the updated document, or none for an unknown key |
| Notify.NoticesTo | controller/requirementController.js:59-74 | one notice per recipient, in list order |
| Notify.Undelivered | controller/requirementController.js:69-73 | no notice fails exactly when every notice is delivered |
| Notify.UndeliveredAppend | controller/requirementController.js:59-74 | the failures of two batches are the failures of each, in order |
| Notify.AttemptedUntilFailure | controller/requirementController.js:157-180 | a prefix of the notices: all of them when every one is delivered, otherwise up to and including the first failure |
| Notify.SendEachLoggingFailures | controller/requirementController.js:59-74 | the loop that catches per send returns exactly the failed notices |
| Notify.AttemptedStopsAtFirstFailure | controller/requirementController.js:255-276 | awaited sends stop right after the first failed notice |
| Notify.SendUntilFailure | controller/requirementController.js:255-276 | awaited sends attempt exactly `AttemptedUntilFailure` and succeed exactly when all are delivered |
| Seqs.Filter | controller/candidateController.js:193-203 | `find`: the kept documents are exactly the matching stored ones, a sub-multiset |
| Seqs.FilterAppend | controller/candidateController.js:193-203 | filtering distributes over concatenation |
| Seqs.FilterCongruent | controller/candidateController.js:325-329 | two queries that agree on every stored document return the same documents |
| Seqs.InsertDescending | controller/requirementController.js:96-98 | insertion keeps the order non-increasing and adds exactly the element |
| Seqs.SortDescending | controller/requirementController.js:96-98 | `sort({ createdAt: -1 })`: non-increasing order and the same multiset |
| Seqs.SortKeepsMembers | controller/requirementController.js:96-98 | sorting keeps length and membership |
| RequirementController.CleanTitle | controller/requirementController.js:31 | at most 10 characters, none white space |
| RequirementController.RequirementId | controller/requirementController.js:29-32 | the cleaned title, "_", six time digits |
| RequirementController.RequirementIdCollision | controller/requirementController.js:29-32 | two submissions get the same id exactly when the cleaned titles and the second of the day agree |
| RequirementController.SubmissionAccepted | controller/requirementController.js:35-56 | what `Requirement.create` accepts of a submission: title, description and creator present, priority, requirement status, duration and work authorisations within their enums |
| RequirementController.NewRequirement | controller/requirementController.js:35-56 | status "recruiterAssigned" exactly when recruiters were supplied, otherwise "leadAssigned"; `recruiterAssignedBy` is [creator] or []; the lead and recruiter lists are the setter's normalisation of the given lists (none given is []); `createdBy` the lower-cased, trimmed caller; title, description, duration and work authorisations copied; priority the given one or "Medium"; `requirementStatus` the given one or "open"; valid exactly when the submission is acceptable |
| RequirementController.SubmitRequirement | controller/requirementController.js:6-87 | 400 exactly without title or description; otherwise created exactly when valid and the id is free; every lead notified once, failures only logged; no `leadEmails` is 500 after the record is created |
| RequirementController.NewRequirementUnassigned | controller/requirementController.js:41-45 | a new requirement is in the unassigned views exactly when no recruiters were supplied |
| RequirementController.AddToSet | controller/requirementController.js:146-148 | `$addToSet`: the element is present afterwards, nothing else is added, no duplicate is introduced, the old list is a prefix |
| RequirementController.AddToSetIdempotent | controller/requirementController.js:247 | adding twice is adding once |
| RequirementController.LowerAll | controller/requirementController.js:241 | same length, no upper-case letter |
| RequirementController.Assigned | controller/requirementController.js:241-251 | exactly the recruiter list, `recruiterAssignedBy` and status change; the list is replaced by the normalised recruiters; the lead, lower-cased and trimmed by the schema setter, is added to `recruiterAssignedBy` without duplicates, which stays normalised; validity is kept |
| RequirementController.AssignedIdempotent | controller/requirementController.js:241-251 | repeating an assignment changes nothing more |
| RequirementController.AssignmentReplacesRecruiters | controller/requirementController.js:246-247 | a second assignment drops every recruiter of the first, while the first lead, normalised, stays in `recruiterAssignedBy` |
| RequirementController.AssignedIn | controller/requirementController.js:139-150 | every listed requirement gets the assignment update, every other is unchanged |
| RequirementController.AssignRequirement | controller/requirementController.js:231-283 | 400 exactly when the recruiter list is missing or empty; otherwise 500 with no write when `leadEmail` is missing; the store is the assignment of that one `_id`; an unknown `_id` is 500 with no mail; otherwise the recruiters are mailed in order until the first failure, 200 exactly when all are delivered |
| RequirementController.Selected | controller/requirementController.js:153-155 | exactly the stored requirements whose `_id` is listed |
| RequirementController.AssignmentNotices | controller/requirementController.js:157-180 | one notice per (requirement, recruiter) pair: requirements × recruiters notices |
| RequirementController.AssignmentNoticesCoverPairs | controller/requirementController.js:157-180 | every (requirement, recruiter) pair is notified |
| RequirementController.AssignmentNoticesOnlyPairs | controller/requirementController.js:157-180 | every notice is for a listed requirement and a listed recruiter |
| RequirementController.AssignMultipleRequirements | controller/requirementController.js:123-190 | 400 exactly when an id list or recruiter list is missing or the lead is empty; otherwise the listed requirements get the assignment and no other changes; notices go until the first failure; 200 exactly when all are delivered |
| RequirementController.SortedNewestFirst | controller/requirementController.js:96-98 | newest first, the same documents |
| RequirementController.SalesRequirements | controller/requirementController.js:93-103 | exactly the requirements whose `createdBy` equals the caller's e-mail lower-cased and trimmed, as the path's setters cast the query value; newest first |
| RequirementController.SubmittedRequirementInSalesView | controller/requirementController.js:93-96 | a stored submission shows in the sales view of the e-mail that submitted it, whatever its letter case or padding |
| RequirementController.RecruiterRequirements | controller/requirementController.js:104-119 | exactly the requirements listing the lower-cased query e-mail as a recruiter, newest first |
| RequirementController.UnassignedLeads | controller/requirementController.js:296-308 | exactly the requirements with a missing or empty recruiter list, for every lead, newest first |
| RequirementController.UnassignedRequirements | controller/requirementController.js:193-215 | 403 exactly when the role is not "lead" (case-sensitive); otherwise exactly the unassigned requirements listing the caller as lead |
| RequirementController.LeadViewWithinUnassignedLeads | controller/requirementController.js:202-208 | the lead's view is contained in the all-leads view |
| RequirementController.AssignedInPlace | controller/requirementController.js:243-251 | the assigned requirement is in the collection after the update |
| RequirementController.AssignmentMovesBetweenViews | controller/requirementController.js:243-251 | after an assignment the requirement leaves the unassigned view and shows in the view of each recruiter, whatever the letter case of the query |
| RequirementController.WithRequirementStatus | controller/requirementController.js:328-332 | only `requirementStatus` changes |
| RequirementController.StatusUpdateBypassesEnum | controller/requirementController.js:328-332 | with no validators run, a valid requirement stays valid exactly when the new status is "open" or "closed" |
| RequirementController.StatusUpdatedIn | controller/requirementController.js:328-332 | the requirement with the `_id` gets the new status, every other is unchanged |
| RequirementController.UpdateRequirementStatus | controller/requirementController.js:320-344 | 400 exactly when the id or status is missing; 404 for an unknown `_id`; otherwise only that requirement's `requirementStatus` changes and it is returned |
| CandidateController.SafeName | controller/candidateController.js:16 | never empty; no white space or upper-case letter |
| CandidateController.CandidateId | controller/candidateController.js:13-18 | the safe name, "_", six time digits |
| CandidateController.CandidateIdCollision | controller/candidateController.js:13-18 | two ids coincide exactly when the safe names and the second of the day agree |
| CandidateController.UploadCandidateId | controller/candidateController.js:102-109 | only word characters, `-` and `_` |
| CandidateController.UploadCandidateIdCollides | controller/candidateController.js:102-109 | for every name, two different hours give the same upload id |
| CandidateController.FolderChar | controller/candidateController.js:112 | always a word character or `-` |
| CandidateController.FolderChars | controller/candidateController.js:112 | same length; each character kept when a word character or `-`, `_` otherwise |
| CandidateController.FolderName | controller/candidateController.js:112 | as long as the trimmed e-mail, only word characters and `-` |
| CandidateController.FolderCharsCollision | controller/candidateController.js:112 | two strings map alike exactly when they agree position by position up to the folder mapping |
| CandidateController.FolderNameCollision | controller/candidateController.js:112 | two e-mails share a folder exactly when their trimmed forms agree position by position up to the folder mapping |
| CandidateController.FolderNameOfTrimmed | controller/candidateController.js:112 | for an address without surrounding white space the folder name is its character mapping |
| CandidateController.SpliceSameFolder | controller/candidateController.js:112 | replacing one character by another with the same folder character keeps the folder |
| CandidateController.FolderLink | controller/candidateController.js:115 | the Drive link ends with the folder's id |
| CandidateController.DotAndUnderscoreShareFolder | controller/candidateController.js:112-114 | `x.y@d` and `x_y@d` are different addresses with the same Drive folder |
| CandidateController.UploadIsActive | controller/candidateController.js:149 | true exactly for the string "true" or the boolean true |
| CandidateController.WorkAuthorizationList | controller/candidateController.js:150-154 | a list is kept, a string becomes a one-element list, anything else [] |
| CandidateController.WorkAuthorizationListStable | controller/candidateController.js:150-154 | normalising an already normalised list changes nothing |
| CandidateController.SubmittedCandidate | controller/candidateController.js:34-45 | source role "recruiter", status "submitted", `isActive` false when null or missing, `addedBy` the caller, each overridable by the body; the e-mail carried over (the corrected behaviour) |
| CandidateController.SubmissionValid | controller/candidateController.js:36-47 | what `save()` accepts of a submission: name, e-mail, phone, role and source role present, every requirement id non-empty, status, relocation and both update fields within their enums |
| CandidateController.SubmittedCandidateValid | controller/candidateController.js:36-47 | the corrected document validates exactly when the body's paths are acceptable |
| CandidateController.SubmittedCandidateAsWritten | controller/candidateController.js:22-45 | as written, the document has no e-mail |
| CandidateController.SubmissionAsWrittenAlwaysRefused | controller/candidateController.js:22-47 | as written, no submission passes validation |
| CandidateController.FindOneByRequirementId | controller/candidateController.js:49 | the first stored requirement with one of the ids; none exactly when no requirement has one |
| CandidateController.SubmissionNotices | controller/candidateController.js:49-60 | no notice when no requirement has one of the ids; every notice goes to one lead of a stored requirement with one of the ids |
| CandidateController.SubmitCandidate | controller/candidateController.js:20-67 | corrected (e-mail carried over, see ## Findings): 400 exactly without a name or requirement id; otherwise saved exactly when valid and the id is free; saving appends the document; the requirement's leads are mailed; 201 exactly when saved and every mail delivered |
| CandidateController.UploadCalls | controller/candidateController.js:119-123 | one upload per file, in order, into the folder |
| CandidateController.UploadIds | controller/candidateController.js:126 | a list is kept, a scalar becomes a one-element list, a missing field becomes the one element `undefined` (written "") |
| CandidateController.UploadedCandidate | controller/candidateController.js:126-157 | the upload id; status and `candidate_update` "submitted"; `isActive` coerced; one folder link; the caller's role or "recruiter"; the id list normalised; the record trimmed and lower-cased by the schema |
| CandidateController.UploadValid | controller/candidateController.js:126-159 | what `save()` accepts of an upload: name, e-mail, phone and role present, every requirement id non-empty, relocation within its enum |
| CandidateController.UploadedCandidateValid | controller/candidateController.js:129-159 | the uploaded document validates exactly when name, e-mail, phone, role, ids and relocation are acceptable |
| CandidateController.UploadWithoutRequirementIdRefused | controller/candidateController.js:126-159 | an upload without `requirementId` is not acceptable, and its document fails validation |
| CandidateController.UploadCandidateWithResume | controller/candidateController.js:69-183 | 400 exactly without files, and then no Drive call; folder then uploads before the single save; a Drive failure leaves the store unchanged; saved exactly when valid and the id is free; without `requirementId` the Drive calls happen and the answer is 500 with nothing saved; the optional lead mail after the save; 201 exactly when saved and the mail delivered |
| CandidateController.SaveUpload | controller/candidateController.js:126-176 | after the Drive calls: appended exactly when valid and the id is free, otherwise the store is unchanged; `forwardToLeads` mailed only after a save; 201 exactly when saved and the mail delivered |
| CandidateController.LastWithId | controller/candidateController.js:218-221 | the found requirement has the id; none exactly when no requirement has it |
| CandidateController.TitleFor | controller/candidateController.js:226 | the title shown for an id is the id itself or the title of a stored requirement with that id; never blank unless the id is |
| CandidateController.TitlesFor | controller/candidateController.js:224-228 | one title per id, in order |
| CandidateController.TitleOfUniqueRequirement | controller/candidateController.js:220-226 | with unique ids the title shown is the requirement's title, or its id when the title is empty |
| CandidateController.IdSet | controller/candidateController.js:206-210 | exactly the ids of the list |
| CandidateController.ReferencedIds | controller/candidateController.js:206-210 | every collected id is an id of some candidate |
| CandidateController.ReferencedIdsContain | controller/candidateController.js:206-210 | every id of every candidate is collected |
| CandidateController.RequirementsWithIds | controller/candidateController.js:213-215 | no more documents than stored |
| CandidateController.LastWithIdOfFetched | controller/candidateController.js:213-221 | fetching only the referenced requirements changes no title |
| CandidateController.TitleMap | controller/candidateController.js:218-221 | the map's keys are exactly the business ids of the fetched requirements; no value is blank unless its key is |
| CandidateController.TitleMapAgrees | controller/candidateController.js:218-226 | `reqMap[id] \|\| id` is the title of the last requirement with that id, or the id |
| CandidateController.TitlesFromMap | controller/candidateController.js:226 | one title per id |
| CandidateController.CollectRequirementIds | controller/candidateController.js:206-210 | the `forEach` loops collect exactly the referenced ids |
| CandidateController.BuildTitleMap | controller/candidateController.js:218-221 | the `forEach` loop builds exactly the title map |
| CandidateController.EnrichWithTitles | controller/candidateController.js:205-228 | every candidate, in order, gets one title per id: the requirement's title, or the id when there is no requirement or no title |
| CandidateController.ReferencedIdsContainAll | controller/candidateController.js:206-210 | all of a candidate's ids are collected |
| CandidateController.FetchedTitlesAgree | controller/candidateController.js:213-226 | the titles read from the fetched map equal the titles over the whole collection |
| CandidateController.LeadCandidates | controller/candidateController.js:193-203 | exactly the candidates with status submitted, forwarded-to-sales or new that are not soft-deleted, in store order |
| CandidateController.SalesCandidates | controller/candidateController.js:275 | exactly the candidates with status forwarded-to-sales, soft-deleted ones included |
| CandidateController.RecruiterCandidates | controller/candidateController.js:325-329 | exactly the candidates added by the user that are not soft-deleted, whatever their source role |
| CandidateController.ResolveForwardedBy | controller/candidateController.js:248-258 | fails with 500 exactly for null, a missing value or a non-JSON string; never yields an empty sender; an object with an e-mail gives that e-mail |
| CandidateController.ForwardedByEncodingsAgree | controller/candidateController.js:248-251 | an object and a JSON string carrying the same e-mail resolve alike |
| CandidateController.Forwarded | controller/candidateController.js:253-259 | exactly status, source role and `forwardedBy` change; validity is kept |
| CandidateController.ForwardedIn | controller/candidateController.js:253-261 | the candidate with the `_id` is forwarded, every other unchanged |
| CandidateController.ForwardCandidateToSales | controller/candidateController.js:244-268 | 500 exactly when the sender cannot be resolved; otherwise 200 and the candidate forwarded, with no candidate returned for an unknown `_id` |
| CandidateController.ForwardedCandidateInQueues | controller/candidateController.js:253-261 | a forwarded, non-deleted candidate shows in the sales queue and stays in the lead queue |
| CandidateController.FieldUpdateOf | controller/candidateController.js:378-387 | `isActive` taken exactly when a boolean; `candidate_update` exactly when a string non-blank after trim, stored untrimmed |
| CandidateController.ApplyFieldUpdate | controller/candidateController.js:395-399 | exactly the supplied fields change |
| CandidateController.CandidateUpdateBypassesEnum | controller/candidateController.js:395-399 | with no validators run, a valid candidate stays valid exactly when the value is in the enum |
| CandidateController.FieldsUpdatedIn | controller/candidateController.js:395-399 | the candidate with the `_id` gets the update, every other unchanged |
| CandidateController.FieldsUpdateIdempotent | controller/candidateController.js:395-399 | repeating the same update leaves the store as one update does |
| CandidateController.UpdateCandidateFields | controller/candidateController.js:369-414 | 400 exactly without an id or with no applicable field; 404 for an unknown `_id`; otherwise only the supplied fields change |
| SalesDashboard.RequirementCount | routes/stats.routes.js:10-11 | at most the number of requirements |
| SalesDashboard.LiveCount | routes/stats.routes.js:27-47 | at most the number of candidates |
| SalesDashboard.StagedCount | routes/stats.routes.js:24-30 | at most the number of candidates stored with `isDeleted` false |
| SalesDashboard.StageCount | routes/stats.routes.js:31-36 | one group's count is the `$match` count for that single stage |
| SalesDashboard.ActivityCount | routes/stats.routes.js:46-47 | at most the live count |
| SalesDashboard.StagedCountSplit | routes/stats.routes.js:31-36 | counting a set of stages is one stage's count plus the rest's |
| SalesDashboard.StageSumIsStagedCount | routes/stats.routes.js:24-43 | for distinct stages the per-stage counts add up to the matched count |
| SalesDashboard.EmptyStagesCountNothing | routes/stats.routes.js:28 | no stages, no count |
| SalesDashboard.ActivityWithinLive | routes/stats.routes.js:46-47 | active plus inactive never exceeds the live candidates |
| SalesDashboard.ActivityCoversLive | routes/stats.routes.js:46-47 | when every live candidate stores `isActive`, active plus inactive is exactly the live count |
| SalesDashboard.CandidateStats | routes/stats.routes.js:39-43 | exactly the seven stage keys, each its group's count (0 when none) |
| SalesDashboard.Dashboard | routes/stats.routes.js:7-55 | open plus closed within the requirements; active plus inactive within the live candidates; the stage map as above |
| SalesDashboard.OpenAndClosedDisjoint | routes/stats.routes.js:10-11 | open plus closed never exceeds the requirements |
| SalesDashboard.ReportedStagesTotal | routes/stats.routes.js:14-43 | the seven reported counts add up to the matched documents, never more than the live candidates |
| SalesDashboard.UnreportedUpdates | routes/stats.routes.js:14-22 | "internal-rejection" and "submitted-to-client" are allowed values but never reported |
| SalesDashboard.UnmarkedCandidateUncounted | routes/stats.routes.js:27-47 | a candidate without a stored `isDeleted: false` changes no figure |
| SalesDashboard.LegacyCandidateQueuedButUncounted | routes/stats.routes.js:27 | a legacy candidate without `isDeleted` is in the lead queue yet changes no figure |
| SalesDashboard.RequirementCountUpdate | routes/stats.routes.js:10-11 | replacing one requirement moves a count only by that requirement's contribution |
| SalesDashboard.ClosingMovesOneRequirement | routes/stats.routes.js:10-11 | closing an open requirement moves exactly one from the open count to the closed count |

## Left out

- I/O is abstracted away:
  - e-mail bodies, subjects and the transport;
  - the Drive client, OAuth and file contents (a file is its name);
  - JWT verification, Express routing, CORS and logging.
- The test scripts are not part of this model.
- The user schema is not part of this model, because no modelled operation reads or writes it.
- Free-text record fields (client, locations, rate, notes, passport and SSN digits and similar) are not carried, because no rule reads them.
- The concurrency of `Promise.all` is not modelled. Sends and uploads are taken in order, and the outcome depends only on whether every call succeeds.
- Time zones and dates are not modelled. The clock is a parameter holding the epoch milliseconds and the local time of day.
- Unicode case mapping is not modelled. `toLowerCase` and `toUpperCase` change ASCII letters only.
- `JSON.parse` is the parameter `parse`. Only the `email` property it yields is modelled.
- The upload's normalised `workAuthorization` list is modelled by `WorkAuthorizationList`, but the candidate schema has no such path, so the saved record drops it.
- The upload's e-mail to `forwardToLeads` takes the mailer's result for the whole list. Per-address delivery is not modelled.
- Ids are well-formed ObjectIds. A malformed `_id` makes `findByIdAndUpdate` or `updateMany` throw a cast error, which the handler answers with 500. The `_id` parameters of RequirementController.AssignRequirement, AssignMultipleRequirements and UpdateRequirementStatus, and of CandidateController.ForwardCandidateToSales and UpdateCandidateFields, are keys (`Oid`), so that path is not represented.
- CandidateController.TitleFor, TitleMapAgrees, TitlesFromMap, EnrichWithTitles: `reqMap` is a plain object, so an id naming an `Object.prototype` member (`toString`, `__proto__` and the like) reads an inherited value, and `reqMap["__proto__"] = title` does not store a key. The model's map has no inherited keys, so for such ids it gives the requirement's title or the id.
- CandidateController.RequirementsWithIds: the contract states only the size bound. Titles are connected through `LastWithIdOfFetched` instead.
- Store.Db.UpdateRequirements, FindRequirementAndUpdate, FindCandidateAndUpdate: an update must keep `_id` and the business id. Every update the handlers issue does so.
- RequirementController.SubmitRequirement: the notification e-mails are built from `leadEmails` as given, not from the normalised list, as in the handler.
- CandidateController.ResolveForwardedBy: a boolean or a number in `forwardedBy` is resolved through its string form. Only the non-empty result is stated.
- SalesDashboard.ActivityCoversLive: this equality needs every live candidate to store `isActive`. A document without the path is in neither count, so in general only the bound `ActivityWithinLive` holds.

## Findings

| source | as written | input that shows it | evidently intended | confidence | as-written member | corrected member |
|---|---|---|---|---|---|---|
| controller/candidateController.js:22-47 | the body's `email` is renamed to `recruiterEmail` and never passed to `new Candidate`, while the schema marks `email` required, so `save()` always fails validation and every submission answers 500 | any body with a name, a requirement id and an e-mail, e.g. `{name: "Ann", requirementId: "R1", email: "a@b.c", phone: "1", role: "dev"}` | the candidate's e-mail is stored (as the upload handler does) | not executed | CandidateController.SubmissionAsWrittenAlwaysRefused | CandidateController.SubmittedCandidateValid |
