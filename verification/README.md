# College resources backend — a Dafny model of its core

This project models the server side of a college resources portal. Students and admins sign up with a college e-mail address. Admins upload study material for courses. Students see the material of their own department and batch year. For any course, the portal can ask a chat model for multiple-choice questions, prompting it with text drawn from the course's previous-year papers.

The model follows the Java code as written and proves properties of it. It covers:

- **MCQ generation**:
  - `McqGeneration`: the course lookup, the selection of previous-year papers, the cut of the parsed list to the requested count.
  - `ReferenceContext`: the paper text budget.
  - `PromptBuilder`: the system prompt.
  - `JsonRepair`: the reply repair.
  - `McqController`: the request gate in front of the service.
- **Helpers**:
  - `EmailValidator`: the college address pattern.
  - `SemesterCalculator`: semester arithmetic against an explicit date.
- **Services and controllers**:
  - `CourseService`: a course repository held as a map.
  - `UserController`: the department whitelist, the signup gate and the OTP store protocol.
  - `StudyMaterialService`: material records, file extensions and public ids.
  - `StudyMaterialController`: access checks, the MIME table, download names and view URLs.
  - `ResourceService`: the group → course → resources index.
  - `DashboardController`: the dashboard table.
- **Shared**:
  - `JavaString`: the Java string operations these rely on. `indexOf`/`lastIndexOf` return -1, `trim` strips characters up to U+0020, `split` drops trailing empty fields, `Integer.parseInt` works within the 32-bit range, and `String.valueOf` renders numbers.
  - `Entities`: the records.
  - `Wrappers`: `Option` and `Result`.

A Java `null` is `None` wherever the code tests for it. An exception on a modelled path is an `Err` value or an error response. The exceptions not modelled are listed under "Left out". Outside parties are parameters:

- the clock (`Today`);
- random OTPs, UUIDs and ids;
- the password encoder's output;
- the chat model (`chat`) and the JSON reader (`parse`);
- PDF/text extraction (`extract`);
- the object store's and the disk's success flags;
- the URI check.

Where the code and its own description disagree, the model follows the code:

- The question list is parsed from the raw model reply (McqGenerationService.java line 102). The repaired text from `cleanJsonResponse` is only logged. `GenerateMcqQuestions` therefore applies `parse` to the raw reply, and the repair properties are proved about `CleanJsonResponse` on its own.
- A paper whose extracted text is empty still contributes its header. There is no "skip empty" rule.
- "Four options, exactly one correct" appears only in the prompt text. No contract checks it.
- `viewMaterial` calls `getFileUrl()`, which the StudyMaterial model class does not declare. The model reads the stored `filePath`, which holds the object URL.

## Model

| member | source | states |
|---|---|---|
| ReferenceContext.PreviousYearPapers | src/main/java/com/CollegeResources/service/McqGenerationService.java:61-64 | Every selected material is one of the course's materials with a non-null file name starting with "previous-year-paper". Every such material is selected. |
| ReferenceContext.PapersKeepListingOrder | src/main/java/com/CollegeResources/service/McqGenerationService.java:61-64 | The selection distributes over concatenation, so papers keep their listing order. |
| Streams.FilterAppend | src/main/java/com/CollegeResources/service/McqGenerationService.java:61-64 | The stream filter distributes over list concatenation. |
| ReferenceContext.FileKindOf | src/main/java/com/CollegeResources/service/McqGenerationService.java:222-234 | Text is extracted exactly when the declared type lowercases to "pdf" or "txt". A null type, "docx" or any other type is skipped. |
| ReferenceContext.Clip | src/main/java/com/CollegeResources/service/McqGenerationService.java:237-240 | Text of at most 2000 characters is kept whole. Longer text becomes its first 2000 characters plus "... (truncated)", so it is never longer than 2015. |
| ReferenceContext.Contribution | src/main/java/com/CollegeResources/service/McqGenerationService.java:221-243 | A paper is skipped exactly when its type is not "pdf" or "txt" (ignoring case) or extraction fails. Otherwise it contributes its file name and its clipped text. |
| ReferenceContext.Contributions | src/main/java/com/CollegeResources/service/McqGenerationService.java:217-252 | The loop sees one contribution per paper, in listing order. |
| ReferenceContext.AggregateFrom | src/main/java/com/CollegeResources/service/McqGenerationService.java:212-257 | The running total never decreases. The lemmas below state what the loop builds. |
| ReferenceContext.AggregateTotalBound | src/main/java/com/CollegeResources/service/McqGenerationService.java:237-249 | With clipped texts, the counted total stays below 10000 + 2015. |
| ReferenceContext.AggregateMarksOmission | src/main/java/com/CollegeResources/service/McqGenerationService.java:245-249 | The content ends with the omission marker exactly when the total reached 10000. Otherwise it is empty or ends with a newline. |
| ReferenceContext.AggregateWithinBudget | src/main/java/com/CollegeResources/service/McqGenerationService.java:217-245 | While under budget, the content is the concatenation of each contributing paper's "=== name ===\n" + text + "\n\n" block, in order. The total counts only the text. |
| ReferenceContext.AggregateStopsAtBudget | src/main/java/com/CollegeResources/service/McqGenerationService.java:243-249 | When the k-th paper first brings the total to 10000, the content is the first k blocks followed by exactly one omission marker, and later papers are ignored. |
| ReferenceContext.SkippedDocumentAddsNothing | src/main/java/com/CollegeResources/service/McqGenerationService.java:221-234 | A paper with an unsupported or null type, or whose extraction throws, leaves the aggregated content as if it were not listed. |
| ReferenceContext.EmptyTextKeepsHeader | src/main/java/com/CollegeResources/service/McqGenerationService.java:236-243 | A supported paper whose text is empty still adds its header and separator. |
| PromptBuilder.PieceOccurs | src/main/java/com/CollegeResources/service/McqGenerationService.java:168-209 | Every piece appended to the prompt builder occurs in the built string. |
| PromptBuilder.CreateSystemPrompt | src/main/java/com/CollegeResources/service/McqGenerationService.java:165-210 | The prompt contains the rendered question count, the course name, the course code, the topics and the format instructions. It contains the papers block "PREVIOUS YEAR PAPERS CONTENT:\n---\n" + content + "\n---" when papers exist, and the no-papers note otherwise. |
| PromptBuilder.Layout | src/main/java/com/CollegeResources/service/McqGenerationService.java:165-210 | For any fixed texts, the prompt contains the count, name, code, topics and format instructions. It contains the papers block when papers exist, and the no-papers note otherwise. |
| PromptBuilder.PromptIgnoresContentWithoutPapers | src/main/java/com/CollegeResources/service/McqGenerationService.java:177-186 | Without papers the prompt does not depend on the content argument. |
| JsonRepair.BracketTest | src/main/java/com/CollegeResources/service/McqGenerationService.java:121-124 | The indexOf/lastIndexOf test holds exactly when some '[' precedes some ']'. |
| JsonRepair.CodeStart | src/main/java/com/CollegeResources/service/McqGenerationService.java:132-139 | With or without "json" after the fence, the start is one past the first newline at or after the fence, or 0 when there is none. |
| JsonRepair.CodeBounds | src/main/java/com/CollegeResources/service/McqGenerationService.java:130-143 | No fence means no block. A block's bounds lie inside the reply. |
| JsonRepair.FencedBlockEnd | src/main/java/com/CollegeResources/service/McqGenerationService.java:141 | A found block ends where the last "```" begins. |
| JsonRepair.FencedBlockStart | src/main/java/com/CollegeResources/service/McqGenerationService.java:132-139 | A found block starts one past the first newline at or after the first "```", whether or not "json" follows the fence, or at 0 when there is none. |
| JsonRepair.CleanJsonResponse | src/main/java/com/CollegeResources/service/McqGenerationService.java:119-161 | The result is always a contiguous slice of the reply. With an ordered bracket pair it starts with '[' and ends with ']'. Without one it is the trimmed fenced block when there is one, and the reply itself otherwise. |
| JsonRepair.NoPairInSlice | src/main/java/com/CollegeResources/service/McqGenerationService.java:143-156 | A slice of a text without an ordered bracket pair has none either, so the inner bracket search of the fence path never succeeds. |
| JsonRepair.BracketPathSlice | src/main/java/com/CollegeResources/service/McqGenerationService.java:121-127 | With '[' first at i and ']' last at j > i, the result is exactly the inclusive slice from i to j. |
| JsonRepair.CleanKeepsArray | src/main/java/com/CollegeResources/service/McqGenerationService.java:121-127 | Text that already starts with '[' and ends with ']' is returned unchanged. |
| JsonRepair.CleanIdempotentOnBracketPath | src/main/java/com/CollegeResources/service/McqGenerationService.java:121-127 | Cleaning twice equals cleaning once whenever the bracket path applies. |
| JsonRepair.PassThrough | src/main/java/com/CollegeResources/service/McqGenerationService.java:129-160 | A reply with no ordered bracket pair and no fence is returned unchanged. |
| McqGeneration.Truncate | src/main/java/com/CollegeResources/service/McqGenerationService.java:105-110 | The list is cut to min(parsed, n) leading questions. A negative n is an error. |
| McqGeneration.GenerateMcqQuestions | src/main/java/com/CollegeResources/service/McqGenerationService.java:48-118 | An unknown course fails with CourseNotFound before the model is called. A failed call or an unparseable raw reply is an error. Success is the prefix of the parsed raw reply of length min(parsed, requested). |
| McqGeneration.ServicePrompt | src/main/java/com/CollegeResources/service/McqGenerationService.java:68-82 | With the service's texts, the system message is createSystemPrompt of the course name and code, the ", "-joined topics, the count, whether papers exist, and the aggregated paper text. |
| McqGeneration.SystemMessageContents | src/main/java/com/CollegeResources/service/McqGenerationService.java:66-82 | The system message names the count, course name, code and ", "-joined topics. It carries the papers block with the aggregated text when some paper matched, and the no-papers note otherwise. |
| McqGeneration.SkippedPaperStillGivesBlock | src/main/java/com/CollegeResources/service/McqGenerationService.java:66-79 | A matched paper that contributes nothing still yields the papers block, with empty content. |
| McqGeneration.UnknownCourseNeverCallsModel | src/main/java/com/CollegeResources/service/McqGenerationService.java:50-53 | For an unknown course the outcome does not depend on the model or the reader. |
| McqController.ClampCount | src/main/java/com/CollegeResources/controller/McqController.java:28-34 | A count ≤ 0 becomes 15 and a count > 30 becomes 30. A count in [1,30] passes unchanged, so the result is always in [1,30]. |
| McqController.GenerateMcqs | src/main/java/com/CollegeResources/controller/McqController.java:20-47 | Null or empty topics give 400 without calling the service. Any service error gives 500 with no list. Success carries exactly the service's list. |
| McqController.ResponseWithinLimit | src/main/java/com/CollegeResources/controller/McqController.java:28-43 | A successful response never holds more than 30 questions. |
| McqController.ClampedCountNeverInvalid | src/main/java/com/CollegeResources/controller/McqController.java:28-37 | The clamped count never makes the cut fail. |
| EmailValidator.PecEmailShape | src/main/java/com/CollegeResources/utils/EmailValidator.java:17-20 | A college address is exactly some text followed by "@pec.edu.in". |
| EmailValidator.MatchGroup | src/main/java/com/CollegeResources/utils/EmailValidator.java:9-10 | A found group fits the pattern: a non-empty [A-Za-z0-9.] prefix, a dot, then "bt", two digits and letters, then the domain. |
| EmailValidator.ExtractBatchAndDepartment | src/main/java/com/CollegeResources/utils/EmailValidator.java:27-35 | A non-null group comes only from a college address and matches the pattern. |
| EmailValidator.ExtractComplete | src/main/java/com/CollegeResources/utils/EmailValidator.java:9-10 | Every address fitting the pattern yields its group. |
| EmailValidator.PecEmailWithoutGroup | src/main/java/com/CollegeResources/utils/EmailValidator.java:17-34 | "x@pec.edu.in" is a college address without a group. |
| EmailValidator.UnderscoreDefeatsPattern | src/main/java/com/CollegeResources/utils/EmailValidator.java:9-34 | An underscore in the local part defeats the pattern, even in the domain. |
| EmailValidator.ExtractBatchYear | src/main/java/com/CollegeResources/utils/EmailValidator.java:40-46 | A non-null batch year is two digits. |
| EmailValidator.ExtractDepartment | src/main/java/com/CollegeResources/utils/EmailValidator.java:51-57 | A non-null department is a non-empty run of letters. |
| EmailValidator.YearAndDepartmentRebuildGroup | src/main/java/com/CollegeResources/utils/EmailValidator.java:40-57 | Year and department are both present or both absent, and "bt" + year + department is the group. |
| SemesterCalculator.ParseBatch | src/main/java/com/CollegeResources/utils/SemesterCalculator.java:16-22 | A batch parses exactly when it is a non-null two-character string that `parseInt` accepts. The value lies in -9..99. Two digits parse to their decimal value, so "23" is 23. |
| SemesterCalculator.CalculateCurrentSemester | src/main/java/com/CollegeResources/utils/SemesterCalculator.java:15-69 | The result is always in 0..9, and 0 for an unparseable batch. With y = year − (2000 + batch): y < 0 gives 0 and y > 4 gives 9. Otherwise Aug–Dec gives 2y+1, Jan–May gives 2 for y = 0 and 2y after, and Jun–Jul gives 1 for y = 0 and 2y−1 after. |
| SemesterCalculator.GetSemesterDateRange | src/main/java/com/CollegeResources/utils/SemesterCalculator.java:78-104 | The result is "Invalid semester" exactly when the batch does not parse or the semester is outside 1..8. Otherwise an odd semester gives "August Y - December Y" and an even one "January Y - May Y", with Y the current year. |
| SemesterCalculator.DateRangeIgnoresBatchValue | src/main/java/com/CollegeResources/utils/SemesterCalculator.java:84-100 | Two batches that both parse give the same range. |
| CourseService.CreateCourse | src/main/java/com/CollegeResources/service/CourseService.java:23-25 | The course is stored under its id and nothing else changes. |
| CourseService.GetCourseById | src/main/java/com/CollegeResources/service/CourseService.java:56-58 | The lookup is present exactly for stored ids. |
| CourseService.UpdateCourse | src/main/java/com/CollegeResources/service/CourseService.java:30-44 | A missing id gives null and no change. A present id gets exactly the seven copied fields, keeps its id, and leaves other courses untouched. |
| CourseService.DeleteCourse | src/main/java/com/CollegeResources/service/CourseService.java:63-65 | The id is absent afterwards, and the other courses are unchanged. |
| CourseService.GetCoursesBySemester | src/main/java/com/CollegeResources/service/CourseService.java:82-85 | The result holds exactly the stored courses of that department, semester and batch year. |
| CourseService.GetCoursesForStudent | src/main/java/com/CollegeResources/service/CourseService.java:70-77 | A course is returned exactly when it is stored with the student's department and batch, and its semester is the batch's current semester. A null department or batch year matches no course. |
| CourseService.GraduatedBatchGetsSemesterNine | src/main/java/com/CollegeResources/service/CourseService.java:70-77 | A batch more than four years past its start is looked up in semester 9. |
| CourseService.NullBatchGetsNoCourses | src/main/java/com/CollegeResources/service/CourseService.java:70-77 | A student with a null batch year gets no courses, whatever is stored. |
| CourseService.GetCurrentSemesterInfo | src/main/java/com/CollegeResources/service/CourseService.java:90-93 | "Invalid semester" exactly when the computed semester is 0 or 9. An odd semester in 1..8 gives "August Y - December Y", and an even one gives "January Y - May Y", with Y the current year. |
| UserController.FirstMatch | src/main/java/com/CollegeResources/controller/UserController.java:175-179 | The scan succeeds exactly when some listed name equals the input ignoring case. |
| UserController.IsValidDepartment | src/main/java/com/CollegeResources/controller/UserController.java:168-182 | Valid exactly when non-null and equal, ignoring case, to one of the ten listed departments. |
| UserController.ValidDepartmentIsListedLowercase | src/main/java/com/CollegeResources/controller/UserController.java:173-179 | Valid exactly when the lowercased name is in the list. |
| UserController.Signup | src/main/java/com/CollegeResources/controller/UserController.java:42-76 | The gates run in order: existing email, non-admin non-college address, non-admin missing or invalid department. Every rejection leaves the state unchanged. An accepted address gets its four-digit OTP stored under the email. If the mail then fails, the endpoint answers 500 and stores nothing else. Otherwise it also stores "name,encodedPassword" under email+"_data". |
| UserController.NewUser | src/main/java/com/CollegeResources/controller/UserController.java:88-114 | The role is ADMIN exactly for the admin address, which gets no cohort fields. A student's group, batch, department, semester and date range come from the address and today's date. |
| UserController.VerifyOtp | src/main/java/com/CollegeResources/controller/UserController.java:78-123 | A missing or wrong OTP gives 400 and no change. Missing or unsplittable pending data gives 500 after only the OTP entry is removed. Otherwise one account is saved and both entries are removed. |
| UserController.FailedMailBreaksVerification | src/main/java/com/CollegeResources/controller/UserController.java:67-86 | After a signup whose mail failed, verifying with the stored OTP answers 500 and only removes the OTP, for an address with no earlier pending data. |
| UserController.SignupThenVerify | src/main/java/com/CollegeResources/controller/UserController.java:67-119 | Verifying with the OTP that signup stored saves exactly one account with the submitted name and encoded password, and leaves no pending entry. |
| UserController.CommaInNameIsTruncated | src/main/java/com/CollegeResources/controller/UserController.java:72-86 | A name containing a comma is saved up to its first comma, with the rest saved as the password. |
| StudyMaterialService.GetFileExtension | src/main/java/com/CollegeResources/service/StudyMaterialService.java:166-175 | "" for null or dot-free names. Otherwise the name ends with "." + the result, which contains no dot. |
| StudyMaterialService.UploadMaterial | src/main/java/com/CollegeResources/service/StudyMaterialService.java:49-102 | An empty file, or a failed store, is an error and stores nothing. Success appends one record: original name, extension as type, path "https://"+bucket+".s3."+region+".amazonaws.com/"+uuid+"."+extension. |
| StudyMaterialService.MaterialsByCourse | src/main/java/com/CollegeResources/service/StudyMaterialService.java:113-115 | Exactly the course's records are listed. |
| StudyMaterialService.GetMaterialById | src/main/java/com/CollegeResources/service/StudyMaterialService.java:120-122 | The lookup is absent exactly when no record has the id. |
| StudyMaterialService.UpdateMaterialDetails | src/main/java/com/CollegeResources/service/StudyMaterialService.java:145-154 | A missing id gives null and no change. Otherwise only title and description change, and other records are untouched. |
| StudyMaterialService.DeleteKeepsMaterial | src/main/java/com/CollegeResources/service/StudyMaterialService.java:127-140 | Deleting leaves the material retrievable. |
| StudyMaterialService.LastUploadBefore | src/main/java/com/CollegeResources/service/StudyMaterialService.java:188-191 | The position of the last "upload" segment before n, or -1. |
| StudyMaterialService.ExtractPublicIdFromUrl | src/main/java/com/CollegeResources/service/StudyMaterialService.java:177-198 | The result equals the reference public id: the segments after the last "upload" segment, excluding the last segment, each followed by "/", then the last segment without its extension. A URL without segments, or with a dot-free last segment, is an error. |
| StudyMaterialService.PublicIdFromSegments | src/main/java/com/CollegeResources/service/StudyMaterialService.java:182-195 | Over the split segments: an empty list or a dot-free last segment is an error, and otherwise the result is the reference public id. |
| StudyMaterialService.FolderPrefix | src/main/java/com/CollegeResources/service/StudyMaterialService.java:186-191 | The backward scan yields the segments between the last "upload" before n and n, each followed by "/". |
| StudyMaterialController.DetermineContentType | src/main/java/com/CollegeResources/controller/StudyMaterialController.java:438-465 | Null maps to octet-stream. Otherwise the lowercased extension is looked up in the eleven-entry table, defaulting to octet-stream. |
| StudyMaterialController.ContentTypeIgnoresCase | src/main/java/com/CollegeResources/controller/StudyMaterialController.java:442 | Two types equal ignoring case map to the same content type. |
| StudyMaterialController.CourseAccess | src/main/java/com/CollegeResources/controller/StudyMaterialController.java:80-100 | Access is allowed exactly for an admin, or for a student when the course exists and both its department and batch year equal the student's. |
| StudyMaterialController.GetMaterialsForCourse | src/main/java/com/CollegeResources/controller/StudyMaterialController.java:76-104 | The course's materials are returned exactly when access is allowed. Otherwise the response is 401, 404 or 403. |
| StudyMaterialController.DownloadMaterial | src/main/java/com/CollegeResources/controller/StudyMaterialController.java:107-188 | An unknown material is 404. A download is served exactly when access is allowed and the file exists. It carries the content type of the declared type and the original name as attachment name. |
| StudyMaterialController.UploadMaterial | src/main/java/com/CollegeResources/controller/StudyMaterialController.java:192-222 | A non-admin gets 403 and an unknown course 400, both before storage. Success is 201 with the service's record, uploaded by the admin's email. |
| StudyMaterialController.UpdateMaterialDetails | src/main/java/com/CollegeResources/controller/StudyMaterialController.java:226-246 | A non-admin gets 403 and an unknown id 404. The update succeeds exactly for an admin and an existing id. It then returns the record with the new title and description, stores the service's updated list, and leaves every other record untouched. |
| StudyMaterialController.DeleteMaterial | src/main/java/com/CollegeResources/controller/StudyMaterialController.java:250-271 | Success is reported exactly for an admin and an existing id. The store comes back unchanged on every path. |
| StudyMaterialController.DeleteReportsSuccessButKeepsMaterial | src/main/java/com/CollegeResources/controller/StudyMaterialController.java:259-266 | After a successful delete response, the material is still retrievable. |
| StudyMaterialController.GetAllMaterials | src/main/java/com/CollegeResources/controller/StudyMaterialController.java:275-286 | Only an admin gets the full list. |
| StudyMaterialController.FallbackExtension | src/main/java/com/CollegeResources/controller/StudyMaterialController.java:323 | The whole name when it has no dot. Otherwise the text after the last dot. |
| StudyMaterialController.DirectDownloadContentType | src/main/java/com/CollegeResources/controller/StudyMaterialController.java:321-325 | A stored type other than octet-stream is kept. Otherwise the file name's extension decides. |
| StudyMaterialController.DispositionName | src/main/java/com/CollegeResources/controller/StudyMaterialController.java:331-332 | The whole name when it has no '-'. Otherwise the text after the first '-'. |
| StudyMaterialController.ViewUrl | src/main/java/com/CollegeResources/controller/StudyMaterialController.java:394-398 | The target always starts with "https://" and ends with the stored URL. A URL already on https is kept as is. |
| StudyMaterialController.ViewMaterial | src/main/java/com/CollegeResources/controller/StudyMaterialController.java:383-434 | An unknown id is 404. For a known id the answer is a redirect to the view URL of the stored path exactly when that URL is absolute, and 500 otherwise. |
| ResourceService.GetAllResourcesForGroup | src/main/java/com/CollegeResources/service/ResourceService.java:99-101 | An unknown group has an empty index. |
| ResourceService.GetResourcesForCourse | src/main/java/com/CollegeResources/service/ResourceService.java:92-96 | An unknown group or course has an empty list. |
| ResourceService.AddResource | src/main/java/com/CollegeResources/service/ResourceService.java:81-83 | The record is appended to the (group, course) list and missing levels are created. Every other list is unchanged. |
| ResourceService.AddLeavesOthers | src/main/java/com/CollegeResources/service/ResourceService.java:52-54 | Adding under one pair leaves another pair's list unchanged. |
| ResourceService.StoreFile | src/main/java/com/CollegeResources/service/ResourceService.java:58-89 | An empty file or a failed write is an error with the index unchanged. Success appends ResourceInfo(fileId, title, original name) and names the disk file fileId + "_" + original name. |
| ResourceService.SeededContents | src/main/java/com/CollegeResources/service/ResourceService.java:38-49 | The seeded index has three groups. bt23cseds/DSA holds "Introduction to Algorithms" then "Sorting Algorithms". Every other seeded list holds one record. |
| DashboardController.CreateCourseInfo | src/main/java/com/CollegeResources/controller/DashboardController.java:99-104 | Exactly the keys "name" and "instructor", with the given values. |
| DashboardController.GenerateCoursesData | src/main/java/com/CollegeResources/controller/DashboardController.java:65-97 | Key sets per department (ignoring case) and batch "23"/"24": cseds {DSA, OS, DBMS} / {PF, DM}; cseai {AI, ML} / {PF, DL}; mech {TF, FM} / {EM, MS}. Anything else gives an empty map. Every entry has exactly the keys name and instructor. |
| DashboardController.DepartmentsExclusive | src/main/java/com/CollegeResources/controller/DashboardController.java:69-86 | At most one department branch applies. |
| DashboardController.GetDashboardData | src/main/java/com/CollegeResources/controller/DashboardController.java:27-62 | An unknown user gets 400. Otherwise an admin gets the admin dashboard and a student gets the student dashboard. |
| DashboardController.AdminFields | src/main/java/com/CollegeResources/controller/DashboardController.java:37-46 | Exactly name, email, type "admin" and the message "Welcome to the Admin Dashboard". There is no course entry. |
| DashboardController.StudentFields | src/main/java/com/CollegeResources/controller/DashboardController.java:37-59 | Exactly nine entries. Name and email are the account's. The type is "student". Group, batch year, department, semester and date range are the account's own values, null included. The courses are the table of its batch and department. |
| JavaString.SliceOfSlice | src/main/java/com/CollegeResources/service/McqGenerationService.java:145 | A slice of a slice is a slice of the original text. |
| JavaString.FieldsJoin | src/main/java/com/CollegeResources/controller/UserController.java:84 | Joining the split fields with the delimiter restores the text. |
| JavaString.ParseIntOfIntToString | src/main/java/com/CollegeResources/controller/UserController.java:67 | Integer.parseInt undoes String.valueOf for every int. |
| JavaString.ParseIntTwoChars | src/main/java/com/CollegeResources/utils/SemesterCalculator.java:16-22 | A two-character string parses to a value in -9..99. |
| JavaString.Trim | src/main/java/com/CollegeResources/service/McqGenerationService.java:145 | The result is the input with blanks cut from its two ends only. It has no blank at either end. It is empty exactly when the input is all blanks. |
| JavaString.TrimUnique | src/main/java/com/CollegeResources/service/McqGenerationService.java:145 | Any blanks-only cut that is empty or has non-blank ends is the trimmed string. |

## Left out

- PDF and text-file reading (`extractTextFromPdf`, `extractTextFromTxt`): disk I/O and PDFBox. Both are the `extract` parameter, where None stands for an exception that skips the paper.
- The chat model call and Jackson parsing: foreign code. They are the `chat` and `parse` parameters.
- S3 client use, servlet streaming and local file serving: network and disk I/O. Only their success flags and the string rules around them are modelled.
- `Files.createDirectories`/`Files.copy` in ResourceService: disk I/O. Only the index update is modelled.
- `Math.random`, `UUID.randomUUID`, the password encoder, JWT, the mail itself and `login`: randomness, cryptography and mail. OTPs, ids and encoded passwords are inputs. Whether the OTP mail was sent is the `mailSent` input of `Signup`.
- `LocalDate.now()` and `LocalDateTime.now()`: clock reads, given as `Today`. The `uploadDate` field is not modelled.
- The URI syntax check in `viewMaterial`: the `isAbsoluteUri` parameter.
- CourseController, ResourceController, AdminController, `searchMaterialsByTitle` and the repository interfaces: routing and derived queries. Repositories are maps or sequences.
- Null strings: the model takes e-mails, names, course fields, topics and request bodies as non-null strings, except where the code checks for null. The code does not always throw on null. A null signup name is concatenated as "null" (UserController.java:72-73), so verification saves a user named "null". `updateCourse` copies null fields without complaint (CourseService.java:34-40). `String.join` renders a null topic as "null" (McqGenerationService.java:77).
- CourseService.GetCoursesForStudent: course fields are non-null strings here. A null department or batch year therefore matches no course. In MongoDB a null query argument would also match a stored course whose field is null or missing.
- Thread safety of the `otpStore` and `resourcesByGroup` hash maps: concurrency.
- JavaString.ToLower: case conversion is modelled on ASCII letters only. Java's Unicode rules (for example the Kelvin sign) are not modelled. The same holds for `equalsIgnoreCase`.
- JavaString.ParseInt: only ASCII digits are accepted. Java also accepts other Unicode decimal digits.
- UserController.NewUser: the User class is not part of this model. An admin's unset semester is `None`, where the code leaves the field's default.
- McqGeneration.GenerateMcqQuestions: an exception thrown by the course or material repository is not modelled.
- CourseService.CreateCourse: MongoDB gives a course posted without an id a fresh id on save (CourseService.java:23-25). The model stores the record under `course.id` as given.
- StudyMaterialService.UploadMaterial: the id MongoDB assigns on save is the `newId` parameter.
- UserController.VerifyOtp: the id MongoDB assigns to the saved user is not modelled.
- ReferenceContext.Clip: Java's `length()` and `substring(0, 2000)` count UTF-16 code units, while a Dafny `char` is a Unicode scalar value. Text outside the Basic Multilingual Plane is therefore counted once per character rather than twice, and the model cannot cut a surrogate pair in half as `substring` can.
- ReferenceContext.AggregateFrom: the running total adds clipped lengths in Unicode scalar values rather than UTF-16 code units, for the same reason. A paper of supplementary-plane characters reaches the 10000 budget later than in the code.
- McqGeneration.GenerateMcqQuestions: the prompt's fixed texts are the `template` field of the collaborators rather than constants. McqGeneration.ServicePrompt ties the message to `createSystemPrompt` when that field holds the service's own texts.
