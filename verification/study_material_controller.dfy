/** `StudyMaterialController`: the access checks in front of the material
    endpoints, the MIME table, and the download-name and view-URL string
    rules. The authenticated user's record, the disk and object-store
    answers and the URI check are parameters. */
module StudyMaterialController {
  import opened Wrappers
  import opened JavaString
  import opened Entities
  import CourseService
  import StudyMaterialService

  const OCTET_STREAM := "application/octet-stream"

  const HTTPS := "https://"

  /** The content type per lowercase extension, as the `switch` lists it. */
  const CONTENT_TYPES: map<string, string> := map[
    "pdf" := "application/pdf",
    "doc" := "application/msword",
    "docx" := "application/msword",
    "xls" := "application/vnd.ms-excel",
    "xlsx" := "application/vnd.ms-excel",
    "ppt" := "application/vnd.ms-powerpoint",
    "pptx" := "application/vnd.ms-powerpoint",
    "jpg" := "image/jpeg",
    "jpeg" := "image/jpeg",
    "png" := "image/png",
    "txt" := "text/plain"]

  datatype HttpStatus = BadRequest | Unauthorized | Forbidden | NotFound | InternalServerError

  datatype Response<T> = Success(body: T) | Created(body: T) | Found(location: string) | Refused(status: HttpStatus)

  /** `determineContentType`: null gives the octet-stream type; otherwise the
      lowercased extension is looked up in the table, falling back to the
      octet-stream type. */
  function DetermineContentType(fileExtension: Option<string>): (r: string)
    ensures fileExtension.None? ==> r == OCTET_STREAM
    ensures fileExtension.Some? && ToLower(fileExtension.value) in CONTENT_TYPES ==>
      r == CONTENT_TYPES[ToLower(fileExtension.value)]
    ensures fileExtension.Some? && ToLower(fileExtension.value) !in CONTENT_TYPES ==> r == OCTET_STREAM
  {
    if fileExtension.None? then OCTET_STREAM
    else
      var e := ToLower(fileExtension.value);
      if e == "pdf" then "application/pdf"
      else if e == "doc" || e == "docx" then "application/msword"
      else if e == "xls" || e == "xlsx" then "application/vnd.ms-excel"
      else if e == "ppt" || e == "pptx" then "application/vnd.ms-powerpoint"
      else if e == "jpg" || e == "jpeg" then "image/jpeg"
      else if e == "png" then "image/png"
      else if e == "txt" then "text/plain"
      else OCTET_STREAM
  }

  /** The lookup ignores case. */
  lemma ContentTypeIgnoresCase(a: string, b: string)
    requires EqualsIgnoreCase(a, b)
    ensures DetermineContentType(Some(a)) == DetermineContentType(Some(b))
  {
  }

  /** Who may see a course's materials. */
  datatype Access = NoUser | CourseMissing | WrongCohort | Allowed

  /** The check shared by listing and downloading: an unknown user is
      refused; an admin always passes; a student passes when the course
      exists and both its department and its batch year equal the student's. */
  function CourseAccess(user: Option<User>, courses: CourseService.Repository, courseId: string): (r: Access)
    ensures r == NoUser <==> user.None?
    ensures r == Allowed <==> (user.Some? &&
      (user.value.role == ADMIN ||
       (courseId in courses && Some(courses[courseId].department) == user.value.department
        && Some(courses[courseId].batchYear) == user.value.batchYear)))
    ensures r == CourseMissing <==> (user.Some? && user.value.role != ADMIN && courseId !in courses)
  {
    if user.None? then NoUser
    else if user.value.role != ADMIN then
      match CourseService.GetCourseById(courses, courseId)
      case None => CourseMissing
      case Some(course) =>
        if Some(course.department) != user.value.department || Some(course.batchYear) != user.value.batchYear
        then WrongCohort
        else Allowed
    else Allowed
  }

  function Refusal(a: Access): HttpStatus {
    match a
    case NoUser => Unauthorized
    case CourseMissing => NotFound
    case WrongCohort => Forbidden
    case Allowed => InternalServerError
  }

  /** `getMaterialsForCourse`: the course's materials once access is granted,
      401/404/403 otherwise. */
  function GetMaterialsForCourse(user: Option<User>, courses: CourseService.Repository,
                                 store: StudyMaterialService.Store, courseId: string): (r: Response<StudyMaterialService.Store>)
    ensures r.Success? <==> CourseAccess(user, courses, courseId) == Allowed
    ensures r.Success? ==> r.body == StudyMaterialService.MaterialsByCourse(store, courseId)
    ensures !r.Success? ==> r == Refused(Refusal(CourseAccess(user, courses, courseId)))
  {
    var access := CourseAccess(user, courses, courseId);
    if access != Allowed then Refused(Refusal(access))
    else Success(StudyMaterialService.MaterialsByCourse(store, courseId))
  }

  /** The headers a served download carries. */
  datatype Download = Download(material: StudyMaterial, contentType: string, disposition: string)

  /** `downloadMaterial`: an unknown material is 404 before the user is even
      looked at; then the course access check; then a file missing on disk
      is 404; otherwise the file is served with the content type of its
      declared type and its original name as attachment name. */
  function DownloadMaterial(user: Option<User>, courses: CourseService.Repository,
                            store: StudyMaterialService.Store, materialId: string,
                            fileOnDisk: bool): (r: Response<Download>)
    ensures StudyMaterialService.GetMaterialById(store, materialId).None? ==> r == Refused(NotFound)
    ensures r.Success? <==>
      StudyMaterialService.GetMaterialById(store, materialId).Some?
      && CourseAccess(user, courses, StudyMaterialService.GetMaterialById(store, materialId).value.courseId) == Allowed
      && fileOnDisk
    ensures r.Success? ==>
      var m := StudyMaterialService.GetMaterialById(store, materialId).value;
      && r.body.material == m
      && r.body.contentType == DetermineContentType(m.fileType)
      && r.body.disposition == "attachment; filename=\"" + StringOf(m.fileName) + "\""
  {
    match StudyMaterialService.GetMaterialById(store, materialId)
    case None => Refused(NotFound)
    case Some(m) =>
      var access := CourseAccess(user, courses, m.courseId);
      if access != Allowed then Refused(Refusal(access))
      else if !fileOnDisk then Refused(NotFound)
      else Success(Download(m, DetermineContentType(m.fileType), "attachment; filename=\"" + StringOf(m.fileName) + "\""))
  }

  predicate IsAdmin(user: Option<User>) {
    user.Some? && user.value.role == ADMIN
  }

  /** `uploadMaterial` (endpoint): a missing or non-admin user is 403 and an
      unknown course 400, both before anything is stored; a failing service
      call is 500; success is 201 with the saved record, uploaded by the
      admin's email. */
  function UploadMaterial(user: Option<User>, courses: CourseService.Repository,
                          store: StudyMaterialService.Store, file: StudyMaterialService.UploadedFile,
                          title: string, description: string, courseId: string,
                          uuid: string, bucket: string, region: string, stored: bool,
                          newId: string): (r: (StudyMaterialService.Store, Response<StudyMaterial>))
    ensures !IsAdmin(user) ==> r == (store, Refused(Forbidden))
    ensures IsAdmin(user) && courseId !in courses ==> r == (store, Refused(BadRequest))
    ensures r.1.Created? <==> IsAdmin(user) && courseId in courses && file.size > 0 && stored
    ensures !r.1.Created? ==> r.0 == store
    ensures r.1.Created? ==>
      var s := StudyMaterialService.UploadMaterial(store, file, title, description, courseId,
                                                   user.value.email, uuid, bucket, region, stored, newId);
      s.Ok? && r == (s.value.0, Created(s.value.1)) && r.1.body.uploadedBy == user.value.email
  {
    if !IsAdmin(user) then (store, Refused(Forbidden))
    else if CourseService.GetCourseById(courses, courseId).None? then (store, Refused(BadRequest))
    else
      match StudyMaterialService.UploadMaterial(store, file, title, description, courseId,
                                                user.value.email, uuid, bucket, region, stored, newId)
      case Err(_) => (store, Refused(InternalServerError))
      case Ok((s, m)) => (s, Created(m))
  }

  /** `updateMaterialDetails` (endpoint): 403 for a non-admin, 404 for an
      unknown id, otherwise the service's update. */
  function UpdateMaterialDetails(user: Option<User>, store: StudyMaterialService.Store, id: string,
                                 title: string, description: string): (r: (StudyMaterialService.Store, Response<StudyMaterial>))
    ensures !IsAdmin(user) ==> r == (store, Refused(Forbidden))
    ensures IsAdmin(user) && StudyMaterialService.GetMaterialById(store, id).None? ==> r == (store, Refused(NotFound))
    ensures r.1.Success? ==>
      var m := StudyMaterialService.GetMaterialById(store, id).value;
      r.1.body == m.(title := title, description := description)
      && StudyMaterialService.GetMaterialById(r.0, id) == Some(r.1.body)
    ensures r.1.Success? <==> IsAdmin(user) && StudyMaterialService.GetMaterialById(store, id).Some?
    ensures r.1.Success? ==>
      && r.0 == StudyMaterialService.UpdateMaterialDetails(store, id, title, description).0
      && |r.0| == |store|
      && (forall k :: 0 <= k < |store| && store[k].id != id ==> r.0[k] == store[k])
  {
    if !IsAdmin(user) then (store, Refused(Forbidden))
    else if StudyMaterialService.GetMaterialById(store, id).None? then (store, Refused(NotFound))
    else
      var (s, m) := StudyMaterialService.UpdateMaterialDetails(store, id, title, description);
      (s, Success(m.value))
  }

  const DELETED := "Material deleted successfully"

  /** `deleteMaterial` (endpoint): 403 for a non-admin, 404 for an unknown
      id, otherwise the service's (empty) delete and a success message. */
  function DeleteMaterial(user: Option<User>, store: StudyMaterialService.Store, id: string): (r: (StudyMaterialService.Store, Response<string>))
    ensures !IsAdmin(user) ==> r.1 == Refused(Forbidden)
    ensures IsAdmin(user) && StudyMaterialService.GetMaterialById(store, id).None? ==> r.1 == Refused(NotFound)
    ensures r.1.Success? <==> IsAdmin(user) && StudyMaterialService.GetMaterialById(store, id).Some?
    ensures r.0 == store
  {
    if !IsAdmin(user) then (store, Refused(Forbidden))
    else if StudyMaterialService.GetMaterialById(store, id).None? then (store, Refused(NotFound))
    else (StudyMaterialService.DeleteMaterial(store, id), Success(DELETED))
  }

  /** The delete endpoint reports success while the material stays
      retrievable, unchanged. */
  lemma DeleteReportsSuccessButKeepsMaterial(user: Option<User>, store: StudyMaterialService.Store, id: string)
    requires IsAdmin(user) && StudyMaterialService.GetMaterialById(store, id).Some?
    ensures var (s, resp) := DeleteMaterial(user, store, id);
      resp == Success(DELETED) && StudyMaterialService.GetMaterialById(s, id) == StudyMaterialService.GetMaterialById(store, id)
  {
    StudyMaterialService.DeleteKeepsMaterial(store, id);
  }

  /** `getAllMaterials` (endpoint). */
  function GetAllMaterials(user: Option<User>, store: StudyMaterialService.Store): (r: Response<StudyMaterialService.Store>)
    ensures r.Success? <==> IsAdmin(user)
    ensures r.Success? ==> r.body == store
    ensures !r.Success? ==> r == Refused(Forbidden)
  {
    if !IsAdmin(user) then Refused(Forbidden) else Success(store)
  }

  /** The extension `directDownload` falls back on: the text after the last
      '.', or the whole name when there is none (`lastIndexOf` gives -1). */
  function FallbackExtension(filename: string): (r: string)
    ensures '.' !in filename ==> r == filename
    ensures '.' in filename ==> EndsWith(filename, "." + r) && '.' !in r
  {
    var dot := LastIndexOfChar(filename, '.');
    if dot < 0 then filename
    else
      var r := filename[dot + 1..];
      assert filename[|filename| - |"." + r|..] == "." + r;
      r
  }

  /** The content type `directDownload` sends: the stored one, unless it is
      missing or the octet-stream type, in which case the file name's
      extension decides. */
  function DirectDownloadContentType(filename: string, stored: Option<string>): (r: string)
    ensures stored.Some? && stored.value != OCTET_STREAM ==> r == stored.value
    ensures stored.None? || stored.value == OCTET_STREAM ==> r == DetermineContentType(Some(FallbackExtension(filename)))
  {
    if stored.None? || stored.value == OCTET_STREAM then DetermineContentType(Some(FallbackExtension(filename)))
    else stored.value
  }

  /** The attachment name of `directDownload`: the text after the first '-'
      (which strips the generated prefix of a stored key), or the whole name
      when it has no '-'. */
  function DispositionName(filename: string): (r: string)
    ensures '-' !in filename ==> r == filename
    ensures '-' in filename ==>
      |r| < |filename| && EndsWith(filename, r)
      && filename[|filename| - |r| - 1] == '-' && '-' !in filename[..|filename| - |r| - 1]
  {
    var dash := IndexOfChar(filename, '-');
    if dash >= 0 then
      var r := filename[dash + 1..];
      assert filename[..|filename| - |r| - 1] == filename[..dash];
      r
    else filename
  }

  function DispositionHeader(filename: string): string {
    "attachment; filename=\"" + DispositionName(filename) + "\""
  }

  /** The object-store base URL for the bucket. */
  function BucketBase(bucket: string, region: string): string {
    HTTPS + bucket + ".s3." + region + ".amazonaws.com/"
  }

  /** The redirect target of `viewMaterial`: a stored URL already on
      "https://" is kept, anything else is put under the bucket's base URL.
      Either way it starts with "https://" and ends with the stored text. */
  function ViewUrl(fileUrl: string, bucket: string, region: string): (r: string)
    ensures StartsWith(r, HTTPS) && EndsWith(r, fileUrl)
    ensures StartsWith(fileUrl, HTTPS) ==> r == fileUrl
    ensures !StartsWith(fileUrl, HTTPS) ==> r == BucketBase(bucket, region) + fileUrl
  {
    if StartsWith(fileUrl, HTTPS) then fileUrl
    else
      var r := BucketBase(bucket, region) + fileUrl;
      assert r[..|HTTPS|] == HTTPS;
      assert r[|r| - |fileUrl|..] == fileUrl;
      r
  }

  /** `viewMaterial`: 404 for an unknown id, 500 when the target is not an
      absolute URI, else a redirect to the view URL of the stored path. */
  function ViewMaterial(store: StudyMaterialService.Store, id: string, bucket: string, region: string,
                        isAbsoluteUri: string -> bool): (r: Response<string>)
    ensures StudyMaterialService.GetMaterialById(store, id).None? ==> r == Refused(NotFound)
    ensures r.Found? ==>
      StudyMaterialService.GetMaterialById(store, id).Some? &&
      r.location == ViewUrl(StudyMaterialService.GetMaterialById(store, id).value.filePath, bucket, region) &&
      StartsWith(r.location, HTTPS)
    ensures StudyMaterialService.GetMaterialById(store, id).Some? ==>
      var url := ViewUrl(StudyMaterialService.GetMaterialById(store, id).value.filePath, bucket, region);
      (r.Found? <==> isAbsoluteUri(url)) && (!isAbsoluteUri(url) ==> r == Refused(InternalServerError))
  {
    match StudyMaterialService.GetMaterialById(store, id)
    case None => Refused(NotFound)
    case Some(m) =>
      var url := ViewUrl(m.filePath, bucket, region);
      if !isAbsoluteUri(url) then Refused(InternalServerError) else Found(url)
  }
}
