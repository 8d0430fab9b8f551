/** `CourseService` over a course repository modelled as a map from id to
    record. */
module CourseService {
  import opened Wrappers
  import opened JavaString
  import opened Entities
  import SemesterCalculator

  type Repository = map<string, Course>

  /** `createCourse`: the record is saved under its id. */
  function CreateCourse(repo: Repository, course: Course): (r: (Repository, Course))
    ensures r.0.Keys == repo.Keys + {course.id}
    ensures r.1 == course && r.0[course.id] == course
    ensures forall id :: id in repo && id != course.id ==> r.0[id] == repo[id]
  {
    (repo[course.id := course], course)
  }

  /** `getCourseById`. */
  function GetCourseById(repo: Repository, id: string): (r: Option<Course>)
    ensures r.Some? <==> id in repo
    ensures r.Some? ==> r.value == repo[id]
  {
    if id in repo then Some(repo[id]) else None
  }

  /** `updateCourse`: a missing id yields null and changes nothing; a present
      one gets the seven descriptive fields of `details` and keeps its own
      id, and every other course is untouched. */
  function UpdateCourse(repo: Repository, id: string, details: Course): (r: (Repository, Option<Course>))
    ensures id !in repo ==> r == (repo, None)
    ensures id in repo ==>
      && r.1.Some?
      && r.0.Keys == repo.Keys
      && r.0[id] == r.1.value
      && r.1.value.id == repo[id].id
      && r.1.value.courseCode == details.courseCode
      && r.1.value.courseName == details.courseName
      && r.1.value.instructor == details.instructor
      && r.1.value.description == details.description
      && r.1.value.department == details.department
      && r.1.value.semester == details.semester
      && r.1.value.batchYear == details.batchYear
      && (forall k :: k in repo && k != id ==> r.0[k] == repo[k])
  {
    match GetCourseById(repo, id)
    case None => (repo, None)
    case Some(course) =>
      var updated := course.(courseCode := details.courseCode, courseName := details.courseName,
                             instructor := details.instructor, description := details.description,
                             department := details.department, semester := details.semester,
                             batchYear := details.batchYear);
      (repo[id := updated], Some(updated))
  }

  /** `deleteCourse`: the id is gone afterwards, whatever was there. */
  function DeleteCourse(repo: Repository, id: string): (r: Repository)
    ensures GetCourseById(r, id).None?
    ensures forall k :: k in repo && k != id ==> k in r && r[k] == repo[k]
    ensures r.Keys <= repo.Keys
  {
    repo - {id}
  }

  /** `getCoursesBySemester` (`findByDepartmentAndSemesterAndBatchYear`). */
  function GetCoursesBySemester(repo: Repository, department: string, semester: int32, batchYear: string): (r: set<Course>)
    ensures forall c :: c in r <==>
      c in repo.Values && c.department == department && c.semester == semester && c.batchYear == batchYear
  {
    set c | c in repo.Values && c.department == department && c.semester == semester && c.batchYear == batchYear
  }

  /** `getCoursesForStudent`: the courses of the semester the batch is in
      today. The student's department and batch year may be null (an address
      without a group); the repository query then matches only a course whose
      field is null, and no course here has one, so nothing is found. The
      semester is still computed, as 0 for a null batch. */
  function GetCoursesForStudent(repo: Repository, department: Option<string>, batchYear: Option<string>,
                                today: SemesterCalculator.Today): (r: set<Course>)
    ensures forall c :: c in r <==>
      c in repo.Values && Some(c.department) == department && Some(c.batchYear) == batchYear
      && c.semester == SemesterCalculator.CalculateCurrentSemester(batchYear, today)
  {
    var currentSemester := SemesterCalculator.CalculateCurrentSemester(batchYear, today);
    if department.None? || batchYear.None? then {}
    else GetCoursesBySemester(repo, department.value, currentSemester, batchYear.value)
  }

  /** A student without a batch year is shown no courses, whatever is
      stored. */
  lemma NullBatchGetsNoCourses(repo: Repository, department: Option<string>, today: SemesterCalculator.Today)
    ensures GetCoursesForStudent(repo, department, None, today) == {}
  {
  }

  /** A batch more than four years past its start is looked up in semester
      9. */
  lemma GraduatedBatchGetsSemesterNine(repo: Repository, department: string, batchYear: string,
                                       today: SemesterCalculator.Today)
    requires SemesterCalculator.ParseBatch(Some(batchYear)).Some?
    requires today.year - (2000 + SemesterCalculator.ParseBatch(Some(batchYear)).value) > 4
    ensures GetCoursesForStudent(repo, Some(department), Some(batchYear), today) == GetCoursesBySemester(repo, department, 9, batchYear)
  {
  }

  /** `getCurrentSemesterInfo`: the date range of the batch's current
      semester; "Invalid semester" exactly when the batch does not parse or
      the computed semester is 0 (not started) or 9 (graduated). */
  function GetCurrentSemesterInfo(batchYear: Option<string>, today: SemesterCalculator.Today): (r: string)
    ensures var s := SemesterCalculator.CalculateCurrentSemester(batchYear, today);
      r == SemesterCalculator.INVALID_SEMESTER <==> s == 0 || s == 9
    ensures var s := SemesterCalculator.CalculateCurrentSemester(batchYear, today);
      1 <= s <= 8 && s % 2 == 1 ==>
        r == "August " + IntToString(today.year) + " - December " + IntToString(today.year)
    ensures var s := SemesterCalculator.CalculateCurrentSemester(batchYear, today);
      1 <= s <= 8 && s % 2 == 0 ==>
        r == "January " + IntToString(today.year) + " - May " + IntToString(today.year)
  {
    var semester := SemesterCalculator.CalculateCurrentSemester(batchYear, today);
    SemesterCalculator.GetSemesterDateRange(batchYear, semester, today)
  }
}
